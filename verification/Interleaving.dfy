/** One upload among others: the chunks of a connection's body come interleaved with anything that
    other connections do. */
module Interleaving {
  import opened Search
  import opened Registry
  import opened Scanner
  import S = SettledScanner
  import U = UploadTheorems
  import opened Sharing
  import opened Wrappers

  // ---- A chunk is a run of events ----

  lemma {:induction false} RunAppend(sys: System, limits: Limits, es: seq<Event>, fs: seq<Event>)
    requires EnabledRun(sys, limits, es) && EnabledRun(After(sys, limits, es), limits, fs)
    ensures EnabledRun(sys, limits, es + fs)
    ensures After(sys, limits, es + fs) == After(After(sys, limits, es), limits, fs)
    decreases |es|
  {
    if es == [] {
      assert es + fs == fs;
    } else {
      assert (es + fs)[1..] == es[1..] + fs;
      RunAppend(Next(sys, limits, es[0]), limits, es[1..], fs);
    }
  }

  lemma MoreIsEvents(c: Config, sys: System, limits: Limits, conn: nat, s: Scan, es: seq<Event>, rest: seq<Event>)
    requires EnabledRun(sys, limits, es) && AllOf(es, conn)
    requires EnabledRun(After(sys, limits, es), limits, rest) && AllOf(rest, conn)
    requires Matches(After(After(sys, limits, es), limits, rest), conn, s)
    ensures EnabledRun(sys, limits, es + rest) && AllOf(es + rest, conn)
    ensures Matches(After(sys, limits, es + rest), conn, s)
  {
    RunAppend(sys, limits, es, rest);
  }

  /** What one connection's parser does to the registry in one call is a run of its own events. */
  lemma {:induction false} ChunkIsEvents(c: Config, sys: System, limits: Limits, conn: nat, s: Scan)
    returns (es: seq<Event>)
    requires Inv(sys, limits) && Matches(sys, conn, s)
    ensures EnabledRun(sys, limits, es) && AllOf(es, conn)
    ensures Matches(After(sys, limits, es), conn, ProcessUploadBody(c, s).0)
    decreases |s.body|, if s.open != "" then 1 else 0
  {
    if |s.body| <= |c.Delimiter()| {
      es := [];
    } else {
      es := IterationIsEvents(c, sys, limits, conn, s);
      if Iteration(c, s).More? {
        IterationShrinks(c, s);
        var rest := ChunkIsEvents(c, After(sys, limits, es), limits, conn, Iteration(c, s).s);
        MoreIsEvents(c, sys, limits, conn, ProcessUploadBody(c, s).0, es, rest);
        es := es + rest;
      }
    }
  }

  // ---- What the others leave alone ----

  /** Something that another connection does, with the disk taking data all the time. */
  predicate ByAnother(e: Event, conn: nat) {
    && (e.Open? || e.Write? || e.Close? || e.BeginMessage? || e.Destroy? ==> e.conn != conn)
    && (e.Disk? ==> !e.full)
  }

  predicate ByOthers(es: seq<Event>, conn: nat) {
    forall e :: e in es ==> ByAnother(e, conn)
  }

  predicate Holds(sys: System, conn: nat, f: string, data: string) {
    conn in sys.owners && sys.owners[conn] == f && f in sys.st.files && sys.st.files[f] == data
  }

  lemma OthersKeepRoom(sys: System, limits: Limits, conn: nat, e: Event)
    requires Enabled(sys, e) && ByAnother(e, conn) && !sys.st.full
    ensures !Next(sys, limits, e).st.full
  {
    EventIsCall(sys, limits, e);
  }

  /** A call that does not name a pending file leaves it alone; registering or deleting it fails. */
  lemma CallElsewhere(st: State, limits: Limits, op: Op, f: string)
    requires f in st.files && IsPending(st, f)
    requires op.Appending? || op.Deregistering? ==> op.name != f
    ensures f in Apply(st, limits, op).files && Apply(st, limits, op).files[f] == st.files[f]
  {
  }

  lemma OthersKeepOwner(sys: System, limits: Limits, conn: nat, e: Event)
    requires Enabled(sys, e) && ByAnother(e, conn) && conn in sys.owners
    ensures var t := Next(sys, limits, e); conn in t.owners && t.owners[conn] == sys.owners[conn]
  {
  }

  /** Another connection's call does not name the open file, unless it registers or deletes it. */
  lemma OthersNameOthers(sys: System, limits: Limits, conn: nat, e: Event)
    requires Ownership(sys) && Enabled(sys, e) && ByAnother(e, conn) && conn in sys.owners && Calls(sys, e)
    ensures var op := Call(sys, e); op.Appending? || op.Deregistering? ==> op.name != sys.owners[conn]
  {
  }

  /** Another connection's event leaves the open file with its owner, and its bytes as they are. */
  lemma OthersKeepHold(sys: System, limits: Limits, conn: nat, f: string, data: string, e: Event)
    requires Ownership(sys) && Enabled(sys, e) && ByAnother(e, conn) && Holds(sys, conn, f, data)
    ensures Holds(Next(sys, limits, e), conn, f, data)
  {
    assert Owned(sys, f);
    OthersKeepOwner(sys, limits, conn, e);
    EventIsCall(sys, limits, e);
    if Calls(sys, e) {
      OthersNameOthers(sys, limits, conn, e);
      CallElsewhere(sys.st, limits, Call(sys, e), f);
    }
  }

  lemma {:induction false} OthersKeepFile(sys: System, limits: Limits, conn: nat, f: string, data: string,
                                          es: seq<Event>)
    requires Inv(sys, limits) && Holds(sys, conn, f, data) && EnabledRun(sys, limits, es) && ByOthers(es, conn)
    ensures var t := After(sys, limits, es);
            Inv(t, limits) && Holds(t, conn, f, data) && (!sys.st.full ==> !t.st.full)
    decreases |es|
  {
    if es != [] {
      OthersKeepHold(sys, limits, conn, f, data, es[0]);
      NextKeepsInv(sys, limits, es[0]);
      if !sys.st.full {
        OthersKeepRoom(sys, limits, conn, es[0]);
      }
      assert forall e :: e in es[1..] ==> e in es;
      OthersKeepFile(Next(sys, limits, es[0]), limits, conn, f, data, es[1..]);
    }
  }

  // ---- One connection's upload, step by step ----

  /** One connection's upload at work in the shared system. `found` says that the loop is between
      the write of the last bytes and the completion of the file. */
  datatype Writer = Writer(
    sys: System,
    body: string,
    open: string,
    successes: seq<string>,
    failures: seq<string>,
    found: bool)

  /** What can happen while the file is open: others have their turn, a chunk arrives, and the two
      halves of a turn of the loop (the bytes are written; the file is completed). */
  datatype Step = Others(es: seq<Event>) | Arrive(chunk: string) | Flush | Finish

  function Seen(w: Writer): Scan {
    Scan(w.body, w.open, w.successes, w.failures, w.sys.st)
  }

  ghost predicate Can(c: Config, limits: Limits, conn: nat, w: Writer, step: Step) {
    match step
    case Others(es) => EnabledRun(w.sys, limits, es) && ByOthers(es, conn)
    case Arrive(_) => !w.found
    case Flush => !w.found && |w.body| > |c.Delimiter()| && conn in w.sys.owners
    case Finish => w.found && Enabled(w.sys, Close(conn, c.now))
  }

  /** The half of a turn that finds out how much can be written, and writes it. */
  function Flushed(c: Config, limits: Limits, conn: nat, w: Writer): Writer
    requires |w.body| > |c.Delimiter()| && conn in w.sys.owners
  {
    var n := S.Writable(c, w.body);
    var t := w.(body := w.body[n..], found := Find(w.body, c.Delimiter()) != -1);
    if n == 0 then t
    else if AppendFails(w.sys.st.full, w.body[..n]) then
      t.(sys := Next(w.sys, limits, Write(conn, w.body[..n])),
         open := "", failures := w.failures + [w.open], found := false)
    else t.(sys := Next(w.sys, limits, Write(conn, w.body[..n])))
  }

  /** The half that completes the file. */
  function Closed(c: Config, limits: Limits, conn: nat, w: Writer): Writer
    requires Enabled(w.sys, Close(conn, c.now))
  {
    w.(sys := Next(w.sys, limits, Close(conn, c.now)), open := "", successes := w.successes + [w.open], found := false)
  }

  ghost function Do(c: Config, limits: Limits, conn: nat, w: Writer, step: Step): Writer
    requires Can(c, limits, conn, w, step)
  {
    match step
    case Others(es) => w.(sys := After(w.sys, limits, es))
    case Arrive(chunk) => w.(body := w.body + chunk)
    case Flush => Flushed(c, limits, conn, w)
    case Finish => Closed(c, limits, conn, w)
  }

  lemma FlushMatches(c: Config, limits: Limits, conn: nat, w: Writer)
    requires Inv(w.sys, limits) && Matches(w.sys, conn, Seen(w)) && w.open != "" && |w.body| > |c.Delimiter()|
    ensures var t := Flushed(c, limits, conn, w);
            && Inv(t.sys, limits) && Matches(t.sys, conn, Seen(t))
            && (t.found ==> t.open == w.open && FileIteration(c, Seen(w)) == More(CloseFile(c, Seen(t))))
            && (!t.found ==> FileIteration(c, Seen(w)) == More(Seen(t)))
  {
    var n := S.Writable(c, w.body);
    if n == 0 {
      assert w.body[0..] == w.body;
    } else {
      WriteMatches(w.sys, limits, conn, Seen(w), n);
      NextKeepsInv(w.sys, limits, Write(conn, w.body[..n]));
    }
  }

  /** With nobody in between, the two halves are one turn of the loop. */
  lemma HalvesAreIteration(c: Config, limits: Limits, conn: nat, w: Writer)
    requires Inv(w.sys, limits) && Matches(w.sys, conn, Seen(w)) && w.open != "" && |w.body| > |c.Delimiter()|
    ensures var t := Flushed(c, limits, conn, w);
            && (t.found ==> Enabled(t.sys, Close(conn, c.now))
                            && FileIteration(c, Seen(w)) == More(Seen(Closed(c, limits, conn, t))))
            && (!t.found ==> FileIteration(c, Seen(w)) == More(Seen(t)))
  {
    var t := Flushed(c, limits, conn, w);
    FlushMatches(c, limits, conn, w);
    if t.found {
      CloseMatches(c, t.sys, limits, conn, Seen(t));
    }
  }

  // ---- The invariant of an open file ----

  /** What the stream, cut at `k`, says of the disk and the buffer: no delimiter begins in the part
      that is written, and enough is held back to recognise one that arrives in pieces. */
  ghost predicate Split(c: Config, stream: string, body: string, found: bool, k: nat) {
    && k <= |stream| && body == stream[k..]
    && NoneBefore(stream, c.Delimiter(), 0, k)
    && (k > 0 ==> |body| >= |c.Delimiter()|)
    && (found ==> Find(body, c.Delimiter()) == 0)
    && (!found && k > 0 && |body| <= |c.Delimiter()| ==> Find(body, c.Delimiter()) == -1)
  }

  /** The file `f`, which held `before`, is open, and `stream` is all that has come for it. */
  ghost predicate Progress(c: Config, conn: nat, f: string, before: string, stream: string, w: Writer) {
    && !w.sys.st.full && w.open == f && f != "" && |w.body| <= |stream|
    && Split(c, stream, w.body, w.found, |stream| - |w.body|)
    && Holds(w.sys, conn, f, before + stream[..|stream| - |w.body|])
  }

  /** The file has been completed with the bytes before the first delimiter. */
  predicate Ended(c: Config, f: string, before: string, stream: string, w: Writer) {
    var end := Find(stream, c.Delimiter());
    && w.open == "" && end != -1
    && IsValidFile(w.sys.st, f) && f in w.sys.st.files
    && w.sys.st.files[f] == before + stream[..end]
    && w.sys.st.entries[f].info == Info(|before| + end, c.now)
    && w.successes != [] && w.successes[|w.successes| - 1] == f
  }

  ghost predicate Fate(c: Config, conn: nat, f: string, before: string, stream: string, w: Writer) {
    if w.open == f then Progress(c, conn, f, before, stream, w) else Ended(c, f, before, stream, w)
  }

  // ---- What each step does to it ----

  lemma SplitArrives(c: Config, stream: string, body: string, k: nat, y: string)
    requires Split(c, stream, body, false, k)
    ensures Split(c, stream + y, body + y, false, k) && (stream + y)[..k] == stream[..k]
  {
    forall i | 0 <= i < k
      ensures !OccursAt(stream + y, c.Delimiter(), i)
    {
      OccursAtExtend(stream, y, c.Delimiter(), i);
    }
    assert (stream + y)[k..] == stream[k..] + y;
    if |body + y| <= |c.Delimiter()| && k > 0 {
      assert body + y == body;
    }
  }

  lemma SplitFlushes(c: Config, stream: string, body: string, k: nat)
    requires Split(c, stream, body, false, k) && |body| > |c.Delimiter()|
    ensures var n := S.Writable(c, body);
            && Split(c, stream, body[n..], Find(body, c.Delimiter()) != -1, k + n)
            && k + n <= |stream| && body[..n] == stream[k..k + n]
  {
    var d, n := c.Delimiter(), S.Writable(c, body);
    FindIsFirst(body, d, 0);
    forall i | 0 <= i < k + n
      ensures !OccursAt(stream, d, i)
    {
      if i >= k { OccursAtDrop(stream, k, d, i - k); }
    }
    FindDrop(body, n, d);
  }

  lemma SplitEnds(c: Config, stream: string, body: string, k: nat)
    requires Split(c, stream, body, true, k)
    ensures Find(stream, c.Delimiter()) == k
  {
    OccursAtDrop(stream, k, c.Delimiter(), 0);
    FirstIsFound(stream, c.Delimiter(), 0, k);
  }

  lemma StepKeepsInv(c: Config, limits: Limits, conn: nat, w: Writer, step: Step)
    requires Inv(w.sys, limits) && Can(c, limits, conn, w, step)
    ensures Inv(Do(c, limits, conn, w, step).sys, limits)
  {
    match step
    case Others(es) => RunKeepsInv(w.sys, limits, es);
    case Arrive(_) =>
    case Flush => NextKeepsInv(w.sys, limits, Write(conn, w.body[..S.Writable(c, w.body)]));
    case Finish => NextKeepsInv(w.sys, limits, Close(conn, c.now));
  }

  /** The parts of the invariant, put together. */
  lemma MakesProgress(c: Config, conn: nat, f: string, before: string, stream: string, w: Writer, sys: System,
                      body: string, found: bool, k: nat)
    requires w.open == f && f != "" && !sys.st.full
    requires Split(c, stream, body, found, k) && Holds(sys, conn, f, before + stream[..k])
    ensures Progress(c, conn, f, before, stream, w.(sys := sys, body := body, found := found))
  {
    assert |stream| - |body| == k;
  }

  lemma OthersKeepProgress(c: Config, limits: Limits, conn: nat, f: string, before: string, stream: string, w: Writer,
                           es: seq<Event>)
    requires Inv(w.sys, limits) && Progress(c, conn, f, before, stream, w)
    requires EnabledRun(w.sys, limits, es) && ByOthers(es, conn)
    ensures Progress(c, conn, f, before, stream, w.(sys := After(w.sys, limits, es)))
  {
    var k := |stream| - |w.body|;
    OthersKeepFile(w.sys, limits, conn, f, before + stream[..k], es);
    MakesProgress(c, conn, f, before, stream, w, After(w.sys, limits, es), w.body, w.found, k);
  }

  lemma ArriveKeepsProgress(c: Config, conn: nat, f: string, before: string, stream: string, w: Writer, y: string)
    requires Progress(c, conn, f, before, stream, w) && !w.found
    ensures Progress(c, conn, f, before, stream + y, w.(body := w.body + y))
  {
    SplitArrives(c, stream, w.body, |stream| - |w.body|, y);
  }

  lemma WriteKeepsHold(sys: System, limits: Limits, conn: nat, f: string, data: string, bytes: string)
    requires !sys.st.full && Holds(sys, conn, f, data)
    ensures var t := Next(sys, limits, Write(conn, bytes)); !t.st.full && Holds(t, conn, f, data + bytes)
  {
  }

  /** The system after a write that has room. */
  function WrittenSystem(sys: System, limits: Limits, conn: nat, bytes: string): System
    requires conn in sys.owners
  {
    if bytes == "" then sys else Next(sys, limits, Write(conn, bytes))
  }

  lemma FlushedIs(c: Config, limits: Limits, conn: nat, w: Writer)
    requires |w.body| > |c.Delimiter()| && conn in w.sys.owners && !w.sys.st.full
    ensures var n, t := S.Writable(c, w.body), Flushed(c, limits, conn, w);
            t == w.(sys := WrittenSystem(w.sys, limits, conn, w.body[..n]), body := w.body[n..],
                    found := Find(w.body, c.Delimiter()) != -1)
  {
  }

  lemma FlushKeepsHold(limits: Limits, sys: System, conn: nat, f: string, before: string, stream: string,
                       k: nat, m: nat, bytes: string)
    requires !sys.st.full && k <= m <= |stream| && bytes == stream[k..m] && Holds(sys, conn, f, before + stream[..k])
    ensures var t := WrittenSystem(sys, limits, conn, bytes);
            !t.st.full && Holds(t, conn, f, before + stream[..m])
  {
    WrittenText(before, stream, k, m);
    if bytes == "" {
      assert stream[..m] == stream[..k];
    } else {
      WriteKeepsHold(sys, limits, conn, f, before + stream[..k], bytes);
    }
  }

  lemma FlushKeepsProgress(c: Config, limits: Limits, conn: nat, f: string, before: string, stream: string, w: Writer)
    requires Progress(c, conn, f, before, stream, w) && !w.found && |w.body| > |c.Delimiter()|
    ensures Progress(c, conn, f, before, stream, Flushed(c, limits, conn, w))
  {
    var k, n := |stream| - |w.body|, S.Writable(c, w.body);
    FlushedIs(c, limits, conn, w);
    SplitFlushes(c, stream, w.body, k);
    FlushKeepsHold(limits, w.sys, conn, f, before, stream, k, k + n, w.body[..n]);
    var sys := WrittenSystem(w.sys, limits, conn, w.body[..n]);
    MakesProgress(c, conn, f, before, stream, w, sys, w.body[n..], Find(w.body, c.Delimiter()) != -1, k + n);
  }

  lemma WrittenText(before: string, stream: string, k: nat, m: nat)
    requires k <= m <= |stream|
    ensures before + stream[..k] + stream[k..m] == before + stream[..m]
  {
  }

  lemma CloseRecords(sys: System, limits: Limits, conn: nat, f: string, data: string, now: int)
    requires Inv(sys, limits) && Holds(sys, conn, f, data)
    ensures var t := Next(sys, limits, Close(conn, now));
            && IsValidFile(t.st, f) && f in t.st.files && t.st.files[f] == data
            && t.st.entries[f].info == Info(|data|, now)
  {
    CompletedAsIs(sys, limits, conn, now);
  }

  lemma FinishEnds(c: Config, limits: Limits, conn: nat, f: string, before: string, stream: string, w: Writer)
    requires Inv(w.sys, limits) && Progress(c, conn, f, before, stream, w) && Can(c, limits, conn, w, Finish)
    ensures Ended(c, f, before, stream, Closed(c, limits, conn, w))
  {
    var k := |stream| - |w.body|;
    SplitEnds(c, stream, w.body, k);
    CloseRecords(w.sys, limits, conn, f, before + stream[..k], c.now);
  }

  lemma StepKeepsFate(c: Config, limits: Limits, conn: nat, f: string, before: string, stream: string, w: Writer,
                      step: Step)
    requires Inv(w.sys, limits) && Progress(c, conn, f, before, stream, w) && Can(c, limits, conn, w, step)
    ensures Fate(c, conn, f, before, stream + Chunk(step), Do(c, limits, conn, w, step))
  {
    assert stream + "" == stream;
    match step
    case Others(es) => OthersKeepProgress(c, limits, conn, f, before, stream, w, es);
    case Arrive(y) => ArriveKeepsProgress(c, conn, f, before, stream, w, y);
    case Flush => FlushKeepsProgress(c, limits, conn, f, before, stream, w);
    case Finish => FinishEnds(c, limits, conn, f, before, stream, w);
  }

  // ---- The theorem ----

  function Chunk(step: Step): string {
    if step.Arrive? then step.chunk else ""
  }

  function Arrived(steps: seq<Step>): string {
    if steps == [] then "" else Chunk(steps[0]) + Arrived(steps[1..])
  }

  /** Steps that happen while the file `f` is open. */
  ghost predicate Upload(c: Config, limits: Limits, conn: nat, f: string, w: Writer, steps: seq<Step>)
    decreases |steps|
  {
    steps != [] ==>
      && w.open == f && Can(c, limits, conn, w, steps[0])
      && Upload(c, limits, conn, f, Do(c, limits, conn, w, steps[0]), steps[1..])
  }

  ghost function Outcome(c: Config, limits: Limits, conn: nat, f: string, w: Writer, steps: seq<Step>): Writer
    requires Upload(c, limits, conn, f, w, steps)
    decreases |steps|
  {
    if steps == [] then w else Outcome(c, limits, conn, f, Do(c, limits, conn, w, steps[0]), steps[1..])
  }

  /** Whatever other connections do at any point of an upload, between the chunks, between the turns of
      the loop and even between the write and the completion within a turn: the file is completed at
      the first delimiter of the stream with exactly the bytes before it, and until then disk and
      buffer together hold the stream. */
  lemma {:induction false} InterleavedUpload(c: Config, limits: Limits, conn: nat, f: string, before: string,
                                             stream: string, w: Writer, steps: seq<Step>)
    requires Inv(w.sys, limits) && Fate(c, conn, f, before, stream, w) && f != ""
    requires Upload(c, limits, conn, f, w, steps)
    ensures var t := Outcome(c, limits, conn, f, w, steps);
            Inv(t.sys, limits) && Fate(c, conn, f, before, stream + Arrived(steps), t)
    decreases |steps|
  {
    if steps == [] {
      assert stream + Arrived(steps) == stream;
    } else {
      StepKeepsInv(c, limits, conn, w, steps[0]);
      StepKeepsFate(c, limits, conn, f, before, stream, w, steps[0]);
      JoinsToRight(stream, Chunk(steps[0]), Arrived(steps[1..]));
      var next := Do(c, limits, conn, w, steps[0]);
      InterleavedUpload(c, limits, conn, f, before, stream + Chunk(steps[0]), next, steps[1..]);
    }
  }

  /** An upload may start from any moment at which the connection has a file open. */
  lemma UploadStarts(c: Config, limits: Limits, conn: nat, w: Writer)
    requires Inv(w.sys, limits) && !w.sys.st.full && Matches(w.sys, conn, Seen(w)) && w.open != "" && !w.found
    ensures w.open in w.sys.st.files && Fate(c, conn, w.open, w.sys.st.files[w.open], w.body, w)
  {
    assert w.sys.owners[conn] in w.sys.st.files;
    assert w.body[0..] == w.body && w.sys.st.files[w.open] + w.body[..0] == w.sys.st.files[w.open];
  }

  /** The same for the parser of a connection, at any point between two chunks: the file it has open, the
      bytes in its buffer and the bytes that arrive make up what is stored. */
  lemma OpenUploadEnds(c: Config, limits: Limits, conn: nat, w: Writer, steps: seq<Step>)
    requires Inv(w.sys, limits) && !w.sys.st.full && Matches(w.sys, conn, Seen(w)) && w.open != "" && !w.found
    requires w.open in w.sys.st.files && Upload(c, limits, conn, w.open, w, steps)
    ensures var t := Outcome(c, limits, conn, w.open, w, steps);
            Inv(t.sys, limits) && Fate(c, conn, w.open, w.sys.st.files[w.open], w.body + Arrived(steps), t)
  {
    UploadStarts(c, limits, conn, w);
    InterleavedUpload(c, limits, conn, w.open, w.sys.st.files[w.open], w.body, w, steps);
  }

  /** Between two chunks, when the loop has done what it can, no delimiter has come, and all but the
      last bytes are on the disk. */
  lemma AtRest(c: Config, conn: nat, f: string, before: string, stream: string, w: Writer)
    requires Progress(c, conn, f, before, stream, w) && !w.found && |w.body| <= |c.Delimiter()|
    ensures U.Unended(c, stream) && w.sys.st.files[f] == before + stream[..U.Flushed(c, stream)]
  {
    var k := |stream| - |w.body|;
    if k > 0 {
      FindDrop(stream, k, c.Delimiter());
    }
  }
}
