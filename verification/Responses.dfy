/** What a client receives: the task protocol of a connection together with the calls of `sendFile`. */
module Responses {
  import opened Connection
  import opened Wrappers
  import R = Registry
  import D = Download

  /** The file that a message asks for. */
  datatype Source = Source(name: string, content: string)

  /** What may follow the range of a download: it lies in the file, as `process_download_request` makes it. */
  predicate InFile(range: Option<(nat, nat)>, message: nat, sources: seq<Source>) {
    range.Some? ==>
      message < |sources| && range.value.0 <= |sources[message].content| && range.value.1 <= |sources[message].content|
  }

  /** The bytes are those of a call of `sendFile` at some state of the registry that serves the file. */
  ghost predicate FromFile(src: Source, limits: R.Limits, maxRead: nat, start: nat, end: nat, data: string) {
    exists st :: SentFrom(st, src, limits, maxRead, start, end, data)
  }

  ghost predicate SentFrom(st: R.State, src: Source, limits: R.Limits, maxRead: nat, start: nat, end: nat,
                           data: string)
  {
    && D.Serves(st, src.name, src.content)
    && D.SendFile(st, limits, maxRead, src.name, start, end).1 == D.Piece(data)
  }

  /** The parser asks for ranges within the files, and pieces come from `sendFile`. */
  ghost predicate Backed(c: Conn, e: Event, sources: seq<Source>, limits: R.Limits, maxRead: nat)
    requires Enabled(c, e)
  {
    match e
    case Execute(_, result) => result.Complete? ==> InFile(result.range, c.messages, sources)
    case SendPiece(w, data) =>
      var Sending(start, end) := c.tasks[w].task;
      data.Some? && start < end ==>
        0 < c.messages <= |sources| && FromFile(sources[c.messages - 1], limits, maxRead, start, end, data.value)
    case _ => true
  }

  ghost predicate BackedRun(c: Conn, limit: nat, es: seq<Event>, sources: seq<Source>, limits: R.Limits, maxRead: nat)
    requires EnabledRun(c, limit, es)
    decreases |es|
  {
    es != [] ==>
      && Backed(c, es[0], sources, limits, maxRead)
      && BackedRun(Next(c, limit, es[0]), limit, es[1..], sources, limits, maxRead)
  }

  // ---- Every piece is true ----

  predicate SliceOf(content: string, start: nat, data: string) {
    start + |data| <= |content| && data == content[start..start + |data|]
  }

  predicate ItemTrue(item: Item, sources: seq<Source>) {
    && InFile(item.range, item.message, sources)
    && (item.Piece? ==>
          && item.range.Some? && SliceOf(sources[item.message].content, item.start, item.data)
          && (item.start > 0 ==> item.start + |item.data| <= item.range.value.1))
  }

  ghost predicate AllTrue(sent: seq<Item>, sources: seq<Source>) {
    forall i :: 0 <= i < |sent| ==> ItemTrue(sent[i], sources)
  }

  lemma AppendTrue(sent: seq<Item>, item: Item, sources: seq<Source>)
    requires AllTrue(sent, sources) && ItemTrue(item, sources)
    ensures AllTrue(sent + [item], sources)
  {
  }

  /** The piece that `sendFile` appends. */
  lemma PieceTrue(src: Source, limits: R.Limits, maxRead: nat, start: nat, end: nat, data: string)
    requires FromFile(src, limits, maxRead, start, end, data) && start < end <= |src.content| && maxRead > 0
    ensures SliceOf(src.content, start, data) && (start > 0 ==> start + |data| <= end)
  {
    var st :| SentFrom(st, src, limits, maxRead, start, end, data);
    D.OneCall(st, limits, maxRead, src.name, src.content, start, end);
  }

  lemma SendKeepsTrue(c: Conn, limit: nat, e: Event, sources: seq<Source>, limits: R.Limits, maxRead: nat)
    requires Inv(c) && Enabled(c, e) && e.SendPiece? && Backed(c, e, sources, limits, maxRead)
    requires AllTrue(c.sent, sources) && maxRead > 0
    ensures AllTrue(Next(c, limit, e).sent, sources)
  {
    OnlyTask(c, e.w);
    var Sending(start, end) := c.tasks[e.w].task;
    if !c.closed && start < end && e.data.Some? {
      var last := c.sent[|c.sent| - 1];
      assert ItemTrue(last, sources) && last.message == c.messages - 1;
      PieceTrue(sources[c.messages - 1], limits, maxRead, start, end, e.data.value);
      AppendTrue(c.sent, Piece(c.messages - 1, RangeOf(c.sent), start, e.data.value), sources);
    }
  }

  lemma NextKeepsTrue(c: Conn, limit: nat, e: Event, sources: seq<Source>, limits: R.Limits, maxRead: nat)
    requires Inv(c) && Enabled(c, e) && Backed(c, e, sources, limits, maxRead)
    requires AllTrue(c.sent, sources) && maxRead > 0
    ensures AllTrue(Next(c, limit, e).sent, sources)
  {
    if e.SendPiece? {
      SendKeepsTrue(c, limit, e, sources, limits, maxRead);
    } else if e.Execute? && e.result.Complete? {
      AppendTrue(c.sent, Head(c.messages, e.result.range), sources);
    }
  }

  lemma {:induction false} RunKeepsTrue(c: Conn, limit: nat, es: seq<Event>, sources: seq<Source>, limits: R.Limits,
                                        maxRead: nat)
    requires Inv(c) && EnabledRun(c, limit, es) && CalmRun(c, limit, es)
    requires BackedRun(c, limit, es, sources, limits, maxRead) && AllTrue(c.sent, sources) && maxRead > 0
    ensures AllTrue(After(c, limit, es).sent, sources) && Inv(After(c, limit, es))
    decreases |es|
  {
    if es != [] {
      NextKeepsTrue(c, limit, es[0], sources, limits, maxRead);
      NextKeepsInv(c, limit, es[0]);
      RunKeepsTrue(Next(c, limit, es[0]), limit, es[1..], sources, limits, maxRead);
    }
  }

  // ---- One response ----

  /** A header with a file to send, and all the pieces that follow it. */
  predicate Response(sent: seq<Item>, h: nat, g: nat) {
    && h < g <= |sent| && sent[h].Head? && sent[h].range.Some?
    && (forall i :: h < i < g ==> sent[i].Piece?)
    && (g < |sent| ==> sent[g].Head?)
  }

  lemma {:induction false} OneMessage(sent: seq<Item>, messages: nat, h: nat, i: nat)
    requires InOrder(sent, messages) && h <= i < |sent| && forall k :: h < k <= i ==> sent[k].Piece?
    ensures sent[i].message == sent[h].message && sent[i].range == sent[h].range
    decreases i
  {
    if h < i {
      assert InStep(sent, i - 1);
      OneMessage(sent, messages, h, i - 1);
    }
  }

  lemma {:induction false} InOrderPrefix(sent: seq<Item>, messages: nat, g: nat)
    requires InOrder(sent, messages) && 0 < g <= |sent|
    ensures InOrder(sent[..g], sent[g - 1].message + 1)
    decreases |sent|
  {
    if g == |sent| {
      assert sent[..g] == sent;
    } else {
      var front := sent[..|sent| - 1];
      InOrderFront(sent, messages);
      InOrderPrefix(front, front[|front| - 1].message + 1, g);
      assert front[..g] == sent[..g];
    }
  }

  /** The bytes of a response are the file's, from the start of the range as far as it reaches. */
  lemma ResponseIsTrue(sent: seq<Item>, messages: nat, sources: seq<Source>, h: nat, g: nat)
    requires InOrder(sent, messages) && AllTrue(sent, sources) && Response(sent, h, g)
    ensures sent[h].message < |sources|
    ensures var content := sources[sent[h].message].content;
            var start, reached := sent[h].range.value.0, Reached(sent[g - 1]);
            start <= reached <= |content| && Data(sent[h..g]) == content[start..reached]
  {
    var front, content := sent[..g], sources[sent[h].message].content;
    assert ItemTrue(sent[h], sources);
    InOrderPrefix(sent, messages, g);
    forall i | h < i < g
      ensures SliceOf(content, front[i].start, front[i].data)
    {
      OneMessage(sent, messages, h, i);
      assert ItemTrue(sent[i], sources);
    }
    assert Truthful(front, h, content);
    BodyIsTheFile(front, sent[g - 1].message + 1, h, content);
    assert front[h..] == sent[h..g];
  }

  /** How far it reaches: not past the end of its range, except from 0 (where a cached prefix may do so). */
  lemma ResponseReaches(sent: seq<Item>, messages: nat, sources: seq<Source>, h: nat, g: nat)
    requires InOrder(sent, messages) && AllTrue(sent, sources) && Response(sent, h, g)
    requires g == |sent| ==> Finished(sent[g - 1])
    ensures var (start, end) := sent[h].range.value;
            Reached(sent[g - 1]) >= end && (0 < start <= end ==> Reached(sent[g - 1]) == end)
  {
    OneMessage(sent, messages, h, g - 1);
    assert ItemTrue(sent[g - 1], sources);
    if g < |sent| {
      assert InStep(sent, g - 1);
    }
    if g - 1 > h {
      var start := sent[h].range.value.0;
      StartsPast(sent, messages, h, g - 1);
    }
  }

  lemma {:induction false} StartsPast(sent: seq<Item>, messages: nat, h: nat, i: nat)
    requires InOrder(sent, messages) && h < i < |sent| && sent[h].Head? && sent[h].range.Some?
    requires forall k :: h < k <= i ==> sent[k].Piece?
    ensures sent[i].start >= sent[h].range.value.0
    decreases i
  {
    assert InStep(sent, i - 1);
    if h + 1 < i {
      StartsPast(sent, messages, h, i - 1);
    }
  }

  /** The bytes of a response, if it is complete. */
  lemma ResponseIsTheRange(sent: seq<Item>, messages: nat, sources: seq<Source>, h: nat, g: nat)
    requires InOrder(sent, messages) && AllTrue(sent, sources) && Response(sent, h, g)
    requires g == |sent| ==> Finished(sent[g - 1])
    ensures sent[h].message < |sources|
    ensures RangeSent(sources[sent[h].message].content, sent[h].range.value.0, sent[h].range.value.1, Data(sent[h..g]))
  {
    assert ItemTrue(sent[h], sources);
    ResponseIsTrue(sent, messages, sources, h, g);
    ResponseReaches(sent, messages, sources, h, g);
    var content, range := sources[sent[h].message].content, sent[h].range.value;
    PrefixSent(content, range.0, range.1, Reached(sent[g - 1]));
  }

  /** At least the range is sent, and exactly the range if it starts past 0 or ends with the file. */
  predicate RangeSent(content: string, start: nat, end: nat, data: string) {
    && start <= |content| && end <= |content|
    && (start <= end ==> content[start..end] <= data)
    && (start <= end && (start > 0 || end == |content|) ==> data == content[start..end])
  }

  lemma PrefixSent(content: string, start: nat, end: nat, reached: nat)
    requires start <= reached <= |content| && end <= reached && (0 < start <= end ==> reached == end)
    ensures RangeSent(content, start, end, content[start..reached])
  {
  }

  /** Over any calm run whose pieces come from `sendFile`: each response that is complete (another one
      follows it, or the connection is at rest) carries the bytes of its file from the start of the range
      at least up to its end; and exactly those if the range starts past 0 or ends with the file. */
  lemma ResponsesAreFiles(limit: nat, es: seq<Event>, sources: seq<Source>, limits: R.Limits, maxRead: nat,
                          h: nat, g: nat)
    requires EnabledRun(NEW, limit, es) && CalmRun(NEW, limit, es) && maxRead > 0
    requires BackedRun(NEW, limit, es, sources, limits, maxRead)
    requires var c := After(NEW, limit, es);
             Response(c.sent, h, g) && (g == |c.sent| ==> c.tasks == map[] && !c.closed && !c.closing)
    ensures var head := After(NEW, limit, es).sent[h];
            && head.message < |sources|
            && RangeSent(sources[head.message].content, head.range.value.0, head.range.value.1,
                         Data(After(NEW, limit, es).sent[h..g]))
  {
    RunKeepsTrue(NEW, limit, es, sources, limits, maxRead);
    var c := After(NEW, limit, es);
    if g == |c.sent| {
      AtRest(c);
    }
    ResponseIsTheRange(c.sent, c.messages, sources, h, g);
  }
}
