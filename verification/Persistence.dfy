/** The metadata file: the thread that writes it, and what a restart makes of it. */
module Persistence {
  import opened Registry

  datatype Record = Record(filename: string, size: int, time: int)

  /** The file's text: empty (as after a truncation), or a JSON array ("null" is one without items). */
  datatype MetaFile = Blank | Items(items: seq<Record>)

  // ---- Restart ----

  predicate Loadable(r: Record) {
    r.filename != "" && r.size >= 0
  }

  /** `LoadFromFile`: later items win, and invalid ones are skipped. */
  function Load(items: seq<Record>): map<string, Info> {
    if items == [] then map[] else
    var last := items[|items| - 1];
    var before := Load(items[..|items| - 1]);
    if Loadable(last) then before[last.filename := Info(last.size, last.time)] else before
  }

  lemma LoadSnoc(before: seq<Record>, item: Record)
    ensures Load(before + [item])
         == if Loadable(item) then Load(before)[item.filename := Info(item.size, item.time)] else Load(before)
  {
    assert (before + [item])[..|before|] == before;
  }

  function Loaded(file: MetaFile): map<string, Info> {
    if file.Blank? then map[] else Load(file.items)
  }

  /** The uploaded files: what the metadata file is meant to hold. */
  function Completed(st: State): map<string, Info> {
    CompletedIn(st.entries)
  }

  function CompletedIn(entries: map<string, Entry>): map<string, Info> {
    map f | f in entries && entries[f].Complete? :: entries[f].info
  }

  /** `LoadFromFile` and `VerifyFileLegality` on the directory `files`. */
  function Restart(file: MetaFile, files: map<string, string>, full: bool): State {
    var loaded := Loaded(file);
    State(map f | f in loaded && f in files :: Complete(loaded[f]),
          map f | f in files && f in loaded :: files[f],
          [],
          exists f :: f in loaded && f !in files,
          full)
  }

  // ---- The storage thread ----

  /** `Checking` evaluates `_is_dirty` under the lock; `Sleeping` is in the condition variable's
      queue, `woken` once it has been notified. The snapshot is written by truncating, then appending. */
  datatype Thread =
    | Checking
    | Sleeping(woken: bool)
    | Snapshot(items: seq<Record>)
    | Truncated(items: seq<Record>)

  datatype Server = Server(st: State, file: MetaFile, thread: Thread)

  datatype Event =
    | Calling(op: Op)
    | Check(items: seq<Record>)
    | Wake
    | Truncate
    | WriteOut

  /** `items` lists the uploaded files, each once, in the order of the hash table. */
  ghost predicate Lists(items: seq<Record>, st: State) {
    && (forall i, j :: 0 <= i < j < |items| ==> items[i].filename != items[j].filename)
    && (forall i :: 0 <= i < |items| ==>
          && IsValidFile(st, items[i].filename)
          && st.entries[items[i].filename].info == Info(items[i].size, items[i].time))
    && (forall f :: IsValidFile(st, f) ==> exists i :: 0 <= i < |items| && items[i].filename == f)
  }

  /** `Insert` and `Delete` notify when they succeed. */
  predicate Notifies(st: State, op: Op) {
    match op
    case Inserting(f, size, now) => IsPending(st, f)
    case Deleting(f) => IsValidFile(st, f)
    case _ => false
  }

  ghost predicate Enabled(v: Server, e: Event) {
    match e
    case Calling(op) => Legal(v.st, op)
    case Check(items) => v.thread.Checking? && (v.st.dirty ==> Lists(items, v.st))
    case Wake => v.thread.Sleeping?
    case Truncate => v.thread.Snapshot?
    case WriteOut => v.thread.Truncated?
  }

  function Next(v: Server, limits: Limits, e: Event): Server
    requires e.Truncate? ==> v.thread.Snapshot?
    requires e.WriteOut? ==> v.thread.Truncated?
  {
    match e
    case Calling(op) =>
      var wakes := Notifies(v.st, op) && v.thread.Sleeping?;
      v.(st := Apply(v.st, limits, op), thread := if wakes then Sleeping(true) else v.thread)
    case Check(items) =>
      if v.st.dirty then v.(st := v.st.(dirty := false), thread := Snapshot(items))
      else v.(thread := Sleeping(false))
    case Wake => v.(thread := Checking)
    case Truncate => v.(file := Blank, thread := Truncated(v.thread.items))
    case WriteOut => v.(file := Items(v.thread.items), thread := Checking)
  }

  /** What a record must satisfy to be read back. */
  predicate Persistable(st: State) {
    && st.entries.Keys == st.files.Keys
    && (forall f :: f in st.entries ==> f != "" && (st.entries[f].Complete? ==> st.entries[f].info.size >= 0))
  }

  /** Unless there is something left to save, the file (or the snapshot on its way into it) is up
      to date; and a thread that sleeps unnotified has nothing left to save. */
  ghost predicate Inv(v: Server) {
    && Persistable(v.st)
    && (!v.st.dirty ==>
          match v.thread
          case Snapshot(items) => Load(items) == Completed(v.st)
          case Truncated(items) => Load(items) == Completed(v.st)
          case _ => Loaded(v.file) == Completed(v.st))
    && (v.thread == Sleeping(false) ==> !v.st.dirty)
    && (v.thread.Truncated? ==> v.file.Blank?)
  }

  // ---- Reading back what was written ----

  /** The last valid record of a name. */
  ghost predicate LastRecord(items: seq<Record>, f: string, i: int) {
    && 0 <= i < |items| && Loadable(items[i]) && items[i].filename == f
    && forall j :: i < j < |items| && Loadable(items[j]) ==> items[j].filename != f
  }

  /** A name is loaded if and only if it has a valid record, and with what the last one says. */
  lemma {:induction false} LoadIff(items: seq<Record>, f: string)
    ensures f in Load(items) <==> exists i :: LastRecord(items, f, i)
    ensures forall i :: LastRecord(items, f, i) ==> Load(items)[f] == Info(items[i].size, items[i].time)
    decreases |items|
  {
    if items != [] {
      var n := |items| - 1;
      LoadIff(items[..n], f);
      if Loadable(items[n]) && items[n].filename == f {
        assert LastRecord(items, f, n);
      } else {
        forall i
          ensures LastRecord(items, f, i) <==> LastRecord(items[..n], f, i)
        {
          assert forall j :: 0 <= j < n ==> items[..n][j] == items[j];
        }
      }
    }
  }

  lemma {:induction false} LoadDistinct(items: seq<Record>)
    requires forall i, j :: 0 <= i < j < |items| ==> items[i].filename != items[j].filename
    requires forall i :: 0 <= i < |items| ==> Loadable(items[i])
    ensures forall i :: 0 <= i < |items| ==>
              items[i].filename in Load(items) && Load(items)[items[i].filename] == Info(items[i].size, items[i].time)
    ensures forall f :: f in Load(items) ==> exists i :: 0 <= i < |items| && items[i].filename == f
  {
    if items != [] {
      var n := |items| - 1;
      LoadDistinct(items[..n]);
      forall f | f in Load(items)
        ensures exists i :: 0 <= i < |items| && items[i].filename == f
      {
        if f == items[n].filename {
        } else {
          var i :| 0 <= i < n && items[..n][i].filename == f;
          assert items[i].filename == f;
        }
      }
      forall i | 0 <= i < n
        ensures items[i].filename in Load(items) && Load(items)[items[i].filename] == Info(items[i].size, items[i].time)
      {
        assert items[..n][i] == items[i];
      }
    }
  }

  /** The round trip: loading a listing of the uploaded files gives the uploaded files. */
  lemma LoadOfListing(items: seq<Record>, st: State)
    requires Persistable(st) && Lists(items, st)
    ensures Load(items) == Completed(st)
  {
    forall i | 0 <= i < |items|
      ensures Loadable(items[i])
    {
      assert IsValidFile(st, items[i].filename);
    }
    LoadDistinct(items);
    forall f | f in Load(items)
      ensures f in Completed(st) && Load(items)[f] == Completed(st)[f]
    {
      var i :| 0 <= i < |items| && items[i].filename == f;
      assert IsValidFile(st, items[i].filename);
    }
    forall f | f in Completed(st)
      ensures f in Load(items)
    {
      assert IsValidFile(st, f);
    }
  }

  lemma {:induction false} ListingOf(st: State, names: set<string>) returns (items: seq<Record>)
    requires forall f :: f in names ==> IsValidFile(st, f)
    ensures forall i, j :: 0 <= i < j < |items| ==> items[i].filename != items[j].filename
    ensures forall i :: 0 <= i < |items| ==>
              items[i].filename in names && IsValidFile(st, items[i].filename)
              && st.entries[items[i].filename].info == Info(items[i].size, items[i].time)
    ensures forall f :: f in names ==> exists i :: 0 <= i < |items| && items[i].filename == f
  {
    if names == {} {
      items := [];
    } else {
      var f :| f in names;
      var rest := ListingOf(st, names - {f});
      var info := st.entries[f].info;
      items := rest + [Record(f, info.size, info.time)];
      forall g | g in names
        ensures exists i :: 0 <= i < |items| && items[i].filename == g
      {
        if g == f {
          assert items[|rest|].filename == f;
        } else {
          assert g in names - {f};
          var i :| 0 <= i < |rest| && rest[i].filename == g;
          assert items[i].filename == g;
        }
      }
    }
  }

  lemma Listing(st: State) returns (items: seq<Record>)
    ensures Lists(items, st)
  {
    var names := set f | f in st.entries && IsValidFile(st, f);
    items := ListingOf(st, names);
    forall f | IsValidFile(st, f)
      ensures exists i :: 0 <= i < |items| && items[i].filename == f
    {
      assert f in names;
    }
  }

  // ---- Every run ----

  lemma CallKeepsPersistable(st: State, limits: Limits, op: Op)
    requires Persistable(st) && Legal(st, op)
    ensures Persistable(Apply(st, limits, op))
  {
  }

  lemma PendingNamesDoNotCount(st: State, f: string)
    requires !IsValidFile(st, f)
    ensures CompletedIn(st.entries[f := Pending]) == Completed(st)
    ensures CompletedIn(st.entries - {f}) == Completed(st)
  {
  }

  /** Only the calls that notify change what should be in the file. */
  lemma CallKeepsCompleted(st: State, limits: Limits, op: Op)
    requires Legal(st, op)
    ensures !Notifies(st, op) ==>
              Completed(Apply(st, limits, op)) == Completed(st) && Apply(st, limits, op).dirty == st.dirty
    ensures Notifies(st, op) ==> Apply(st, limits, op).dirty
  {
    match op
    case Registering(f) => if f !in st.entries { PendingNamesDoNotCount(st, f); }
    case Deregistering(f) => PendingNamesDoNotCount(st, f);
    case Getting(f) => assert Apply(st, limits, op).entries == st.entries;
    case Putting(f, _) => assert Apply(st, limits, op).entries == st.entries;
    case _ =>
  }

  lemma NextKeepsInv(v: Server, limits: Limits, e: Event)
    requires Inv(v) && Enabled(v, e)
    ensures Inv(Next(v, limits, e))
  {
    match e
    case Calling(op) =>
      CallKeepsPersistable(v.st, limits, op);
      CallKeepsCompleted(v.st, limits, op);
    case Check(items) =>
      if v.st.dirty {
        LoadOfListing(items, v.st);
        assert Completed(v.st.(dirty := false)) == Completed(v.st);
      }
    case _ =>
  }

  ghost predicate EnabledRun(v: Server, limits: Limits, es: seq<Event>)
    decreases |es|
  {
    es == [] || (Enabled(v, es[0]) && EnabledRun(Next(v, limits, es[0]), limits, es[1..]))
  }

  ghost function After(v: Server, limits: Limits, es: seq<Event>): Server
    requires EnabledRun(v, limits, es)
    decreases |es|
  {
    if es == [] then v else After(Next(v, limits, es[0]), limits, es[1..])
  }

  lemma {:induction false} RunKeepsInv(v: Server, limits: Limits, es: seq<Event>)
    requires Inv(v) && EnabledRun(v, limits, es)
    ensures Inv(After(v, limits, es))
    decreases |es|
  {
    if es != [] {
      NextKeepsInv(v, limits, es[0]);
      RunKeepsInv(Next(v, limits, es[0]), limits, es[1..]);
    }
  }

  lemma {:induction false} LoadedIsLoadable(items: seq<Record>)
    ensures forall f :: f in Load(items) ==> f != "" && Load(items)[f].size >= 0
  {
    if items != [] {
      LoadedIsLoadable(items[..|items| - 1]);
    }
  }

  /** The server starts in the invariant, whatever the last run left behind. */
  lemma RestartStartsInInv(file: MetaFile, files: map<string, string>, full: bool)
    ensures Inv(Server(Restart(file, files, full), file, Checking))
  {
    if file.Items? {
      LoadedIsLoadable(file.items);
    }
    var st := Restart(file, files, full);
    if !st.dirty {
      assert Completed(st) == Loaded(file);
    }
  }

  /** In every reachable state either there is something left to save, or the thread is writing the
      current uploads, or the file holds them; and no wake-up is lost. */
  lemma EveryRunPersists(file: MetaFile, files: map<string, string>, full: bool, limits: Limits, es: seq<Event>)
    requires EnabledRun(Server(Restart(file, files, full), file, Checking), limits, es)
    ensures Inv(After(Server(Restart(file, files, full), file, Checking), limits, es))
  {
    RestartStartsInInv(file, files, full);
    RunKeepsInv(Server(Restart(file, files, full), file, Checking), limits, es);
  }

  // ---- The thread catches up ----

  predicate Quiescent(v: Server) {
    !v.st.dirty && (v.thread.Checking? || v.thread.Sleeping?)
  }

  /** A turn that the thread takes without a spurious wake-up. */
  ghost predicate OwnTurn(v: Server, e: Event) {
    Enabled(v, e) && !e.Calling? && (e.Wake? ==> v.thread == Sleeping(true))
  }

  /** How many turns the thread still needs until it sleeps. */
  function Backlog(v: Server): nat {
    (if v.st.dirty then 4 else 0)
    + (match v.thread
       case Checking => 1
       case Sleeping(woken) => if woken then 2 else 0
       case Snapshot(_) => 3
       case Truncated(_) => 2)
  }

  /** Until it sleeps, the thread always has a turn of its own to take (it never waits for a notification
      that will not come), and each such turn brings it nearer; and it sleeps only with everything saved. */
  lemma ThreadCatchesUp(v: Server, limits: Limits)
    requires Inv(v)
    ensures v.thread != Sleeping(false) <==> exists e :: OwnTurn(v, e)
    ensures forall e :: OwnTurn(v, e) ==>
              Backlog(Next(v, limits, e)) < Backlog(v) && Next(v, limits, e).st.files == v.st.files
    ensures v.thread == Sleeping(false) ==> Quiescent(v) && Loaded(v.file) == Completed(v.st)
  {
    match v.thread
    case Checking =>
      var items := Listing(v.st);
      assert OwnTurn(v, Check(items));
    case Sleeping(woken) => assert woken ==> OwnTurn(v, Wake);
    case Snapshot(_) => assert OwnTurn(v, Truncate);
    case Truncated(_) => assert OwnTurn(v, WriteOut);
  }

  // ---- Restart recovery ----

  /** Every upload has its record. */
  predicate UploadsRecorded(v: Server) {
    forall f :: f in Completed(v.st) ==> f in Loaded(v.file) && Loaded(v.file)[f] == Completed(v.st)[f]
  }

  /** No file that is still being uploaded has a record (of an earlier file of that name). */
  predicate PendingUnrecorded(v: Server) {
    forall f :: IsPending(v.st, f) ==> f !in Loaded(v.file)
  }

  /** The uploads and their contents survive the restart, and the partial files do not. */
  predicate Recovered(v: Server, st: State) {
    && Completed(st) == Completed(v.st) && st.entries.Keys == Completed(v.st).Keys
    && st.files == (map f | f in v.st.files && IsValidFile(v.st, f) :: v.st.files[f])
  }

  /** A crash at any moment is recovered from exactly if every upload is recorded and no pending file
      is. Records of deleted files do no harm. */
  lemma RecoveredIff(v: Server)
    requires FilesAgree(v.st)
    ensures Recovered(v, Restart(v.file, v.st.files, v.st.full)) <==> UploadsRecorded(v) && PendingUnrecorded(v)
  {
    if UploadsRecorded(v) && PendingUnrecorded(v) {
      RecoveredIfRecorded(v);
    }
    if Recovered(v, Restart(v.file, v.st.files, v.st.full)) {
      RecordedIfRecovered(v);
    }
  }

  lemma RestartHas(file: MetaFile, files: map<string, string>, full: bool, f: string)
    ensures var completed := Completed(Restart(file, files, full));
            && (f in completed <==> f in Loaded(file) && f in files)
            && (f in completed ==> completed[f] == Loaded(file)[f])
            && (f in completed <==> f in Restart(file, files, full).entries)
  {
  }

  lemma CompletedOrPending(st: State, f: string)
    requires FilesAgree(st)
    ensures f in st.files <==> IsPending(st, f) || f in Completed(st)
    ensures f in Completed(st) <==> IsValidFile(st, f)
  {
    assert f in st.files.Keys <==> f in st.entries.Keys;
  }

  lemma SameUploads(v: Server, f: string)
    requires FilesAgree(v.st) && UploadsRecorded(v) && PendingUnrecorded(v)
    ensures var st := Restart(v.file, v.st.files, v.st.full);
            && (f in Completed(st) <==> f in Completed(v.st)) && (f in st.entries <==> f in Completed(v.st))
            && (f in Completed(st) ==> Completed(st)[f] == Completed(v.st)[f])
            && (f in v.st.files ==> (IsValidFile(v.st, f) <==> f in Loaded(v.file)))
  {
    RestartHas(v.file, v.st.files, v.st.full, f);
    CompletedOrPending(v.st, f);
  }

  lemma SameCompleted(v: Server)
    requires FilesAgree(v.st) && UploadsRecorded(v) && PendingUnrecorded(v)
    ensures var st := Restart(v.file, v.st.files, v.st.full);
            Completed(st) == Completed(v.st) && st.entries.Keys == Completed(v.st).Keys
  {
    var st := Restart(v.file, v.st.files, v.st.full);
    forall f
      ensures f in Completed(st) <==> f in Completed(v.st)
      ensures f in st.entries <==> f in Completed(v.st)
      ensures f in Completed(st) ==> Completed(st)[f] == Completed(v.st)[f]
    {
      SameUploads(v, f);
    }
  }

  lemma SameFiles(v: Server)
    requires FilesAgree(v.st) && UploadsRecorded(v) && PendingUnrecorded(v)
    ensures Restart(v.file, v.st.files, v.st.full).files
         == (map f | f in v.st.files && IsValidFile(v.st, f) :: v.st.files[f])
  {
    forall f
      ensures f in v.st.files ==> (IsValidFile(v.st, f) <==> f in Loaded(v.file))
    {
      SameUploads(v, f);
    }
  }

  lemma RecoveredIfRecorded(v: Server)
    requires FilesAgree(v.st) && UploadsRecorded(v) && PendingUnrecorded(v)
    ensures Recovered(v, Restart(v.file, v.st.files, v.st.full))
  {
    SameCompleted(v);
    SameFiles(v);
  }

  lemma RecordedIfRecovered(v: Server)
    requires FilesAgree(v.st) && Recovered(v, Restart(v.file, v.st.files, v.st.full))
    ensures UploadsRecorded(v) && PendingUnrecorded(v)
  {
    var st := Restart(v.file, v.st.files, v.st.full);
    forall f | f in Completed(v.st)
      ensures f in Loaded(v.file) && Loaded(v.file)[f] == Completed(v.st)[f]
    {
      assert f in Completed(st);
    }
    forall f | IsPending(v.st, f)
      ensures f !in Loaded(v.file)
    {
      assert f in v.st.files.Keys && f !in st.entries.Keys;
    }
  }

  /** What the condition comes to by the phase of the thread: right after the truncation there must be
      nothing to recover; with nothing left to save and the file written, recovery always succeeds; and
      before the truncation it is the old file that counts. */
  lemma RecoveredByPhase(v: Server)
    requires Inv(v) && FilesAgree(v.st)
    ensures var recovered := Recovered(v, Restart(v.file, v.st.files, v.st.full));
            && (v.thread.Truncated? ==> (recovered <==> Completed(v.st) == map[]))
            && (Quiescent(v) ==> recovered)
            && (!v.thread.Truncated? && !Quiescent(v) ==> (recovered <==> UploadsRecorded(v) && PendingUnrecorded(v)))
  {
    RecoveredIff(v);
    if Quiescent(v) {
      assert forall f :: IsPending(v.st, f) ==> f !in Completed(v.st);
    }
  }

  /** A restart from a quiescent state keeps exactly the completed uploads, removes the partial
      files of the pending ones, and has nothing to save. */
  lemma QuiescentRestart(v: Server, limits: Limits)
    requires Inv(v) && Quiescent(v) && FilesAgree(v.st)
    ensures var st := Restart(v.file, v.st.files, v.st.full);
            Recovered(v, st) && !st.dirty && Agrees(st, limits)
  {
    assert forall f :: f in Completed(v.st) ==> f in v.st.files.Keys;
    RecoveredByPhase(v);
  }

  /** Starting twice is the same as starting once. */
  lemma RestartTwice(file: MetaFile, files: map<string, string>, full: bool)
    ensures var st := Restart(file, files, full);
            Restart(file, st.files, full) == st
  {
  }

  /** Between truncating the file and writing it there is nothing to recover from: a restart then
      forgets every upload and deletes every file. */
  lemma CrashWhileTruncatedLosesAll(v: Server)
    requires Inv(v) && v.thread.Truncated?
    ensures Restart(v.file, v.st.files, v.st.full) == State(map[], map[], [], false, v.st.full)
  {
  }

  // ---- Runs that lose something ----

  /** The server started on an empty directory. */
  const START := Server(State(map[], map[], [], false, false), Items([]), Checking)

  lemma {:induction false} RunSnoc(v: Server, limits: Limits, es: seq<Event>, e: Event)
    requires EnabledRun(v, limits, es) && Enabled(After(v, limits, es), e)
    ensures EnabledRun(v, limits, es + [e]) && After(v, limits, es + [e]) == Next(After(v, limits, es), limits, e)
    decreases |es|
  {
    if es == [] {
      assert EnabledRun(Next(v, limits, e), limits, []);
      assert (es + [e])[1..] == [];
    } else {
      assert (es + [e])[1..] == es[1..] + [e];
      RunSnoc(Next(v, limits, es[0]), limits, es[1..], e);
    }
  }

  /** The server with the one file `f`, in upload or uploaded. */
  function Holding(f: string, entry: Entry, data: string, dirty: bool, file: MetaFile, thread: Thread): Server {
    Server(State(map[f := entry], map[f := data], [], dirty, false), file, thread)
  }

  lemma RegisterStep(v: Server, limits: Limits, f: string)
    requires v.st.entries == map[] && v.st.files == map[] && v.st.lru == [] && !v.st.full && Storable(f)
    ensures var e := Calling(Registering(f));
            Enabled(v, e) && Next(v, limits, e) == Holding(f, Pending, "", v.st.dirty, v.file, v.thread)
  {
  }

  lemma AppendStep(f: string, data: string, dirty: bool, file: MetaFile, limits: Limits)
    ensures var v, e := Holding(f, Pending, "", dirty, file, Checking), Calling(Appending(f, data));
            Enabled(v, e) && Next(v, limits, e) == Holding(f, Pending, data, dirty, file, Checking)
  {
    assert "" + data == data;
    assert map[f := ""][f := data] == map[f := data];
  }

  lemma InsertStep(f: string, data: string, file: MetaFile, limits: Limits)
    ensures var v, e := Holding(f, Pending, data, false, file, Checking), Calling(Inserting(f, |data|, 0));
            Enabled(v, e) && Next(v, limits, e) == Holding(f, Complete(Info(|data|, 0)), data, true, file, Checking)
  {
    assert map[f := Pending][f := Complete(Info(|data|, 0))] == map[f := Complete(Info(|data|, 0))];
  }

  /** `f` is uploaded with content `data`. */
  lemma Uploaded(limits: Limits, f: string, data: string) returns (es: seq<Event>)
    requires Storable(f)
    ensures EnabledRun(START, limits, es)
    ensures After(START, limits, es) == Holding(f, Complete(Info(|data|, 0)), data, true, Items([]), Checking)
  {
    RegisterStep(START, limits, f);
    AppendStep(f, data, false, Items([]), limits);
    InsertStep(f, data, Items([]), limits);
    RunSnoc(START, limits, [], Calling(Registering(f)));
    es := [] + [Calling(Registering(f))];
    RunSnoc(START, limits, es, Calling(Appending(f, data)));
    es := es + [Calling(Appending(f, data))];
    RunSnoc(START, limits, es, Calling(Inserting(f, |data|, 0)));
    es := es + [Calling(Inserting(f, |data|, 0))];
  }

  /** ... and the thread has truncated the file to save it. */
  lemma UploadedAndTruncated(limits: Limits, f: string, data: string) returns (es: seq<Event>)
    requires Storable(f)
    ensures EnabledRun(START, limits, es)
    ensures After(START, limits, es)
         == Holding(f, Complete(Info(|data|, 0)), data, false, Blank, Truncated([Record(f, |data|, 0)]))
  {
    var items := [Record(f, |data|, 0)];
    es := Uploaded(limits, f, data);
    var v := After(START, limits, es);
    assert items[0].filename == f && Lists(items, v.st);
    RunSnoc(START, limits, es, Check(items));
    RunSnoc(START, limits, es + [Check(items)], Truncate);
    es := es + [Check(items)] + [Truncate];
  }

  /** A restart at that moment forgets the upload and deletes the file. */
  lemma UploadLost(limits: Limits, f: string, data: string) returns (es: seq<Event>)
    requires Storable(f)
    ensures EnabledRun(START, limits, es)
    ensures var v := After(START, limits, es);
            IsValidFile(v.st, f) && Restart(v.file, v.st.files, v.st.full).files == map[]
  {
    es := UploadedAndTruncated(limits, f, data);
  }

  /** The saved file is deleted, and its name is taken up again for another upload. */
  lemma SavedAndTakenUpAgain(limits: Limits, f: string, data: string, part: string) returns (es: seq<Event>)
    requires Storable(f)
    ensures EnabledRun(START, limits, es)
    ensures After(START, limits, es) == Holding(f, Pending, part, true, Items([Record(f, |data|, 0)]), Checking)
  {
    var file := Items([Record(f, |data|, 0)]);
    es := UploadedAndTruncated(limits, f, data);
    RunSnoc(START, limits, es, WriteOut);
    es := es + [WriteOut];
    RunSnoc(START, limits, es, Calling(Deleting(f)));
    es := es + [Calling(Deleting(f))];
    var v := After(START, limits, es);
    assert v.st.entries == map[] && v.st.files == map[];
    RegisterStep(v, limits, f);
    RunSnoc(START, limits, es, Calling(Registering(f)));
    es := es + [Calling(Registering(f))];
    AppendStep(f, part, true, file, limits);
    RunSnoc(START, limits, es, Calling(Appending(f, part)));
    es := es + [Calling(Appending(f, part))];
  }

  /** A restart at that moment takes the partial file for the complete one, with the old size. */
  lemma PartialComesBack(limits: Limits, f: string, data: string, part: string) returns (es: seq<Event>)
    requires Storable(f)
    ensures EnabledRun(START, limits, es)
    ensures var v := After(START, limits, es);
            var st := Restart(v.file, v.st.files, v.st.full);
            && IsPending(v.st, f) && !Recovered(v, st)
            && st.entries == map[f := Complete(Info(|data|, 0))] && st.files == map[f := part]
  {
    es := SavedAndTakenUpAgain(limits, f, data, part);
    var items := [Record(f, |data|, 0)];
    assert items[..0] == [] && Load(items) == Load([])[f := Info(|data|, 0)];
    assert Load(items) == map[f := Info(|data|, 0)];
  }
}
