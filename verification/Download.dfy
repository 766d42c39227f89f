/** Sending a file in pieces: one call of `sendFile`, and the run of calls it schedules. */
module Download {
  import opened Registry
  import opened RegistryTheory
  import opened DataManagement
  import opened Wrappers

  /** What one call does: nothing is left to send, a piece is appended to the response buffer,
      or the connection is to be closed. */
  datatype Outcome = Nothing | Piece(data: string) | Failed

  /** `FileUtil::GetContent`: up to `len` bytes from `pos` on, and none past the end of the file. */
  function Content(file: string, pos: nat, len: nat): string {
    if pos >= |file| then ""
    else if len < |file| - pos then file[pos..pos + len]
    else file[pos..]
  }

  /** The next piece is read from the file, and a first piece is put into the cache, which has become
      `later` by then, since others may come in between. */
  function FromDisk(st: State, later: State, limits: Limits, maxRead: nat, name: string, start: nat, end: nat)
    : (State, Outcome)
    requires start < end
  {
    if name !in st.files then (st, Failed) else
    var data := Content(st.files[name], start, Min(maxRead, end - start));
    if start > 0 then (st, Piece(data)) else
    var (st2, stored) := PutFilePreContent(later, limits, name, data);
    (st2, if stored then Piece(data) else Failed)
  }

  /** One call of `sendFile` for the bytes from `start` up to `end`. Its `Put` meets the registry as
      it is `later`, since others may come in after the look into the cache. */
  function SendFileApart(st: State, later: State, limits: Limits, maxRead: nat, name: string, start: nat, end: nat)
    : (State, Outcome)
  {
    if start >= end then (st, Nothing) else
    var (st1, cached) := if start == 0 then GetFilePreContent(st, name) else (st, "");
    if cached != "" then (st1, Piece(cached)) else FromDisk(st1, later, limits, maxRead, name, start, end)
  }

  /** The same with nobody in between. */
  function SendFile(st: State, limits: Limits, maxRead: nat, name: string, start: nat, end: nat): (State, Outcome) {
    SendFileApart(st, GetFilePreContent(st, name).0, limits, maxRead, name, start, end)
  }

  /** The connection's side of a download. `subTask` is the position that the next call starts from. */
  class Sender {
    var responseBuffer: string
    var subTask: int
    var closing: bool
    const manager: DataManager
    const maxFileReadSize: nat

    constructor (manager: DataManager, maxFileReadSize: nat)
      ensures this.manager == manager && this.maxFileReadSize == maxFileReadSize
      ensures responseBuffer == "" && subTask == -1 && !closing
    {
      responseBuffer, subTask, closing := "", -1, false;
      this.manager, this.maxFileReadSize := manager, maxFileReadSize;
    }

    method ReadFromDisk(filename: string, start: nat, end: nat) returns (ok: bool, data: string)
      requires manager.Valid() && start < end
      modifies manager.list, manager.list.guard, manager.made
      ensures manager.Valid()
      ensures (manager.View(), if ok then Piece(data) else Failed)
           == FromDisk(old(manager.View()), old(manager.View()), manager.Bounds(), maxFileReadSize,
                       filename, start, end)
    {
      if filename !in manager.directory.files {
        return false, "";
      }
      data := Content(manager.directory.files[filename], start, Min(maxFileReadSize, end - start));
      ok := true;
      if start == 0 {
        ok := manager.PutFilePreContent(filename, data);
      }
    }

    /** What a call with something to send comes to. */
    static lemma SendIs(st: State, limits: Limits, maxRead: nat, name: string, start: nat, end: nat)
      requires start < end
      ensures var (looked, cached) := GetFilePreContent(st, name);
              SendFile(st, limits, maxRead, name, start, end)
              == if start > 0 then FromDisk(st, st, limits, maxRead, name, start, end)
                 else if cached != "" then (looked, Piece(cached))
                 else FromDisk(looked, looked, limits, maxRead, name, start, end)
    {
    }

    method ReadPiece(filename: string, start: nat, end: nat) returns (ok: bool, data: string)
      requires manager.Valid() && start < end
      modifies manager.list, manager.list.guard, manager.made
      ensures manager.Valid()
      ensures (manager.View(), if ok then Piece(data) else Failed)
           == SendFile(old(manager.View()), manager.Bounds(), maxFileReadSize, filename, start, end)
    {
      data, ok := "", true;
      SendIs(manager.View(), manager.Bounds(), maxFileReadSize, filename, start, end);
      if start == 0 {
        data := manager.GetFilePreContent(filename);
      }
      if data == "" {
        ok, data := ReadFromDisk(filename, start, end);
      }
    }

    method Send(filename: string, start: nat, end: nat)
      requires manager.Valid()
      modifies this, manager.list, manager.list.guard, manager.made
      ensures manager.Valid()
      ensures var (st, outcome) :=
                SendFile(old(manager.View()), manager.Bounds(), maxFileReadSize, filename, start, end);
              && manager.View() == st
              && responseBuffer == old(responseBuffer) + (if outcome.Piece? then outcome.data else "")
              && closing == (old(closing) || outcome.Failed?)
              && subTask == (if outcome.Piece? && start + |outcome.data| < end then start + |outcome.data| else -1)
    {
      ghost var result := SendFile(manager.View(), manager.Bounds(), maxFileReadSize, filename, start, end);
      subTask := -1;
      if start < end {
        var ok, data := ReadPiece(filename, start, end);
        assert result == (manager.View(), if ok then Piece(data) else Failed);
        if !ok {
          closing := true;
          return;
        }
        responseBuffer := responseBuffer + data;
        if start + |data| < end {
          subTask := start + |data|;
        }
      }
    }
  }

  // ---- The whole run ----

  /** The registry at the moment of a call, when the file is registered with these contents. */
  ghost predicate Serves(st: State, name: string, content: string) {
    IsValidFile(st, name) && name in st.files && st.files[name] == content && CacheSound(st)
  }

  ghost predicate AllServe(sts: seq<State>, name: string, content: string) {
    forall i :: 0 <= i < |sts| ==> Serves(sts[i], name, content)
  }

  /** The calls that a download makes, one per registry state, since other connections work on the
      registry between the calls. Gives the bytes appended and the position reached. */
  function Run(limits: Limits, maxRead: nat, name: string, sts: seq<State>, start: nat, end: nat): (string, nat)
    decreases |sts|
  {
    if sts == [] then ("", start) else
    match SendFile(sts[0], limits, maxRead, name, start, end).1
    case Piece(data) =>
      var (rest, reached) := Run(limits, maxRead, name, sts[1..], start + |data|, end);
      (data + rest, reached)
    case _ => ("", start)
  }

  /** What the LRU cache holds for a file. */
  function CachedPrefix(st: State, name: string): string {
    GetFilePreContent(st, name).1
  }

  lemma CachedIsPrefix(st: State, name: string, content: string)
    requires Serves(st, name, content)
    ensures CachedPrefix(st, name) <= content
  {
    var i := Position(st.lru, name);
    if i != -1 {
      assert st.lru[i] in st.lru && CachedSoundly(st, st.lru[i]);
    }
  }

  lemma ContentSize(file: string, start: nat, len: nat)
    ensures var data := Content(file, start, len);
            && |data| <= len && (|data| == len || start + |data| >= |file|)
            && (start <= |file| ==> start + |data| <= |file| && data == file[start..start + |data|])
  {
  }

  lemma PieceFromDisk(st: State, limits: Limits, maxRead: nat, name: string, start: nat, end: nat)
    requires name in st.files && start < end && (start == 0 ==> IsValidFile(st, name) && CachedPrefix(st, name) == "")
    ensures SendFile(st, limits, maxRead, name, start, end).1
         == Piece(Content(st.files[name], start, Min(maxRead, end - start)))
  {
  }

  /** A piece from the disk is as long as a read may be, unless the range or the file ends before. */
  lemma PieceSize(st: State, limits: Limits, maxRead: nat, name: string, start: nat, end: nat)
    requires name in st.files && start < end && (start == 0 ==> IsValidFile(st, name) && CachedPrefix(st, name) == "")
    ensures var (file, out) := (st.files[name], SendFile(st, limits, maxRead, name, start, end).1);
            && out.Piece? && |out.data| <= maxRead && start + |out.data| <= end
            && (|out.data| == maxRead || start + |out.data| == end || start + |out.data| >= |file|)
            && (start <= |file| ==> start + |out.data| <= |file| && out.data == file[start..start + |out.data|])
  {
    PieceFromDisk(st, limits, maxRead, name, start, end);
    ContentSize(st.files[name], start, Min(maxRead, end - start));
  }

  /** One call sends the bytes from `start` on, whether they come from the cache or the disk. */
  lemma OneCall(st: State, limits: Limits, maxRead: nat, name: string, content: string, start: nat, end: nat)
    requires Serves(st, name, content) && start < end <= |content| && maxRead > 0
    ensures var out := SendFile(st, limits, maxRead, name, start, end).1;
            && out.Piece? && out.data != "" && start + |out.data| <= |content|
            && out.data == content[start..start + |out.data|]
            && (start > 0 || CachedPrefix(st, name) == "" ==> start + |out.data| <= end)
            && (start == 0 && CachedPrefix(st, name) != "" ==> out.data == CachedPrefix(st, name))
  {
    CachedIsPrefix(st, name, content);
    if start > 0 || CachedPrefix(st, name) == "" {
      PieceSize(st, limits, maxRead, name, start, end);
    }
  }

  /** What `RunSendsTheFile` says of one run. */
  predicate Sent(content: string, start: nat, end: nat, calls: nat, out: (string, nat)) {
    && start <= out.1 <= |content| && out.0 == content[start..out.1]
    && (end - start <= calls ==> end <= out.1)
    && (0 < start <= end ==> out.1 <= end)
  }

  /** The length of the piece that the next call sends. */
  function PieceLength(limits: Limits, maxRead: nat, name: string, st: State, start: nat, end: nat): nat {
    var out := SendFile(st, limits, maxRead, name, start, end).1;
    if out.Piece? then |out.data| else 0
  }

  lemma RunStep(limits: Limits, maxRead: nat, name: string, content: string, sts: seq<State>, start: nat, end: nat)
    requires sts != [] && Serves(sts[0], name, content) && start < end <= |content| && maxRead > 0
    ensures var n := PieceLength(limits, maxRead, name, sts[0], start, end);
            var (rest, reached) := Run(limits, maxRead, name, sts[1..], start + n, end);
            && 0 < n && start + n <= |content| && (start > 0 ==> start + n <= end)
            && Run(limits, maxRead, name, sts, start, end) == (content[start..start + n] + rest, reached)
  {
    OneCall(sts[0], limits, maxRead, name, content, start, end);
  }

  lemma SentMore(content: string, start: nat, n: nat, end: nat, calls: nat, rest: (string, nat))
    requires 0 < n && start + n <= |content| && start < end && (start > 0 ==> start + n <= end) && calls > 0
    requires Sent(content, start + n, end, calls - 1, rest)
    ensures Sent(content, start, end, calls, (content[start..start + n] + rest.0, rest.1))
  {
    SliceJoins(content, start, start + n, rest.1);
  }

  lemma RunEnds(limits: Limits, maxRead: nat, name: string, content: string, sts: seq<State>, start: nat, end: nat)
    requires (sts == [] || start >= end) && start <= |content|
    ensures Sent(content, start, end, |sts|, Run(limits, maxRead, name, sts, start, end))
  {
    assert content[start..start] == "";
  }

  lemma RunGoesOn(limits: Limits, maxRead: nat, name: string, content: string, sts: seq<State>, start: nat, end: nat)
    requires sts != [] && Serves(sts[0], name, content) && start < end <= |content| && maxRead > 0
    requires var n := PieceLength(limits, maxRead, name, sts[0], start, end);
             Sent(content, start + n, end, |sts[1..]|, Run(limits, maxRead, name, sts[1..], start + n, end))
    ensures Sent(content, start, end, |sts|, Run(limits, maxRead, name, sts, start, end))
  {
    var n := PieceLength(limits, maxRead, name, sts[0], start, end);
    RunStep(limits, maxRead, name, content, sts, start, end);
    SentMore(content, start, n, end, |sts|, Run(limits, maxRead, name, sts[1..], start + n, end));
  }

  lemma RestServes(sts: seq<State>, name: string, content: string)
    requires sts != [] && AllServe(sts, name, content)
    ensures Serves(sts[0], name, content) && AllServe(sts[1..], name, content)
  {
  }

  lemma {:induction false} RunSendsTheFile(limits: Limits, maxRead: nat, name: string, content: string,
                                           sts: seq<State>, start: nat, end: nat)
    requires AllServe(sts, name, content)
    requires start <= |content| && end <= |content| && maxRead > 0
    ensures Sent(content, start, end, |sts|, Run(limits, maxRead, name, sts, start, end))
    decreases |sts|
  {
    if sts == [] || start >= end {
      RunEnds(limits, maxRead, name, content, sts, start, end);
    } else {
      var n := PieceLength(limits, maxRead, name, sts[0], start, end);
      RestServes(sts, name, content);
      OneCall(sts[0], limits, maxRead, name, content, start, end);
      RunSendsTheFile(limits, maxRead, name, content, sts[1..], start + n, end);
      RunGoesOn(limits, maxRead, name, content, sts, start, end);
    }
  }

  /** A download of `start` up to `end` ends after at most `end - start` calls, having sent exactly
      those bytes, if and only if it does not start at 0 with more than `end` bytes in the cache:
      a cached prefix is sent whole. */
  lemma DownloadExactIff(limits: Limits, maxRead: nat, name: string, content: string,
                         sts: seq<State>, start: nat, end: nat)
    requires sts != [] && end - start <= |sts|
    requires AllServe(sts, name, content)
    requires start <= end <= |content| && maxRead > 0
    ensures Run(limits, maxRead, name, sts, start, end) == (content[start..end], end)
       <==> (start > 0 || end == 0 || |CachedPrefix(sts[0], name)| <= end)
  {
    RunSendsTheFile(limits, maxRead, name, content, sts, start, end);
    if start == 0 < end {
      OneCall(sts[0], limits, maxRead, name, content, start, end);
      var n := |SendFile(sts[0], limits, maxRead, name, start, end).1.data|;
      RunSendsTheFile(limits, maxRead, name, content, sts[1..], n, end);
    }
  }

  /** A whole file comes out the same on a cache hit and on a miss. */
  lemma WholeFileDownload(limits: Limits, maxRead: nat, name: string, content: string, sts: seq<State>)
    requires sts != [] && |content| <= |sts| && maxRead > 0
    requires AllServe(sts, name, content)
    ensures Run(limits, maxRead, name, sts, 0, |content|) == (content, |content|)
  {
    CachedIsPrefix(sts[0], name, content);
    DownloadExactIff(limits, maxRead, name, content, sts, 0, |content|);
    assert content[0..|content|] == content;
  }

  /** A call past the start makes no progress exactly when the file on the disk has become too
      short; it is then scheduled again for the same position, for ever. */
  lemma NoProgressIff(st: State, limits: Limits, maxRead: nat, name: string, start: nat, end: nat)
    requires name in st.files && 0 < start < end && maxRead > 0
    ensures SendFile(st, limits, maxRead, name, start, end) == (st, Piece("")) <==> |st.files[name]| <= start
  {
  }

  /** After the first call from the start of a file, the file heads the LRU list with a prefix of
      its contents, so that the next download of it need not read the disk. */
  lemma FirstCallCaches(st: State, limits: Limits, maxRead: nat, name: string, content: string, end: nat)
    requires Serves(st, name, content) && 0 < end <= |content| && maxRead > 0
    requires limits.capacity > 0 && limits.contentSize > 0 && Position(st.lru, name) == -1
    ensures var st' := SendFile(st, limits, maxRead, name, 0, end).0;
            && CachedPrefix(st', name) != "" && CachedPrefix(st', name) <= content
            && st'.lru != [] && st'.lru[0].name == name && st'.entries == st.entries && st'.files == st.files
  {
    var st' := SendFile(st, limits, maxRead, name, 0, end).0;
    assert st'.lru[0].name == name;
  }

  // ---- What calls leave behind ----

  /** A call changes no more than the list, and keeps it truthful and within its limits; it changes not even
      that if it starts past 0, or has nothing to send. */
  lemma SendKeepsRegistry(st: State, limits: Limits, maxRead: nat, name: string, start: nat, end: nat)
    requires Agrees(st, limits) && CacheSound(st)
    ensures var t := SendFile(st, limits, maxRead, name, start, end).0;
            && t == st.(lru := t.lru) && Agrees(t, limits) && CacheSound(t)
            && (forall c :: c in t.lru ==> c in st.lru || c.name == name)
            && (start > 0 || start >= end ==> t == st)
  {
    if start == 0 < end {
      FirstCallKeepsRegistry(st, limits, maxRead, name, end);
    }
  }

  lemma FirstCallKeepsRegistry(st: State, limits: Limits, maxRead: nat, name: string, end: nat)
    requires Agrees(st, limits) && CacheSound(st) && end > 0
    ensures var t := SendFile(st, limits, maxRead, name, 0, end).0;
            && t == st.(lru := t.lru) && Agrees(t, limits) && CacheSound(t)
            && (forall c :: c in t.lru ==> c in st.lru || c.name == name)
  {
    var (looked, cached) := GetFilePreContent(st, name);
    ApplyKeepsAgreement(st, limits, Getting(name));
    CacheSoundIff(st, limits, Getting(name));
    forall c | c in looked.lru
      ensures c in st.lru
    {
      GottenFromList(st, name, c);
    }
    if cached == "" && name in st.files {
      PutKeepsRegistry(looked, limits, name, Content(st.files[name], 0, Min(maxRead, end)));
    }
  }

  /** Storing for a file adds no cached value of another file. */
  lemma PutAddsOwn(st: State, limits: Limits, name: string, data: string, c: Cached)
    requires ListAgrees(st, limits) && c in PutFilePreContent(st, limits, name, data).0.lru
    ensures c in st.lru || c.name == name
  {
    if IsValidFile(st, name) && Position(st.lru, name) == -1 {
      PushKeeps(st.lru, Cached(name, Shorten(data, limits.contentSize)), limits.capacity);
    } else {
      PutAgainInList(st, limits, name, data, c);
    }
  }

  lemma PutKeepsRegistry(st: State, limits: Limits, name: string, data: string)
    requires Agrees(st, limits) && CacheSound(st) && name in st.files && data <= st.files[name]
    ensures var t := PutFilePreContent(st, limits, name, data).0;
            && Agrees(t, limits) && CacheSound(t) && (forall c :: c in t.lru ==> c in st.lru || c.name == name)
  {
    ApplyKeepsAgreement(st, limits, Putting(name, data));
    assert Shorten(data, limits.contentSize) <= data;
    CacheSoundIff(st, limits, Putting(name, data));
    forall c | c in PutFilePreContent(st, limits, name, data).0.lru
      ensures c in st.lru || c.name == name
    {
      PutAddsOwn(st, limits, name, data, c);
    }
  }

  /** A call asks for the connection to be closed if and only if there is something to send that is not in
      the cache, and the file is missing from the directory or, at the start, not registered as uploaded. */
  lemma FailsIff(st: State, limits: Limits, maxRead: nat, name: string, start: nat, end: nat)
    ensures SendFile(st, limits, maxRead, name, start, end).1.Failed?
       <==> && start < end && (start == 0 ==> CachedPrefix(st, name) == "")
            && (name !in st.files || (start == 0 && !IsValidFile(st, name)))
    ensures SendFile(st, limits, maxRead, name, start, end).1.Nothing? <==> start >= end
  {
  }

  /** One call of `sendFile`, of whatever download. */
  datatype Call = Call(name: string, start: nat, end: nat)

  function AfterCalls(limits: Limits, maxRead: nat, st: State, calls: seq<Call>): State
    decreases |calls|
  {
    if calls == [] then st
    else AfterCalls(limits, maxRead, SendFile(st, limits, maxRead, calls[0].name, calls[0].start, calls[0].end).0,
                    calls[1..])
  }

  /** Any calls of any downloads, one after another, leave registry and directory as they are and the cache
      truthful. */
  lemma {:induction false} CallsKeepRegistry(limits: Limits, maxRead: nat, st: State, calls: seq<Call>)
    requires Agrees(st, limits) && CacheSound(st)
    ensures var t := AfterCalls(limits, maxRead, st, calls);
            t == st.(lru := t.lru) && Agrees(t, limits) && CacheSound(t)
    decreases |calls|
  {
    if calls != [] {
      SendKeepsRegistry(st, limits, maxRead, calls[0].name, calls[0].start, calls[0].end);
      var t := SendFile(st, limits, maxRead, calls[0].name, calls[0].start, calls[0].end).0;
      CallsKeepRegistry(limits, maxRead, t, calls[1..]);
    }
  }

  /** A download of at most `calls` calls, each on the registry that the one before has left: the registry
      after it, the bytes sent, and the position reached. */
  function Session(limits: Limits, maxRead: nat, name: string, st: State, start: nat, end: nat, calls: nat)
    : (State, string, nat)
    decreases calls
  {
    if calls == 0 then (st, "", start) else
    var (t, out) := SendFile(st, limits, maxRead, name, start, end);
    if !out.Piece? then (t, "", start) else
    var (last, rest, reached) := Session(limits, maxRead, name, t, start + |out.data|, end, calls - 1);
    (last, out.data + rest, reached)
  }

  /** The registries that the calls of a download meet. */
  ghost predicate Met(limits: Limits, maxRead: nat, name: string, st: State, start: nat, end: nat, sts: seq<State>) {
    && (sts != [] ==> sts[0] == st)
    && var (_, sent, reached) := Session(limits, maxRead, name, st, start, end, |sts|);
       Run(limits, maxRead, name, sts, start, end) == (sent, reached)
  }

  lemma SessionGoesOn(limits: Limits, maxRead: nat, name: string, st: State, start: nat, end: nat, calls: nat)
    requires calls > 0 && SendFile(st, limits, maxRead, name, start, end).1.Piece?
    ensures var (t, out) := SendFile(st, limits, maxRead, name, start, end);
            var (last, rest, reached) := Session(limits, maxRead, name, t, start + |out.data|, end, calls - 1);
            Session(limits, maxRead, name, st, start, end, calls) == (last, out.data + rest, reached)
  {
  }

  lemma RunMeets(limits: Limits, maxRead: nat, name: string, sts: seq<State>, start: nat, end: nat)
    requires sts != [] && SendFile(sts[0], limits, maxRead, name, start, end).1.Piece?
    ensures var out := SendFile(sts[0], limits, maxRead, name, start, end).1;
            var (rest, reached) := Run(limits, maxRead, name, sts[1..], start + |out.data|, end);
            Run(limits, maxRead, name, sts, start, end) == (out.data + rest, reached)
  {
  }

  lemma MeetsNext(limits: Limits, maxRead: nat, name: string, t: State, start: nat, end: nat, sts: seq<State>,
                  out: Outcome)
    requires sts != [] && SendFile(sts[0], limits, maxRead, name, start, end) == (t, out) && out.Piece?
    requires Met(limits, maxRead, name, t, start + |out.data|, end, sts[1..])
    ensures Met(limits, maxRead, name, sts[0], start, end, sts)
    ensures Session(limits, maxRead, name, sts[0], start, end, |sts|).0
         == Session(limits, maxRead, name, t, start + |out.data|, end, |sts[1..]|).0
  {
    SessionGoesOn(limits, maxRead, name, sts[0], start, end, |sts|);
    RunMeets(limits, maxRead, name, sts, start, end);
  }

  lemma MeetsNoMore(limits: Limits, maxRead: nat, name: string, st: State, start: nat, end: nat, sts: seq<State>)
    requires sts != [] && sts[0] == st && !SendFile(st, limits, maxRead, name, start, end).1.Piece?
    ensures Met(limits, maxRead, name, st, start, end, sts)
    ensures Session(limits, maxRead, name, st, start, end, |sts|).0
         == SendFile(st, limits, maxRead, name, start, end).0
  {
  }

  lemma ServesOn(st: State, limits: Limits, maxRead: nat, name: string, content: string, start: nat, end: nat)
    requires Agrees(st, limits) && Serves(st, name, content)
    ensures var t := SendFile(st, limits, maxRead, name, start, end).0;
            t == st.(lru := t.lru) && Agrees(t, limits) && Serves(t, name, content)
  {
    SendKeepsRegistry(st, limits, maxRead, name, start, end);
  }

  lemma AllServeFirst(sts: seq<State>, name: string, content: string)
    requires sts != [] && Serves(sts[0], name, content) && AllServe(sts[1..], name, content)
    ensures AllServe(sts, name, content)
  {
    forall i | 0 <= i < |sts|
      ensures Serves(sts[i], name, content)
    {
      if i > 0 {
        assert sts[i] == sts[1..][i - 1];
      }
    }
  }

  lemma SameButList(st: State, t: State, u: State)
    requires t == st.(lru := t.lru) && u == t.(lru := u.lru)
    ensures u == st.(lru := u.lru)
  {
  }

  /** The registries that a download meets serve its file, and so does the one that it leaves. */
  ghost predicate Played(limits: Limits, maxRead: nat, name: string, content: string, st: State, start: nat, end: nat,
                         sts: seq<State>)
  {
    && AllServe(sts, name, content) && Met(limits, maxRead, name, st, start, end, sts)
    && var t := Session(limits, maxRead, name, st, start, end, |sts|).0;
       t == st.(lru := t.lru) && Serves(t, name, content)
  }

  lemma PlayedFurther(limits: Limits, maxRead: nat, name: string, content: string, start: nat, end: nat,
                      sts: seq<State>, t: State, out: Outcome)
    requires sts != [] && Agrees(sts[0], limits) && Serves(sts[0], name, content)
    requires SendFile(sts[0], limits, maxRead, name, start, end) == (t, out) && out.Piece?
    requires Played(limits, maxRead, name, content, t, start + |out.data|, end, sts[1..])
    ensures Played(limits, maxRead, name, content, sts[0], start, end, sts)
  {
    ServesOn(sts[0], limits, maxRead, name, content, start, end);
    AllServeFirst(sts, name, content);
    MeetsNext(limits, maxRead, name, t, start, end, sts, out);
    SameButList(sts[0], t, Session(limits, maxRead, name, t, start + |out.data|, end, |sts[1..]|).0);
  }

  lemma PlayedOut(limits: Limits, maxRead: nat, name: string, content: string, st: State, start: nat, end: nat,
                  sts: seq<State>)
    requires Agrees(st, limits) && Serves(st, name, content) && sts != [] && forall i :: 0 <= i < |sts| ==> sts[i] == st
    requires !SendFile(st, limits, maxRead, name, start, end).1.Piece?
    ensures Played(limits, maxRead, name, content, st, start, end, sts)
  {
    ServesOn(st, limits, maxRead, name, content, start, end);
    MeetsNoMore(limits, maxRead, name, st, start, end, sts);
  }

  lemma {:induction false} SessionIsRun(limits: Limits, maxRead: nat, name: string, content: string, st: State,
                                        start: nat, end: nat, calls: nat) returns (sts: seq<State>)
    requires Agrees(st, limits) && Serves(st, name, content)
    ensures |sts| == calls && Played(limits, maxRead, name, content, st, start, end, sts)
    decreases calls
  {
    if calls == 0 {
      sts := [];
    } else {
      var (t, out) := SendFile(st, limits, maxRead, name, start, end);
      if out.Piece? {
        ServesOn(st, limits, maxRead, name, content, start, end);
        var rest := SessionIsRun(limits, maxRead, name, content, t, start + |out.data|, end, calls - 1);
        sts := [st] + rest;
        assert sts[1..] == rest;
        PlayedFurther(limits, maxRead, name, content, start, end, sts, t, out);
      } else {
        sts := seq(calls, _ => st);
        PlayedOut(limits, maxRead, name, content, st, start, end, sts);
      }
    }
  }

  /** A download after any other calls, of any downloads, on the registry that they have left behind: it
      sends exactly its range unless it starts at 0 and more than the range is cached by then, and it too
      leaves a registry that serves the file. */
  lemma LaterDownloadExactIff(limits: Limits, maxRead: nat, name: string, content: string, st: State,
                              before: seq<Call>, start: nat, end: nat, calls: nat)
    requires Agrees(st, limits) && Serves(st, name, content) && maxRead > 0
    requires start <= end <= |content| && calls > 0 && end - start <= calls
    ensures var warm := AfterCalls(limits, maxRead, st, before);
            var (t, sent, reached) := Session(limits, maxRead, name, warm, start, end, calls);
            && Serves(t, name, content) && t == st.(lru := t.lru)
            && ((sent, reached) == (content[start..end], end)
                <==> start > 0 || end == 0 || |CachedPrefix(warm, name)| <= end)
  {
    var warm := AfterCalls(limits, maxRead, st, before);
    CallsKeepRegistry(limits, maxRead, st, before);
    var sts := SessionIsRun(limits, maxRead, name, content, warm, start, end, calls);
    DownloadExactIff(limits, maxRead, name, content, sts, start, end);
  }

  /** So the whole file comes out, whatever has been downloaded before. */
  lemma LaterWholeDownload(limits: Limits, maxRead: nat, name: string, content: string, st: State,
                           before: seq<Call>, calls: nat)
    requires Agrees(st, limits) && Serves(st, name, content) && maxRead > 0 && calls > 0 && |content| <= calls
    ensures var warm := AfterCalls(limits, maxRead, st, before);
            var (_, sent, reached) := Session(limits, maxRead, name, warm, 0, |content|, calls);
            sent == content && reached == |content|
  {
    var warm := AfterCalls(limits, maxRead, st, before);
    CallsKeepRegistry(limits, maxRead, st, before);
    CachedIsPrefix(warm, name, content);
    LaterDownloadExactIff(limits, maxRead, name, content, st, before, 0, |content|, calls);
    assert content[0..|content|] == content;
  }

  // ---- A range from 0 that gets too much ----

  function CachedLength(limits: Limits, maxRead: nat, content: string): nat {
    Min(Min(maxRead, |content|), limits.contentSize)
  }

  /** What the first call of a whole download leaves in the cache. */
  lemma WarmedUp(st: State, limits: Limits, maxRead: nat, name: string, content: string)
    requires Serves(st, name, content) && content != "" && maxRead > 0 && limits.capacity > 0
    requires Position(st.lru, name) == -1
    ensures var warm := SendFile(st, limits, maxRead, name, 0, |content|).0;
            Serves(warm, name, content) && CachedPrefix(warm, name) == content[..CachedLength(limits, maxRead, content)]
  {
    var data := Content(content, 0, Min(maxRead, |content|));
    var warm := SendFile(st, limits, maxRead, name, 0, |content|).0;
    var c := Cached(name, Shorten(data, limits.contentSize));
    assert data == content[..Min(maxRead, |content|)];
    assert warm.lru[0] == c;
    forall d | d in warm.lru
      ensures CachedSoundly(warm, d)
    {
      assert d == c || (d in st.lru && CachedSoundly(st, d));
    }
  }

  /** After a whole download of a file that was not cached, a range from 0 is answered exactly if and
      only if it is empty or reaches as far as what that download has put into the cache. */
  lemma RangeAfterDownloadIff(st: State, limits: Limits, maxRead: nat, name: string, content: string,
                              later: seq<State>, end: nat)
    requires Serves(st, name, content) && content != "" && maxRead > 0 && limits.capacity > 0
    requires Position(st.lru, name) == -1 && AllServe(later, name, content)
    requires end <= |content| && end <= 1 + |later|
    ensures var warm := SendFile(st, limits, maxRead, name, 0, |content|).0;
            var exact := Run(limits, maxRead, name, [warm] + later, 0, end) == (content[..end], end);
            exact <==> end == 0 || CachedLength(limits, maxRead, content) <= end
  {
    var warm := SendFile(st, limits, maxRead, name, 0, |content|).0;
    WarmedUp(st, limits, maxRead, name, content);
    assert AllServe([warm] + later, name, content);
    DownloadExactIff(limits, maxRead, name, content, [warm] + later, 0, end);
    assert content[0..end] == content[..end];
  }

  /** Nothing uploaded yet. */
  const EMPTY := State(map[], map[], [], false, false)

  /** The calls that upload the file "f" with content "ab". */
  const UPLOAD := [Registering("f"), Appending("f", "ab"), Inserting("f", 2, 0)]

  lemma UploadAB(limits: Limits)
    ensures LegalRun(EMPTY, limits, UPLOAD)
    ensures RegistryTheory.Run(EMPTY, limits, UPLOAD)
         == State(map["f" := Complete(Info(2, 0))], map["f" := "ab"], [], true, false)
  {
    var s1 := Apply(EMPTY, limits, UPLOAD[0]);
    var s2 := Apply(s1, limits, UPLOAD[1]);
    var s3 := Apply(s2, limits, UPLOAD[2]);
    assert "" + "ab" == "ab" && s2.files == map["f" := "ab"];
    assert s3.entries == map["f" := Complete(Info(2, 0))];
    assert UPLOAD[1..] == [UPLOAD[1], UPLOAD[2]] && UPLOAD[1..][1..] == [UPLOAD[2]] && UPLOAD[1..][1..][1..] == [];
    assert LegalRun(s3, limits, []) && RegistryTheory.Run(s3, limits, []) == s3;
    assert LegalRun(s2, limits, [UPLOAD[2]]) && RegistryTheory.Run(s2, limits, [UPLOAD[2]]) == s3;
    assert LegalRun(s1, limits, UPLOAD[1..]) && RegistryTheory.Run(s1, limits, UPLOAD[1..]) == s3;
  }

  /** Once "ab" has been uploaded and downloaded, the range from 0 to 1 sends both bytes. */
  lemma RangeGetsTooMuch(limits: Limits, maxRead: nat)
    requires limits.capacity > 0 && limits.contentSize >= 2 && maxRead >= 2
    ensures var st := RegistryTheory.Run(EMPTY, limits, UPLOAD);
            var (warm, out) := SendFile(st, limits, maxRead, "f", 0, 2);
            && LegalRun(EMPTY, limits, UPLOAD) && out == Piece("ab")
            && Run(limits, maxRead, "f", [warm], 0, 1) == ("ab", 2)
  {
    UploadAB(limits);
    var st := RegistryTheory.Run(EMPTY, limits, UPLOAD);
    var (warm, out) := SendFile(st, limits, maxRead, "f", 0, 2);
    assert Serves(st, "f", "ab");
    WarmedUp(st, limits, maxRead, "f", "ab");
    assert "ab"[..2] == "ab" && CachedPrefix(warm, "f") == "ab";
    assert Run(limits, maxRead, "f", [], 2, 1) == ("", 2) && [warm][1..] == [];
    assert "ab" + "" == "ab";
  }

  // ---- Others between the read and the `Put` ----

  /** What others do between the read and the `Put` does not change what is sent, unless they delete
      the file. */
  lemma SentApart(st: State, later: State, limits: Limits, maxRead: nat, name: string, start: nat, end: nat)
    requires IsValidFile(st, name)
    ensures var apart := SendFileApart(st, later, limits, maxRead, name, start, end).1;
            apart == SendFile(st, limits, maxRead, name, start, end).1
            || (apart == Failed && !IsValidFile(later, name))
  {
  }
}
