/** Every run of legal operations keeps the registry, the directory and the cache in agreement. */
module RegistryTheory {
  import opened Registry

  /** Moving to the front keeps the same entries. */
  lemma ToFrontKeeps(lru: seq<Cached>, i: nat)
    requires i < |lru| && DistinctNames(lru)
    ensures DistinctNames(ToFront(lru, i)) && |ToFront(lru, i)| == |lru|
    ensures forall c :: c in ToFront(lru, i) <==> c in lru
  {
    var r := ToFront(lru, i);
    forall c | c in lru
      ensures c in r
    {
      var k :| 0 <= k < |lru| && lru[k] == c;
      assert r[if k == i then 0 else if k < i then k + 1 else k] == c;
    }
  }

  lemma WithoutDrops(lru: seq<Cached>, name: string)
    requires DistinctNames(lru)
    ensures DistinctNames(Without(lru, name)) && |Without(lru, name)| <= |lru|
    ensures forall c :: c in Without(lru, name) <==> c in lru && c.name != name
  {
    var i := Position(lru, name);
    var r := Without(lru, name);
    if i != -1 {
      forall c | c in lru && c.name != name
        ensures c in r
      {
        var k :| 0 <= k < |lru| && lru[k] == c;
        assert r[if k < i then k else k - 1] == c;
      }
    }
  }

  /** Pushing keeps the most recent entries, and only the pushed one is new. */
  lemma PushKeeps(lru: seq<Cached>, c: Cached, capacity: nat)
    requires DistinctNames(lru) && Position(lru, c.name) == -1 && |lru| <= capacity
    ensures DistinctNames(Trimmed([c] + lru, capacity))
    ensures |Trimmed([c] + lru, capacity)| <= capacity
    ensures forall d :: d in Trimmed([c] + lru, capacity) ==> d == c || d in lru
  {
    assert DistinctNames([c] + lru);
  }

  lemma ListFacts(lru: seq<Cached>, name: string)
    requires DistinctNames(lru)
    ensures var i := Position(lru, name);
            i != -1 ==>
              && DistinctNames(ToFront(lru, i)) && |ToFront(lru, i)| == |lru|
              && forall c :: c in ToFront(lru, i) <==> c in lru
    ensures DistinctNames(Without(lru, name)) && |Without(lru, name)| <= |lru|
    ensures forall c :: c in Without(lru, name) <==> c in lru && c.name != name
  {
    var i := Position(lru, name);
    if i != -1 { ToFrontKeeps(lru, i); }
    WithoutDrops(lru, name);
  }

  lemma ApplyKeepsFiles(st: State, limits: Limits, op: Op)
    requires FilesAgree(st) && Legal(st, op)
    ensures FilesAgree(Apply(st, limits, op))
  {
  }

  lemma PutKeepsList(st: State, limits: Limits, name: string, content: string)
    requires ListAgrees(st, limits)
    ensures ListAgrees(PutFilePreContent(st, limits, name, content).0, limits)
  {
    if Position(st.lru, name) == -1 {
      PushKeeps(st.lru, Cached(name, Shorten(content, limits.contentSize)), limits.capacity);
    } else {
      ListFacts(st.lru, name);
    }
  }

  lemma DeleteKeepsList(st: State, limits: Limits, name: string)
    requires ListAgrees(st, limits)
    ensures ListAgrees(Delete(st, name).0, limits)
  {
    WithoutDrops(st.lru, name);
    var t := Delete(st, name).0;
    forall c | c in t.lru
      ensures IsValidFile(t, c.name) && |c.content| <= limits.contentSize
    {
      assert c in st.lru;
    }
  }

  lemma GetKeepsList(st: State, limits: Limits, name: string)
    requires ListAgrees(st, limits)
    ensures ListAgrees(GetFilePreContent(st, name).0, limits)
  {
    ListFacts(st.lru, name);
  }

  lemma ApplyKeepsList(st: State, limits: Limits, op: Op)
    requires ListAgrees(st, limits) && Legal(st, op)
    ensures ListAgrees(Apply(st, limits, op), limits)
  {
    match op
    case Deleting(f) => DeleteKeepsList(st, limits, f);
    case Getting(f) => GetKeepsList(st, limits, f);
    case Putting(f, content) => PutKeepsList(st, limits, f, content);
    case _ =>
      assert Apply(st, limits, op).lru == st.lru;
      assert forall f :: IsValidFile(st, f) ==> IsValidFile(Apply(st, limits, op), f);
  }

  lemma ApplyKeepsAgreement(st: State, limits: Limits, op: Op)
    requires Agrees(st, limits) && Legal(st, op)
    ensures Agrees(Apply(st, limits, op), limits)
  {
    ApplyKeepsFiles(st, limits, op);
    ApplyKeepsList(st, limits, op);
  }

  /** Giving up a file makes no difference between appending to it first and not. */
  lemma GivenUp(st: State, name: string, data: string)
    ensures Deregister(Append(st, name, data).0, name) == Deregister(st, name)
  {
    assert Appended(st.files, st.full, name, data) - {name} == st.files - {name};
  }

  // ---- What the cache answers and keeps ----

  lemma ToFrontPermutes<T>(s: seq<T>, i: nat)
    requires i < |s|
    ensures multiset(ToFront(s, i)) == multiset(s)
  {
    assert s == s[..i] + [s[i]] + s[i + 1..];
  }

  lemma CachedIff(lru: seq<Cached>, name: string)
    ensures Position(lru, name) != -1 <==> exists c :: c in lru && c.name == name
  {
    var i := Position(lru, name);
    if i != -1 {
      assert lru[i] in lru;
    }
  }

  /** Reading the cache gives the content cached under the name, and nothing for a name that is not
      uploaded or not cached; a hit becomes the first of the list, which otherwise keeps its entries. */
  lemma GetAnswers(st: State, name: string)
    requires DistinctNames(st.lru)
    ensures var (t, content) := GetFilePreContent(st, name);
            var hit := IsValidFile(st, name) && exists c :: c in st.lru && c.name == name;
            && multiset(t.lru) == multiset(st.lru)
            && (hit ==> Cached(name, content) in st.lru && t.lru[0] == Cached(name, content))
            && (!hit ==> content == "" && t.lru == st.lru)
  {
    var i := Position(st.lru, name);
    CachedIff(st.lru, name);
    if i != -1 {
      assert st.lru[i] in st.lru && st.lru[i] == Cached(name, st.lru[i].content);
      ToFrontPermutes(st.lru, i);
    }
  }

  /** Storing puts as much of the content as the limit allows at the front, and only the last entry may
      have to go for it; a file that is cached already keeps what is cached and comes to the front. */
  lemma PutStores(st: State, limits: Limits, name: string, content: string)
    requires |st.lru| <= limits.capacity && IsValidFile(st, name)
    ensures var t := PutFilePreContent(st, limits, name, content).0;
            if exists c :: c in st.lru && c.name == name then
              multiset(t.lru) == multiset(st.lru) && t.lru[0].name == name
            else if limits.capacity == 0 then t.lru == []
            else
              && t.lru[0].name == name && t.lru[0].content <= content
              && |t.lru[0].content| == (if |content| < limits.contentSize then |content| else limits.contentSize)
              && t.lru[1..] == (if |st.lru| < limits.capacity then st.lru else st.lru[..|st.lru| - 1])
  {
    CachedIff(st.lru, name);
    if Position(st.lru, name) != -1 {
      ToFrontPermutes(st.lru, Position(st.lru, name));
    }
  }

  // ---- What the other calls do ----

  /** The two registries and directories are the same but for one name. */
  ghost predicate SameElsewhere(before: State, after: State, name: string) {
    forall f :: f != name ==>
      && (f in after.entries <==> f in before.entries) && (f in after.files <==> f in before.files)
      && (f in before.entries ==> after.entries[f] == before.entries[f])
      && (f in before.files ==> after.files[f] == before.files[f])
  }

  /** Registering takes up a free valid name, with an empty file, and refuses every other one. */
  lemma RegisterTakes(st: State, name: string)
    ensures var (t, ok) := Register(st, name);
            && (ok <==> name !in st.entries && Storable(name))
            && (ok ==> IsPending(t, name) && name in t.files && t.files[name] == "" && SameElsewhere(st, t, name))
            && (!ok ==> t == st)
            && t.lru == st.lru && t.dirty == st.dirty && t.full == st.full
  {
  }

  /** What the list holds of other files, in the same order. */
  function OfOthers(lru: seq<Cached>, name: string): seq<Cached> {
    if lru == [] then []
    else (if lru[0].name == name then [] else [lru[0]]) + OfOthers(lru[1..], name)
  }

  lemma {:induction false} OfOthersUncached(lru: seq<Cached>, name: string)
    requires forall c :: c in lru ==> c.name != name
    ensures OfOthers(lru, name) == lru
    decreases |lru|
  {
    if lru != [] {
      OfOthersUncached(lru[1..], name);
    }
  }

  lemma {:induction false} WithoutIsOfOthers(lru: seq<Cached>, name: string)
    requires DistinctNames(lru)
    ensures Without(lru, name) == OfOthers(lru, name)
    decreases |lru|
  {
    if lru != [] {
      var rest := lru[1..];
      if lru[0].name == name {
        assert forall c :: c in rest ==> c.name != name;
        OfOthersUncached(rest, name);
        assert Without(lru, name) == rest;
      } else {
        WithoutIsOfOthers(rest, name);
        WithoutRest(lru, name);
      }
    }
  }

  lemma WithoutRest(lru: seq<Cached>, name: string)
    requires lru != [] && lru[0].name != name
    ensures Without(lru, name) == [lru[0]] + Without(lru[1..], name)
  {
    var i := Position(lru[1..], name);
    if i != -1 {
      assert lru[..i + 1] == [lru[0]] + lru[1..][..i] && lru[i + 2..] == lru[1..][i + 1..];
    }
  }

  /** Deleting an uploaded file takes it out of registry, directory and list, leaves everything else as it
      was, and frees the name; deleting any other name is refused and changes nothing. */
  lemma DeleteRemoves(st: State, limits: Limits, name: string)
    requires Agrees(st, limits)
    ensures var (t, ok) := Delete(st, name);
            if IsValidFile(st, name) then
              && ok && name !in t.entries && name !in t.files && SameElsewhere(st, t, name)
              && t.lru == OfOthers(st.lru, name) && t.dirty && t.full == st.full
              && Register(t, name).1
            else !ok && t == st
  {
    WithoutIsOfOthers(st.lru, name);
  }

  /** The registry after an upload of `name` in one write, with room on the disk. */
  function Uploaded(st: State, name: string, data: string, now: int): State {
    Insert(Append(Register(st, name).0, name, data).0, name, |data|, now).0
  }

  /** Giving up an upload undoes it. */
  lemma DeregisterUndoes(st: State, name: string, data: string)
    requires FilesAgree(st) && Register(st, name).1
    ensures Deregister(Append(Register(st, name).0, name, data).0, name) == st
  {
    var t := Append(Register(st, name).0, name, data).0;
    assert name !in st.entries.Keys && name !in st.files.Keys;
    assert t.entries - {name} == st.entries && t.files - {name} == st.files;
  }

  lemma UploadedIs(st: State, name: string, data: string, now: int)
    requires FilesAgree(st) && Register(st, name).1 && !st.full
    ensures Uploaded(st, name, data, now)
         == st.(entries := st.entries[name := Complete(Info(|data|, now))],
                files := st.files[name := data], dirty := true)
  {
    assert "" + data == data;
    assert st.files[name := ""][name := data] == st.files[name := data];
    assert st.entries[name := Pending][name := Complete(Info(|data|, now))]
        == st.entries[name := Complete(Info(|data|, now))];
  }

  lemma DeletedAgain(st: State, name: string, entry: Entry, data: string)
    requires name !in st.entries && name !in st.files && Position(st.lru, name) == -1
    requires entry.Complete? && !NamesDirectory(name)
    ensures var t := st.(entries := st.entries[name := entry], files := st.files[name := data], dirty := true);
            Delete(t, name) == (st.(dirty := true), true)
  {
    assert st.entries[name := entry] - {name} == st.entries && st.files[name := data] - {name} == st.files;
  }

  /** Deleting a file undoes its upload, but for the flag that there is something to save. */
  lemma DeleteUndoesUpload(st: State, limits: Limits, name: string, data: string, now: int)
    requires Agrees(st, limits) && Register(st, name).1 && !st.full
    ensures var t := Uploaded(st, name, data, now);
            && IsValidFile(t, name) && name in t.files && t.files[name] == data
            && Delete(t, name) == (st.(dirty := true), true)
  {
    UploadedIs(st, name, data, now);
    assert name !in st.entries.Keys && name !in st.files.Keys;
    assert Position(st.lru, name) == -1;
    DeletedAgain(st, name, Complete(Info(|data|, now)), data);
  }

  /** Completing records size and time for a pending file, marks the registry dirty, and is refused for
      every other name. */
  lemma InsertCompletes(st: State, name: string, size: int, now: int)
    ensures var (t, ok) := Insert(st, name, size, now);
            && (ok <==> IsPending(st, name))
            && (ok ==> IsValidFile(t, name) && t.entries[name].info == Info(size, now) && t.dirty
                       && t.files == st.files && SameElsewhere(st, t, name))
            && (!ok ==> t == st)
            && t.lru == st.lru && t.full == st.full
  {
  }

  ghost predicate LegalRun(st: State, limits: Limits, ops: seq<Op>)
    decreases |ops|
  {
    ops == [] || (Legal(st, ops[0]) && LegalRun(Apply(st, limits, ops[0]), limits, ops[1..]))
  }

  function Run(st: State, limits: Limits, ops: seq<Op>): State
    decreases |ops|
  {
    if ops == [] then st else Run(Apply(st, limits, ops[0]), limits, ops[1..])
  }

  lemma {:induction false} RunKeepsAgreement(st: State, limits: Limits, ops: seq<Op>)
    requires Agrees(st, limits) && LegalRun(st, limits, ops)
    ensures Agrees(Run(st, limits, ops), limits)
    decreases |ops|
  {
    if ops != [] {
      ApplyKeepsAgreement(st, limits, ops[0]);
      RunKeepsAgreement(Apply(st, limits, ops[0]), limits, ops[1..]);
    }
  }

  /** Whether storing `content` for a file leaves the cache truthful: it caches nothing new,
      or what it caches is a prefix of the file. */
  predicate StoresTruth(st: State, limits: Limits, name: string, content: string) {
    || !IsValidFile(st, name)
    || Position(st.lru, name) != -1
    || limits.capacity == 0
    || (name in st.files && Shorten(content, limits.contentSize) <= st.files[name])
  }

  /** A legal call leaves an uploaded file alone, unless it deletes it. */
  lemma CallKeepsCompleteFile(st: State, limits: Limits, op: Op, f: string)
    requires FilesAgree(st) && Legal(st, op) && IsValidFile(st, f) && f in st.files
    requires op != Deleting(f)
    ensures f in Apply(st, limits, op).files && Apply(st, limits, op).files[f] == st.files[f]
  {
  }

  lemma DeletedFromList(st: State, name: string, c: Cached)
    requires DistinctNames(st.lru) && c in Delete(st, name).0.lru
    ensures c in st.lru && (IsValidFile(st, name) ==> c.name != name)
  {
    WithoutDrops(st.lru, name);
  }

  lemma MovedInList(lru: seq<Cached>, i: nat, c: Cached)
    requires DistinctNames(lru) && i < |lru| && c in ToFront(lru, i)
    ensures c in lru
  {
    ToFrontKeeps(lru, i);
  }

  lemma GottenFromList(st: State, name: string, c: Cached)
    requires DistinctNames(st.lru) && c in GetFilePreContent(st, name).0.lru
    ensures c in st.lru
  {
    var i := Position(st.lru, name);
    if IsValidFile(st, name) && i != -1 {
      MovedInList(st.lru, i, c);
    }
  }

  lemma PutAgainInList(st: State, limits: Limits, name: string, content: string, c: Cached)
    requires DistinctNames(st.lru) && c in PutFilePreContent(st, limits, name, content).0.lru
    requires IsValidFile(st, name) ==> Position(st.lru, name) != -1
    ensures c in st.lru
  {
    if IsValidFile(st, name) {
      MovedInList(st.lru, Position(st.lru, name), c);
    }
  }

  /** A call other than a push adds nothing to the list, and a deletion takes its file out. */
  lemma QuietList(st: State, limits: Limits, op: Op, c: Cached)
    requires DistinctNames(st.lru) && c in Apply(st, limits, op).lru
    requires op.Putting? && IsValidFile(st, op.name) ==> Position(st.lru, op.name) != -1
    ensures c in st.lru && (op.Deleting? && IsValidFile(st, op.name) ==> c.name != op.name)
  {
    match op
    case Deleting(f) => DeletedFromList(st, f, c);
    case Getting(f) => GottenFromList(st, f, c);
    case Putting(f, content) => PutAgainInList(st, limits, f, content, c);
    case Registering(f) =>
    case Deregistering(f) =>
    case Appending(f, data) =>
    case Inserting(f, size, now) =>
  }

  lemma QuietKeepsCacheSound(st: State, limits: Limits, op: Op)
    requires Agrees(st, limits) && Legal(st, op) && CacheSound(st)
    requires op.Putting? && IsValidFile(st, op.name) ==> Position(st.lru, op.name) != -1
    ensures CacheSound(Apply(st, limits, op))
  {
    var st' := Apply(st, limits, op);
    forall c | c in st'.lru
      ensures CachedSoundly(st', c)
    {
      QuietList(st, limits, op, c);
      assert CachedSoundly(st, c) && IsValidFile(st, c.name);
      CallKeepsCompleteFile(st, limits, op, c.name);
    }
  }

  /** Pushing adds one cached value, unless nothing can be cached. */
  lemma PushIsSoundIff(st: State, limits: Limits, name: string, content: string)
    requires ListAgrees(st, limits) && CacheSound(st) && IsValidFile(st, name) && Position(st.lru, name) == -1
    ensures CacheSound(PutFilePreContent(st, limits, name, content).0)
       <==> limits.capacity == 0 || CachedSoundly(st, Cached(name, Shorten(content, limits.contentSize)))
  {
    var st' := PutFilePreContent(st, limits, name, content).0;
    var c := Cached(name, Shorten(content, limits.contentSize));
    PushKeeps(st.lru, c, limits.capacity);
    if limits.capacity > 0 {
      assert st'.lru[0] == c && c in st'.lru;
    }
    assert forall d :: CachedSoundly(st', d) <==> CachedSoundly(st, d);
  }

  /** The one operation that can make the cache lie is a `Put`, and exactly when it stores
      bytes that do not start the file. */
  lemma CacheSoundIff(st: State, limits: Limits, op: Op)
    requires Agrees(st, limits) && Legal(st, op) && CacheSound(st)
    ensures CacheSound(Apply(st, limits, op)) <==> (op.Putting? ==> StoresTruth(st, limits, op.name, op.content))
  {
    if op.Putting? && IsValidFile(st, op.name) && Position(st.lru, op.name) == -1 {
      PushIsSoundIff(st, limits, op.name, op.content);
    } else {
      QuietKeepsCacheSound(st, limits, op);
    }
  }

  // ---- Least recently used ----

  /** Whether a call uses a cached file: it finds it in the list or puts it there. */
  predicate Uses(st: State, limits: Limits, op: Op) {
    (op.Getting? || op.Putting?) && IsValidFile(st, op.name)
    && (Position(st.lru, op.name) != -1 || (op.Putting? && limits.capacity > 0))
  }

  function LastUse(used: map<string, nat>, c: Cached): int {
    if c.name in used then used[c.name] else -1
  }

  /** The list is in the order of last use, latest first; `used` maps each name to the moment. */
  ghost predicate InOrderOfUse(lru: seq<Cached>, used: map<string, nat>, now: nat) {
    && (forall i {:trigger LastUse(used, lru[i])} :: 0 <= i < |lru| ==> 0 <= LastUse(used, lru[i]) < now)
    && (forall i, j {:trigger LastUse(used, lru[i]), LastUse(used, lru[j])} :: 0 <= i < j < |lru| ==>
          LastUse(used, lru[i]) > LastUse(used, lru[j]))
  }

  function Noted(st: State, limits: Limits, op: Op, used: map<string, nat>, now: nat): map<string, nat> {
    if Uses(st, limits, op) then used[op.name := now] else used
  }

  lemma UnusedMoment(lru: seq<Cached>, used: map<string, nat>, k: nat, i: nat, now: nat)
    requires DistinctNames(lru) && i < |lru| && k < |lru| && k != i
    ensures LastUse(used[lru[i].name := now], lru[k]) == LastUse(used, lru[k])
  {
  }

  lemma FrontInOrder(lru: seq<Cached>, i: nat, used: map<string, nat>, now: nat)
    requires DistinctNames(lru) && InOrderOfUse(lru, used, now) && i < |lru|
    ensures InOrderOfUse(ToFront(lru, i), used[lru[i].name := now], now + 1)
  {
    var r, after := ToFront(lru, i), used[lru[i].name := now];
    var at := k => if k <= i then k - 1 else k;
    forall k | 1 <= k < |r|
      ensures r[k] == lru[at(k)] && LastUse(after, r[k]) == LastUse(used, lru[at(k)])
    {
      UnusedMoment(lru, used, at(k), i, now);
    }
    assert LastUse(after, r[0]) == now;
  }

  lemma NewMoment(lru: seq<Cached>, used: map<string, nat>, name: string, k: nat, now: nat)
    requires Position(lru, name) == -1 && k < |lru|
    ensures LastUse(used[name := now], lru[k]) == LastUse(used, lru[k])
  {
  }

  lemma PushInOrder(lru: seq<Cached>, c: Cached, capacity: nat, used: map<string, nat>, now: nat)
    requires InOrderOfUse(lru, used, now) && Position(lru, c.name) == -1
    ensures InOrderOfUse(Trimmed([c] + lru, capacity), used[c.name := now], now + 1)
  {
    var r, after := [c] + lru, used[c.name := now];
    forall k | 1 <= k < |r|
      ensures r[k] == lru[k - 1] && LastUse(after, r[k]) == LastUse(used, lru[k - 1])
    {
      NewMoment(lru, used, c.name, k - 1, now);
    }
    assert LastUse(after, r[0]) == now;
    assert InOrderOfUse(r, after, now + 1);
  }

  lemma WithoutInOrder(lru: seq<Cached>, name: string, used: map<string, nat>, now: nat)
    requires InOrderOfUse(lru, used, now)
    ensures InOrderOfUse(Without(lru, name), used, now + 1)
  {
    var i, r := Position(lru, name), Without(lru, name);
    if i != -1 {
      assert forall k :: 0 <= k < |r| ==> r[k] == lru[if k < i then k else k + 1];
    }
  }

  lemma GetKeepsOrder(st: State, name: string, used: map<string, nat>, now: nat)
    requires DistinctNames(st.lru) && InOrderOfUse(st.lru, used, now)
    requires IsValidFile(st, name) && Position(st.lru, name) != -1
    ensures InOrderOfUse(GetFilePreContent(st, name).0.lru, used[name := now], now + 1)
  {
    FrontInOrder(st.lru, Position(st.lru, name), used, now);
  }

  lemma PutKeepsOrder(st: State, limits: Limits, name: string, content: string, used: map<string, nat>, now: nat)
    requires DistinctNames(st.lru) && InOrderOfUse(st.lru, used, now) && IsValidFile(st, name)
    ensures InOrderOfUse(PutFilePreContent(st, limits, name, content).0.lru, used[name := now], now + 1)
  {
    if Position(st.lru, name) != -1 {
      FrontInOrder(st.lru, Position(st.lru, name), used, now);
    } else {
      PushInOrder(st.lru, Cached(name, Shorten(content, limits.contentSize)), limits.capacity, used, now);
    }
  }

  lemma Later(lru: seq<Cached>, used: map<string, nat>, now: nat)
    requires InOrderOfUse(lru, used, now)
    ensures InOrderOfUse(lru, used, now + 1)
  {
  }

  /** Each call leaves the list in order of last use, so what a push drops from its end is the
      file that has gone longest without being used. */
  lemma ApplyKeepsOrderOfUse(st: State, limits: Limits, op: Op, used: map<string, nat>, now: nat)
    requires ListAgrees(st, limits) && InOrderOfUse(st.lru, used, now)
    ensures InOrderOfUse(Apply(st, limits, op).lru, Noted(st, limits, op, used, now), now + 1)
  {
    if op.Deleting? {
      WithoutInOrder(st.lru, op.name, used, now);
      Later(st.lru, used, now);
    } else if Uses(st, limits, op) {
      if op.Getting? {
        GetKeepsOrder(st, op.name, used, now);
      } else {
        PutKeepsOrder(st, limits, op.name, op.content, used, now);
      }
    } else {
      assert Apply(st, limits, op).lru == st.lru || limits.capacity == 0;
      Later(st.lru, used, now);
    }
  }

  /** The moments of last use after a run. */
  function UsedAfter(st: State, limits: Limits, ops: seq<Op>, used: map<string, nat>, now: nat): map<string, nat>
    decreases |ops|
  {
    if ops == [] then used
    else UsedAfter(Apply(st, limits, ops[0]), limits, ops[1..], Noted(st, limits, ops[0], used, now), now + 1)
  }

  lemma {:induction false} RunKeepsOrderOfUse(st: State, limits: Limits, ops: seq<Op>, used: map<string, nat>, now: nat)
    requires Agrees(st, limits) && LegalRun(st, limits, ops) && InOrderOfUse(st.lru, used, now)
    ensures InOrderOfUse(Run(st, limits, ops).lru, UsedAfter(st, limits, ops, used, now), now + |ops|)
    decreases |ops|
  {
    if ops != [] {
      ApplyKeepsOrderOfUse(st, limits, ops[0], used, now);
      ApplyKeepsAgreement(st, limits, ops[0]);
      RunKeepsOrderOfUse(Apply(st, limits, ops[0]), limits, ops[1..], Noted(st, limits, ops[0], used, now), now + 1);
    }
  }
}
