/** What the data manager and the backup directory hold, as values, and what each
    data-manager operation does to them. Every operation runs under the manager's
    locks, so each is one step here. The class in DataManager.dfy refines this. */
module Registry {

  /** `_size` and `_time` of an uploaded file. */
  datatype Info = Info(size: int, time: int)

  /** A registered name: still being uploaded (a null node), or uploaded. */
  datatype Entry = Pending | Complete(info: Info)

  /** A node of the LRU list: the file it belongs to and the cached start of that file. */
  datatype Cached = Cached(name: string, content: string)

  /** `files` is the backup directory, `lru` the guard ring read from its head
      (most recently used first), and `full` says that the disk takes no more data. */
  datatype State = State(
    entries: map<string, Entry>,
    files: map<string, string>,
    lru: seq<Cached>,
    dirty: bool,
    full: bool)

  type Positive = n: nat | n > 0 witness 1

  datatype Limits = Limits(capacity: nat, contentSize: nat)

  predicate CheckFilename(name: string) {
    name != "" && '/' !in name && '"' !in name
  }

  predicate NamesDirectory(name: string) {
    name == "." || name == ".."
  }

  /** "." and ".." exist as directories, which cannot be truncated or removed as files. */
  predicate Storable(name: string) {
    CheckFilename(name) && !NamesDirectory(name)
  }

  predicate IsValidFile(st: State, name: string) {
    name in st.entries && st.entries[name].Complete?
  }

  predicate IsPending(st: State, name: string) {
    name in st.entries && st.entries[name].Pending?
  }

  // ---- The operations ----

  function Register(st: State, name: string): (State, bool) {
    if name in st.entries || !Storable(name) then (st, false)
    else (st.(entries := st.entries[name := Pending], files := st.files[name := ""]), true)
  }

  function Deregister(st: State, name: string): State {
    st.(entries := st.entries - {name}, files := st.files - {name})
  }

  function Insert(st: State, name: string, size: int, now: int): (State, bool) {
    if !IsPending(st, name) then (st, false)
    else (st.(entries := st.entries[name := Complete(Info(size, now))], dirty := true), true)
  }

  function Delete(st: State, name: string): (State, bool) {
    if !IsValidFile(st, name) then (st, false)
    else (st.(entries := st.entries - {name}, files := st.files - {name},
              lru := Without(st.lru, name), dirty := true), !NamesDirectory(name))
  }

  function GetFilePreContent(st: State, name: string): (r: (State, string))
    ensures r.0 == st.(lru := r.0.lru)
  {
    var i := Position(st.lru, name);
    if !IsValidFile(st, name) || i == -1 then (st, "")
    else (st.(lru := ToFront(st.lru, i)), st.lru[i].content)
  }

  function PutFilePreContent(st: State, limits: Limits, name: string, content: string): (r: (State, bool))
    ensures r.0 == st.(lru := r.0.lru) && r.1 == IsValidFile(st, name)
  {
    var i := Position(st.lru, name);
    if !IsValidFile(st, name) then (st, false)
    else if i != -1 then (st.(lru := ToFront(st.lru, i)), true)
    else (st.(lru := Trimmed([Cached(name, Shorten(content, limits.contentSize))] + st.lru, limits.capacity)), true)
  }

  /** The length from which `std::ofstream` hands data to the disk at once. Shorter data waits in the
      stream's buffer until the file is closed, and what becomes of it there is not looked at. */
  const DIRECT: Positive

  predicate AppendFails(full: bool, data: string) {
    full && |data| >= DIRECT
  }

  /** A full disk takes nothing, whether this is reported or not. */
  function Taken(full: bool, data: string): string {
    if full then "" else data
  }

  function Appended(files: map<string, string>, full: bool, name: string, data: string): map<string, string> {
    files[name := (if name in files then files[name] else "") + Taken(full, data)]
  }

  /** `FileUtil::AppendContent` on a file of the backup directory. */
  function Append(st: State, name: string, data: string): (State, bool) {
    (st.(files := Appended(st.files, st.full, name, data)), !AppendFails(st.full, data))
  }

  /** One call on the manager, or one append to a file by the upload code. */
  datatype Op =
    | Registering(name: string)
    | Deregistering(name: string)
    | Appending(name: string, data: string)
    | Inserting(name: string, size: int, now: int)
    | Deleting(name: string)
    | Getting(name: string)
    | Putting(name: string, content: string)

  function Apply(st: State, limits: Limits, op: Op): State {
    match op
    case Registering(f) => Register(st, f).0
    case Deregistering(f) => Deregister(st, f)
    case Appending(f, data) => Append(st, f, data).0
    case Inserting(f, size, now) => Insert(st, f, size, now).0
    case Deleting(f) => Delete(st, f).0
    case Getting(f) => GetFilePreContent(st, f).0
    case Putting(f, content) => PutFilePreContent(st, limits, f, content).0
  }

  /** What the upload code keeps to: it appends to, completes and gives up only pending files,
      and completes a file with the size it has. */
  predicate Legal(st: State, op: Op) {
    match op
    case Deregistering(f) => !IsValidFile(st, f)
    case Appending(f, data) => IsPending(st, f)
    case Inserting(f, size, now) => IsPending(st, f) && f in st.files ==> size == |st.files[f]|
    case _ => true
  }

  // ---- The MRU-first sequence ----

  function Position(lru: seq<Cached>, name: string): (i: int)
    ensures i == -1 || (0 <= i < |lru| && lru[i].name == name)
    ensures forall k :: 0 <= k < |lru| && (i == -1 || k < i) ==> lru[k].name != name
  {
    if lru == [] then -1
    else if lru[0].name == name then 0
    else
      var i := Position(lru[1..], name);
      if i == -1 then -1 else i + 1
  }

  function RemoveAt<T>(s: seq<T>, i: nat): seq<T>
    requires i < |s|
  {
    s[..i] + s[i + 1..]
  }

  function ToFront<T>(s: seq<T>, i: nat): seq<T>
    requires i < |s|
  {
    [s[i]] + RemoveAt(s, i)
  }

  function Without(lru: seq<Cached>, name: string): seq<Cached> {
    var i := Position(lru, name);
    if i == -1 then lru else RemoveAt(lru, i)
  }

  function Trimmed<T>(s: seq<T>, capacity: nat): seq<T> {
    if |s| > capacity then s[..|s| - 1] else s
  }

  function Shorten(content: string, limit: nat): string {
    if |content| > limit then content[..limit] else content
  }

  // ---- What every reachable state satisfies ----

  ghost predicate DistinctNames(lru: seq<Cached>) {
    forall i, j :: 0 <= i < j < |lru| ==> lru[i].name != lru[j].name
  }

  /** The registry and the directory hold the same names, and recorded sizes are the real ones. */
  ghost predicate FilesAgree(st: State) {
    && st.entries.Keys == st.files.Keys
    && (forall f :: f in st.entries ==> Storable(f))
    && (forall f :: IsValidFile(st, f) ==> st.entries[f].info.size == |st.files[f]|)
  }

  /** The list holds uploaded files only, each once, within both limits. */
  ghost predicate ListAgrees(st: State, limits: Limits) {
    && DistinctNames(st.lru)
    && |st.lru| <= limits.capacity
    && (forall c :: c in st.lru ==> IsValidFile(st, c.name) && |c.content| <= limits.contentSize)
  }

  ghost predicate Agrees(st: State, limits: Limits) {
    FilesAgree(st) && ListAgrees(st, limits)
  }

  ghost predicate CachedSoundly(st: State, c: Cached) {
    c.name in st.files && c.content <= st.files[c.name]
  }

  /** Every cached value is a prefix of the file it belongs to. */
  ghost predicate CacheSound(st: State) {
    forall c :: c in st.lru ==> CachedSoundly(st, c)
  }
}
