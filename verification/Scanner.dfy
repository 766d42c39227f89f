/** The streaming multipart parser: `process_upload_body` and `on_body`. */
module Scanner {
  import opened Search
  import opened Registry

  const SEP := "\r\n"
  const HEAD_END := "\r\n\r\n"
  const FILENAME_KEY := "filename=\""

  /** `_body_boundary`, which is "--" and the boundary parameter, and the reading of the clock. */
  datatype Config = Config(boundary: string, now: int) {
    function Delimiter(): string {
      SEP + boundary
    }
  }

  /** The per-message upload fields together with the registry they act on.
      `open` is `_cur_upload_file`, where "" means that no file is open. */
  datatype Scan = Scan(
    body: string,
    open: string,
    successes: seq<string>,
    failures: seq<string>,
    store: State)

  /** What a part's header block says. `after` is where the part's content starts. */
  datatype Head = Incomplete | Malformed | Named(name: string, after: nat)

  /** Reads the header block at the start of `buf`, where a boundary was found. */
  function ReadHead(buf: string): (h: Head)
    ensures h.Named? ==> |HEAD_END| <= h.after <= |buf|
  {
    var headEnd := Find(buf, HEAD_END);
    if headEnd == -1 then Incomplete else
    var key := Find(buf, FILENAME_KEY);
    if key == -1 || key > headEnd then Malformed else NameAt(buf, headEnd, key + |FILENAME_KEY|)
  }

  function NameAt(buf: string, headEnd: nat, start: nat): (h: Head)
    requires headEnd + |HEAD_END| <= |buf|
    ensures h.Named? ==> h.after == headEnd + |HEAD_END|
  {
    var end := FindFrom(buf, "\"", start);
    if end == -1 || end > headEnd then Malformed else Named(buf[start..end], headEnd + |HEAD_END|)
  }

  /** Leaves the loop's condition to the caller: `More` goes round again, `Stop` breaks out,
      `Reject` returns false. */
  datatype Verdict = More(s: Scan) | Stop(s: Scan) | Reject(s: Scan)

  /** Takes up the name of a part whose header block has been consumed. */
  function OpenFile(s: Scan, name: string, rest: string): Scan {
    var (store, registered) := Register(s.store, name);
    if CheckFilename(name) && registered then s.(body := rest, open := name, store := store)
    else s.(body := rest, failures := s.failures + [name])
  }

  function CloseFile(c: Config, s: Scan): Scan {
    var size := if s.open in s.store.files then |s.store.files[s.open]| else -1;
    s.(open := "", successes := s.successes + [s.open], store := Insert(s.store, s.open, size, c.now).0)
  }

  function AbandonFile(s: Scan): Scan {
    s.(open := "", failures := s.failures + [s.open], store := Deregister(s.store, s.open))
  }

  /** No file is open: look for a boundary, keeping only bytes that could start one. */
  function SkipIteration(c: Config, s: Scan): Verdict
    requires s.open == "" && |s.body| > |c.Delimiter()|
  {
    var pos := Find(s.body, c.boundary);
    if pos == -1 then More(s.(body := s.body[|s.body| - |c.boundary|..])) else
    var buf := s.body[pos..];
    match ReadHead(buf)
    case Incomplete => Stop(s.(body := buf))
    case Malformed => Reject(s.(body := buf))
    case Named(name, after) => More(OpenFile(s, name, buf[after..]))
  }

  /** A file is open: write out everything that cannot belong to the next delimiter. */
  function FileIteration(c: Config, s: Scan): Verdict
    requires s.open != "" && |s.body| > |c.Delimiter()|
  {
    var pos := Find(s.body, c.Delimiter());
    var n := if pos == -1 then |s.body| - |c.Delimiter()| else pos;
    var t := s.(body := s.body[n..]);
    var (store, appended) := if n == 0 then (s.store, true) else Append(s.store, s.open, s.body[..n]);
    if !appended then More(AbandonFile(t.(store := store)))
    else if pos == -1 then More(t.(store := store))
    else More(CloseFile(c, t.(store := store)))
  }

  function Iteration(c: Config, s: Scan): Verdict
    requires |s.body| > |c.Delimiter()|
  {
    if s.open == "" then SkipIteration(c, s) else FileIteration(c, s)
  }

  /** A turn after which the loop goes on takes something off the buffer, or closes the file. */
  lemma IterationShrinks(c: Config, s: Scan)
    requires |s.body| > |c.Delimiter()| && Iteration(c, s).More?
    ensures var t := Iteration(c, s).s;
            |t.body| < |s.body| || (|t.body| == |s.body| && s.open != "" && t.open == "")
  {
  }

  /** The whole loop. A delimiter at the very start of the buffer closes the file and leaves the
      buffer as it is, so the measure is lexicographic. */
  function ProcessUploadBody(c: Config, s: Scan): (Scan, bool)
    decreases |s.body|, if s.open != "" then 1 else 0
  {
    if |s.body| <= |c.Delimiter()| then (s, true) else
    match Iteration(c, s)
    case More(t) => ProcessUploadBody(c, t)
    case Stop(t) => (t, true)
    case Reject(t) => (t, false)
  }

  /** A message under way. `rejected` stands for a response status that is already set. */
  datatype Message = Message(scan: Scan, rejected: bool)

  function OnBody(c: Config, m: Message, chunk: string): Message {
    if m.rejected then m else
    var (t, ok) := ProcessUploadBody(c, m.scan.(body := m.scan.body + chunk));
    Message(t, !ok)
  }

  function OnBodyAll(c: Config, m: Message, chunks: seq<string>): Message
    decreases |chunks|
  {
    if chunks == [] then m else OnBodyAll(c, OnBody(c, m, chunks[0]), chunks[1..])
  }
}
