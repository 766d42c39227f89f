/** What an upload does depends on the bytes of the body, not on how the network cut them.

    The scanner keeps a few bytes more or fewer between calls depending on the cuts. `Settled`
    removes that difference, `Parse` is the scanner on settled states without any buffer-size
    test, and feeding `Parse` in pieces is the same as feeding it at once. */
module SettledScanner {
  import opened Search
  import opened Registry
  import opened Scanner
  import opened Wrappers

  /** "--" is put before a boundary, which comes out of a header value, so it has no CR or LF. */
  predicate Plain(c: Config) {
    && |c.boundary| >= 2 && c.boundary[0] == c.boundary[1] == '-'
    && '\r' !in c.boundary && '\n' !in c.boundary
  }

  /** What skipping needs of the buffer: from the first boundary on, or the last bytes. */
  function Retained(c: Config, body: string): string {
    var pos := Find(body, c.boundary);
    if pos != -1 then body[pos..]
    else if |body| > |c.boundary| then body[|body| - |c.boundary|..]
    else body
  }

  function HeadIn(c: Config, buf: string): Head {
    if Find(buf, c.boundary) == 0 then ReadHead(buf) else Incomplete
  }

  function Extend(s: Scan, y: string): Scan {
    s.(body := s.body + y)
  }

  /** The scanner without its buffer-size tests in skip mode. The buffer of a rejected message
      is never read again, and is dropped. */
  function Parse(c: Config, s: Scan): (r: (Scan, bool))
    requires !s.store.full
    ensures !r.0.store.full
    decreases |s.body|, if s.open != "" then 1 else 0
  {
    if s.open == "" then
      var buf := Retained(c, s.body);
      match HeadIn(c, buf)
      case Incomplete => (s.(body := buf), true)
      case Malformed => (s.(body := ""), false)
      case Named(name, after) => Parse(c, OpenFile(s, name, buf[after..]))
    else if |s.body| <= |c.Delimiter()| then (s, true)
    else
      var t := FileIteration(c, s).s;
      if t.open != "" then (t, true) else Parse(c, t)
  }

  function Settled(c: Config, s: Scan, ok: bool): Scan {
    if !ok then s.(body := "")
    else if s.open == "" then s.(body := Retained(c, s.body))
    else s
  }

  // ---- Facts about the retained bytes and about header blocks ----

  lemma RetainedSettles(c: Config, body: string)
    ensures Retained(c, Retained(c, body)) == Retained(c, body)
    ensures Find(body, c.boundary) != -1 ==> Find(Retained(c, body), c.boundary) == 0
    ensures Find(body, c.boundary) == -1 ==> Find(Retained(c, body), c.boundary) == -1
  {
    var pos := Find(body, c.boundary);
    FindIsFirst(body, c.boundary, 0);
    if pos != -1 {
      FindDrop(body, pos, c.boundary);
    } else if |body| > |c.boundary| {
      FindDrop(body, |body| - |c.boundary|, c.boundary);
    }
  }

  lemma FoundIsRetained(c: Config, body: string, y: string)
    requires Find(body, c.boundary) != -1
    ensures Retained(c, body + y) == Retained(c, body) + y
  {
    var pos := Find(body, c.boundary);
    FindExtend(body, y, c.boundary, 0);
    assert (body + y)[pos..] == body[pos..] + y;
  }

  /** Bytes at which no boundary begins are forgotten. */
  lemma RetainedDrops(c: Config, body: string, k: nat)
    requires k <= |body| && NoneBefore(body, c.boundary, 0, k) && k + |c.boundary| <= |body|
    ensures Retained(c, body[k..]) == Retained(c, body)
  {
    FindDrop(body, k, c.boundary);
    var pos := Find(body, c.boundary);
    if pos != -1 {
      assert body[k..][pos - k..] == body[pos..];
    } else if |body| - k > |c.boundary| {
      assert body[k..][|body| - k - |c.boundary|..] == body[|body| - |c.boundary|..];
    }
  }

  lemma NoneInDropped(c: Config, body: string, y: string)
    requires Find(body, c.boundary) == -1 && |body| > |c.boundary|
    ensures NoneBefore(body + y, c.boundary, 0, |body| - |c.boundary|)
  {
    FindIsFirst(body, c.boundary, 0);
    forall i | 0 <= i < |body| - |c.boundary|
      ensures !OccursAt(body + y, c.boundary, i)
    {
      OccursAtExtend(body, y, c.boundary, i);
    }
  }

  /** Bytes that were not retained can be forgotten: they take no part in what follows. */
  lemma RetainedExtends(c: Config, body: string, y: string)
    ensures Retained(c, Retained(c, body) + y) == Retained(c, body + y)
  {
    if Find(body, c.boundary) != -1 {
      RetainedSettles(c, body);
      FoundIsRetained(c, body, y);
      FoundIsRetained(c, Retained(c, body), y);
    } else if |body| > |c.boundary| {
      var k := |body| - |c.boundary|;
      assert (body + y)[k..] == body[k..] + y;
      NoneInDropped(c, body, y);
      RetainedDrops(c, body + y, k);
    }
  }

  /** A header block ends after the boundary it starts with, so it needs room in the buffer. */
  lemma HeadNeedsRoom(c: Config, buf: string)
    requires Plain(c) && HeadIn(c, buf) != Incomplete
    ensures |buf| > |c.Delimiter()|
  {
    var h := Find(buf, HEAD_END);
    assert OccursAt(buf, HEAD_END, h) && OccursAt(buf, c.boundary, 0);
    if h < |c.boundary| {
      OverlapSharesChar(buf, c.boundary, 0, HEAD_END, h);
    }
  }

  /** Within a header block, more bytes neither add nor move a match. */
  lemma FindInHeadExtends(buf: string, y: string, h: int, p: string, from: nat)
    requires OccursAt(buf, HEAD_END, h) && p != "" && '\r' !in p
    ensures var r := FindFrom(buf, p, from); var r' := FindFrom(buf + y, p, from);
            r == r' || (r == -1 && r' > h)
  {
    var all := buf + y;
    if FindFrom(buf, p, from) != -1 {
      FindExtend(buf, y, p, from);
    } else {
      var r' := FindFrom(all, p, from);
      FindIsFirst(buf, p, from);
      if r' != -1 && r' <= h {
        OccursAtExtend(buf, y, HEAD_END, h);
        if h < r' + |p| {
          OverlapSharesChar(all, p, r', HEAD_END, h);
        }
        OccursAtExtend(buf, y, p, r');
      }
    }
  }

  lemma NameAtExtends(buf: string, y: string, h: nat, start: nat)
    requires OccursAt(buf, HEAD_END, h)
    ensures NameAt(buf + y, h, start) == NameAt(buf, h, start)
  {
    FindInHeadExtends(buf, y, h, "\"", start);
    var end := FindFrom(buf, "\"", start);
    if end != -1 {
      assert (buf + y)[start..end] == buf[start..end];
    }
  }

  lemma KeyExtends(buf: string, y: string, h: nat)
    requires Find(buf, HEAD_END) == h
    ensures var key, key' := Find(buf, FILENAME_KEY), Find(buf + y, FILENAME_KEY);
            key == key' || (key == -1 && key' > h)
  {
    FindInHeadExtends(buf, y, h, FILENAME_KEY, 0);
  }

  /** More bytes do not change a header block that is complete. */
  lemma ReadHeadExtends(buf: string, y: string)
    requires ReadHead(buf) != Incomplete
    ensures ReadHead(buf + y) == ReadHead(buf)
  {
    var h := Find(buf, HEAD_END);
    FindExtend(buf, y, HEAD_END, 0);
    KeyExtends(buf, y, h);
    var key := Find(buf, FILENAME_KEY);
    if key != -1 && key <= h {
      NameAtExtends(buf, y, h, key + |FILENAME_KEY|);
    }
  }

  lemma HeadInExtends(c: Config, buf: string, y: string)
    requires HeadIn(c, buf) != Incomplete
    ensures HeadIn(c, buf + y) == HeadIn(c, buf)
  {
    FindExtend(buf, y, c.boundary, 0);
    ReadHeadExtends(buf, y);
  }

  /** `text` is a header block: it ends at its first blank line, and the first filename parameter in it,
      which starts behind `lead`, has the value `name`. */
  predicate HeaderBlock(text: string, lead: string, name: string, trail: string) {
    && text == lead + FILENAME_KEY + name + "\"" + trail + HEAD_END
    && '"' !in name
    && Find(text, HEAD_END) == |text| - |HEAD_END| && Find(text, FILENAME_KEY) == |lead|
  }

  lemma NameHasNoQuote(buf: string, start: nat, end: nat)
    requires FindFrom(buf, "\"", start) == end && start <= end
    ensures '"' !in buf[start..end]
  {
    FindIsFirst(buf, "\"", start);
    forall i | start <= i < end
      ensures buf[i] != '"'
    {
      assert !OccursAt(buf, "\"", i);
      assert buf[i..i + 1] == [buf[i]];
    }
  }

  /** The text up to a first match is searched in the same way. */
  lemma FoundInPrefix(buf: string, p: string, n: nat)
    requires Find(buf, p) != -1 && Find(buf, p) + |p| <= n <= |buf|
    ensures Find(buf[..n], p) == Find(buf, p)
  {
    var r := Find(buf, p);
    assert buf == buf[..n] + buf[n..];
    FindIsFirst(buf, p, 0);
    forall i | 0 <= i <= r
      ensures OccursAt(buf[..n], p, i) <==> OccursAt(buf, p, i)
    {
      OccursAtExtend(buf[..n], buf[n..], p, i);
    }
    FirstIsFound(buf[..n], p, 0, r);
  }

  lemma CutUp(buf: string, key: nat, start: nat, end: nat, h: nat, after: nat)
    requires key <= start <= end < h <= after <= |buf|
    ensures buf[..after]
         == buf[..key] + buf[key..start] + buf[start..end] + buf[end..end + 1] + buf[end + 1..h] + buf[h..after]
  {
    assert buf[..start] == buf[..key] + buf[key..start];
    assert buf[..end] == buf[..start] + buf[start..end];
    assert buf[..end + 1] == buf[..end] + buf[end..end + 1];
    assert buf[..h] == buf[..end + 1] + buf[end + 1..h];
    assert buf[..after] == buf[..h] + buf[h..after];
  }

  /** The order of the places where the searches for a header block land. */
  lemma HeadOrder(buf: string, key: nat, end: nat, h: nat)
    requires OccursAt(buf, HEAD_END, h) && OccursAt(buf, FILENAME_KEY, key) && OccursAt(buf, "\"", end)
    requires key <= h && key + |FILENAME_KEY| <= end <= h
    ensures end < h
  {
    CharUnder(buf, HEAD_END, h, h);
    CharUnder(buf, "\"", end, end);
  }

  /** Where the searches for a header block land. */
  lemma HeadLandmarks(buf: string, name: string, after: nat) returns (key: nat, start: nat, end: nat, h: nat)
    requires ReadHead(buf) == Named(name, after)
    ensures key <= start <= end < h <= after <= |buf|
    ensures Find(buf, HEAD_END) == h && after == h + |HEAD_END|
    ensures Find(buf, FILENAME_KEY) == key && start == key + |FILENAME_KEY|
    ensures buf[key..start] == FILENAME_KEY && buf[start..end] == name
    ensures buf[end..end + 1] == "\"" && buf[h..after] == HEAD_END
    ensures '"' !in name
  {
    h, key := Find(buf, HEAD_END), Find(buf, FILENAME_KEY);
    start := key + |FILENAME_KEY|;
    end := FindFrom(buf, "\"", start);
    HeadOrder(buf, key, end, h);
    NameHasNoQuote(buf, start, end);
  }

  /** The pieces of a header block that is read. */
  lemma NamedMeans(buf: string, name: string, after: nat) returns (lead: string, trail: string)
    requires ReadHead(buf) == Named(name, after)
    ensures after <= |buf| && HeaderBlock(buf[..after], lead, name, trail)
  {
    var key, start, end, h := HeadLandmarks(buf, name, after);
    lead, trail := buf[..key], buf[end + 1..h];
    CutUp(buf, key, start, end, h, after);
    FoundInPrefix(buf, HEAD_END, after);
    FoundInPrefix(buf, FILENAME_KEY, after);
  }

  lemma BlockIsNamed(text: string, rest: string, lead: string, name: string, trail: string)
    requires HeaderBlock(text, lead, name, trail)
    ensures ReadHead(text + rest) == Named(name, |text|)
  {
    var start, end := |lead| + |FILENAME_KEY|, |lead| + |FILENAME_KEY| + |name|;
    var h := |text| - |HEAD_END|;
    assert text[start..end] == name && text[end] == '"';
    forall i | start <= i < end
      ensures !OccursAt(text, "\"", i)
    {
      assert text[i] == name[i - start] && text[i] in name;
      if OccursAt(text, "\"", i) { CharUnder(text, "\"", i, i); }
    }
    assert text[end..end + 1] == "\"";
    FirstIsFound(text, "\"", start, end);
    ReadHeadExtends(text, rest);
  }

  ghost predicate IsHeaderBlock(text: string, name: string) {
    exists lead, trail :: HeaderBlock(text, lead, name, trail)
  }

  lemma NamedIsBlock(buf: string, name: string, after: nat)
    requires ReadHead(buf) == Named(name, after)
    ensures after <= |buf| && IsHeaderBlock(buf[..after], name)
  {
    var lead, trail := NamedMeans(buf, name, after);
  }

  lemma BlockIsRead(buf: string, name: string, after: nat)
    requires after <= |buf| && IsHeaderBlock(buf[..after], name)
    ensures ReadHead(buf) == Named(name, after)
  {
    var lead, trail :| HeaderBlock(buf[..after], lead, name, trail);
    BlockIsNamed(buf[..after], buf[after..], lead, name, trail);
    assert buf[..after] + buf[after..] == buf;
  }

  /** What reading a header block means: nothing while no blank line has come; a name if the text up to
      and including the first blank line is a header block with that name; and else a refusal. */
  lemma ReadHeadIff(buf: string, name: string, after: nat)
    ensures ReadHead(buf) == Incomplete <==> !Occurs(buf, HEAD_END)
    ensures ReadHead(buf) == Named(name, after) <==> after <= |buf| && IsHeaderBlock(buf[..after], name)
  {
    if ReadHead(buf) == Named(name, after) {
      NamedIsBlock(buf, name, after);
    }
    if after <= |buf| && IsHeaderBlock(buf[..after], name) {
      BlockIsRead(buf, name, after);
    }
  }

  // ---- The scanner refines Parse ----

  /** The state in which `Parse` goes on after a complete header block or a closed file. */
  function Onward(c: Config, s: Scan): Scan
    requires !s.store.full && GoesOn(c, s)
  {
    if s.open == "" then
      var buf := Retained(c, s.body);
      OpenFile(s, HeadIn(c, buf).name, buf[HeadIn(c, buf).after..])
    else FileIteration(c, s).s
  }

  predicate GoesOn(c: Config, s: Scan) {
    if s.open == "" then HeadIn(c, Retained(c, s.body)).Named?
    else |s.body| > |c.Delimiter()| && Find(s.body, c.Delimiter()) != -1
  }

  lemma ParseGoesOn(c: Config, s: Scan)
    requires !s.store.full && GoesOn(c, s)
    ensures !Onward(c, s).store.full && Parse(c, s) == Parse(c, Onward(c, s))
    ensures var t := Onward(c, s);
            |t.body| < |s.body| || (|t.body| == |s.body| && s.open != "" && t.open == "")
  {
  }

  lemma ScannerGoesOn(c: Config, s: Scan)
    requires Plain(c) && !s.store.full && GoesOn(c, s)
    ensures ProcessUploadBody(c, s) == ProcessUploadBody(c, Onward(c, s))
  {
    if s.open == "" {
      var buf := Retained(c, s.body);
      RetainedSettles(c, s.body);
      HeadNeedsRoom(c, buf);
      assert SkipIteration(c, s) == More(Onward(c, s));
    }
  }

  lemma ScannerStops(c: Config, s: Scan)
    requires Plain(c) && !s.store.full && !GoesOn(c, s)
    ensures var (t, ok) := ProcessUploadBody(c, s); Parse(c, s) == (Settled(c, t, ok), ok)
  {
    if s.open == "" {
      SkipStops(c, s);
    } else if |s.body| > |c.Delimiter()| {
      var t := FileIteration(c, s).s;
      assert |t.body| == |c.Delimiter()|;
    }
  }

  /** Where the loop ends with no file open. */
  lemma SkipEnds(c: Config, s: Scan)
    requires Plain(c) && s.open == "" && !HeadIn(c, Retained(c, s.body)).Named?
    ensures var buf, head := Retained(c, s.body), HeadIn(c, Retained(c, s.body));
            ProcessUploadBody(c, s) ==
              if |s.body| <= |c.Delimiter()| then (s, true) else (s.(body := buf), head.Incomplete?)
  {
    RetainedSettles(c, s.body);
    if |s.body| > |c.Delimiter()| && Find(s.body, c.boundary) == -1 {
      assert SkipIteration(c, s) == More(s.(body := Retained(c, s.body)));
    }
  }

  lemma SkipStops(c: Config, s: Scan)
    requires Plain(c) && !s.store.full && s.open == "" && !GoesOn(c, s)
    ensures var (t, ok) := ProcessUploadBody(c, s); Parse(c, s) == (Settled(c, t, ok), ok)
  {
    SkipEnds(c, s);
    RetainedSettles(c, s.body);
    if |s.body| <= |c.Delimiter()| && HeadIn(c, Retained(c, s.body)) != Incomplete {
      HeadNeedsRoom(c, Retained(c, s.body));
    }
  }

  lemma {:induction false} ScannerIsParse(c: Config, s: Scan)
    requires Plain(c) && !s.store.full
    ensures var (t, ok) := ProcessUploadBody(c, s); Parse(c, s) == (Settled(c, t, ok), ok)
    decreases |s.body|, if s.open != "" then 1 else 0
  {
    if GoesOn(c, s) {
      ScannerGoesOn(c, s);
      ParseGoesOn(c, s);
      ScannerIsParse(c, Onward(c, s));
    } else {
      ScannerStops(c, s);
    }
  }

  // ---- Parse in pieces is Parse at once ----

  /** In skip mode only the retained bytes matter. */
  lemma ParseRetained(c: Config, s: Scan, y: string)
    requires !s.store.full && s.open == ""
    ensures Parse(c, s.(body := Retained(c, s.body) + y)) == Parse(c, Extend(s, y))
  {
    RetainedExtends(c, s.body, y);
  }

  /** How many leading bytes of the buffer belong to the open file for certain. */
  function Writable(c: Config, body: string): (n: nat)
    requires |body| > |c.Delimiter()|
    ensures n <= |body|
  {
    var pos := Find(body, c.Delimiter());
    if pos == -1 then |body| - |c.Delimiter()| else pos
  }

  /** The bytes held back are enough to recognise a delimiter that arrives in pieces. */
  lemma WritableExtends(c: Config, body: string, y: string)
    requires |body| > |c.Delimiter()| && y != ""
    requires Find(body, c.Delimiter()) == -1
    ensures var k := Writable(c, body);
            var n := Writable(c, body + y);
            && k < n && n == k + Writable(c, body[k..] + y)
            && (Find(body + y, c.Delimiter()) == -1 <==> Find(body[k..] + y, c.Delimiter()) == -1)
            && (body + y)[..n] == body[..k] + (body[k..] + y)[..n - k]
            && (body + y)[n..] == (body[k..] + y)[n - k..]
  {
    var d := c.Delimiter();
    var all := body + y;
    var k := Writable(c, body);
    assert all[k..] == body[k..] + y;
    FindIsFirst(body, d, 0);
    forall i | 0 <= i <= k
      ensures !OccursAt(all, d, i)
    {
      OccursAtExtend(body, y, d, i);
    }
    FindDrop(all, k, d);
  }

  function Written(s: Scan, n: nat): Scan
    requires n <= |s.body|
  {
    s.(body := s.body[n..], store := Append(s.store, s.open, s.body[..n]).0)
  }

  lemma IterationWrites(c: Config, s: Scan)
    requires !s.store.full && s.open != "" && |s.body| > |c.Delimiter()| && Writable(c, s.body) > 0
    ensures var t := Written(s, Writable(c, s.body));
            FileIteration(c, s) == More(if Find(s.body, c.Delimiter()) == -1 then t else CloseFile(c, t))
  {
  }

  lemma WrittenTwice(s: Scan, y: string, k: nat, n: nat)
    requires !s.store.full && k <= n && k <= |s.body| && n <= |s.body + y|
    requires n - k <= |s.body[k..] + y|
    requires (s.body + y)[..n] == s.body[..k] + (s.body[k..] + y)[..n - k]
    requires (s.body + y)[n..] == (s.body[k..] + y)[n - k..]
    ensures Written(Extend(s, y), n) == Written(Extend(Written(s, k), y), n - k)
  {
    var rest := (s.body[k..] + y)[..n - k];
    var before := if s.open in s.store.files then s.store.files[s.open] else "";
    assert (before + s.body[..k]) + rest == before + (s.body[..k] + rest);
  }

  /** What one turn does, after its write: it goes on, or closes the file. */
  function AfterWrite(c: Config, t: Scan, found: bool): Verdict {
    More(if found then CloseFile(c, t) else t)
  }

  lemma IterationIs(c: Config, s: Scan)
    requires !s.store.full && s.open != "" && |s.body| > |c.Delimiter()| && Writable(c, s.body) > 0
    ensures FileIteration(c, s) == AfterWrite(c, Written(s, Writable(c, s.body)), Find(s.body, c.Delimiter()) != -1)
  {
    IterationWrites(c, s);
  }

  lemma SameWrite(c: Config, s: Scan, y: string)
    requires !s.store.full && s.open != "" && y != ""
    requires |s.body| > |c.Delimiter()| && Find(s.body, c.Delimiter()) == -1
    ensures var u, t := Extend(s, y), Extend(Written(s, Writable(c, s.body)), y);
            && |t.body| > |c.Delimiter()| && Writable(c, u.body) > 0 && Writable(c, t.body) > 0
            && Written(u, Writable(c, u.body)) == Written(t, Writable(c, t.body))
            && (Find(u.body, c.Delimiter()) == -1 <==> Find(t.body, c.Delimiter()) == -1)
  {
    WritableExtends(c, s.body, y);
    WrittenTwice(s, y, Writable(c, s.body), Writable(c, s.body + y));
  }

  lemma FlushedThenExtended(c: Config, s: Scan, y: string)
    requires !s.store.full && s.open != "" && y != ""
    requires |s.body| > |c.Delimiter()| && Find(s.body, c.Delimiter()) == -1
    ensures FileIteration(c, Extend(s, y)) == FileIteration(c, Extend(Written(s, Writable(c, s.body)), y))
  {
    SameWrite(c, s, y);
    IterationIs(c, Extend(s, y));
    IterationIs(c, Extend(Written(s, Writable(c, s.body)), y));
  }

  lemma ParseFlushes(c: Config, s: Scan)
    requires !s.store.full && s.open != ""
    requires |s.body| > |c.Delimiter()| && Find(s.body, c.Delimiter()) == -1
    ensures Parse(c, s) == (Written(s, Writable(c, s.body)), true)
  {
    IterationWrites(c, s);
  }

  lemma SameIterationSameParse(c: Config, s: Scan, t: Scan)
    requires !s.store.full && !t.store.full && s.open != "" && t.open != ""
    requires |s.body| > |c.Delimiter()| && |t.body| > |c.Delimiter()|
    requires FileIteration(c, s) == FileIteration(c, t)
    ensures Parse(c, s) == Parse(c, t)
  {
  }

  lemma ExtendByNothing(s: Scan)
    ensures Extend(s, "") == s
  {
    assert s.body + "" == s.body;
  }

  /** Writing a file's bytes in two goes comes to the same as writing them in one. */
  lemma FlushExtends(c: Config, s: Scan, y: string)
    requires !s.store.full && s.open != ""
    requires |s.body| > |c.Delimiter()| && Find(s.body, c.Delimiter()) == -1
    ensures var t := Written(s, Writable(c, s.body));
            Parse(c, s) == (t, true) && Parse(c, Extend(s, y)) == Parse(c, Extend(t, y))
  {
    var t := Written(s, Writable(c, s.body));
    ParseFlushes(c, s);
    if y == "" {
      ExtendByNothing(s);
      ExtendByNothing(t);
      ParseNothing(c, t);
    } else {
      SameWrite(c, s, y);
      FlushedThenExtended(c, s, y);
      SameIterationSameParse(c, Extend(s, y), Extend(t, y));
    }
  }

  /** With no more in the buffer than is held back, nothing happens. */
  lemma ParseNothing(c: Config, s: Scan)
    requires !s.store.full && s.open != "" && |s.body| <= |c.Delimiter()|
    ensures Parse(c, s) == (s, true)
  {
  }

  /** A delimiter in the buffer closes the file whatever follows it. */
  lemma CloseExtends(c: Config, s: Scan, y: string)
    requires !s.store.full && s.open != ""
    requires |s.body| > |c.Delimiter()| && Find(s.body, c.Delimiter()) != -1
    ensures FileIteration(c, s).s.open == ""
    ensures FileIteration(c, Extend(s, y)) == More(Extend(FileIteration(c, s).s, y))
  {
    FindExtend(s.body, y, c.Delimiter(), 0);
    JoinCut(s.body, y, Find(s.body, c.Delimiter()));
  }

  /** The header that skipping has reached is still the header once more bytes have come. */
  lemma SkipExtends(c: Config, s: Scan, y: string)
    requires !s.store.full && s.open == ""
    requires HeadIn(c, Retained(c, s.body)) != Incomplete
    ensures var buf := Retained(c, s.body);
            Retained(c, s.body + y) == buf + y && HeadIn(c, buf + y) == HeadIn(c, buf)
  {
    var buf := Retained(c, s.body);
    HeadInExtends(c, buf, y);
    FindExtend(buf, y, c.boundary, 0);
    RetainedExtends(c, s.body, y);
  }

  lemma OpenExtends(s: Scan, name: string, rest: string, y: string)
    ensures OpenFile(Extend(s, y), name, rest + y) == Extend(OpenFile(s, name, rest), y)
  {
  }

  lemma SkipOnwardExtends(c: Config, s: Scan, y: string)
    requires !s.store.full && s.open == "" && GoesOn(c, s)
    ensures GoesOn(c, Extend(s, y)) && Onward(c, Extend(s, y)) == Extend(Onward(c, s), y)
  {
    var buf := Retained(c, s.body);
    var head := HeadIn(c, buf);
    SkipExtends(c, s, y);
    assert (buf + y)[head.after..] == buf[head.after..] + y;
    OpenExtends(s, head.name, buf[head.after..], y);
  }

  lemma OnwardExtends(c: Config, s: Scan, y: string)
    requires !s.store.full && GoesOn(c, s)
    ensures GoesOn(c, Extend(s, y)) && Onward(c, Extend(s, y)) == Extend(Onward(c, s), y)
  {
    if s.open == "" {
      SkipOnwardExtends(c, s, y);
    } else {
      FindExtend(s.body, y, c.Delimiter(), 0);
      CloseExtends(c, s, y);
    }
  }

  lemma LastExtends(c: Config, s: Scan, y: string)
    requires !s.store.full && !GoesOn(c, s)
    ensures var (t, ok) := Parse(c, s);
            Parse(c, Extend(s, y)) == if ok then Parse(c, Extend(t, y)) else (t, false)
  {
    if s.open == "" {
      if HeadIn(c, Retained(c, s.body)).Incomplete? {
        ParseRetained(c, s, y);
      } else {
        SkipExtends(c, s, y);
      }
    } else if |s.body| > |c.Delimiter()| {
      FlushExtends(c, s, y);
    }
  }

  lemma {:induction false} ParseExtends(c: Config, s: Scan, y: string)
    requires !s.store.full
    ensures var (t, ok) := Parse(c, s);
            Parse(c, Extend(s, y)) == if ok then Parse(c, Extend(t, y)) else (t, false)
    decreases |s.body|, if s.open != "" then 1 else 0
  {
    if GoesOn(c, s) {
      ParseGoesOn(c, s);
      OnwardExtends(c, s, y);
      ParseGoesOn(c, Extend(s, y));
      ParseExtends(c, Onward(c, s), y);
    } else {
      LastExtends(c, s, y);
    }
  }
}
