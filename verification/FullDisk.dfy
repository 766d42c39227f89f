/** When the disk takes no more data, the outcome of an upload does depend on how it is cut. */
module FullDisk {
  import opened Search
  import opened Registry
  import opened RegistryTheory
  import opened Scanner
  import opened SettledScanner
  import opened UploadTheorems
  import opened Multipart
  import opened Wrappers

  /** Every cutting of every continuation gives what the continuation gives in one piece. */
  ghost predicate ChunksAgree(c: Config, m: Message) {
    forall xs: seq<string> :: xs != [] ==> Observed(OnBodyAll(c, m, xs)) == Observed(OnBody(c, m, Concat(xs)))
  }

  // ---- A content that shows the difference ----

  /** So many line feeds that they are handed to the disk at once. */
  function Feeds(): (s: string)
    ensures |s| == DIRECT && forall k :: 0 <= k < |s| ==> s[k] == '\n'
  {
    seq(DIRECT, _ => '\n')
  }

  function Bait(c: Config): string {
    "\n\n" + c.boundary + "\r"
  }

  /** A content with the boundary in it, and a blank line behind the boundary, in two pieces. */
  function Opening(c: Config): string {
    Feeds() + Bait(c)
  }

  function Ending(c: Config): string {
    "\n\r\n" + c.Delimiter()
  }

  lemma FoundByFirst(s: string, p: string, r: nat)
    requires p != "" && OccursAt(s, p, r) && forall i :: 0 <= i < r ==> s[i] != p[0]
    ensures Find(s, p) == r
  {
    forall i | 0 <= i < r
      ensures !OccursAt(s, p, i)
    {
      if OccursAt(s, p, i) { CharUnder(s, p, i, i); }
    }
    FirstIsFound(s, p, 0, r);
  }

  /** A line break character can lie under a delimiter only where the delimiter has it. */
  lemma NoDelimiterOver(c: Config, s: string, i: nat, k: nat)
    requires Plain(c) && i <= k < i + |c.Delimiter()| && k < |s|
    requires (s[k] == '\n' && k != i + 1) || (s[k] == '\r' && k != i) || (k == i && s[k] != '\r')
    ensures !OccursAt(s, c.Delimiter(), i)
  {
    if OccursAt(s, c.Delimiter(), i) {
      CharUnder(s, c.Delimiter(), i, k);
    }
  }

  /** No delimiter starts before or at the two line feeds that follow a buffer without one. */
  lemma NoneUpToFeeds(c: Config, b: string, y: string, i: nat)
    requires Plain(c) && !Occurs(b, c.Delimiter()) && i < |b| + 2
    ensures !OccursAt(b + ("\n\n" + y), c.Delimiter(), i)
  {
    var all := b + ("\n\n" + y);
    assert all[|b|] == '\n' && all[|b| + 1] == '\n';
    if i + |c.Delimiter()| <= |b| {
      FindIsFirst(b, c.Delimiter(), 0);
      OccursAtExtend(b, "\n\n" + y, c.Delimiter(), i);
    } else {
      NoDelimiterOver(c, all, i, if i + 1 == |b| || i == |b| + 1 then |b| + 1 else |b|);
    }
  }

  /** Line feeds behind a buffer without a delimiter make none. */
  lemma NoneWithFeeds(c: Config, b: string)
    requires Plain(c) && !Occurs(b, c.Delimiter())
    ensures !Occurs(b + Feeds(), c.Delimiter())
  {
    var all := b + Feeds();
    forall i | 0 <= i <= |all|
      ensures !OccursAt(all, c.Delimiter(), i)
    {
      if i + |c.Delimiter()| <= |b| {
        FindIsFirst(b, c.Delimiter(), 0);
        OccursAtExtend(b, Feeds(), c.Delimiter(), i);
      } else if OccursAt(all, c.Delimiter(), i) {
        NoDelimiterOver(c, all, i, i + |c.Delimiter()| - 1);
      }
    }
    FirstIsFound(all, c.Delimiter(), 0, -1);
  }

  lemma BaitIsWritable(c: Config, b: string)
    requires Plain(c) && !Occurs(b, c.Delimiter())
    ensures var x := b + Bait(c);
            && |x| > |c.Delimiter()| && Writable(c, x) == |b| + 1
            && x[|b| + 1..] == "\n" + c.boundary + "\r"
  {
    var x := b + Bait(c);
    assert Bait(c) == "\n\n" + (c.boundary + "\r");
    forall i | 0 <= i <= |x|
      ensures !OccursAt(x, c.Delimiter(), i)
    {
      if i < |b| + 2 {
        NoneUpToFeeds(c, b, c.boundary + "\r", i);
      }
    }
    FirstIsFound(x, c.Delimiter(), 0, -1);
  }

  /** The characters between the line feeds and the closing delimiter. */
  lemma NoneInContent(c: Config, all: string, h: nat, i: nat)
    requires Plain(c) && h <= |all| - |HEAD_END| && all[h..h + 4] == HEAD_END && h + 4 < |all| && all[h + 4] == '\r'
    requires h - |c.boundary| <= i < h + 4 && (i < h ==> all[i] != '\r')
    ensures !OccursAt(all, c.Delimiter(), i)
  {
    ghost var line := all[h..h + 4];
    assert line[0] == all[h] && line[1] == all[h + 1] && line[2] == all[h + 2] && line[3] == all[h + 3];
    if i < h || i == h + 1 || i == h + 3 {
      NoDelimiterOver(c, all, i, i);
    } else {
      NoDelimiterOver(c, all, i, i + 2);
    }
  }

  /** Where the boundary, the blank line and the delimiter stand in the whole content. */
  lemma WholeLayout(c: Config, b: string, x: string, h: nat)
    requires x == b + (Bait(c) + Ending(c)) && h == |b| + 2 + |c.boundary|
    ensures x == b + ("\n\n" + (c.boundary + HEAD_END + c.Delimiter()))
    ensures |x| == h + 4 + |c.Delimiter()| && x[h..h + 4] == HEAD_END && x[h + 4..] == c.Delimiter()
    ensures forall i :: |b| + 2 <= i < h ==> x[i] == c.boundary[i - |b| - 2]
  {
    assert Bait(c) + Ending(c) == "\n\n" + (c.boundary + HEAD_END + c.Delimiter());
  }

  lemma WholeIsWritable(c: Config, b: string)
    requires Plain(c) && !Occurs(b, c.Delimiter())
    ensures var x := b + (Bait(c) + Ending(c));
            && |x| > |c.Delimiter()| && Writable(c, x) >= |b| && x[Writable(c, x)..] == c.Delimiter()
  {
    var d, x, h := c.Delimiter(), b + (Bait(c) + Ending(c)), |b| + 2 + |c.boundary|;
    WholeLayout(c, b, x, h);
    forall i | 0 <= i < h + 4
      ensures !OccursAt(x, d, i)
    {
      if i < |b| + 2 {
        NoneUpToFeeds(c, b, c.boundary + HEAD_END + d, i);
      } else {
        assert i < h ==> x[i] in c.boundary;
        NoneInContent(c, x, h, i);
      }
    }
    FirstIsFound(x, d, 0, h + 4);
  }

  // ---- What becomes of it ----

  /** A write that fails: the file is given up, and its bytes are gone. */
  lemma FailedWrite(c: Config, s: Scan)
    requires s.store.full && s.open != "" && |s.body| > |c.Delimiter()| && Writable(c, s.body) >= DIRECT
    ensures ProcessUploadBody(c, s) == ProcessUploadBody(c, AbandonFile(s.(body := s.body[Writable(c, s.body)..])))
  {
    var n := Writable(c, s.body);
    GivenUp(s.store, s.open, s.body[..n]);
    assert FileIteration(c, s) == More(AbandonFile(s.(body := s.body[n..])));
  }

  predicate WritesInVain(c: Config, m: Message) {
    Plain(c) && !m.rejected && m.scan.store.full && m.scan.open != "" && !Occurs(m.scan.body, c.Delimiter())
  }

  /** In one piece, the content runs up to the delimiter, and nothing is left to search. */
  lemma InOnePiece(c: Config, m: Message)
    requires WritesInVain(c, m)
    ensures OnBody(c, m, Opening(c) + Ending(c)) == Message(AbandonFile(m.scan.(body := c.Delimiter())), false)
  {
    NoneWithFeeds(c, m.scan.body);
    WholeIsWritable(c, m.scan.body + Feeds());
    JoinsToRight(Feeds(), Bait(c), Ending(c));
    JoinsToRight(m.scan.body, Feeds(), Bait(c) + Ending(c));
    FailedWrite(c, m.scan.(body := m.scan.body + (Opening(c) + Ending(c))));
  }

  /** In two pieces, the first bytes fail to be written ... */
  lemma InFirstPiece(c: Config, m: Message)
    requires WritesInVain(c, m)
    ensures OnBody(c, m, Opening(c)) == Message(AbandonFile(m.scan.(body := "\n" + c.boundary + "\r")), false)
  {
    NoneWithFeeds(c, m.scan.body);
    BaitIsWritable(c, m.scan.body + Feeds());
    JoinsToRight(m.scan.body, Feeds(), Bait(c));
    FailedWrite(c, m.scan.(body := m.scan.body + Opening(c)));
  }

  function AfterHead(c: Config, s: Scan, buf: string): (Scan, bool) {
    match ReadHead(buf)
    case Incomplete => (s.(body := buf), true)
    case Malformed => (s.(body := buf), false)
    case Named(name, after) => ProcessUploadBody(c, OpenFile(s, name, buf[after..]))
  }

  /** Skipping reaches the boundary at `pos` and reads the header block there. */
  lemma SkipReads(c: Config, s: Scan, pos: nat)
    requires s.open == "" && |s.body| > |c.Delimiter()| && Find(s.body, c.boundary) == pos
    ensures ProcessUploadBody(c, s) == AfterHead(c, s, s.body[pos..])
  {
  }

  /** The rest of the content, with the boundary at its second character. */
  lemma RestOfContent(c: Config, body: string)
    requires Plain(c) && body == "\n" + c.boundary + "\r" + Ending(c)
    ensures |body| > |c.Delimiter()| && Find(body, c.boundary) == 1
    ensures Find(body[1..], HEAD_END) == |c.boundary| && body[1..][|c.boundary| + 4..] == c.Delimiter()
  {
    var buf := c.boundary + HEAD_END + c.Delimiter();
    assert body == "\n" + buf && body[1..] == buf;
    assert body[1..1 + |c.boundary|] == c.boundary;
    FoundByFirst(body, c.boundary, 1);
    assert buf[|c.boundary|..|c.boundary| + 4] == HEAD_END;
    FoundByFirst(buf, HEAD_END, |c.boundary|);
  }

  /** ... and the boundary in the rest of the content is taken for the start of a part, which shows
      as a rejection, an open file, or one more failed name. */
  lemma InSecondPiece(c: Config, s: Scan)
    requires Plain(c) && s.open == "" && s.body == "\n" + c.boundary + "\r"
    ensures var r := OnBody(c, Message(s, false), Ending(c));
            r.rejected || r.scan.open != "" || |r.scan.failures| > |s.failures|
  {
    var t := s.(body := s.body + Ending(c));
    RestOfContent(c, t.body);
    SkipReads(c, t, 1);
  }

  lemma TwoChunks(c: Config, m: Message, x: string, y: string)
    ensures OnBodyAll(c, m, [x, y]) == OnBody(c, OnBody(c, m, x), y) && Concat([x, y]) == x + y
  {
    assert [x, y][1..] == [y] && [y][1..] == [];
    assert Concat([y]) == y;
    assert OnBodyAll(c, OnBody(c, m, x), [y]) == OnBody(c, OnBody(c, m, x), y);
  }

  /** On a full disk the cuts matter, for every boundary: the write that fails first decides how much
      of the content is searched for a bare boundary. */
  lemma FullDiskDependsOnCuts(c: Config, m: Message)
    requires WritesInVain(c, m)
    ensures Observed(OnBodyAll(c, m, [Opening(c), Ending(c)])) != Observed(OnBody(c, m, Opening(c) + Ending(c)))
  {
    InOnePiece(c, m);
    InFirstPiece(c, m);
    InSecondPiece(c, AbandonFile(m.scan.(body := "\n" + c.boundary + "\r")));
    TwoChunks(c, m, Opening(c), Ending(c));
  }

  lemma RoomMakesAgree(c: Config, m: Message)
    requires Plain(c) && !m.scan.store.full
    ensures ChunksAgree(c, m)
  {
    forall xs: seq<string> | xs != []
      ensures Observed(OnBodyAll(c, m, xs)) == Observed(OnBody(c, m, Concat(xs)))
    {
      ChunkIndependence(c, m, xs);
    }
  }

  lemma WritingDisagrees(c: Config, m: Message)
    requires WritesInVain(c, m)
    ensures !ChunksAgree(c, m)
  {
    var xs := [Opening(c), Ending(c)];
    FullDiskDependsOnCuts(c, m);
    TwoChunks(c, m, Opening(c), Ending(c));
    assert xs != [] && Observed(OnBodyAll(c, m, xs)) != Observed(OnBody(c, m, Concat(xs)));
  }

  /** For a message with a file open (and no whole delimiter waiting in the buffer), the outcome is
      a function of the bytes if and only if the disk takes the data. */
  lemma ChunksAgreeIff(c: Config, m: Message)
    requires Plain(c) && !m.rejected && m.scan.open != "" && !Occurs(m.scan.body, c.Delimiter())
    ensures ChunksAgree(c, m) <==> !m.scan.store.full
  {
    if m.scan.store.full {
      WritingDisagrees(c, m);
    } else {
      RoomMakesAgree(c, m);
    }
  }

  lemma NothingToDo(c: Config, s: Scan)
    requires |s.body| <= |c.Delimiter()|
    ensures ProcessUploadBody(c, s) == (s, true)
  {
  }

  /** A write that is too short to reach the disk counts as done; its bytes are gone. */
  lemma LostWrite(c: Config, s: Scan)
    requires s.store.full && Writing(s) && |s.body| > |c.Delimiter()| && 0 < Writable(c, s.body) < DIRECT
    requires Find(s.body, c.Delimiter()) != -1
    ensures ProcessUploadBody(c, s) == ProcessUploadBody(c, CloseFile(c, s.(body := s.body[Writable(c, s.body)..])))
  {
    var n := Writable(c, s.body);
    var t := s.(body := s.body[n..]);
    assert s.store.files[s.open] + "" == s.store.files[s.open];
    assert s.store.files[s.open := s.store.files[s.open]] == s.store.files;
    assert Append(s.store, s.open, s.body[..n]) == (s.store, true);
    assert FileIteration(c, s) == More(CloseFile(c, t));
  }

  /** What a client is told of a file that comes whole while the disk is full: a success if it is short,
      and then none of it is stored, and a failure if it is long. */
  lemma ToldOfFullDisk(c: Config, m: Message, content: string)
    requires Plain(c) && !m.rejected && m.scan.store.full && m.scan.body == "" && Writing(m.scan)
    requires content != "" && !Occurs(content, c.Delimiter())
    ensures var t, f := OnBody(c, m, content + c.Delimiter()), m.scan.open;
            && !t.rejected && t.scan.open == ""
            && (if |content| < DIRECT then
                  && t.scan.successes == m.scan.successes + [f] && t.scan.failures == m.scan.failures
                  && IsValidFile(t.scan.store, f) && t.scan.store.files == m.scan.store.files
                else
                  && t.scan.successes == m.scan.successes && t.scan.failures == m.scan.failures + [f]
                  && f !in t.scan.store.entries && f !in t.scan.store.files)
  {
    var s := m.scan.(body := m.scan.body + (content + c.Delimiter()));
    DelimiterAfterContent(c, content, "");
    assert s.body == content + c.Delimiter() + "" && s.body[|content|..] == c.Delimiter();
    var t := s.(body := c.Delimiter());
    if |content| < DIRECT {
      LostWrite(c, s);
      NothingToDo(c, CloseFile(c, t));
    } else {
      FailedWrite(c, s);
      NothingToDo(c, AbandonFile(t));
    }
  }

  // ---- Any message ----

  /** What a call leaves behind: no more bytes than are held back, or a header block that is not complete. */
  predicate Waits(c: Config, s: Scan) {
    if s.open != "" then |s.body| <= |c.Delimiter()| else HeadIn(c, Retained(c, s.body)).Incomplete?
  }

  lemma ShortWaits(c: Config, s: Scan)
    requires Plain(c) && |s.body| <= |c.Delimiter()|
    ensures Waits(c, s)
  {
    if s.open == "" && HeadIn(c, Retained(c, s.body)) != Incomplete {
      HeadNeedsRoom(c, Retained(c, s.body));
    }
  }

  lemma StopWaits(c: Config, s: Scan)
    requires |s.body| > |c.Delimiter()| && Iteration(c, s).Stop?
    ensures Waits(c, Iteration(c, s).s)
  {
    RetainedSettles(c, s.body);
  }

  lemma {:induction false} ScannerWaits(c: Config, s: Scan)
    requires Plain(c) && ProcessUploadBody(c, s).1
    ensures Waits(c, ProcessUploadBody(c, s).0)
    decreases |s.body|, if s.open != "" then 1 else 0
  {
    if |s.body| <= |c.Delimiter()| {
      ShortWaits(c, s);
    } else if Iteration(c, s).More? {
      IterationShrinks(c, s);
      ScannerWaits(c, Iteration(c, s).s);
    } else if Iteration(c, s).Stop? {
      StopWaits(c, s);
    }
  }

  lemma FirstChunk(c: Config, m: Message, x: string, xs: seq<string>)
    ensures OnBodyAll(c, m, [x] + xs) == OnBodyAll(c, OnBody(c, m, x), xs) && Concat([x] + xs) == x + Concat(xs)
  {
    assert ([x] + xs)[1..] == xs;
  }

  /** If the cuts matter after some bytes, they matter before them. */
  lemma CutsMatterBefore(c: Config, m: Message, x: string)
    requires !ChunksAgree(c, OnBody(c, m, x))
    ensures !ChunksAgree(c, m)
  {
    var t := OnBody(c, m, x);
    var xs: seq<string> :| xs != [] && Observed(OnBodyAll(c, t, xs)) != Observed(OnBody(c, t, Concat(xs)));
    TwoChunks(c, m, x, Concat(xs));
    FirstChunk(c, m, x, xs);
    assert [x] + xs != [] && [x, Concat(xs)] != [];
  }

  lemma {:induction false} LongerThanAll(names: set<string>) returns (n: nat)
    ensures n > 0 && forall f :: f in names ==> |f| < n
  {
    if names == {} {
      n := 1;
    } else {
      var f :| f in names;
      n := LongerThanAll(names - {f});
      n := if n > |f| then n else |f| + 1;
      assert forall g :: g in names ==> g == f || g in names - {f};
    }
  }

  /** Some valid name is always free. */
  lemma FreeName(store: State) returns (name: string)
    ensures Accepted(store, name) && '\r' !in name && '"' !in name
  {
    var n := LongerThanAll(store.entries.Keys);
    name := seq(n, _ => 'a');
    assert name[0] == 'a' && name != "." && name != "..";
  }

  function Heading(c: Config, name: string): string {
    c.boundary + FILENAME_KEY + name + QUOTE + HEAD_END
  }

  lemma KeyAfterBoundary(b: string)
    requires !Occurs(b, FILENAME_KEY)
    ensures Find(b + FILENAME_KEY, FILENAME_KEY) == |b|
  {
    var s := b + FILENAME_KEY;
    assert s[|b|..|b| + |FILENAME_KEY|] == FILENAME_KEY;
    FindIsFirst(b, FILENAME_KEY, 0);
    forall i | 0 <= i < |b|
      ensures !OccursAt(s, FILENAME_KEY, i)
    {
      if i + |FILENAME_KEY| <= |b| {
        OccursAtExtend(b, FILENAME_KEY, FILENAME_KEY, i);
      } else if OccursAt(s, FILENAME_KEY, i) {
        OverlapSharesChar(s, FILENAME_KEY, i, FILENAME_KEY, |b|);
      }
    }
    FirstIsFound(s, FILENAME_KEY, 0, |b|);
  }

  lemma BlankLineAfter(text: string)
    requires '\r' !in text
    ensures Find(text + HEAD_END, HEAD_END) == |text|
  {
    var all := text + HEAD_END;
    assert all[|text|..|text| + |HEAD_END|] == HEAD_END;
    assert forall i :: 0 <= i < |text| ==> all[i] == text[i] && text[i] in text;
    FoundByFirst(all, HEAD_END, |text|);
  }

  lemma HeadingIsRead(c: Config, name: string)
    requires Plain(c) && !Occurs(c.boundary, FILENAME_KEY) && '\r' !in name && '"' !in name
    ensures ReadHead(Heading(c, name)) == Named(name, |Heading(c, name)|)
  {
    var lead := c.boundary + FILENAME_KEY;
    KeyAfterBoundary(c.boundary);
    FindExtend(lead, name + QUOTE + HEAD_END, FILENAME_KEY, 0);
    JoinsToRight(lead, name, QUOTE);
    JoinsToRight(lead, name + QUOTE, HEAD_END);
    BlankLineAfter(lead + name + QUOTE);
    ClosedNameIsRead(Heading(c, name), lead, name, HEAD_END, |lead + name + QUOTE|);
  }

  lemma HeadingStarts(c: Config, name: string)
    requires Plain(c)
    ensures Heading(c, name)[..|c.boundary|] == c.boundary && |Heading(c, name)| > |c.Delimiter()|
  {
  }

  /** A line feed separates what is in the buffer from a boundary that follows. */
  lemma BoundaryAfterFeed(c: Config, body: string, head: string)
    requires Plain(c) && !Occurs(body, c.boundary) && |c.boundary| <= |head| && head[..|c.boundary|] == c.boundary
    ensures var all := body + ("\n" + head); Find(all, c.boundary) == |body| + 1 && all[|body| + 1..] == head
  {
    var all := body + ("\n" + head);
    JoinsToRight(body, "\n", head);
    JoinCut(body + "\n", head, |body| + 1);
    FindIsFirst(body, c.boundary, 0);
    assert all[|body| + 1..|body| + 1 + |c.boundary|] == head[..|c.boundary|];
    forall i | 0 <= i <= |body|
      ensures !OccursAt(all, c.boundary, i)
    {
      if i + |c.boundary| <= |body| {
        OccursAtExtend(body, "\n" + head, c.boundary, i);
      } else if OccursAt(all, c.boundary, i) {
        CharUnder(all, c.boundary, i, |body|);
      }
    }
    FirstIsFound(all, c.boundary, 0, |body| + 1);
  }

  /** Bytes that end with a header block: its name is taken up, and nothing is left in the buffer. */
  lemma HeadTaken(c: Config, s: Scan, pos: nat, name: string)
    requires s.open == "" && |s.body| > |c.Delimiter()| && Find(s.body, c.boundary) == pos
    requires ReadHead(s.body[pos..]) == Named(name, |s.body[pos..]|)
    ensures ProcessUploadBody(c, s) == (OpenFile(s, name, ""), true)
  {
    var buf := s.body[pos..];
    SkipReads(c, s, pos);
    assert buf[|buf|..] == "";
    NothingToDo(c, OpenFile(s, name, ""));
  }

  /** A header block with a free name opens a file. */
  lemma HeadingOpens(c: Config, m: Message, name: string)
    requires Plain(c) && !Occurs(c.boundary, FILENAME_KEY) && '\r' !in name && '"' !in name
    requires !m.rejected && m.scan.open == "" && !Occurs(m.scan.body, c.boundary) && Accepted(m.scan.store, name)
    ensures OnBody(c, m, "\n" + Heading(c, name)) == Message(OpenFile(m.scan, name, ""), false)
  {
    var head := Heading(c, name);
    var all := m.scan.body + ("\n" + head);
    HeadingIsRead(c, name);
    HeadingStarts(c, name);
    BoundaryAfterFeed(c, m.scan.body, head);
    HeadTaken(c, m.scan.(body := all), |m.scan.body| + 1, name);
  }

  /** With no boundary in the buffer, a header block with a free name opens a file, and then the cuts matter. */
  lemma SearchingDisagrees(c: Config, m: Message)
    requires Plain(c) && !Occurs(c.boundary, FILENAME_KEY) && !m.rejected && m.scan.store.full
    requires m.scan.open == "" && !Occurs(m.scan.body, c.boundary)
    ensures !ChunksAgree(c, m)
  {
    var name := FreeName(m.scan.store);
    HeadingOpens(c, m, name);
    FindIsFirst("", c.Delimiter(), 0);
    WritingDisagrees(c, Message(OpenFile(m.scan, name, ""), false));
    CutsMatterBefore(c, m, "\n" + Heading(c, name));
  }

  lemma EmptyDisagrees(c: Config, m: Message)
    requires Plain(c) && !Occurs(c.boundary, FILENAME_KEY) && !m.rejected && m.scan.store.full && m.scan.body == ""
    ensures !ChunksAgree(c, m)
  {
    FindIsFirst("", c.boundary, 0);
    FindIsFirst("", c.Delimiter(), 0);
    if m.scan.open == "" {
      SearchingDisagrees(c, m);
    } else {
      WritingDisagrees(c, m);
    }
  }

  /** What completes any header block that has begun. */
  const REST_OF_HEAD := "x" + FILENAME_KEY + QUOTE + HEAD_END

  lemma BlankLineAtEnd(buf: string)
    requires !Occurs(buf, HEAD_END)
    ensures Find(buf + REST_OF_HEAD, HEAD_END) == |buf| + 1 + |FILENAME_KEY| + |QUOTE|
  {
    var all := buf + REST_OF_HEAD;
    var h := |buf| + 1 + |FILENAME_KEY| + |QUOTE|;
    FindIsFirst(buf, HEAD_END, 0);
    forall i | 0 <= i < h
      ensures !OccursAt(all, HEAD_END, i)
    {
      if i + |HEAD_END| <= |buf| {
        OccursAtExtend(buf, REST_OF_HEAD, HEAD_END, i);
      } else if OccursAt(all, HEAD_END, i) {
        CharUnder(all, HEAD_END, i, if i < |buf| then |buf| else i);
      }
    }
    assert all[h..h + |HEAD_END|] == HEAD_END;
    FirstIsFound(all, HEAD_END, 0, h);
  }

  /** It has a filename parameter in any case, and the parameter is closed. */
  lemma HeadCompleted(buf: string)
    requires !Occurs(buf, HEAD_END)
    ensures var head := ReadHead(buf + REST_OF_HEAD); head.Named? && head.after == |buf + REST_OF_HEAD|
  {
    var all := buf + REST_OF_HEAD;
    BlankLineAtEnd(buf);
    var at := |buf| + 1;
    assert all[at..at + |FILENAME_KEY|] == FILENAME_KEY;
    FindIsFirst(all, FILENAME_KEY, 0);
    assert OccursAt(all, FILENAME_KEY, at);
    var key := Find(all, FILENAME_KEY);
    var quote := at + |FILENAME_KEY|;
    assert all[quote..quote + 1] == "\"";
    FindIsFirst(all, "\"", key + |FILENAME_KEY|);
    assert OccursAt(all, "\"", quote);
  }

  lemma BegunIsRead(c: Config, body: string)
    requires Plain(c) && Occurs(body, c.boundary) && HeadIn(c, Retained(c, body)).Incomplete?
    ensures var pos, all := Find(body, c.boundary), body + REST_OF_HEAD;
            && Find(all, c.boundary) == pos && |all[pos..]| > |c.Delimiter()|
            && ReadHead(all[pos..]).Named? && ReadHead(all[pos..]).after == |all[pos..]|
  {
    var pos := Find(body, c.boundary);
    var buf := body[pos..];
    RetainedSettles(c, body);
    HeadCompleted(buf);
    FindExtend(body, REST_OF_HEAD, c.boundary, 0);
    FindExtend(buf, REST_OF_HEAD, c.boundary, 0);
    JoinCut(body, REST_OF_HEAD, pos);
    HeadNeedsRoom(c, buf + REST_OF_HEAD);
  }

  /** A header block that has begun is completed, which opens a file or reports a failed name. */
  lemma BegunOpens(c: Config, m: Message) returns (name: string)
    requires Plain(c) && !m.rejected && m.scan.open == "" && Occurs(m.scan.body, c.boundary) && Waits(c, m.scan)
    ensures OnBody(c, m, REST_OF_HEAD) == Message(OpenFile(m.scan, name, ""), false)
  {
    var pos, all := Find(m.scan.body, c.boundary), m.scan.body + REST_OF_HEAD;
    BegunIsRead(c, m.scan.body);
    name := ReadHead(all[pos..]).name;
    HeadTaken(c, m.scan.(body := all), pos, name);
  }

  lemma BegunDisagrees(c: Config, m: Message)
    requires Plain(c) && !Occurs(c.boundary, FILENAME_KEY) && !m.rejected && m.scan.store.full
    requires m.scan.open == "" && Occurs(m.scan.body, c.boundary) && Waits(c, m.scan)
    ensures !ChunksAgree(c, m)
  {
    var name := BegunOpens(c, m);
    EmptyDisagrees(c, Message(OpenFile(m.scan, name, ""), false));
    CutsMatterBefore(c, m, REST_OF_HEAD);
  }

  lemma NoBlankLine(c: Config, buf: string)
    requires '\r' !in buf
    ensures !Occurs(buf, HEAD_END)
  {
    var h := Find(buf, HEAD_END);
    if h != -1 {
      CharUnder(buf, HEAD_END, h, h);
    }
  }

  lemma DelimiterThenFeed(c: Config)
    requires Plain(c)
    ensures var body, buf := c.Delimiter() + "\n", c.boundary + "\n";
            && Find(body, c.Delimiter()) == 0 && Find(body, c.boundary) == 2
            && body[2..] == buf && !Occurs(buf, HEAD_END)
  {
    var body := c.Delimiter() + "\n";
    assert body == "" + c.Delimiter() + "\n";
    FindIsFirst("", c.Delimiter(), 0);
    DelimiterAfterContent(c, "", "\n");
    assert body[2..2 + |c.boundary|] == c.boundary;
    FoundByFirst(body, c.boundary, 2);
    NoBlankLine(c, c.boundary + "\n");
  }

  /** A delimiter that waits in the buffer closes the file with the next byte. */
  lemma DelimiterCloses(c: Config, m: Message)
    requires Plain(c) && !m.rejected && m.scan.open != "" && m.scan.body == c.Delimiter()
    ensures OnBody(c, m, "\n")
         == Message(CloseFile(c, m.scan.(body := m.scan.body + "\n")).(body := c.boundary + "\n"), false)
  {
    var s := m.scan.(body := m.scan.body + "\n");
    DelimiterThenFeed(c);
    assert s.body[0..] == s.body;
    assert FileIteration(c, s) == More(CloseFile(c, s));
    SkipReads(c, CloseFile(c, s), 2);
  }

  lemma DelimiterDisagrees(c: Config, m: Message)
    requires Plain(c) && !Occurs(c.boundary, FILENAME_KEY) && !m.rejected && m.scan.store.full
    requires m.scan.open != "" && m.scan.body == c.Delimiter()
    ensures !ChunksAgree(c, m)
  {
    var buf := c.boundary + "\n";
    DelimiterCloses(c, m);
    NoBlankLine(c, buf);
    assert buf[0..|c.boundary|] == c.boundary && buf[0..] == buf;
    FirstIsFound(buf, c.boundary, 0, 0);
    BegunDisagrees(c, OnBody(c, m, "\n"));
    CutsMatterBefore(c, m, "\n");
  }

  /** For every message that a call leaves behind, a new one included, the outcome is a function of the
      bytes to come if and only if the disk takes the data. */
  lemma MessageChunksAgreeIff(c: Config, m: Message)
    requires Plain(c) && !Occurs(c.boundary, FILENAME_KEY) && !m.rejected && Waits(c, m.scan)
    ensures ChunksAgree(c, m) <==> !m.scan.store.full
  {
    if !m.scan.store.full {
      RoomMakesAgree(c, m);
    } else if m.scan.open == "" {
      if Occurs(m.scan.body, c.boundary) {
        BegunDisagrees(c, m);
      } else {
        SearchingDisagrees(c, m);
      }
    } else if Occurs(m.scan.body, c.Delimiter()) {
      DelimiterDisagrees(c, m);
    } else {
      WritingDisagrees(c, m);
    }
  }

  /** Every call leaves such a message behind, unless it rejects it. */
  lemma OnBodyWaits(c: Config, m: Message, chunk: string)
    requires Plain(c) && !OnBody(c, m, chunk).rejected
    ensures Waits(c, OnBody(c, m, chunk).scan)
  {
    ScannerWaits(c, m.scan.(body := m.scan.body + chunk));
  }
}
