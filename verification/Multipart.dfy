/** Multipart bodies as section 5.1.1 of RFC 2046 writes them, and what the server makes of them. */
module Multipart {
  import opened Search
  import opened Registry
  import opened Scanner
  import opened SettledScanner
  import opened UploadTheorems
  import opened Wrappers

  /** A body part. `lead` runs from the boundary (padding, line break, header text) up to the
      filename parameter, and `trail` from its closing quote up to the blank line. */
  datatype Part = Part(lead: string, name: string, trail: string, content: string)

  const QUOTE := "\""
  const CLOSE := "--"

  function HeadText(c: Config, p: Part): string {
    c.boundary + p.lead + FILENAME_KEY + p.name + QUOTE + p.trail
  }

  /** dash-boundary, headers, blank line, content, and the line break that belongs to the next delimiter. */
  function EncodePart(c: Config, p: Part): string {
    HeadText(c, p) + HEAD_END + p.content + SEP
  }

  function EncodeParts(c: Config, parts: seq<Part>): string {
    if parts == [] then "" else EncodePart(c, parts[0]) + EncodeParts(c, parts[1..])
  }

  function Encode(c: Config, preamble: string, parts: seq<Part>, epilogue: string): string {
    preamble + EncodeParts(c, parts) + (c.boundary + CLOSE + epilogue)
  }

  /** The blank line is where the headers end, and the filename parameter is where `lead` ends. */
  predicate ProperHead(c: Config, p: Part) {
    && Find(HeadText(c, p) + HEAD_END, HEAD_END) == |HeadText(c, p)|
    && Find(c.boundary + p.lead + FILENAME_KEY, FILENAME_KEY) == |c.boundary + p.lead|
    && '"' !in p.name
  }

  /** Text that skipping gets past: no boundary begins in it, even one completed by what follows. */
  predicate Skippable(c: Config, junk: string) {
    Find(junk + c.boundary, c.boundary) == |junk|
  }

  predicate Accepted(store: State, name: string) {
    name !in store.entries && Storable(name)
  }

  /** What one part should do: store its content, or report its name as failed. */
  function Deliver(c: Config, s: Scan, p: Part): Scan {
    if Accepted(s.store, p.name) then
      s.(successes := s.successes + [p.name],
         store := s.store.(entries := s.store.entries[p.name := Complete(Info(|p.content|, c.now))],
                           files := s.store.files[p.name := p.content],
                           dirty := true))
    else s.(failures := s.failures + [p.name])
  }

  function DeliverAll(c: Config, s: Scan, parts: seq<Part>): (r: Scan)
    ensures r.body == s.body && r.open == s.open && r.store.full == s.store.full
    decreases |parts|
  {
    if parts == [] then s else DeliverAll(c, Deliver(c, s, parts[0]), parts[1..])
  }

  /** A stored content must not contain the delimiter, and that of a refused part not even the bare
      boundary, for which it is searched. (What happens otherwise is below.) */
  predicate CleanContent(c: Config, s: Scan, p: Part) {
    if Accepted(s.store, p.name) then !Occurs(p.content, c.Delimiter()) else !Occurs(p.content, c.boundary)
  }

  predicate ProperParts(c: Config, s: Scan, parts: seq<Part>)
    decreases |parts|
  {
    parts != [] ==>
      ProperHead(c, parts[0]) && CleanContent(c, s, parts[0]) && ProperParts(c, Deliver(c, s, parts[0]), parts[1..])
  }

  // ---- What the scanner makes of any parts ----

  /** With no file open and `junk` still to be searched, the header block of `p` is the next one read. */
  predicate Passes(c: Config, junk: string, p: Part) {
    var buf := Retained(c, junk + (HeadText(c, p) + HEAD_END));
    ReadHead(buf) == Named(p.name, |buf|)
  }

  /** The bytes that are searched after a part: the content too if the part was refused. */
  function JunkAfter(c: Config, s: Scan, p: Part): string {
    if Accepted(s.store, p.name) then SEP else p.content + SEP
  }

  /** Each header block is read as it is meant, and each stored content is free of the delimiter. */
  predicate Conforms(c: Config, s: Scan, junk: string, parts: seq<Part>)
    decreases |parts|
  {
    parts != [] ==>
      && Passes(c, junk, parts[0])
      && (Accepted(s.store, parts[0].name) ==> !Occurs(parts[0].content, c.Delimiter()))
      && Conforms(c, Deliver(c, s, parts[0]), JunkAfter(c, s, parts[0]), parts[1..])
  }

  function LastJunk(c: Config, s: Scan, junk: string, parts: seq<Part>): string
    decreases |parts|
  {
    if parts == [] then junk
    else LastJunk(c, Deliver(c, s, parts[0]), JunkAfter(c, s, parts[0]), parts[1..])
  }

  /** No blank line follows the first boundary. */
  predicate Quiet(c: Config, tail: string) {
    var pos := Find(tail, c.boundary);
    pos == -1 || !Occurs(tail[pos..], HEAD_END)
  }

  // ---- Where the searches land ----

  /** The delimiter cannot overlap itself, so clean content ends exactly at the delimiter after it. */
  lemma DelimiterAfterContent(c: Config, content: string, rest: string)
    requires Plain(c)
    ensures var stream := content + c.Delimiter() + rest;
            Find(stream, c.Delimiter()) == |content| <==> !Occurs(content, c.Delimiter())
  {
    var d := c.Delimiter();
    var stream := content + d + rest;
    assert stream == content + (d + rest);
    FindIsFirst(content, d, 0);
    FindIsFirst(stream, d, 0);
    assert OccursAt(stream, d, |content|) by {
      assert stream[|content|..|content| + |d|] == d;
    }
    if Occurs(content, d) {
      OccursAtExtend(content, d + rest, d, Find(content, d));
    } else {
      forall i | 0 <= i < |content|
        ensures !OccursAt(stream, d, i)
      {
        if OccursAt(stream, d, i) {
          if i + |d| <= |content| {
            OccursAtExtend(content, d + rest, d, i);
          } else {
            OverlapSharesChar(stream, d, i, d, |content|);
          }
        }
      }
      FirstIsFound(stream, d, 0, |content|);
    }
  }

  lemma LineBreakSkippable(c: Config, content: string)
    requires Plain(c) && !Occurs(content, c.boundary)
    ensures Skippable(c, content + SEP)
  {
    var b := c.boundary;
    var junk := content + SEP;
    var all := junk + b;
    FindIsFirst(content, b, 0);
    forall i | 0 <= i < |junk|
      ensures !OccursAt(all, b, i)
    {
      if OccursAt(all, b, i) {
        if i + |b| <= |content| {
          assert all == content + (SEP + b);
          OccursAtExtend(content, SEP + b, b, i);
        } else {
          var at := if i <= |content| then |content| else |content| + 1;
          CharUnder(all, b, i, at);
        }
      }
    }
    assert all[|junk|..|junk| + |b|] == b;
    FirstIsFound(all, b, 0, |junk|);
  }

  lemma JunkIsDropped(c: Config, junk: string, rest: string)
    requires Skippable(c, junk)
    ensures Retained(c, junk + (c.boundary + rest)) == c.boundary + rest
    ensures Find(c.boundary + rest, c.boundary) == 0
  {
    var all := junk + (c.boundary + rest);
    assert all == (junk + c.boundary) + rest;
    FindExtend(junk + c.boundary, rest, c.boundary, 0);
    assert all[|junk|..] == c.boundary + rest;
    assert OccursAt(c.boundary + rest, c.boundary, 0);
    FirstIsFound(c.boundary + rest, c.boundary, 0, 0);
  }

  lemma NameIsRead(lead: string, name: string, rest: string, headEnd: nat)
    requires '"' !in name && |lead| + |name| <= headEnd
    requires headEnd + |HEAD_END| <= |lead + name + QUOTE + rest|
    ensures NameAt(lead + name + QUOTE + rest, headEnd, |lead|) == Named(name, headEnd + |HEAD_END|)
  {
    var buf := lead + name + QUOTE + rest;
    var start, end := |lead|, |lead| + |name|;
    forall i | start <= i < end
      ensures !OccursAt(buf, QUOTE, i)
    {
      assert buf[i] == name[i - start];
      if OccursAt(buf, QUOTE, i) {
        CharUnder(buf, QUOTE, i, i);
      }
    }
    assert buf[end..end + 1] == QUOTE;
    FirstIsFound(buf, QUOTE, start, end);
    assert buf[start..end] == name;
  }

  /** The same text, bracketed by what each search needs to see first. */
  lemma Brackets(c: Config, p: Part, rest: string)
    ensures var lead := c.boundary + p.lead + FILENAME_KEY;
            HeadText(c, p) + HEAD_END + rest == lead + p.name + QUOTE + (p.trail + HEAD_END + rest)
    ensures EncodePart(c, p) + rest == HeadText(c, p) + HEAD_END + (p.content + SEP + rest)
  {
  }

  lemma BoundaryFirst(c: Config, p: Part, rest: string) returns (after: string)
    ensures EncodePart(c, p) + rest == c.boundary + after && after != ""
  {
    after := (EncodePart(c, p) + rest)[|c.boundary|..];
    assert HeadText(c, p)[..|c.boundary|] == c.boundary;
    assert (EncodePart(c, p) + rest)[..|c.boundary|] == c.boundary;
    assert |EncodePart(c, p)| > |c.boundary|;
  }

  lemma HeadFound(c: Config, p: Part, rest: string)
    requires ProperHead(c, p)
    ensures var buf := HeadText(c, p) + HEAD_END + rest;
            && Find(buf, HEAD_END) == |HeadText(c, p)| && Find(buf, FILENAME_KEY) == |c.boundary + p.lead|
            && buf == c.boundary + p.lead + FILENAME_KEY + p.name + QUOTE + (p.trail + HEAD_END + rest)
  {
    var lead := c.boundary + p.lead + FILENAME_KEY;
    var tail := p.trail + HEAD_END + rest;
    FindExtend(HeadText(c, p) + HEAD_END, rest, HEAD_END, 0);
    Brackets(c, p, rest);
    JoinsToRight(lead, p.name, QUOTE);
    JoinsToRight(lead, p.name + QUOTE, tail);
    FindExtend(lead, p.name + QUOTE + tail, FILENAME_KEY, 0);
  }

  lemma HeadIsRead(c: Config, p: Part, rest: string)
    requires ProperHead(c, p)
    ensures ReadHead(HeadText(c, p) + HEAD_END + rest) == Named(p.name, |HeadText(c, p)| + |HEAD_END|)
  {
    HeadFound(c, p, rest);
    NameIsRead(c.boundary + p.lead + FILENAME_KEY, p.name, p.trail + HEAD_END + rest, |HeadText(c, p)|);
  }

  // ---- One part after another ----

  /** The state in which the scanner is looking for the next boundary with `rest` still to come. */
  function Seeking(s: Scan, junk: string, rest: string): Scan {
    s.(body := junk + rest)
  }

  /** Whatever follows a part starts with a boundary. */
  lemma NextBoundary(c: Config, parts: seq<Part>, tail: string) returns (after: string)
    requires tail != ""
    ensures EncodeParts(c, parts) + (c.boundary + tail) == c.boundary + after && after != ""
  {
    if parts == [] {
      after := tail;
      assert EncodeParts(c, parts) + (c.boundary + tail) == c.boundary + after;
    } else {
      var rest := EncodeParts(c, parts[1..]) + (c.boundary + tail);
      after := BoundaryFirst(c, parts[0], rest);
      assert EncodeParts(c, parts) + (c.boundary + tail) == EncodePart(c, parts[0]) + rest;
    }
  }

  lemma PartHeadReached(c: Config, s: Scan, junk: string, p: Part, rest: string)
    requires Passes(c, junk, p) && !s.store.full && s.open == ""
    ensures var t := Seeking(s, junk, EncodePart(c, p) + rest);
            GoesOn(c, t) && Onward(c, t) == OpenFile(s, p.name, p.content + SEP + rest)
  {
    var text, content := junk + (HeadText(c, p) + HEAD_END), p.content + SEP + rest;
    var buf := Retained(c, text);
    BoundaryIn(c, junk, p);
    RetainedSettles(c, text);
    SkipExtends(c, s.(body := text), content);
    assert (buf + content)[|buf|..] == content;
    Brackets(c, p, rest);
    JoinsToRight(junk, HeadText(c, p) + HEAD_END, content);
  }

  lemma BoundaryIn(c: Config, junk: string, p: Part)
    ensures Find(junk + (HeadText(c, p) + HEAD_END), c.boundary) != -1
  {
    var text := junk + (HeadText(c, p) + HEAD_END);
    assert HeadText(c, p)[..|c.boundary|] == c.boundary;
    assert text[|junk|..|junk| + |c.boundary|] == c.boundary;
    FindIsFirst(text, c.boundary, 0);
    assert OccursAt(text, c.boundary, |junk|);
  }

  /** Writing the content of a part that was just accepted, and closing it, delivers it. */
  lemma StoredAndClosed(c: Config, s: Scan, p: Part, body: string)
    requires !s.store.full && s.open == "" && Accepted(s.store, p.name)
    ensures var t := OpenFile(s, p.name, body);
            var store := if p.content == "" then t.store else Append(t.store, p.name, p.content).0;
            CloseFile(c, t.(store := store)) == Deliver(c, s, p).(body := body)
  {
    var t := OpenFile(s, p.name, body);
    var store := if p.content == "" then t.store else Append(t.store, p.name, p.content).0;
    assert "" + p.content == p.content;
    assert store.files == s.store.files[p.name := p.content];
    assert store.entries[p.name := Complete(Info(|p.content|, c.now))]
        == s.store.entries[p.name := Complete(Info(|p.content|, c.now))];
  }

  lemma ContentEnds(c: Config, content: string, rest: string)
    requires Plain(c) && !Occurs(content, c.Delimiter()) && rest != ""
    ensures var body := content + SEP + (c.boundary + rest);
            && |body| > |c.Delimiter()| && Find(body, c.Delimiter()) == |content|
            && body[..|content|] == content && body[|content|..] == SEP + (c.boundary + rest)
  {
    assert content + SEP + (c.boundary + rest) == content + c.Delimiter() + rest;
    DelimiterAfterContent(c, content, rest);
  }

  /** An accepted part is written out whole and closed. */
  lemma PartStored(c: Config, s: Scan, p: Part, rest: string)
    requires Plain(c) && !s.store.full && s.open == "" && rest != ""
    requires Accepted(s.store, p.name) && !Occurs(p.content, c.Delimiter())
    ensures var t := OpenFile(s, p.name, p.content + SEP + (c.boundary + rest));
            GoesOn(c, t) && Onward(c, t) == Seeking(Deliver(c, s, p), SEP, c.boundary + rest)
  {
    ContentEnds(c, p.content, rest);
    StoredAndClosed(c, s, p, SEP + (c.boundary + rest));
  }

  /** After one part the scanner is looking for the next one, with the part delivered. */
  lemma PartDelivered(c: Config, s: Scan, junk: string, p: Part, rest: string)
    requires Plain(c) && !s.store.full && s.open == "" && rest != ""
    requires Passes(c, junk, p) && (Accepted(s.store, p.name) ==> !Occurs(p.content, c.Delimiter()))
    ensures Parse(c, Seeking(s, junk, EncodePart(c, p) + (c.boundary + rest)))
         == Parse(c, Seeking(Deliver(c, s, p), JunkAfter(c, s, p), c.boundary + rest))
  {
    var t := Seeking(s, junk, EncodePart(c, p) + (c.boundary + rest));
    PartHeadReached(c, s, junk, p, c.boundary + rest);
    ParseGoesOn(c, t);
    if Accepted(s.store, p.name) {
      PartStored(c, s, p, rest);
      ParseGoesOn(c, Onward(c, t));
    }
  }

  /** After any parts the scanner is looking for the boundary that `tail` starts with, with all of
      them delivered. */
  lemma {:induction false} PartsDelivered(c: Config, s: Scan, junk: string, parts: seq<Part>, tail: string)
    requires Plain(c) && !s.store.full && s.open == "" && tail != "" && Conforms(c, s, junk, parts)
    ensures Parse(c, Seeking(s, junk, EncodeParts(c, parts) + (c.boundary + tail)))
         == Parse(c, Seeking(DeliverAll(c, s, parts), LastJunk(c, s, junk, parts), c.boundary + tail))
    decreases |parts|
  {
    if parts == [] {
      assert EncodeParts(c, parts) + (c.boundary + tail) == c.boundary + tail;
    } else {
      var rest := EncodeParts(c, parts[1..]) + (c.boundary + tail);
      var after := NextBoundary(c, parts[1..], tail);
      JoinsToRight(EncodePart(c, parts[0]), EncodeParts(c, parts[1..]), c.boundary + tail);
      PartDelivered(c, s, junk, parts[0], after);
      PartsDelivered(c, Deliver(c, s, parts[0]), JunkAfter(c, s, parts[0]), parts[1..], tail);
    }
  }

  function Fed(r: (Scan, bool)): Message {
    Message(r.0, !r.1)
  }

  predicate IsNew(m: Message) {
    !m.rejected && !m.scan.store.full && m.scan.open == "" && m.scan.body == ""
  }

  /** Feeding a message that has had no bytes yet. */
  lemma FedFromStart(c: Config, m: Message, preamble: string, stream: string)
    requires Plain(c) && IsNew(m)
    ensures Feed(c, SettledMessage(c, m), preamble + stream) == Fed(Parse(c, Seeking(m.scan, preamble, stream)))
  {
    FindIsFirst("", c.boundary, 0);
    assert Extend(m.scan, preamble + stream) == Seeking(m.scan, preamble, stream);
  }

  /** What the chunks of a new message come to. */
  lemma Received(c: Config, m: Message, preamble: string, parts: seq<Part>, tail: string, xs: seq<string>)
    requires Plain(c) && IsNew(m) && xs != []
    requires Concat(xs) == preamble + EncodeParts(c, parts) + (c.boundary + tail)
    ensures var stream := EncodeParts(c, parts) + (c.boundary + tail);
            SettledMessage(c, OnBodyAll(c, m, xs)) == Fed(Parse(c, Seeking(m.scan, preamble, stream)))
  {
    JoinsToRight(preamble, EncodeParts(c, parts), c.boundary + tail);
    OnBodyAllFeeds(c, m, xs);
    FedFromStart(c, m, preamble, EncodeParts(c, parts) + (c.boundary + tail));
  }

  /** A message that has come in full, up to the boundary that `tail` starts with. */
  lemma UploadReaches(c: Config, m: Message, preamble: string, parts: seq<Part>, tail: string, xs: seq<string>)
    requires Plain(c) && IsNew(m) && Conforms(c, m.scan, preamble, parts) && tail != ""
    requires xs != [] && Concat(xs) == preamble + EncodeParts(c, parts) + (c.boundary + tail)
    ensures var t, junk := DeliverAll(c, m.scan, parts), LastJunk(c, m.scan, preamble, parts);
            && t.body == "" && t.open == "" && !t.store.full
            && SettledMessage(c, OnBodyAll(c, m, xs)) == Fed(Parse(c, Seeking(t, junk, c.boundary + tail)))
  {
    Received(c, m, preamble, parts, tail, xs);
    PartsDelivered(c, m.scan, preamble, parts, tail);
  }

  /** How many header blocks have been read. */
  function Heads(s: Scan): nat {
    |s.successes| + |s.failures| + if s.open != "" then 1 else 0
  }

  lemma {:induction false} ParseKeepsHeads(c: Config, s: Scan)
    requires !s.store.full
    ensures Heads(Parse(c, s).0) >= Heads(s)
    decreases |s.body|, if s.open != "" then 1 else 0
  {
    if GoesOn(c, s) {
      ParseGoesOn(c, s);
      OnwardKeepsHeads(c, s);
      ParseKeepsHeads(c, Onward(c, s));
    } else if s.open != "" && |s.body| > |c.Delimiter()| {
      ParseFlushes(c, s);
    }
  }

  lemma OnwardKeepsHeads(c: Config, s: Scan)
    requires !s.store.full && GoesOn(c, s)
    ensures Heads(Onward(c, s)) == Heads(s) + if s.open == "" then 1 else 0
  {
    if s.open != "" && Writable(c, s.body) > 0 {
      IterationWrites(c, s);
    }
  }

  /** With no file open, `tail` has no effect if and only if no blank line follows a boundary in it:
      otherwise a header block is read, which rejects the message or shows as one more name. */
  lemma QuietIff(c: Config, s: Scan, tail: string)
    requires !s.store.full && s.open == "" && s.body == ""
    ensures Observed(Fed(Parse(c, s.(body := tail)))) == (s, false) <==> Quiet(c, tail)
  {
    var t := s.(body := tail);
    RetainedSettles(c, tail);
    if HeadIn(c, Retained(c, tail)).Named? {
      ParseGoesOn(c, t);
      OnwardKeepsHeads(c, t);
      ParseKeepsHeads(c, Onward(c, t));
    }
  }

  /** Uploading any parts whose header blocks are read as they are meant, cut in any way, delivers
      them and nothing else if and only if what follows the last part is quiet. */
  lemma DeliveredIffQuiet(c: Config, m: Message, preamble: string, parts: seq<Part>, epilogue: string, xs: seq<string>)
    requires Plain(c) && IsNew(m) && Conforms(c, m.scan, preamble, parts)
    requires xs != [] && Concat(xs) == Encode(c, preamble, parts, epilogue)
    ensures Observed(OnBodyAll(c, m, xs)) == (DeliverAll(c, m.scan, parts), false)
       <==> Quiet(c, LastJunk(c, m.scan, preamble, parts) + (c.boundary + CLOSE + epilogue))
  {
    JoinsToRight(c.boundary, CLOSE, epilogue);
    UploadReaches(c, m, preamble, parts, CLOSE + epilogue, xs);
    var junk := LastJunk(c, m.scan, preamble, parts);
    QuietIff(c, DeliverAll(c, m.scan, parts), junk + (c.boundary + CLOSE + epilogue));
  }

  predicate SameFile(before: State, after: State, f: string)
    requires f in before.files && f in before.entries
  {
    && f in after.files && after.files[f] == before.files[f]
    && f in after.entries && after.entries[f] == before.entries[f]
  }

  /** Delivering parts never touches a file that is registered already. */
  lemma {:induction false} DeliverAllKeeps(c: Config, s: Scan, parts: seq<Part>, f: string)
    requires f in s.store.files && f in s.store.entries
    ensures SameFile(s.store, DeliverAll(c, s, parts).store, f)
    decreases |parts|
  {
    if parts != [] {
      DeliverAllKeeps(c, Deliver(c, s, parts[0]), parts[1..], f);
    }
  }

  // ---- The round trip ----

  /** What skipping has in hand when it looks for the header block of `p`: the part of `junk` from the
      first boundary on, and the header text. */
  function Sought(c: Config, junk: string, p: Part): string {
    Retained(c, junk + (HeadText(c, p) + HEAD_END))
  }

  /** The first blank line behind the first boundary is the one that ends the header block of `p`. */
  predicate Unbroken(c: Config, junk: string, p: Part) {
    Find(Sought(c, junk, p), HEAD_END) == |Sought(c, junk, p)| - |HEAD_END|
  }

  /** From the first boundary on there is no filename parameter. */
  predicate Tame(c: Config, junk: string) {
    !Occurs(Retained(c, junk + c.boundary), FILENAME_KEY)
  }

  /** Every part has a proper header block, and what is searched before it is tame. */
  predicate TameParts(c: Config, s: Scan, junk: string, parts: seq<Part>)
    decreases |parts|
  {
    parts != [] ==>
      && ProperHead(c, parts[0]) && Tame(c, junk)
      && TameParts(c, Deliver(c, s, parts[0]), JunkAfter(c, s, parts[0]), parts[1..])
  }

  /** No blank line comes between a boundary in the preamble or in a refused content and the next header
      block or, in the end, behind it; and no accepted content contains the delimiter. */
  predicate Undisturbed(c: Config, s: Scan, junk: string, parts: seq<Part>, tail: string)
    decreases |parts|
  {
    if parts == [] then Quiet(c, junk + (c.boundary + tail))
    else
      && Unbroken(c, junk, parts[0])
      && (Accepted(s.store, parts[0].name) ==> !Occurs(parts[0].content, c.Delimiter()))
      && Undisturbed(c, Deliver(c, s, parts[0]), JunkAfter(c, s, parts[0]), parts[1..], tail)
  }

  /** Skipping goes on from the first boundary, which is that of `p` or a stray one before it. */
  lemma SoughtIs(c: Config, junk: string, p: Part) returns (stray: string)
    ensures Sought(c, junk, p) == stray + (HeadText(c, p) + HEAD_END)
    ensures Find(Sought(c, junk, p), c.boundary) == 0
    ensures Retained(c, junk + c.boundary) == stray + c.boundary
  {
    var text, marked := HeadText(c, p) + HEAD_END, junk + c.boundary;
    var rest := text[|c.boundary|..];
    assert text == c.boundary + rest;
    assert marked[|junk|..|junk| + |c.boundary|] == c.boundary;
    FindIsFirst(marked, c.boundary, 0);
    assert OccursAt(marked, c.boundary, |junk|);
    JoinsToRight(junk, c.boundary, rest);
    FoundIsRetained(c, marked, rest);
    stray := junk[Find(marked, c.boundary)..];
    assert Retained(c, marked) == stray + c.boundary;
    JoinsToRight(stray, c.boundary, rest);
    RetainedSettles(c, junk + text);
  }

  /** No occurrence can lie across the joint of `a` and `b` if the pattern lacks the first character of `b`. */
  lemma FoundBehind(a: string, b: string, p: string)
    requires p != "" && b != "" && !Occurs(a, p) && b[0] !in p
    ensures Find(a + b, p) == if Occurs(b, p) then |a| + Find(b, p) else -1
  {
    FindIsFirst(a, p, 0);
    forall i | 0 <= i < |a|
      ensures !OccursAt(a + b, p, i)
    {
      if i + |p| <= |a| {
        OccursAtExtend(a, b, p, i);
      } else if OccursAt(a + b, p, i) {
        CharUnder(a + b, p, i, |a|);
      }
    }
    FindDrop(a + b, |a|, p);
    assert (a + b)[|a|..] == b;
  }

  lemma TextLandmarks(c: Config, p: Part)
    requires Plain(c) && ProperHead(c, p)
    ensures var text := HeadText(c, p) + HEAD_END;
            && text[0] == '-' && Find(text, HEAD_END) == |HeadText(c, p)|
            && Find(text, FILENAME_KEY) == |c.boundary + p.lead| < |HeadText(c, p)|
  {
    HeadFound(c, p, "");
    assert HeadText(c, p) + HEAD_END + "" == HeadText(c, p) + HEAD_END;
    assert HeadText(c, p)[0] == c.boundary[0];
  }

  /** Where the searches land in what skipping has in hand. */
  lemma SoughtLandmarks(c: Config, junk: string, p: Part) returns (stray: string)
    requires Plain(c) && ProperHead(c, p) && Tame(c, junk)
    ensures Sought(c, junk, p) == stray + (HeadText(c, p) + HEAD_END)
    ensures Find(Sought(c, junk, p), c.boundary) == 0
    ensures Find(Sought(c, junk, p), FILENAME_KEY) == |stray| + |c.boundary + p.lead|
    ensures Find(Sought(c, junk, p), HEAD_END)
         == if Occurs(stray, HEAD_END) then Find(stray, HEAD_END) else |stray| + |HeadText(c, p)|
  {
    stray := SoughtIs(c, junk, p);
    var text := HeadText(c, p) + HEAD_END;
    TextLandmarks(c, p);
    if Occurs(stray, FILENAME_KEY) {
      FindExtend(stray, c.boundary, FILENAME_KEY, 0);
    }
    FoundBehind(stray, text, FILENAME_KEY);
    if Occurs(stray, HEAD_END) {
      FindExtend(stray, text, HEAD_END, 0);
    } else {
      FoundBehind(stray, text, HEAD_END);
    }
  }

  lemma StrayBrackets(c: Config, p: Part, stray: string)
    ensures stray + (HeadText(c, p) + HEAD_END)
         == stray + (c.boundary + p.lead + FILENAME_KEY) + p.name + QUOTE + (p.trail + HEAD_END)
  {
  }

  lemma ClosedNameIsRead(buf: string, lead: string, name: string, rest: string, h: nat)
    requires buf == lead + name + QUOTE + rest && '"' !in name && |lead| + |name| <= h
    requires Find(buf, HEAD_END) == h == |buf| - |HEAD_END|
    requires |lead| >= |FILENAME_KEY| && Find(buf, FILENAME_KEY) == |lead| - |FILENAME_KEY|
    ensures ReadHead(buf) == Named(name, |buf|)
  {
    NameIsRead(lead, name, rest, h);
  }

  lemma StrayHeadIsRead(c: Config, p: Part, stray: string, buf: string)
    requires '"' !in p.name && buf == stray + (HeadText(c, p) + HEAD_END)
    requires Find(buf, FILENAME_KEY) == |stray| + |c.boundary + p.lead|
    requires Find(buf, HEAD_END) == |stray| + |HeadText(c, p)|
    ensures ReadHead(buf) == Named(p.name, |buf|)
  {
    var lead := stray + (c.boundary + p.lead + FILENAME_KEY);
    StrayBrackets(c, p, stray);
    ClosedNameIsRead(buf, lead, p.name, p.trail + HEAD_END, |stray| + |HeadText(c, p)|);
  }

  /** Without a stray filename parameter, the header block of `p` is the next one read if no blank line comes
      too early, and otherwise the message is malformed: its filename parameter is behind the blank line. */
  lemma ReadIffUnbroken(c: Config, junk: string, p: Part)
    requires Plain(c) && ProperHead(c, p) && Tame(c, junk)
    ensures var buf := Sought(c, junk, p);
            ReadHead(buf) == if Unbroken(c, junk, p) then Named(p.name, |buf|) else Malformed
  {
    var stray := SoughtLandmarks(c, junk, p);
    if Unbroken(c, junk, p) {
      StrayHeadIsRead(c, p, stray, Sought(c, junk, p));
    } else {
      TextLandmarks(c, p);
    }
  }

  lemma BrokenRejects(c: Config, s: Scan, junk: string, p: Part, rest: string)
    requires Plain(c) && ProperHead(c, p) && Tame(c, junk) && !Unbroken(c, junk, p)
    requires !s.store.full && s.open == "" && s.body == ""
    ensures Parse(c, Seeking(s, junk, EncodePart(c, p) + rest)) == (s, false)
  {
    var text, content := junk + (HeadText(c, p) + HEAD_END), p.content + SEP + rest;
    var stray := SoughtIs(c, junk, p);
    ReadIffUnbroken(c, junk, p);
    SkipExtends(c, s.(body := text), content);
    Brackets(c, p, rest);
    JoinsToRight(junk, HeadText(c, p) + HEAD_END, content);
  }

  /** An accepted content with the delimiter in it is cut off there, for good. */
  lemma UncleanShows(c: Config, s: Scan, junk: string, p: Part, rest: string, all: Scan)
    requires Plain(c) && !s.store.full && s.open == "" && Passes(c, junk, p)
    requires Accepted(s.store, p.name) && Occurs(p.content, c.Delimiter())
    requires p.name in all.store.files && all.store.files[p.name] == p.content
    ensures Parse(c, Seeking(s, junk, EncodePart(c, p) + (c.boundary + rest))).0.store != all.store
  {
    var t := OpenFile(s, p.name, p.content + SEP + (c.boundary + rest));
    PartHeadReached(c, s, junk, p, c.boundary + rest);
    ParseGoesOn(c, Seeking(s, junk, EncodePart(c, p) + (c.boundary + rest)));
    FindExtend(p.content, SEP + (c.boundary + rest), c.Delimiter(), 0);
    JoinsToRight(p.content, SEP, c.boundary + rest);
    ParsedFate(c, t);
  }

  lemma DeliveredThere(c: Config, s: Scan, parts: seq<Part>)
    requires parts != [] && Accepted(s.store, parts[0].name)
    ensures var store := DeliverAll(c, s, parts).store;
            parts[0].name in store.files && store.files[parts[0].name] == parts[0].content
  {
    DeliverAllKeeps(c, Deliver(c, s, parts[0]), parts[1..], parts[0].name);
  }

  /** A text of parts is delivered, and nothing else happens, if and only if nothing disturbs it. */
  lemma {:induction false} PartsDeliveredIff(c: Config, s: Scan, junk: string, parts: seq<Part>, tail: string)
    requires Plain(c) && !s.store.full && s.open == "" && s.body == "" && tail != "" && TameParts(c, s, junk, parts)
    ensures Observed(Fed(Parse(c, Seeking(s, junk, EncodeParts(c, parts) + (c.boundary + tail)))))
         == (DeliverAll(c, s, parts), false)
       <==> Undisturbed(c, s, junk, parts, tail)
    decreases |parts|
  {
    if parts == [] {
      assert EncodeParts(c, parts) + (c.boundary + tail) == c.boundary + tail;
      QuietIff(c, s, junk + (c.boundary + tail));
    } else {
      var p := parts[0];
      var rest := EncodeParts(c, parts[1..]) + (c.boundary + tail);
      var after := NextBoundary(c, parts[1..], tail);
      JoinsToRight(EncodePart(c, p), EncodeParts(c, parts[1..]), c.boundary + tail);
      ReadIffUnbroken(c, junk, p);
      if !Unbroken(c, junk, p) {
        BrokenRejects(c, s, junk, p, rest);
      } else if Accepted(s.store, p.name) && Occurs(p.content, c.Delimiter()) {
        DeliveredThere(c, s, parts);
        UncleanShows(c, s, junk, p, after, DeliverAll(c, s, parts));
      } else {
        PartDelivered(c, s, junk, p, after);
        PartsDeliveredIff(c, Deliver(c, s, p), JunkAfter(c, s, p), parts[1..], tail);
      }
    }
  }

  /** Uploading the encoding of any parts, cut in any way, delivers every part: each accepted name holds
      exactly its content, and the others are reported as failed, in order. This holds if and only if
      the searches are not disturbed: the code looks for header blocks in the preamble, in refused
      contents and in the epilogue too. */
  lemma UploadRoundTrip(c: Config, m: Message, preamble: string, parts: seq<Part>, epilogue: string, xs: seq<string>)
    requires Plain(c) && IsNew(m) && TameParts(c, m.scan, preamble, parts)
    requires xs != [] && Concat(xs) == Encode(c, preamble, parts, epilogue)
    ensures Observed(OnBodyAll(c, m, xs)) == (DeliverAll(c, m.scan, parts), false)
       <==> Undisturbed(c, m.scan, preamble, parts, CLOSE + epilogue)
  {
    JoinsToRight(c.boundary, CLOSE, epilogue);
    Received(c, m, preamble, parts, CLOSE + epilogue, xs);
    PartsDeliveredIff(c, m.scan, preamble, parts, CLOSE + epilogue);
  }

  lemma {:induction false} DeliverAllReports(c: Config, s: Scan, parts: seq<Part>)
    ensures Heads(DeliverAll(c, s, parts)) == Heads(s) + |parts|
    decreases |parts|
  {
    if parts != [] {
      DeliverAllReports(c, Deliver(c, s, parts[0]), parts[1..]);
    }
  }

  lemma EncodedInFront(c: Config, p: Part, parts: seq<Part>, epilogue: string)
    ensures Encode(c, "", [p] + parts, epilogue) == Encode(c, EncodePart(c, p), parts, epilogue)
  {
    assert ([p] + parts)[1..] == parts;
    var all := EncodeParts(c, [p] + parts);
    assert all == EncodePart(c, p) + EncodeParts(c, parts) && "" + all == all;
  }

  lemma DeliveredInFront(c: Config, s: Scan, p: Part, parts: seq<Part>)
    ensures DeliverAll(c, s, [p] + parts) == DeliverAll(c, Deliver(c, s, p), parts)
  {
    assert ([p] + parts)[1..] == parts;
  }

  /** A stray filename parameter is another matter: a preamble that reads as a part is delivered as one. */
  lemma PreamblePartDelivered(c: Config, m: Message, p: Part, parts: seq<Part>, epilogue: string, xs: seq<string>)
    requires Plain(c) && IsNew(m) && TameParts(c, m.scan, "", [p] + parts)
    requires Undisturbed(c, m.scan, "", [p] + parts, CLOSE + epilogue)
    requires xs != [] && Concat(xs) == Encode(c, EncodePart(c, p), parts, epilogue)
    ensures Observed(OnBodyAll(c, m, xs)) == (DeliverAll(c, Deliver(c, m.scan, p), parts), false)
    ensures Observed(OnBodyAll(c, m, xs)) != (DeliverAll(c, m.scan, parts), false)
  {
    EncodedInFront(c, p, parts, epilogue);
    UploadRoundTrip(c, m, "", [p] + parts, epilogue, xs);
    DeliveredInFront(c, m.scan, p, parts);
    DeliverAllReports(c, Deliver(c, m.scan, p), parts);
    DeliverAllReports(c, m.scan, parts);
  }

  // ---- Parts without stray boundaries ----

  lemma SkippablePasses(c: Config, junk: string, p: Part)
    requires Skippable(c, junk) && ProperHead(c, p)
    ensures Passes(c, junk, p)
  {
    var head := HeadText(c, p) + HEAD_END;
    assert head == c.boundary + head[|c.boundary|..];
    JunkIsDropped(c, junk, head[|c.boundary|..]);
    HeadIsRead(c, p, "");
    assert head + "" == head;
  }

  lemma JunkAfterSkippable(c: Config, s: Scan, p: Part)
    requires Plain(c) && CleanContent(c, s, p)
    ensures Skippable(c, JunkAfter(c, s, p))
  {
    if Accepted(s.store, p.name) {
      assert "" + SEP == SEP && Find("", c.boundary) == -1;
      LineBreakSkippable(c, "");
    } else {
      LineBreakSkippable(c, p.content);
    }
  }

  lemma {:induction false} ProperConforms(c: Config, s: Scan, junk: string, parts: seq<Part>)
    requires Plain(c) && Skippable(c, junk) && ProperParts(c, s, parts)
    ensures Conforms(c, s, junk, parts) && Skippable(c, LastJunk(c, s, junk, parts))
    decreases |parts|
  {
    if parts != [] {
      SkippablePasses(c, junk, parts[0]);
      JunkAfterSkippable(c, s, parts[0]);
      ProperConforms(c, Deliver(c, s, parts[0]), JunkAfter(c, s, parts[0]), parts[1..]);
    }
  }

  /** With the boundary neither in the preamble nor in a refused content, and clean contents, all that can
      disturb is a blank line behind the close delimiter: the epilogue is searched for a header block. */
  lemma ProperRoundTrip(c: Config, m: Message, preamble: string, parts: seq<Part>, epilogue: string, xs: seq<string>)
    requires Plain(c) && IsNew(m) && Skippable(c, preamble) && ProperParts(c, m.scan, parts)
    requires xs != [] && Concat(xs) == Encode(c, preamble, parts, epilogue)
    ensures Observed(OnBodyAll(c, m, xs)) == (DeliverAll(c, m.scan, parts), false)
       <==> !Occurs(c.boundary + CLOSE + epilogue, HEAD_END)
  {
    ProperConforms(c, m.scan, preamble, parts);
    DeliveredIffQuiet(c, m, preamble, parts, epilogue, xs);
    JoinsToRight(c.boundary, CLOSE, epilogue);
    QuietAfterJunk(c, LastJunk(c, m.scan, preamble, parts), CLOSE + epilogue);
  }

  lemma QuietAfterJunk(c: Config, junk: string, rest: string)
    requires Skippable(c, junk)
    ensures Quiet(c, junk + (c.boundary + rest)) <==> !Occurs(c.boundary + rest, HEAD_END)
  {
    var all := junk + (c.boundary + rest);
    JoinsToRight(junk, c.boundary, rest);
    FindExtend(junk + c.boundary, rest, c.boundary, 0);
    assert all[|junk|..] == c.boundary + rest;
  }

  // ---- A part without a filename ----

  /** A header block without a filename parameter, whatever follows it. */
  predicate Nameless(c: Config, text: string) {
    var head := c.boundary + text + HEAD_END;
    Find(head, HEAD_END) == |c.boundary + text| && !Occurs(head, FILENAME_KEY)
  }

  lemma NamelessIsMalformed(c: Config, text: string, rest: string)
    requires Nameless(c, text)
    ensures ReadHead(c.boundary + text + HEAD_END + rest) == Malformed
  {
    var head := c.boundary + text + HEAD_END;
    FindExtend(head, rest, HEAD_END, 0);
    FindInHeadExtends(head, rest, |c.boundary + text|, FILENAME_KEY, 0);
  }

  lemma NamelessReached(c: Config, s: Scan, junk: string, text: string, rest: string)
    requires !s.store.full && s.open == "" && s.body == "" && Skippable(c, junk) && Nameless(c, text)
    ensures Parse(c, Seeking(s, junk, c.boundary + (text + HEAD_END + rest))) == (s, false)
  {
    JoinsToRight(c.boundary, text, HEAD_END);
    JoinsToRight(c.boundary, text + HEAD_END, rest);
    JunkIsDropped(c, junk, text + HEAD_END + rest);
    NamelessIsMalformed(c, text, rest);
  }

  /** A part without a filename rejects the message, cut in any way: the parts before it stay
      delivered, and nothing after it is looked at. */
  lemma NamelessPartRejects(c: Config, m: Message, preamble: string, parts: seq<Part>, text: string, rest: string,
                            xs: seq<string>)
    requires Plain(c) && IsNew(m) && Skippable(c, preamble) && ProperParts(c, m.scan, parts) && Nameless(c, text)
    requires xs != [] && Concat(xs) == preamble + EncodeParts(c, parts) + (c.boundary + (text + HEAD_END + rest))
    ensures Observed(OnBodyAll(c, m, xs)) == (DeliverAll(c, m.scan, parts), true)
  {
    ProperConforms(c, m.scan, preamble, parts);
    UploadReaches(c, m, preamble, parts, text + HEAD_END + rest, xs);
    NamelessReached(c, DeliverAll(c, m.scan, parts), LastJunk(c, m.scan, preamble, parts), text, rest);
  }

  /** Text without a quotation mark or a carriage return names no file. */
  lemma UnquotedIsNameless(c: Config, text: string)
    requires Plain(c) && '"' !in c.boundary && '"' !in text && '\r' !in text
    ensures Nameless(c, text)
  {
    var before, head := c.boundary + text, c.boundary + text + HEAD_END;
    forall i | 0 <= i < |head| && i < |before|
      ensures !OccursAt(head, HEAD_END, i)
    {
      assert head[i] == before[i] && head[i] != '\r';
      if OccursAt(head, HEAD_END, i) { CharUnder(head, HEAD_END, i, i); }
    }
    assert head[|before|..|before| + |HEAD_END|] == HEAD_END;
    FirstIsFound(head, HEAD_END, 0, |before|);
    var key := Find(head, FILENAME_KEY);
    if key != -1 {
      CharUnder(head, FILENAME_KEY, key, key + |FILENAME_KEY| - 1);
    }
  }

  /** A blank line as epilogue: every part is delivered, and the message is rejected all the same. */
  lemma BlankEpilogueRejects(c: Config, m: Message, preamble: string, parts: seq<Part>, xs: seq<string>)
    requires Plain(c) && '"' !in c.boundary && IsNew(m) && Skippable(c, preamble) && ProperParts(c, m.scan, parts)
    requires xs != [] && Concat(xs) == Encode(c, preamble, parts, HEAD_END)
    ensures Observed(OnBodyAll(c, m, xs)) == (DeliverAll(c, m.scan, parts), true)
  {
    UnquotedIsNameless(c, CLOSE);
    assert c.boundary + CLOSE + HEAD_END == c.boundary + (CLOSE + HEAD_END + "");
    NamelessPartRejects(c, m, preamble, parts, CLOSE, "", xs);
  }

  // ---- A refused part ----

  lemma OneRefusedPart(c: Config, s: Scan, p: Part)
    requires Plain(c) && ProperHead(c, p) && !Accepted(s.store, p.name)
    ensures Conforms(c, s, "", [p]) && LastJunk(c, s, "", [p]) == p.content + SEP
    ensures DeliverAll(c, s, [p]) == s.(failures := s.failures + [p.name])
    ensures EncodeParts(c, [p]) == EncodePart(c, p)
  {
    assert [p][1..] == [];
    assert "" + c.boundary == c.boundary && c.boundary[0..|c.boundary|] == c.boundary;
    FirstIsFound(c.boundary, c.boundary, 0, 0);
    SkippablePasses(c, "", p);
    assert Conforms(c, Deliver(c, s, p), JunkAfter(c, s, p), []);
    assert LastJunk(c, Deliver(c, s, p), JunkAfter(c, s, p), []) == p.content + SEP;
    assert DeliverAll(c, Deliver(c, s, p), []) == Deliver(c, s, p);
    assert EncodePart(c, p) + "" == EncodePart(c, p);
  }

  /** A refused part, last in its message, is reported as failed and nothing else happens if and only
      if no blank line follows the first boundary in its content and the bytes after it. */
  lemma RefusedPartIff(c: Config, m: Message, p: Part, epilogue: string, xs: seq<string>)
    requires Plain(c) && IsNew(m) && ProperHead(c, p) && !Accepted(m.scan.store, p.name)
    requires xs != [] && Concat(xs) == Encode(c, "", [p], epilogue)
    ensures Observed(OnBodyAll(c, m, xs)) == (m.scan.(failures := m.scan.failures + [p.name]), false)
       <==> Quiet(c, p.content + SEP + (c.boundary + CLOSE + epilogue))
  {
    OneRefusedPart(c, m.scan, p);
    DeliveredIffQuiet(c, m, "", [p], epilogue, xs);
  }

  /** The scanner in the content of a refused part that consists of the boundary and a blank line. */
  lemma BlankContentReached(c: Config, s: Scan, rest: string)
    requires Plain(c) && '"' !in c.boundary && !s.store.full && s.open == "" && s.body == ""
    ensures Parse(c, s.(body := c.boundary + HEAD_END + rest)) == (s, false)
  {
    var buf := c.boundary + HEAD_END + rest;
    UnquotedIsNameless(c, "");
    assert c.boundary + "" == c.boundary;
    NamelessIsMalformed(c, "", rest);
    assert buf[0..|c.boundary|] == c.boundary && buf[0..] == buf;
    FirstIsFound(buf, c.boundary, 0, 0);
  }

  /** A preamble that is the boundary and a blank line: the message is rejected before its first part. */
  lemma BlankPreambleRejects(c: Config, m: Message, parts: seq<Part>, epilogue: string, xs: seq<string>)
    requires Plain(c) && '"' !in c.boundary && IsNew(m)
    requires xs != [] && Concat(xs) == Encode(c, c.boundary + HEAD_END, parts, epilogue)
    ensures Observed(OnBodyAll(c, m, xs)) == (m.scan, true)
  {
    var rest := EncodeParts(c, parts) + (c.boundary + CLOSE + epilogue);
    JoinsToRight(c.boundary + HEAD_END, EncodeParts(c, parts), c.boundary + CLOSE + epilogue);
    OnBodyAllFeeds(c, m, xs);
    FedFromStart(c, m, c.boundary + HEAD_END, rest);
    BlankContentReached(c, m.scan, rest);
  }

  /** A refused part whose content is the boundary and a blank line: the message is rejected. */
  lemma RefusedContentRejects(c: Config, m: Message, p: Part, epilogue: string, xs: seq<string>)
    requires Plain(c) && '"' !in c.boundary && IsNew(m) && ProperHead(c, p) && !Accepted(m.scan.store, p.name)
    requires p.content == c.boundary + HEAD_END
    requires xs != [] && Concat(xs) == Encode(c, "", [p], epilogue)
    ensures Observed(OnBodyAll(c, m, xs)) == (m.scan.(failures := m.scan.failures + [p.name]), true)
  {
    var rest := SEP + (c.boundary + (CLOSE + epilogue));
    OneRefusedPart(c, m.scan, p);
    JoinsToRight(c.boundary, CLOSE, epilogue);
    UploadReaches(c, m, "", [p], CLOSE + epilogue, xs);
    JoinsToRight(p.content, SEP, c.boundary + (CLOSE + epilogue));
    BlankContentReached(c, m.scan.(failures := m.scan.failures + [p.name]), rest);
  }

  // ---- The plain case: distinct names that are free ----

  function Names(parts: seq<Part>): seq<string> {
    if parts == [] then [] else [parts[0].name] + Names(parts[1..])
  }

  predicate FreshNames(store: State, parts: seq<Part>) {
    && (forall i :: 0 <= i < |parts| ==> Accepted(store, parts[i].name))
    && (forall i, j :: 0 <= i < j < |parts| ==> parts[i].name != parts[j].name)
  }

  predicate StoredAs(c: Config, store: State, p: Part) {
    && p.name in store.files && store.files[p.name] == p.content
    && p.name in store.entries && store.entries[p.name] == Complete(Info(|p.content|, c.now))
  }

  /** With distinct names that are valid and free, all parts succeed, in order, and each one's
      content is on the disk and complete under its name. */
  lemma {:induction false} FreshPartsAllStored(c: Config, s: Scan, parts: seq<Part>)
    requires FreshNames(s.store, parts)
    ensures var t := DeliverAll(c, s, parts);
            && t.successes == s.successes + Names(parts) && t.failures == s.failures
            && forall i :: 0 <= i < |parts| ==> StoredAs(c, t.store, parts[i])
    decreases |parts|
  {
    if parts != [] {
      var t := Deliver(c, s, parts[0]);
      var rest := parts[1..];
      assert forall i :: 0 <= i < |rest| ==> rest[i] == parts[i + 1];
      FreshPartsAllStored(c, t, rest);
      DeliverAllKeeps(c, t, rest, parts[0].name);
      forall i | 0 <= i < |parts|
        ensures StoredAs(c, DeliverAll(c, s, parts).store, parts[i])
      {
        assert i > 0 ==> parts[i] == rest[i - 1];
      }
    }
  }

  /** For one accepted part, the bytes stored are the content if and only if the content does
      not contain the delimiter. */
  lemma ContentStoredIffClean(c: Config, m: Message, content: string, rest: string, xs: seq<string>)
    requires Plain(c) && !m.rejected && !m.scan.store.full && Writing(m.scan)
    requires m.scan.body == "" && m.scan.store.files[m.scan.open] == "" && rest != ""
    requires xs != [] && Concat(xs) == content + c.Delimiter() + rest
    ensures var t := OnBodyAll(c, m, xs).scan.store;
            var f := m.scan.open;
            && IsValidFile(t, f) && f in t.files
            && (t.files[f] == content <==> !Occurs(content, c.Delimiter()))
  {
    var stream := content + c.Delimiter() + rest;
    OpenFileFate(c, m, xs);
    assert m.scan.body + Concat(xs) == stream;
    DelimiterAfterContent(c, content, rest);
    var end := Find(stream, c.Delimiter());
    FindIsFirst(stream, c.Delimiter(), 0);
    assert stream[|content|..|content| + |c.Delimiter()|] == c.Delimiter();
    assert OccursAt(stream, c.Delimiter(), |content|);
    assert stream[..|content|] == content;
    assert "" + stream[..end] == stream[..end];
  }
}
