/** The theorems about whole uploads, for any body and any way of cutting it. */
module UploadTheorems {
  import opened Search
  import opened Registry
  import opened Scanner
  import opened SettledScanner
  import opened Wrappers

  function SettledMessage(c: Config, m: Message): Message {
    Message(Settled(c, m.scan, !m.rejected), m.rejected)
  }

  /** `OnBody` on settled messages. */
  function Feed(c: Config, m: Message, y: string): Message
    requires !m.scan.store.full
  {
    if m.rejected then m else
    var (t, ok) := Parse(c, Extend(m.scan, y));
    Message(t, !ok)
  }

  lemma OnBodyFeeds(c: Config, m: Message, y: string)
    requires Plain(c) && !m.scan.store.full
    ensures SettledMessage(c, OnBody(c, m, y)) == Feed(c, SettledMessage(c, m), y)
    ensures !OnBody(c, m, y).scan.store.full
  {
    if !m.rejected {
      ScannerIsParse(c, Extend(m.scan, y));
      if m.scan.open == "" {
        ParseRetained(c, m.scan, y);
      }
    }
  }

  lemma FeedTwice(c: Config, m: Message, x: string, y: string)
    requires !m.scan.store.full
    ensures !Feed(c, m, x).scan.store.full
    ensures Feed(c, Feed(c, m, x), y) == Feed(c, m, x + y)
  {
    if !m.rejected {
      ExtendTwice(m.scan, x, y);
      ParseExtends(c, Extend(m.scan, x), y);
    }
  }

  lemma ExtendTwice(s: Scan, x: string, y: string)
    ensures Extend(Extend(s, x), y) == Extend(s, x + y)
  {
    assert s.body + x + y == s.body + (x + y);
  }

  lemma {:induction false} OnBodyAllFeeds(c: Config, m: Message, xs: seq<string>)
    requires Plain(c) && !m.scan.store.full && xs != []
    ensures SettledMessage(c, OnBodyAll(c, m, xs)) == Feed(c, SettledMessage(c, m), Concat(xs))
    decreases |xs|
  {
    var m1 := OnBody(c, m, xs[0]);
    OnBodyFeeds(c, m, xs[0]);
    if |xs| == 1 {
      assert Concat(xs) == xs[0];
    } else {
      OnBodyAllFeeds(c, m1, xs[1..]);
      FeedTwice(c, SettledMessage(c, m), xs[0], Concat(xs[1..]));
    }
  }

  /** Everything a client or another connection can see of an upload. */
  function Observed(m: Message): (Scan, bool) {
    (m.scan.(body := ""), m.rejected)
  }

  /** How far two buffers may differ: not at all while a file is open, otherwise by at most two
      bytes at the front of what both retain. */
  predicate SameTail(c: Config, m: Message, n: Message) {
    if m.scan.open != "" then m.scan.body == n.scan.body
    else
      var tail := Retained(c, m.scan.body);
      && Retained(c, n.scan.body) == tail
      && |tail| <= |m.scan.body| <= |tail| + |SEP| && |tail| <= |n.scan.body| <= |tail| + |SEP|
  }

  lemma {:induction false} SkipBufferBound(c: Config, s: Scan)
    requires Plain(c)
    ensures var (t, ok) := ProcessUploadBody(c, s);
            && (ok && t.open != "" ==> |t.body| <= |c.Delimiter()|)
            && (ok && t.open == "" ==> |Retained(c, t.body)| <= |t.body| <= |Retained(c, t.body)| + |SEP|)
    decreases |s.body|, if s.open != "" then 1 else 0
  {
    if |s.body| > |c.Delimiter()| {
      match Iteration(c, s)
      case More(t) =>
        IterationShrinks(c, s);
        SkipBufferBound(c, t);
      case Stop(t) => RetainedSettles(c, s.body);
      case Reject(t) =>
    }
  }

  /** The outcome of an upload is a function of its bytes: any cutting of a body gives what
      the body gives in one piece. */
  lemma ChunkIndependence(c: Config, m: Message, xs: seq<string>)
    requires Plain(c) && !m.scan.store.full && xs != []
    ensures var a := OnBodyAll(c, m, xs);
            var b := OnBody(c, m, Concat(xs));
            Observed(a) == Observed(b) && (!a.rejected ==> SameTail(c, a, b))
  {
    var a := OnBodyAll(c, m, xs);
    var b := OnBody(c, m, Concat(xs));
    OnBodyAllFeeds(c, m, xs);
    OnBodyFeeds(c, m, Concat(xs));
    LastBufferBound(c, m, xs);
    if !m.rejected {
      SkipBufferBound(c, Extend(m.scan, Concat(xs)));
    }
  }

  lemma {:induction false} LastBufferBound(c: Config, m: Message, xs: seq<string>)
    requires Plain(c) && xs != []
    ensures var a := OnBodyAll(c, m, xs);
            && (!a.rejected && a.scan.open != "" ==> |a.scan.body| <= |c.Delimiter()|)
            && (!a.rejected && a.scan.open == "" ==>
                  |Retained(c, a.scan.body)| <= |a.scan.body| <= |Retained(c, a.scan.body)| + |SEP|)
    decreases |xs|
  {
    var m1 := OnBody(c, m, xs[0]);
    if |xs| == 1 {
      assert OnBodyAll(c, m, xs) == m1;
      if !m.rejected {
        SkipBufferBound(c, Extend(m.scan, xs[0]));
      }
    } else {
      LastBufferBound(c, m1, xs[1..]);
    }
  }

  // ---- What becomes of an open file ----

  /** The complete file `f` is the same in `t` as it was in `s`. */
  predicate Unmoved(s: Scan, t: Scan, f: string)
    requires f in s.store.entries && f in s.store.files
  {
    && f in t.store.entries && t.store.entries[f] == s.store.entries[f]
    && f in t.store.files && t.store.files[f] == s.store.files[f]
    && t.open != f && s.successes <= t.successes
  }

  lemma OpeningLeavesComplete(s: Scan, name: string, rest: string, f: string)
    requires IsValidFile(s.store, f) && f in s.store.files && s.open == "" && f != ""
    ensures Unmoved(s, OpenFile(s, name, rest), f)
  {
  }

  lemma WritingLeavesComplete(c: Config, s: Scan, n: nat, f: string)
    requires !s.store.full && IsValidFile(s.store, f) && f in s.store.files && s.open != f && f != "" && n <= |s.body|
    ensures Unmoved(s, Written(s, n), f) && Unmoved(s, CloseFile(c, s), f) && Unmoved(s, CloseFile(c, Written(s, n)), f)
  {
  }

  lemma StepLeavesComplete(c: Config, s: Scan, f: string)
    requires !s.store.full && IsValidFile(s.store, f) && f in s.store.files && s.open != f && f != ""
    ensures Unmoved(s, if GoesOn(c, s) then Onward(c, s) else Parse(c, s).0, f)
  {
    if s.open == "" {
      if GoesOn(c, s) {
        var buf := Retained(c, s.body);
        OpeningLeavesComplete(s, HeadIn(c, buf).name, buf[HeadIn(c, buf).after..], f);
      }
    } else if |s.body| > |c.Delimiter()| {
      WritingLeavesComplete(c, s, Writable(c, s.body), f);
      if Writable(c, s.body) > 0 {
        IterationWrites(c, s);
      }
    }
  }

  /** Parsing never touches a file that is already complete. */
  lemma {:induction false} CompleteStaysPut(c: Config, s: Scan, f: string)
    requires !s.store.full && IsValidFile(s.store, f) && f in s.store.files && s.open != f && f != ""
    ensures Unmoved(s, Parse(c, s).0, f)
    decreases |s.body|, if s.open != "" then 1 else 0
  {
    StepLeavesComplete(c, s, f);
    if GoesOn(c, s) {
      ParseGoesOn(c, s);
      CompleteStaysPut(c, Onward(c, s), f);
    }
  }

  predicate Writing(s: Scan) {
    s.open != "" && IsPending(s.store, s.open) && s.open in s.store.files
  }

  /** How many bytes of a stream without a delimiter are on the disk: all but the last few. */
  function Flushed(c: Config, stream: string): (n: nat)
    ensures n <= |stream|
  {
    if |stream| <= |c.Delimiter()| then 0 else |stream| - |c.Delimiter()|
  }

  /** No delimiter has come yet, with a byte more than a delimiter in hand. */
  predicate Unended(c: Config, stream: string) {
    |stream| <= |c.Delimiter()| || Find(stream, c.Delimiter()) == -1
  }

  /** The fate of a file `f` that held `before`, once the bytes `stream` are known to follow: it ends
      at the first delimiter, and until one has come nothing is lost between the disk and the buffer. */
  predicate Fate(c: Config, f: string, before: string, stream: string, m: Message) {
    if Unended(c, stream) then
      && !m.rejected && m.scan.open == f && Writing(m.scan)
      && m.scan.store.files[f] == before + stream[..Flushed(c, stream)]
      && m.scan.body == stream[Flushed(c, stream)..]
    else
      var end := Find(stream, c.Delimiter());
      && m.scan.open != f && IsValidFile(m.scan.store, f) && f in m.scan.store.files
      && m.scan.store.files[f] == before + stream[..end]
      && m.scan.store.entries[f].info == Info(|before| + end, c.now)
      && f in m.scan.successes
  }

  lemma ParsedFate(c: Config, s: Scan)
    requires !s.store.full && Writing(s)
    ensures var (t, ok) := Parse(c, s); Fate(c, s.open, s.store.files[s.open], s.body, Message(t, !ok))
  {
    if Unended(c, s.body) {
      FlushedInPlace(c, s);
    } else {
      ParseGoesOn(c, s);
      ClosedInPlace(c, s);
      CompleteStaysPut(c, Onward(c, s), s.open);
      StillListed(Onward(c, s).successes, Parse(c, s).0.successes, s.open);
    }
  }

  lemma StillListed(names: seq<string>, longer: seq<string>, f: string)
    requires names <= longer && names != [] && names[|names| - 1] == f
    ensures f in longer
  {
    assert longer[|names| - 1] == f;
  }

  /** The state when no delimiter has come. */
  lemma FlushedInPlace(c: Config, s: Scan)
    requires !s.store.full && Writing(s) && Unended(c, s.body)
    ensures var n := Flushed(c, s.body);
            var (t, ok) := Parse(c, s);
            && ok && t.open == s.open && Writing(t)
            && t.store.files[s.open] == s.store.files[s.open] + s.body[..n] && t.body == s.body[n..]
  {
    if |s.body| <= |c.Delimiter()| {
      assert s.body[..0] == "" && s.body[0..] == s.body;
    } else {
      ParseFlushes(c, s);
    }
  }

  /** The state right after the delimiter has been reached. */
  lemma ClosedInPlace(c: Config, s: Scan)
    requires !s.store.full && Writing(s) && GoesOn(c, s)
    ensures var t, f, end := Onward(c, s), s.open, Find(s.body, c.Delimiter());
            && t.open == "" && IsValidFile(t.store, f) && f in t.store.files
            && t.store.files[f] == s.store.files[f] + s.body[..end]
            && t.store.entries[f].info == Info(|s.store.files[f]| + end, c.now)
            && t.successes == s.successes + [f]
  {
    if Writable(c, s.body) > 0 {
      IterationWrites(c, s);
    } else {
      assert s.body[..0] == "";
    }
  }

  /** An upload stores exactly the bytes before the first delimiter, in whatever pieces they come. */
  lemma OpenFileFate(c: Config, m: Message, xs: seq<string>)
    requires Plain(c) && !m.scan.store.full && xs != [] && !m.rejected && Writing(m.scan)
    ensures Fate(c, m.scan.open, m.scan.store.files[m.scan.open], m.scan.body + Concat(xs), OnBodyAll(c, m, xs))
  {
    OnBodyAllFeeds(c, m, xs);
    ParsedFate(c, Extend(m.scan, Concat(xs)));
  }
}
