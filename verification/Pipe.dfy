/** The pipe through which workers tell the main thread what to do with a connection. */
module Pipe {
  import opened Search
  import opened Wrappers

  const COMMA := ","

  /** How often the use count of a descriptor wraps round. */
  const WRAP := 10000

  // ---- Numbers and identifiers ----

  function Digit(n: nat): char
    requires n < 10
  {
    "0123456789"[n]
  }

  /** `std::to_string` */
  function Print(n: nat): string {
    if n < 10 then [Digit(n)] else Print(n / 10) + [Digit(n % 10)]
  }

  const INT_MAX := 0x7fff_ffff

  predicate IsDigit(c: char) {
    '0' <= c <= '9'
  }

  function SkipSpaces(s: string): string {
    if s != "" && (s[0] == ' ' || '\t' <= s[0] <= '\r') then SkipSpaces(s[1..]) else s
  }

  /** The digits at the start of a text. */
  function Digits(s: string): (ds: string)
    ensures forall i :: 0 <= i < |ds| ==> IsDigit(ds[i])
  {
    if s != "" && IsDigit(s[0]) then [s[0]] + Digits(s[1..]) else ""
  }

  function Number(ds: string): nat
    requires forall i :: 0 <= i < |ds| ==> IsDigit(ds[i])
  {
    if ds == "" then 0 else
    assert IsDigit(ds[|ds| - 1]);
    Number(ds[..|ds| - 1]) * 10 + (ds[|ds| - 1] as int - '0' as int)
  }

  /** `std::stoi`: spaces, a sign and digits, whatever follows them. None stands for an exception:
      there are no digits, or the number does not fit. */
  function Stoi(s: string): Option<int> {
    var t := SkipSpaces(s);
    var signed := t != "" && (t[0] == '-' || t[0] == '+');
    var ds := Digits(if signed then t[1..] else t);
    var v: int := if signed && t[0] == '-' then 0 - Number(ds) else Number(ds);
    if ds == "" || v > INT_MAX || v < -INT_MAX - 1 then None else Some(v)
  }

  /** `_net_fd_identifier` */
  function Identifier(fd: nat, useTime: nat): string {
    Print(fd) + "_" + Print(useTime)
  }

  datatype Message = Message(op: char, fd: nat, useTime: nat)

  /** The text between two commas is skipped, or makes `std::stoi` throw, or says what to do. */
  datatype Decoded = Skipped | Thrown | Told(op: char, fd: int, useTime: int)

  function Decode(text: string): Decoded {
    if |text| < 4 then Skipped else
    var id := text[1..];
    var pos := LastOf(id, '_');
    if pos == -1 then Skipped else
    var fd, useTime := Stoi(id[..pos]), Stoi(id[pos + 1..]);
    if fd == None || useTime == None then Thrown else Told(text[0], fd.value, useTime.value)
  }

  /** Descriptors and use counts are of type `int`. */
  predicate Fits(m: Message) {
    m.fd <= INT_MAX && m.useTime <= INT_MAX
  }

  function Encode(m: Message): string {
    [m.op] + Identifier(m.fd, m.useTime)
  }

  lemma {:induction false} PrintIsDigits(n: nat)
    ensures Print(n) != "" && forall i :: 0 <= i < |Print(n)| ==> '0' <= Print(n)[i] <= '9'
  {
    if n >= 10 {
      PrintIsDigits(n / 10);
    }
  }

  lemma {:induction false} DigitsOfDigits(s: string)
    requires forall i :: 0 <= i < |s| ==> IsDigit(s[i])
    ensures Digits(s) == s
  {
    if s != "" {
      DigitsOfDigits(s[1..]);
    }
  }

  lemma {:induction false} NumberOfPrint(n: nat)
    ensures forall i :: 0 <= i < |Print(n)| ==> IsDigit(Print(n)[i])
    ensures Number(Print(n)) == n
  {
    PrintIsDigits(n);
    if n >= 10 {
      var front := Print(n / 10);
      NumberOfPrint(n / 10);
      assert Print(n)[..|front|] == front;
    } else {
      assert Print(n)[..0] == "" && Number("") == 0;
    }
  }

  lemma StoiPrint(n: nat)
    requires n <= INT_MAX
    ensures Stoi(Print(n)) == Some(n)
  {
    PrintIsDigits(n);
    NumberOfPrint(n);
    DigitsOfDigits(Print(n));
    assert SkipSpaces(Print(n)) == Print(n);
  }

  lemma SplitAtMark(a: string, b: string, mark: char)
    requires forall i :: 0 <= i < |b| ==> b[i] != mark
    ensures var s := a + [mark] + b; LastOf(s, mark) == |a| && s[..|a|] == a && s[|a| + 1..] == b
  {
    var s := a + [mark] + b;
    forall i | |a| < i < |s|
      ensures s[i] != mark
    {
      assert s[i] == b[i - |a| - 1];
    }
    LastOfIs(s, mark, |a|);
  }

  /** Printing then parsing a message gives it back. */
  lemma DecodeEncode(m: Message)
    requires Fits(m)
    ensures Decode(Encode(m)) == Told(m.op, m.fd, m.useTime)
  {
    PrintIsDigits(m.fd);
    PrintIsDigits(m.useTime);
    StoiPrint(m.fd);
    StoiPrint(m.useTime);
    SplitAtMark(Print(m.fd), Print(m.useTime), '_');
    assert ['_'] == "_";
    assert Encode(m)[1..] == Identifier(m.fd, m.useTime);
  }

  /** A message's text has no comma in it, so a worker's write is one field. */
  lemma EncodedIsOneField(m: Message)
    requires m.op != ','
    ensures Fields(Encode(m) + COMMA) == [Encode(m)] && Rest(Encode(m) + COMMA) == ""
  {
    PrintIsDigits(m.fd);
    PrintIsDigits(m.useTime);
    var text, s := Encode(m), Encode(m) + COMMA;
    assert text == [m.op] + (Print(m.fd) + "_" + Print(m.useTime));
    forall i | 0 <= i < |text|
      ensures !OccursAt(s, COMMA, i)
    {
      assert s[i] == text[i] && text[i] != ',';
      assert s[i..i + 1] == [s[i]];
    }
    assert OccursAt(s, COMMA, |text|);
    FirstIsFound(s, COMMA, 0, |text|);
    assert s[..|text|] == text && s[|text| + 1..] == "";
  }

  // ---- Framing ----

  /** The texts that end in a comma. */
  function Fields(s: string): seq<string>
    decreases |s|
  {
    var pos := Find(s, COMMA);
    if pos == -1 then [] else [s[..pos]] + Fields(s[pos + 1..])
  }

  /** What follows the last comma. */
  function Rest(s: string): string
    decreases |s|
  {
    var pos := Find(s, COMMA);
    if pos == -1 then s else Rest(s[pos + 1..])
  }

  lemma FramesCons(a: string, b: string)
    requires Find(a, COMMA) != -1
    ensures var pos := Find(a, COMMA);
            && Fields(a + b) == [a[..pos]] + Fields(a[pos + 1..] + b)
            && Rest(a + b) == Rest(a[pos + 1..] + b)
  {
    var pos := Find(a, COMMA);
    FindExtend(a, b, COMMA, 0);
    assert (a + b)[..pos] == a[..pos];
    assert (a + b)[pos + 1..] == a[pos + 1..] + b;
  }

  /** Framing does not depend on where the bytes were cut. */
  lemma {:induction false} FramesAppend(a: string, b: string)
    ensures Fields(a + b) == Fields(a) + Fields(Rest(a) + b)
    ensures Rest(a + b) == Rest(Rest(a) + b)
    decreases |a|
  {
    var pos := Find(a, COMMA);
    if pos != -1 {
      FramesAppend(a[pos + 1..], b);
      FramesStep(a, b);
    }
  }

  lemma FramesStep(a: string, b: string)
    requires Find(a, COMMA) != -1
    requires var tail := a[Find(a, COMMA) + 1..];
             Fields(tail + b) == Fields(tail) + Fields(Rest(tail) + b) && Rest(tail + b) == Rest(Rest(tail) + b)
    ensures Fields(a + b) == Fields(a) + Fields(Rest(a) + b) && Rest(a + b) == Rest(Rest(a) + b)
  {
    var pos := Find(a, COMMA);
    var tail := a[pos + 1..];
    FramesCons(a, b);
    JoinsToRight([a[..pos]], Fields(tail), Fields(Rest(tail) + b));
  }

  lemma CommaFound(s: string)
    ensures var pos := Find(s, COMMA);
            && (pos == -1 ==> forall i :: 0 <= i < |s| ==> s[i] != ',')
            && (pos != -1 ==> 0 <= pos < |s| && s[pos] == ',')
  {
    var pos := Find(s, COMMA);
    FindIsFirst(s, COMMA, 0);
    forall i | 0 <= i < |s| && pos == -1
      ensures s[i] != ','
    {
      assert !OccursAt(s, COMMA, i);
    }
  }

  lemma NoCommaAfter(s: string, from: nat, r: int, i: nat)
    requires from <= |s| && r == LastOf(s[from..], ',') && from + r < i < |s| && from <= i
    ensures s[i] != ','
  {
    LastOfIsLast(s[from..], ',');
    assert s[from..][i - from] == s[i];
  }

  lemma NoCommaAtEnd(s: string, pos: nat, last: nat)
    requires pos < |s| && s[pos] == ','
    requires var r := LastOf(s[pos + 1..], ','); last == if r == -1 then pos else pos + 1 + r
    ensures last < |s| && s[last] == ',' && forall i :: last < i < |s| ==> s[i] != ','
  {
    forall i | last < i < |s|
      ensures s[i] != ','
    {
      NoCommaAfter(s, pos + 1, LastOf(s[pos + 1..], ','), i);
    }
  }

  lemma LastCommaOfTail(s: string, pos: nat)
    requires pos < |s| && s[pos] == ','
    ensures var r := LastOf(s[pos + 1..], ','); LastOf(s, ',') == if r == -1 then pos else pos + 1 + r
  {
    var r := LastOf(s[pos + 1..], ',');
    var last := if r == -1 then pos else pos + 1 + r;
    NoCommaAtEnd(s, pos, last);
    LastOfIs(s, ',', last);
  }

  /** What `PipeDataHandler` keeps of its buffer. */
  function AfterLast(s: string): string {
    s[LastOf(s, ',') + 1..]
  }

  lemma SameAfterLast(s: string, pos: nat)
    requires pos < |s| && s[pos] == ','
    ensures AfterLast(s[pos + 1..]) == AfterLast(s)
  {
    LastCommaOfTail(s, pos);
  }

  lemma RestOfTail(s: string)
    requires Find(s, COMMA) != -1
    ensures Rest(s) == Rest(s[Find(s, COMMA) + 1..])
  {
  }

  lemma NothingAfter(s: string)
    requires Find(s, COMMA) == -1
    ensures Rest(s) == AfterLast(s)
  {
    CommaFound(s);
    LastOfIs(s, ',', -1);
    assert s[0..] == s;
  }

  lemma {:induction false} RestIsAfterLast(s: string)
    ensures Rest(s) == AfterLast(s)
    decreases |s|
  {
    var pos := Find(s, COMMA);
    if pos == -1 {
      NothingAfter(s);
    } else {
      CommaFound(s);
      RestIsAfterLast(s[pos + 1..]);
      RestOfTail(s);
      SameAfterLast(s, pos);
    }
  }

  // ---- The main thread ----

  /** `broken` holds the calls ('r' or 'w' on a descriptor) in which the socket reports its end or
      an error, and `acted` the messages that were carried out. `accepts` counts the connections
      per descriptor. `crashed` says that an exception has ended the process. */
  datatype Loop = Loop(
    buffer: string,
    connections: set<nat>,
    useTimes: map<nat, nat>,
    broken: set<(char, nat)>,
    acted: seq<Message>,
    accepts: map<nat, nat>,
    crashed: bool)

  function CountOf(m: map<nat, nat>, fd: nat): nat {
    if fd in m then m[fd] else 0
  }

  /** `AddConnection` */
  function Accept(l: Loop, fd: nat): Loop {
    l.(useTimes := l.useTimes[fd := (CountOf(l.useTimes, fd) + 1) % WRAP],
       accepts := l.accepts[fd := CountOf(l.accepts, fd) + 1],
       connections := l.connections + {fd})
  }

  predicate Current(l: Loop, m: Message) {
    m.fd in l.connections && m.useTime == CountOf(l.useTimes, m.fd)
  }

  /** Carries out a message, or drops it if it does not name a connection that is open in the same
      incarnation. */
  function Obey(l: Loop, m: Message): Loop {
    if !Current(l, m) then l else
    var closes := m.op == 'c' || ((m.op == 'r' || m.op == 'w') && (m.op, m.fd) in l.broken);
    l.(acted := l.acted + [m], connections := if closes then l.connections - {m.fd} else l.connections)
  }

  /** One text between commas. */
  function Act(l: Loop, text: string): Loop {
    if l.crashed then l else
    match Decode(text)
    case Skipped => l
    case Thrown => l.(crashed := true)
    case Told(op, fd, useTime) => if fd < 0 || useTime < 0 then l else Obey(l, Message(op, fd, useTime))
  }

  function ActAll(l: Loop, texts: seq<string>): Loop
    decreases |texts|
  {
    if texts == [] then l else ActAll(Act(l, texts[0]), texts[1..])
  }

  /** What is done with text that is added to the buffer. */
  function Take(l: Loop, text: string): Loop {
    if l.crashed then l else
    var all := l.buffer + text;
    var t := ActAll(l, Fields(all));
    t.(buffer := if t.crashed then all else Rest(all))
  }

  const NUL := "\0"

  /** The bytes of one read are added as a C string. */
  function CString(bytes: string): string {
    var n := Find(bytes, NUL);
    if n == -1 then bytes else bytes[..n]
  }

  /** `PipeDataReader` on the bytes that one read returned. */
  function Feed(l: Loop, bytes: string): Loop {
    Take(l, CString(bytes))
  }

  /** The same, except perhaps for what a crashed process leaves in its buffer. */
  predicate Alike(a: Loop, b: Loop) {
    a.(buffer := "") == b.(buffer := "") && (!a.crashed ==> a.buffer == b.buffer)
  }

  lemma ActAllCons(l: Loop, text: string, texts: seq<string>)
    ensures ActAll(l, [text] + texts) == ActAll(Act(l, text), texts)
  {
    assert ([text] + texts)[1..] == texts;
  }

  lemma {:induction false} ActAllAppend(l: Loop, a: seq<string>, b: seq<string>)
    ensures ActAll(l, a + b) == ActAll(ActAll(l, a), b)
    decreases |a|
  {
    if a == [] {
      assert a + b == b;
    } else {
      assert (a + b)[1..] == a[1..] + b;
      ActAllAppend(Act(l, a[0]), a[1..], b);
    }
  }

  lemma ActKeepsBuffer(l: Loop, text: string, buffer: string)
    ensures Act(l.(buffer := buffer), text) == Act(l, text).(buffer := buffer)
  {
  }

  lemma {:induction false} ActAllKeepsBuffer(l: Loop, texts: seq<string>, buffer: string)
    ensures ActAll(l.(buffer := buffer), texts) == ActAll(l, texts).(buffer := buffer)
    decreases |texts|
  {
    if texts != [] {
      ActKeepsBuffer(l, texts[0], buffer);
      ActAllKeepsBuffer(Act(l, texts[0]), texts[1..], buffer);
    }
  }

  lemma {:induction false} ActAllCrashed(l: Loop, texts: seq<string>)
    requires l.crashed
    ensures ActAll(l, texts) == l
    decreases |texts|
  {
    if texts != [] {
      ActAllCrashed(l, texts[1..]);
    }
  }

  /** Text has the same effect in two pieces as in one. */
  lemma TakeTwice(l: Loop, x: string, y: string)
    ensures Alike(Take(Take(l, x), y), Take(l, x + y))
  {
    if !l.crashed {
      var a := l.buffer + x;
      var t := ActAll(l, Fields(a));
      JoinsToRight(l.buffer, x, y);
      FramesAppend(a, y);
      ActAllAppend(l, Fields(a), Fields(Rest(a) + y));
      if t.crashed {
        ActAllCrashed(t, Fields(Rest(a) + y));
      } else {
        ActAllKeepsBuffer(t, Fields(Rest(a) + y), Rest(a));
      }
    }
  }

  function FeedAll(l: Loop, xs: seq<string>): Loop
    decreases |xs|
  {
    if xs == [] then l else FeedAll(Feed(l, xs[0]), xs[1..])
  }

  /** The text that several reads add. */
  function TextOf(xs: seq<string>): string {
    if xs == [] then "" else CString(xs[0]) + TextOf(xs[1..])
  }

  lemma {:induction false} FeedAllTakes(l: Loop, xs: seq<string>)
    requires xs != []
    ensures Alike(FeedAll(l, xs), Take(l, TextOf(xs)))
    decreases |xs|
  {
    if |xs| == 1 {
      assert TextOf(xs) == CString(xs[0]);
    } else {
      FeedAllTakes(Feed(l, xs[0]), xs[1..]);
      TakeTwice(l, CString(xs[0]), TextOf(xs[1..]));
    }
  }

  lemma NulFree(s: string)
    requires '\0' !in s
    ensures CString(s) == s
  {
    var n := Find(s, NUL);
    if n != -1 {
      CharUnder(s, NUL, n, n);
    }
  }

  lemma {:induction false} NulFreeText(xs: seq<string>)
    requires '\0' !in Concat(xs)
    ensures TextOf(xs) == Concat(xs)
    decreases |xs|
  {
    if xs != [] {
      assert forall c :: c in xs[0] || c in Concat(xs[1..]) ==> c in Concat(xs);
      NulFree(xs[0]);
      NulFreeText(xs[1..]);
    }
  }

  /** What is carried out depends on the bytes of the pipe, not on how the reads cut them, if none of
      them is 0. In any case it depends on what the reads add as C strings. */
  lemma ReadIndependence(l: Loop, xs: seq<string>)
    requires xs != []
    ensures Alike(FeedAll(l, xs), Take(l, TextOf(xs)))
    ensures '\0' !in Concat(xs) ==> Alike(FeedAll(l, xs), Feed(l, Concat(xs)))
  {
    FeedAllTakes(l, xs);
    if '\0' !in Concat(xs) {
      NulFreeText(xs);
      NulFree(Concat(xs));
    }
  }

  lemma TwoReads(l: Loop, x: string, y: string)
    ensures FeedAll(l, [x, y]) == Feed(Feed(l, x), y)
  {
    assert [x, y][1..] == [y] && [y][1..] == [];
    assert FeedAll(Feed(l, x), [y]) == FeedAll(Feed(Feed(l, x), y), []);
  }

  lemma TakeUncut(l: Loop, text: string)
    requires !l.crashed && l.buffer == "" && ',' !in text
    ensures Take(l, text) == l.(buffer := text)
  {
    assert "" + text == text;
    var comma := Find(text, COMMA);
    if comma != -1 {
      CharUnder(text, COMMA, comma, comma);
    }
  }

  /** A byte 0 hides what comes after it in the same read. */
  lemma NulHides(l: Loop, x: string)
    requires !l.crashed && l.buffer == "" && ',' !in x && '\0' !in x
    ensures Feed(l, NUL + x) == l && FeedAll(l, [NUL, x]) == l.(buffer := x)
  {
    assert (NUL + x)[0..1] == NUL && (NUL + x)[..0] == "" && NUL[0..1] == NUL && NUL[..0] == "";
    NulFree(x);
    TwoReads(l, NUL, x);
    TakeUncut(l, "");
    TakeUncut(l, x);
  }

  // ---- What the workers write ----

  function EncodeAll(ms: seq<Message>): string {
    if ms == [] then "" else Encode(ms[0]) + COMMA + EncodeAll(ms[1..])
  }

  function ObeyAll(l: Loop, ms: seq<Message>): Loop
    decreases |ms|
  {
    if ms == [] then l else ObeyAll(Obey(l, ms[0]), ms[1..])
  }

  predicate Written(ms: seq<Message>) {
    forall m :: m in ms ==> Fits(m) && m.op != ',' && m.op != '\0'
  }

  lemma EncodedHasNoNul(m: Message)
    requires m.op != '\0'
    ensures '\0' !in Encode(m) + COMMA
  {
    PrintIsDigits(m.fd);
    PrintIsDigits(m.useTime);
    forall i | 0 <= i < |Print(m.fd)|
      ensures Print(m.fd)[i] != '\0'
    {
      assert IsDigit(Print(m.fd)[i]);
    }
    forall i | 0 <= i < |Print(m.useTime)|
      ensures Print(m.useTime)[i] != '\0'
    {
      assert IsDigit(Print(m.useTime)[i]);
    }
  }

  lemma {:induction false} AllEncodedHasNoNul(ms: seq<Message>)
    requires Written(ms)
    ensures '\0' !in EncodeAll(ms)
    decreases |ms|
  {
    if ms != [] {
      EncodedHasNoNul(ms[0]);
      assert forall m :: m in ms[1..] ==> m in ms;
      AllEncodedHasNoNul(ms[1..]);
    }
  }

  lemma {:induction false} AllEncoded(l: Loop, ms: seq<Message>)
    requires Written(ms) && !l.crashed
    ensures ActAll(l, Fields(EncodeAll(ms))) == ObeyAll(l, ms) && Rest(EncodeAll(ms)) == "" && !ObeyAll(l, ms).crashed
    decreases |ms|
  {
    if ms != [] {
      var text, rest := Encode(ms[0]) + COMMA, EncodeAll(ms[1..]);
      ActEncoded(l, ms[0]);
      EncodedIsOneField(ms[0]);
      FramesAppend(text, rest);
      assert "" + rest == rest;
      assert forall m :: m in ms[1..] ==> m in ms;
      AllEncoded(Obey(l, ms[0]), ms[1..]);
      ActAllCons(l, Encode(ms[0]), Fields(rest));
    }
  }

  /** The messages that workers write are obeyed one by one in the order in which they were written,
      whatever pieces they are read in, and never make the process crash. */
  lemma WrittenIsObeyed(l: Loop, ms: seq<Message>, xs: seq<string>)
    requires Written(ms) && !l.crashed && l.buffer == "" && xs != [] && Concat(xs) == EncodeAll(ms)
    ensures FeedAll(l, xs) == ObeyAll(l, ms) && !FeedAll(l, xs).crashed
  {
    AllEncodedHasNoNul(ms);
    ReadIndependence(l, xs);
    NulFree(EncodeAll(ms));
    AllEncoded(l, ms);
    assert "" + EncodeAll(ms) == EncodeAll(ms);
    ObeyAllKeepsBuffer(l, ms);
  }

  lemma {:induction false} ObeyAllKeepsBuffer(l: Loop, ms: seq<Message>)
    ensures ObeyAll(l, ms).buffer == l.buffer
    decreases |ms|
  {
    if ms != [] {
      ObeyAllKeepsBuffer(Obey(l, ms[0]), ms[1..]);
    }
  }

  // ---- Incarnations ----

  datatype Event = Accepting(fd: nat) | Closing(fd: nat) | Reading(bytes: string) | Breaking(calls: set<(char, nat)>)

  function Next(l: Loop, e: Event): Loop {
    if l.crashed then l else
    match e
    case Accepting(fd) => Accept(l, fd)
    case Closing(fd) => l.(connections := l.connections - {fd})
    case Reading(bytes) => Feed(l, bytes)
    case Breaking(calls) => l.(broken := calls)
  }

  function After(l: Loop, es: seq<Event>): Loop
    decreases |es|
  {
    if es == [] then l else After(Next(l, es[0]), es[1..])
  }

  const START := Loop("", {}, map[], {}, [], map[], false)

  /** A descriptor's use count is the number of its accepts, wrapped. */
  predicate Inv(l: Loop) {
    && l.useTimes.Keys == l.accepts.Keys
    && (forall fd :: fd in l.accepts ==> l.useTimes[fd] == l.accepts[fd] % WRAP)
    && (forall fd :: fd in l.connections ==> fd in l.accepts)
  }

  lemma {:induction false} ActAllKeepsInv(l: Loop, texts: seq<string>)
    requires Inv(l)
    ensures Inv(ActAll(l, texts))
    decreases |texts|
  {
    if texts != [] {
      ActAllKeepsInv(Act(l, texts[0]), texts[1..]);
    }
  }

  lemma Counted(n: nat)
    ensures (n % WRAP + 1) % WRAP == (n + 1) % WRAP
  {
  }

  lemma NextKeepsInv(l: Loop, e: Event)
    requires Inv(l)
    ensures Inv(Next(l, e))
  {
    match e
    case Accepting(fd) => Counted(CountOf(l.accepts, fd));
    case Reading(bytes) => ActAllKeepsInv(l, Fields(l.buffer + CString(bytes)));
    case _ =>
  }

  lemma {:induction false} RunKeepsInv(l: Loop, es: seq<Event>)
    requires Inv(l)
    ensures Inv(After(l, es))
    decreases |es|
  {
    if es != [] {
      NextKeepsInv(l, es[0]);
      RunKeepsInv(Next(l, es[0]), es[1..]);
    }
  }

  lemma SameRemainder(n: nat, k: nat)
    requires k <= n
    ensures n % WRAP == k % WRAP <==> (n - k) % WRAP == 0
  {
  }

  lemma ActEncoded(l: Loop, m: Message)
    requires Fits(m) && !l.crashed
    ensures Act(l, Encode(m)) == Obey(l, m)
  {
    DecodeEncode(m);
  }

  /** Which connection of a descriptor a message is from shows up to multiples of 10000. */
  lemma CurrentIff(l: Loop, op: char, fd: nat, k: nat)
    requires Inv(l) && 0 < k <= CountOf(l.accepts, fd)
    ensures var later := CountOf(l.accepts, fd) - k;
            Current(l, Message(op, fd, k % WRAP)) <==> fd in l.connections && later % WRAP == 0
  {
    SameRemainder(CountOf(l.accepts, fd), k);
  }

  ghost predicate Reachable(l: Loop) {
    exists es :: After(START, es) == l
  }

  lemma ReachableKeepsCount(l: Loop)
    requires Reachable(l)
    ensures Inv(l)
  {
    var es :| After(START, es) == l;
    RunKeepsInv(START, es);
  }

  /** In any reachable state, a message that a worker of the `k`-th connection on a descriptor has
      written is carried out if and only if the process is alive, the descriptor is open, and the
      number of accepts since is a multiple of 10000. */
  lemma CarriedOutIff(l: Loop, op: char, fd: nat, k: nat)
    requires Reachable(l) && 0 < k <= CountOf(l.accepts, fd) && fd <= INT_MAX
    ensures var m, later := Message(op, fd, k % WRAP), CountOf(l.accepts, fd) - k;
            Act(l, Encode(m)).acted == l.acted + [m] <==> !l.crashed && fd in l.connections && later % WRAP == 0
  {
    ReachableKeepsCount(l);
    CurrentIff(l, op, fd, k);
    if !l.crashed {
      ActEncoded(l, Message(op, fd, k % WRAP));
    }
  }

  lemma OwnRemainder(d: nat)
    requires 0 < d < WRAP
    ensures d % WRAP != 0
  {
  }

  /** A message from an earlier connection changes nothing while fewer than 10000 later ones have
      used its descriptor. */
  lemma StaleIsDropped(l: Loop, op: char, fd: nat, k: nat)
    requires Reachable(l) && 0 < k < CountOf(l.accepts, fd) < k + WRAP && fd <= INT_MAX
    ensures Act(l, Encode(Message(op, fd, k % WRAP))) == l
  {
    ReachableKeepsCount(l);
    CurrentIff(l, op, fd, k);
    OwnRemainder(CountOf(l.accepts, fd) - k);
    OldIsDropped(l, Message(op, fd, k % WRAP));
  }

  lemma OldIsDropped(l: Loop, m: Message)
    requires Fits(m) && !Current(l, m)
    ensures Act(l, Encode(m)) == l
  {
    if !l.crashed {
      ActEncoded(l, m);
    }
  }

  /** Whether carrying out a message ends its connection: it says so, or the read or the write that it
      asks for fails. */
  predicate Ends(l: Loop, m: Message) {
    m.op == 'c' || ((m.op == 'r' || m.op == 'w') && (m.op, m.fd) in l.broken)
  }

  /** Carrying out a current message leaves its connection open, unless it ends it, and leaves every other
      connection, the buffer and the counts alone. */
  lemma CurrentEndsIff(l: Loop, m: Message)
    requires Current(l, m) && Fits(m) && !l.crashed
    ensures var t := Act(l, Encode(m));
            && (m.fd !in t.connections <==> Ends(l, m))
            && (forall fd :: fd != m.fd ==> (fd in t.connections <==> fd in l.connections))
            && t == l.(connections := t.connections, acted := l.acted + [m])
  {
    ActEncoded(l, m);
  }

  /** Accepting makes the descriptor a connection, counts it, and changes nothing else. */
  lemma AcceptOpens(l: Loop, fd: nat)
    requires Inv(l)
    ensures var t := Accept(l, fd);
            && t.connections == l.connections + {fd}
            && CountOf(t.accepts, fd) == CountOf(l.accepts, fd) + 1
            && CountOf(t.useTimes, fd) == (CountOf(l.accepts, fd) + 1) % WRAP
            && (forall other :: other != fd ==> CountOf(t.accepts, other) == CountOf(l.accepts, other)
                                                && CountOf(t.useTimes, other) == CountOf(l.useTimes, other))
            && t == l.(connections := t.connections, accepts := t.accepts, useTimes := t.useTimes)
  {
    Counted(CountOf(l.accepts, fd));
  }

  /** How often a run accepts on a descriptor, while the process is alive. */
  function Accepted(l: Loop, es: seq<Event>, fd: nat): nat
    decreases |es|
  {
    if es == [] then 0
    else (if es[0] == Accepting(fd) && !l.crashed then 1 else 0) + Accepted(Next(l, es[0]), es[1..], fd)
  }

  lemma {:induction false} ActAllKeepsAccepts(l: Loop, texts: seq<string>)
    ensures ActAll(l, texts).accepts == l.accepts
    decreases |texts|
  {
    if texts != [] {
      ActAllKeepsAccepts(Act(l, texts[0]), texts[1..]);
    }
  }

  lemma NextAccepts(l: Loop, e: Event, fd: nat)
    ensures CountOf(Next(l, e).accepts, fd)
         == CountOf(l.accepts, fd) + (if e == Accepting(fd) && !l.crashed then 1 else 0)
  {
    if e.Reading? {
      ActAllKeepsAccepts(l, Fields(l.buffer + CString(e.bytes)));
    }
  }

  /** The count that messages are compared with is the number of accepts of the run. */
  lemma {:induction false} AcceptsAreCounted(l: Loop, es: seq<Event>, fd: nat)
    ensures CountOf(After(l, es).accepts, fd) == CountOf(l.accepts, fd) + Accepted(l, es, fd)
    decreases |es|
  {
    if es != [] {
      NextAccepts(l, es[0], fd);
      AcceptsAreCounted(Next(l, es[0]), es[1..], fd);
    }
  }

  // ---- What ends the process ----

  predicate Space(c: char) {
    c == ' ' || '\t' <= c <= '\r'
  }

  /** A number as `std::stoi` takes it: spaces, a sign, digits, and then something else. */
  predicate Numeral(spaces: string, sign: string, ds: string, rest: string) {
    && (forall i :: 0 <= i < |spaces| ==> Space(spaces[i]))
    && (sign == "" || sign == "-" || sign == "+")
    && (forall i :: 0 <= i < |ds| ==> IsDigit(ds[i]))
    && (rest != "" ==> !IsDigit(rest[0]) && (sign == "" && ds == "" ==> !Space(rest[0]) && rest[0] !in "-+"))
  }

  lemma {:induction false} SpacesSkipped(spaces: string, s: string)
    requires (forall i :: 0 <= i < |spaces| ==> Space(spaces[i])) && (s != "" ==> !Space(s[0]))
    ensures SkipSpaces(spaces + s) == s
    decreases |spaces|
  {
    if spaces == "" {
      assert spaces + s == s;
    } else {
      assert (spaces + s)[1..] == spaces[1..] + s;
      SpacesSkipped(spaces[1..], s);
    }
  }

  lemma {:induction false} DigitsTaken(ds: string, rest: string)
    requires (forall i :: 0 <= i < |ds| ==> IsDigit(ds[i])) && (rest != "" ==> !IsDigit(rest[0]))
    ensures Digits(ds + rest) == ds
    decreases |ds|
  {
    if ds == "" {
      assert ds + rest == rest;
    } else {
      assert (ds + rest)[1..] == ds[1..] + rest;
      DigitsTaken(ds[1..], rest);
    }
  }

  /** `std::stoi` gives the number if there is one and it fits, and throws otherwise. */
  lemma StoiReads(spaces: string, sign: string, ds: string, rest: string)
    requires Numeral(spaces, sign, ds, rest)
    ensures var v: int := if sign == "-" then 0 - Number(ds) else Number(ds);
            Stoi(spaces + (sign + (ds + rest)))
            == if ds != "" && -INT_MAX - 1 <= v <= INT_MAX then Some(v) else None
  {
    var t := sign + (ds + rest);
    SpacesSkipped(spaces, t);
    DigitsTaken(ds, rest);
    assert sign == "" ==> t == ds + rest;
    assert sign != "" ==> t[1..] == ds + rest;
  }

  lemma FieldIs(op: char, fd: string, useTime: string)
    requires '_' !in useTime && |fd| + |useTime| >= 2
    ensures Decode([op] + (fd + "_" + useTime))
         == if Stoi(fd) == None || Stoi(useTime) == None then Thrown
            else Told(op, Stoi(fd).value, Stoi(useTime).value)
  {
    var text := [op] + (fd + "_" + useTime);
    assert text[1..] == fd + "_" + useTime && ['_'] == "_";
    SplitAtMark(fd, useTime, '_');
  }

  /** A field ends the process if and only if it is long enough to be a message, has an underscore, and
      one of the two texts about the last underscore is not a number that fits. */
  lemma CrashIff(l: Loop, op: char, fd: string, useTime: string)
    requires !l.crashed && '_' !in useTime && |fd| + |useTime| >= 2
    ensures Act(l, [op] + (fd + "_" + useTime)).crashed <==> Stoi(fd) == None || Stoi(useTime) == None
  {
    FieldIs(op, fd, useTime);
  }

  /** Shorter fields, and those without an underscore, change nothing. */
  lemma OthersAreSkipped(l: Loop, text: string)
    requires |text| < 4 || '_' !in text[1..]
    ensures Act(l, text) == l
  {
    if |text| >= 4 {
      LastOfIs(text[1..], '_', -1);
    }
  }

  /** Neither do negative numbers. */
  lemma NegativeIsDropped(l: Loop, op: char, fd: string, useTime: string)
    requires '_' !in useTime && |fd| + |useTime| >= 2 && Stoi(fd).Some? && Stoi(useTime).Some?
    requires Stoi(fd).value < 0 || Stoi(useTime).value < 0
    ensures Act(l, [op] + (fd + "_" + useTime)) == l
  {
    FieldIs(op, fd, useTime);
  }

  /** A close message that is carried out closes its connection and no other. */
  lemma CloseCloses(l: Loop, m: Message)
    requires m.op == 'c' && Current(l, m) && Fits(m) && !l.crashed
    ensures Act(l, Encode(m)).connections == l.connections - {m.fd} && Act(l, Encode(m)).useTimes == l.useTimes
  {
    ActEncoded(l, m);
  }

  // ---- The code ----

  class EventLoop {
    var readPipeBuffer: string
    var connections: set<nat>
    var useTimes: map<nat, nat>
    var broken: set<(char, nat)>
    var crashed: bool
    ghost var acted: seq<Message>
    ghost var accepts: map<nat, nat>

    ghost function View(): Loop
      reads this
    {
      Loop(readPipeBuffer, connections, useTimes, broken, acted, accepts, crashed)
    }

    constructor ()
      ensures View() == START
    {
      readPipeBuffer, connections, useTimes, broken, acted, accepts := "", {}, map[], {}, [], map[];
      crashed := false;
    }

    /** `nonBlocking` and `watched` say whether the two system calls on the new socket succeed. */
    method AddConnection(fd: nat, nonBlocking: bool, watched: bool)
      modifies this
      ensures View() == if nonBlocking && watched then Accept(old(View()), fd) else old(View())
    {
      if !nonBlocking {
        return;
      }
      if !watched {
        return;
      }
      var count := if fd in useTimes then useTimes[fd] else 0;
      useTimes := useTimes[fd := (count + 1) % WRAP];
      accepts := accepts[fd := CountOf(accepts, fd) + 1];
      connections := connections + {fd};
    }

    method NetExcepter(fd: nat)
      modifies this
      ensures View() == old(View()).(connections := old(connections) - {fd})
    {
      connections := connections - {fd};
    }

    /** One message of the pipe. An exception is recorded in `crashed`. */
    method Dispatch(text: string)
      requires !crashed
      modifies this
      ensures View() == Act(old(View()), text) && readPipeBuffer == old(readPipeBuffer)
    {
      if |text| < 4 {
        return;
      }
      var op := text[0];
      var id := text[1..];
      var pos := LastOf(id, '_');
      if pos == -1 {
        return;
      }
      var fd, useTime := Stoi(id[..pos]), Stoi(id[pos + 1..]);
      if fd == None || useTime == None {
        crashed := true;
        return;
      }
      if fd.value < 0 || fd.value !in connections
         || useTime.value != (if fd.value in useTimes then useTimes[fd.value] else 0) {
        return;
      }
      acted := acted + [Message(op, fd.value, useTime.value)];
      if op == 'c' || ((op == 'r' || op == 'w') && (op, fd.value) in broken) {
        NetExcepter(fd.value);
      }
    }

    /** `bytes` is what one read returned. */
    method PipeDataHandler(bytes: string)
      requires !crashed
      modifies this
      ensures View() == Feed(old(View()), bytes)
    {
      var nul := Find(bytes, NUL);
      readPipeBuffer := readPipeBuffer + if nul == -1 then bytes else bytes[..nul];
      ghost var all := readPipeBuffer;
      ActAllKeepsBuffer(old(View()), Fields(all), all);
      HandleFields();
      if crashed {
        return;
      }
      RestIsAfterLast(all);
      var last := LastOf(readPipeBuffer, ',');
      if last != -1 {
        readPipeBuffer := readPipeBuffer[last + 1..];
      }
    }

    method HandleFields()
      requires !crashed
      modifies this
      ensures View() == ActAll(old(View()), Fields(readPipeBuffer)) && readPipeBuffer == old(readPipeBuffer)
    {
      var buffer, pos := readPipeBuffer, 0;
      while pos < |buffer|
        invariant pos <= |buffer| && readPipeBuffer == buffer && !crashed
        invariant ActAll(View(), Fields(buffer[pos..])) == ActAll(old(View()), Fields(buffer))
      {
        var comma := FindFrom(buffer, COMMA, pos);
        FindFromDrop(buffer, COMMA, pos);
        if comma == -1 {
          break;
        }
        FieldsFrom(buffer, pos, comma);
        ActAllCons(View(), buffer[pos..comma], Fields(buffer[comma + 1..]));
        Dispatch(buffer[pos..comma]);
        if crashed {
          ActAllCrashed(View(), Fields(buffer[comma + 1..]));
          return;
        }
        pos := comma + 1;
      }
    }
  }

  lemma FieldsFrom(s: string, pos: nat, comma: nat)
    requires pos <= comma < |s| && Find(s[pos..], COMMA) == comma - pos
    ensures Fields(s[pos..]) == [s[pos..comma]] + Fields(s[comma + 1..])
  {
    assert s[pos..][..comma - pos] == s[pos..comma];
    assert s[pos..][comma - pos + 1..] == s[comma + 1..];
  }

  lemma NoneFrom(s: string, p: string, from: nat, to: int)
    requires from <= |s| && NoneBefore(s, p, from, to)
    ensures NoneBefore(s[from..], p, 0, to - from)
  {
    forall i | 0 <= i < to - from
      ensures !OccursAt(s[from..], p, i)
    {
      OccursAtDrop(s, from, p, i);
    }
  }

  lemma FindFromDrop(s: string, p: string, from: nat)
    requires from <= |s|
    ensures Find(s[from..], p) == if FindFrom(s, p, from) == -1 then -1 else FindFrom(s, p, from) - from
  {
    var r := FindFrom(s, p, from);
    FindIsFirst(s, p, from);
    NoneFrom(s, p, from, if r == -1 then |s| + 1 else r);
    if r == -1 {
      FirstIsFound(s[from..], p, 0, -1);
    } else {
      OccursAtDrop(s, from, p, r - from);
      FirstIsFound(s[from..], p, 0, r - from);
    }
  }
}
