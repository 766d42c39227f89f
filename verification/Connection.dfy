/** The task protocol of one connection: the main thread appends what it reads and closes the
    connection, worker threads run `handler` and `sendFile`, and each one schedules the next.

    Every event is one stretch of code between two points where another thread can get in. Any
    number of tasks may be alive at once; that there is never more than one is a theorem. */
module Connection {

  import opened Wrappers

  /** The callable kept in `_sub_task`: `handler`, or `sendFile` from `start` up to `end`. */
  datatype Task = Handling | Sending(start: nat, end: nat)

  /** How far a task has come. `Queued` covers both waiting in the pool and being called inline. */
  datatype Phase =
    | Queued(task: Task)
    | Executing(request: string)   // has copied the front of the request buffer
    | Deciding(used: nat)          // has run the parser on it, and will erase `used` bytes
    | Concluding                   // has sent the last piece of a file
    | Scheduling                   // has released the lock, and will look at `_sub_task`

  /** What goes into the response buffer. `range` is set when a file's bytes are to follow. */
  datatype Item =
    | Head(message: nat, range: Option<(nat, nat)>)
    | Piece(message: nat, range: Option<(nat, nat)>, start: nat, data: string)

  /** `received` and `parsed` are the bytes read from the socket and the bytes the parser took. */
  datatype Conn = Conn(
    received: string,
    parsed: string,
    buffer: string,
    processing: bool,
    closed: bool,
    closing: bool,
    subTask: Option<Task>,
    tasks: map<nat, Phase>,
    next: nat,
    messages: nat,
    sent: seq<Item>)

  const NEW := Conn("", "", "", false, false, false, None, map[], 0, 0, [])

  /** What the parser makes of a request: it fails, wants more, or completes one message after
      `used` bytes (each complete message pauses it), perhaps with a file to send. Answering may
      also fail and ask for the connection to be closed. */
  datatype Parsed = Error | Hungry | Complete(used: nat, range: Option<(nat, nat)>, failed: bool)

  datatype Event =
    | Receive(bytes: string)
    | Except
    | Begin(w: nat)
    | Execute(w: nat, result: Parsed)
    | SendPiece(w: nat, data: Option<string>)
    | Decide(w: nat)
    | Schedule(w: nat)

  predicate Enabled(c: Conn, e: Event) {
    match e
    case Receive(bytes) => !c.closed && bytes != ""
    case Except => !c.closed
    case Begin(w) => w in c.tasks && c.tasks[w] == Queued(Handling)
    case Execute(w, result) =>
      w in c.tasks && c.tasks[w].Executing? && (result.Complete? ==> result.used <= |c.tasks[w].request|)
    case SendPiece(w, data) => w in c.tasks && c.tasks[w].Queued? && c.tasks[w].task.Sending?
    case Decide(w) => w in c.tasks && (c.tasks[w].Deciding? || c.tasks[w].Concluding?)
    case Schedule(w) => w in c.tasks && c.tasks[w].Scheduling?
  }

  function Dropped(s: string, n: nat): string {
    if n <= |s| then s[n..] else ""
  }

  function End(c: Conn, w: nat): Conn {
    c.(tasks := c.tasks - {w})
  }

  function Become(c: Conn, w: nat, p: Phase): Conn {
    c.(tasks := c.tasks[w := p])
  }

  /** The range that the last item of the response buffer belongs to. */
  function RangeOf(sent: seq<Item>): Option<(nat, nat)> {
    if sent == [] then None else sent[|sent| - 1].range
  }

  function Next(c: Conn, limit: nat, e: Event): Conn
    requires Enabled(c, e)
  {
    match e
    case Receive(bytes) =>
      var d := c.(received := c.received + bytes, buffer := c.buffer + bytes);
      if c.processing then d
      else d.(processing := true, tasks := c.tasks[c.next := Queued(Handling)], next := c.next + 1)
    case Except => c.(closed := true)
    case Begin(w) =>
      if c.closed then End(c, w)
      else Become(c.(subTask := None), w, Executing(c.buffer[..Min(|c.buffer|, limit)]))
    case Execute(w, result) =>
      var request := c.tasks[w].request;
      (match result
       case Error => End(c.(closing := true), w)
       case Hungry => Become(c.(parsed := c.parsed + request), w, Deciding(|request|))
       case Complete(used, range, failed) =>
         Become(c.(parsed := c.parsed + request[..used],
                   sent := c.sent + [Head(c.messages, range)],
                   messages := c.messages + 1,
                   closing := c.closing || failed,
                   subTask := if range.Some? then Some(Sending(range.value.0, range.value.1)) else c.subTask),
                w, Deciding(used)))
    case SendPiece(w, data) =>
      var Sending(start, end) := c.tasks[w].task;
      if c.closed then End(c, w)
      else if start >= end then Become(c.(subTask := None), w, Concluding)
      else if data.None? then End(c.(closing := true, subTask := None), w)
      else
        var message := if c.messages > 0 then c.messages - 1 else 0;
        var d := c.(sent := c.sent + [Piece(message, RangeOf(c.sent), start, data.value)]);
        var reached := start + |data.value|;
        if reached < end then Become(d.(subTask := Some(Sending(reached, end))), w, Scheduling)
        else Become(d.(subTask := None), w, Concluding)
    case Decide(w) =>
      var d := if c.tasks[w].Deciding? then c.(buffer := Dropped(c.buffer, c.tasks[w].used)) else c;
      if d.subTask.Some? then Become(d, w, Scheduling)
      else if d.buffer == "" then Become(d.(processing := false), w, Scheduling)
      else Become(d.(subTask := Some(Handling)), w, Scheduling)
    case Schedule(w) =>
      if c.subTask.Some? then Become(c, w, Queued(c.subTask.value)) else End(c, w)
  }

  // ---- Order of the responses ----

  /** How far into the file the bytes up to and including this item reach. */
  function Reached(i: Item): nat {
    match i
    case Head(_, range) => if range.Some? then range.value.0 else 0
    case Piece(_, _, start, data) => start + |data|
  }

  predicate Finished(i: Item) {
    i.range.Some? ==> Reached(i) >= i.range.value.1
  }

  /** The next header comes only after the whole body before it, and the pieces of a body are
      contiguous. */
  predicate Follows(a: Item, b: Item) {
    match b
    case Head(message, _) => message == a.message + 1 && Finished(a)
    case Piece(message, range, start, _) =>
      message == a.message && range == a.range && start == Reached(a) && !Finished(a)
  }

  predicate InStep(sent: seq<Item>, i: nat)
    requires i < |sent| - 1
  {
    Follows(sent[i], sent[i + 1])
  }

  ghost predicate InOrder(sent: seq<Item>, messages: nat) {
    && (sent == [] <==> messages == 0)
    && (sent != [] ==> sent[0].Head? && sent[0].message == 0 && sent[|sent| - 1].message + 1 == messages)
    && (forall i :: 0 <= i < |sent| - 1 ==> InStep(sent, i))
  }

  // ---- The invariant ----

  /** The part of a file that is still to be sent, as the task or `_sub_task` has it. */
  predicate Owes(c: Conn, t: Task) {
    if t.Sending? then
      && c.sent != [] && c.sent[|c.sent| - 1].range.Some?
      && t.start == Reached(c.sent[|c.sent| - 1]) && t.end == c.sent[|c.sent| - 1].range.value.1
    else c.sent == [] || Finished(c.sent[|c.sent| - 1])
  }

  predicate OwesNext(c: Conn) {
    Owes(c, if c.subTask.Some? then c.subTask.value else Handling)
  }

  /** Bytes that the parser has taken and the request buffer still holds. */
  function Unerased(p: Phase): nat {
    if p.Deciding? then p.used else 0
  }

  predicate PhaseInv(c: Conn, p: Phase) {
    && Unerased(p) <= |c.buffer| && c.parsed + c.buffer[Unerased(p)..] == c.received
    && (p.Scheduling? && c.subTask.None? ==> c.buffer == "")
    && (c.processing <==> !(p.Scheduling? && c.subTask.None?))
    && (match p
        case Queued(t) => Owes(c, t)
        case Executing(request) => request <= c.buffer && c.subTask.None? && Owes(c, Handling)
        case Deciding(_) => c.subTask != Some(Handling) && OwesNext(c)
        case Concluding => c.subTask.None? && Owes(c, Handling)
        case Scheduling => OwesNext(c))
  }

  ghost predicate AtMostOneTask(c: Conn) {
    forall v, w :: v in c.tasks && w in c.tasks ==> v == w
  }

  /** At most one task is alive. Without one, either the connection is finished with, or nothing is
      left to do and the next bytes will start one. */
  ghost predicate Inv(c: Conn) {
    && InOrder(c.sent, c.messages)
    && AtMostOneTask(c)
    && (forall w :: w in c.tasks ==> w < c.next && PhaseInv(c, c.tasks[w]))
    && (c.tasks == map[] ==>
          && c.parsed + c.buffer == c.received
          && (c.closed || c.closing || (!c.processing && c.buffer == "" && Owes(c, Handling)))
          && (!c.processing ==> c.buffer == "" && Owes(c, Handling)))
  }

  /** Another read arrives after a task has cleared `_is_processing` and before the same task has
      looked at `_sub_task` again. */
  predicate InReleaseWindow(c: Conn, e: Event) {
    e.Receive? && !c.processing && c.tasks != map[]
  }

  lemma AppendInOrder(sent: seq<Item>, messages: nat, i: Item)
    requires InOrder(sent, messages)
    requires if sent == [] then i.Head? && i.message == 0 else Follows(sent[|sent| - 1], i)
    ensures InOrder(sent + [i], i.message + 1)
  {
    var all := sent + [i];
    forall k | 0 <= k < |all| - 1
      ensures InStep(all, k)
    {
      if k < |sent| - 1 {
        assert InStep(sent, k);
      }
    }
  }

  lemma OnlyTask(c: Conn, w: nat)
    requires Inv(c) && w in c.tasks
    ensures c.tasks == map[w := c.tasks[w]] && c.tasks - {w} == map[] && PhaseInv(c, c.tasks[w])
  {
  }

  lemma OneTaskInv(d: Conn, w: nat, p: Phase)
    requires d.tasks == map[w := p] && w < d.next && PhaseInv(d, p) && InOrder(d.sent, d.messages)
    ensures Inv(d)
  {
    assert w in d.tasks;
  }

  lemma FirstReceiveKeepsInv(c: Conn, limit: nat, bytes: string)
    requires Inv(c) && Enabled(c, Receive(bytes)) && c.tasks == map[]
    ensures Inv(Next(c, limit, Receive(bytes)))
  {
    var d := Next(c, limit, Receive(bytes));
    assert c.parsed + d.buffer == d.received;
    if !c.processing {
      assert c.next in d.tasks && d.tasks == map[c.next := Queued(Handling)];
      assert d.buffer[0..] == d.buffer;
      assert PhaseInv(d, Queued(Handling));
    }
  }

  lemma ReceiveKeepsPhase(c: Conn, bytes: string, p: Phase)
    requires PhaseInv(c, p) && c.processing
    ensures PhaseInv(c.(received := c.received + bytes, buffer := c.buffer + bytes), p)
  {
    assert (c.buffer + bytes)[Unerased(p)..] == c.buffer[Unerased(p)..] + bytes;
  }

  lemma ReceiveKeepsInv(c: Conn, limit: nat, bytes: string)
    requires Inv(c) && Enabled(c, Receive(bytes)) && !InReleaseWindow(c, Receive(bytes))
    ensures Inv(Next(c, limit, Receive(bytes)))
  {
    if c.tasks == map[] {
      FirstReceiveKeepsInv(c, limit, bytes);
    } else {
      var w :| w in c.tasks;
      OnlyTask(c, w);
      ReceiveKeepsPhase(c, bytes, c.tasks[w]);
    }
  }

  lemma ExceptKeepsInv(c: Conn, limit: nat)
    requires Inv(c) && Enabled(c, Except)
    ensures Inv(Next(c, limit, Except))
  {
    if w :| w in c.tasks {
      OnlyTask(c, w);
    }
  }

  lemma BeginKeepsInv(c: Conn, limit: nat, e: Event)
    requires Inv(c) && Enabled(c, e) && e.Begin?
    ensures Inv(Next(c, limit, e))
  {
    OnlyTask(c, e.w);
    assert c.buffer[0..] == c.buffer;
  }

  lemma HungryKeepsInv(c: Conn, limit: nat, w: nat)
    requires Inv(c) && Enabled(c, Execute(w, Hungry))
    ensures Inv(Next(c, limit, Execute(w, Hungry)))
  {
    OnlyTask(c, w);
    var request := c.tasks[w].request;
    assert c.buffer[0..] == c.buffer == request + c.buffer[|request|..];
    var d := Next(c, limit, Execute(w, Hungry));
    assert d.parsed + d.buffer[|request|..] == d.received;
  }

  lemma CompletedPhase(c: Conn, limit: nat, w: nat, result: Parsed)
    requires Enabled(c, Execute(w, result)) && result.Complete? && PhaseInv(c, c.tasks[w])
    ensures PhaseInv(Next(c, limit, Execute(w, result)), Deciding(result.used))
  {
    var used := result.used;
    var request := c.tasks[w].request;
    assert request[..used] == c.buffer[..used];
    assert c.buffer[0..] == c.buffer == c.buffer[..used] + c.buffer[used..];
    var d := Next(c, limit, Execute(w, result));
    assert d.parsed + d.buffer[used..] == d.received;
  }

  lemma CompleteKeepsInv(c: Conn, limit: nat, w: nat, result: Parsed)
    requires Inv(c) && Enabled(c, Execute(w, result)) && result.Complete?
    ensures Inv(Next(c, limit, Execute(w, result)))
  {
    OnlyTask(c, w);
    CompletedPhase(c, limit, w, result);
    AppendInOrder(c.sent, c.messages, Head(c.messages, result.range));
    OneTaskInv(Next(c, limit, Execute(w, result)), w, Deciding(result.used));
  }

  lemma ExecuteKeepsInv(c: Conn, limit: nat, e: Event)
    requires Inv(c) && Enabled(c, e) && e.Execute?
    ensures Inv(Next(c, limit, e))
  {
    match e.result
    case Error =>
      OnlyTask(c, e.w);
      assert c.buffer[0..] == c.buffer;
    case Hungry => HungryKeepsInv(c, limit, e.w);
    case Complete(_, _, _) => CompleteKeepsInv(c, limit, e.w, e.result);
  }

  lemma SentPhase(c: Conn, limit: nat, e: Event)
    requires Enabled(c, e) && e.SendPiece? && PhaseInv(c, c.tasks[e.w])
    requires !c.closed && c.tasks[e.w].task.start < c.tasks[e.w].task.end && e.data.Some?
    ensures var d := Next(c, limit, e); e.w in d.tasks && PhaseInv(d, d.tasks[e.w])
  {
    assert c.buffer[0..] == c.buffer;
  }

  /** The piece that a call appends to the response buffer. */
  function PieceOf(c: Conn, e: Event): Item
    requires Enabled(c, e) && e.SendPiece? && e.data.Some? && c.messages > 0
  {
    Piece(c.messages - 1, RangeOf(c.sent), c.tasks[e.w].task.start, e.data.value)
  }

  lemma SentKeepsRest(c: Conn, limit: nat, e: Event)
    requires Enabled(c, e) && e.SendPiece? && c.tasks == map[e.w := c.tasks[e.w]] && c.messages > 0
    requires !c.closed && c.tasks[e.w].task.start < c.tasks[e.w].task.end && e.data.Some?
    ensures var d := Next(c, limit, e);
            && e.w in d.tasks && d.tasks == map[e.w := d.tasks[e.w]] && d.next == c.next
            && d.sent == c.sent + [PieceOf(c, e)] && d.messages == c.messages
  {
  }

  lemma SentInOrder(c: Conn, e: Event)
    requires Inv(c) && Enabled(c, e) && e.SendPiece? && c.tasks[e.w].task.start < c.tasks[e.w].task.end
    requires e.data.Some?
    ensures c.messages > 0 && InOrder(c.sent + [PieceOf(c, e)], c.messages)
  {
    OnlyTask(c, e.w);
    AppendInOrder(c.sent, c.messages, PieceOf(c, e));
  }

  lemma SentKeepsInv(c: Conn, limit: nat, e: Event)
    requires Inv(c) && Enabled(c, e) && e.SendPiece?
    requires !c.closed && c.tasks[e.w].task.start < c.tasks[e.w].task.end && e.data.Some?
    ensures Inv(Next(c, limit, e))
  {
    OnlyTask(c, e.w);
    SentPhase(c, limit, e);
    SentInOrder(c, e);
    SentKeepsRest(c, limit, e);
    OneTaskInv(Next(c, limit, e), e.w, Next(c, limit, e).tasks[e.w]);
  }

  lemma SendKeepsInv(c: Conn, limit: nat, e: Event)
    requires Inv(c) && Enabled(c, e) && e.SendPiece?
    ensures Inv(Next(c, limit, e))
  {
    if !c.closed && c.tasks[e.w].task.start < c.tasks[e.w].task.end && e.data.Some? {
      SentKeepsInv(c, limit, e);
    } else {
      OnlyTask(c, e.w);
      assert c.buffer[0..] == c.buffer;
    }
  }

  lemma DecidedPhase(c: Conn, limit: nat, w: nat)
    requires Enabled(c, Decide(w)) && PhaseInv(c, c.tasks[w])
    ensures PhaseInv(Next(c, limit, Decide(w)), Scheduling)
  {
    var d := Next(c, limit, Decide(w));
    assert c.buffer[0..] == c.buffer && d.buffer[0..] == d.buffer;
    assert d.parsed + d.buffer == d.received;
  }

  lemma DecideKeepsRest(c: Conn, limit: nat, w: nat)
    requires Enabled(c, Decide(w)) && c.tasks == map[w := c.tasks[w]]
    ensures var d := Next(c, limit, Decide(w));
            d.tasks == map[w := Scheduling] && d.next == c.next && d.sent == c.sent && d.messages == c.messages
  {
  }

  lemma DecideKeepsInv(c: Conn, limit: nat, w: nat)
    requires Inv(c) && Enabled(c, Decide(w))
    ensures Inv(Next(c, limit, Decide(w)))
  {
    OnlyTask(c, w);
    DecidedPhase(c, limit, w);
    DecideKeepsRest(c, limit, w);
    OneTaskInv(Next(c, limit, Decide(w)), w, Scheduling);
  }

  lemma ScheduleKeepsInv(c: Conn, limit: nat, w: nat)
    requires Inv(c) && Enabled(c, Schedule(w))
    ensures Inv(Next(c, limit, Schedule(w)))
  {
    OnlyTask(c, w);
    assert c.buffer[0..] == c.buffer;
  }

  lemma NextKeepsInv(c: Conn, limit: nat, e: Event)
    requires Inv(c) && Enabled(c, e) && !InReleaseWindow(c, e)
    ensures Inv(Next(c, limit, e))
  {
    match e
    case Receive(bytes) => ReceiveKeepsInv(c, limit, bytes);
    case Except => ExceptKeepsInv(c, limit);
    case Begin(_) => BeginKeepsInv(c, limit, e);
    case Execute(_, _) => ExecuteKeepsInv(c, limit, e);
    case SendPiece(_, _) => SendKeepsInv(c, limit, e);
    case Decide(w) => DecideKeepsInv(c, limit, w);
    case Schedule(w) => ScheduleKeepsInv(c, limit, w);
  }

  // ---- Runs ----

  ghost predicate EnabledRun(c: Conn, limit: nat, es: seq<Event>)
    decreases |es|
  {
    es == [] || (Enabled(c, es[0]) && EnabledRun(Next(c, limit, es[0]), limit, es[1..]))
  }

  ghost function After(c: Conn, limit: nat, es: seq<Event>): Conn
    requires EnabledRun(c, limit, es)
    decreases |es|
  {
    if es == [] then c else After(Next(c, limit, es[0]), limit, es[1..])
  }

  /** No read arrives in a release window: a task decides and schedules in one go. */
  ghost predicate CalmRun(c: Conn, limit: nat, es: seq<Event>)
    requires EnabledRun(c, limit, es)
    decreases |es|
  {
    es != [] ==> !InReleaseWindow(c, es[0]) && CalmRun(Next(c, limit, es[0]), limit, es[1..])
  }

  lemma {:induction false} CalmRunKeepsInv(c: Conn, limit: nat, es: seq<Event>)
    requires Inv(c) && EnabledRun(c, limit, es) && CalmRun(c, limit, es)
    ensures Inv(After(c, limit, es))
    decreases |es|
  {
    if es != [] {
      NextKeepsInv(c, limit, es[0]);
      CalmRunKeepsInv(Next(c, limit, es[0]), limit, es[1..]);
    }
  }

  /** Over any calm run of a new connection: there is never more than one task; bytes that have
      been read and not parsed are in the request buffer; waiting bytes have a task, or the
      connection is closed or about to be; and the response buffer holds whole responses in the
      order of the requests. */
  lemma OneTaskNoLostWork(limit: nat, es: seq<Event>)
    requires EnabledRun(NEW, limit, es) && CalmRun(NEW, limit, es)
    ensures var c := After(NEW, limit, es);
            && AtMostOneTask(c)
            && (c.buffer != "" ==> c.tasks != map[] || c.closed || c.closing)
            && InOrder(c.sent, c.messages)
    ensures var c := After(NEW, limit, es);
            (forall w :: w in c.tasks ==> !c.tasks[w].Deciding?) ==> c.parsed + c.buffer == c.received
  {
    assert Inv(NEW);
    CalmRunKeepsInv(NEW, limit, es);
    var c := After(NEW, limit, es);
    if c.tasks != map[] && (forall w :: w in c.tasks ==> !c.tasks[w].Deciding?) {
      var w :| w in c.tasks;
      OnlyTask(c, w);
      assert c.buffer[0..] == c.buffer;
    }
  }

  /** A connection at rest has parsed all it read and owes nothing. */
  lemma AtRest(c: Conn)
    requires Inv(c) && c.tasks == map[] && !c.closed && !c.closing
    ensures c.parsed == c.received && !c.processing && (c.sent != [] ==> Finished(c.sent[|c.sent| - 1]))
  {
    assert c.buffer == "";
  }

  // ---- Left to itself, the connection gets through its input ----

  /** A turn of `handler` takes the first bytes of the request buffer: all of them, or as many as the limit. */
  lemma BeginTakes(c: Conn, limit: nat, w: nat)
    requires Enabled(c, Begin(w)) && !c.closed
    ensures var d := Next(c, limit, Begin(w));
            && w in d.tasks && d.tasks[w].Executing? && d.tasks[w].request <= c.buffer
            && |d.tasks[w].request| <= limit
            && (|d.tasks[w].request| == limit || d.tasks[w].request == c.buffer)
            && d == c.(subTask := None, tasks := c.tasks[w := d.tasks[w]])
  {
    if |c.buffer| <= limit {
      assert c.buffer[..|c.buffer|] == c.buffer;
    }
  }

  /** A step of the task itself that gets on: the parser accepts its input and takes something of it, ranges
      have no more than `size` bytes, and every piece of a file that is owed has some bytes. */
  predicate Diligent(c: Conn, size: nat, e: Event) {
    Enabled(c, e) &&
    match e
    case Receive(_) => false
    case Except => false
    case Execute(w, result) =>
      && !result.Error?
      && (result.Complete? ==>
            && result.used > 0 && !result.failed
            && (result.range.Some? ==> result.range.value.1 <= result.range.value.0 + size))
    case SendPiece(w, data) =>
      c.tasks[w].task.start < c.tasks[w].task.end ==> data.Some? && data.value != ""
    case _ => true
  }

  function Unparsed(c: Conn): int {
    |c.received| - |c.parsed|
  }

  /** How many steps a file's remaining bytes may take. */
  function Pieces(t: Task): nat {
    if t.Sending? && t.start < t.end then 2 * (t.end - t.start) + 3 else 3
  }

  /** How many steps follow after the next look at the request buffer, before it is parsed. */
  function Again(c: Conn): nat {
    if Unparsed(c) > 0 then 5 else 0
  }

  /** How many steps a task may take until the next bytes are parsed or it ends. */
  function Steps(c: Conn, p: Phase): nat {
    match p
    case Queued(t) => if t.Sending? then Pieces(t) + Again(c) else 4
    case Executing(_) => 3
    case Deciding(_) => 2 + Again(c) + (if c.subTask.Some? then Pieces(c.subTask.value) else 0)
    case Concluding => 2 + Again(c)
    case Scheduling =>
      if c.subTask.None? then 1
      else if c.subTask.value.Sending? then 1 + Pieces(c.subTask.value) + Again(c)
      else 5
  }

  /** The most steps that the task of a connection can take by itself. */
  function Budget(c: Conn, size: nat, w: nat): int {
    if w in c.tasks then Unparsed(c) * (2 * size + 12) + Steps(c, c.tasks[w]) else 0
  }

  /** A handler is called only when there are bytes for it. */
  predicate FedPhase(c: Conn, p: Phase) {
    match p
    case Queued(t) => t.Handling? ==> c.buffer != ""
    case Executing(request) => request != ""
    case Scheduling => c.subTask == Some(Handling) ==> c.buffer != ""
    case _ => true
  }

  ghost predicate Fed(c: Conn) {
    forall w :: w in c.tasks ==> FedPhase(c, c.tasks[w])
  }

  lemma MainKeepsFed(c: Conn, limit: nat, e: Event)
    requires Fed(c) && Enabled(c, e) && (e.Receive? || e.Except?)
    ensures Fed(Next(c, limit, e))
  {
  }

  lemma TurnKeepsFed(c: Conn, limit: nat, e: Event)
    requires Fed(c) && Enabled(c, e) && (e.Begin? || e.Decide? || e.Schedule?) && limit > 0
    requires c.tasks == map[e.w := c.tasks[e.w]] && PhaseInv(c, c.tasks[e.w])
    ensures var d := Next(c, limit, e); d.tasks.Keys <= {e.w} && (e.w in d.tasks ==> FedPhase(d, d.tasks[e.w]))
  {
  }

  lemma WorkKeepsFed(c: Conn, limit: nat, e: Event)
    requires Enabled(c, e) && (e.Execute? || e.SendPiece?) && c.tasks == map[e.w := c.tasks[e.w]]
    ensures var d := Next(c, limit, e); d.tasks.Keys <= {e.w} && (e.w in d.tasks ==> FedPhase(d, d.tasks[e.w]))
  {
  }

  lemma NextKeepsFed(c: Conn, limit: nat, e: Event)
    requires Inv(c) && Fed(c) && Enabled(c, e) && limit > 0
    ensures Fed(Next(c, limit, e))
  {
    if e.Receive? || e.Except? {
      MainKeepsFed(c, limit, e);
    } else {
      OnlyTask(c, e.w);
      if e.Execute? || e.SendPiece? {
        WorkKeepsFed(c, limit, e);
      } else {
        TurnKeepsFed(c, limit, e);
      }
      assert forall w :: w in Next(c, limit, e).tasks ==> w in Next(c, limit, e).tasks.Keys;
    }
  }

  lemma {:induction false} CalmRunKeepsFed(c: Conn, limit: nat, es: seq<Event>)
    requires Inv(c) && Fed(c) && EnabledRun(c, limit, es) && CalmRun(c, limit, es) && limit > 0
    ensures Inv(After(c, limit, es)) && Fed(After(c, limit, es))
    decreases |es|
  {
    if es != [] {
      NextKeepsInv(c, limit, es[0]);
      NextKeepsFed(c, limit, es[0]);
      CalmRunKeepsFed(Next(c, limit, es[0]), limit, es[1..]);
    }
  }

  lemma FewerBytes(unparsed: int, used: nat, per: nat)
    requires used > 0
    ensures (unparsed - used) * per <= unparsed * per - per
  {
    assert (unparsed - used) * per == unparsed * per - used * per;
    assert used * per >= per;
  }

  /** What has not been parsed is waiting in the buffer. */
  lemma UnparsedWaits(c: Conn, w: nat)
    requires Inv(c) && w in c.tasks
    ensures Unparsed(c) == |c.buffer| - Unerased(c.tasks[w]) >= 0
  {
    assert PhaseInv(c, c.tasks[w]);
  }

  lemma TurnGetsOn(c: Conn, limit: nat, size: nat, e: Event)
    requires Inv(c) && Fed(c) && !c.closed && Diligent(c, size, e) && (e.Begin? || e.Decide? || e.Schedule?)
    ensures Budget(Next(c, limit, e), size, e.w) < Budget(c, size, e.w)
  {
    UnparsedWaits(c, e.w);
  }

  lemma ParserGetsOn(c: Conn, limit: nat, size: nat, e: Event)
    requires Inv(c) && Fed(c) && !c.closed && Diligent(c, size, e) && e.Execute?
    ensures Budget(Next(c, limit, e), size, e.w) < Budget(c, size, e.w)
  {
    UnparsedWaits(c, e.w);
    var request := c.tasks[e.w].request;
    FewerBytes(Unparsed(c), if e.result.Complete? then e.result.used else |request|, 2 * size + 12);
  }

  lemma PieceGetsOn(c: Conn, limit: nat, size: nat, e: Event)
    requires Inv(c) && !c.closed && Diligent(c, size, e) && e.SendPiece?
    ensures Budget(Next(c, limit, e), size, e.w) < Budget(c, size, e.w)
  {
    UnparsedWaits(c, e.w);
  }

  /** A step of the task keeps the connection in order and leaves fewer steps to take. */
  lemma StepGetsOn(c: Conn, limit: nat, size: nat, e: Event)
    requires Inv(c) && Fed(c) && !c.closed && Diligent(c, size, e) && limit > 0
    ensures var d := Next(c, limit, e);
            && Inv(d) && Fed(d) && !d.closed && d.closing == c.closing && d.received == c.received
            && Budget(d, size, e.w) < Budget(c, size, e.w) && (forall v :: v in d.tasks ==> v == e.w)
  {
    NextKeepsInv(c, limit, e);
    NextKeepsFed(c, limit, e);
    OnlyTask(c, e.w);
    match e
    case Execute(_, _) => ParserGetsOn(c, limit, size, e);
    case SendPiece(_, _) => PieceGetsOn(c, limit, size, e);
    case _ => TurnGetsOn(c, limit, size, e);
  }

  lemma BudgetIsNatural(c: Conn, size: nat, w: nat)
    requires Inv(c)
    ensures Budget(c, size, w) >= 0
  {
    if w in c.tasks {
      UnparsedWaits(c, w);
      assert Unparsed(c) * (2 * size + 12) >= 0;
    }
  }

  /** A task can always take a step that gets on. */
  lemma CanGetOn(c: Conn, size: nat, w: nat) returns (e: Event)
    requires Inv(c) && w in c.tasks
    ensures Diligent(c, size, e)
  {
    e := match c.tasks[w]
         case Queued(t) => if t.Handling? then Begin(w) else SendPiece(w, Some("x"))
         case Executing(_) => Execute(w, Hungry)
         case Scheduling => Schedule(w)
         case _ => Decide(w);
  }

  /** Nothing happens in the run but steps of the task that get on. */
  ghost predicate DiligentRun(c: Conn, limit: nat, size: nat, es: seq<Event>)
    requires EnabledRun(c, limit, es)
    decreases |es|
  {
    es != [] ==> Diligent(c, size, es[0]) && DiligentRun(Next(c, limit, es[0]), limit, size, es[1..])
  }

  lemma {:induction false} DiligentRunEnds(c: Conn, limit: nat, size: nat, w: nat, es: seq<Event>)
    requires Inv(c) && Fed(c) && !c.closed && !c.closing && limit > 0 && (forall v :: v in c.tasks ==> v == w)
    requires EnabledRun(c, limit, es) && DiligentRun(c, limit, size, es)
    ensures var d := After(c, limit, es);
            && Inv(d) && !d.closed && !d.closing && d.received == c.received
            && |es| + Budget(d, size, w) <= Budget(c, size, w) && (forall v :: v in d.tasks ==> v == w)
    decreases |es|
  {
    if es != [] {
      StepGetsOn(c, limit, size, es[0]);
      DiligentRunEnds(Next(c, limit, es[0]), limit, size, w, es[1..]);
    }
  }

  /** Left to its own task, with a parser that accepts its input, a connection takes no more steps than its
      budget; until the task has ended it can take another one; and then all that was read is parsed. */
  lemma InputIsParsed(limit: nat, es: seq<Event>, size: nat, w: nat, own: seq<Event>)
    requires limit > 0 && EnabledRun(NEW, limit, es) && CalmRun(NEW, limit, es)
    requires var c := After(NEW, limit, es);
             && !c.closed && !c.closing && w in c.tasks && EnabledRun(c, limit, own) && DiligentRun(c, limit, size, own)
    ensures var c := After(NEW, limit, es);
            var d := After(c, limit, own);
            && |own| <= Budget(c, size, w)
            && (w in d.tasks ==> exists e :: Diligent(d, size, e))
            && (w !in d.tasks ==> d.parsed == d.received == c.received && !d.processing)
  {
    assert Inv(NEW) && Fed(NEW);
    CalmRunKeepsFed(NEW, limit, es);
    var c := After(NEW, limit, es);
    OnlyTask(c, w);
    DiligentRunEnds(c, limit, size, w, own);
    var d := After(c, limit, own);
    BudgetIsNatural(d, size, w);
    if w in d.tasks {
      var e := CanGetOn(d, size, w);
    } else {
      assert d.tasks == map[];
      AtRest(d);
    }
  }

  // ---- Closing ----

  /** Closing sets the flag and nothing else. */
  lemma ExceptCloses(c: Conn, limit: nat)
    requires Enabled(c, Except)
    ensures var d := Next(c, limit, Except); d.closed && d == c.(closed := true)
  {
  }

  /** A task asks for the connection to be closed: the parser fails, an answer fails, or a piece of a file
      cannot be had. */
  predicate AsksToClose(c: Conn, e: Event)
    requires Enabled(c, e)
  {
    || (e.Execute? && (e.result.Error? || (e.result.Complete? && e.result.failed)))
    || (e.SendPiece? && !c.closed && e.data.None? && c.tasks[e.w].task.start < c.tasks[e.w].task.end)
  }

  /** Only the main thread closes a connection; a task asks for it exactly when something has failed, and
      unless that is the answer it ends. */
  lemma ClosingIff(c: Conn, limit: nat, e: Event)
    requires Enabled(c, e)
    ensures var d := Next(c, limit, e);
            && (d.closed <==> c.closed || e.Except?)
            && (d.closing <==> c.closing || AsksToClose(c, e))
            && (AsksToClose(c, e) && !(e.Execute? && e.result.Complete?) ==> e.w !in d.tasks)
  {
  }

  /** A task that is called on a closed connection ends at once, and does nothing. */
  lemma ClosedTaskEnds(c: Conn, limit: nat, e: Event)
    requires Enabled(c, e) && c.closed && (e.Begin? || e.SendPiece?)
    ensures Next(c, limit, e) == c.(tasks := c.tasks - {e.w})
  {
  }

  /** How many steps a task of a closed connection has before it. */
  function LastSteps(p: Phase): nat {
    match p
    case Queued(_) => 1
    case Scheduling => 2
    case Executing(_) => 4
    case _ => 3
  }

  lemma ClosedStep(c: Conn, limit: nat, e: Event)
    requires Inv(c) && c.closed && Enabled(c, e)
    ensures !e.Receive? && !e.Except? && c.tasks == map[e.w := c.tasks[e.w]]
    ensures var d := Next(c, limit, e);
            && d.closed && d.received == c.received
            && (d.tasks == map[] || (d.tasks == map[e.w := d.tasks[e.w]] && !d.tasks[e.w].Executing?
                                     && LastSteps(d.tasks[e.w]) < LastSteps(c.tasks[e.w])))
  {
    OnlyTask(c, e.w);
  }

  lemma ClosedSends(c: Conn, limit: nat, e: Event)
    requires Inv(c) && c.closed && Enabled(c, e)
    ensures var d := Next(c, limit, e); |d.sent| <= |c.sent| + 1 && (!e.Execute? ==> d.sent == c.sent)
  {
  }

  /** A closed connection takes no more bytes and is done within four steps, in which it appends no more
      than the answer to a message that is being parsed. */
  lemma {:induction false} ClosedIsDone(c: Conn, limit: nat, es: seq<Event>, w: nat)
    requires Inv(c) && c.closed && EnabledRun(c, limit, es) && (forall v :: v in c.tasks ==> v == w)
    ensures var d := After(c, limit, es);
            && d.closed && d.received == c.received
            && |es| <= (if w in c.tasks then LastSteps(c.tasks[w]) else 0)
            && |d.sent| <= |c.sent| + (if w in c.tasks && c.tasks[w].Executing? then 1 else 0)
    decreases |es|
  {
    if es != [] {
      ClosedStep(c, limit, es[0]);
      ClosedSends(c, limit, es[0]);
      NextKeepsInv(c, limit, es[0]);
      ClosedIsDone(Next(c, limit, es[0]), limit, es[1..], w);
    }
  }

  // ---- What the events leave in the books ----

  /** The bytes that arrive in a run. */
  function Arrived(es: seq<Event>): string {
    if es == [] then "" else (if es[0].Receive? then es[0].bytes else "") + Arrived(es[1..])
  }

  predicate Completes(e: Event) {
    e.Execute? && e.result.Complete?
  }

  /** The ranges of the messages that are completed in a run, in order. */
  function Answered(es: seq<Event>): seq<Option<(nat, nat)>> {
    if es == [] then [] else (if Completes(es[0]) then [es[0].result.range] else []) + Answered(es[1..])
  }

  /** The ranges of the headers in the response buffer, in order. */
  function Headers(sent: seq<Item>): seq<Option<(nat, nat)>> {
    if sent == [] then [] else
    var last := sent[|sent| - 1];
    Headers(sent[..|sent| - 1]) + (if last.Head? then [last.range] else [])
  }

  lemma HeadersSnoc(sent: seq<Item>, item: Item)
    ensures Headers(sent + [item]) == Headers(sent) + (if item.Head? then [item.range] else [])
  {
    assert (sent + [item])[..|sent|] == sent;
  }

  lemma NextReceives(c: Conn, limit: nat, e: Event)
    requires Enabled(c, e)
    ensures Next(c, limit, e).received == c.received + (if e.Receive? then e.bytes else "")
  {
    assert c.received + "" == c.received;
  }

  lemma NextSends(c: Conn, limit: nat, e: Event)
    requires Enabled(c, e)
    ensures var d := Next(c, limit, e);
            if Completes(e) then d.sent == c.sent + [Head(c.messages, e.result.range)]
            else d.sent == c.sent || (d.sent != [] && d.sent[|d.sent| - 1].Piece? && d.sent[..|d.sent| - 1] == c.sent)
  {
  }

  lemma NextAnswers(c: Conn, limit: nat, e: Event)
    requires Enabled(c, e)
    ensures Headers(Next(c, limit, e).sent) == Headers(c.sent) + (if Completes(e) then [e.result.range] else [])
  {
    NextSends(c, limit, e);
    assert Headers(c.sent) + [] == Headers(c.sent);
    if Completes(e) {
      HeadersSnoc(c.sent, Head(c.messages, e.result.range));
    }
  }

  /** What the connection has received are the bytes that arrived, and its responses are one header for each
      message that the parser has completed, in order. */
  lemma {:induction false} BooksAreTrue(c: Conn, limit: nat, es: seq<Event>)
    requires EnabledRun(c, limit, es)
    ensures After(c, limit, es).received == c.received + Arrived(es)
    ensures Headers(After(c, limit, es).sent) == Headers(c.sent) + Answered(es)
    decreases |es|
  {
    if es == [] {
      assert c.received + "" == c.received && Headers(c.sent) + [] == Headers(c.sent);
    } else {
      var e, rest := es[0], es[1..];
      NextReceives(c, limit, e);
      NextAnswers(c, limit, e);
      BooksAreTrue(Next(c, limit, e), limit, rest);
      JoinsToRight(c.received, if e.Receive? then e.bytes else "", Arrived(rest));
      JoinsToRight(Headers(c.sent), if Completes(e) then [e.result.range] else [], Answered(rest));
    }
  }

  // ---- What the client receives ----

  function Data(sent: seq<Item>): string {
    if sent == [] then "" else
    var last := sent[|sent| - 1];
    Data(sent[..|sent| - 1]) + (if last.Piece? then last.data else "")
  }

  lemma InOrderFront(sent: seq<Item>, messages: nat)
    requires InOrder(sent, messages) && |sent| > 1
    ensures var front := sent[..|sent| - 1]; InOrder(front, front[|front| - 1].message + 1)
  {
    var front := sent[..|sent| - 1];
    forall i | 0 <= i < |front| - 1
      ensures InStep(front, i)
    {
      assert InStep(sent, i);
    }
    if |front| > 1 {
      assert InStep(front, |front| - 2);
    }
  }

  lemma DataSnoc(sent: seq<Item>, h: nat)
    requires h < |sent| - 1 && sent[|sent| - 1].Piece?
    ensures Data(sent[h..]) == Data(sent[..|sent| - 1][h..]) + sent[|sent| - 1].data
  {
    assert sent[h..][..|sent| - 1 - h] == sent[..|sent| - 1][h..];
  }

  /** The pieces that follow a header add up to the distance covered in its file: with the file
      finished exactly at its end, that is the announced length. */
  lemma {:induction false} BodyLength(sent: seq<Item>, messages: nat, h: nat)
    requires InOrder(sent, messages) && h < |sent| && sent[h].Head?
    requires forall i :: h < i < |sent| ==> sent[i].Piece?
    ensures Reached(sent[|sent| - 1]) == Reached(sent[h]) + |Data(sent[h..])|
    ensures sent[|sent| - 1].range == sent[h].range
    decreases |sent|
  {
    if h == |sent| - 1 {
      assert sent[h..] == [sent[h]];
      assert sent[h..][..0] == [];
    } else {
      var n := |sent| - 1;
      assert InStep(sent, n - 1);
      InOrderFront(sent, messages);
      BodyLength(sent[..n], sent[n - 1].message + 1, h);
      DataSnoc(sent, h);
    }
  }

  /** Every piece of a body is the part of the file that it says it is. */
  ghost predicate Truthful(sent: seq<Item>, h: nat, content: string) {
    forall i :: h < i < |sent| && sent[i].Piece? ==>
      && sent[i].start + |sent[i].data| <= |content|
      && sent[i].data == content[sent[i].start..sent[i].start + |sent[i].data|]
  }

  lemma PieceJoins(content: string, from: nat, piece: Item, before: string)
    requires piece.Piece? && from <= piece.start && Reached(piece) <= |content|
    requires before == content[from..piece.start] && piece.data == content[piece.start..Reached(piece)]
    ensures before + piece.data == content[from..Reached(piece)]
  {
  }

  lemma JustTheHead(sent: seq<Item>)
    requires sent != [] && sent[|sent| - 1].Head?
    ensures Data(sent[|sent| - 1..]) == ""
  {
    var h := |sent| - 1;
    assert sent[h..] == [sent[h]];
    assert sent[h..][..0] == [];
  }

  /** What is sent from item `h` on is the file from where `h` reaches to where the last item reaches. */
  predicate IsStretch(sent: seq<Item>, h: nat, content: string)
    requires h < |sent|
  {
    var from, to := Reached(sent[h]), Reached(sent[|sent| - 1]);
    from <= to <= |content| && Data(sent[h..]) == content[from..to]
  }

  /** One more piece. */
  lemma BodyGrows(sent: seq<Item>, messages: nat, h: nat, content: string)
    requires InOrder(sent, messages) && h < |sent| - 1 && sent[|sent| - 1].Piece?
    requires Truthful(sent, h, content) && IsStretch(sent[..|sent| - 1], h, content)
    ensures IsStretch(sent, h, content)
  {
    var n := |sent| - 1;
    DataSnoc(sent, h);
    assert InStep(sent, n - 1) && sent[..n][h] == sent[h] && sent[..n][n - 1] == sent[n - 1];
    PieceJoins(content, Reached(sent[h]), sent[n], Data(sent[..n][h..]));
  }

  /** If every piece is what it says it is, the client receives one unbroken stretch of the file:
      from the start of the range as far as the last piece reaches. */
  lemma {:induction false} BodyIsTheFile(sent: seq<Item>, messages: nat, h: nat, content: string)
    requires InOrder(sent, messages) && h < |sent| && sent[h].Head?
    requires forall i :: h < i < |sent| ==> sent[i].Piece?
    requires Truthful(sent, h, content) && Reached(sent[h]) <= |content|
    ensures IsStretch(sent, h, content)
    decreases |sent|
  {
    var n := |sent| - 1;
    if h == n {
      JustTheHead(sent);
      assert content[Reached(sent[h])..Reached(sent[h])] == "";
    } else {
      InOrderFront(sent, messages);
      BodyIsTheFile(sent[..n], sent[n - 1].message + 1, h, content);
      BodyGrows(sent, messages, h, content);
    }
  }

  // ---- The release window ----

  /** A task has cleared `_is_processing` and has not looked at `_sub_task` yet. */
  const RELEASED := NEW.(received := "a", parsed := "a", tasks := map[0 := Scheduling], next := 1)

  const FILE := Complete(1, Some((0, 5)), false)

  lemma ReachesRelease(limit: nat, rest: seq<Event>) returns (es: seq<Event>)
    requires limit > 0 && EnabledRun(RELEASED, limit, rest)
    ensures EnabledRun(NEW, limit, es) && After(NEW, limit, es) == After(RELEASED, limit, rest)
    ensures CalmRun(NEW, limit, es) ==> CalmRun(RELEASED, limit, rest)
  {
    var c1 := Next(NEW, limit, Receive("a"));
    assert c1.buffer == "a" && "a"[..1] == "a";
    var c2 := Next(c1, limit, Begin(0));
    assert c2.tasks == map[0 := Executing("a")];
    var c3 := Next(c2, limit, Execute(0, Hungry));
    assert c3.parsed == "a" && c3.buffer == "a" && c3.tasks == map[0 := Deciding(1)];
    assert Next(c3, limit, Decide(0)) == RELEASED;
    Prepend(c3, limit, Decide(0), rest);
    es := [Decide(0)] + rest;
    Prepend(c2, limit, Execute(0, Hungry), es);
    es := [Execute(0, Hungry)] + es;
    Prepend(c1, limit, Begin(0), es);
    es := [Begin(0)] + es;
    Prepend(NEW, limit, Receive("a"), es);
    es := [Receive("a")] + es;
  }

  /** The new task has set `_sub_task`, which the old task is about to look at. */
  const TAKEN := NEW.(received := "ab", parsed := "ab", buffer := "b", processing := true,
                      subTask := Some(Sending(0, 5)), tasks := map[0 := Scheduling, 1 := Deciding(1)], next := 2,
                      messages := 1, sent := [Head(0, Some((0, 5)))])

  lemma ReachesTaken(limit: nat, rest: seq<Event>) returns (es: seq<Event>)
    requires limit > 0 && EnabledRun(TAKEN, limit, rest)
    ensures EnabledRun(RELEASED, limit, es) && !CalmRun(RELEASED, limit, es)
    ensures After(RELEASED, limit, es) == After(TAKEN, limit, rest)
  {
    assert 0 in RELEASED.tasks && InReleaseWindow(RELEASED, Receive("b"));
    var c1 := Next(RELEASED, limit, Receive("b"));
    assert c1.buffer == "b" && "b"[..1] == "b" && "a" + "b" == "ab";
    var c2 := Next(c1, limit, Begin(1));
    assert c2.tasks == map[0 := Scheduling, 1 := Executing("b")];
    assert Next(c2, limit, Execute(1, FILE)) == TAKEN;
    Prepend(c2, limit, Execute(1, FILE), rest);
    es := [Execute(1, FILE)] + rest;
    Prepend(c1, limit, Begin(1), es);
    es := [Begin(1)] + es;
    Prepend(RELEASED, limit, Receive("b"), es);
    es := [Receive("b")] + es;
  }

  lemma BothSchedule(limit: nat) returns (es: seq<Event>)
    ensures EnabledRun(TAKEN, limit, es)
    ensures After(TAKEN, limit, es).tasks == map[0 := Queued(Sending(0, 5)), 1 := Queued(Sending(0, 5))]
  {
    var c4 := Next(TAKEN, limit, Schedule(0));
    assert c4.tasks == map[0 := Queued(Sending(0, 5)), 1 := Deciding(1)];
    var c5 := Next(c4, limit, Decide(1));
    assert c5.tasks == map[0 := Queued(Sending(0, 5)), 1 := Scheduling];
    var c6 := Next(c5, limit, Schedule(1));
    assert EnabledRun(c6, limit, []);
    Prepend(c5, limit, Schedule(1), []);
    es := [Schedule(1)] + [];
    Prepend(c4, limit, Decide(1), es);
    es := [Decide(1)] + es;
    Prepend(TAKEN, limit, Schedule(0), es);
    es := [Schedule(0)] + es;
  }

  /** The condition is needed: with one read in the release window, a file request answered by the
      new task is scheduled by the old task as well. */
  lemma ReadInWindowMakesTwoTasks(limit: nat) returns (es: seq<Event>)
    requires limit > 0
    ensures EnabledRun(NEW, limit, es) && !CalmRun(NEW, limit, es)
    ensures After(NEW, limit, es).tasks == map[0 := Queued(Sending(0, 5)), 1 := Queued(Sending(0, 5))]
  {
    es := BothSchedule(limit);
    es := ReachesTaken(limit, es);
    es := ReachesRelease(limit, es);
  }

  // ---- Exactly which runs have one task ----

  /** Every state along the run has at most one task. */
  ghost predicate OneTaskThroughout(c: Conn, limit: nat, es: seq<Event>)
    requires EnabledRun(c, limit, es)
    decreases |es|
  {
    AtMostOneTask(c) && (es != [] ==> OneTaskThroughout(Next(c, limit, es[0]), limit, es[1..]))
  }

  /** A read in the release window starts a second task beside the one that is about to schedule. */
  lemma WindowMakesTwo(c: Conn, limit: nat, e: Event)
    requires Inv(c) && Enabled(c, e) && InReleaseWindow(c, e)
    ensures !AtMostOneTask(Next(c, limit, e))
  {
    var w :| w in c.tasks;
    assert w < c.next;
    assert w in Next(c, limit, e).tasks && c.next in Next(c, limit, e).tasks;
  }

  /** A run keeps to one task in all its states if and only if no read arrives in a release window. */
  lemma {:induction false} OneTaskIffCalm(c: Conn, limit: nat, es: seq<Event>)
    requires Inv(c) && EnabledRun(c, limit, es)
    ensures OneTaskThroughout(c, limit, es) <==> CalmRun(c, limit, es)
    decreases |es|
  {
    if es != [] {
      if InReleaseWindow(c, es[0]) {
        WindowMakesTwo(c, limit, es[0]);
      } else {
        NextKeepsInv(c, limit, es[0]);
        OneTaskIffCalm(Next(c, limit, es[0]), limit, es[1..]);
      }
    }
  }

  lemma Prepend(c: Conn, limit: nat, e: Event, es: seq<Event>)
    requires Enabled(c, e) && EnabledRun(Next(c, limit, e), limit, es)
    ensures EnabledRun(c, limit, [e] + es)
    ensures After(c, limit, [e] + es) == After(Next(c, limit, e), limit, es)
    ensures CalmRun(c, limit, [e] + es) <==> !InReleaseWindow(c, e) && CalmRun(Next(c, limit, e), limit, es)
  {
    assert ([e] + es)[1..] == es;
  }

  // ---- The object ----

  /** The fields of `HTTPConnection` that the protocol works on. Each method is one stretch of the
      code, and acts as the event of the machine above whatever the rest of the state is. */
  class HttpConnection {
    var isClosed: bool
    var isProcessing: bool
    var requestBuffer: string
    var subTask: Option<Task>

    predicate Shows(c: Conn)
      reads this
    {
      c.closed == isClosed && c.processing == isProcessing && c.buffer == requestBuffer && c.subTask == subTask
    }

    constructor ()
      ensures Shows(NEW)
    {
      isClosed, isProcessing, requestBuffer, subTask := false, false, "", None;
    }

    /** The locked part of `NetReader`; `push` says that a handler goes to the pool. */
    method NetRead(bytes: string) returns (push: bool)
      modifies this
      ensures push == !old(isProcessing)
      ensures forall c, limit :: old(Shows(c)) && Enabled(c, Receive(bytes)) ==>
                var d := Next(c, limit, Receive(bytes));
                Shows(d) && d.tasks == if push then c.tasks[c.next := Queued(Handling)] else c.tasks
    {
      var i := 0;
      while i < |bytes|
        invariant i <= |bytes| && requestBuffer == old(requestBuffer) + bytes[..i]
        invariant isClosed == old(isClosed) && isProcessing == old(isProcessing) && subTask == old(subTask)
      {
        requestBuffer := requestBuffer + [bytes[i]];
        i := i + 1;
      }
      assert bytes[..i] == bytes;
      push := !isProcessing;
      if !isProcessing {
        isProcessing := true;
      }
    }

    method NetExcept()
      modifies this`isClosed
      ensures isClosed
      ensures forall c, limit :: old(Shows(c)) && Enabled(c, Except) ==> Shows(Next(c, limit, Except))
    {
      isClosed := true;
    }

    /** `handler` up to the call of the parser. */
    method TakeRequest(limit: nat) returns (request: Option<string>)
      modifies this`subTask
      ensures request.Some? <==> !isClosed
      ensures request.Some? ==>
                && subTask == None && request.value <= requestBuffer && |request.value| <= limit
                && (|request.value| == limit || request.value == requestBuffer)
      ensures request.None? ==> subTask == old(subTask)
      ensures forall c, w :: old(Shows(c)) && Enabled(c, Begin(w)) ==>
                var d := Next(c, limit, Begin(w));
                Shows(d) && (if request.Some? then d == Become(d, w, Executing(request.value)) else d == End(c, w))
    {
      if isClosed {
        return None;
      }
      subTask := None;
      var size := Min(|requestBuffer|, limit);
      return Some(requestBuffer[..size]);
    }

    /** The locked part at the end of `handler` (`used` bytes were parsed) and of `sendFile` (none). */
    method Release(used: nat)
      requires used <= |requestBuffer|
      modifies this
      ensures forall c, limit, w :: old(Shows(c)) && Enabled(c, Decide(w)) && Unerased(c.tasks[w]) == used ==>
                Shows(Next(c, limit, Decide(w)))
    {
      requestBuffer := requestBuffer[used..];
      if subTask == None {
        if requestBuffer == "" {
          isProcessing := false;
        } else {
          subTask := Some(Handling);
        }
      }
    }
  }
}
