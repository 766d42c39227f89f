/** The bounded task queue of the thread pool: a ring of slots, two semaphores and two mutexes.

    Producers and consumers take different mutexes, so a producer and a consumer can be inside
    their critical sections together. Each event is one step of one thread. */
module ThreadPool {

  import opened Wrappers

  /** Where a thread is in `push`/`try_push` or in a turn of `ThreadRUN`, once it has its permit.
      `Moved` is after the slot has been written (or emptied) and the position advanced, `Wrapped`
      after the position has been reduced. Only a consumer is ever at `Copied`. */
  datatype Phase<T> =
    | Permitted(task: Option<T>)
    | Locked(task: Option<T>)
    | Copied(task: Option<T>)
    | Moved(task: Option<T>)
    | Wrapped(task: Option<T>)
    | Unlocked(task: Option<T>)

  /** `pushed` and `taken` record the tasks written to and taken from slots, in order. */
  datatype Pool<T> = Pool(
    slots: seq<Option<T>>,
    producerPos: nat,
    consumerPos: nat,
    free: nat,
    ready: nat,
    producerLock: Option<nat>,
    consumerLock: Option<nat>,
    producers: map<nat, Phase<T>>,
    consumers: map<nat, Phase<T>>,
    pushed: seq<T>,
    taken: seq<T>)

  datatype Event<T> =
    | WaitFree(p: nat, task: T)
    | LockProducer(p: nat)
    | WriteSlot(p: nat)
    | WrapProducer(p: nat)
    | UnlockProducer(p: nat)
    | PostReady(p: nat)
    | WaitReady(p: nat)
    | LockConsumer(p: nat)
    | CopySlot(p: nat)
    | EmptySlot(p: nat)
    | WrapConsumer(p: nat)
    | UnlockConsumer(p: nat)
    | PostFree(p: nat)

  predicate Enabled<T>(q: Pool<T>, e: Event<T>) {
    match e
    case WaitFree(p, task) => p !in q.producers && q.free > 0
    case LockProducer(p) => p in q.producers && q.producers[p].Permitted? && q.producerLock == None
    case WriteSlot(p) => p in q.producers && q.producers[p].Locked?
    case WrapProducer(p) => p in q.producers && q.producers[p].Moved?
    case UnlockProducer(p) => p in q.producers && q.producers[p].Wrapped?
    case PostReady(p) => p in q.producers && q.producers[p].Unlocked?
    case WaitReady(p) => p !in q.consumers && q.ready > 0
    case LockConsumer(p) => p in q.consumers && q.consumers[p].Permitted? && q.consumerLock == None
    case CopySlot(p) => p in q.consumers && q.consumers[p].Locked?
    case EmptySlot(p) => p in q.consumers && q.consumers[p].Copied?
    case WrapConsumer(p) => p in q.consumers && q.consumers[p].Moved?
    case UnlockConsumer(p) => p in q.consumers && q.consumers[p].Wrapped?
    case PostFree(p) => p in q.consumers && q.consumers[p].Unlocked?
  }

  /** The slot that a thread works on: the position is used before it is reduced, and an index
      outside the ring would touch no slot. */
  function Get<T>(s: seq<Option<T>>, i: nat): Option<T> {
    if i < |s| then s[i] else None
  }

  function Set<T>(s: seq<Option<T>>, i: nat, v: Option<T>): seq<Option<T>> {
    if i < |s| then s[i := v] else s
  }

  function Listed<T>(t: Option<T>): seq<T> {
    if t.Some? then [t.value] else []
  }

  function Next<T>(q: Pool<T>, e: Event<T>): Pool<T>
    requires |q.slots| > 0 && Enabled(q, e)
  {
    match e
    case WaitFree(p, task) => q.(free := q.free - 1, producers := q.producers[p := Permitted(Some(task))])
    case LockProducer(p) => q.(producerLock := Some(p), producers := q.producers[p := Locked(q.producers[p].task)])
    case WriteSlot(p) =>
      var task := q.producers[p].task;
      q.(slots := Set(q.slots, q.producerPos, task), producerPos := q.producerPos + 1,
         pushed := q.pushed + Listed(task), producers := q.producers[p := Moved(task)])
    case WrapProducer(p) =>
      q.(producerPos := q.producerPos % |q.slots|, producers := q.producers[p := Wrapped(q.producers[p].task)])
    case UnlockProducer(p) => q.(producerLock := None, producers := q.producers[p := Unlocked(q.producers[p].task)])
    case PostReady(p) => q.(ready := q.ready + 1, producers := q.producers - {p})
    case WaitReady(p) => q.(ready := q.ready - 1, consumers := q.consumers[p := Permitted(None)])
    case LockConsumer(p) => q.(consumerLock := Some(p), consumers := q.consumers[p := Locked(None)])
    case CopySlot(p) => q.(consumers := q.consumers[p := Copied(Get(q.slots, q.consumerPos))])
    case EmptySlot(p) =>
      var task := q.consumers[p].task;
      q.(slots := Set(q.slots, q.consumerPos, None), consumerPos := q.consumerPos + 1,
         taken := q.taken + Listed(task), consumers := q.consumers[p := Moved(task)])
    case WrapConsumer(p) =>
      q.(consumerPos := q.consumerPos % |q.slots|, consumers := q.consumers[p := Wrapped(q.consumers[p].task)])
    case UnlockConsumer(p) => q.(consumerLock := None, consumers := q.consumers[p := Unlocked(q.consumers[p].task)])
    case PostFree(p) => q.(free := q.free + 1, consumers := q.consumers - {p})
  }

  function New<T>(capacity: nat): Pool<T> {
    Pool(seq(capacity, i => None), 0, 0, capacity, 0, None, None, map[], map[], [], [])
  }

  // ---- Counting threads ----

  predicate Before<T>(p: Phase<T>) {
    p.Permitted? || p.Locked? || p.Copied?
  }

  /** The threads that have a permit and have (or have not) used it on a slot yet. */
  function Threads<T>(m: map<nat, Phase<T>>, before: bool): set<nat> {
    set p | p in m && Before(m[p]) == before
  }

  function Count<T>(m: map<nat, Phase<T>>, before: bool): nat {
    |Threads(m, before)|
  }

  function One(b: bool): int {
    if b then 1 else 0
  }

  lemma CountAdd<T>(m: map<nat, Phase<T>>, p: nat, v: Phase<T>, before: bool)
    requires p !in m
    ensures Count(m[p := v], before) == Count(m, before) + One(Before(v) == before)
  {
    var more := m[p := v];
    assert forall x :: x in Threads(more, before) <==> x in Threads(m, before) || (x == p && Before(v) == before);
    if Before(v) == before {
      assert Threads(more, before) == Threads(m, before) + {p};
    } else {
      assert Threads(more, before) == Threads(m, before);
    }
  }

  lemma CountDrop<T>(m: map<nat, Phase<T>>, p: nat, before: bool)
    requires p in m
    ensures Count(m - {p}, before) == Count(m, before) - One(Before(m[p]) == before)
  {
    assert Threads(m - {p}, before) == Threads(m, before) - {p};
  }

  lemma CountSet<T>(m: map<nat, Phase<T>>, p: nat, v: Phase<T>, before: bool)
    ensures Count(m[p := v], before)
         == Count(m, before) - One(p in m && Before(m[p]) == before) + One(Before(v) == before)
  {
    if p in m {
      CountDrop(m, p, before);
      CountAdd(m - {p}, p, v, before);
      assert (m - {p})[p := v] == m[p := v];
    } else {
      CountAdd(m, p, v, before);
    }
  }

  lemma Counted<T>(m: map<nat, Phase<T>>, p: nat)
    requires p in m
    ensures Count(m, Before(m[p])) > 0
  {
    assert p in Threads(m, Before(m[p]));
  }

  // ---- The invariant ----

  function Occupied<T>(q: Pool<T>): int {
    |q.pushed| - |q.taken|
  }

  /** Every unit of capacity is a free permit, a producer yet to write, an occupied slot, or a
      consumer yet to post; and every occupied slot is accounted for on the other side. */
  ghost predicate Permits<T>(q: Pool<T>) {
    && q.free + Count(q.producers, true) + Occupied(q) + Count(q.consumers, false) == |q.slots|
    && q.ready + Count(q.consumers, true) + Count(q.producers, false) == Occupied(q)
  }

  predicate Inside<T>(p: Phase<T>) {
    p.Locked? || p.Copied? || p.Moved? || p.Wrapped?
  }

  /** The mutex is held by the one thread that is inside. */
  ghost predicate Exclusive<T>(lock: Option<nat>, m: map<nat, Phase<T>>) {
    forall p :: p in m ==> (Inside(m[p]) <==> lock == Some(p))
  }

  ghost predicate Held<T>(lock: Option<nat>, m: map<nat, Phase<T>>) {
    lock.Some? ==> lock.value in m && Inside(m[lock.value])
  }

  predicate Advanced<T>(lock: Option<nat>, m: map<nat, Phase<T>>) {
    lock.Some? && lock.value in m && m[lock.value].Moved?
  }

  /** The slot that the `i`-th task goes through. */
  function Slot(i: nat, capacity: nat): (j: nat)
    requires capacity > 0
    ensures j < capacity
    decreases i
  {
    if i < capacity then i else Slot(i - capacity, capacity)
  }

  /** A position is the number of tasks that went through it, reduced; between the increment and
      the reduction it may be one past the end. */
  predicate Position(pos: nat, through: nat, capacity: nat, advanced: bool)
    requires capacity > 0
  {
    if advanced then through > 0 && pos == Slot(through - 1, capacity) + 1 else pos == Slot(through, capacity)
  }

  /** The slots of the tasks that are pushed and not taken hold them, and all others are empty. */
  ghost predicate Filled<T>(slots: seq<Option<T>>, pushed: seq<T>, taken: seq<T>)
    requires |slots| > 0
  {
    && taken <= pushed
    && (forall i :: |taken| <= i < |pushed| ==> slots[Slot(i, |slots|)] == Some(pushed[i]))
    && (forall j :: 0 <= j < |slots| && slots[j].Some? ==> exists i :: |taken| <= i < |pushed| && Slot(i, |slots|) == j)
  }

  /** A producer carries a task until it posts, and a consumer that has copied has the next task. */
  ghost predicate Carries<T>(producers: map<nat, Phase<T>>, consumers: map<nat, Phase<T>>,
                             pushed: seq<T>, taken: seq<T>)
  {
    && (forall p :: p in producers ==> producers[p].task.Some? && !producers[p].Copied?)
    && (forall p :: p in consumers && consumers[p].Copied? ==>
          |taken| < |pushed| && consumers[p].task == Some(pushed[|taken|]))
  }

  /** One side's mutex and position. */
  ghost predicate Side<T>(lock: Option<nat>, m: map<nat, Phase<T>>, pos: nat, through: nat, capacity: nat)
    requires capacity > 0
  {
    Exclusive(lock, m) && Held(lock, m) && Position(pos, through, capacity, Advanced(lock, m))
  }

  ghost predicate Inv<T>(q: Pool<T>) {
    && |q.slots| > 0
    && Permits(q) && Filled(q.slots, q.pushed, q.taken) && Carries(q.producers, q.consumers, q.pushed, q.taken)
    && Side(q.producerLock, q.producers, q.producerPos, |q.pushed|, |q.slots|)
    && Side(q.consumerLock, q.consumers, q.consumerPos, |q.taken|, |q.slots|)
  }

  // ---- Positions ----

  lemma {:induction false} SlotAdvances(i: nat, capacity: nat)
    requires capacity > 0
    ensures Slot(i + 1, capacity) == if Slot(i, capacity) + 1 == capacity then 0 else Slot(i, capacity) + 1
    decreases i
  {
    if i >= capacity {
      SlotAdvances(i - capacity, capacity);
    }
  }

  /** Two tasks less than a lap apart are in different slots. */
  lemma {:induction false} SlotsDiffer(i: nat, k: nat, capacity: nat)
    requires 0 < k - i < capacity
    ensures Slot(i, capacity) != Slot(k, capacity)
    decreases i
  {
    if i >= capacity {
      SlotsDiffer(i - capacity, k - capacity, capacity);
    } else if k >= capacity {
      assert Slot(k, capacity) == k - capacity;
    }
  }

  lemma Reduced(pos: nat, capacity: nat)
    requires pos <= capacity && capacity > 0
    ensures pos % capacity == if pos == capacity then 0 else pos
  {
  }

  lemma PositionWraps(pos: nat, through: nat, capacity: nat)
    requires capacity > 0 && Position(pos, through, capacity, true)
    ensures Position(pos % capacity, through, capacity, false)
  {
    SlotAdvances(through - 1, capacity);
    Reduced(pos, capacity);
  }

  // ---- One step of the producers ----

  /** What a step of a producer that does not touch the ring leaves to check. */
  lemma ProducerMoves<T>(q: Pool<T>, r: Pool<T>, p: nat)
    requires Inv(q) && p in q.producers && p in r.producers
    requires r == q.(producers := q.producers[p := r.producers[p]],
                     producerLock := r.producerLock, producerPos := r.producerPos)
    requires r.producers[p].task == q.producers[p].task && !r.producers[p].Copied?
    requires Before(r.producers[p]) == Before(q.producers[p])
    requires Exclusive(r.producerLock, r.producers) && Held(r.producerLock, r.producers)
    requires Position(r.producerPos, |r.pushed|, |r.slots|, Advanced(r.producerLock, r.producers))
    ensures Inv(r)
  {
    CountSet(q.producers, p, r.producers[p], true);
    CountSet(q.producers, p, r.producers[p], false);
  }

  lemma ConsumerMoves<T>(q: Pool<T>, r: Pool<T>, p: nat)
    requires Inv(q) && p in q.consumers && p in r.consumers
    requires r == q.(consumers := q.consumers[p := r.consumers[p]],
                     consumerLock := r.consumerLock, consumerPos := r.consumerPos)
    requires Before(r.consumers[p]) == Before(q.consumers[p])
    requires r.consumers[p].Copied? ==> |q.taken| < |q.pushed| && r.consumers[p].task == Some(q.pushed[|q.taken|])
    requires Exclusive(r.consumerLock, r.consumers) && Held(r.consumerLock, r.consumers)
    requires Position(r.consumerPos, |r.taken|, |r.slots|, Advanced(r.consumerLock, r.consumers))
    ensures Inv(r)
  {
    CountSet(q.consumers, p, r.consumers[p], true);
    CountSet(q.consumers, p, r.consumers[p], false);
  }

  /** A producer that is about to write has room, and the slot it writes is empty. */
  lemma RoomToWrite<T>(q: Pool<T>, p: nat)
    requires Inv(q) && p in q.producers && Before(q.producers[p])
    requires q.producers[p].Locked?
    ensures Occupied(q) < |q.slots| && q.producerPos == Slot(|q.pushed|, |q.slots|)
    ensures q.slots[q.producerPos] == None
  {
    Counted(q.producers, p);
    assert !Advanced(q.producerLock, q.producers);
    if q.slots[q.producerPos].Some? {
      var i :| |q.taken| <= i < |q.pushed| && Slot(i, |q.slots|) == q.producerPos;
      SlotsDiffer(i, |q.pushed|, |q.slots|);
    }
  }

  /** A consumer that is about to take has a task, and finds it in its slot. */
  lemma TaskToTake<T>(q: Pool<T>, p: nat)
    requires Inv(q) && p in q.consumers && (q.consumers[p].Locked? || q.consumers[p].Copied?)
    ensures 0 < Occupied(q) && q.consumerPos == Slot(|q.taken|, |q.slots|)
    ensures q.slots[q.consumerPos] == Some(q.pushed[|q.taken|])
  {
    Counted(q.consumers, p);
    assert !Advanced(q.consumerLock, q.consumers);
  }

  lemma WriteFills<T>(q: Pool<T>, task: T, r: Pool<T>)
    requires |q.slots| > 0 && Filled(q.slots, q.pushed, q.taken) && 0 <= Occupied(q) < |q.slots|
    requires r.slots == q.slots[Slot(|q.pushed|, |q.slots|) := Some(task)]
    requires r.pushed == q.pushed + [task] && r.taken == q.taken
    ensures Filled(r.slots, r.pushed, r.taken)
  {
    var n, k := |q.slots|, |q.pushed|;
    forall i | |r.taken| <= i < |r.pushed|
      ensures r.slots[Slot(i, n)] == Some(r.pushed[i])
    {
      if i < k { SlotsDiffer(i, k, n); }
    }
    forall j | 0 <= j < n && r.slots[j].Some?
      ensures exists i :: |r.taken| <= i < |r.pushed| && Slot(i, n) == j
    {
      if j == Slot(k, n) {
        assert |r.taken| <= k < |r.pushed|;
      } else {
        var i :| |q.taken| <= i < |q.pushed| && Slot(i, n) == j;
        assert i < |r.pushed|;
      }
    }
  }

  lemma TakeEmpties<T>(q: Pool<T>, r: Pool<T>)
    requires |q.slots| > 0 && Filled(q.slots, q.pushed, q.taken) && 0 < Occupied(q) <= |q.slots|
    requires r.slots == q.slots[Slot(|q.taken|, |q.slots|) := None]
    requires r.pushed == q.pushed && r.taken == q.taken + [q.pushed[|q.taken|]]
    ensures Filled(r.slots, r.pushed, r.taken)
  {
    var n, k := |q.slots|, |q.taken|;
    forall i | |r.taken| <= i < |r.pushed|
      ensures r.slots[Slot(i, n)] == Some(r.pushed[i])
    {
      SlotsDiffer(k, i, n);
    }
    forall j | 0 <= j < n && r.slots[j].Some?
      ensures exists i :: |r.taken| <= i < |r.pushed| && Slot(i, n) == j
    {
      var i :| |q.taken| <= i < |q.pushed| && Slot(i, n) == j;
      assert i != k;
    }
  }

  lemma WaitFreeKeepsInv<T>(q: Pool<T>, p: nat, task: T)
    requires Inv(q) && Enabled(q, WaitFree(p, task))
    ensures Inv(Next(q, WaitFree(p, task)))
  {
    CountSet(q.producers, p, Permitted(Some(task)), true);
    CountSet(q.producers, p, Permitted(Some(task)), false);
  }

  lemma PostReadyKeepsInv<T>(q: Pool<T>, p: nat)
    requires Inv(q) && Enabled(q, PostReady(p))
    ensures Inv(Next(q, PostReady(p)))
  {
    CountDrop(q.producers, p, true);
    CountDrop(q.producers, p, false);
  }

  lemma WaitReadyKeepsInv<T>(q: Pool<T>, p: nat)
    requires Inv(q) && Enabled(q, WaitReady(p))
    ensures Inv(Next(q, WaitReady(p)))
  {
    CountSet(q.consumers, p, Permitted(None), true);
    CountSet(q.consumers, p, Permitted(None), false);
  }

  lemma PostFreeKeepsInv<T>(q: Pool<T>, p: nat)
    requires Inv(q) && Enabled(q, PostFree(p))
    ensures Inv(Next(q, PostFree(p)))
  {
    CountDrop(q.consumers, p, true);
    CountDrop(q.consumers, p, false);
  }

  lemma LockProducerKeepsInv<T>(q: Pool<T>, p: nat)
    requires Inv(q) && Enabled(q, LockProducer(p))
    ensures Inv(Next(q, LockProducer(p)))
  {
    ProducerMoves(q, Next(q, LockProducer(p)), p);
  }

  lemma WrapProducerKeepsInv<T>(q: Pool<T>, p: nat)
    requires Inv(q) && Enabled(q, WrapProducer(p))
    ensures Inv(Next(q, WrapProducer(p)))
  {
    assert Advanced(q.producerLock, q.producers);
    PositionWraps(q.producerPos, |q.pushed|, |q.slots|);
    ProducerMoves(q, Next(q, WrapProducer(p)), p);
  }

  lemma UnlockProducerKeepsInv<T>(q: Pool<T>, p: nat)
    requires Inv(q) && Enabled(q, UnlockProducer(p))
    ensures Inv(Next(q, UnlockProducer(p)))
  {
    ProducerMoves(q, Next(q, UnlockProducer(p)), p);
  }

  lemma LockConsumerKeepsInv<T>(q: Pool<T>, p: nat)
    requires Inv(q) && Enabled(q, LockConsumer(p))
    ensures Inv(Next(q, LockConsumer(p)))
  {
    ConsumerMoves(q, Next(q, LockConsumer(p)), p);
  }

  lemma CopySlotKeepsInv<T>(q: Pool<T>, p: nat)
    requires Inv(q) && Enabled(q, CopySlot(p))
    ensures Inv(Next(q, CopySlot(p)))
  {
    TaskToTake(q, p);
    ConsumerMoves(q, Next(q, CopySlot(p)), p);
  }

  lemma WrapConsumerKeepsInv<T>(q: Pool<T>, p: nat)
    requires Inv(q) && Enabled(q, WrapConsumer(p))
    ensures Inv(Next(q, WrapConsumer(p)))
  {
    assert Advanced(q.consumerLock, q.consumers);
    PositionWraps(q.consumerPos, |q.taken|, |q.slots|);
    ConsumerMoves(q, Next(q, WrapConsumer(p)), p);
  }

  lemma UnlockConsumerKeepsInv<T>(q: Pool<T>, p: nat)
    requires Inv(q) && Enabled(q, UnlockConsumer(p))
    ensures Inv(Next(q, UnlockConsumer(p)))
  {
    ConsumerMoves(q, Next(q, UnlockConsumer(p)), p);
  }

  /** Using a slot and advancing the position keeps a side in order. */
  lemma MovedOn<T>(lock: Option<nat>, m: map<nat, Phase<T>>, pos: nat, through: nat, capacity: nat, p: nat)
    requires capacity > 0 && Side(lock, m, pos, through, capacity)
    requires p in m && (m[p].Locked? || m[p].Copied?)
    ensures Side(lock, m[p := Moved(m[p].task)], pos + 1, through + 1, capacity)
  {
  }

  lemma WriteKeepsPermits<T>(q: Pool<T>, p: nat)
    requires Inv(q) && Enabled(q, WriteSlot(p))
    ensures Permits(Next(q, WriteSlot(p)))
  {
    RoomToWrite(q, p);
    CountSet(q.producers, p, Moved(q.producers[p].task), true);
    CountSet(q.producers, p, Moved(q.producers[p].task), false);
  }

  /** The state after a write, spelt out. */
  lemma AfterWrite<T>(q: Pool<T>, p: nat)
    requires Inv(q) && Enabled(q, WriteSlot(p))
    ensures var task := q.producers[p].task;
            && task.Some? && q.producerPos < |q.slots| && q.producerPos == Slot(|q.pushed|, |q.slots|)
            && Next(q, WriteSlot(p))
            == q.(slots := q.slots[q.producerPos := task], producerPos := q.producerPos + 1,
                  pushed := q.pushed + [task.value], producers := q.producers[p := Moved(task)])
  {
    RoomToWrite(q, p);
  }

  lemma WriteKeepsCarried<T>(q: Pool<T>, p: nat, pushed: seq<T>)
    requires Carries(q.producers, q.consumers, q.pushed, q.taken) && p in q.producers && q.pushed <= pushed
    ensures Carries(q.producers[p := Moved(q.producers[p].task)], q.consumers, pushed, q.taken)
  {
  }

  lemma WriteKeepsFilled<T>(q: Pool<T>, p: nat)
    requires Inv(q) && Enabled(q, WriteSlot(p))
    ensures var r := Next(q, WriteSlot(p)); Filled(r.slots, r.pushed, r.taken)
  {
    RoomToWrite(q, p);
    AfterWrite(q, p);
    WriteFills(q, q.producers[p].task.value, Next(q, WriteSlot(p)));
  }

  lemma WriteKeepsInv<T>(q: Pool<T>, p: nat)
    requires Inv(q) && Enabled(q, WriteSlot(p))
    ensures Inv(Next(q, WriteSlot(p)))
  {
    AfterWrite(q, p);
    WriteKeepsPermits(q, p);
    WriteKeepsFilled(q, p);
    WriteKeepsCarried(q, p, q.pushed + [q.producers[p].task.value]);
    MovedOn(q.producerLock, q.producers, q.producerPos, |q.pushed|, |q.slots|, p);
  }

  /** The thread that takes a task is the only consumer inside. */
  lemma TakeKeepsCarried<T>(q: Pool<T>, p: nat, taken: seq<T>)
    requires Inv(q) && Enabled(q, EmptySlot(p))
    ensures Carries(q.producers, q.consumers[p := Moved(q.consumers[p].task)], q.pushed, taken)
  {
    assert q.consumerLock == Some(p);
    assert forall c :: c in q.consumers && c != p ==> !Inside(q.consumers[c]);
  }

  lemma EmptyKeepsPermits<T>(q: Pool<T>, p: nat)
    requires Inv(q) && Enabled(q, EmptySlot(p))
    ensures Permits(Next(q, EmptySlot(p)))
  {
    TaskToTake(q, p);
    CountSet(q.consumers, p, Moved(q.consumers[p].task), true);
    CountSet(q.consumers, p, Moved(q.consumers[p].task), false);
  }

  /** The state after a slot has been emptied, spelt out. */
  lemma AfterEmpty<T>(q: Pool<T>, p: nat)
    requires Inv(q) && Enabled(q, EmptySlot(p))
    ensures var task := q.consumers[p].task;
            && q.consumerPos < |q.slots| && q.consumerPos == Slot(|q.taken|, |q.slots|)
            && |q.taken| < |q.pushed| && task == Some(q.pushed[|q.taken|])
            && Next(q, EmptySlot(p))
            == q.(slots := q.slots[q.consumerPos := None], consumerPos := q.consumerPos + 1,
                  taken := q.taken + [q.pushed[|q.taken|]], consumers := q.consumers[p := Moved(task)])
  {
    TaskToTake(q, p);
  }

  lemma EmptyKeepsFilled<T>(q: Pool<T>, p: nat)
    requires Inv(q) && Enabled(q, EmptySlot(p))
    ensures var r := Next(q, EmptySlot(p)); Filled(r.slots, r.pushed, r.taken)
  {
    AfterEmpty(q, p);
    assert Occupied(q) <= |q.slots|;
    TakeEmpties(q, Next(q, EmptySlot(p)));
  }

  lemma EmptyKeepsInv<T>(q: Pool<T>, p: nat)
    requires Inv(q) && Enabled(q, EmptySlot(p))
    ensures Inv(Next(q, EmptySlot(p)))
  {
    AfterEmpty(q, p);
    EmptyKeepsFilled(q, p);
    TakeKeepsCarried(q, p, q.taken + [q.pushed[|q.taken|]]);
    EmptyKeepsPermits(q, p);
    MovedOn(q.consumerLock, q.consumers, q.consumerPos, |q.taken|, |q.slots|, p);
  }

  lemma NextKeepsInv<T>(q: Pool<T>, e: Event<T>)
    requires Inv(q) && Enabled(q, e)
    ensures Inv(Next(q, e))
  {
    match e
    case WaitFree(p, task) => WaitFreeKeepsInv(q, p, task);
    case LockProducer(p) => LockProducerKeepsInv(q, p);
    case WriteSlot(p) => WriteKeepsInv(q, p);
    case WrapProducer(p) => WrapProducerKeepsInv(q, p);
    case UnlockProducer(p) => UnlockProducerKeepsInv(q, p);
    case PostReady(p) => PostReadyKeepsInv(q, p);
    case WaitReady(p) => WaitReadyKeepsInv(q, p);
    case LockConsumer(p) => LockConsumerKeepsInv(q, p);
    case CopySlot(p) => CopySlotKeepsInv(q, p);
    case EmptySlot(p) => EmptyKeepsInv(q, p);
    case WrapConsumer(p) => WrapConsumerKeepsInv(q, p);
    case UnlockConsumer(p) => UnlockConsumerKeepsInv(q, p);
    case PostFree(p) => PostFreeKeepsInv(q, p);
  }

  // ---- Runs ----

  ghost predicate EnabledRun<T>(q: Pool<T>, es: seq<Event<T>>)
    requires |q.slots| > 0
    decreases |es|
  {
    es == [] || (Enabled(q, es[0]) && |Next(q, es[0]).slots| > 0 && EnabledRun(Next(q, es[0]), es[1..]))
  }

  ghost function After<T>(q: Pool<T>, es: seq<Event<T>>): Pool<T>
    requires |q.slots| > 0 && EnabledRun(q, es)
    decreases |es|
  {
    if es == [] then q else After(Next(q, es[0]), es[1..])
  }

  lemma NextKeepsCapacity<T>(q: Pool<T>, e: Event<T>)
    requires |q.slots| > 0 && Enabled(q, e)
    ensures |Next(q, e).slots| == |q.slots|
  {
  }

  lemma {:induction false} RunKeepsInv<T>(q: Pool<T>, es: seq<Event<T>>)
    requires Inv(q) && EnabledRun(q, es)
    ensures Inv(After(q, es)) && |After(q, es).slots| == |q.slots|
    decreases |es|
  {
    if es != [] {
      NextKeepsInv(q, es[0]);
      NextKeepsCapacity(q, es[0]);
      RunKeepsInv(Next(q, es[0]), es[1..]);
    }
  }

  /** What holds whenever any number of threads have pushed and taken tasks in any interleaving. */
  ghost predicate Safe<T>(q: Pool<T>, capacity: nat) {
    // conservation of capacity
    && q.free + Count(q.producers, true) + Occupied(q) + Count(q.consumers, false) == capacity
    // first in, first out
    && q.taken <= q.pushed && Occupied(q) <= capacity
    // a slot is written only when it is empty, and taken only when it holds the next task
    && (forall p :: p in q.producers && q.producers[p].Locked? ==>
          Get(q.slots, q.producerPos) == None && q.producerPos < |q.slots|)
    && (forall p :: p in q.consumers && (q.consumers[p].Locked? || q.consumers[p].Copied?) ==>
          |q.taken| < |q.pushed| && Get(q.slots, q.consumerPos) == Some(q.pushed[|q.taken|]))
    // two threads inside at once do not work on the same slot
    && (forall p, c | p in q.producers && c in q.consumers ::
          q.producers[p].Locked? && (q.consumers[c].Locked? || q.consumers[c].Copied?) ==>
            q.producerPos != q.consumerPos)
  }

  lemma InvIsSafe<T>(q: Pool<T>)
    requires Inv(q)
    ensures Safe(q, |q.slots|)
  {
    forall p | p in q.producers && q.producers[p].Locked?
      ensures Get(q.slots, q.producerPos) == None && q.producerPos < |q.slots|
    {
      RoomToWrite(q, p);
    }
    forall c | c in q.consumers && (q.consumers[c].Locked? || q.consumers[c].Copied?)
      ensures |q.taken| < |q.pushed| && Get(q.slots, q.consumerPos) == Some(q.pushed[|q.taken|])
    {
      TaskToTake(q, c);
    }
  }

  lemma NewInv<T>(capacity: nat)
    requires capacity > 0
    ensures Inv(New<T>(capacity))
  {
    var q := New<T>(capacity);
    assert Threads(q.producers, true) == {} && Threads(q.producers, false) == {};
  }

  lemma EveryRunIsSafe<T>(capacity: nat, es: seq<Event<T>>)
    requires capacity > 0 && EnabledRun(New<T>(capacity), es)
    ensures Safe(After(New<T>(capacity), es), capacity)
  {
    var q := New<T>(capacity);
    NewInv<T>(capacity);
    RunKeepsInv(q, es);
    InvIsSafe(After(q, es));
  }

  // ---- Every task runs once ----

  /** The tasks that a run submits, in the order in which their producers get a permit. */
  function Submitted<T>(es: seq<Event<T>>): seq<T> {
    if es == [] then [] else (if es[0].WaitFree? then [es[0].task] else []) + Submitted(es[1..])
  }

  /** The task that a consumer leaves the pool with, to run it. */
  function Leaving<T>(q: Pool<T>, e: Event<T>): seq<T>
    requires Enabled(q, e)
  {
    if e.PostFree? then Listed(q.consumers[e.p].task) else []
  }

  ghost function Executed<T>(q: Pool<T>, es: seq<Event<T>>): seq<T>
    requires |q.slots| > 0 && EnabledRun(q, es)
    decreases |es|
  {
    if es == [] then [] else Leaving(q, es[0]) + Executed(Next(q, es[0]), es[1..])
  }

  /** The threads with this task in hand that have (or have not) been at a slot. */
  ghost function Carriers<T>(m: map<nat, Phase<T>>, before: bool, task: T): set<nat> {
    set p | p in m && Before(m[p]) == before && m[p].task == Some(task)
  }

  ghost predicate Carrying<T>(v: Phase<T>, before: bool, task: T) {
    Before(v) == before && v.task == Some(task)
  }

  ghost function InHand<T>(m: map<nat, Phase<T>>, before: bool, task: T): nat {
    |Carriers(m, before, task)|
  }

  lemma InHandAdd<T>(m: map<nat, Phase<T>>, p: nat, v: Phase<T>, before: bool, task: T)
    requires p !in m
    ensures InHand(m[p := v], before, task) == InHand(m, before, task) + One(Carrying(v, before, task))
  {
    var more, now := Carriers(m[p := v], before, task), Carriers(m, before, task);
    forall x
      ensures x in more <==> x in now || (x == p && Carrying(v, before, task))
    {
    }
    assert p !in now;
    if Carrying(v, before, task) {
      assert more == now + {p};
    } else {
      assert more == now;
    }
  }

  lemma InHandDrop<T>(m: map<nat, Phase<T>>, p: nat, before: bool, task: T)
    requires p in m
    ensures InHand(m - {p}, before, task) == InHand(m, before, task) - One(Carrying(m[p], before, task))
  {
    assert Carriers(m - {p}, before, task) == Carriers(m, before, task) - {p};
  }

  lemma InHandSet<T>(m: map<nat, Phase<T>>, p: nat, v: Phase<T>, before: bool, task: T)
    requires p in m
    ensures InHand(m[p := v], before, task)
         == InHand(m, before, task) - One(Carrying(m[p], before, task)) + One(Carrying(v, before, task))
  {
    InHandDrop(m, p, before, task);
    InHandAdd(m - {p}, p, v, before, task);
    assert (m - {p})[p := v] == m[p := v];
  }

  /** The copies of a task that producers have brought in: those in or through the ring, and those in hand. */
  ghost function BroughtIn<T>(q: Pool<T>, task: T): int {
    multiset(q.pushed)[task] + InHand(q.producers, true, task)
  }

  /** The copies of a task that consumers have left with. */
  ghost function TakenOut<T>(q: Pool<T>, task: T): int {
    multiset(q.taken)[task] - InHand(q.consumers, false, task)
  }

  function Times<T(==)>(s: seq<T>, task: T): nat {
    multiset(s)[task]
  }

  lemma TimesJoin<T>(a: seq<T>, b: seq<T>, task: T)
    ensures Times(a + b, task) == Times(a, task) + Times(b, task)
  {
  }

  lemma ProducerEnters<T>(q: Pool<T>, e: Event<T>, task: T)
    requires Inv(q) && Enabled(q, e) && (e.WaitFree? || e.PostReady?)
    ensures BroughtIn(Next(q, e), task) == BroughtIn(q, task) + One(e.WaitFree? && e.task == task)
  {
    if e.WaitFree? {
      InHandAdd(q.producers, e.p, Permitted(Some(e.task)), true, task);
    } else {
      InHandDrop(q.producers, e.p, true, task);
    }
  }

  lemma ProducerWorks<T>(q: Pool<T>, e: Event<T>, task: T)
    requires Inv(q) && Enabled(q, e) && (e.LockProducer? || e.WriteSlot? || e.WrapProducer? || e.UnlockProducer?)
    ensures BroughtIn(Next(q, e), task) == BroughtIn(q, task)
  {
    InHandSet(q.producers, e.p, Next(q, e).producers[e.p], true, task);
    if e.WriteSlot? {
      TimesJoin(q.pushed, Listed(q.producers[e.p].task), task);
    }
  }

  lemma ConsumerWorks<T>(q: Pool<T>, e: Event<T>, task: T)
    requires Inv(q) && Enabled(q, e)
    requires e.LockConsumer? || e.CopySlot? || e.EmptySlot? || e.WrapConsumer? || e.UnlockConsumer?
    ensures TakenOut(Next(q, e), task) == TakenOut(q, task)
  {
    InHandSet(q.consumers, e.p, Next(q, e).consumers[e.p], false, task);
    if e.EmptySlot? {
      TimesJoin(q.taken, Listed(q.consumers[e.p].task), task);
    }
  }

  lemma ConsumerLeaves<T>(q: Pool<T>, e: Event<T>, task: T)
    requires Inv(q) && Enabled(q, e) && (e.WaitReady? || e.PostFree?)
    ensures TakenOut(Next(q, e), task) == TakenOut(q, task) + Times(Leaving(q, e), task)
  {
    if e.WaitReady? {
      InHandAdd(q.consumers, e.p, Permitted(None), false, task);
    } else {
      InHandDrop(q.consumers, e.p, false, task);
    }
  }

  /** One step brings in what it submits, and nothing else, and takes out what a consumer leaves with. */
  lemma StepConserves<T>(q: Pool<T>, e: Event<T>, task: T)
    requires Inv(q) && Enabled(q, e)
    ensures BroughtIn(Next(q, e), task) == BroughtIn(q, task) + One(e.WaitFree? && e.task == task)
    ensures TakenOut(Next(q, e), task) == TakenOut(q, task) + Times(Leaving(q, e), task)
  {
    match e
    case WaitFree(_, _) => ProducerEnters(q, e, task);
    case PostReady(_) => ProducerEnters(q, e, task);
    case LockProducer(_) => ProducerWorks(q, e, task);
    case WriteSlot(_) => ProducerWorks(q, e, task);
    case WrapProducer(_) => ProducerWorks(q, e, task);
    case UnlockProducer(_) => ProducerWorks(q, e, task);
    case WaitReady(_) => ConsumerLeaves(q, e, task);
    case PostFree(_) => ConsumerLeaves(q, e, task);
    case _ => ConsumerWorks(q, e, task);
  }

  /** A producer keeps its task until it is through, and a consumer the one that it has copied. */
  lemma HandsKeepTask<T>(q: Pool<T>, e: Event<T>, p: nat)
    requires Enabled(q, e) && |q.slots| > 0
    ensures var r := Next(q, e);
            && (p in q.producers && p in r.producers ==> r.producers[p].task == q.producers[p].task)
            && (p in q.consumers && p in r.consumers && !q.consumers[p].Permitted? && !q.consumers[p].Locked? ==>
                  r.consumers[p].task == q.consumers[p].task)
  {
  }

  /** What is written to a slot is its producer's task, and what is taken from one its consumer's. */
  lemma OwnTasksMove<T>(q: Pool<T>, e: Event<T>)
    requires Enabled(q, e) && |q.slots| > 0
    ensures var r := Next(q, e);
            && r.pushed == q.pushed + (if e.WriteSlot? then Listed(q.producers[e.p].task) else [])
            && r.taken == q.taken + (if e.EmptySlot? then Listed(q.consumers[e.p].task) else [])
  {
    assert q.pushed + [] == q.pushed && q.taken + [] == q.taken;
  }

  lemma {:induction false} RunConserves<T>(q: Pool<T>, es: seq<Event<T>>, task: T)
    requires Inv(q) && EnabledRun(q, es)
    ensures BroughtIn(After(q, es), task) == BroughtIn(q, task) + Times(Submitted(es), task)
    ensures TakenOut(After(q, es), task) == TakenOut(q, task) + Times(Executed(q, es), task)
    decreases |es|
  {
    if es != [] {
      StepConserves(q, es[0], task);
      NextKeepsInv(q, es[0]);
      RunConserves(Next(q, es[0]), es[1..], task);
      TimesJoin(if es[0].WaitFree? then [es[0].task] else [], Submitted(es[1..]), task);
      TimesJoin(Leaving(q, es[0]), Executed(Next(q, es[0]), es[1..]), task);
    }
  }

  /** In every reachable state each copy of a task that was submitted is in exactly one place: with a
      producer that has yet to write it, in the ring, with a consumer that has yet to post, or executed. */
  lemma EveryTaskIsSomewhere<T>(capacity: nat, es: seq<Event<T>>, task: T)
    requires capacity > 0 && EnabledRun(New<T>(capacity), es)
    ensures var q := After(New<T>(capacity), es);
            && |q.taken| <= |q.pushed|
            && Times(Submitted(es), task)
            == InHand(q.producers, true, task) + Times(q.pushed[|q.taken|..], task)
               + InHand(q.consumers, false, task) + Times(Executed(New<T>(capacity), es), task)
  {
    var start := New<T>(capacity);
    NewInv<T>(capacity);
    RunKeepsInv(start, es);
    RunConserves(start, es, task);
    var q := After(start, es);
    assert Carriers(start.producers, true, task) == {} && Carriers(start.consumers, false, task) == {};
    assert q.taken == q.pushed[..|q.taken|] && q.pushed == q.taken + q.pushed[|q.taken|..];
    TimesJoin(q.taken, q.pushed[|q.taken|..], task);
  }

  lemma SameTimes<T>(a: seq<T>, b: seq<T>)
    requires forall task: T :: Times(a, task) == Times(b, task)
    ensures multiset(a) == multiset(b)
  {
    forall task: T
      ensures multiset(a)[task] == multiset(b)[task]
    {
      assert Times(a, task) == Times(b, task);
    }
  }

  lemma IdleTimes<T>(capacity: nat, es: seq<Event<T>>, task: T)
    requires capacity > 0 && EnabledRun(New<T>(capacity), es)
    requires var q := After(New<T>(capacity), es);
             q.producers == map[] && q.consumers == map[] && Occupied(q) == 0
    ensures Times(Executed(New<T>(capacity), es), task) == Times(Submitted(es), task)
  {
    var q := After(New<T>(capacity), es);
    EveryTaskIsSomewhere(capacity, es, task);
    assert Carriers(q.producers, true, task) == {} && Carriers(q.consumers, false, task) == {};
    assert q.pushed[|q.taken|..] == [];
  }

  /** Once the pool is idle, the tasks executed are the tasks submitted, each as often as it was. */
  lemma EveryTaskRunsOnce<T>(capacity: nat, es: seq<Event<T>>)
    requires capacity > 0 && EnabledRun(New<T>(capacity), es)
    requires var q := After(New<T>(capacity), es);
             q.producers == map[] && q.consumers == map[] && Occupied(q) == 0
    ensures multiset(Executed(New<T>(capacity), es)) == multiset(Submitted(es))
  {
    var executed := Executed(New<T>(capacity), es);
    forall task: T
      ensures Times(executed, task) == Times(Submitted(es), task)
    {
      IdleTimes(capacity, es, task);
    }
    SameTimes(executed, Submitted(es));
  }

  // ---- Nothing gets stuck ----

  /** With no thread inside, every free permit is an empty slot and every ready permit a task. */
  lemma AtRest<T>(q: Pool<T>)
    requires Inv(q) && q.producers == map[] && q.consumers == map[]
    ensures q.ready == Occupied(q) && q.free == |q.slots| - Occupied(q)
    ensures q.producerPos == Slot(|q.pushed|, |q.slots|) && q.consumerPos == Slot(|q.taken|, |q.slots|)
  {
    assert Threads(q.producers, true) == {} && Threads(q.producers, false) == {};
  }

  function ProducerStep<T>(q: Pool<T>, p: nat): Event<T>
    requires p in q.producers
  {
    match q.producers[p]
    case Permitted(_) => LockProducer(p)
    case Locked(_) => WriteSlot(p)
    case Moved(_) => WrapProducer(p)
    case Wrapped(_) => UnlockProducer(p)
    case _ => PostReady(p)
  }

  function ConsumerStep<T>(q: Pool<T>, p: nat): Event<T>
    requires p in q.consumers
  {
    match q.consumers[p]
    case Permitted(_) => LockConsumer(p)
    case Locked(_) => CopySlot(p)
    case Copied(_) => EmptySlot(p)
    case Moved(_) => WrapConsumer(p)
    case Wrapped(_) => UnlockConsumer(p)
    case _ => PostFree(p)
  }

  /** While some thread has a permit, some thread can take its next step. */
  lemma NoDeadlock<T>(q: Pool<T>)
    requires Inv(q) && (q.producers != map[] || q.consumers != map[])
    ensures exists e :: Enabled(q, e) && !e.WaitFree? && !e.WaitReady?
  {
    if p :| p in q.producers {
      var w := if q.producers[p].Permitted? && q.producerLock.Some? then q.producerLock.value else p;
      assert Enabled(q, ProducerStep(q, w));
    } else {
      assert q.producers == map[];
      var p :| p in q.consumers;
      var w := if q.consumers[p].Permitted? && q.consumerLock.Some? then q.consumerLock.value else p;
      assert Enabled(q, ConsumerStep(q, w));
    }
  }

  // ---- The object ----

  /** What taking a task comes to, for the ring. */
  lemma TakenFromRing<T>(q: Pool<T>, p: nat)
    requires Inv(q) && Enabled(q, CopySlot(p))
    ensures var r := Next(Next(Next(q, CopySlot(p)), EmptySlot(p)), WrapConsumer(p));
            && q.consumerPos < |q.slots| && r.slots == q.slots[q.consumerPos := None]
            && r.consumerPos == (q.consumerPos + 1) % |q.slots| && r.producerPos == q.producerPos
    ensures Occupied(q) > 0 && q.slots[q.consumerPos] == Some(q.pushed[|q.taken|])
  {
    TaskToTake(q, p);
  }

  /** The ring itself. Each method is the code inside one mutex; called where the machine above
      lets thread `p` write (or copy), it ends where the machine ends two (or three) steps later. */
  class TaskRing<T> {
    var taskQueue: array<Option<T>>
    var producerPos: nat
    var consumerPos: nat

    ghost predicate Shows(q: Pool<T>)
      reads this, taskQueue
    {
      q.slots == taskQueue[..] && q.producerPos == producerPos && q.consumerPos == consumerPos
    }

    constructor (capacity: nat)
      ensures Shows(New(capacity)) && fresh(taskQueue)
    {
      taskQueue := new Option<T>[capacity](i => None);
      producerPos, consumerPos := 0, 0;
    }

    method WriteTask(task: T, ghost q: Pool<T>, ghost p: nat)
      requires Inv(q) && Shows(q) && Enabled(q, WriteSlot(p)) && q.producers[p].task == Some(task)
      modifies this`producerPos, taskQueue
      ensures Shows(Next(Next(q, WriteSlot(p)), WrapProducer(p)))
      ensures old(taskQueue[producerPos]) == None
    {
      RoomToWrite(q, p);
      assert taskQueue[producerPos] == taskQueue[..][producerPos];
      taskQueue[producerPos] := Some(task);
      producerPos := producerPos + 1;
      producerPos := producerPos % taskQueue.Length;
    }

    /** Copies the slot, empties it and moves on. */
    method TakeTask(ghost q: Pool<T>, ghost p: nat) returns (task: Option<T>)
      requires Inv(q) && Shows(q) && Enabled(q, CopySlot(p))
      modifies this`consumerPos, taskQueue
      ensures Occupied(q) > 0 && task == Some(q.pushed[|q.taken|])
      ensures Shows(Next(Next(Next(q, CopySlot(p)), EmptySlot(p)), WrapConsumer(p)))
    {
      TakenFromRing(q, p);
      task := taskQueue[consumerPos];
      assert task == taskQueue[..][consumerPos];
      taskQueue[consumerPos] := None;
      consumerPos := consumerPos + 1;
      consumerPos := consumerPos % taskQueue.Length;
    }
  }
}
