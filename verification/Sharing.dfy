/** Any number of connections upload, download and delete files at the same time.

    Each event is one data-manager call or one file access, so the events of different
    connections interleave freely. */
module Sharing {
  import opened Registry
  import opened RegistryTheory
  import opened Search
  import opened Scanner
  import opened Wrappers
  import Download

  /** The start of a file, read by a download that has not stored it in the cache yet.
      `born` says which file of that name was read: deleting and uploading again makes another. */
  datatype Ticket = Ticket(name: string, born: nat, bytes: string)

  /** What a connection has written to its open file without being told of a failure, and how many of
      those bytes a full disk has lost. */
  datatype Output = Output(bytes: string, lost: nat)

  /** `owners` maps a connection to its `_cur_upload_file`, `written` to what it has written to that
      file, and `leaked` holds the names dropped by `clear()` without being deregistered. */
  datatype System = System(
    st: State,
    owners: map<nat, string>,
    written: map<nat, Output>,
    leaked: set<string>,
    births: map<string, nat>,
    clock: nat,
    tickets: map<nat, Ticket>)

  datatype Event =
    | Open(conn: nat, name: string)
    | Write(conn: nat, data: string)
    | Close(conn: nat, now: int)
    | BeginMessage(conn: nat)
    | Destroy(conn: nat)
    | Remove(name: string)
    | Lookup(name: string)
    | Read(conn: nat, name: string, length: nat)
    | Store(conn: nat)
    | Disk(full: bool)

  predicate Enabled(sys: System, e: Event) {
    match e
    case Open(conn, name) => conn !in sys.owners
    case Write(conn, data) => conn in sys.owners
    case Close(conn, now) => conn in sys.owners && sys.owners[conn] in sys.st.files
    case Read(conn, name, length) => name in sys.st.files && name in sys.births
    case Store(conn) => conn in sys.tickets
    case _ => true
  }

  function Disown(sys: System, conn: nat): System {
    sys.(owners := sys.owners - {conn}, written := sys.written - {conn})
  }

  function OutputOf(sys: System, conn: nat): Output {
    if conn in sys.written then sys.written[conn] else Output("", 0)
  }

  function WithMore(w: Output, full: bool, data: string): Output {
    Output(w.bytes + data, w.lost + if full then |data| else 0)
  }

  /** Whether an event makes a call on the manager. */
  predicate Calls(sys: System, e: Event) {
    !e.Read? && !e.BeginMessage? && !e.Disk? && (e.Destroy? ==> e.conn in sys.owners)
  }

  /** The call that it makes. */
  function Call(sys: System, e: Event): Op
    requires Enabled(sys, e) && Calls(sys, e)
  {
    match e
    case Open(conn, name) => Registering(name)
    case Write(conn, data) =>
      if AppendFails(sys.st.full, data) then Deregistering(sys.owners[conn]) else Appending(sys.owners[conn], data)
    case Close(conn, now) => Inserting(sys.owners[conn], |sys.st.files[sys.owners[conn]]|, now)
    case Destroy(conn) => Deregistering(sys.owners[conn])
    case Remove(name) => Deleting(name)
    case Lookup(name) => Getting(name)
    case Store(conn) => Putting(sys.tickets[conn].name, sys.tickets[conn].bytes)
  }

  function Next(sys: System, limits: Limits, e: Event): System
    requires Enabled(sys, e)
  {
    match e
    case Open(conn, name) =>
      var (st, ok) := Register(sys.st, name);
      if !ok then sys else
        sys.(st := st, owners := sys.owners[conn := name], written := sys.written[conn := Output("", 0)],
             births := sys.births[name := sys.clock], clock := sys.clock + 1)
    case Write(conn, data) =>
      var t := sys.(st := Apply(sys.st, limits, Call(sys, e)));
      if AppendFails(sys.st.full, data) then Disown(t, conn)
      else t.(written := sys.written[conn := WithMore(OutputOf(sys, conn), sys.st.full, data)])
    case Close(conn, now) => Disown(sys.(st := Apply(sys.st, limits, Call(sys, e))), conn)
    case BeginMessage(conn) =>
      if conn !in sys.owners then sys
      else Disown(sys.(leaked := sys.leaked + {sys.owners[conn]}), conn)
    case Destroy(conn) =>
      if conn !in sys.owners then sys
      else Disown(sys.(st := Apply(sys.st, limits, Call(sys, e))), conn)
    case Read(conn, name, length) =>
      sys.(tickets := sys.tickets[conn := Ticket(name, sys.births[name], Shorten(sys.st.files[name], length))])
    case Store(conn) => sys.(st := Apply(sys.st, limits, Call(sys, e)), tickets := sys.tickets - {conn})
    case Disk(full) => sys.(st := sys.st.(full := full))
    case _ => sys.(st := Apply(sys.st, limits, Call(sys, e)))
  }

  // ---- The invariant ----

  predicate Owned(sys: System, name: string) {
    exists conn :: conn in sys.owners && sys.owners[conn] == name
  }

  /** A file that is being written is short by exactly the bytes lost. */
  predicate Accounted(file: string, w: Output) {
    |file| + w.lost == |w.bytes| && (w.lost == 0 ==> file == w.bytes)
  }

  /** Each open file belongs to one connection, is pending, and holds what that connection wrote,
      except for what a full disk has lost of it. */
  ghost predicate Ownership(sys: System) {
    && sys.written.Keys == sys.owners.Keys
    && (forall c, d :: c in sys.owners && d in sys.owners && sys.owners[c] == sys.owners[d] ==> c == d)
    && (forall c :: c in sys.owners ==>
          sys.owners[c] in sys.st.files && Accounted(sys.st.files[sys.owners[c]], sys.written[c]))
    && (forall f :: f in sys.leaked ==> !Owned(sys, f))
    && (forall f :: IsPending(sys.st, f) <==> f in sys.leaked || Owned(sys, f))
  }

  predicate TicketTrue(sys: System, t: Ticket) {
    t.name in sys.st.files && t.name in sys.births && sys.births[t.name] == t.born ==> t.bytes <= sys.st.files[t.name]
  }

  ghost predicate Tickets(sys: System) {
    && (forall f :: f in sys.st.files ==> f in sys.births)
    && (forall f :: f in sys.births ==> sys.births[f] < sys.clock)
    && (forall r :: r in sys.tickets ==> sys.tickets[r].born < sys.clock && TicketTrue(sys, sys.tickets[r]))
  }

  ghost predicate Inv(sys: System, limits: Limits) {
    Agrees(sys.st, limits) && Ownership(sys) && Tickets(sys)
  }

  lemma CallsAreLegal(sys: System, limits: Limits, e: Event)
    requires Inv(sys, limits) && Enabled(sys, e)
    requires Calls(sys, e)
    ensures Legal(sys.st, Call(sys, e))
  {
    if (e.Write? || e.Close? || e.Destroy?) {
      assert Owned(sys, sys.owners[e.conn]);
    }
  }

  /** An event changes the registry as its call does, and otherwise not, except that the disk fills up or
      is given room again. */
  lemma EventIsCall(sys: System, limits: Limits, e: Event)
    requires Enabled(sys, e)
    ensures Next(sys, limits, e).st
         == if Calls(sys, e) then Apply(sys.st, limits, Call(sys, e))
            else if e.Disk? then sys.st.(full := e.full)
            else sys.st
  {
  }

  lemma NextKeepsAgreement(sys: System, limits: Limits, e: Event)
    requires Inv(sys, limits) && Enabled(sys, e)
    ensures Agrees(Next(sys, limits, e).st, limits)
  {
    EventIsCall(sys, limits, e);
    if Calls(sys, e) {
      CallsAreLegal(sys, limits, e);
      ApplyKeepsAgreement(sys.st, limits, Call(sys, e));
    }
  }

  /** Giving up a file moves its name out of the owned names and nothing else. */
  lemma OwnedAfterDisown(sys: System, conn: nat, f: string)
    requires conn in sys.owners
    requires forall c, d :: c in sys.owners && d in sys.owners && sys.owners[c] == sys.owners[d] ==> c == d
    ensures Owned(Disown(sys, conn), f) <==> Owned(sys, f) && f != sys.owners[conn]
  {
    var t := Disown(sys, conn);
    if Owned(sys, f) && f != sys.owners[conn] {
      var c :| c in sys.owners && sys.owners[c] == f;
      assert c in t.owners && t.owners[c] == f;
    }
  }

  lemma OwnedAfterOpen(sys: System, conn: nat, name: string, t: System, f: string)
    requires conn !in sys.owners && t.owners == sys.owners[conn := name]
    ensures Owned(t, f) <==> Owned(sys, f) || f == name
  {
    if Owned(sys, f) {
      var c :| c in sys.owners && sys.owners[c] == f;
      assert c in t.owners && t.owners[c] == f;
    }
    assert conn in t.owners && t.owners[conn] == name;
  }

  lemma OpenKeepsPending(sys: System, conn: nat, name: string, t: System)
    requires Ownership(sys) && conn !in sys.owners && t.owners == sys.owners[conn := name] && t.leaked == sys.leaked
    requires !IsPending(sys.st, name)
    requires forall f :: IsPending(t.st, f) <==> IsPending(sys.st, f) || f == name
    ensures forall f :: f in t.leaked ==> !Owned(t, f)
    ensures forall f :: IsPending(t.st, f) <==> f in t.leaked || Owned(t, f)
  {
    forall f
      ensures f in t.leaked ==> !Owned(t, f)
      ensures IsPending(t.st, f) <==> f in t.leaked || Owned(t, f)
    {
      OwnedAfterOpen(sys, conn, name, t, f);
    }
  }

  /** A file that is new to the registry gets an owner, and is empty. */
  lemma NewOwner(sys: System, t: System, conn: nat, name: string)
    requires Ownership(sys) && conn !in sys.owners && !IsPending(sys.st, name)
    requires t.owners == sys.owners[conn := name] && t.written == sys.written[conn := Output("", 0)]
    requires t.leaked == sys.leaked
    requires t.st.files == sys.st.files[name := ""] && t.st.entries == sys.st.entries[name := Pending]
    ensures Ownership(t)
  {
    forall c | c in sys.owners
      ensures sys.owners[c] != name
    {
      assert Owned(sys, sys.owners[c]);
    }
    OpenKeepsPending(sys, conn, name, t);
  }

  lemma OpenKeepsOwnership(sys: System, limits: Limits, conn: nat, name: string)
    requires Ownership(sys) && Enabled(sys, Open(conn, name))
    ensures Ownership(Next(sys, limits, Open(conn, name)))
  {
    if Register(sys.st, name).1 {
      NewOwner(sys, Next(sys, limits, Open(conn, name)), conn, name);
    }
  }

  /** The events that end the ownership of a file: its entry changes or its name leaks. */
  lemma DisownKeepsOwnership(sys: System, t: System, conn: nat)
    requires Ownership(sys) && conn in sys.owners
    requires t.owners == sys.owners - {conn} && t.written == sys.written - {conn}
    requires forall f :: f != sys.owners[conn] ==> (IsPending(t.st, f) <==> IsPending(sys.st, f))
    requires forall f :: f != sys.owners[conn] && f in sys.st.files ==>
               f in t.st.files && t.st.files[f] == sys.st.files[f]
    requires IsPending(t.st, sys.owners[conn]) <==> sys.owners[conn] in t.leaked
    requires forall f :: f != sys.owners[conn] ==> (f in t.leaked <==> f in sys.leaked)
    ensures Ownership(t)
  {
    forall f
      ensures f in t.leaked ==> !Owned(t, f)
      ensures IsPending(t.st, f) <==> f in t.leaked || Owned(t, f)
    {
      OwnedAfterDisown(sys, conn, f);
      assert Owned(t, f) <==> Owned(Disown(sys, conn), f);
    }
  }

  lemma FailedWriteKeepsOwnership(sys: System, limits: Limits, conn: nat, data: string)
    requires Ownership(sys) && Enabled(sys, Write(conn, data)) && AppendFails(sys.st.full, data)
    ensures Ownership(Next(sys, limits, Write(conn, data)))
  {
    assert Owned(sys, sys.owners[conn]);
    DisownKeepsOwnership(sys, Next(sys, limits, Write(conn, data)), conn);
  }

  lemma SameOwners(sys: System, t: System)
    requires t.owners == sys.owners
    ensures forall f :: Owned(t, f) <==> Owned(sys, f)
  {
  }

  lemma MoreAccounted(file: string, w: Output, full: bool, data: string)
    requires Accounted(file, w)
    ensures Accounted(file + Taken(full, data), WithMore(w, full, data))
  {
  }

  lemma WriteKeepsAccounts(sys: System, limits: Limits, conn: nat, data: string, c: nat)
    requires Ownership(sys) && Enabled(sys, Write(conn, data)) && !AppendFails(sys.st.full, data) && c in sys.owners
    ensures var t := Next(sys, limits, Write(conn, data));
            && sys.owners[c] in t.st.files && c in t.written
            && Accounted(t.st.files[sys.owners[c]], t.written[c])
  {
    assert c in sys.written.Keys && conn in sys.written.Keys;
    if c == conn {
      MoreAccounted(sys.st.files[sys.owners[c]], sys.written[c], sys.st.full, data);
    }
  }

  lemma WriteKeepsRest(sys: System, limits: Limits, conn: nat, data: string)
    requires Ownership(sys) && Enabled(sys, Write(conn, data)) && !AppendFails(sys.st.full, data)
    ensures var t := Next(sys, limits, Write(conn, data));
            && t.owners == sys.owners && t.leaked == sys.leaked && t.st.entries == sys.st.entries
            && t.written.Keys == sys.owners.Keys
  {
  }

  lemma SameNames(sys: System, t: System)
    requires Ownership(sys) && t.owners == sys.owners && t.leaked == sys.leaked && t.st.entries == sys.st.entries
    requires t.written.Keys == sys.owners.Keys
    requires forall c :: c in t.owners ==>
               t.owners[c] in t.st.files && Accounted(t.st.files[t.owners[c]], t.written[c])
    ensures Ownership(t)
  {
    SameOwners(sys, t);
  }

  lemma WriteKeepsOwnership(sys: System, limits: Limits, conn: nat, data: string)
    requires Ownership(sys) && Enabled(sys, Write(conn, data)) && !AppendFails(sys.st.full, data)
    ensures Ownership(Next(sys, limits, Write(conn, data)))
  {
    var t := Next(sys, limits, Write(conn, data));
    WriteKeepsRest(sys, limits, conn, data);
    forall c | c in t.owners
      ensures t.owners[c] in t.st.files && Accounted(t.st.files[t.owners[c]], t.written[c])
    {
      WriteKeepsAccounts(sys, limits, conn, data, c);
    }
    SameNames(sys, t);
  }

  lemma QuietKeepsOwnership(sys: System, t: System)
    requires Ownership(sys)
    requires t.owners == sys.owners && t.written == sys.written && t.leaked == sys.leaked
    requires forall f :: IsPending(t.st, f) <==> IsPending(sys.st, f)
    requires forall f :: IsPending(sys.st, f) && f in sys.st.files ==>
               f in t.st.files && t.st.files[f] == sys.st.files[f]
    ensures Ownership(t)
  {
    SameOwners(sys, t);
    assert forall c :: c in sys.owners ==> Owned(sys, sys.owners[c]);
  }

  lemma CloseKeepsOwnership(sys: System, limits: Limits, conn: nat, now: int)
    requires Ownership(sys) && Enabled(sys, Close(conn, now))
    ensures Ownership(Next(sys, limits, Close(conn, now)))
  {
    assert Owned(sys, sys.owners[conn]);
    DisownKeepsOwnership(sys, Next(sys, limits, Close(conn, now)), conn);
  }

  lemma BeginKeepsOwnership(sys: System, limits: Limits, conn: nat)
    requires Ownership(sys) && conn in sys.owners
    ensures Ownership(Next(sys, limits, BeginMessage(conn)))
  {
    assert Owned(sys, sys.owners[conn]);
    DisownKeepsOwnership(sys, Next(sys, limits, BeginMessage(conn)), conn);
  }

  lemma DestroyKeepsOwnership(sys: System, limits: Limits, conn: nat)
    requires Ownership(sys) && conn in sys.owners
    ensures Ownership(Next(sys, limits, Destroy(conn)))
  {
    assert Owned(sys, sys.owners[conn]);
    DisownKeepsOwnership(sys, Next(sys, limits, Destroy(conn)), conn);
  }

  lemma EndKeepsOwnership(sys: System, limits: Limits, e: Event)
    requires Ownership(sys) && Enabled(sys, e)
    requires (e.Close? || e.BeginMessage? || e.Destroy?) && e.conn in sys.owners
    ensures Ownership(Next(sys, limits, e))
  {
    match e
    case Close(conn, now) => CloseKeepsOwnership(sys, limits, conn, now);
    case BeginMessage(conn) => BeginKeepsOwnership(sys, limits, conn);
    case Destroy(conn) => DestroyKeepsOwnership(sys, limits, conn);
  }

  /** Downloads and deletions leave pending files alone. */
  lemma PendingUntouched(st: State, limits: Limits, op: Op)
    requires op.Deleting? || op.Getting? || op.Putting?
    ensures var st' := Apply(st, limits, op);
            && (forall f :: IsPending(st', f) <==> IsPending(st, f))
            && (forall f :: IsPending(st, f) && f in st.files ==> f in st'.files && st'.files[f] == st.files[f])
  {
  }

  lemma OtherKeepsOwnership(sys: System, limits: Limits, e: Event)
    requires Ownership(sys) && Enabled(sys, e)
    requires e.Remove? || e.Lookup? || e.Read? || e.Store? || e.Disk?
    ensures Ownership(Next(sys, limits, e))
  {
    EventIsCall(sys, limits, e);
    if Calls(sys, e) {
      PendingUntouched(sys.st, limits, Call(sys, e));
    }
    QuietKeepsOwnership(sys, Next(sys, limits, e));
  }

  lemma NextKeepsOwnership(sys: System, limits: Limits, e: Event)
    requires Inv(sys, limits) && Enabled(sys, e)
    ensures Ownership(Next(sys, limits, e))
  {
    if e.Open? {
      OpenKeepsOwnership(sys, limits, e.conn, e.name);
    } else if e.Write? {
      if AppendFails(sys.st.full, e.data) {
        FailedWriteKeepsOwnership(sys, limits, e.conn, e.data);
      } else {
        WriteKeepsOwnership(sys, limits, e.conn, e.data);
      }
    } else if e.Remove? || e.Lookup? || e.Read? || e.Store? || e.Disk? {
      OtherKeepsOwnership(sys, limits, e);
    } else if e.conn in sys.owners {
      EndKeepsOwnership(sys, limits, e);
    }
  }

  /** A call either leaves a file, appends to it, deletes it, or makes it anew. */
  lemma ApplyGrows(st: State, limits: Limits, op: Op, f: string)
    requires FilesAgree(st) && f in Apply(st, limits, op).files
    requires !(op == Registering(f) && Register(st, f).1)
    requires op.Appending? ==> op.name in st.files
    ensures f in st.files && st.files[f] <= Apply(st, limits, op).files[f]
  {
  }

  /** An event that does not make the file anew keeps its bytes, or deletes it. */
  lemma FilesGrowOrGo(sys: System, limits: Limits, e: Event, f: string)
    requires Inv(sys, limits) && Enabled(sys, e)
    ensures var t := Next(sys, limits, e);
            f in t.st.files && f in t.births && f in sys.births && t.births[f] == sys.births[f] ==>
              f in sys.st.files && sys.st.files[f] <= t.st.files[f]
  {
    EventIsCall(sys, limits, e);
    if Calls(sys, e) && f in Next(sys, limits, e).st.files && !(e.Open? && e.name == f && Register(sys.st, f).1) {
      if e.Write? { assert sys.owners[e.conn] in sys.st.files; }
      ApplyGrows(sys.st, limits, Call(sys, e), f);
    }
  }

  /** Only registering a name makes a file. */
  lemma NoNewFiles(st: State, limits: Limits, op: Op)
    requires !op.Registering? && (op.Appending? ==> op.name in st.files)
    ensures Apply(st, limits, op).files.Keys <= st.files.Keys
  {
  }

  /** Every event but `Open` leaves the births alone and makes no file. */
  lemma NoNewBirths(sys: System, limits: Limits, e: Event)
    requires Ownership(sys) && Enabled(sys, e) && !e.Open?
    ensures var t := Next(sys, limits, e);
            t.births == sys.births && t.clock == sys.clock && t.st.files.Keys <= sys.st.files.Keys
  {
    EventIsCall(sys, limits, e);
    if Calls(sys, e) {
      NoNewFiles(sys.st, limits, Call(sys, e));
    }
  }

  lemma BirthsKept(sys: System, limits: Limits, e: Event)
    requires Inv(sys, limits) && Enabled(sys, e)
    ensures var t := Next(sys, limits, e);
            && sys.clock <= t.clock
            && (forall f :: f in t.st.files ==> f in t.births)
            && (forall f :: f in t.births ==> t.births[f] < t.clock)
            && (forall f :: f in sys.births ==>
                  f in t.births && (t.births[f] == sys.births[f] || sys.clock <= t.births[f]))
            && (forall f :: f in t.births && f !in sys.births ==> sys.clock <= t.births[f])
  {
    if !e.Open? {
      NoNewBirths(sys, limits, e);
      assert forall f :: f in Next(sys, limits, e).st.files ==> f in sys.st.files.Keys;
    }
  }

  lemma TicketStaysTrue(sys: System, limits: Limits, e: Event, t: Ticket)
    requires Inv(sys, limits) && Enabled(sys, e)
    requires t.born < sys.clock && TicketTrue(sys, t)
    ensures t.born < Next(sys, limits, e).clock && TicketTrue(Next(sys, limits, e), t)
  {
    BirthsKept(sys, limits, e);
    FilesGrowOrGo(sys, limits, e, t.name);
  }

  lemma ReadTicketTrue(sys: System, limits: Limits, conn: nat, name: string, length: nat)
    requires Tickets(sys) && Enabled(sys, Read(conn, name, length))
    ensures var t := Next(sys, limits, Read(conn, name, length));
            t.tickets[conn].born < t.clock && TicketTrue(t, t.tickets[conn])
  {
  }

  /** The only new ticket is that of a `Read`. */
  lemma NewTicketTrue(sys: System, limits: Limits, e: Event, r: nat)
    requires Tickets(sys) && Enabled(sys, e) && r in Next(sys, limits, e).tickets
    ensures var t := Next(sys, limits, e);
            || (r in sys.tickets && t.tickets[r] == sys.tickets[r])
            || (t.tickets[r].born < t.clock && TicketTrue(t, t.tickets[r]))
  {
    if e.Read? {
      ReadTicketTrue(sys, limits, e.conn, e.name, e.length);
    }
  }

  lemma NextKeepsTickets(sys: System, limits: Limits, e: Event)
    requires Inv(sys, limits) && Enabled(sys, e)
    ensures Tickets(Next(sys, limits, e))
  {
    var t := Next(sys, limits, e);
    BirthsKept(sys, limits, e);
    forall r | r in t.tickets
      ensures t.tickets[r].born < t.clock && TicketTrue(t, t.tickets[r])
    {
      NewTicketTrue(sys, limits, e, r);
      if r in sys.tickets && t.tickets[r] == sys.tickets[r] {
        TicketStaysTrue(sys, limits, e, sys.tickets[r]);
      }
    }
  }

  lemma NextKeepsInv(sys: System, limits: Limits, e: Event)
    requires Inv(sys, limits) && Enabled(sys, e)
    ensures Inv(Next(sys, limits, e), limits)
  {
    NextKeepsAgreement(sys, limits, e);
    NextKeepsOwnership(sys, limits, e);
    NextKeepsTickets(sys, limits, e);
  }

  // ---- Runs ----

  ghost predicate EnabledRun(sys: System, limits: Limits, es: seq<Event>)
    decreases |es|
  {
    es == [] || (Enabled(sys, es[0]) && EnabledRun(Next(sys, limits, es[0]), limits, es[1..]))
  }

  ghost function After(sys: System, limits: Limits, es: seq<Event>): System
    requires EnabledRun(sys, limits, es)
    decreases |es|
  {
    if es == [] then sys else After(Next(sys, limits, es[0]), limits, es[1..])
  }

  /** Over any interleaving of uploads, downloads and deletions, the registry and the directory
      agree, and the pending names are exactly the owned ones and the leaked ones. */
  lemma {:induction false} RunKeepsInv(sys: System, limits: Limits, es: seq<Event>)
    requires Inv(sys, limits) && EnabledRun(sys, limits, es)
    ensures Inv(After(sys, limits, es), limits)
    decreases |es|
  {
    if es != [] {
      NextKeepsInv(sys, limits, es[0]);
      RunKeepsInv(Next(sys, limits, es[0]), limits, es[1..]);
    }
  }

  /** Completing a file records its length and leaves its bytes alone. */
  lemma CompletedAsIs(sys: System, limits: Limits, conn: nat, now: int)
    requires Ownership(sys) && conn in sys.owners
    ensures Enabled(sys, Close(conn, now))
    ensures var f, t := sys.owners[conn], Next(sys, limits, Close(conn, now));
            && IsValidFile(t.st, f) && f in t.st.files
            && t.st.files[f] == sys.st.files[f] && t.st.entries[f].info == Info(|sys.st.files[f]|, now)
  {
    assert Owned(sys, sys.owners[conn]);
  }

  /** While a connection has a file open, nobody else can open, delete or download it, and completing
      it succeeds and records the number of bytes that connection wrote, less those that were lost. */
  lemma OwnerIsAlone(sys: System, limits: Limits, conn: nat, now: int)
    requires Inv(sys, limits) && conn in sys.owners
    ensures var f := sys.owners[conn];
            && f in sys.st.files && f in sys.st.entries
            && (forall c :: c in sys.owners && sys.owners[c] == f ==> c == conn)
            && !Register(sys.st, f).1 && !Delete(sys.st, f).1 && !IsValidFile(sys.st, f)
            && Insert(sys.st, f, |sys.st.files[f]|, now).1
    ensures var f, st, w := sys.owners[conn], Next(sys, limits, Close(conn, now)).st, sys.written[conn];
            IsValidFile(st, f) && st.entries[f].info == Info(|w.bytes| - w.lost, now)
  {
    assert Owned(sys, sys.owners[conn]) && conn in sys.written.Keys;
    CompletedAsIs(sys, limits, conn, now);
  }

  // ---- What a full disk does to an open file ----

  /** The connection has its file open in every state of the run. */
  ghost predicate KeepsOpen(sys: System, limits: Limits, es: seq<Event>, conn: nat)
    requires EnabledRun(sys, limits, es)
    decreases |es|
  {
    conn in sys.owners && (es != [] ==> KeepsOpen(Next(sys, limits, es[0]), limits, es[1..], conn))
  }

  /** What the connection writes in the run. */
  function DataOf(es: seq<Event>, conn: nat): string {
    if es == [] then ""
    else (if es[0].Write? && es[0].conn == conn then es[0].data else "") + DataOf(es[1..], conn)
  }

  predicate Loses(sys: System, e: Event, conn: nat) {
    e.Write? && e.conn == conn && e.data != "" && sys.st.full
  }

  /** The connection never writes while the disk is full. */
  ghost predicate LosesNothing(sys: System, limits: Limits, es: seq<Event>, conn: nat)
    requires EnabledRun(sys, limits, es)
    decreases |es|
  {
    es != [] ==> !Loses(sys, es[0], conn) && LosesNothing(Next(sys, limits, es[0]), limits, es[1..], conn)
  }

  lemma WriteAdds(sys: System, limits: Limits, conn: nat, data: string)
    requires conn in sys.owners && conn in sys.written && conn in Next(sys, limits, Write(conn, data)).owners
    ensures var t := Next(sys, limits, Write(conn, data));
            t.owners == sys.owners && t.written == sys.written[conn := WithMore(sys.written[conn], sys.st.full, data)]
  {
  }

  lemma OthersAddNothing(sys: System, limits: Limits, e: Event, conn: nat)
    requires Enabled(sys, e) && conn in sys.owners && conn in Next(sys, limits, e).owners
    requires conn in sys.written && !(e.Write? && e.conn == conn)
    ensures var t := Next(sys, limits, e);
            conn in t.written && t.written[conn] == sys.written[conn] && t.owners[conn] == sys.owners[conn]
  {
  }

  /** One event adds what the connection writes in it to its output, and to the loss if the disk is full. */
  lemma OutputAfter(sys: System, limits: Limits, e: Event, conn: nat)
    requires Ownership(sys) && Enabled(sys, e) && conn in sys.owners && conn in Next(sys, limits, e).owners
    ensures var t := Next(sys, limits, e);
            && conn in sys.written && conn in t.written && t.owners[conn] == sys.owners[conn]
            && t.written[conn].bytes == sys.written[conn].bytes + (if e.Write? && e.conn == conn then e.data else "")
            && t.written[conn].lost == sys.written[conn].lost + (if Loses(sys, e, conn) then |e.data| else 0)
  {
    assert conn in sys.written.Keys;
    if e.Write? && e.conn == conn {
      WriteAdds(sys, limits, conn, e.data);
    } else {
      OthersAddNothing(sys, limits, e, conn);
      assert sys.written[conn].bytes + "" == sys.written[conn].bytes;
    }
  }

  lemma {:induction false} OutputAfterRun(sys: System, limits: Limits, es: seq<Event>, conn: nat)
    requires Inv(sys, limits) && EnabledRun(sys, limits, es) && KeepsOpen(sys, limits, es, conn)
    ensures var t := After(sys, limits, es);
            && conn in sys.written && conn in t.written && conn in t.owners && t.owners[conn] == sys.owners[conn]
            && t.written[conn].bytes == sys.written[conn].bytes + DataOf(es, conn)
            && sys.written[conn].lost <= t.written[conn].lost
            && (t.written[conn].lost == sys.written[conn].lost <==> LosesNothing(sys, limits, es, conn))
    decreases |es|
  {
    assert conn in sys.written.Keys;
    if es == [] {
      assert sys.written[conn].bytes + "" == sys.written[conn].bytes;
    } else {
      var t := Next(sys, limits, es[0]);
      NextKeepsInv(sys, limits, es[0]);
      assert conn in t.owners by { assert KeepsOpen(t, limits, es[1..], conn); }
      OutputAfter(sys, limits, es[0], conn);
      OutputAfterRun(t, limits, es[1..], conn);
      var now := if es[0].Write? && es[0].conn == conn then es[0].data else "";
      JoinsToRight(sys.written[conn].bytes, now, DataOf(es[1..], conn));
    }
  }

  /** A file that its connection completes, and reports as a success, holds what the connection wrote if
      and only if none of it was written while the disk was full. */
  lemma SuccessIsIntactIff(sys: System, limits: Limits, es: seq<Event>, conn: nat, now: int)
    requires Inv(sys, limits) && EnabledRun(sys, limits, es) && KeepsOpen(sys, limits, es, conn)
    requires conn in sys.written && sys.written[conn] == Output("", 0)
    ensures Enabled(After(sys, limits, es), Close(conn, now))
    ensures var f, st := sys.owners[conn], Next(After(sys, limits, es), limits, Close(conn, now)).st;
            && IsValidFile(st, f) && f in st.files
            && (st.files[f] == DataOf(es, conn) <==> LosesNothing(sys, limits, es, conn))
  {
    var t := After(sys, limits, es);
    RunKeepsInv(sys, limits, es);
    OutputAfterRun(sys, limits, es, conn);
    CompletedAsIs(t, limits, conn, now);
    assert "" + DataOf(es, conn) == DataOf(es, conn);
    assert Accounted(t.st.files[t.owners[conn]], t.written[conn]);
  }

  // ---- Leaks ----

  /** A name leaks exactly when a new message begins on a connection whose upload was not closed;
      a leaked name can then be neither uploaded again nor deleted, whatever happens. */
  lemma {:induction false} LeakedStaysLeaked(sys: System, limits: Limits, es: seq<Event>, f: string)
    requires Inv(sys, limits) && EnabledRun(sys, limits, es) && f in sys.leaked
    ensures var t := After(sys, limits, es);
            f in t.leaked && IsPending(t.st, f) && !Register(t.st, f).1 && !Delete(t.st, f).1
    decreases |es|
  {
    if es != [] {
      NextKeepsInv(sys, limits, es[0]);
      assert f in Next(sys, limits, es[0]).leaked;
      LeakedStaysLeaked(Next(sys, limits, es[0]), limits, es[1..], f);
    }
  }

  /** Every upload is closed before its connection begins another message. */
  ghost predicate LeakFree(sys: System, limits: Limits, es: seq<Event>)
    requires EnabledRun(sys, limits, es)
    decreases |es|
  {
    es != [] ==>
      && (es[0].BeginMessage? ==> es[0].conn !in sys.owners)
      && LeakFree(Next(sys, limits, es[0]), limits, es[1..])
  }

  lemma {:induction false} LeakedGrows(sys: System, limits: Limits, es: seq<Event>)
    requires EnabledRun(sys, limits, es)
    ensures sys.leaked <= After(sys, limits, es).leaked
    decreases |es|
  {
    if es != [] {
      LeakedGrows(Next(sys, limits, es[0]), limits, es[1..]);
    }
  }

  lemma LeaksNow(sys: System, limits: Limits, e: Event)
    requires Inv(sys, limits) && Enabled(sys, e)
    ensures Next(sys, limits, e).leaked != sys.leaked <==> e.BeginMessage? && e.conn in sys.owners
    ensures sys.leaked <= Next(sys, limits, e).leaked
  {
    if e.BeginMessage? && e.conn in sys.owners {
      assert Owned(sys, sys.owners[e.conn]) && sys.owners[e.conn] in Next(sys, limits, e).leaked;
    }
  }

  /** A run leaves no name behind if and only if every upload in it is closed in time. */
  lemma {:induction false} NoLeakIff(sys: System, limits: Limits, es: seq<Event>)
    requires Inv(sys, limits) && EnabledRun(sys, limits, es)
    ensures After(sys, limits, es).leaked == sys.leaked <==> LeakFree(sys, limits, es)
    decreases |es|
  {
    if es != [] {
      var t := Next(sys, limits, es[0]);
      NextKeepsInv(sys, limits, es[0]);
      LeaksNow(sys, limits, es[0]);
      LeakedGrows(t, limits, es[1..]);
      NoLeakIff(t, limits, es[1..]);
    }
  }

  // ---- The cache ----

  /** A `Put` stores a start of its file, or stores nothing new. */
  predicate Truthful(sys: System, limits: Limits, e: Event)
    requires Enabled(sys, e)
  {
    e.Store? ==> StoresTruth(sys.st, limits, sys.tickets[e.conn].name, sys.tickets[e.conn].bytes)
  }

  /** One event keeps every cached value a start of its file if and only if it is no `Put`, or a truthful one. */
  lemma EventSoundIff(sys: System, limits: Limits, e: Event)
    requires Inv(sys, limits) && Enabled(sys, e) && CacheSound(sys.st)
    ensures CacheSound(Next(sys, limits, e).st) <==> Truthful(sys, limits, e)
  {
    EventIsCall(sys, limits, e);
    if Calls(sys, e) {
      CallsAreLegal(sys, limits, e);
      CacheSoundIff(sys.st, limits, Call(sys, e));
    } else {
      assert forall c :: c in sys.st.lru ==> CachedSoundly(sys.st, c);
    }
  }

  ghost predicate SoundThroughout(sys: System, limits: Limits, es: seq<Event>)
    requires EnabledRun(sys, limits, es)
    decreases |es|
  {
    CacheSound(sys.st) && (es != [] ==> SoundThroughout(Next(sys, limits, es[0]), limits, es[1..]))
  }

  ghost predicate TruthfulRun(sys: System, limits: Limits, es: seq<Event>)
    requires EnabledRun(sys, limits, es)
    decreases |es|
  {
    es != [] ==> Truthful(sys, limits, es[0]) && TruthfulRun(Next(sys, limits, es[0]), limits, es[1..])
  }

  /** The cache is truthful in every state of a run if and only if each `Put` of the run is. */
  lemma {:induction false} SoundThroughoutIff(sys: System, limits: Limits, es: seq<Event>)
    requires Inv(sys, limits) && EnabledRun(sys, limits, es) && CacheSound(sys.st)
    ensures SoundThroughout(sys, limits, es) <==> TruthfulRun(sys, limits, es)
    decreases |es|
  {
    if es != [] {
      var t := Next(sys, limits, es[0]);
      EventSoundIff(sys, limits, es[0]);
      NextKeepsInv(sys, limits, es[0]);
      if CacheSound(t.st) {
        SoundThroughoutIff(t, limits, es[1..]);
      }
    }
  }

  /** What was read is still what is there: the name was not deleted and uploaded again since. */
  predicate StillThatFile(sys: System, t: Ticket) {
    t.name in sys.st.files && t.name in sys.births && sys.births[t.name] == t.born
  }

  /** One event keeps every cached value a prefix of its file, provided that a `Put` stores what
      was read from the file that still has the name. */
  lemma FreshStoreKeepsCacheSound(sys: System, limits: Limits, e: Event)
    requires Inv(sys, limits) && Enabled(sys, e) && CacheSound(sys.st)
    requires e.Store? ==> StillThatFile(sys, sys.tickets[e.conn])
    ensures CacheSound(Next(sys, limits, e).st)
  {
    EventSoundIff(sys, limits, e);
    if e.Store? {
      assert TicketTrue(sys, sys.tickets[e.conn]);
    }
  }

  ghost predicate FreshRun(sys: System, limits: Limits, es: seq<Event>)
    requires EnabledRun(sys, limits, es)
    decreases |es|
  {
    es != [] ==>
      && (es[0].Store? ==> StillThatFile(sys, sys.tickets[es[0].conn]))
      && FreshRun(Next(sys, limits, es[0]), limits, es[1..])
  }

  lemma {:induction false} FreshRunKeepsCacheSound(sys: System, limits: Limits, es: seq<Event>)
    requires Inv(sys, limits) && EnabledRun(sys, limits, es) && FreshRun(sys, limits, es) && CacheSound(sys.st)
    ensures CacheSound(After(sys, limits, es).st)
    decreases |es|
  {
    if es != [] {
      FreshStoreKeepsCacheSound(sys, limits, es[0]);
      NextKeepsInv(sys, limits, es[0]);
      FreshRunKeepsCacheSound(Next(sys, limits, es[0]), limits, es[1..]);
    }
  }

  lemma {:induction false} RunSnoc(sys: System, limits: Limits, es: seq<Event>, e: Event)
    requires EnabledRun(sys, limits, es) && Enabled(After(sys, limits, es), e)
    ensures EnabledRun(sys, limits, es + [e])
    ensures After(sys, limits, es + [e]) == Next(After(sys, limits, es), limits, e)
    decreases |es|
  {
    if es == [] {
      assert EnabledRun(Next(sys, limits, e), limits, []);
      assert (es + [e])[1..] == [];
    } else {
      assert (es + [e])[1..] == es[1..] + [e];
      RunSnoc(Next(sys, limits, es[0]), limits, es[1..], e);
    }
  }

  /** The file `f` with content `data`, uploaded by connection 0 in one piece. */
  function Uploaded(sys: System, f: string, data: string): System {
    sys.(st := sys.st.(entries := sys.st.entries[f := Complete(Info(|data|, 0))],
                       files := sys.st.files[f := data], dirty := true),
         births := sys.births[f := sys.clock], clock := sys.clock + 1)
  }

  /** The state while connection 0 has `f` open and has written `data` to it. */
  function Writing(s: System, f: string, data: string): System {
    s.(st := s.st.(entries := s.st.entries[f := Pending], files := s.st.files[f := data]),
       owners := map[0 := f], written := map[0 := Output(data, 0)],
       births := s.births[f := s.clock], clock := s.clock + 1)
  }

  lemma OpenStep(s: System, limits: Limits, f: string)
    requires s.owners == map[] && s.written == map[] && f !in s.st.entries && Storable(f)
    ensures Enabled(s, Open(0, f)) && Next(s, limits, Open(0, f)) == Writing(s, f, "")
  {
  }

  lemma WriteStep(s: System, limits: Limits, f: string, data: string)
    requires !s.st.full
    ensures var t := Writing(s, f, "");
            Enabled(t, Write(0, data)) && Next(t, limits, Write(0, data)) == Writing(s, f, data)
  {
    var t := Writing(s, f, "");
    assert "" + data == data;
    assert t.st.files[f := data] == s.st.files[f := data];
    assert t.written[0 := Output(data, 0)] == map[0 := Output(data, 0)];
  }

  lemma CloseStep(s: System, limits: Limits, f: string, data: string)
    requires s.owners == map[] && s.written == map[]
    ensures var t := Writing(s, f, data);
            Enabled(t, Close(0, 0)) && Next(t, limits, Close(0, 0)) == Uploaded(s, f, data)
  {
    var t := Writing(s, f, data);
    assert t.owners - {0} == map[] && t.written - {0} == map[];
    assert t.st.entries[f := Complete(Info(|data|, 0))] == s.st.entries[f := Complete(Info(|data|, 0))];
  }

  lemma UploadRun(sys: System, limits: Limits, es: seq<Event>, f: string, data: string) returns (fs: seq<Event>)
    requires EnabledRun(sys, limits, es)
    requires var s := After(sys, limits, es);
             s.owners == map[] && s.written == map[] && f !in s.st.entries && Storable(f) && !s.st.full
    ensures EnabledRun(sys, limits, fs) && After(sys, limits, fs) == Uploaded(After(sys, limits, es), f, data)
  {
    var s := After(sys, limits, es);
    OpenStep(s, limits, f);
    WriteStep(s, limits, f, data);
    CloseStep(s, limits, f, data);
    RunSnoc(sys, limits, es, Open(0, f));
    fs := es + [Open(0, f)];
    RunSnoc(sys, limits, fs, Write(0, data));
    fs := fs + [Write(0, data)];
    RunSnoc(sys, limits, fs, Close(0, 0));
    fs := fs + [Close(0, 0)];
  }

  const EMPTY := System(State(map[], map[], [], false, false), map[], map[], {}, map[], 0, map[])

  const HOLDING := EMPTY.(st := State(map[], map[], [], true, false), births := map["f" := 0], clock := 1,
                          tickets := map[1 := Ticket("f", 0, "a")])

  /** A download reads "a" from the file "f", which is then deleted. */
  lemma ReadThenRemoved(limits: Limits) returns (es: seq<Event>)
    ensures EnabledRun(EMPTY, limits, es) && After(EMPTY, limits, es) == HOLDING
  {
    es := UploadRun(EMPTY, limits, [], "f", "a");
    var up := Uploaded(EMPTY, "f", "a");
    var read, remove := Read(1, "f", 1), Remove("f");
    RunSnoc(EMPTY, limits, es, read);
    RunSnoc(EMPTY, limits, es + [read], remove);
    var end := Next(Next(up, limits, read), limits, remove);
    assert end.st.files == map[] && end.st.entries == map[];
    assert end.tickets == HOLDING.tickets && end.births == HOLDING.births;
    es := es + [read] + [remove];
  }

  /** The condition is needed: a download that read a file before it was deleted and uploaded
      again caches the old bytes for the new file. */
  lemma StaleStoreSpoilsCache(limits: Limits) returns (es: seq<Event>)
    requires limits.capacity > 0 && limits.contentSize > 0
    ensures Inv(EMPTY, limits) && EnabledRun(EMPTY, limits, es) && !CacheSound(After(EMPTY, limits, es).st)
  {
    es := ReadThenRemoved(limits);
    es := UploadRun(EMPTY, limits, es, "f", "b");
    RunSnoc(EMPTY, limits, es, Store(1));
    es := es + [Store(1)];
    StoredStale(limits);
  }

  lemma StoredStale(limits: Limits)
    requires limits.capacity > 0 && limits.contentSize > 0
    ensures !CacheSound(Next(Uploaded(HOLDING, "f", "b"), limits, Store(1)).st)
  {
    var stale := Cached("f", "a");
    var after := Next(Uploaded(HOLDING, "f", "b"), limits, Store(1)).st;
    assert after.lru == [stale] && stale in after.lru && after.files["f"] == "b";
    assert "a"[0] != "b"[0];
    assert !CachedSoundly(after, stale);
  }

  // ---- The scanner plays by these rules ----

  /** The system as one connection's scanner sees it. */
  predicate Matches(sys: System, conn: nat, s: Scan) {
    && s.store == sys.st
    && (s.open == "" <==> conn !in sys.owners)
    && (conn in sys.owners ==> sys.owners[conn] == s.open)
  }

  predicate AllOf(es: seq<Event>, conn: nat) {
    forall e :: e in es ==> (e.Open? || e.Write? || e.Close?) && e.conn == conn
  }

  lemma SkipIsEvents(c: Config, sys: System, limits: Limits, conn: nat, s: Scan) returns (es: seq<Event>)
    requires Inv(sys, limits) && Matches(sys, conn, s) && s.open == "" && |s.body| > |c.Delimiter()|
    ensures EnabledRun(sys, limits, es) && AllOf(es, conn)
    ensures Matches(After(sys, limits, es), conn, SkipIteration(c, s).s)
  {
    es := [];
    var pos := Find(s.body, c.boundary);
    if pos != -1 && ReadHead(s.body[pos..]).Named? {
      es := [Open(conn, ReadHead(s.body[pos..]).name)];
      assert EnabledRun(Next(sys, limits, es[0]), limits, es[1..]);
    }
  }

  /** The state of the file branch after it has tried to append the first `n` bytes of the buffer. */
  function AfterAppend(s: Scan, n: nat): Scan
    requires n <= |s.body|
  {
    var (store, appended) := Append(s.store, s.open, s.body[..n]);
    var t := s.(body := s.body[n..], store := store);
    if appended then t else AbandonFile(t)
  }

  lemma WriteMatches(sys: System, limits: Limits, conn: nat, s: Scan, n: nat)
    requires Matches(sys, conn, s) && s.open != "" && n <= |s.body|
    ensures Matches(Next(sys, limits, Write(conn, s.body[..n])), conn, AfterAppend(s, n))
  {
    GivenUp(s.store, s.open, s.body[..n]);
  }

  lemma CloseMatches(c: Config, sys: System, limits: Limits, conn: nat, s: Scan)
    requires Inv(sys, limits) && Matches(sys, conn, s) && s.open != ""
    ensures Enabled(sys, Close(conn, c.now))
    ensures Matches(Next(sys, limits, Close(conn, c.now)), conn, CloseFile(c, s))
  {
    assert Owned(sys, s.open);
  }

  lemma RunOne(sys: System, limits: Limits, e: Event)
    requires Enabled(sys, e)
    ensures EnabledRun(sys, limits, [e]) && After(sys, limits, [e]) == Next(sys, limits, e)
  {
    assert [e][1..] == [];
  }

  lemma RunTwo(sys: System, limits: Limits, e: Event, e': Event)
    requires Enabled(sys, e) && Enabled(Next(sys, limits, e), e')
    ensures EnabledRun(sys, limits, [e, e'])
    ensures After(sys, limits, [e, e']) == Next(Next(sys, limits, e), limits, e')
  {
    RunOne(Next(sys, limits, e), limits, e');
    assert [e, e'][1..] == [e'];
  }

  /** The state of the file branch after `n` bytes have been written. */
  function AfterWrite(s: Scan, n: nat): Scan
    requires n <= |s.body|
  {
    s.(body := s.body[n..], store := if n == 0 then s.store else Append(s.store, s.open, s.body[..n]).0)
  }

  lemma WriteThenClose(c: Config, sys: System, limits: Limits, conn: nat, s: Scan, n: nat)
    requires Inv(sys, limits) && Matches(sys, conn, s) && s.open != "" && 0 < n <= |s.body|
    requires !AppendFails(sys.st.full, s.body[..n])
    ensures var written := Next(sys, limits, Write(conn, s.body[..n]));
            && Enabled(written, Close(conn, c.now))
            && Matches(Next(written, limits, Close(conn, c.now)), conn, CloseFile(c, AfterWrite(s, n)))
  {
    WriteMatches(sys, limits, conn, s, n);
    NextKeepsInv(sys, limits, Write(conn, s.body[..n]));
    CloseMatches(c, Next(sys, limits, Write(conn, s.body[..n])), limits, conn, AfterWrite(s, n));
  }

  lemma CloseIsEvents(c: Config, sys: System, limits: Limits, conn: nat, s: Scan) returns (es: seq<Event>)
    requires Inv(sys, limits) && Matches(sys, conn, s) && s.open != ""
    ensures EnabledRun(sys, limits, es) && AllOf(es, conn)
    ensures Matches(After(sys, limits, es), conn, CloseFile(c, s))
  {
    CloseMatches(c, sys, limits, conn, s);
    RunOne(sys, limits, Close(conn, c.now));
    es := [Close(conn, c.now)];
  }

  lemma WriteAndCloseIsEvents(c: Config, sys: System, limits: Limits, conn: nat, s: Scan, n: nat)
    returns (es: seq<Event>)
    requires Inv(sys, limits) && Matches(sys, conn, s) && s.open != "" && 0 < n <= |s.body|
    requires !AppendFails(sys.st.full, s.body[..n])
    ensures EnabledRun(sys, limits, es) && AllOf(es, conn)
    ensures Matches(After(sys, limits, es), conn, CloseFile(c, AfterWrite(s, n)))
  {
    var write := Write(conn, s.body[..n]);
    WriteThenClose(c, sys, limits, conn, s, n);
    RunTwo(sys, limits, write, Close(conn, c.now));
    es := [write, Close(conn, c.now)];
  }

  lemma ClosingIsEvents(c: Config, sys: System, limits: Limits, conn: nat, s: Scan, n: nat) returns (es: seq<Event>)
    requires Inv(sys, limits) && Matches(sys, conn, s) && s.open != "" && n <= |s.body|
    requires n == 0 || !AppendFails(sys.st.full, s.body[..n])
    ensures EnabledRun(sys, limits, es) && AllOf(es, conn)
    ensures Matches(After(sys, limits, es), conn, CloseFile(c, AfterWrite(s, n)))
  {
    if n == 0 {
      assert AfterWrite(s, n) == s;
      es := CloseIsEvents(c, sys, limits, conn, s);
    } else {
      es := WriteAndCloseIsEvents(c, sys, limits, conn, s, n);
    }
  }

  lemma WritingIsEvents(sys: System, limits: Limits, conn: nat, s: Scan, n: nat) returns (es: seq<Event>)
    requires Inv(sys, limits) && Matches(sys, conn, s) && s.open != "" && n <= |s.body|
    ensures EnabledRun(sys, limits, es) && AllOf(es, conn)
    ensures Matches(After(sys, limits, es), conn, AfterAppend(s, n))
  {
    WriteMatches(sys, limits, conn, s, n);
    es := [Write(conn, s.body[..n])];
    RunOne(sys, limits, es[0]);
  }

  /** A turn of the file branch is a write, or a write and a completion. */
  lemma FileTurnIs(c: Config, s: Scan, n: nat)
    requires s.open != "" && |s.body| > |c.Delimiter()|
    requires n == if Occurs(s.body, c.Delimiter()) then Find(s.body, c.Delimiter()) else |s.body| - |c.Delimiter()|
    ensures n <= |s.body|
    ensures FileIteration(c, s).s
         == if Occurs(s.body, c.Delimiter()) && (n == 0 || !AppendFails(s.store.full, s.body[..n]))
              then CloseFile(c, AfterWrite(s, n))
            else AfterAppend(s, n)
  {
    if n == 0 {
      assert s.body[0..] == s.body;
    }
  }

  lemma FileIsEvents(c: Config, sys: System, limits: Limits, conn: nat, s: Scan) returns (es: seq<Event>)
    requires Inv(sys, limits) && Matches(sys, conn, s) && s.open != "" && |s.body| > |c.Delimiter()|
    ensures EnabledRun(sys, limits, es) && AllOf(es, conn)
    ensures Matches(After(sys, limits, es), conn, FileIteration(c, s).s)
  {
    var pos := Find(s.body, c.Delimiter());
    var n := if pos == -1 then |s.body| - |c.Delimiter()| else pos;
    FileTurnIs(c, s, n);
    if pos != -1 && (n == 0 || !AppendFails(sys.st.full, s.body[..n])) {
      es := ClosingIsEvents(c, sys, limits, conn, s, n);
    } else {
      es := WritingIsEvents(sys, limits, conn, s, n);
    }
  }

  /** Each turn of the upload loop is a run of at most two of these events, so everything proved
      of runs holds while any number of scanners work on the same registry. */
  lemma IterationIsEvents(c: Config, sys: System, limits: Limits, conn: nat, s: Scan) returns (es: seq<Event>)
    requires Inv(sys, limits) && Matches(sys, conn, s) && |s.body| > |c.Delimiter()|
    ensures EnabledRun(sys, limits, es) && AllOf(es, conn)
    ensures Matches(After(sys, limits, es), conn, Iteration(c, s).s)
    ensures Inv(After(sys, limits, es), limits)
  {
    if s.open == "" {
      es := SkipIsEvents(c, sys, limits, conn, s);
    } else {
      es := FileIsEvents(c, sys, limits, conn, s);
    }
    RunKeepsInv(sys, limits, es);
  }

  // ---- What a download does ----

  lemma FreshFirst(sys: System, limits: Limits, e: Event, es: seq<Event>)
    requires Enabled(sys, e) && (e.Store? ==> StillThatFile(sys, sys.tickets[e.conn]))
    requires EnabledRun(Next(sys, limits, e), limits, es) && FreshRun(Next(sys, limits, e), limits, es)
    ensures EnabledRun(sys, limits, [e] + es) && FreshRun(sys, limits, [e] + es)
    ensures After(sys, limits, [e] + es) == After(Next(sys, limits, e), limits, es)
  {
    assert ([e] + es)[1..] == es;
  }

  /** Looking into the cache. */
  lemma LookupRun(sys: System, limits: Limits, name: string)
    ensures var es := [Lookup(name)];
            && EnabledRun(sys, limits, es) && FreshRun(sys, limits, es)
            && After(sys, limits, es).st == GetFilePreContent(sys.st, name).0
  {
    FreshFirst(sys, limits, Lookup(name), []);
    assert [Lookup(name)] + [] == [Lookup(name)];
  }

  lemma StoreAfterRead(sys: System, limits: Limits, conn: nat, name: string, length: nat)
    requires Enabled(sys, Read(conn, name, length))
    ensures var t := Next(sys, limits, Read(conn, name, length));
            && conn in t.tickets && StillThatFile(t, t.tickets[conn])
            && Next(t, limits, Store(conn)).st
            == PutFilePreContent(sys.st, limits, name, Shorten(sys.st.files[name], length)).0
  {
  }

  /** Reading the start of a file and putting it into the cache. */
  lemma ReadAndStoreRun(sys: System, limits: Limits, conn: nat, name: string, length: nat)
    requires Tickets(sys) && name in sys.st.files
    ensures var es := [Read(conn, name, length), Store(conn)];
            && EnabledRun(sys, limits, es) && FreshRun(sys, limits, es)
            && After(sys, limits, es).st
            == PutFilePreContent(sys.st, limits, name, Shorten(sys.st.files[name], length)).0
  {
    var read, store := Read(conn, name, length), Store(conn);
    StoreAfterRead(sys, limits, conn, name, length);
    FreshFirst(Next(sys, limits, read), limits, store, []);
    assert [store] + [] == [store] && [read] + [store] == [read, store];
    FreshFirst(sys, limits, read, [store]);
  }

  /** The same after a look into the cache. */
  lemma MissRun(sys: System, limits: Limits, conn: nat, name: string, length: nat)
    requires Tickets(sys) && name in sys.st.files
    ensures var es := [Lookup(name)] + [Read(conn, name, length), Store(conn)];
            && EnabledRun(sys, limits, es) && FreshRun(sys, limits, es)
            && After(sys, limits, es).st
            == PutFilePreContent(GetFilePreContent(sys.st, name).0, limits, name, Shorten(sys.st.files[name], length)).0
  {
    var looked := Next(sys, limits, Lookup(name));
    ReadAndStoreRun(looked, limits, conn, name, length);
    FreshFirst(sys, limits, Lookup(name), [Read(conn, name, length), Store(conn)]);
  }

  predicate OfDownload(es: seq<Event>) {
    forall e :: e in es ==> e.Lookup? || e.Read? || e.Store?
  }

  /** What one call of `sendFile` does to the registry is a fresh run of the events of a download. */
  lemma SendIsEvents(sys: System, limits: Limits, conn: nat, maxRead: nat, name: string, start: nat, end: nat)
    returns (es: seq<Event>)
    requires Tickets(sys)
    ensures EnabledRun(sys, limits, es) && FreshRun(sys, limits, es) && OfDownload(es)
    ensures After(sys, limits, es).st == Download.SendFile(sys.st, limits, maxRead, name, start, end).0
  {
    es := [];
    if start == 0 < end {
      LookupRun(sys, limits, name);
      es := [Lookup(name)];
      if Download.CachedPrefix(sys.st, name) == "" && name in sys.st.files {
        var length := Min(maxRead, end);
        assert Download.Content(sys.st.files[name], 0, length) == Shorten(sys.st.files[name], length);
        MissRun(sys, limits, conn, name, length);
        es := [Lookup(name)] + [Read(conn, name, length), Store(conn)];
      }
    }
  }

  // ---- What a deletion and the end of a connection do ----

  /** A deletion removes an uploaded file for everyone, and its name can be uploaded again. */
  lemma RemovedIsGone(sys: System, limits: Limits, name: string)
    requires Inv(sys, limits) && IsValidFile(sys.st, name)
    ensures var t := Next(sys, limits, Remove(name)).st;
            && name !in t.entries && name !in t.files && SameElsewhere(sys.st, t, name) && Register(t, name).1
            && forall c :: c in t.lru ==> c.name != name
  {
    DeleteRemoves(sys.st, limits, name);
    forall c | c in Next(sys, limits, Remove(name)).st.lru
      ensures c.name != name
    {
      DeletedFromList(sys.st, name, c);
    }
  }

  lemma DestroyIs(sys: System, limits: Limits, conn: nat)
    requires conn in sys.owners
    ensures var t := Next(sys, limits, Destroy(conn));
            conn !in t.owners && t.st == Deregister(sys.st, sys.owners[conn]) && t.leaked == sys.leaked
  {
  }

  lemma GaveUp(st: State, f: string)
    requires Storable(f)
    ensures var t := Deregister(st, f);
            && f !in t.entries && f !in t.files && SameElsewhere(st, t, f) && t.lru == st.lru && Register(t, f).1
  {
  }

  /** The end of a connection takes its open file away with it, and frees the name. */
  lemma DestroyGivesUp(sys: System, limits: Limits, conn: nat)
    requires Inv(sys, limits) && conn in sys.owners
    ensures var t, f := Next(sys, limits, Destroy(conn)), sys.owners[conn];
            && conn !in t.owners && f !in t.st.entries && f !in t.st.files && SameElsewhere(sys.st, t.st, f)
            && t.st.lru == sys.st.lru && t.leaked == sys.leaked && Register(t.st, f).1
  {
    var f := sys.owners[conn];
    assert Owned(sys, f) && f in sys.st.entries;
    DestroyIs(sys, limits, conn);
    GaveUp(sys.st, f);
  }

  /** Opening gives the connection an empty file if the name is free and valid, and nothing otherwise. */
  lemma OpenTakes(sys: System, limits: Limits, conn: nat, name: string)
    requires Enabled(sys, Open(conn, name))
    ensures var t := Next(sys, limits, Open(conn, name));
            if name !in sys.st.entries && Storable(name) then
              && conn in t.owners && t.owners[conn] == name && t.owners - {conn} == sys.owners
              && name in t.st.files && t.st.files[name] == "" && SameElsewhere(sys.st, t.st, name)
            else t == sys
  {
    RegisterTakes(sys.st, name);
    assert sys.owners[conn := name] - {conn} == sys.owners;
  }

  // ---- What a download sees ----

  /** An uploaded file keeps its bytes as long as it is the same file. */
  lemma CompleteFileFixed(sys: System, limits: Limits, e: Event, f: string)
    requires Inv(sys, limits) && Enabled(sys, e) && IsValidFile(sys.st, f) && IsValidFile(Next(sys, limits, e).st, f)
    ensures var t := Next(sys, limits, e);
            f in sys.st.files && f in t.st.files && t.st.files[f] == sys.st.files[f]
  {
    assert f in sys.st.entries.Keys;
    EventIsCall(sys, limits, e);
    if Calls(sys, e) {
      CallsAreLegal(sys, limits, e);
      CallKeepsCompleteFile(sys.st, limits, Call(sys, e), f);
    }
  }

  /** The file is registered as uploaded in every state of the run. */
  ghost predicate StaysComplete(sys: System, limits: Limits, es: seq<Event>, f: string)
    requires EnabledRun(sys, limits, es)
    decreases |es|
  {
    IsValidFile(sys.st, f) && (es != [] ==> StaysComplete(Next(sys, limits, es[0]), limits, es[1..], f))
  }

  /** Throughout a fresh run, a file that stays uploaded has the same bytes, and whatever the cache
      holds for it is a prefix of them. */
  lemma {:induction false} StaysServed(sys: System, limits: Limits, es: seq<Event>, f: string)
    requires Inv(sys, limits) && EnabledRun(sys, limits, es) && FreshRun(sys, limits, es) && CacheSound(sys.st)
    requires StaysComplete(sys, limits, es, f)
    ensures var st := After(sys, limits, es).st;
            f in sys.st.files && Download.Serves(st, f, sys.st.files[f])
    decreases |es|
  {
    assert f in sys.st.entries.Keys;
    if es != [] {
      NextKeepsInv(sys, limits, es[0]);
      FreshStoreKeepsCacheSound(sys, limits, es[0]);
      CompleteFileFixed(sys, limits, es[0], f);
      StaysServed(Next(sys, limits, es[0]), limits, es[1..], f);
    }
  }

  /** A download whose calls fall anywhere in fresh runs of uploads, downloads and deletions that
      leave its file alone sends exactly the whole file. */
  lemma SharedDownload(sys: System, limits: Limits, maxRead: nat, f: string, runs: seq<seq<Event>>, sts: seq<State>)
    requires Inv(sys, limits) && CacheSound(sys.st) && f in sys.st.files && maxRead > 0
    requires |runs| == |sts| && sts != [] && |sys.st.files[f]| <= |sts|
    requires forall i :: 0 <= i < |runs| ==>
               && EnabledRun(sys, limits, runs[i]) && FreshRun(sys, limits, runs[i])
               && StaysComplete(sys, limits, runs[i], f) && sts[i] == After(sys, limits, runs[i]).st
    ensures Download.Run(limits, maxRead, f, sts, 0, |sys.st.files[f]|) == (sys.st.files[f], |sys.st.files[f]|)
  {
    forall i | 0 <= i < |sts|
      ensures Download.Serves(sts[i], f, sys.st.files[f])
    {
      StaysServed(sys, limits, runs[i], f);
    }
    Download.WholeFileDownload(limits, maxRead, f, sys.st.files[f], sts);
  }
}
