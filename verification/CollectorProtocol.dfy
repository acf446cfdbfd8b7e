/**
 Handler threads of one collector process, in any interleaving with each other and with every
 other writer of the store: which lines of the store come from them.
 */
module CollectorProtocol {
  import opened Prelude
  import opened RecordSchema
  import opened ChainTheorems
  import opened AppendLog
  import opened Framing
  import opened Collector
  import opened IngestLedger
  import Writers = AppendProtocol
  import AppendSafety
  import opened WriterSteps

  /** An admitted event, the name on the certificate it came with, and the nodes enrolled when it did. */
  datatype Visit = Visit(event: SensorEvent, certificate: string, enrolled: set<string>)

  /** Where a handler is; a ticket is the place of its event among all reservations. */
  datatype Phase =
    | Idle
    | Connected(certificate: string, enrolled: set<string>)
    | Admitted(visit: Visit)
    | Reserved(visit: Visit, ticket: nat)
    | Handing(visit: Visit, ticket: nat, w: nat)
    | Logged(visit: Visit, ticket: nat)

  datatype Ack = Ack(visit: Visit, ticket: nat)

  /** The shared state, the handlers, the store, and the history: reservations, calls of the writer, and answers. */
  datatype Process = Process(
    last: map<string, nat>, enrolled: set<string>, phases: map<nat, Phase>, ledger: Ledger,
    reserved: seq<SensorEvent>, handed: seq<nat>, acknowledged: seq<Ack>)

  /** What handler `h` can do next; OtherWriter is a step of a writer that serves no handler. */
  datatype Action =
    | Reload(nodes: set<string>)
    | Connect(names: seq<string>)
    | Read(frame: Result<string, ReadError>)
    | Reserve
    | CallWriter(w: nat)
    | WriterStep(a: Writers.Action)
    | Acknowledge
    | Abandon
    | OtherWriter(w: nat, a: Writers.Action)

  function PhaseOf(s: Process, h: nat): Phase {
    if h in s.phases then s.phases[h] else Idle
  }

  function Move(s: Process, h: nat, p: Phase): Process {
    s.(phases := s.phases[h := p])
  }

  function Step(c: Setting, s: Process, h: nat, a: Action): Option<Process> {
    var p := PhaseOf(s, h);
    match a
    case Reload(nodes) => Some(s.(enrolled := nodes))
    case Connect(names) =>
      if !p.Idle? then None
      else if |names| != 1 || names[0] !in s.enrolled then Some(s)
      else Some(Move(s, h, Connected(names[0], s.enrolled)))
    case Read(frame) => if p.Connected? then Some(AfterRead(c, s, h, p.certificate, p.enrolled, frame)) else None
    case Reserve => if p.Admitted? then Some(AfterReserve(s, h, p.visit)) else None
    case CallWriter(w) =>
      if p.Reserved? && Writers.PhaseOf(s.ledger.store, w).Idle? then
        Some(AfterCall(c, s, h, p.visit, p.ticket, w))
      else None
    case WriterStep(b) => if p.Handing? then AfterWriterStep(c, s, h, p.visit, p.ticket, p.w, b) else None
    case Acknowledge => if p.Logged? then Some(AfterAck(s, h, p.visit, p.ticket)) else None
    case Abandon => if p.Handing? then None else Some(Move(s, h, Idle))
    case OtherWriter(w, b) => if w in s.ledger.owners then None else AfterOtherWriter(c, s, w, b)
  }

  function AfterRead(c: Setting, s: Process, h: nat, certificate: string, enrolled: set<string>,
                     frame: Result<string, ReadError>): Process {
    var r := Admit(c.pf, [certificate], enrolled, frame);
    Move(s, h, if r.Err? then Idle else Admitted(Visit(r.value, certificate, enrolled)))
  }

  function AfterReserve(s: Process, h: nat, visit: Visit): Process {
    if IsReplay(s.last, visit.event) then Move(s, h, Idle)
    else
      Move(s, h, Reserved(visit, |s.reserved|)).(
        last := s.last[visit.event.nodeId := visit.event.sequence], reserved := s.reserved + [visit.event])
  }

  /** The writer refuses an event that does not meet its schema. */
  function AfterCall(c: Setting, s: Process, h: nat, visit: Visit, ticket: nat, w: nat): Process {
    var handed := s.(handed := s.handed + [ticket]);
    match Writers.Step(c, s.ledger.store, w, Writers.Request(IngestionEvent(visit.event)))
    case None => Move(handed, h, Idle)
    case Some(t) => Move(handed, h, Handing(visit, ticket, w)).(ledger := Call(s.ledger, w, ticket, t))
  }

  /** Only a writer that returns a record lets its handler go on; any other end is a failed hand-over. */
  function AfterWriterStep(c: Setting, s: Process, h: nat, visit: Visit, ticket: nat, w: nat,
                           a: Writers.Action): Option<Process> {
    match Writers.Step(c, s.ledger.store, w, a)
    case None => None
    case Some(t) =>
      if w !in s.ledger.owners then None
      else
        var next := s.(ledger := OwnStep(c, s.ledger, w, a, t));
        Some(Move(next, h, if a.Return? then Logged(visit, ticket)
                           else if Writers.PhaseOf(t, w).Idle? then Idle else Handing(visit, ticket, w)))
  }

  function AfterAck(s: Process, h: nat, visit: Visit, ticket: nat): Process {
    Move(s, h, Idle).(acknowledged := s.acknowledged + [Ack(visit, ticket)])
  }

  function AfterOtherWriter(c: Setting, s: Process, w: nat, a: Writers.Action): Option<Process> {
    match Writers.Step(c, s.ledger.store, w, a)
    case None => None
    case Some(t) => Some(s.(ledger := OtherStep(c, s.ledger, w, a, t)))
  }

  // ----- the invariant

  predicate HasTicket(p: Phase) {
    p.Reserved? || p.Handing? || p.Logged?
  }

  /** Handler `h` holds the ticket. */
  predicate Holds(s: Process, h: nat, ticket: nat) {
    HasTicket(PhaseOf(s, h)) && PhaseOf(s, h).ticket == ticket
  }

  /** The event is the certificate's own, from a node enrolled when the connection was made. */
  predicate OwnEvent(v: Visit) {
    v.event.nodeId == v.certificate && v.certificate in v.enrolled && ValidSensorEvent(v.event)
  }

  /** Reservations of one node increase, and the last one is the number kept for it. */
  ghost predicate Increasing(last: map<string, nat>, reserved: seq<SensorEvent>) {
    && (forall i, j | 0 <= i < j < |reserved| :: reserved[i].nodeId == reserved[j].nodeId ==>
          reserved[i].sequence < reserved[j].sequence)
    && (forall i | 0 <= i < |reserved| ::
          reserved[i].nodeId in last && reserved[i].sequence <= last[reserved[i].nodeId])
  }

  predicate HasEvent(s: Process, v: Visit, ticket: nat) {
    OwnEvent(v) && ticket < |s.reserved| && s.reserved[ticket] == v.event
  }

  predicate PhaseFits(s: Process, p: Phase) {
    match p
    case Idle => true
    case Connected(certificate, enrolled) => certificate in enrolled
    case Admitted(visit) => OwnEvent(visit)
    case Reserved(visit, ticket) => HasEvent(s, visit, ticket) && ticket !in s.handed
    case Handing(visit, ticket, w) => HasEvent(s, visit, ticket) && w in s.ledger.owners && s.ledger.owners[w] == ticket
    case Logged(visit, ticket) => HasEvent(s, visit, ticket) && ticket in s.ledger.place
  }

  predicate PhasesFit(s: Process) {
    forall h | h in s.phases :: PhaseFits(s, s.phases[h])
  }

  /** No two handlers hold the same ticket. */
  predicate OwnTickets(s: Process) {
    forall g, h | g in s.phases && h in s.phases && g != h && HasTicket(s.phases[g]) && HasTicket(s.phases[h]) ::
      s.phases[g].ticket != s.phases[h].ticket
  }

  predicate Distinct(tickets: seq<nat>, bound: nat) {
    && (forall i | 0 <= i < |tickets| :: tickets[i] < bound)
    && (forall i, j | 0 <= i < j < |tickets| :: tickets[i] != tickets[j])
  }

  /** Writers and lines exist for tickets alone that have been handed over. */
  predicate HandedCovers(s: Process) {
    && (forall w | w in s.ledger.owners :: s.ledger.owners[w] in s.handed)
    && (forall ticket | ticket in s.ledger.place :: ticket in s.handed)
  }

  predicate AckFits(s: Process, a: Ack) {
    HasEvent(s, a.visit, a.ticket) && a.ticket in s.ledger.place
  }

  predicate AcksFit(s: Process) {
    forall i | 0 <= i < |s.acknowledged| :: AckFits(s, s.acknowledged[i])
  }

  ghost predicate HandlersFit(s: Process) {
    && Increasing(s.last, s.reserved) && Distinct(s.handed, |s.reserved|)
    && OwnTickets(s) && PhasesFit(s) && HandedCovers(s) && AcksFit(s)
  }

  ghost predicate Invariant(c: Setting, s: Process) {
    HandlersFit(s) && Fits(c, s.reserved, s.ledger)
  }

  // ----- what a step leaves as it was

  /** The reservations are the same, and what has a line keeps it. */
  predicate Keeps(s: Process, t: Process) {
    t.reserved == s.reserved && forall ticket | ticket in s.ledger.place :: ticket in t.ledger.place
  }

  lemma AcksStay(s: Process, t: Process)
    requires AcksFit(s) && Keeps(s, t) && t.acknowledged == s.acknowledged
    ensures AcksFit(t)
  {
    forall i | 0 <= i < |t.acknowledged|
      ensures AckFits(t, t.acknowledged[i])
    {
      assert AckFits(s, s.acknowledged[i]);
    }
  }

  lemma PhasesSame(s: Process, t: Process)
    requires PhasesFit(s) && t.phases == s.phases && t.reserved == s.reserved && t.handed == s.handed
    requires t.ledger.owners == s.ledger.owners && Keeps(s, t)
    ensures PhasesFit(t)
  {
    forall g | g in t.phases
      ensures PhaseFits(t, t.phases[g])
    {
      assert PhaseFits(s, s.phases[g]);
    }
  }

  /** A handler moves with its ticket, if it keeps one: no ticket is shared afterwards. */
  lemma TicketsStayOwn(s: Process, t: Process, h: nat, p: Phase)
    requires OwnTickets(s) && t.phases == s.phases[h := p]
    requires HasTicket(p) ==> Holds(s, h, p.ticket)
    ensures OwnTickets(t)
  {
  }

  /** Handed tickets and owners have changed for the ticket of handler `h` alone. */
  predicate OwnChange(s: Process, t: Process, h: nat) {
    && (forall ticket | ticket in t.handed && ticket !in s.handed :: Holds(s, h, ticket))
    && (forall w | w in s.ledger.owners && !(w in t.ledger.owners && t.ledger.owners[w] == s.ledger.owners[w]) ::
          Holds(s, h, s.ledger.owners[w]))
  }

  lemma PhasesStay(s: Process, t: Process, h: nat, p: Phase)
    requires PhasesFit(s) && OwnTickets(s) && Keeps(s, t) && OwnChange(s, t, h)
    requires t.phases == s.phases[h := p] && PhaseFits(t, p)
    ensures PhasesFit(t)
  {
    forall g | g in t.phases
      ensures PhaseFits(t, t.phases[g])
    {
      if g != h {
        assert PhaseFits(s, s.phases[g]);
        assert HasTicket(s.phases[g]) ==> !Holds(s, h, s.phases[g].ticket);
      }
    }
  }

  /** Handler `h` moves on to phase `p`. */
  lemma HandlerMoves(s: Process, t: Process, h: nat, p: Phase)
    requires HandlersFit(s) && Keeps(s, t) && OwnChange(s, t, h)
    requires t.phases == s.phases[h := p] && PhaseFits(t, p) && (HasTicket(p) ==> Holds(s, h, p.ticket))
    requires t.last == s.last && t.acknowledged == s.acknowledged
    requires HandedCovers(t) && Distinct(t.handed, |t.reserved|)
    ensures HandlersFit(t)
  {
    PhasesStay(s, t, h, p);
    TicketsStayOwn(s, t, h, p);
    AcksStay(s, t);
  }

  // ----- the steps

  lemma MoveKeepsInvariant(c: Setting, s: Process, h: nat, p: Phase)
    requires Invariant(c, s) && PhaseFits(s, p) && (HasTicket(p) ==> Holds(s, h, p.ticket))
    ensures Invariant(c, Move(s, h, p))
  {
    HandlerMoves(s, Move(s, h, p), h, p);
  }

  lemma ReloadKeepsInvariant(c: Setting, s: Process, nodes: set<string>)
    requires Invariant(c, s)
    ensures Invariant(c, s.(enrolled := nodes))
  {
    PhasesSame(s, s.(enrolled := nodes));
    AcksStay(s, s.(enrolled := nodes));
  }

  lemma ReservationIncreases(last: map<string, nat>, reserved: seq<SensorEvent>, e: SensorEvent)
    requires Increasing(last, reserved) && !IsReplay(last, e)
    ensures Increasing(last[e.nodeId := e.sequence], reserved + [e])
  {
  }

  lemma ReservedPhases(s: Process, h: nat, visit: Visit)
    requires HandlersFit(s) && OwnEvent(visit) && !IsReplay(s.last, visit.event)
    ensures PhasesFit(AfterReserve(s, h, visit)) && AcksFit(AfterReserve(s, h, visit))
  {
    var t := AfterReserve(s, h, visit);
    forall g | g in t.phases
      ensures PhaseFits(t, t.phases[g])
    {
      if g != h {
        assert PhaseFits(s, s.phases[g]);
      }
    }
    forall i | 0 <= i < |t.acknowledged|
      ensures AckFits(t, t.acknowledged[i])
    {
      assert AckFits(s, s.acknowledged[i]);
    }
  }

  lemma ReservedTickets(s: Process, h: nat, visit: Visit)
    requires HandlersFit(s) && !IsReplay(s.last, visit.event)
    ensures OwnTickets(AfterReserve(s, h, visit))
  {
    forall g | g in s.phases && HasTicket(s.phases[g])
      ensures s.phases[g].ticket < |s.reserved|
    {
      assert PhaseFits(s, s.phases[g]);
    }
  }

  lemma ReserveKeepsInvariant(c: Setting, s: Process, h: nat, visit: Visit)
    requires Invariant(c, s) && PhaseOf(s, h) == Admitted(visit)
    ensures Invariant(c, AfterReserve(s, h, visit))
  {
    if IsReplay(s.last, visit.event) {
      MoveKeepsInvariant(c, s, h, Idle);
    } else {
      assert PhaseFits(s, s.phases[h]);
      ReservationIncreases(s.last, s.reserved, visit.event);
      ReservedPhases(s, h, visit);
      ReservedTickets(s, h, visit);
      ReservationFits(c, s.reserved, s.ledger, visit.event);
    }
  }

  lemma OneMore(tickets: seq<nat>, ticket: nat, bound: nat)
    requires Distinct(tickets, bound) && ticket < bound && ticket !in tickets
    ensures Distinct(tickets + [ticket], bound)
  {
  }

  lemma OwnerIsBusy(c: Setting, reserved: seq<SensorEvent>, l: Ledger, w: nat)
    requires OwnersFit(c, reserved, l)
    ensures w in l.owners ==> !Writers.PhaseOf(l.store, w).Idle?
  {
    if w in l.owners {
      assert OwnerFits(c, reserved, l.place, Writers.PhaseOf(l.store, w), l.owners[w]);
    }
  }

  lemma RefusedHandlers(s: Process, h: nat, visit: Visit, ticket: nat)
    requires HandlersFit(s) && PhaseOf(s, h) == Reserved(visit, ticket)
    ensures HandlersFit(Move(s.(handed := s.handed + [ticket]), h, Idle))
  {
    assert PhaseFits(s, s.phases[h]);
    OneMore(s.handed, ticket, |s.reserved|);
    HandlerMoves(s, Move(s.(handed := s.handed + [ticket]), h, Idle), h, Idle);
  }

  lemma TakenHandlers(s: Process, h: nat, visit: Visit, ticket: nat, w: nat, t: Writers.System)
    requires HandlersFit(s) && PhaseOf(s, h) == Reserved(visit, ticket) && w !in s.ledger.owners
    ensures var handed := s.(handed := s.handed + [ticket]);
            HandlersFit(Move(handed, h, Handing(visit, ticket, w)).(ledger := Call(s.ledger, w, ticket, t)))
  {
    assert PhaseFits(s, s.phases[h]);
    OneMore(s.handed, ticket, |s.reserved|);
    var handed := s.(handed := s.handed + [ticket]);
    var next := Move(handed, h, Handing(visit, ticket, w)).(ledger := Call(s.ledger, w, ticket, t));
    HandlerMoves(s, next, h, Handing(visit, ticket, w));
  }

  lemma CallKeepsInvariant(c: Setting, s: Process, h: nat, visit: Visit, ticket: nat, w: nat)
    requires GoodSetting(c) && Invariant(c, s) && |AllLines(s.ledger.store.data)| < I64_LIMIT
    requires PhaseOf(s, h) == Reserved(visit, ticket) && Writers.PhaseOf(s.ledger.store, w).Idle?
    ensures Invariant(c, AfterCall(c, s, h, visit, ticket, w))
  {
    assert PhaseFits(s, s.phases[h]);
    OwnerIsBusy(c, s.reserved, s.ledger, w);
    var called := Writers.Step(c, s.ledger.store, w, Writers.Request(IngestionEvent(visit.event)));
    if called.Some? {
      TakenHandlers(s, h, visit, ticket, w, called.value);
      CallFits(c, s.reserved, s.ledger, w, ticket, called.value);
    } else {
      RefusedHandlers(s, h, visit, ticket);
    }
  }

  lemma ReturnHasLine(c: Setting, reserved: seq<SensorEvent>, l: Ledger, w: nat, t: Writers.System)
    requires OwnersFit(c, reserved, l) && w in l.owners && Writers.Step(c, l.store, w, Writers.Return) == Some(t)
    ensures l.owners[w] in l.place
  {
    ReturnIsWritten(c, l.store, w, t);
    assert OwnerFits(c, reserved, l.place, Writers.PhaseOf(l.store, w), l.owners[w]);
  }

  /** Writer `w` of handler `h` has changed the ledger, and the handler moves on to `p`. */
  lemma LedgerMoves(s: Process, h: nat, w: nat, p: Phase, m: Ledger)
    requires HandlersFit(s) && PhaseOf(s, h).Handing? && PhaseOf(s, h).w == w
    requires forall v | v in s.ledger.owners && v != w :: v in m.owners && m.owners[v] == s.ledger.owners[v]
    requires forall v | v in m.owners :: v in s.ledger.owners && m.owners[v] == s.ledger.owners[v]
    requires forall ticket | ticket in s.ledger.place :: ticket in m.place
    requires forall ticket | ticket in m.place && ticket !in s.ledger.place :: ticket == PhaseOf(s, h).ticket
    requires PhaseFits(s.(ledger := m), p) && (HasTicket(p) ==> p.ticket == PhaseOf(s, h).ticket)
    ensures HandlersFit(Move(s.(ledger := m), h, p))
  {
    assert PhaseFits(s, s.phases[h]);
    HandlerMoves(s, Move(s.(ledger := m), h, p), h, p);
  }

  lemma WriterStepHandlers(c: Setting, s: Process, h: nat, visit: Visit, ticket: nat, w: nat, a: Writers.Action,
                           t: Process)
    requires HandlersFit(s) && PhaseOf(s, h) == Handing(visit, ticket, w)
    requires w in s.ledger.owners && (a.Return? ==> s.ledger.owners[w] in s.ledger.place)
    requires AfterWriterStep(c, s, h, visit, ticket, w, a) == Some(t)
    ensures HandlersFit(t)
  {
    assert PhaseFits(s, s.phases[h]);
    LedgerMoves(s, h, w, t.phases[h], t.ledger);
  }

  lemma WriterStepKeepsInvariant(c: Setting, s: Process, h: nat, visit: Visit, ticket: nat, w: nat,
                                 a: Writers.Action, t: Process)
    requires GoodSetting(c) && Invariant(c, s) && |AllLines(s.ledger.store.data)| < I64_LIMIT
    requires PhaseOf(s, h) == Handing(visit, ticket, w) && AfterWriterStep(c, s, h, visit, ticket, w, a) == Some(t)
    ensures Invariant(c, t)
  {
    var after := t.ledger.store;
    assert Writers.Step(c, s.ledger.store, w, a) == Some(after);
    if a.Return? {
      ReturnHasLine(c, s.reserved, s.ledger, w, after);
    }
    WriterStepHandlers(c, s, h, visit, ticket, w, a, t);
    OwnStepFits(c, s.reserved, s.ledger, w, a, after);
  }

  lemma AnotherAck(s: Process, a: Ack)
    requires HandlersFit(s) && AckFits(s, a)
    ensures HandlersFit(s.(acknowledged := s.acknowledged + [a]))
  {
    var t := s.(acknowledged := s.acknowledged + [a]);
    PhasesSame(s, t);
    forall i | 0 <= i < |t.acknowledged|
      ensures AckFits(t, t.acknowledged[i])
    {
      assert AckFits(s, t.acknowledged[i]);
    }
  }

  lemma AckHandlers(s: Process, h: nat, visit: Visit, ticket: nat)
    requires HandlersFit(s) && PhaseOf(s, h) == Logged(visit, ticket)
    ensures HandlersFit(AfterAck(s, h, visit, ticket))
  {
    assert PhaseFits(s, s.phases[h]);
    HandlerMoves(s, Move(s, h, Idle), h, Idle);
    AnotherAck(Move(s, h, Idle), Ack(visit, ticket));
  }

  lemma AckKeepsInvariant(c: Setting, s: Process, h: nat, visit: Visit, ticket: nat)
    requires Invariant(c, s) && PhaseOf(s, h) == Logged(visit, ticket)
    ensures Invariant(c, AfterAck(s, h, visit, ticket))
  {
    AckHandlers(s, h, visit, ticket);
  }

  lemma OtherWriterKeepsInvariant(c: Setting, s: Process, w: nat, a: Writers.Action, t: Process)
    requires GoodSetting(c) && Invariant(c, s) && |AllLines(s.ledger.store.data)| < I64_LIMIT
    requires w !in s.ledger.owners && AfterOtherWriter(c, s, w, a) == Some(t)
    ensures Invariant(c, t)
  {
    OtherStepFits(c, s.reserved, s.ledger, w, a, t.ledger.store);
    PhasesSame(s, t);
    AcksStay(s, t);
  }

  lemma ConnectKeepsInvariant(c: Setting, s: Process, h: nat, names: seq<string>, t: Process)
    requires Invariant(c, s) && Step(c, s, h, Connect(names)) == Some(t)
    ensures Invariant(c, t)
  {
    if |names| == 1 && names[0] in s.enrolled {
      MoveKeepsInvariant(c, s, h, Connected(names[0], s.enrolled));
    }
  }

  lemma ReadKeepsInvariant(c: Setting, s: Process, h: nat, certificate: string, enrolled: set<string>,
                           frame: Result<string, ReadError>)
    requires Invariant(c, s) && PhaseOf(s, h) == Connected(certificate, enrolled)
    ensures Invariant(c, AfterRead(c, s, h, certificate, enrolled, frame))
  {
    assert PhaseFits(s, s.phases[h]);
    var r := Admit(c.pf, [certificate], enrolled, frame);
    MoveKeepsInvariant(c, s, h, if r.Err? then Idle else Admitted(Visit(r.value, certificate, enrolled)));
  }

  predicate TouchesStore(a: Action) {
    a.CallWriter? || a.WriterStep? || a.OtherWriter?
  }

  lemma HandlerStepKeepsInvariant(c: Setting, s: Process, h: nat, a: Action, t: Process)
    requires Invariant(c, s) && !TouchesStore(a) && Step(c, s, h, a) == Some(t)
    ensures Invariant(c, t)
  {
    var p := PhaseOf(s, h);
    match a
    case Reload(nodes) => ReloadKeepsInvariant(c, s, nodes);
    case Connect(names) => ConnectKeepsInvariant(c, s, h, names, t);
    case Read(frame) => ReadKeepsInvariant(c, s, h, p.certificate, p.enrolled, frame);
    case Reserve => ReserveKeepsInvariant(c, s, h, p.visit);
    case Acknowledge => AckKeepsInvariant(c, s, h, p.visit, p.ticket);
    case Abandon => MoveKeepsInvariant(c, s, h, Idle);
    case _ =>
  }

  lemma StoreStepKeepsInvariant(c: Setting, s: Process, h: nat, a: Action, t: Process)
    requires GoodSetting(c) && Invariant(c, s) && |AllLines(s.ledger.store.data)| < I64_LIMIT
    requires TouchesStore(a) && Step(c, s, h, a) == Some(t)
    ensures Invariant(c, t)
  {
    var p := PhaseOf(s, h);
    match a
    case CallWriter(w) => CallKeepsInvariant(c, s, h, p.visit, p.ticket, w);
    case WriterStep(b) => WriterStepKeepsInvariant(c, s, h, p.visit, p.ticket, p.w, b, t);
    case OtherWriter(w, b) => OtherWriterKeepsInvariant(c, s, w, b, t);
    case _ =>
  }

  /** Every step of every handler and every writer keeps the invariant. */
  lemma StepKeepsInvariant(c: Setting, s: Process, h: nat, a: Action, t: Process)
    requires GoodSetting(c) && Invariant(c, s) && |AllLines(s.ledger.store.data)| < I64_LIMIT
    requires Step(c, s, h, a) == Some(t)
    ensures Invariant(c, t)
  {
    if TouchesStore(a) {
      StoreStepKeepsInvariant(c, s, h, a, t);
    } else {
      HandlerStepKeepsInvariant(c, s, h, a, t);
    }
  }

  // ----- whole runs

  const STARTED := Process(map[], {}, map[], Ledger(AppendSafety.EMPTY, map[], [], map[]), [], [], [])

  /** One step, while the number of the next record fits in 63 bits. */
  function Continue(c: Setting, s: Option<Process>, move: (nat, Action)): Option<Process> {
    if s.None? || |AllLines(s.value.ledger.store.data)| >= I64_LIMIT then None else Step(c, s.value, move.0, move.1)
  }

  /** The state after any steps of any handlers and writers, in any order; None if some step is not possible. */
  function After(c: Setting, moves: seq<(nat, Action)>): Option<Process> {
    if moves == [] then Some(STARTED) else Continue(c, After(c, moves[..|moves| - 1]), moves[|moves| - 1])
  }

  lemma ContinueKeepsInvariant(c: Setting, s: Process, move: (nat, Action), t: Process)
    requires GoodSetting(c) && Invariant(c, s) && Continue(c, Some(s), move) == Some(t)
    ensures Invariant(c, t)
  {
    StepKeepsInvariant(c, s, move.0, move.1, t);
  }

  lemma {:induction false} RunKeepsInvariant(c: Setting, moves: seq<(nat, Action)>, t: Process)
    requires GoodSetting(c) && After(c, moves) == Some(t)
    ensures Invariant(c, t)
    decreases |moves|
  {
    if moves == [] {
      EmptyFits(c);
    } else {
      var s := After(c, moves[..|moves| - 1]).value;
      RunKeepsInvariant(c, moves[..|moves| - 1], s);
      ContinueKeepsInvariant(c, s, moves[|moves| - 1], t);
    }
  }

  // ----- what holds in every run

  /** The sequence numbers reserved for one node strictly increase. */
  lemma ReservationsIncrease(c: Setting, moves: seq<(nat, Action)>, t: Process, i: nat, j: nat)
    requires GoodSetting(c) && After(c, moves) == Some(t)
    requires i < j < |t.reserved| && t.reserved[i].nodeId == t.reserved[j].nodeId
    ensures t.reserved[i].sequence < t.reserved[j].sequence
  {
    RunKeepsInvariant(c, moves, t);
  }

  lemma ReservationsDiffer(last: map<string, nat>, reserved: seq<SensorEvent>, x: nat, y: nat)
    requires Increasing(last, reserved) && x < |reserved| && y < |reserved|
    requires reserved[x].nodeId == reserved[y].nodeId && reserved[x].sequence == reserved[y].sequence
    ensures x == y
  {
  }

  /** Each pair of a node and a sequence number reaches the writer at most once, however the hand-over ends. */
  lemma WriterCalledOnce(c: Setting, moves: seq<(nat, Action)>, t: Process, i: nat, j: nat)
    requires GoodSetting(c) && After(c, moves) == Some(t) && i < j < |t.handed|
    ensures t.handed[i] < |t.reserved| && t.handed[j] < |t.reserved|
    ensures var a, b := t.reserved[t.handed[i]], t.reserved[t.handed[j]];
            a.nodeId != b.nodeId || a.sequence != b.sequence
  {
    RunKeepsInvariant(c, moves, t);
    var x, y := t.handed[i], t.handed[j];
    if t.reserved[x].nodeId == t.reserved[y].nodeId && t.reserved[x].sequence == t.reserved[y].sequence {
      ReservationsDiffer(t.last, t.reserved, x, y);
    }
  }

  lemma IngestionIsValid(c: Setting, e: SensorEvent)
    requires ValidSensorEvent(e)
    ensures ValidEvent(c, IngestionEvent(e)) <==> e.sequence < I64_LIMIT && 1 <= c.limit
  {
    WriterTakesEvent(e);
    IngestionIsDictionary(c.pf, e);
  }

  lemma CallIsTaken(c: Setting, s: Process, h: nat, visit: Visit, ticket: nat, w: nat)
    requires Writers.PhaseOf(s.ledger.store, w).Idle?
    ensures PhaseOf(AfterCall(c, s, h, visit, ticket, w), h) ==
            if ValidEvent(c, IngestionEvent(visit.event)) then Handing(visit, ticket, w) else Idle
  {
  }

  lemma ReservedIsValid(c: Setting, moves: seq<(nat, Action)>, s: Process, h: nat)
    requires GoodSetting(c) && After(c, moves) == Some(s) && PhaseOf(s, h).Reserved?
    ensures ValidSensorEvent(PhaseOf(s, h).visit.event)
  {
    RunKeepsInvariant(c, moves, s);
    assert PhaseFits(s, s.phases[h]);
  }

  /** The writer takes up a reserved event exactly if its number is below 2^63. */
  lemma HandOverIsTaken(c: Setting, moves: seq<(nat, Action)>, s: Process, h: nat, w: nat, t: Process)
    requires GoodSetting(c) && 1 <= c.limit && After(c, moves) == Some(s)
    requires PhaseOf(s, h).Reserved? && Step(c, s, h, CallWriter(w)) == Some(t)
    ensures var p := PhaseOf(s, h);
            PhaseOf(t, h) == if p.visit.event.sequence < I64_LIMIT then Handing(p.visit, p.ticket, w) else Idle
  {
    var p := PhaseOf(s, h);
    ReservedIsValid(c, moves, s, h);
    IngestionIsValid(c, p.visit.event);
    CallIsTaken(c, s, h, p.visit, p.ticket, w);
  }

  /** The reservation that a line comes from, and the line of a reservation. */
  lemma LineOfReservation(c: Setting, s: Process, i: nat, e: SensorEvent)
    requires GoodSetting(c) && Invariant(c, s) && i < |s.ledger.origins| && s.ledger.origins[i].Ours?
    ensures |s.ledger.origins| == |AllLines(s.ledger.store.data)| && s.ledger.origins[i].ticket < |s.reserved|
    ensures var own := s.reserved[s.ledger.origins[i].ticket];
            Carries(c, AllLines(s.ledger.store.data)[i], e) <==> own.nodeId == e.nodeId && own.sequence == e.sequence
  {
    var o, lines := s.ledger.origins[i], AllLines(s.ledger.store.data);
    assert OriginFits(c, s.reserved, lines, o, i);
    IngestionLineCarries(c, lines, o.draft, s.reserved[o.ticket], e);
  }

  /** No two lines written by the collector carry the same node and sequence number, failed hand-overs included. */
  lemma LinesDiffer(c: Setting, moves: seq<(nat, Action)>, t: Process, i: nat, j: nat, e: SensorEvent)
    requires GoodSetting(c) && After(c, moves) == Some(t) && i < |t.ledger.origins| && j < |t.ledger.origins|
    requires t.ledger.origins[i].Ours? && t.ledger.origins[j].Ours?
    ensures |t.ledger.origins| == |AllLines(t.ledger.store.data)|
    ensures var lines := AllLines(t.ledger.store.data);
            Carries(c, lines[i], e) && Carries(c, lines[j], e) ==> i == j
  {
    RunKeepsInvariant(c, moves, t);
    LineOfReservation(c, t, i, e);
    LineOfReservation(c, t, j, e);
    var lines := AllLines(t.ledger.store.data);
    if Carries(c, lines[i], e) && Carries(c, lines[j], e) {
      ReservationsDiffer(t.last, t.reserved, t.ledger.origins[i].ticket, t.ledger.origins[j].ticket);
    }
  }

  /** The line of an acknowledged event. */
  ghost predicate IsLineOf(c: Setting, s: Process, i: nat, e: SensorEvent) {
    && i < |s.ledger.origins| == |AllLines(s.ledger.store.data)|
    && s.ledger.origins[i].Ours? && s.ledger.origins[i].draft.event == IngestionEvent(e)
    && AllLines(s.ledger.store.data)[i] == LineOf(c, s.ledger.origins[i].draft)
    && Carries(c, AllLines(s.ledger.store.data)[i], e)
  }

  /**
   An acknowledged event, which is its certificate's own, from a node enrolled when the connection
   was made, has a line in the store; no other line of the collector, and none with an event of
   another kind, carries its node and number.
   */
  lemma AcknowledgedOnce(c: Setting, moves: seq<(nat, Action)>, t: Process, k: nat) returns (i: nat)
    requires GoodSetting(c) && After(c, moves) == Some(t) && k < |t.acknowledged|
    ensures var visit := t.acknowledged[k].visit;
            && visit.event.nodeId == visit.certificate && visit.certificate in visit.enrolled
            && visit.event.sequence < I64_LIMIT && IsLineOf(c, t, i, visit.event)
    ensures forall j | && 0 <= j < |t.ledger.origins| && j != i
                       && Carries(c, AllLines(t.ledger.store.data)[j], t.acknowledged[k].visit.event) ::
              t.ledger.origins[j].Theirs? && EventKind(t.ledger.origins[j].draft.event) == Some(Ingestion)
  {
    RunKeepsInvariant(c, moves, t);
    var a := t.acknowledged[k];
    var e, lines, origins := a.visit.event, AllLines(t.ledger.store.data), t.ledger.origins;
    assert AckFits(t, a);
    i := t.ledger.place[a.ticket];
    assert OriginFits(c, t.reserved, lines, origins[i], i);
    LineOfReservation(c, t, i, e);
    WriterTakesEvent(e);
    forall j | 0 <= j < |origins| && j != i && Carries(c, lines[j], e)
      ensures origins[j].Theirs? && EventKind(origins[j].draft.event) == Some(Ingestion)
    {
      if origins[j].Ours? {
        LinesDiffer(c, moves, t, i, j, e);
      } else if EventKind(origins[j].draft.event) != Some(Ingestion) {
        assert OriginFits(c, t.reserved, lines, origins[j], j);
        OtherLineCarriesNone(c, lines, origins[j].draft, e);
      }
    }
  }
}
