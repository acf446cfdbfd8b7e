/**
 The store as the handlers of one collector and any other writers fill it: which line comes from
 which reservation, and why no reservation has two lines.
 */
module IngestLedger {
  import opened Prelude
  import opened RecordSchema
  import opened ChainTheorems
  import opened Store
  import opened Logger
  import opened AppendLog
  import opened WriterSteps
  import opened Collector
  import Writers = AppendProtocol
  import AppendSafety

  /** Where a line comes from: a reservation of this collector, or another writer. */
  datatype Origin = Ours(ticket: nat, draft: Draft) | Theirs(draft: Draft)

  /**
   The store with its writers; the writers that are busy with a reservation; the origin of each
   line; and for each reservation that has a line, its place.
   */
  datatype Ledger = Ledger(store: Writers.System, owners: map<nat, nat>, origins: seq<Origin>, place: map<nat, nat>)

  // ----- steps

  /** A writer has taken up the event of a reservation. */
  function Call(l: Ledger, w: nat, ticket: nat, t: Writers.System): Ledger {
    l.(store := t, owners := l.owners[w := ticket])
  }

  function Without(owners: map<nat, nat>, w: nat): map<nat, nat> {
    map v | v in owners && v != w :: owners[v]
  }

  /** A writer of this collector has made a step to state `t` of the store. */
  function OwnStep(c: Setting, l: Ledger, w: nat, a: Writers.Action, t: Writers.System): Ledger
    requires w in l.owners
  {
    var completed := Completed(c, l.store, w, a);
    Ledger(
      t,
      if Writers.PhaseOf(t, w).Idle? then Without(l.owners, w) else l.owners,
      if completed.Some? then l.origins + [Ours(l.owners[w], completed.value)] else l.origins,
      if completed.Some? then l.place[l.owners[w] := |l.origins|] else l.place)
  }

  /** Another writer has made a step to state `t` of the store. */
  function OtherStep(c: Setting, l: Ledger, w: nat, a: Writers.Action, t: Writers.System): Ledger {
    var completed := Completed(c, l.store, w, a);
    l.(store := t, origins := if completed.Some? then l.origins + [Theirs(completed.value)] else l.origins)
  }

  // ----- the invariant

  /** A busy writer of this collector has the event of its own reservation, which has a line once it is finished. */
  predicate OwnerFits(c: Setting, reserved: seq<SensorEvent>, place: map<nat, nat>, p: Writers.Phase, ticket: nat) {
    && ticket < |reserved| && !p.Idle? && EventAt(p) == IngestionEvent(reserved[ticket])
    && (LineWritten(c, p) <==> ticket in place)
  }

  ghost predicate OwnersFit(c: Setting, reserved: seq<SensorEvent>, l: Ledger) {
    && (forall w | w in l.owners :: OwnerFits(c, reserved, l.place, Writers.PhaseOf(l.store, w), l.owners[w]))
    && (forall v, w | v in l.owners && w in l.owners && v != w :: l.owners[v] != l.owners[w])
  }

  /** A line is that of a draft at its own number; one of ours has the event of its reservation. */
  ghost predicate OriginFits(c: Setting, reserved: seq<SensorEvent>, lines: seq<Bytes>, o: Origin, i: nat) {
    && Writers.IsStored(c, lines, o.draft) && o.draft.number == i
    && (o.Ours? ==> o.ticket < |reserved| && o.draft.event == IngestionEvent(reserved[o.ticket]))
  }

  ghost predicate OriginsFit(c: Setting, reserved: seq<SensorEvent>, lines: seq<Bytes>, origins: seq<Origin>) {
    |origins| == |lines| && forall i | 0 <= i < |origins| :: OriginFits(c, reserved, lines, origins[i], i)
  }

  /** Each reservation has at most one line, and its place is known. */
  predicate PlacesFit(origins: seq<Origin>, place: map<nat, nat>) {
    && (forall i | 0 <= i < |origins| :: origins[i].Ours? ==>
          origins[i].ticket in place && place[origins[i].ticket] == i)
    && (forall t | t in place :: place[t] < |origins| && origins[place[t]].Ours? && origins[place[t]].ticket == t)
  }

  ghost predicate Fits(c: Setting, reserved: seq<SensorEvent>, l: Ledger) {
    && Writers.Invariant(c, l.store) && OwnersFit(c, reserved, l)
    && OriginsFit(c, reserved, AllLines(l.store.data), l.origins) && PlacesFit(l.origins, l.place)
  }

  lemma EmptyFits(c: Setting)
    ensures Fits(c, [], Ledger(AppendSafety.EMPTY, map[], [], map[]))
  {
    AppendSafety.EmptyStoreFits(c);
  }

  // ----- what steps keep

  lemma OriginsExtend(c: Setting, reserved: seq<SensorEvent>, lines: seq<Bytes>, origins: seq<Origin>, o: Origin,
                      line: Bytes)
    requires OriginsFit(c, reserved, lines, origins) && OriginFits(c, reserved, lines + [line], o, |lines|)
    ensures OriginsFit(c, reserved, lines + [line], origins + [o])
  {
    var all := origins + [o];
    forall i | 0 <= i < |all|
      ensures OriginFits(c, reserved, lines + [line], all[i], i)
    {
      if i < |origins| {
        assert OriginFits(c, reserved, lines, origins[i], i);
      }
    }
  }

  lemma PlacesExtend(origins: seq<Origin>, place: map<nat, nat>, o: Origin)
    requires PlacesFit(origins, place) && (o.Ours? ==> o.ticket !in place)
    ensures PlacesFit(origins + [o], if o.Ours? then place[o.ticket := |origins|] else place)
  {
  }

  /** The origins after a step of some writer, whose completed draft, if any, comes from `o`. */
  lemma OriginsAfter(c: Setting, reserved: seq<SensorEvent>, l: Ledger, w: nat, a: Writers.Action,
                     t: Writers.System, o: Origin)
    requires GoodSetting(c) && Fits(c, reserved, l) && Writers.Step(c, l.store, w, a) == Some(t)
    requires Completed(c, l.store, w, a).Some? ==>
               && o.draft == Completed(c, l.store, w, a).value
               && (o.Ours? ==>
                     && o.ticket < |reserved| && o.ticket !in l.place
                     && o.draft.event == IngestionEvent(reserved[o.ticket]))
    ensures var completed := Completed(c, l.store, w, a).Some?;
            && OriginsFit(c, reserved, AllLines(t.data), if completed then l.origins + [o] else l.origins)
            && PlacesFit(if completed then l.origins + [o] else l.origins,
                         if completed && o.Ours? then l.place[o.ticket := |l.origins|] else l.place)
  {
    LinesAfter(c, l.store, w, a, t);
    if Completed(c, l.store, w, a).Some? {
      CompletedDraft(c, l.store, w, a, t);
      OriginsExtend(c, reserved, AllLines(l.store.data), l.origins, o, LineOf(c, o.draft));
      PlacesExtend(l.origins, l.place, o);
    } else {
      assert AllLines(t.data) == AllLines(l.store.data);
    }
  }

  lemma StoreKeeps(c: Setting, s: Writers.System, w: nat, a: Writers.Action, t: Writers.System)
    requires GoodSetting(c) && Writers.Invariant(c, s) && Writers.Step(c, s, w, a) == Some(t)
    requires |AllLines(s.data)| < I64_LIMIT
    ensures Writers.Invariant(c, t)
  {
    Writers.StepKeepsInvariant(c, s, w, a);
  }

  /** The other owners are as they were; writer `w` has come to phase `p` of a reservation that is its own. */
  lemma OwnersAfter(c: Setting, reserved: seq<SensorEvent>, l: Ledger, m: Ledger, w: nat)
    requires OwnersFit(c, reserved, l)
    requires forall v | v in m.owners && v != w :: v in l.owners && m.owners[v] == l.owners[v]
    requires forall v | v != w :: Writers.PhaseOf(m.store, v) == Writers.PhaseOf(l.store, v)
    requires forall v | v in l.owners && v != w :: l.owners[v] in m.place <==> l.owners[v] in l.place
    requires w in m.owners ==>
               && OwnerFits(c, reserved, m.place, Writers.PhaseOf(m.store, w), m.owners[w])
               && forall v | v in l.owners && v != w :: l.owners[v] != m.owners[w]
    ensures OwnersFit(c, reserved, m)
  {
    forall v | v in m.owners
      ensures OwnerFits(c, reserved, m.place, Writers.PhaseOf(m.store, v), m.owners[v])
    {
      if v != w {
        assert OwnerFits(c, reserved, l.place, Writers.PhaseOf(l.store, v), l.owners[v]);
      }
    }
  }

  lemma OtherPhasesStay(c: Setting, s: Writers.System, w: nat, a: Writers.Action, t: Writers.System)
    requires Writers.Step(c, s, w, a) == Some(t)
    ensures forall v | v != w :: Writers.PhaseOf(t, v) == Writers.PhaseOf(s, v)
  {
    forall v | v != w
      ensures Writers.PhaseOf(t, v) == Writers.PhaseOf(s, v)
    {
      OthersStay(c, s, w, a, t, v);
    }
  }

  /** A call of the writer for a reservation that no writer has, and that has no line. */
  lemma CallFits(c: Setting, reserved: seq<SensorEvent>, l: Ledger, w: nat, ticket: nat, t: Writers.System)
    requires GoodSetting(c) && Fits(c, reserved, l) && |AllLines(l.store.data)| < I64_LIMIT
    requires ticket < |reserved| && ticket !in l.place && forall v | v in l.owners :: l.owners[v] != ticket
    requires Writers.Step(c, l.store, w, Writers.Request(IngestionEvent(reserved[ticket]))) == Some(t)
    ensures Fits(c, reserved, Call(l, w, ticket, t))
  {
    var a := Writers.Request(IngestionEvent(reserved[ticket]));
    StoreKeeps(c, l.store, w, a, t);
    OtherPhasesStay(c, l.store, w, a, t);
    UnchangedData(c, l.store, w, a, t);
    OwnersAfter(c, reserved, l, Call(l, w, ticket, t), w);
  }

  lemma OwnPhase(c: Setting, reserved: seq<SensorEvent>, l: Ledger, w: nat, a: Writers.Action, t: Writers.System)
    requires Writers.Step(c, l.store, w, a) == Some(t) && w in l.owners
    requires OwnerFits(c, reserved, l.place, Writers.PhaseOf(l.store, w), l.owners[w])
    requires !Writers.PhaseOf(t, w).Idle?
    ensures OwnerFits(c, reserved, OwnStep(c, l, w, a, t).place, Writers.PhaseOf(t, w), l.owners[w])
  {
    EventStays(c, l.store, w, a, t);
    WrittenAfter(c, l.store, w, a, t);
  }

  lemma OwnOrigin(c: Setting, reserved: seq<SensorEvent>, l: Ledger, w: nat, a: Writers.Action, t: Writers.System)
    requires GoodSetting(c) && Fits(c, reserved, l) && Writers.Step(c, l.store, w, a) == Some(t)
    requires w in l.owners && Completed(c, l.store, w, a).Some?
    ensures l.owners[w] < |reserved| && l.owners[w] !in l.place
    ensures Completed(c, l.store, w, a).value.event == IngestionEvent(reserved[l.owners[w]])
  {
    CompletedDraft(c, l.store, w, a, t);
    assert OwnerFits(c, reserved, l.place, Writers.PhaseOf(l.store, w), l.owners[w]);
  }

  lemma OwnLines(c: Setting, reserved: seq<SensorEvent>, l: Ledger, w: nat, a: Writers.Action, t: Writers.System)
    requires GoodSetting(c) && Fits(c, reserved, l) && w in l.owners && Writers.Step(c, l.store, w, a) == Some(t)
    ensures var m := OwnStep(c, l, w, a, t);
            OriginsFit(c, reserved, AllLines(t.data), m.origins) && PlacesFit(m.origins, m.place)
  {
    if Completed(c, l.store, w, a).Some? {
      OwnLine(c, reserved, l, w, a, t, Completed(c, l.store, w, a).value);
    } else {
      LinesAfter(c, l.store, w, a, t);
      assert AllLines(t.data) == AllLines(l.store.data);
    }
  }

  lemma OwnLine(c: Setting, reserved: seq<SensorEvent>, l: Ledger, w: nat, a: Writers.Action, t: Writers.System,
                d: Draft)
    requires GoodSetting(c) && Fits(c, reserved, l) && w in l.owners && Writers.Step(c, l.store, w, a) == Some(t)
    requires Completed(c, l.store, w, a) == Some(d)
    ensures OriginsFit(c, reserved, AllLines(t.data), l.origins + [Ours(l.owners[w], d)])
    ensures PlacesFit(l.origins + [Ours(l.owners[w], d)], l.place[l.owners[w] := |l.origins|])
  {
    OwnOrigin(c, reserved, l, w, a, t);
    OriginsAfter(c, reserved, l, w, a, t, Ours(l.owners[w], d));
  }

  lemma OwnOwners(c: Setting, reserved: seq<SensorEvent>, l: Ledger, w: nat, a: Writers.Action, t: Writers.System)
    requires OwnersFit(c, reserved, l) && w in l.owners && Writers.Step(c, l.store, w, a) == Some(t)
    ensures OwnersFit(c, reserved, OwnStep(c, l, w, a, t))
  {
    OtherPhasesStay(c, l.store, w, a, t);
    assert OwnerFits(c, reserved, l.place, Writers.PhaseOf(l.store, w), l.owners[w]);
    var m := OwnStep(c, l, w, a, t);
    if !Writers.PhaseOf(t, w).Idle? {
      OwnPhase(c, reserved, l, w, a, t);
    }
    assert forall v | v in m.owners && v != w :: v in l.owners && m.owners[v] == l.owners[v];
    OwnersAfter(c, reserved, l, m, w);
  }

  /** A step of a writer of this collector. */
  lemma OwnStepFits(c: Setting, reserved: seq<SensorEvent>, l: Ledger, w: nat, a: Writers.Action, t: Writers.System)
    requires GoodSetting(c) && Fits(c, reserved, l) && |AllLines(l.store.data)| < I64_LIMIT
    requires w in l.owners && Writers.Step(c, l.store, w, a) == Some(t)
    ensures Fits(c, reserved, OwnStep(c, l, w, a, t))
  {
    StoreKeeps(c, l.store, w, a, t);
    OwnLines(c, reserved, l, w, a, t);
    OwnOwners(c, reserved, l, w, a, t);
  }

  lemma OtherLines(c: Setting, reserved: seq<SensorEvent>, l: Ledger, w: nat, a: Writers.Action, t: Writers.System)
    requires GoodSetting(c) && Fits(c, reserved, l) && Writers.Step(c, l.store, w, a) == Some(t)
    ensures var m := OtherStep(c, l, w, a, t);
            OriginsFit(c, reserved, AllLines(t.data), m.origins) && PlacesFit(m.origins, m.place)
  {
    var completed := Completed(c, l.store, w, a);
    if completed.Some? {
      OriginsAfter(c, reserved, l, w, a, t, Theirs(completed.value));
    } else {
      LinesAfter(c, l.store, w, a, t);
    }
  }

  /** A step of any other writer, with whatever event. */
  lemma OtherStepFits(c: Setting, reserved: seq<SensorEvent>, l: Ledger, w: nat, a: Writers.Action, t: Writers.System)
    requires GoodSetting(c) && Fits(c, reserved, l) && |AllLines(l.store.data)| < I64_LIMIT
    requires w !in l.owners && Writers.Step(c, l.store, w, a) == Some(t)
    ensures Fits(c, reserved, OtherStep(c, l, w, a, t))
  {
    StoreKeeps(c, l.store, w, a, t);
    OtherLines(c, reserved, l, w, a, t);
    OtherPhasesStay(c, l.store, w, a, t);
    OwnersAfter(c, reserved, l, OtherStep(c, l, w, a, t), w);
  }

  /** Another reservation is made. */
  lemma ReservationFits(c: Setting, reserved: seq<SensorEvent>, l: Ledger, e: SensorEvent)
    requires Fits(c, reserved, l)
    ensures Fits(c, reserved + [e], l)
  {
    var more, lines := reserved + [e], AllLines(l.store.data);
    forall w | w in l.owners
      ensures OwnerFits(c, more, l.place, Writers.PhaseOf(l.store, w), l.owners[w])
    {
      assert OwnerFits(c, reserved, l.place, Writers.PhaseOf(l.store, w), l.owners[w]);
    }
    forall i | 0 <= i < |l.origins|
      ensures OriginFits(c, more, lines, l.origins[i], i)
    {
      assert OriginFits(c, reserved, lines, l.origins[i], i);
    }
  }

  // ----- what the lines say

  /** The record of a line is an ingestion with the node and the number of an event. */
  predicate Carries(c: Setting, line: Bytes, e: SensorEvent) {
    && LenientRecord(c.pf, line).Some?
    && var event := EventOf(LenientRecord(c.pf, line).value);
       && EventKind(event) == Some(Ingestion) && StringField(event, "node_id") == Some(e.nodeId)
       && IntegerField(event, "collector_sequence_number") == Some(e.sequence)
  }

  /** The line of a draft holds the content of its event. */
  lemma LineContent(c: Setting, lines: seq<Bytes>, d: Draft)
    requires GoodSetting(c) && GoodLines(c, lines) && Writers.IsStored(c, lines, d)
    ensures LenientRecord(c.pf, lines[d.number]).Some?
    ensures SameContent(d.event, EventOf(LenientRecord(c.pf, lines[d.number]).value))
  {
    AppendSafety.StoredRecord(c, lines, d);
    StoredContent(c.pf, d.event, d.number, d.prev, d.signature);
  }

  /** The line of an ingestion event carries its own node and number, and no others. */
  lemma IngestionLineCarries(c: Setting, lines: seq<Bytes>, d: Draft, own: SensorEvent, e: SensorEvent)
    requires GoodSetting(c) && GoodLines(c, lines) && Writers.IsStored(c, lines, d) && d.event == IngestionEvent(own)
    ensures Carries(c, lines[d.number], e) <==> own.nodeId == e.nodeId && own.sequence == e.sequence
  {
    LineContent(c, lines, d);
    var stored := EventOf(LenientRecord(c.pf, lines[d.number]).value);
    KindOfContent(d.event, stored);
    IngestionKind(own);
    IngestionField(own, 3);
    IngestionField(own, 6);
    FieldsOfContent(d.event, stored, "node_id");
    FieldsOfContent(d.event, stored, "collector_sequence_number");
  }

  /** The line of any other event carries none. */
  lemma OtherLineCarriesNone(c: Setting, lines: seq<Bytes>, d: Draft, e: SensorEvent)
    requires GoodSetting(c) && GoodLines(c, lines) && Writers.IsStored(c, lines, d) &&
             EventKind(d.event) != Some(Ingestion)
    ensures !Carries(c, lines[d.number], e)
  {
    LineContent(c, lines, d);
    KindOfContent(d.event, EventOf(LenientRecord(c.pf, lines[d.number]).value));
  }
}
