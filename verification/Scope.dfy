/** One request's observation scope: sticky failure, its journal, and the facts of flow creation. */
module Scope {

  import opened Base

  /** The identity every fact of one flow creation repeats. */
  datatype Operation = Operation(id: string, attempt: nat, client: string)

  datatype Creation = Creation(operation: Operation, id: string)

  datatype Mode = Selected | CacheHit

  datatype Fact =
    | Plain(kind: string, facts: string)
    | Resolve(operationId: Option<string>, mode: Mode, client: string)
    | OperationBegin(operation: Operation)
    | OperationEnd(operation: Operation, outcome: Outcome)
    | Exists(operation: Operation, exists_: bool)
    | Clear(operationId: Option<string>, previous: Option<string>)
    | CreateBegin(base: Creation, artifact: string)
    | CreateReturn(base: Creation, flows: seq<Option<string>>)
    | Metadata(base: Creation, flow: string, state: string)

  datatype Event = Event(sequence: nat, fact: Fact)

  /** A creation slot: the association is made by `begin` and completed by `return`. */
  datatype Holder = Holder(owner: Option<Operation>, base: Option<Creation>, returned: bool, first: Option<string>)

  /** Event `k` is the metadata of a creation whose begin and return were recorded before it, in that order. */
  ghost predicate Traced(events: seq<Event>, k: nat)
    requires k < |events| && events[k].fact.Metadata?
  {
    var m := events[k].fact;
    exists i, j | 0 <= i < j < k :: IsBegin(events[i], m.base) && IsReturn(events[j], m.base, Some(m.flow))
  }

  predicate IsBegin(e: Event, base: Creation) {
    e.fact.CreateBegin? && e.fact.base == base
  }

  predicate IsReturn(e: Event, base: Creation, first: Option<string>) {
    && e.fact.CreateReturn? && e.fact.base == base
    && first == (if e.fact.flows == [] then None else e.fact.flows[0])
  }

  ghost predicate BeginRecorded(events: seq<Event>, base: Creation) {
    exists i | 0 <= i < |events| :: IsBegin(events[i], base)
  }

  ghost predicate ReturnRecorded(events: seq<Event>, base: Creation, first: Option<string>) {
    exists i, j | 0 <= i < j < |events| :: IsBegin(events[i], base) && IsReturn(events[j], base, first)
  }

  /** What a slot says is recorded; a slot whose begin fact was refused belongs to a scope that will record no more. */
  ghost predicate HolderFits(events: seq<Event>, dead: bool, h: Holder) {
    && (h.base.Some? ==> dead || BeginRecorded(events, h.base.value))
    && (h.returned ==> h.base.Some? && ReturnRecorded(events, h.base.value, h.first))
  }

  /** The slot `h`, old or new, now belongs to the creation, and no other slot changed. */
  ghost predicate Takes(before: seq<Holder>, h: nat, base: Creation, after: seq<Holder>) {
    if h < |before| then after == before[h := Holder(before[h].owner, Some(base), false, None)]
    else h == |before| && after == before + [Holder(None, Some(base), false, None)]
  }

  ghost predicate Numbered(events: seq<Event>) {
    forall i | 0 <= i < |events| :: events[i].sequence == i + 1
  }

  ghost predicate AllTraced(events: seq<Event>) {
    forall k | 0 <= k < |events| && events[k].fact.Metadata? :: Traced(events, k)
  }

  lemma HolderStays(events: seq<Event>, e: Event, dead: bool, h: Holder)
    requires HolderFits(events, dead, h)
    ensures HolderFits(events + [e], dead, h)
  {
    hide BeginRecorded, ReturnRecorded;
    if h.base.Some? { RecordsStay(events, e, h.base.value, h.first); }
  }

  lemma HoldersTake(events: seq<Event>, dead: bool, holders: seq<Holder>, h: nat, taken: Holder)
    requires h <= |holders| && HolderFits(events, dead, taken)
    requires forall k | 0 <= k < |holders| :: HolderFits(events, dead, holders[k])
    ensures var all := if h < |holders| then holders[h := taken] else holders + [taken];
            forall k | 0 <= k < |all| :: HolderFits(events, dead, all[k])
  {
    hide HolderFits;
  }

  lemma RecordsStay(events: seq<Event>, e: Event, base: Creation, first: Option<string>)
    ensures BeginRecorded(events, base) ==> BeginRecorded(events + [e], base)
    ensures ReturnRecorded(events, base, first) ==> ReturnRecorded(events + [e], base, first)
    ensures IsBegin(e, base) ==> BeginRecorded(events + [e], base)
    ensures BeginRecorded(events, base) && IsReturn(e, base, first) ==> ReturnRecorded(events + [e], base, first)
  {
    var all := events + [e];
    assert all[|events|] == e;
    if BeginRecorded(events, base) {
      var i :| 0 <= i < |events| && IsBegin(events[i], base);
      assert all[i] == events[i];
    }
    if ReturnRecorded(events, base, first) {
      var i, j :| 0 <= i < j < |events| && IsBegin(events[i], base) && IsReturn(events[j], base, first);
      assert all[i] == events[i] && all[j] == events[j];
    }
  }

  /** Whether a metadata fact is traced depends on what stands before it only. */
  lemma TraceIsLocal(events: seq<Event>, e: Event, k: nat)
    requires k < |events| && events[k].fact.Metadata?
    ensures Traced(events + [e], k) <==> Traced(events, k)
  {
    var all, m := events + [e], events[k].fact;
    assert forall i | 0 <= i <= k :: all[i] == events[i];
    if Traced(events, k) {
      var i, j :| 0 <= i < j < k && IsBegin(events[i], m.base) && IsReturn(events[j], m.base, Some(m.flow));
      assert IsBegin(all[i], m.base) && IsReturn(all[j], m.base, Some(m.flow));
    }
  }

  /**
   * Appending a fact keeps every metadata fact traced if and only if the fact is no metadata, or its
   * begin and return with the same operation, attempt, client, creation and first flow stand before it.
   */
  lemma TracesStay(events: seq<Event>, e: Event)
    requires AllTraced(events)
    ensures AllTraced(events + [e]) <==> (e.fact.Metadata? ==> ReturnRecorded(events, e.fact.base, Some(e.fact.flow)))
  {
    var all := events + [e];
    assert all[|events|] == e;
    forall k | 0 <= k < |events| && all[k].fact.Metadata? ensures Traced(all, k) { TraceIsLocal(events, e, k); }
    if e.fact.Metadata? {
      var m := e.fact;
      assert AllTraced(all) <==> Traced(all, |events|);
      if ReturnRecorded(events, m.base, Some(m.flow)) {
        var i, j :| 0 <= i < j < |events| && IsBegin(events[i], m.base) && IsReturn(events[j], m.base, Some(m.flow));
        assert IsBegin(all[i], m.base) && IsReturn(all[j], m.base, Some(m.flow));
      }
      if Traced(all, |events|) {
        var i, j :| 0 <= i < j < |events| && IsBegin(all[i], m.base) && IsReturn(all[j], m.base, Some(m.flow));
        assert IsBegin(events[i], m.base) && IsReturn(events[j], m.base, Some(m.flow));
      }
    }
  }

  /** An untraced metadata fact is never mended by what follows it. */
  lemma UntracedStays(events: seq<Event>, e: Event)
    requires !AllTraced(events)
    ensures !AllTraced(events + [e])
  {
    var k :| 0 <= k < |events| && events[k].fact.Metadata? && !Traced(events, k);
    TraceIsLocal(events, e, k);
    assert (events + [e])[k] == events[k];
  }

  /** The general `emit` accepts any kind: a metadata fact written through it has no creation behind it. */
  lemma ForgedMetadata(base: Creation, flow: string, state: string)
    ensures !AllTraced([Event(1, Metadata(base, flow, state))])
  {
    var e := Event(1, Metadata(base, flow, state));
    assert AllTraced([]);
    assert [] + [e] == [e];
    TracesStay([], e);
  }

  // ----- Histories -----

  /** What a scope shows at one moment, the journal's records included. */
  datatype Snapshot = Snapshot(events: seq<Event>, failed: bool, sealed: bool, ready: bool, journal: seq<Event>)

  /** Numbered 1..n, and the journal is memory or, in a failed scope, memory and one record more. */
  ghost predicate WellKept(s: Snapshot) {
    && Numbered(s.events)
    && if s.ready then
         s.journal == s.events || (s.failed && |s.journal| == |s.events| + 1 && s.journal[..|s.events|] == s.events)
       else s.journal == []
  }

  /** From one moment to a later one: events only grow, failure is sticky and stops them, a seal freezes all. */
  ghost predicate Advances(a: Snapshot, b: Snapshot) {
    && a.events <= b.events
    && (a.failed ==> b.failed && b.events == a.events && b.journal == a.journal)
    && (a.sealed ==> b == a)
  }

  /** A history in which every step advances advances between any two of its moments. */
  lemma {:induction false} HistoryAdvances(history: seq<Snapshot>, i: nat, j: nat)
    requires forall k | 0 <= k < |history| - 1 :: Advances(history[k], history[k + 1])
    requires i <= j < |history|
    ensures Advances(history[i], history[j])
    decreases j - i
  {
    if i < j {
      HistoryAdvances(history, i, j - 1);
      assert Advances(history[j - 1], history[(j - 1) + 1]);
    }
  }

  /** One call on the scope, with the answers of the world it meets. */
  datatype Call =
    | Emits(fact: Fact)
    | Fails
    | Attaches
    | Finishes(outcome: Outcome, sealConfirmed: bool, closed: bool)
    | Opens(operation: Option<Operation>)
    | Begins(operation: Option<Operation>, slot: Option<nat>, client: string, artifact: string, id: string)
    | Returns(operation: Option<Operation>, holder: nat, rows: Option<seq<Option<string>>>)
    | Describes(operation: Option<Operation>, holder: nat, client: string, flow: string, state: string)

  /** The call forges no metadata: metadata facts come only from `flow_metadata_return`. */
  predicate Honest(c: Call) {
    c.Emits? ==> !c.fact.Metadata?
  }

  /** What the scope is built with: budgets, the JSON checks, and the journal's answers in order. */
  datatype Setup = Setup(maxEvents: nat, maxBytes: nat, lawful: Fact -> bool, width: Event -> nat, answers: nat -> Publication)

  class ObservationScope {
    const setup: Setup
    var events: seq<Event>
    var outcome: Option<Outcome>
    var sealed: bool
    var failed: bool
    var required: bool
    var ready: bool
    /** Call-local creation slots, by the order they were opened. */
    var holders: seq<Holder>
    /** History: the event records the journal holds. */
    ghost var journal: seq<Event>

    /** No further event can be recorded. */
    predicate Dead()
      reads this
    {
      failed || sealed
    }

    ghost function View(): Snapshot
      reads this
    {
      Snapshot(events, failed, sealed, ready, journal)
    }

    ghost predicate Valid()
      reads this
    {
      && WellKept(View()) && |events| <= setup.maxEvents
      && (ready ==> required) && (required && !ready ==> events == [])
      && forall h | 0 <= h < |holders| :: HolderFits(events, Dead(), holders[h])
    }

    /** The fact passes the scope's own tests: open, unfailed, lawful and within both budgets. */
    predicate Asked(fact: Fact)
      reads this
    {
      && !sealed && !failed && (required ==> ready) && setup.lawful(fact) && |events| < setup.maxEvents
      && setup.width(Event(|events| + 1, fact)) <= setup.maxBytes
    }

    /** The fact would be recorded now: open, unfailed, lawful, within both budgets, and confirmed by the journal. */
    predicate Recordable(fact: Fact)
      reads this
    {
      Asked(fact) && (ready ==> setup.answers(|events|) == Confirmed)
    }

    constructor (setup: Setup, required: bool)
      ensures Valid() && this.setup == setup && events == [] && !failed && !sealed && holders == []
      ensures this.required == required && !ready
    {
      this.setup, this.required := setup, required;
      events, outcome, sealed, failed, ready, holders, journal := [], None, false, false, false, [], [];
    }

    /** The claimed journal's acceptance is confirmed. */
    method Attach()
      requires Valid() && required && !ready
      modifies this`ready
      ensures Valid() && ready && events == [] && journal == []
    {
      ready := true;
    }

    /**
     * `emit`: records the fact under the next number, or fails the scope for good. The journal is
     * asked first, so it can be ahead by the one record whose append raised.
     */
    method Emit(fact: Fact) returns (ok: bool)
      requires Valid()
      modifies this`events, this`failed, this`journal
      ensures Valid() && Advances(old(View()), View())
      ensures ok <==> old(Recordable(fact))
      ensures events == if ok then old(events) + [Event(|old(events)| + 1, fact)] else old(events)
      ensures ok ==> !old(failed) && !failed && !sealed
      ensures (old(failed) ==> failed) && (!ok && !sealed ==> failed)
      ensures journal != old(journal) <==> ready && old(Asked(fact)) && setup.answers(|old(events)|) != Lost
      ensures AllTraced(events) <==> && AllTraced(old(events))
                                     && (ok && fact.Metadata? ==> ReturnRecorded(old(events), fact.base, Some(fact.flow)))
    {
      hide AllTraced, BeginRecorded, ReturnRecorded;
      if sealed { return false; }
      var event := Event(|events| + 1, fact);
      if (required && !ready) || !setup.lawful(fact) || |events| >= setup.maxEvents
         || setup.width(event) > setup.maxBytes || failed {
        failed := true;
        return false;
      }
      if ready {
        var answer := setup.answers(|events|);
        if answer != Lost { journal := journal + [event]; }
        if answer != Confirmed {
          failed := true;
          return false;
        }
      }
      if AllTraced(events) { TracesStay(events, event); } else { UntracedStays(events, event); }
      forall h | 0 <= h < |holders| ensures HolderFits(events + [event], Dead(), holders[h]) {
        HolderStays(events, event, Dead(), holders[h]);
      }
      events := events + [event];
      ok := true;
    }

    /** `_fail`. */
    method Fail()
      requires Valid()
      modifies this`failed
      ensures Valid() && Advances(old(View()), View()) && failed == (old(failed) || !sealed)
    {
      if !sealed { failed := true; }
    }

    /** `_finish`: seals unless the journal's acceptance, seal or close is unconfirmed. */
    method Finish(o: Outcome, sealConfirmed: bool, closed: bool) returns (done: bool)
      requires Valid() && !sealed
      modifies this`outcome, this`failed, this`sealed
      ensures Valid() && Advances(old(View()), View())
      ensures outcome == Some(if o == Returned && old(failed) then Raised else o)
      ensures done <==> (required ==> ready && sealConfirmed && closed)
      ensures sealed == done && failed == (old(failed) || !done)
    {
      outcome := Some(if o == Returned && failed then Raised else o);
      if required && !(ready && sealConfirmed && closed) {
        failed := true;
        return false;
      }
      sealed := true;
      done := true;
    }

    // ----- Flow creation -----

    /** `creation_context`: the backend's own slot, owned by the operation it opens in. */
    method OpenSlot(operation: Option<Operation>) returns (h: nat)
      requires Valid()
      modifies this`holders
      ensures Valid() && h == |old(holders)| && holders == old(holders) + [Holder(operation, None, false, None)]
    {
      h := |holders|;
      holders := holders + [Holder(operation, None, false, None)];
    }

    /** The current slot is unused and the operation's own. */
    predicate Usable(slot: Option<nat>, operation: Option<Operation>)
      reads this
    {
      slot.Some? && slot.value < |holders| && holders[slot.value].base == None && holders[slot.value].owner == operation
    }

    /** The association is made before its begin fact is known to be recorded. */
    method TakeSlot(h: nat, base: Creation)
      requires Valid() && h <= |holders| && (Dead() || BeginRecorded(events, base))
      modifies this`holders
      ensures Valid() && Takes(old(holders), h, base, holders)
    {
      hide BeginRecorded, ReturnRecorded, Numbered;
      var taken := Holder(if h < |holders| then holders[h].owner else None, Some(base), false, None);
      HoldersTake(events, Dead(), holders, h, taken);
      holders := if h < |holders| then holders[h := taken] else holders + [taken];
    }

    /**
     * `flow_creation_begin` inside `operation`, with `slot` the current creation slot: takes the slot
     * only when it is unused and its own, and otherwise a new one nobody else holds.
     */
    method CreationBegin(operation: Option<Operation>, slot: Option<nat>, client: string, artifact: string, id: string)
      returns (ok: bool, h: nat)
      requires Valid()
      modifies this`events, this`failed, this`journal, this`holders
      ensures Valid() && Advances(old(View()), View())
      ensures ok <==> && operation.Some? && operation.value.client == client
                      && old(Recordable(CreateBegin(Creation(operation.value, id), artifact)))
      ensures ok ==> && !old(failed) && !sealed && operation.Some? && operation.value.client == client && h < |holders|
                     && events == old(events) + [Event(|old(events)| + 1, CreateBegin(Creation(operation.value, id), artifact))]
                     && holders[h].base == Some(Creation(operation.value, id)) && !holders[h].returned
                     && h == (if old(Usable(slot, operation)) then slot.value else |old(holders)|)
      ensures if operation.Some? && operation.value.client == client then Takes(old(holders), h, Creation(operation.value, id), holders)
              else holders == old(holders)
      ensures forall k | 0 <= k < |old(holders)| ::
                k < |holders| && (old(holders)[k].base.Some? ==> holders[k] == old(holders)[k])
      ensures !ok ==> events == old(events) && (!sealed ==> failed)
      ensures AllTraced(events) <==> AllTraced(old(events))
    {
      hide AllTraced, BeginRecorded, ReturnRecorded, Numbered;
      h := |holders|;
      if operation == None || operation.value.client != client {
        Fail();
        return false, h;
      }
      var base := Creation(operation.value, id);
      if Usable(slot, operation) { h := slot.value; }
      ok := Emit(CreateBegin(base, artifact));
      if ok { RecordsStay(old(events), events[|events| - 1], base, None); }
      TakeSlot(h, base);
    }

    /** The slot belongs to the operation that is running. */
    predicate Associated(operation: Option<Operation>, h: nat, client: string)
      reads this
    {
      && operation.Some? && operation.value.client == client
      && h < |holders| && holders[h].base.Some? && holders[h].base.value.operation == operation.value
    }

    /** `flow_creation_return`: `None` rows are rows the projection refuses. */
    method CreationReturn(operation: Option<Operation>, h: nat, rows: Option<seq<Option<string>>>) returns (ok: bool)
      requires Valid() && h < |holders| && holders[h].base.Some?
      modifies this`events, this`failed, this`journal, this`holders
      ensures Valid() && Advances(old(View()), View()) && |holders| == |old(holders)|
      ensures ok <==> && operation == Some(old(holders)[h].base.value.operation) && rows.Some?
                      && old(Recordable(CreateReturn(holders[h].base.value, rows.value)))
      ensures ok ==> && !old(failed) && !sealed && rows.Some?
                     && operation == Some(old(holders)[h].base.value.operation)
                     && events == old(events) + [Event(|old(events)| + 1, CreateReturn(old(holders)[h].base.value, rows.value))]
                     && holders == old(holders)[h := old(holders)[h].(returned := true,
                                                     first := if rows.value == [] then None else rows.value[0])]
      ensures !ok ==> events == old(events) && holders == old(holders) && (!sealed ==> failed)
      ensures AllTraced(events) <==> AllTraced(old(events))
    {
      hide AllTraced, BeginRecorded, ReturnRecorded, Numbered;
      if !Associated(operation, h, holders[h].base.value.operation.client) || rows == None {
        Fail();
        return false;
      }
      var base, first := holders[h].base.value, if rows.value == [] then None else rows.value[0];
      ghost var before := events;
      assert HolderFits(events, Dead(), holders[h]);
      ok := Emit(CreateReturn(base, rows.value));
      if ok {
        RecordsStay(before, events[|events| - 1], base, first);
        holders := holders[h := holders[h].(returned := true, first := first)];
      }
    }

    /** `flow_metadata_return`: only for the first flow of a creation that returned in this operation. */
    method MetadataReturn(operation: Option<Operation>, h: nat, client: string, flow: string, state: string)
      returns (ok: bool)
      requires Valid()
      modifies this`events, this`failed, this`journal
      ensures Valid() && Advances(old(View()), View())
      ensures ok <==> && old(Associated(operation, h, client)) && old(holders)[h].returned
                      && old(holders)[h].first == Some(flow) && state != ""
                      && old(Recordable(Metadata(holders[h].base.value, flow, state)))
      ensures ok ==> && !old(failed) && !sealed
                     && Associated(operation, h, client) && holders[h].returned && holders[h].first == Some(flow)
                     && events == old(events) + [Event(|old(events)| + 1, Metadata(holders[h].base.value, flow, state))]
                     && ReturnRecorded(old(events), holders[h].base.value, Some(flow))
      ensures !ok ==> events == old(events) && (!sealed ==> failed)
      ensures AllTraced(events) <==> AllTraced(old(events))
    {
      if !Associated(operation, h, client) || !holders[h].returned || holders[h].first != Some(flow) || state == "" {
        Fail();
        return false;
      }
      assert HolderFits(events, Dead(), holders[h]);
      ok := Emit(Metadata(holders[h].base.value, flow, state));
    }

    /** One call, whichever it is; a call the source cannot make at this point is not made. */
    method Perform(c: Call)
      requires Valid()
      modifies this
      ensures Valid() && Advances(old(View()), View())
      ensures AllTraced(old(events)) && Honest(c) ==> AllTraced(events)
      ensures c.Emits? ==> events == old(events) + if old(Recordable(c.fact)) then [Event(|old(events)| + 1, c.fact)] else []
      ensures c.Fails? && !sealed ==> failed
      ensures c.Finishes? && !old(sealed) ==> sealed == (required ==> ready && c.sealConfirmed && c.closed)
    {
      match c
      case Emits(fact) => var _ := Emit(fact);
      case Fails => Fail();
      case Attaches => if required && !ready && !sealed { Attach(); }
      case Finishes(o, sealConfirmed, closed) =>
        if !sealed { var _ := Finish(o, sealConfirmed, closed); }
      case Opens(operation) => var _ := OpenSlot(operation);
      case Begins(operation, slot, client, artifact, id) =>
        var _, _ := CreationBegin(operation, slot, client, artifact, id);
      case Returns(operation, h, rows) =>
        if h < |holders| && holders[h].base.Some? { var _ := CreationReturn(operation, h, rows); }
      case Describes(operation, h, client, flow, state) =>
        var _ := MetadataReturn(operation, h, client, flow, state);
    }

    /**
     * Every history: after any list of calls, at every moment the events are numbered and the journal
     * leads by at most one, between any two moments failure is sticky and a seal freezes the scope, and
     * without forged metadata every metadata fact follows its own begin and return.
     */
    method Live(calls: seq<Call>) returns (ghost history: seq<Snapshot>)
      requires Valid()
      modifies this
      ensures Valid() && |history| == |calls| + 1 && history[0] == old(View()) && history[|calls|] == View()
      ensures forall k | 0 <= k < |history| :: WellKept(history[k])
      ensures forall i, j | 0 <= i <= j < |history| :: Advances(history[i], history[j])
      ensures AllTraced(old(events)) && (forall k | 0 <= k < |calls| :: Honest(calls[k])) ==> AllTraced(events)
    {
      hide WellKept, Advances, AllTraced;
      history := [View()];
      Kept();
      for n := 0 to |calls|
        invariant Valid() && |history| == n + 1 && history[0] == old(View()) && history[n] == View()
        invariant forall k | 0 <= k < |history| :: WellKept(history[k])
        invariant forall k | 0 <= k < |history| - 1 :: Advances(history[k], history[k + 1])
        invariant AllTraced(old(events)) && (forall k | 0 <= k < n :: Honest(calls[k])) ==> AllTraced(events)
      {
        Perform(calls[n]);
        Kept();
        history := history + [View()];
      }
      forall i, j | 0 <= i <= j < |history| ensures Advances(history[i], history[j]) {
        HistoryAdvances(history, i, j);
      }
    }

    lemma Kept()
      requires Valid()
      ensures WellKept(View())
    {
    }
  }
}
