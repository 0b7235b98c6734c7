/**
 * The escalator's operations run one at a time over its table, history and event log (escalator.go, store.go,
 * monitor.go). Failures of the database and the broker are inputs of each call.
 */
module Escalator {
  import opened Common
  import opened Escalation

  datatype StoredState = StoredState(tenantId: string, policyId: string, row: Row)

  datatype Event = TriggeredEvent(incidentId: string, tier: int) | ExhaustedEvent(incidentId: string)

  datatype Entry = TierTriggered(incidentId: string, tier: int) | ChainExhausted(incidentId: string, tier: int)
                 | Stopped(incidentId: string, reason: Status, tier: int)

  datatype EscalationError = NotFound | NoTiers | NotActive(status: Status) | StoreFailed | Contended

  /** Which of the calls to the outside succeed. */
  datatype Faults = Faults(lookup: bool, commit: bool, history: bool, publish: bool)

  /** The record a worker holds; AdvanceOrExhaust and Stop write their plans into it. */
  class EscalationState {
    const incidentId: string
    const policyId: string
    var row: Row

    constructor (incidentId: string, policyId: string, row: Row)
      ensures this.incidentId == incidentId && this.policyId == policyId && this.row == row
    {
      this.incidentId := incidentId;
      this.policyId := policyId;
      this.row := row;
    }
  }

  type States = map<string, StoredState>

  function PolicyOf(policies: map<string, Policy>, policyId: string): Policy {
    if policyId in policies then policies[policyId] else map[]
  }

  /** The event a successful advance publishes, if the broker takes it. */
  function AdvanceEvents(policy: Policy, id: string, snap: Row, faults: Faults): seq<Event> {
    if !faults.publish then []
    else if snap.tier + 1 in policy then [TriggeredEvent(id, snap.tier + 1)]
    else [ExhaustedEvent(id)]
  }

  /** The history a successful advance leaves: exhaustion's entry shares the transaction, a trigger's may be lost. */
  function AdvanceEntries(policy: Policy, id: string, snap: Row, faults: Faults): seq<Entry> {
    if snap.tier + 1 !in policy then [ChainExhausted(id, snap.tier)]
    else if faults.history then [TierTriggered(id, snap.tier + 1)]
    else []
  }

  predicate IsExpired(states: States, now: int, id: string) {
    id in states && states[id].row.status == Active && states[id].row.escalateAt <= now
  }

  /**
   * Rows are listed at most once each, only expired ones that no other statement holds locked, earliest deadlines first,
   * as many as the limit allows.
   */
  ghost predicate EarliestExpired(states: States, now: int, limit: nat, locked: set<string>, batch: seq<string>) {
    && (forall i, j | 0 <= i < j < |batch| :: batch[i] != batch[j])
    && (forall id | id in batch :: IsExpired(states, now, id) && id !in locked)
    && (forall id, other | id in batch && IsExpired(states, now, other) && other !in batch && other !in locked ::
          states[id].row.escalateAt <= states[other].row.escalateAt)
    && |batch| <= limit
    && (|batch| < limit ==> forall id | IsExpired(states, now, id) && id !in locked :: id in batch)
  }

  lemma {:induction false} EarliestExists(states: States, ids: set<string>) returns (first: string)
    requires ids != {} && ids <= states.Keys
    ensures first in ids && forall id | id in ids :: states[first].row.escalateAt <= states[id].row.escalateAt
    decreases ids
  {
    var x :| x in ids;
    if ids == {x} {
      first := x;
    } else {
      var y := EarliestExists(states, ids - {x});
      first := if states[x].row.escalateAt <= states[y].row.escalateAt then x else y;
    }
  }

  lemma {:induction false} LowestExists(tiers: set<int>) returns (low: int)
    requires tiers != {}
    ensures low in tiers && forall t | t in tiers :: low <= t
    decreases |tiers|
  {
    var x := PickElement(tiers);
    var rest := tiers - {x};
    low := x;
    if rest != {} {
      var y := LowestExists(rest);
      low := if x <= y then x else y;
    }
    assert forall t | t in tiers :: t in rest || t == x;
  }

  /** A guarded update on the row as read in `snap` goes through: no store call fails and the row is still as expected. */
  predicate AdvanceWins(states: States, id: string, snap: Row, faults: Faults) {
    Succeeds(faults) && id in states && Claimable(states[id].row, snap.tier)
  }

  /** The table after an advance from a possibly outdated row. */
  function AfterAdvance(policy: Policy, states: States, id: string, snap: Row, now: int, faults: Faults): States {
    if AdvanceWins(states, id, snap, faults) then states[id := states[id].(row := NextRow(policy, snap, now))] else states
  }

  class EscalationService {
    const policies: map<string, Policy>
    const owners: map<string, string>   // the tenant of each policy
    var states: States
    var history: seq<Entry>
    var events: seq<Event>

    constructor (policies: map<string, Policy>, owners: map<string, string>)
      ensures this.policies == policies && this.owners == owners && states == map[] && history == [] && events == []
    {
      this.policies := policies;
      this.owners := owners;
      states := map[];
      history := [];
      events := [];
    }

    /** GetTierByNumber: the tier's timeout. */
    method GetTier(policyId: string, tier: int) returns (timeout: Option<nat>)
      ensures timeout == if tier in PolicyOf(policies, policyId) then Some(PolicyOf(policies, policyId)[tier]) else None
      ensures timeout.Some? <==> policyId in policies && tier in policies[policyId]
    {
      if policyId in policies && tier in policies[policyId] {
        timeout := Some(policies[policyId][tier]);
      } else {
        timeout := None;
      }
    }

    /** AdvanceEscalationState: the conditional update, with its history entry in the same transaction. */
    method ConditionalUpdate(id: string, next: Row, expectedTier: int, entry: Option<Entry>, commitOk: bool)
      returns (r: Result<(), EscalationError>)
      modifies this`states, this`history
      ensures r.Ok? <==> commitOk && id in old(states) && Claimable(old(states)[id].row, expectedTier)
      ensures r == Err(StoreFailed) <==> !commitOk
      ensures r == Err(Contended) <==> commitOk && !(id in old(states) && Claimable(old(states)[id].row, expectedTier))
      ensures r.Ok? ==> states == old(states)[id := old(states)[id].(row := next)]
                        && history == old(history) + if entry.Some? then [entry.value] else []
      ensures r.Err? ==> states == old(states) && history == old(history)
    {
      if !commitOk {
        return Err(StoreFailed);
      }
      if !(id in states && Claimable(states[id].row, expectedTier)) {
        return Err(Contended);
      }
      states := states[id := states[id].(row := next)];
      if entry.Some? {
        history := history + [entry.value];
      }
      return Ok(());
    }

    /** UpdateEscalationState: the unconditional write. */
    method BlindUpdate(id: string, next: Row, commitOk: bool) returns (r: Result<(), EscalationError>)
      modifies this`states
      ensures r.Ok? <==> commitOk && id in old(states)
      ensures r.Err? ==> r.error == if commitOk then NotFound else StoreFailed
      ensures states == if r.Ok? then old(states)[id := old(states)[id].(row := next)] else old(states)
    {
      if !commitOk {
        return Err(StoreFailed);
      }
      if id !in states {
        return Err(NotFound);
      }
      states := states[id := states[id].(row := next)];
      return Ok(());
    }

    /** triggerTier: history, then the event; neither failure stops the escalation. */
    method TriggerTier(incidentId: string, tier: int, faults: Faults)
      modifies this`history, this`events
      ensures history == old(history) + if faults.history then [TierTriggered(incidentId, tier)] else []
      ensures events == old(events) + if faults.publish then [TriggeredEvent(incidentId, tier)] else []
    {
      if faults.history {
        history := history + [TierTriggered(incidentId, tier)];
      }
      if faults.publish {
        events := events + [TriggeredEvent(incidentId, tier)];
      }
    }

    /** GetPolicy finds a policy of the tenant only. */
    predicate Owned(tenantId: string, policyId: string) {
      policyId in policies && policyId in owners && owners[policyId] == tenantId
    }

    /** AssignPolicy: creates the row at the policy's lowest tier and triggers it. */
    method AssignPolicy(tenantId: string, incidentId: string, policyId: string, now: int, faults: Faults)
      returns (r: Result<(), EscalationError>)
      modifies this
      ensures var owned := policyId in policies && policyId in owners && owners[policyId] == tenantId;
              && (r.Ok? <==> faults.lookup && owned && policies[policyId] != map[] && incidentId !in old(states) && faults.commit)
              && (r == Err(NotFound) <==> faults.lookup && !owned)
              && (r == Err(NoTiers) <==> faults.lookup && owned && policies[policyId] == map[])
              && (r.Err? && !r.error.NotFound? && !r.error.NoTiers? ==> r.error == StoreFailed)
      ensures r.Ok? ==>
                exists low ::
                  && low in policies[policyId] && (forall t | t in policies[policyId] :: low <= t)
                  && states == old(states)[incidentId :=
                       StoredState(tenantId, policyId, Row(low, Active, now + policies[policyId][low] * SECOND))]
                  && events == old(events) + (if faults.publish then [TriggeredEvent(incidentId, low)] else [])
                  && history == old(history) + (if faults.history then [TierTriggered(incidentId, low)] else [])
      ensures r.Err? ==> states == old(states) && events == old(events) && history == old(history)
    {
      if !faults.lookup {
        return Err(StoreFailed);
      }
      if !Owned(tenantId, policyId) {
        return Err(NotFound);
      }
      var policy := policies[policyId];
      if policy == map[] {
        return Err(NoTiers);
      }
      ghost var least := LowestExists(policy.Keys);
      var low :| low in policy && forall t | t in policy :: low <= t;
      if incidentId in states || !faults.commit {
        return Err(StoreFailed);
      }
      states := states[incidentId := StoredState(tenantId, policyId, Row(low, Active, now + policy[low] * SECOND))];
      TriggerTier(incidentId, low, faults);
      return Ok(());
    }

    /** AdvanceOrExhaust on the record `st`, whose row may be out of date. */
    method AdvanceOrExhaust(st: EscalationState, now: int, faults: Faults) returns (r: Result<(), EscalationError>)
      modifies this, st`row
      ensures r == if faults.lookup && faults.commit then Ok(()) else Err(StoreFailed)
      ensures var snap := old(st.row); var policy := PolicyOf(policies, st.policyId); var id := st.incidentId;
              var more := snap.tier + 1 in policy;
              var plan := if more then Row(snap.tier + 1, snap.status, now + policy[snap.tier + 1] * 1_000_000_000)
                          else Row(snap.tier, Exhausted, now);
              var won := faults.lookup && faults.commit && id in old(states)
                         && old(states)[id].row.status == Active && old(states)[id].row.tier == snap.tier;
              && st.row == (if faults.lookup then plan else snap)
              && states == (if won then old(states)[id := old(states)[id].(row := plan)] else old(states))
              && events == old(events) + (if !won || !faults.publish then []
                                          else if more then [TriggeredEvent(id, snap.tier + 1)] else [ExhaustedEvent(id)])
              && history == old(history) + (if !won then []
                                            else if !more then [ChainExhausted(id, snap.tier)]
                                            else if faults.history then [TierTriggered(id, snap.tier + 1)] else [])
      ensures var snap := old(st.row); var policy := PolicyOf(policies, st.policyId); var id := st.incidentId;
              var won := AdvanceWins(old(states), id, snap, faults);
              && states == AfterAdvance(policy, old(states), id, snap, now, faults)
              && events == old(events) + (if won then AdvanceEvents(policy, id, snap, faults) else [])
              && history == old(history) + (if won then AdvanceEntries(policy, id, snap, faults) else [])
    {
      var expectedTier := st.row.tier;
      if !faults.lookup {
        return Err(StoreFailed);
      }
      var nextTier := GetTier(st.policyId, expectedTier + 1);
      if nextTier.None? {
        st.row := st.row.(status := Exhausted, escalateAt := now);
        var outcome := ConditionalUpdate(st.incidentId, st.row, expectedTier,
                                         Some(ChainExhausted(st.incidentId, expectedTier)), faults.commit);
        if outcome.Err? {
          return if outcome.error == Contended then Ok(()) else outcome;
        }
        if faults.publish {
          events := events + [ExhaustedEvent(st.incidentId)];
        }
        return Ok(());
      }
      st.row := st.row.(tier := expectedTier + 1, escalateAt := now + nextTier.value * SECOND);
      var outcome := ConditionalUpdate(st.incidentId, st.row, expectedTier, None, faults.commit);
      if outcome.Err? {
        return if outcome.error == Contended then Ok(()) else outcome;
      }
      TriggerTier(st.incidentId, expectedTier + 1, faults);
      return Ok(());
    }

    /** Stop, with nothing happening between its read and its write. */
    method Stop(tenantId: string, incidentId: string, reason: Status, now: int, faults: Faults)
      returns (r: Result<(), EscalationError>)
      modifies this`states, this`history
      ensures var live := incidentId in old(states) && old(states)[incidentId].tenantId == tenantId
                          && old(states)[incidentId].row.status == Active;
              && (r.Err? <==> !faults.lookup || (live && !faults.commit)) && (r.Err? ==> r.error == StoreFailed)
              && states == (if live && r.Ok?
                            then old(states)[incidentId :=
                                   old(states)[incidentId].(row := old(states)[incidentId].row.(status := reason, escalateAt := now))]
                            else old(states))
              && history == old(history) + (if live && r.Ok? && faults.history
                                            then [Stopped(incidentId, reason, old(states)[incidentId].row.tier)] else [])
    {
      if !faults.lookup {
        return Err(StoreFailed);
      }
      if incidentId !in states || states[incidentId].tenantId != tenantId {
        return Ok(());
      }
      var row := states[incidentId].row;
      if row.status != Active {
        return Ok(());
      }
      r := BlindUpdate(incidentId, row.(status := reason, escalateAt := now), faults.commit);
      if r.Ok? && faults.history {
        history := history + [Stopped(incidentId, reason, row.tier)];
      }
    }

    /** ManualEscalate: refuses missing and inactive rows, otherwise advances at once. */
    method ManualEscalate(tenantId: string, incidentId: string, now: int, readOk: bool, faults: Faults)
      returns (r: Result<(), EscalationError>)
      modifies this
      ensures var known := incidentId in old(states) && old(states)[incidentId].tenantId == tenantId;
              && (!readOk ==> r == Err(StoreFailed))
              && (readOk && !known ==> r == Err(NotFound))
              && (readOk && known && old(states)[incidentId].row.status != Active ==> r == Err(NotActive(old(states)[incidentId].row.status)))
              && (r.Err? ==> states == old(states) && events == old(events) && history == old(history))
              && (r.Ok? <==> readOk && known && old(states)[incidentId].row.status == Active && Succeeds(faults))
              && (r.Err? && !r.error.NotFound? && !r.error.NotActive? ==> r.error == StoreFailed)
              && (r.Ok? ==> var s := old(states)[incidentId];
                    && states == old(states)[incidentId := s.(row := NextRow(PolicyOf(policies, s.policyId), s.row, now))]
                    && events == old(events) + AdvanceEvents(PolicyOf(policies, s.policyId), incidentId, s.row, faults)
                    && history == old(history) + AdvanceEntries(PolicyOf(policies, s.policyId), incidentId, s.row, faults))
    {
      if !readOk {
        return Err(StoreFailed);
      }
      if incidentId !in states || states[incidentId].tenantId != tenantId {
        return Err(NotFound);
      }
      var stored := states[incidentId];
      if stored.row.status != Active {
        return Err(NotActive(stored.row.status));
      }
      var st := new EscalationState(incidentId, stored.policyId, stored.row);
      r := AdvanceOrExhaust(st, now, faults);
    }

    /** ListExpiredStates: up to `limit` expired rows, earliest deadline first, skipping the locked ones. */
    method ListExpired(now: int, limit: nat, locked: set<string>) returns (batch: seq<string>)
      ensures EarliestExpired(states, now, limit, locked, batch)
      ensures forall id | id in batch ::
                id in states && states[id].row.status == Active && states[id].row.escalateAt <= now && id !in locked
      ensures |batch| < limit ==>
                forall id | id in states && states[id].row.status == Active && states[id].row.escalateAt <= now && id !in locked ::
                  id in batch
    {
      var expired := set id | id in states && IsExpired(states, now, id) && id !in locked;
      var left := expired;
      batch := [];
      while |batch| < limit && left != {}
        invariant left <= expired && (forall id :: id in expired <==> id in left || id in batch)
        invariant forall id | id in batch :: id !in left
        invariant forall i, j | 0 <= i < j < |batch| :: batch[i] != batch[j]
        invariant forall id, other | id in batch && other in left :: states[id].row.escalateAt <= states[other].row.escalateAt
        invariant |batch| <= limit
        decreases left
      {
        ghost var first := EarliestExists(states, left);
        var id :| id in left && forall other | other in left :: states[id].row.escalateAt <= states[other].row.escalateAt;
        batch := batch + [id];
        left := left - {id};
      }
    }

    /** The turn of one listed row that is as it was when listed. */
    method AdvanceListed(id: string, now: int, faults: Faults)
      requires id in states && states[id].row.status == Active
      modifies this
      ensures var s := old(states)[id];
              states == if Succeeds(faults) then old(states)[id := s.(row := NextRow(PolicyOf(policies, s.policyId), s.row, now))]
                        else old(states)
    {
      var stored := states[id];
      var st := new EscalationState(id, stored.policyId, stored.row);
      var outcome := AdvanceOrExhaust(st, now, faults);
    }

    /** One monitor tick: a failed listing skips it, a failed row is left for the next, every other listed row moves on. */
    method MonitorStep(now: int, locked: set<string>, listOk: bool, faults: string -> Faults) returns (batch: seq<string>)
      modifies this
      ensures if listOk then EarliestExpired(old(states), now, 50, locked, batch) else batch == []
      ensures Ticked(policies, old(states), now, Successes(batch, faults), states)
    {
      if !listOk {
        return [];
      }
      batch := ListExpired(now, 50, locked);
      ghost var before := states;
      var clock := now;
      for i := 0 to |batch|
        invariant clock >= now
        invariant Ticked(policies, before, now, Successes(batch[..i], faults), states)
      {
        var id := batch[i];
        assert IsExpired(before, now, id) && id !in batch[..i];
        var elapsed: nat :| true;
        clock := clock + elapsed;
        ghost var mid := states;
        AdvanceListed(id, clock, faults(id));
        OneMoved(policies, before, now, Successes(batch[..i], faults), mid, id, states, clock, Succeeds(faults(id)));
        OneMoreListed(batch, i, faults);
      }
      assert batch[..|batch|] == batch;
    }
  }

  predicate Succeeds(faults: Faults) { faults.lookup && faults.commit }

  /** The listed rows whose store calls go through. */
  function Successes(batch: seq<string>, faults: string -> Faults): set<string> { set id | id in batch && Succeeds(faults(id)) }

  /** Exactly these rows have moved on, each by one advance computed at or after `now`. */
  ghost predicate Ticked(policies: map<string, Policy>, before: States, now: int, moved: set<string>, after: States) {
    && after.Keys == before.Keys
    && (forall id | id in before && id !in moved :: after[id] == before[id])
    && (forall id | id in before && id in moved :: AdvancedAfter(policies, before[id], now, after[id]))
  }

  ghost predicate AdvancedAfter(policies: map<string, Policy>, s: StoredState, now: int, s': StoredState) {
    exists t :: now <= t && s' == s.(row := NextRow(PolicyOf(policies, s.policyId), s.row, t))
  }

  lemma OneMoreListed(batch: seq<string>, i: nat, faults: string -> Faults)
    requires i < |batch|
    ensures Successes(batch[..i + 1], faults) == Successes(batch[..i], faults) + (if Succeeds(faults(batch[i])) then {batch[i]} else {})
  {
    assert batch[..i + 1] == batch[..i] + [batch[i]];
  }

  lemma OneMoved(policies: map<string, Policy>, before: States, now: int, moved: set<string>, mid: States, id: string, after: States,
                 clock: int, succeeds: bool)
    requires Ticked(policies, before, now, moved, mid) && id in before && id !in moved && now <= clock
    requires var s := before[id];
             after == if succeeds then mid[id := s.(row := NextRow(PolicyOf(policies, s.policyId), s.row, clock))] else mid
    ensures Ticked(policies, before, now, moved + (if succeeds then {id} else {}), after)
  {
  }
}
