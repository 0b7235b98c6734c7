/**
 * The consumer that groups firing alerts into incidents and closes them again (incident consumer.go), over the
 * tables of store.go. A group key is the string before hashing. The store's calls may fail; a delivery that runs
 * to its end is one in which no call failed between the two writes of handleResolved.
 */
module Incidents {
  import opened Common
  import opened Alerts
  import opened CanonicalKeys
  import S = IncidentStatus

  // ---- Tables ----

  datatype Incident = Incident(tenantId: string, state: S.Incident, history: seq<S.Change>)

  datatype AlertRow = AlertRow(incident: nat, tenantId: string, fingerprint: string, groupKey: string, firing: bool)

  /** Incident ids are handed out by the database and never reused. */
  datatype Tables = Tables(incidents: map<nat, Incident>, alerts: seq<AlertRow>, nextId: nat)

  predicate Unresolved(t: Tables, id: nat) { id in t.incidents && t.incidents[id].state.status != S.Resolved }

  predicate IsFiring(t: Tables, id: nat, k: nat) { k < |t.alerts| && t.alerts[k].incident == id && t.alerts[k].firing }

  ghost predicate HasFiring(t: Tables, id: nat) { exists k: nat :: IsFiring(t, id, k) }

  /** Row k is what the group-key query looks for. */
  predicate OpenGroupRow(t: Tables, tenantId: string, key: string, k: nat) {
    && k < |t.alerts| && t.alerts[k].tenantId == tenantId && t.alerts[k].groupKey == key
    && Unresolved(t, t.alerts[k].incident)
  }

  ghost predicate GroupIsOpen(t: Tables, tenantId: string, key: string) { exists k: nat :: OpenGroupRow(t, tenantId, key, k) }

  /** Row k is a firing row of the fingerprint. */
  predicate FiringRow(t: Tables, tenantId: string, fingerprint: string, k: nat) {
    k < |t.alerts| && t.alerts[k].tenantId == tenantId && t.alerts[k].fingerprint == fingerprint && t.alerts[k].firing
  }

  const NEW_INCIDENT := S.Incident(S.Open, None, None, None)

  function Created(t: Tables, tenantId: string, fingerprint: string, key: string): Tables {
    Tables(t.incidents[t.nextId := Incident(tenantId, NEW_INCIDENT, [S.Change(None, S.Open)])],
           t.alerts + [AlertRow(t.nextId, tenantId, fingerprint, key, true)], t.nextId + 1)
  }

  function Attached(t: Tables, id: nat, tenantId: string, fingerprint: string, key: string): Tables {
    t.(alerts := t.alerts + [AlertRow(id, tenantId, fingerprint, key, true)])
  }

  function Quieted(a: AlertRow, tenantId: string, fingerprint: string): AlertRow {
    if a.tenantId == tenantId && a.fingerprint == fingerprint then a.(firing := false) else a
  }

  function Silenced(t: Tables, tenantId: string, fingerprint: string): Tables {
    t.(alerts := seq(|t.alerts|, k requires 0 <= k < |t.alerts| => Quieted(t.alerts[k], tenantId, fingerprint)))
  }

  /** The closing update; it matches no row of another tenant, nor a resolved one. */
  function Closed(t: Tables, tenantId: string, id: nat, now: int): Tables {
    if id in t.incidents && t.incidents[id].tenantId == tenantId
    then t.(incidents := t.incidents[id := t.incidents[id].(state := S.AutoResolved(t.incidents[id].state, now))])
    else t
  }

  function Noted(t: Tables, id: nat, c: S.Change): Tables {
    if id in t.incidents then t.(incidents := t.incidents[id := t.incidents[id].(history := t.incidents[id].history + [c])]) else t
  }

  const CLOSING := S.Change(Some(S.Open), S.Resolved)

  // ---- Grouping rules ----

  type Rules = map<(string, string), seq<string>>

  function NormalizeSource(source: string): string { if source == "prometheus" then "alertmanager" else source }

  function DefaultGroupingLabels(source: string): seq<string> {
    if source == "alertmanager" || source == "prometheus" then ["alertname", "job"] else ["alertname"]
  }

  /** A rule stored for the tenant and source, or the default of the source. */
  function GroupingRule(rules: Rules, tenantId: string, source: string): seq<string> {
    if (tenantId, source) in rules then rules[(tenantId, source)] else DefaultGroupingLabels(source)
  }

  function GroupKey(rules: Rules, labels: Labels, source: string, tenantId: string): string {
    GroupString(labels, GroupingRule(rules, tenantId, NormalizeSource(source)))
  }

  // ---- The store and the consumer ----

  class Store {
    var incidents: map<nat, Incident>
    var alerts: seq<AlertRow>
    var nextId: nat
    const rules: Rules

    function Now(): Tables reads this { Tables(incidents, alerts, nextId) }

    constructor (rules: Rules)
      ensures Now() == Tables(map[], [], 0) && this.rules == rules
    {
      incidents, alerts, nextId := map[], [], 0;
      this.rules := rules;
    }

    /** The first row that joins an unresolved incident; which one comes first is the database's choice. */
    method FindOpenIncidentByGroupKey(tenantId: string, key: string) returns (r: Option<nat>)
      ensures r.None? ==> !GroupIsOpen(Now(), tenantId, key)
      ensures r.Some? ==> exists k: nat :: OpenGroupRow(Now(), tenantId, key, k) && alerts[k].incident == r.value
      ensures r.None? <==> forall a | a in alerts && a.tenantId == tenantId && a.groupKey == key ::
                             a.incident !in incidents || incidents[a.incident].state.status == S.Resolved
      ensures r.Some? ==> r.value in incidents && incidents[r.value].state.status != S.Resolved
                          && exists a :: a in alerts && a.incident == r.value && a.tenantId == tenantId && a.groupKey == key
    {
      for k := 0 to |alerts|
        invariant forall j: nat | j < k :: !OpenGroupRow(Now(), tenantId, key, j)
        invariant forall j | 0 <= j < k && alerts[j].tenantId == tenantId && alerts[j].groupKey == key ::
                    alerts[j].incident !in incidents || incidents[alerts[j].incident].state.status == S.Resolved
      {
        if OpenGroupRow(Now(), tenantId, key, k) {
          return Some(alerts[k].incident);
        }
      }
      return None;
    }

    /** CreateIncidentTx: incident, history entry and first alert in one transaction. */
    method CreateIncidentTx(tenantId: string, fingerprint: string, key: string, commitOk: bool) returns (ok: bool)
      modifies this
      ensures ok == commitOk
      ensures Now() == if ok then Created(old(Now()), tenantId, fingerprint, key) else old(Now())
      ensures ok ==> nextId == old(nextId) + 1
                     && alerts == old(alerts) + [AlertRow(old(nextId), tenantId, fingerprint, key, true)]
                     && incidents == old(incidents)[old(nextId) :=
                          Incident(tenantId, S.Incident(S.Open, None, None, None), [S.Change(None, S.Open)])]
    {
      if !commitOk {
        return false;
      }
      var id := nextId;
      incidents := incidents[id := Incident(tenantId, NEW_INCIDENT, [S.Change(None, S.Open)])];
      alerts := alerts + [AlertRow(id, tenantId, fingerprint, key, true)];
      nextId := nextId + 1;
      return true;
    }

    method AttachAlert(id: nat, tenantId: string, fingerprint: string, key: string, insertOk: bool) returns (ok: bool)
      modifies this
      ensures ok == insertOk
      ensures Now() == if ok then Attached(old(Now()), id, tenantId, fingerprint, key) else old(Now())
      ensures alerts == old(alerts) + if ok then [AlertRow(id, tenantId, fingerprint, key, true)] else []
      ensures incidents == old(incidents) && nextId == old(nextId)
    {
      if insertOk {
        alerts := alerts + [AlertRow(id, tenantId, fingerprint, key, true)];
      }
      return insertOk;
    }

    /** ResolveAlert: every firing row of the fingerprint, returning the incident of one of them. */
    method ResolveAlert(tenantId: string, fingerprint: string) returns (r: Option<nat>)
      modifies this
      ensures Now() == Silenced(old(Now()), tenantId, fingerprint)
      ensures r.None? ==> forall k: nat :: !FiringRow(old(Now()), tenantId, fingerprint, k)
      ensures r.Some? ==> exists k: nat :: FiringRow(old(Now()), tenantId, fingerprint, k) && old(alerts)[k].incident == r.value
      ensures incidents == old(incidents) && |alerts| == |old(alerts)|
      ensures forall k | 0 <= k < |alerts| ::
                alerts[k] == if old(alerts)[k].tenantId == tenantId && old(alerts)[k].fingerprint == fingerprint
                             then old(alerts)[k].(firing := false) else old(alerts)[k]
      ensures r.None? <==> forall a | a in old(alerts) && a.tenantId == tenantId && a.fingerprint == fingerprint :: !a.firing
      ensures r.Some? ==> exists a :: a in old(alerts) && a.incident == r.value && a.firing
                                      && a.tenantId == tenantId && a.fingerprint == fingerprint
    {
      r := None;
      ghost var before := Now();
      for k := 0 to |alerts|
        invariant incidents == before.incidents && nextId == before.nextId && |alerts| == |before.alerts|
        invariant forall j | 0 <= j < k :: alerts[j] == Quieted(before.alerts[j], tenantId, fingerprint)
        invariant forall j | k <= j < |alerts| :: alerts[j] == before.alerts[j]
        invariant r.None? ==> forall j: nat | j < k :: !FiringRow(before, tenantId, fingerprint, j)
        invariant r.None? ==> forall a | a in before.alerts[..k] && a.tenantId == tenantId && a.fingerprint == fingerprint :: !a.firing
        invariant r.Some? ==> exists j: nat :: FiringRow(before, tenantId, fingerprint, j) && before.alerts[j].incident == r.value
      {
        if alerts[k].tenantId == tenantId && alerts[k].fingerprint == fingerprint && alerts[k].firing {
          assert FiringRow(before, tenantId, fingerprint, k);
          r := Some(alerts[k].incident);
          alerts := alerts[k := alerts[k].(firing := false)];
        }
      }
    }

    /** MaybeResolve: closed unless a firing alert remains. It answers true even when its update matched no row. */
    method MaybeResolve(tenantId: string, id: nat, now: int) returns (closed: bool)
      modifies this
      ensures closed <==> !old(HasFiring(Now(), id))
      ensures Now() == if closed then Closed(old(Now()), tenantId, id, now) else old(Now())
      ensures closed <==> forall a | a in alerts && a.incident == id :: !a.firing
      ensures alerts == old(alerts)
      ensures incidents == if closed && id in old(incidents) && old(incidents)[id].tenantId == tenantId
                              && old(incidents)[id].state.status != S.Resolved
                           then old(incidents)[id := old(incidents)[id].(
                                  state := old(incidents)[id].state.(status := S.Resolved, resolvedAt := Some(now)))]
                           else old(incidents)
    {
      var firingCount := 0;
      for k := 0 to |alerts|
        invariant firingCount >= 0
        invariant firingCount == 0 <==> forall j: nat | j < k :: !IsFiring(Now(), id, j)
        invariant firingCount == 0 <==> forall a | a in alerts[..k] && a.incident == id :: !a.firing
      {
        if alerts[k].incident == id && alerts[k].firing {
          assert IsFiring(Now(), id, k);
          firingCount := firingCount + 1;
        }
      }
      if firingCount > 0 {
        return false;
      }
      if id in incidents && incidents[id].tenantId == tenantId && incidents[id].state.status != S.Resolved {
        var inc := incidents[id].state.(status := S.Resolved, resolvedAt := Some(now));
        incidents := incidents[id := incidents[id].(state := inc)];
      } else {
        assert id in incidents ==> incidents[id := incidents[id].(state := incidents[id].state)] == incidents;
      }
      return true;
    }

    method AppendHistory(id: nat, c: S.Change)
      modifies this
      ensures Now() == Noted(old(Now()), id, c)
      ensures id in old(incidents) ==>
                incidents == old(incidents)[id := old(incidents)[id].(history := old(incidents)[id].history + [c])]
    {
      if id in incidents {
        incidents := incidents[id := incidents[id].(history := incidents[id].history + [c])];
      }
    }
  }

  /** Where, if anywhere, a store call failed while a delivery was handled. */
  datatype Fault = NoFault | NothingWritten | BeforeClosing | HistoryLost

  ghost predicate FiringStep(rules: Rules, t: Tables, t': Tables, a: Alert, tenantId: string, fault: Fault) {
    var key := GroupKey(rules, a.labels, a.source, tenantId);
    if fault == NothingWritten then t' == t
    else if GroupIsOpen(t, tenantId, key) then
      exists k: nat :: OpenGroupRow(t, tenantId, key, k) && t' == Attached(t, t.alerts[k].incident, tenantId, a.fingerprint, key)
    else t' == Created(t, tenantId, a.fingerprint, key)
  }

  /** What follows once the incident of a silenced row is known. */
  ghost predicate ClosingStep(t: Tables, t': Tables, tenantId: string, id: nat, now: int, fault: Fault) {
    if fault == BeforeClosing || HasFiring(t, id) then t' == t
    else t' == if fault == HistoryLost then Closed(t, tenantId, id, now) else Noted(Closed(t, tenantId, id, now), id, CLOSING)
  }

  ghost predicate ResolvedStep(t: Tables, t': Tables, a: Alert, now: int, fault: Fault) {
    if fault == NothingWritten || forall k: nat :: !FiringRow(t, a.tenantId, a.fingerprint, k) then t' == t
    else exists k: nat :: FiringRow(t, a.tenantId, a.fingerprint, k)
           && ClosingStep(Silenced(t, a.tenantId, a.fingerprint), t', a.tenantId, t.alerts[k].incident, now, fault)
  }

  class Consumer {
    const store: Store

    constructor (store: Store)
      ensures this.store == store
    {
      this.store := store;
    }

    /** handleFiring files the alert under the tenant of the envelope. */
    method HandleFiring(a: Alert, tenantId: string, fault: Fault) returns (ok: bool)
      modifies store
      ensures ok <==> fault != NothingWritten
      ensures FiringStep(store.rules, old(store.Now()), store.Now(), a, tenantId, fault)
      ensures ok ==> store.alerts != [] && var row := store.alerts[|store.alerts| - 1];
                && store.alerts == old(store.alerts) + [row] && row.tenantId == tenantId && row.fingerprint == a.fingerprint && row.firing
                && row.incident in store.incidents && store.incidents[row.incident].state.status != S.Resolved
    {
      var groupKey := ComputeGroupString(a.labels, GroupingRule(store.rules, tenantId, NormalizeSource(a.source)));
      var found := store.FindOpenIncidentByGroupKey(tenantId, groupKey);
      if found.None? {
        ok := store.CreateIncidentTx(tenantId, a.fingerprint, groupKey, fault != NothingWritten);
      } else {
        ok := store.AttachAlert(found.value, tenantId, a.fingerprint, groupKey, fault != NothingWritten);
      }
    }

    method HandleResolved(a: Alert, now: int, fault: Fault) returns (ok: bool)
      modifies store
      ensures ResolvedStep(old(store.Now()), store.Now(), a, now, fault)
      ensures ok <==> fault != NothingWritten
                      && (fault == BeforeClosing ==> forall k: nat :: !FiringRow(old(store.Now()), a.tenantId, a.fingerprint, k))
      ensures forall id | id in old(store.incidents) ::
                id in store.incidents
                && (store.incidents[id].history == old(store.incidents)[id].history
                    || store.incidents[id].history == old(store.incidents)[id].history + [S.Change(Some(S.Open), S.Resolved)])
    {
      ghost var before := store.Now();
      if fault == NothingWritten {
        return false;
      }
      var found := store.ResolveAlert(a.tenantId, a.fingerprint);
      if found.None? {
        NothingToSilence(before, a.tenantId, a.fingerprint);
        return true;
      }
      ghost var silenced := store.Now();
      if fault == BeforeClosing {
        assert ClosingStep(silenced, store.Now(), a.tenantId, found.value, now, fault);
        return false;
      }
      var closed := store.MaybeResolve(a.tenantId, found.value, now);
      if closed && fault != HistoryLost {
        store.AppendHistory(found.value, CLOSING);
      }
      assert ClosingStep(silenced, store.Now(), a.tenantId, found.value, now, fault);
      return true;
    }
  }

  lemma NothingToSilence(t: Tables, tenantId: string, fingerprint: string)
    requires forall k: nat :: !FiringRow(t, tenantId, fingerprint, k)
    ensures Silenced(t, tenantId, fingerprint) == t
  {
    assert Silenced(t, tenantId, fingerprint).alerts == t.alerts by {
      forall k: nat | k < |t.alerts| ensures Quieted(t.alerts[k], tenantId, fingerprint) == t.alerts[k] {
        assert !FiringRow(t, tenantId, fingerprint, k);
      }
    }
  }
}
