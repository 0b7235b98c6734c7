/**
 * What the consumer keeps over whole runs: one tenant and one group key per incident, at most one unresolved
 * incident per tenant and group key, and an incident unresolved exactly while it has a firing alert.
 */
module IncidentGrouping {
  import opened Common
  import opened Alerts
  import opened CanonicalKeys
  import opened Incidents
  import S = IncidentStatus

  /** Fixed grouping rules, and what each fingerprint stands for. */
  datatype World = World(rules: Rules, identity: string -> Alert)

  /** The fingerprint determines labels, source and tenant. */
  ghost predicate Described(w: World, a: Alert) {
    var i := w.identity(a.fingerprint);
    a.labels == i.labels && a.source == i.source && a.tenantId == i.tenantId
  }

  function KeyOf(w: World, fingerprint: string): string {
    var i := w.identity(fingerprint);
    GroupKey(w.rules, i.labels, i.source, i.tenantId)
  }

  /** Every row belongs to an incident of its tenant, under the key of its fingerprint. */
  ghost predicate RowsFit(w: World, t: Tables) {
    forall k | 0 <= k < |t.alerts| ::
      var a := t.alerts[k];
      && a.incident in t.incidents && t.incidents[a.incident].tenantId == a.tenantId
      && a.tenantId == w.identity(a.fingerprint).tenantId && a.groupKey == KeyOf(w, a.fingerprint)
  }

  ghost predicate OneKeyEach(t: Tables) {
    forall j, k | 0 <= j < |t.alerts| && 0 <= k < |t.alerts| && t.alerts[j].incident == t.alerts[k].incident ::
      t.alerts[j].groupKey == t.alerts[k].groupKey
  }

  predicate SameGroup(a: AlertRow, b: AlertRow) { a.tenantId == b.tenantId && a.groupKey == b.groupKey }

  /** At most one unresolved incident per tenant and group key. */
  ghost predicate OneOpenPerGroup(t: Tables) {
    forall j, k | 0 <= j < |t.alerts| && 0 <= k < |t.alerts| && SameGroup(t.alerts[j], t.alerts[k])
                  && Unresolved(t, t.alerts[j].incident) && Unresolved(t, t.alerts[k].incident) ::
      t.alerts[j].incident == t.alerts[k].incident
  }

  ghost predicate IdsBelow(t: Tables) { forall id | id in t.incidents :: id < t.nextId }

  ghost predicate Grouped(w: World, t: Tables) {
    RowsFit(w, t) && OneKeyEach(t) && OneOpenPerGroup(t) && IdsBelow(t)
  }

  /** An incident is unresolved exactly when it has a firing alert. */
  ghost predicate OpenIffFiring(t: Tables) {
    forall id: nat | id in t.incidents :: Unresolved(t, id) <==> HasFiring(t, id)
  }

  ghost predicate Inv(w: World, t: Tables) { Grouped(w, t) && OpenIffFiring(t) }

  // ---- Firing alerts ----

  /** One more row, of an incident that may be new; all other incidents as they were. */
  ghost predicate Appended(t: Tables, t': Tables, row: AlertRow) {
    && t'.alerts == t.alerts + [row] && row.incident in t'.incidents
    && (forall id | id in t.incidents :: id in t'.incidents && t'.incidents[id] == t.incidents[id])
  }

  lemma AppendedFits(w: World, t: Tables, t': Tables, row: AlertRow)
    requires RowsFit(w, t) && Appended(t, t', row) && t'.incidents[row.incident].tenantId == row.tenantId
    requires row.tenantId == w.identity(row.fingerprint).tenantId && row.groupKey == KeyOf(w, row.fingerprint)
    ensures RowsFit(w, t')
  {
    forall k | 0 <= k < |t.alerts| ensures t'.alerts[k] == t.alerts[k] && t'.alerts[k].incident in t.incidents {
    }
  }

  lemma AppendedOneKey(t: Tables, t': Tables, row: AlertRow)
    requires OneKeyEach(t) && Appended(t, t', row)
    requires forall k | 0 <= k < |t.alerts| && t.alerts[k].incident == row.incident :: t.alerts[k].groupKey == row.groupKey
    ensures OneKeyEach(t')
  {
    assert forall k | 0 <= k < |t.alerts| :: t'.alerts[k] == t.alerts[k];
  }

  lemma AppendedOneOpen(w: World, t: Tables, t': Tables, row: AlertRow)
    requires RowsFit(w, t) && OneOpenPerGroup(t) && Appended(t, t', row)
    requires forall k: nat | OpenGroupRow(t, row.tenantId, row.groupKey, k) :: t.alerts[k].incident == row.incident
    ensures OneOpenPerGroup(t')
  {
    forall k | 0 <= k < |t.alerts|
      ensures t'.alerts[k] == t.alerts[k] && (Unresolved(t', t.alerts[k].incident) <==> Unresolved(t, t.alerts[k].incident))
    {
    }
    forall j, k | 0 <= j < |t'.alerts| && 0 <= k < |t'.alerts| && SameGroup(t'.alerts[j], t'.alerts[k])
                  && Unresolved(t', t'.alerts[j].incident) && Unresolved(t', t'.alerts[k].incident)
      ensures t'.alerts[j].incident == t'.alerts[k].incident
    {
      if j < |t.alerts| {
        assert k == |t.alerts| ==> OpenGroupRow(t, row.tenantId, row.groupKey, j);
      } else if k < |t.alerts| {
        assert OpenGroupRow(t, row.tenantId, row.groupKey, k);
      }
    }
  }

  lemma CreatedKeepsGrouped(w: World, t: Tables, a: Alert)
    requires Grouped(w, t) && Described(w, a) && !GroupIsOpen(t, a.tenantId, KeyOf(w, a.fingerprint))
    ensures Grouped(w, Created(t, a.tenantId, a.fingerprint, KeyOf(w, a.fingerprint)))
  {
    var key := KeyOf(w, a.fingerprint);
    var t' := Created(t, a.tenantId, a.fingerprint, key);
    var row := AlertRow(t.nextId, a.tenantId, a.fingerprint, key, true);
    AppendedFits(w, t, t', row);
    forall k | 0 <= k < |t.alerts| ensures t.alerts[k].incident != t.nextId {
    }
    AppendedOneKey(t, t', row);
    AppendedOneOpen(w, t, t', row);
  }

  lemma AttachedKeepsGrouped(w: World, t: Tables, a: Alert, k: nat)
    requires Grouped(w, t) && Described(w, a) && OpenGroupRow(t, a.tenantId, KeyOf(w, a.fingerprint), k)
    ensures Grouped(w, Attached(t, t.alerts[k].incident, a.tenantId, a.fingerprint, KeyOf(w, a.fingerprint)))
  {
    var key := KeyOf(w, a.fingerprint);
    var t' := Attached(t, t.alerts[k].incident, a.tenantId, a.fingerprint, key);
    var row := AlertRow(t.alerts[k].incident, a.tenantId, a.fingerprint, key, true);
    AppendedFits(w, t, t', row);
    AppendedOneKey(t, t', row);
    forall j: nat | OpenGroupRow(t, row.tenantId, row.groupKey, j) ensures t.alerts[j].incident == row.incident {
      assert SameGroup(t.alerts[j], t.alerts[k]);
    }
    AppendedOneOpen(w, t, t', row);
  }

  lemma NewRowFires(t: Tables, t': Tables, id: nat, row: AlertRow)
    requires t'.alerts == t.alerts + [row] && row.firing
    ensures HasFiring(t', id) <==> HasFiring(t, id) || row.incident == id
  {
    if HasFiring(t, id) {
      var k: nat :| IsFiring(t, id, k);
      assert IsFiring(t', id, k);
    }
    if row.incident == id {
      assert IsFiring(t', id, |t.alerts|);
    }
    if HasFiring(t', id) && row.incident != id {
      var k: nat :| IsFiring(t', id, k);
      assert IsFiring(t, id, k);
    }
  }

  lemma CreatedKeepsOpen(w: World, t: Tables, a: Alert, key: string)
    requires RowsFit(w, t) && IdsBelow(t) && OpenIffFiring(t)
    ensures OpenIffFiring(Created(t, a.tenantId, a.fingerprint, key))
  {
    var t' := Created(t, a.tenantId, a.fingerprint, key);
    forall id: nat | id in t'.incidents ensures Unresolved(t', id) <==> HasFiring(t', id) {
      NewRowFires(t, t', id, t'.alerts[|t.alerts|]);
    }
  }

  lemma AttachedKeepsOpen(t: Tables, a: Alert, key: string, id: nat)
    requires OpenIffFiring(t) && Unresolved(t, id)
    ensures OpenIffFiring(Attached(t, id, a.tenantId, a.fingerprint, key))
  {
    var t' := Attached(t, id, a.tenantId, a.fingerprint, key);
    forall i: nat | i in t'.incidents ensures Unresolved(t', i) <==> HasFiring(t', i) {
      NewRowFires(t, t', i, t'.alerts[|t.alerts|]);
    }
  }

  lemma FiringKeepsInv(w: World, t: Tables, t': Tables, a: Alert, fault: Fault)
    requires Grouped(w, t) && Described(w, a) && FiringStep(w.rules, t, t', a, a.tenantId, fault)
    ensures Grouped(w, t')
    ensures OpenIffFiring(t) ==> OpenIffFiring(t')
  {
    var key := KeyOf(w, a.fingerprint);
    if fault != NothingWritten {
      if GroupIsOpen(t, a.tenantId, key) {
        var k: nat :| OpenGroupRow(t, a.tenantId, key, k) && t' == Attached(t, t.alerts[k].incident, a.tenantId, a.fingerprint, key);
        AttachedKeepsGrouped(w, t, a, k);
        if OpenIffFiring(t) {
          AttachedKeepsOpen(t, a, key, t.alerts[k].incident);
        }
      } else {
        CreatedKeepsGrouped(w, t, a);
        if OpenIffFiring(t) {
          CreatedKeepsOpen(w, t, a, key);
        }
      }
    }
  }

  // ---- Resolved alerts ----

  /** Rows keep their place and fit as long as only `firing` changes and incidents only move towards resolved. */
  ghost predicate Calmer(t: Tables, t': Tables) {
    && t'.nextId == t.nextId && t'.incidents.Keys == t.incidents.Keys && |t'.alerts| == |t.alerts|
    && (forall id | id in t.incidents :: t'.incidents[id].tenantId == t.incidents[id].tenantId)
    && (forall id: nat | Unresolved(t', id) :: Unresolved(t, id))
    && (forall k | 0 <= k < |t.alerts| :: t'.alerts[k] == t.alerts[k].(firing := t'.alerts[k].firing))
  }

  lemma CalmerKeepsGrouped(w: World, t: Tables, t': Tables)
    requires Grouped(w, t) && Calmer(t, t')
    ensures Grouped(w, t')
  {
    assert forall j, k | 0 <= j < |t.alerts| && 0 <= k < |t.alerts| ::
        SameGroup(t'.alerts[j], t'.alerts[k]) == SameGroup(t.alerts[j], t.alerts[k]);
  }

  lemma ClosingIsCalmer(t: Tables, t': Tables, a: Alert, id: nat, now: int, fault: Fault)
    requires ClosingStep(Silenced(t, a.tenantId, a.fingerprint), t', a.tenantId, id, now, fault)
    ensures Calmer(t, t')
  {
  }

  /** All firing rows of one fingerprint sit in the one incident that is open for it. */
  lemma FiringRowsTogether(w: World, t: Tables, a: Alert, j: nat, k: nat)
    requires Inv(w, t) && FiringRow(t, a.tenantId, a.fingerprint, j) && FiringRow(t, a.tenantId, a.fingerprint, k)
    ensures t.alerts[j].incident == t.alerts[k].incident
  {
    assert IsFiring(t, t.alerts[j].incident, j) && IsFiring(t, t.alerts[k].incident, k);
    assert SameGroup(t.alerts[j], t.alerts[k]);
  }

  /** Silencing a fingerprint leaves every other incident's firing alerts alone. */
  lemma SilencedElsewhere(w: World, t: Tables, a: Alert, k: nat, id: nat)
    requires Inv(w, t) && FiringRow(t, a.tenantId, a.fingerprint, k) && id != t.alerts[k].incident
    ensures HasFiring(Silenced(t, a.tenantId, a.fingerprint), id) <==> HasFiring(t, id)
  {
    var t' := Silenced(t, a.tenantId, a.fingerprint);
    if HasFiring(t, id) {
      var j: nat :| IsFiring(t, id, j);
      if FiringRow(t, a.tenantId, a.fingerprint, j) {
        FiringRowsTogether(w, t, a, j, k);
      }
      assert IsFiring(t', id, j);
    }
    if HasFiring(t', id) {
      var j: nat :| IsFiring(t', id, j);
      assert IsFiring(t, id, j);
    }
  }

  /** Its own incident may be left open with nothing firing; every other one is as before. */
  lemma AfterSilencing(w: World, t: Tables, a: Alert, k: nat)
    requires Inv(w, t) && FiringRow(t, a.tenantId, a.fingerprint, k)
    ensures var t' := Silenced(t, a.tenantId, a.fingerprint);
            && Unresolved(t', t.alerts[k].incident)
            && t'.incidents[t.alerts[k].incident].tenantId == a.tenantId
            && forall id: nat | id in t'.incidents && id != t.alerts[k].incident :: Unresolved(t', id) <==> HasFiring(t', id)
  {
    var t' := Silenced(t, a.tenantId, a.fingerprint);
    assert IsFiring(t, t.alerts[k].incident, k);
    forall id: nat | id in t'.incidents && id != t.alerts[k].incident ensures Unresolved(t', id) <==> HasFiring(t', id) {
      SilencedElsewhere(w, t, a, k, id);
    }
  }

  lemma SameRowsSameFiring(t: Tables, t': Tables, id: nat)
    requires t'.alerts == t.alerts
    ensures HasFiring(t', id) <==> HasFiring(t, id)
  {
    if HasFiring(t, id) {
      var k: nat :| IsFiring(t, id, k);
      assert IsFiring(t', id, k);
    }
    if HasFiring(t', id) {
      var k: nat :| IsFiring(t', id, k);
      assert IsFiring(t, id, k);
    }
  }

  /** The closing step repairs exactly the incident that silencing may have left open. */
  lemma ClosingRepairs(t: Tables, t': Tables, tenantId: string, id: nat, now: int, fault: Fault)
    requires Unresolved(t, id) && t.incidents[id].tenantId == tenantId
    requires forall i: nat | i in t.incidents && i != id :: Unresolved(t, i) <==> HasFiring(t, i)
    requires ClosingStep(t, t', tenantId, id, now, fault)
    ensures OpenIffFiring(t') <==> fault != BeforeClosing || HasFiring(t, id)
  {
    SameRowsSameFiring(t, t', id);
    forall i: nat | i in t.incidents && i != id ensures Unresolved(t', i) <==> HasFiring(t', i) {
      SameRowsSameFiring(t, t', i);
      assert t'.incidents[i] == t.incidents[i];
    }
    assert t'.incidents.Keys == t.incidents.Keys;
  }

  /**
   * A resolved delivery keeps the invariant, and breaks it in one case only: an error between its two writes when
   * nothing else fires in the incident.
   */
  lemma ResolvedKeepsInv(w: World, t: Tables, t': Tables, a: Alert, now: int, fault: Fault, k: nat)
    requires Inv(w, t) && FiringRow(t, a.tenantId, a.fingerprint, k) && fault != NothingWritten
    requires ResolvedStep(t, t', a, now, fault)
    ensures Grouped(w, t')
    ensures Inv(w, t') <==> fault != BeforeClosing || HasFiring(Silenced(t, a.tenantId, a.fingerprint), t.alerts[k].incident)
  {
    var j: nat :| FiringRow(t, a.tenantId, a.fingerprint, j)
      && ClosingStep(Silenced(t, a.tenantId, a.fingerprint), t', a.tenantId, t.alerts[j].incident, now, fault);
    FiringRowsTogether(w, t, a, j, k);
    AfterSilencing(w, t, a, j);
    ClosingRepairs(Silenced(t, a.tenantId, a.fingerprint), t', a.tenantId, t.alerts[j].incident, now, fault);
    ClosingIsCalmer(t, t', a, t.alerts[j].incident, now, fault);
    CalmerKeepsGrouped(w, t, t');
  }

  // ---- Runs ----

  datatype Event =
    | Delivery(alert: Alert, now: int, fault: Fault)
    | Patch(id: nat, to: S.Status, now: int, author: string)   // a manual status change that commits

  function Patched(t: Tables, id: nat, to: S.Status, now: int, author: string): Tables
    requires id in t.incidents
  {
    var inc := t.incidents[id];
    t.(incidents := t.incidents[id := inc.(state := S.Moved(inc.state, to, now, author),
                                           history := inc.history + [S.Change(Some(inc.state.status), to)])])
  }

  /** A manual change is the request's read and commit in a row, on the incident's own record. */
  lemma PatchedIsRequest(t: Tables, id: nat, to: S.Status, now: int, author: string, s: S.Sys, p: nat)
    requires id in t.incidents && S.Validate(t.incidents[id].state.status, to)
    requires S.ProcOf(s, p).Idle? && s.inc == t.incidents[id].state && s.history == t.incidents[id].history
    ensures S.Enabled(s, S.PatchRead(p, to, author))
    ensures var t' := Patched(t, id, to, now, author);
            var done := S.Exec(S.Exec(s, S.PatchRead(p, to, author)), S.PatchCommit(p, now));
            && t'.incidents.Keys == t.incidents.Keys && t'.alerts == t.alerts && t'.nextId == t.nextId
            && t'.incidents[id] == Incident(t.incidents[id].tenantId, done.inc, done.history)
            && forall other | other in t.incidents && other != id :: t'.incidents[other] == t.incidents[other]
  {
    S.PatchInARow(s, p, to, author, now);
  }

  ghost predicate Step(w: World, t: Tables, t': Tables, e: Event) {
    match e
    case Delivery(a, now, fault) =>
      if a.status == Resolved then ResolvedStep(t, t', a, now, fault) else FiringStep(w.rules, t, t', a, a.tenantId, fault)
    case Patch(id, to, now, author) =>
      id in t.incidents && S.Validate(t.incidents[id].state.status, to) && t' == Patched(t, id, to, now, author)
  }

  ghost predicate Run(w: World, ts: seq<Tables>, es: seq<Event>) {
    && |ts| == |es| + 1 && ts[0] == Tables(map[], [], 0)
    && (forall i | 0 <= i < |es| :: Step(w, ts[i], ts[i + 1], es[i]))
    && (forall i | 0 <= i < |es| && es[i].Delivery? :: Described(w, es[i].alert))
  }

  /** A delivery handled to its end, whatever else failed. */
  predicate Completed(e: Event) { e.Delivery? && e.fault != BeforeClosing }

  lemma NoSuchRowNoChange(w: World, t: Tables, t': Tables, e: Event)
    requires Grouped(w, t) && Step(w, t, t', e) && e.Delivery? && e.alert.status == Resolved
    requires e.fault == NothingWritten || forall k: nat :: !FiringRow(t, e.alert.tenantId, e.alert.fingerprint, k)
    ensures t' == t
  {
  }

  lemma DeliveryKeepsInv(w: World, t: Tables, t': Tables, e: Event)
    requires Inv(w, t) && Completed(e) && Described(w, e.alert) && Step(w, t, t', e)
    ensures Inv(w, t')
  {
    var a := e.alert;
    if a.status == Firing {
      FiringKeepsInv(w, t, t', a, e.fault);
    } else if k: nat :| FiringRow(t, a.tenantId, a.fingerprint, k) {
      if e.fault != NothingWritten {
        ResolvedKeepsInv(w, t, t', a, e.now, e.fault, k);
      }
    } else {
      NoSuchRowNoChange(w, t, t', e);
    }
  }

  /**
   * Over every run of one consumer whose deliveries run to their end: an incident is unresolved exactly when it has a
   * firing alert, its alerts share one group key, and a tenant's group has at most one unresolved incident.
   */
  lemma {:induction false} ConsumerKeepsInv(w: World, ts: seq<Tables>, es: seq<Event>, i: nat)
    requires Run(w, ts, es) && (forall j | 0 <= j < |es| :: Completed(es[j])) && i < |ts|
    ensures OpenIffFiring(ts[i]) && OneKeyEach(ts[i]) && OneOpenPerGroup(ts[i])
    ensures Inv(w, ts[i])
  {
    if i > 0 {
      ConsumerKeepsInv(w, ts, es, i - 1);
      DeliveryKeepsInv(w, ts[i - 1], ts[i], es[i - 1]);
    }
  }

  lemma KeysByLabels(a: Labels, b: Labels, names: seq<string>)
    requires forall n | n in names :: '=' !in n && ',' !in n && (n in a ==> ',' !in a[n]) && (n in b ==> ',' !in b[n])
    ensures GroupString(a, names) == GroupString(b, names)
            <==> forall n | n in names :: (if n in a then a[n] else "") == (if n in b then b[n] else "")
  {
    GroupStringExact(a, b, names);
    assert AgreeOn(a, b, names) <==> forall n | n in names :: (if n in a then a[n] else "") == (if n in b then b[n] else "");
  }

  /** Firing alerts of a tenant share an incident exactly when they share a group key. */
  lemma FiringShare(w: World, t: Tables, j: nat, k: nat)
    requires Inv(w, t) && j < |t.alerts| && k < |t.alerts| && t.alerts[j].firing && t.alerts[k].firing
    requires t.alerts[j].tenantId == t.alerts[k].tenantId
    ensures t.alerts[j].incident == t.alerts[k].incident
            <==> KeyOf(w, t.alerts[j].fingerprint) == KeyOf(w, t.alerts[k].fingerprint)
  {
    assert IsFiring(t, t.alerts[j].incident, j) && IsFiring(t, t.alerts[k].incident, k);
  }

  /**
   * Two alerts of a tenant and source fire in one incident exactly when they agree on every label of the tenant's stored
   * rule, or of the source's default when none is stored. Alertmanager and Prometheus count as one source.
   */
  lemma GroupedByLabels(w: World, t: Tables, j: nat, k: nat, names: seq<string>)
    requires Inv(w, t) && j < |t.alerts| && k < |t.alerts| && t.alerts[j].firing && t.alerts[k].firing
    requires var a, b := w.identity(t.alerts[j].fingerprint), w.identity(t.alerts[k].fingerprint);
             var shared := a.source == "alertmanager" || a.source == "prometheus";
             var rule := (a.tenantId, if shared then "alertmanager" else a.source);
             && a.tenantId == b.tenantId
             && (a.source == b.source || (shared && (b.source == "alertmanager" || b.source == "prometheus")))
             && names == if rule in w.rules then w.rules[rule] else if shared then ["alertname", "job"] else ["alertname"]
    requires var a, b := w.identity(t.alerts[j].fingerprint), w.identity(t.alerts[k].fingerprint);
             forall n | n in names :: '=' !in n && ',' !in n
                                      && (n in a.labels ==> ',' !in a.labels[n]) && (n in b.labels ==> ',' !in b.labels[n])
    ensures var a, b := w.identity(t.alerts[j].fingerprint), w.identity(t.alerts[k].fingerprint);
            t.alerts[j].incident == t.alerts[k].incident
            <==> forall n | n in names ::
                   (if n in a.labels then a.labels[n] else "") == (if n in b.labels then b.labels[n] else "")
  {
    var a, b := w.identity(t.alerts[j].fingerprint), w.identity(t.alerts[k].fingerprint);
    KeysByLabels(a.labels, b.labels, names);
    assert KeyOf(w, t.alerts[j].fingerprint) == GroupString(a.labels, names);
    assert KeyOf(w, t.alerts[k].fingerprint) == GroupString(b.labels, names);
    FiringShare(w, t, j, k);
  }

  // ---- Manual changes ----

  /** Rows of the incident's group that belong to some other unresolved incident. */
  ghost predicate GroupTaken(t: Tables, id: nat) {
    exists j, k | 0 <= j < |t.alerts| && 0 <= k < |t.alerts| ::
      SameGroup(t.alerts[j], t.alerts[k]) && t.alerts[j].incident == id && t.alerts[k].incident != id
      && Unresolved(t, t.alerts[k].incident)
  }

  lemma PatchedFacts(t: Tables, id: nat, to: S.Status, now: int, author: string)
    requires id in t.incidents
    ensures var t' := Patched(t, id, to, now, author);
            && (forall i: nat :: Unresolved(t', i) <==> if i == id then to != S.Resolved else Unresolved(t, i))
            && (forall i: nat :: HasFiring(t', i) <==> HasFiring(t, i))
  {
    var t' := Patched(t, id, to, now, author);
    forall i: nat ensures HasFiring(t', i) <==> HasFiring(t, i) {
      SameRowsSameFiring(t, t', i);
    }
  }

  /** Of the manual changes only an acknowledgement keeps the whole invariant. */
  lemma PatchKeepsInv(w: World, t: Tables, id: nat, to: S.Status, now: int, author: string)
    requires Inv(w, t) && id in t.incidents && S.Validate(t.incidents[id].state.status, to)
    ensures Inv(w, Patched(t, id, to, now, author)) <==> to == S.Acknowledged
  {
    var t' := Patched(t, id, to, now, author);
    PatchedFacts(t, id, to, now, author);
    if to == S.Acknowledged {
      CalmerKeepsGrouped(w, t, t');
    } else {
      assert Unresolved(t', id) != HasFiring(t', id);
    }
  }

  /** A reopening keeps one unresolved incident per group exactly when the group has none yet. */
  lemma ReopenKeepsGrouped(w: World, t: Tables, id: nat, now: int, author: string)
    requires Grouped(w, t) && id in t.incidents && t.incidents[id].state.status == S.Resolved
    ensures Grouped(w, Patched(t, id, S.Open, now, author)) <==> !GroupTaken(t, id)
  {
    var t' := Patched(t, id, S.Open, now, author);
    PatchedFacts(t, id, S.Open, now, author);
    assert t'.alerts == t.alerts;
    if GroupTaken(t, id) {
      var j, k :| 0 <= j < |t.alerts| && 0 <= k < |t.alerts| && SameGroup(t.alerts[j], t.alerts[k])
        && t.alerts[j].incident == id && t.alerts[k].incident != id && Unresolved(t, t.alerts[k].incident);
      assert Unresolved(t', t'.alerts[j].incident) && Unresolved(t', t'.alerts[k].incident);
    } else {
      forall j, k | 0 <= j < |t'.alerts| && 0 <= k < |t'.alerts| && SameGroup(t'.alerts[j], t'.alerts[k])
                    && Unresolved(t', t'.alerts[j].incident) && Unresolved(t', t'.alerts[k].incident)
        ensures t'.alerts[j].incident == t'.alerts[k].incident
      {
        assert SameGroup(t.alerts[k], t.alerts[j]);
      }
    }
  }

  lemma StepKeepsGrouped(w: World, t: Tables, t': Tables, e: Event)
    requires Grouped(w, t) && Step(w, t, t', e) && (e.Delivery? ==> Described(w, e.alert))
    requires e.Patch? && e.to == S.Open ==> !GroupTaken(t, e.id)
    ensures Grouped(w, t')
  {
    match e
    case Patch(id, to, now, author) =>
      if to == S.Open {
        ReopenKeepsGrouped(w, t, id, now, author);
      } else {
        CalmerKeepsGrouped(w, t, t');
      }
    case Delivery(a, now, fault) =>
      if a.status == Firing {
        FiringKeepsInv(w, t, t', a, fault);
      } else if fault == NothingWritten || forall k: nat :: !FiringRow(t, a.tenantId, a.fingerprint, k) {
        NoSuchRowNoChange(w, t, t', e);
      } else {
        var k: nat :| FiringRow(t, a.tenantId, a.fingerprint, k)
          && ClosingStep(Silenced(t, a.tenantId, a.fingerprint), t', a.tenantId, t.alerts[k].incident, now, fault);
        ClosingIsCalmer(t, t', a, t.alerts[k].incident, now, fault);
        CalmerKeepsGrouped(w, t, t');
      }
  }

  /** Grouping survives every error and every manual change, as long as no incident is reopened into a taken group. */
  lemma {:induction false} GroupingSurvives(w: World, ts: seq<Tables>, es: seq<Event>, i: nat)
    requires Run(w, ts, es) && i < |ts|
    requires forall j | 0 <= j < |es| && es[j].Patch? && es[j].to == S.Open :: !GroupTaken(ts[j], es[j].id)
    ensures OneKeyEach(ts[i]) && OneOpenPerGroup(ts[i]) && Grouped(w, ts[i])
  {
    if i > 0 {
      GroupingSurvives(w, ts, es, i - 1);
      StepKeepsGrouped(w, ts[i - 1], ts[i], es[i - 1]);
    }
  }

  /**
   * After a manual resolve the alert may fire again into a new incident. Its resolution then silences the rows of both
   * incidents, but closes only the one the database happens to return: the new incident can stay open with nothing
   * firing in it.
   */
  lemma ManualResolveStrands(w: World, t: Tables, a: Alert, k: nat, now: int, author: string, t2: Tables, t3: Tables)
    requires Inv(w, t) && Described(w, a) && FiringRow(t, a.tenantId, a.fingerprint, k)
    requires FiringStep(w.rules, Patched(t, t.alerts[k].incident, S.Resolved, now, author), t2, a, a.tenantId, NoFault)
    requires ClosingStep(Silenced(t2, a.tenantId, a.fingerprint), t3, a.tenantId, t.alerts[k].incident, now, NoFault)
    ensures ResolvedStep(t2, t3, a, now, NoFault)
    ensures Unresolved(t3, t.nextId) && !HasFiring(t3, t.nextId)
  {
    var key := KeyOf(w, a.fingerprint);
    var t1 := Patched(t, t.alerts[k].incident, S.Resolved, now, author);
    NoneOpenAfterPatch(w, t, a, k, now, author);
    assert t2 == Created(t1, a.tenantId, a.fingerprint, key);
    assert t2.alerts[k] == t.alerts[k];
    assert FiringRow(t2, a.tenantId, a.fingerprint, k);
    forall j: nat ensures !IsFiring(t3, t.nextId, j) {
    }
  }

  lemma NoneOpenAfterPatch(w: World, t: Tables, a: Alert, k: nat, now: int, author: string)
    requires Inv(w, t) && FiringRow(t, a.tenantId, a.fingerprint, k)
    ensures t.alerts[k].incident in t.incidents
    ensures !GroupIsOpen(Patched(t, t.alerts[k].incident, S.Resolved, now, author), a.tenantId, KeyOf(w, a.fingerprint))
  {
    var t1 := Patched(t, t.alerts[k].incident, S.Resolved, now, author);
    assert IsFiring(t, t.alerts[k].incident, k);
    forall j: nat ensures !OpenGroupRow(t1, a.tenantId, KeyOf(w, a.fingerprint), j) {
      if OpenGroupRow(t1, a.tenantId, KeyOf(w, a.fingerprint), j) {
        assert SameGroup(t.alerts[j], t.alerts[k]);
      }
    }
  }

  // ---- Unresolved incidents with nothing firing ----

  /** Every unresolved incident has a firing alert; what a manual resolve leaves of the invariant. */
  ghost predicate NoneStranded(t: Tables) {
    forall id: nat | Unresolved(t, id) :: HasFiring(t, id)
  }

  /** A firing row of the incident that is not one of the fingerprint's. */
  ghost predicate OtherFiring(t: Tables, id: nat, a: Alert) {
    exists k: nat :: IsFiring(t, id, k) && !FiringRow(t, a.tenantId, a.fingerprint, k)
  }

  /** A firing row of the fingerprint in the incident. */
  ghost predicate FiresIn(t: Tables, id: nat, a: Alert) {
    exists k: nat :: IsFiring(t, id, k) && FiringRow(t, a.tenantId, a.fingerprint, k)
  }

  /** No unresolved incident but `chosen` fires through this fingerprint alone. */
  ghost predicate NobodyElseDepends(t: Tables, a: Alert, chosen: nat) {
    forall id: nat | Unresolved(t, id) && id != chosen && FiresIn(t, id, a) :: OtherFiring(t, id, a)
  }

  /** What survives every failure and every manual change, reopening included. */
  ghost predicate Filed(w: World, t: Tables) { RowsFit(w, t) && IdsBelow(t) }

  lemma StepKeepsFiled(w: World, t: Tables, t': Tables, e: Event)
    requires Filed(w, t) && Step(w, t, t', e) && (e.Delivery? ==> Described(w, e.alert))
    ensures Filed(w, t')
  {
    if e.Delivery? {
      var a := e.alert;
      if a.status == Firing && e.fault != NothingWritten {
        AppendedFits(w, t, t', t'.alerts[|t.alerts|]);
      } else if a.status == Resolved && e.fault != NothingWritten {
        if k: nat :| FiringRow(t, a.tenantId, a.fingerprint, k)
                     && ClosingStep(Silenced(t, a.tenantId, a.fingerprint), t', a.tenantId, t.alerts[k].incident, e.now, e.fault) {
          ClosingIsCalmer(t, t', a, t.alerts[k].incident, e.now, e.fault);
        }
      }
    }
  }

  /** Silencing the fingerprint and returning `chosen` leaves no unresolved incident without a firing alert. */
  ghost predicate Spares(t: Tables, a: Alert, chosen: nat, fault: Fault) {
    NobodyElseDepends(t, a, chosen) && (fault != BeforeClosing || !Unresolved(t, chosen) || OtherFiring(t, chosen, a))
  }

  lemma FiringStepStrandsNone(w: World, t: Tables, t': Tables, a: Alert, fault: Fault)
    requires Filed(w, t) && FiringStep(w.rules, t, t', a, a.tenantId, fault) && NoneStranded(t)
    ensures NoneStranded(t')
  {
    if fault != NothingWritten {
      forall id: nat | Unresolved(t', id) ensures HasFiring(t', id) {
        NewRowFires(t, t', id, t'.alerts[|t.alerts|]);
      }
    }
  }

  /** Acknowledging and resolving by hand strand nothing; reopening strands nothing exactly when the incident still has a firing row. */
  lemma PatchStrandsNone(t: Tables, id: nat, to: S.Status, now: int, author: string)
    requires NoneStranded(t) && id in t.incidents && S.Validate(t.incidents[id].state.status, to)
    ensures NoneStranded(Patched(t, id, to, now, author)) <==> to != S.Open || HasFiring(t, id)
  {
    var t' := Patched(t, id, to, now, author);
    PatchedFacts(t, id, to, now, author);
    if to == S.Open {
      assert Unresolved(t', id);
    }
  }

  lemma SilencedFiring(t: Tables, a: Alert, id: nat)
    ensures HasFiring(Silenced(t, a.tenantId, a.fingerprint), id) <==> OtherFiring(t, id, a)
  {
    var t' := Silenced(t, a.tenantId, a.fingerprint);
    if OtherFiring(t, id, a) {
      var k: nat :| IsFiring(t, id, k) && !FiringRow(t, a.tenantId, a.fingerprint, k);
      assert IsFiring(t', id, k);
    }
    if HasFiring(t', id) {
      var k: nat :| IsFiring(t', id, k);
      assert IsFiring(t, id, k) && !FiringRow(t, a.tenantId, a.fingerprint, k);
    }
  }

  /** An incident without a row of the fingerprint keeps all it has. */
  lemma UntouchedFiring(t: Tables, a: Alert, id: nat)
    requires HasFiring(t, id) && !FiresIn(t, id, a)
    ensures OtherFiring(t, id, a)
  {
    var k: nat :| IsFiring(t, id, k);
    assert !FiringRow(t, a.tenantId, a.fingerprint, k);
  }

  lemma ClosingSpares(t: Tables, t': Tables, tenantId: string, chosen: nat, now: int, fault: Fault)
    requires ClosingStep(t, t', tenantId, chosen, now, fault)
    requires chosen in t.incidents && t.incidents[chosen].tenantId == tenantId
    ensures t'.alerts == t.alerts
    ensures forall id: nat :: Unresolved(t', id) <==> Unresolved(t, id) && (id != chosen || fault == BeforeClosing || HasFiring(t, chosen))
  {
  }

  /**
   * A resolved delivery, from any state a manual resolve may have led to, when the database returns the incident of row k:
   * nothing is stranded exactly when every other unresolved incident firing through this fingerprint also fires
   * through another, and the returned one is resolved, is closed now, or still fires.
   */
  lemma ResolvedStrandsNone(w: World, t: Tables, t': Tables, a: Alert, k: nat, now: int, fault: Fault)
    requires Filed(w, t) && NoneStranded(t) && FiringRow(t, a.tenantId, a.fingerprint, k)
    requires ClosingStep(Silenced(t, a.tenantId, a.fingerprint), t', a.tenantId, t.alerts[k].incident, now, fault)
    ensures NoneStranded(t') <==> Spares(t, a, t.alerts[k].incident, fault)
  {
    var chosen := t.alerts[k].incident;
    var silenced := Silenced(t, a.tenantId, a.fingerprint);
    SilencedFiring(t, a, chosen);
    ClosingSpares(silenced, t', a.tenantId, chosen, now, fault);
    forall id: nat ensures HasFiring(t', id) <==> OtherFiring(t, id, a) {
      SilencedFiring(t, a, id);
      SameRowsSameFiring(silenced, t', id);
    }
    forall id: nat | Unresolved(t, id) && !FiresIn(t, id, a) ensures OtherFiring(t, id, a) {
      UntouchedFiring(t, a, id);
    }
    assert forall id: nat :: Unresolved(silenced, id) <==> Unresolved(t, id);
    if NoneStranded(t') {
      forall id: nat | Unresolved(t, id) && id != chosen && FiresIn(t, id, a) ensures OtherFiring(t, id, a) {
        assert Unresolved(t', id);
      }
      if fault == BeforeClosing && Unresolved(t, chosen) {
        assert Unresolved(t', chosen);
      }
    }
  }

  /** What an event must meet, in the state before it and for the incident the database returns, to strand nothing. */
  ghost predicate Careful(t: Tables, t': Tables, e: Event) {
    match e
    case Patch(id, to, now, author) => to != S.Open || HasFiring(t, id)
    case Delivery(a, now, fault) =>
      a.status == Firing || fault == NothingWritten || (forall k: nat :: !FiringRow(t, a.tenantId, a.fingerprint, k))
      || exists k: nat ::
           && FiringRow(t, a.tenantId, a.fingerprint, k)
           && ClosingStep(Silenced(t, a.tenantId, a.fingerprint), t', a.tenantId, t.alerts[k].incident, now, fault)
           && Spares(t, a, t.alerts[k].incident, fault)
  }

  /** One event, of any kind, strands nothing exactly when it is careful. */
  lemma StepStrandsNone(w: World, t: Tables, t': Tables, e: Event)
    requires Filed(w, t) && NoneStranded(t) && Step(w, t, t', e)
    ensures NoneStranded(t') <==> Careful(t, t', e)
  {
    match e
    case Patch(id, to, now, author) => PatchStrandsNone(t, id, to, now, author);
    case Delivery(a, now, fault) =>
      if a.status == Firing {
        FiringStepStrandsNone(w, t, t', a, fault);
      } else if !(fault == NothingWritten || forall k: nat :: !FiringRow(t, a.tenantId, a.fingerprint, k)) {
        forall k: nat | FiringRow(t, a.tenantId, a.fingerprint, k)
                        && ClosingStep(Silenced(t, a.tenantId, a.fingerprint), t', a.tenantId, t.alerts[k].incident, now, fault)
          ensures NoneStranded(t') <==> Spares(t, a, t.alerts[k].incident, fault)
        {
          ResolvedStrandsNone(w, t, t', a, k, now, fault);
        }
      }
  }

  lemma {:induction false} AlwaysFiled(w: World, ts: seq<Tables>, es: seq<Event>, i: nat)
    requires Run(w, ts, es) && i < |ts|
    ensures Filed(w, ts[i])
  {
    if i > 0 {
      AlwaysFiled(w, ts, es, i - 1);
      StepKeepsFiled(w, ts[i - 1], ts[i], es[i - 1]);
    }
  }

  ghost predicate NeverStranded(ts: seq<Tables>, i: nat)
    requires i < |ts|
  {
    forall m | 0 <= m <= i :: NoneStranded(ts[m])
  }

  ghost predicate AllCareful(ts: seq<Tables>, es: seq<Event>, i: nat)
    requires i <= |es| < |ts|
  {
    forall j: nat | j < i :: CarefulAt(ts, es, j)
  }

  ghost predicate CarefulAt(ts: seq<Tables>, es: seq<Event>, j: nat)
    requires j < |es| < |ts|
  {
    Careful(ts[j], ts[j + 1], es[j])
  }

  lemma OneMoreState(ts: seq<Tables>, i: nat)
    requires 0 < i < |ts|
    ensures NeverStranded(ts, i) <==> NeverStranded(ts, i - 1) && NoneStranded(ts[i])
  {
  }

  lemma OneMoreEvent(ts: seq<Tables>, es: seq<Event>, i: nat)
    requires 0 < i <= |es| < |ts|
    ensures AllCareful(ts, es, i) <==> AllCareful(ts, es, i - 1) && CarefulAt(ts, es, i - 1)
  {
  }

  /** Over every run, whatever fails and whatever is changed by hand: nothing is stranded up to i exactly when every event so far was careful. */
  lemma {:induction false} NothingStranded(w: World, ts: seq<Tables>, es: seq<Event>, i: nat)
    requires Run(w, ts, es) && i < |ts|
    ensures NeverStranded(ts, i) <==> AllCareful(ts, es, i)
  {
    if i > 0 {
      NothingStranded(w, ts, es, i - 1);
      OneMoreState(ts, i);
      OneMoreEvent(ts, es, i);
      if NeverStranded(ts, i - 1) {
        AlwaysFiled(w, ts, es, i - 1);
        StepStrandsNone(w, ts[i - 1], ts[i], es[i - 1]);
      }
    }
  }

  // ---- Several consumers ----

  /** A consumer that creates an incident, however long ago it looked, keeps the group to one exactly when it is closed now. */
  lemma LateCreate(w: World, t: Tables, a: Alert)
    requires Grouped(w, t) && Described(w, a)
    ensures var t' := Created(t, a.tenantId, a.fingerprint, KeyOf(w, a.fingerprint));
            (OneOpenPerGroup(t') <==> !GroupIsOpen(t, a.tenantId, KeyOf(w, a.fingerprint))) && (OneOpenPerGroup(t') <==> Grouped(w, t'))
  {
    var key := KeyOf(w, a.fingerprint);
    var t' := Created(t, a.tenantId, a.fingerprint, key);
    if k: nat :| OpenGroupRow(t, a.tenantId, key, k) {
      assert t'.alerts[k] == t.alerts[k] && SameGroup(t'.alerts[k], t'.alerts[|t.alerts|]);
      assert Unresolved(t', t'.alerts[k].incident) && t'.alerts[k].incident != t.nextId;
    } else {
      CreatedKeepsGrouped(w, t, a);
    }
  }

  /** A new incident opens its own group and no other. */
  lemma CreatedOpens(w: World, t: Tables, a: Alert, tenantId: string, key: string)
    requires Grouped(w, t) && Described(w, a)
    ensures GroupIsOpen(Created(t, a.tenantId, a.fingerprint, KeyOf(w, a.fingerprint)), tenantId, key)
            <==> GroupIsOpen(t, tenantId, key) || (tenantId == a.tenantId && key == KeyOf(w, a.fingerprint))
  {
    var t' := Created(t, a.tenantId, a.fingerprint, KeyOf(w, a.fingerprint));
    forall k: nat | k < |t.alerts| ensures OpenGroupRow(t', tenantId, key, k) <==> OpenGroupRow(t, tenantId, key, k) {
      assert t'.alerts[k] == t.alerts[k] && t.alerts[k].incident != t.nextId;
    }
    assert OpenGroupRow(t', a.tenantId, KeyOf(w, a.fingerprint), |t.alerts|);
  }

  /**
   * Two consumers that both found their alert's group closed, and then both create: harmless exactly when the alerts are
   * of different groups.
   */
  lemma RacingConsumers(w: World, t: Tables, a: Alert, b: Alert)
    requires Grouped(w, t) && Described(w, a) && Described(w, b)
    requires !GroupIsOpen(t, a.tenantId, KeyOf(w, a.fingerprint)) && !GroupIsOpen(t, b.tenantId, KeyOf(w, b.fingerprint))
    ensures var t1 := Created(t, a.tenantId, a.fingerprint, KeyOf(w, a.fingerprint));
            var t2 := Created(t1, b.tenantId, b.fingerprint, KeyOf(w, b.fingerprint));
            && FiringStep(w.rules, t, t1, a, a.tenantId, NoFault)
            && FiringStep(w.rules, t, Created(t, b.tenantId, b.fingerprint, KeyOf(w, b.fingerprint)), b, b.tenantId, NoFault)
            && (OneOpenPerGroup(t2) <==> !(a.tenantId == b.tenantId && KeyOf(w, a.fingerprint) == KeyOf(w, b.fingerprint)))
  {
    CreatedKeepsGrouped(w, t, a);
    CreatedOpens(w, t, a, b.tenantId, KeyOf(w, b.fingerprint));
    LateCreate(w, Created(t, a.tenantId, a.fingerprint, KeyOf(w, a.fingerprint)), b);
  }

  /**
   * A consumer that found row k's incident open and attaches to it later, when it may have been closed: grouping survives
   * in any case, and unresolved-iff-firing exactly when the incident is still unresolved.
   */
  lemma LateAttach(w: World, t: Tables, a: Alert, k: nat)
    requires Grouped(w, t) && Described(w, a) && k < |t.alerts|
    requires t.alerts[k].tenantId == a.tenantId && t.alerts[k].groupKey == KeyOf(w, a.fingerprint)
    ensures var t' := Attached(t, t.alerts[k].incident, a.tenantId, a.fingerprint, KeyOf(w, a.fingerprint));
            && Grouped(w, t')
            && (OpenIffFiring(t) ==> (OpenIffFiring(t') <==> Unresolved(t, t.alerts[k].incident)))
            && (NoneStranded(t) ==> NoneStranded(t'))
  {
    var id := t.alerts[k].incident;
    var row := AlertRow(id, a.tenantId, a.fingerprint, KeyOf(w, a.fingerprint), true);
    var t' := Attached(t, id, a.tenantId, a.fingerprint, row.groupKey);
    AppendedFits(w, t, t', row);
    AppendedOneKey(t, t', row);
    LateRowOneOpen(w, t, t', row, k);
    forall i: nat ensures (HasFiring(t', i) <==> HasFiring(t, i) || i == id) && (Unresolved(t', i) <==> Unresolved(t, i)) {
      NewRowFires(t, t', i, row);
    }
  }

  /** A row of a resolved incident, or of the one that is open for the group. */
  lemma LateRowOneOpen(w: World, t: Tables, t': Tables, row: AlertRow, k: nat)
    requires Grouped(w, t) && Appended(t, t', row) && t'.incidents == t.incidents
    requires k < |t.alerts| && t.alerts[k].incident == row.incident && SameGroup(t.alerts[k], row)
    ensures OneOpenPerGroup(t')
  {
    forall j, m | 0 <= j < |t'.alerts| && 0 <= m < |t'.alerts| && SameGroup(t'.alerts[j], t'.alerts[m])
                  && Unresolved(t', t'.alerts[j].incident) && Unresolved(t', t'.alerts[m].incident)
      ensures t'.alerts[j].incident == t'.alerts[m].incident
    {
      var j' := if j < |t.alerts| then j else k;
      var m' := if m < |t.alerts| then m else k;
      assert SameGroup(t.alerts[j'], t.alerts[m']);
    }
  }

  /** A consumer that counted nothing firing and closes later: unresolved-iff-firing survives exactly when nothing has fired since. */
  lemma LateClose(t: Tables, tenantId: string, id: nat, now: int)
    requires forall i: nat | i in t.incidents && i != id :: Unresolved(t, i) <==> HasFiring(t, i)
    requires Unresolved(t, id) && t.incidents[id].tenantId == tenantId
    ensures OpenIffFiring(Closed(t, tenantId, id, now)) <==> !HasFiring(t, id)
  {
    var t' := Closed(t, tenantId, id, now);
    forall i: nat ensures HasFiring(t', i) <==> HasFiring(t, i) {
      SameRowsSameFiring(t, t', i);
    }
  }
}
