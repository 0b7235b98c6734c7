/**
 * Several consumers at once, every statement of handleFiring and handleResolved a step of its own (incident consumer.go,
 * store.go): consumers that work on different groups do not disturb each other.
 */
module ConsumerRaces {
  import opened Common
  import opened Alerts
  import opened Incidents
  import opened IncidentGrouping

  datatype Proc =
    | Idle
    | Looked(alert: Alert, found: Option<nat>)   // has looked for an open incident of the alert's group
    | Silent(alert: Alert, id: nat)              // has resolved the alert's rows; the count is still to come
    | Counted(alert: Alert, id: nat)             // has counted nothing firing in the incident and is about to close it

  datatype Sys = Sys(t: Tables, procs: map<nat, Proc>)

  /** `row` is the row the database returns first, if any. */
  datatype Step =
    | Look(p: nat, alert: Alert, row: Option<nat>)
    | File(p: nat)
    | Silence(p: nat, alert: Alert, row: Option<nat>)
    | Count(p: nat)
    | Close(p: nat, now: int)
    | Fail(p: nat)

  function ProcOf(s: Sys, p: nat): Proc { if p in s.procs then s.procs[p] else Idle }

  ghost predicate Enabled(w: World, s: Sys, step: Step) {
    match step
    case Look(p, a, row) =>
      ProcOf(s, p).Idle? && Described(w, a) && a.status == Firing
      && if row.Some? then OpenGroupRow(s.t, a.tenantId, KeyOf(w, a.fingerprint), row.value)
         else !GroupIsOpen(s.t, a.tenantId, KeyOf(w, a.fingerprint))
    case File(p) => ProcOf(s, p).Looked?
    case Silence(p, a, row) =>
      ProcOf(s, p).Idle? && Described(w, a) && a.status == Resolved
      && if row.Some? then FiringRow(s.t, a.tenantId, a.fingerprint, row.value)
         else forall k: nat :: !FiringRow(s.t, a.tenantId, a.fingerprint, k)
    case Count(p) => ProcOf(s, p).Silent?
    case Close(p, now) => ProcOf(s, p).Counted?
    case Fail(p) => true
  }

  ghost function Exec(w: World, s: Sys, step: Step): Sys
    requires Enabled(w, s, step)
  {
    match step
    case Look(p, a, row) =>
      s.(procs := s.procs[p := Looked(a, if row.Some? then Some(s.t.alerts[row.value].incident) else None)])
    case File(p) =>
      var q := s.procs[p];
      var key := KeyOf(w, q.alert.fingerprint);
      Sys(if q.found.Some? then Attached(s.t, q.found.value, q.alert.tenantId, q.alert.fingerprint, key)
          else Created(s.t, q.alert.tenantId, q.alert.fingerprint, key),
          s.procs[p := Idle])
    case Silence(p, a, row) =>
      if row.None? then s
      else Sys(Silenced(s.t, a.tenantId, a.fingerprint), s.procs[p := Silent(a, s.t.alerts[row.value].incident)])
    case Count(p) =>
      var q := s.procs[p];
      s.(procs := s.procs[p := if HasFiring(s.t, q.id) then Idle else Counted(q.alert, q.id)])
    case Close(p, now) =>
      var q := s.procs[p];
      Sys(Closed(s.t, q.alert.tenantId, q.id, now), s.procs[p := Idle])
    case Fail(p) => s.(procs := s.procs[p := Idle])
  }

  ghost predicate Run(w: World, states: seq<Sys>, steps: seq<Step>) {
    && |states| == |steps| + 1 && states[0] == Sys(Tables(map[], [], 0), map[])
    && forall i | 0 <= i < |steps| :: Enabled(w, states[i], steps[i]) && states[i + 1] == Exec(w, states[i], steps[i])
  }

  // ---- Undisturbed, the statements of a handler are the handler ----

  lemma FiringInARow(w: World, s: Sys, p: nat, a: Alert, row: Option<nat>)
    requires Enabled(w, s, Look(p, a, row))
    ensures var looked := Exec(w, s, Look(p, a, row));
            Enabled(w, looked, File(p)) && FiringStep(w.rules, s.t, Exec(w, looked, File(p)).t, a, a.tenantId, NoFault)
  {
    var key := KeyOf(w, a.fingerprint);
    assert key == GroupKey(w.rules, a.labels, a.source, a.tenantId);
    assert row.Some? ==> OpenGroupRow(s.t, a.tenantId, key, row.value);
  }

  lemma ResolvedInARow(w: World, s: Sys, p: nat, a: Alert, k: nat, now: int)
    requires Enabled(w, s, Silence(p, a, Some(k)))
    ensures var silent := Exec(w, s, Silence(p, a, Some(k)));
            && Enabled(w, silent, Count(p))
            && var counted := Exec(w, silent, Count(p));
               var after := if counted.procs[p].Idle? then counted else Exec(w, counted, Close(p, now));
               ResolvedStep(s.t, after.t, a, now, HistoryLost)
  {
    var silent := Exec(w, s, Silence(p, a, Some(k)));
    var counted := Exec(w, silent, Count(p));
    var after := if counted.procs[p].Idle? then counted else Exec(w, counted, Close(p, now));
    assert ClosingStep(silent.t, after.t, a.tenantId, s.t.alerts[k].incident, now, HistoryLost);
  }

  // ---- Whose turn it is ----

  predicate SameWork(w: World, a: Alert, b: Alert) {
    a.tenantId == b.tenantId && KeyOf(w, a.fingerprint) == KeyOf(w, b.fingerprint)
  }

  /** No two consumers are at work on one group of one tenant. */
  predicate Exclusive(w: World, s: Sys) {
    forall p, q | p in s.procs && q in s.procs && p != q && !s.procs[p].Idle? && !s.procs[q].Idle? ::
      !SameWork(w, s.procs[p].alert, s.procs[q].alert)
  }

  /** No consumer fails between its two writes. */
  ghost predicate Finishing(s: Sys, step: Step) {
    step.Fail? ==> !ProcOf(s, step.p).Silent? && !ProcOf(s, step.p).Counted?
  }

  // ---- The invariant ----

  /** Incident id is unresolved and of the alert's group. */
  ghost predicate OpenFor(w: World, t: Tables, a: Alert, id: nat) {
    exists k: nat :: OpenGroupRow(t, a.tenantId, KeyOf(w, a.fingerprint), k) && t.alerts[k].incident == id
  }

  /** What a consumer has seen is still so. */
  ghost predicate Agrees(w: World, t: Tables, q: Proc) {
    match q
    case Idle => true
    case Looked(a, found) =>
      Described(w, a) && if found.Some? then OpenFor(w, t, a, found.value) else !GroupIsOpen(t, a.tenantId, KeyOf(w, a.fingerprint))
    case Silent(a, id) => Described(w, a) && OpenFor(w, t, a, id)
    case Counted(a, id) => Described(w, a) && OpenFor(w, t, a, id) && !HasFiring(t, id)
  }

  predicate Closing(q: Proc, id: nat) { (q.Silent? || q.Counted?) && q.id == id }

  /** Only open incidents fire; an open incident with nothing firing is about to be closed. */
  ghost predicate Tended(s: Sys, id: nat) {
    && (HasFiring(s.t, id) ==> Unresolved(s.t, id))
    && (Unresolved(s.t, id) && !HasFiring(s.t, id) ==> exists p :: p in s.procs && Closing(s.procs[p], id))
  }

  ghost predicate Inv(w: World, s: Sys) {
    && Grouped(w, s.t)
    && (forall id: nat | id in s.t.incidents :: Tended(s, id))
    && (forall p | p in s.procs :: Agrees(w, s.t, s.procs[p]))
  }

  // ---- Other groups are not disturbed ----

  /** A row's incident has one group. */
  lemma OpenForOneGroup(w: World, t: Tables, a: Alert, b: Alert, id: nat)
    requires Grouped(w, t) && OpenFor(w, t, a, id) && OpenFor(w, t, b, id)
    ensures SameWork(w, a, b)
  {
    var j: nat :| OpenGroupRow(t, a.tenantId, KeyOf(w, a.fingerprint), j) && t.alerts[j].incident == id;
    var k: nat :| OpenGroupRow(t, b.tenantId, KeyOf(w, b.fingerprint), k) && t.alerts[k].incident == id;
  }

  /** From t to t', nothing becomes true or false for the group of alert b that a consumer at work on b relies on. */
  ghost predicate Undisturbed(w: World, t: Tables, t': Tables, b: Alert) {
    && (GroupIsOpen(t', b.tenantId, KeyOf(w, b.fingerprint)) ==> GroupIsOpen(t, b.tenantId, KeyOf(w, b.fingerprint)))
    && (forall id: nat | OpenFor(w, t, b, id) :: OpenFor(w, t', b, id) && (HasFiring(t', id) ==> HasFiring(t, id)))
  }

  lemma AgreesStill(w: World, t: Tables, t': Tables, q: Proc)
    requires Agrees(w, t, q) && (!q.Idle? ==> Undisturbed(w, t, t', q.alert))
    ensures Agrees(w, t', q)
  {
  }

  lemma CreatedElsewhere(w: World, t: Tables, a: Alert, b: Alert)
    requires Grouped(w, t) && Described(w, a) && !SameWork(w, a, b)
    ensures Undisturbed(w, t, Created(t, a.tenantId, a.fingerprint, KeyOf(w, a.fingerprint)), b)
  {
    var t' := Created(t, a.tenantId, a.fingerprint, KeyOf(w, a.fingerprint));
    CreatedOpens(w, t, a, b.tenantId, KeyOf(w, b.fingerprint));
    forall id: nat | OpenFor(w, t, b, id) ensures OpenFor(w, t', b, id) && (HasFiring(t', id) ==> HasFiring(t, id)) {
      var k: nat :| OpenGroupRow(t, b.tenantId, KeyOf(w, b.fingerprint), k) && t.alerts[k].incident == id;
      assert t'.alerts[k] == t.alerts[k] && OpenGroupRow(t', b.tenantId, KeyOf(w, b.fingerprint), k);
      NewRowFires(t, t', id, t'.alerts[|t.alerts|]);
    }
  }

  lemma AttachedElsewhere(w: World, t: Tables, a: Alert, b: Alert, id: nat)
    requires Grouped(w, t) && Described(w, a) && OpenFor(w, t, a, id) && !SameWork(w, a, b)
    ensures Undisturbed(w, t, Attached(t, id, a.tenantId, a.fingerprint, KeyOf(w, a.fingerprint)), b)
  {
    var t' := Attached(t, id, a.tenantId, a.fingerprint, KeyOf(w, a.fingerprint));
    if k: nat :| OpenGroupRow(t', b.tenantId, KeyOf(w, b.fingerprint), k) {
      assert k < |t.alerts| && t'.alerts[k] == t.alerts[k];
      assert OpenGroupRow(t, b.tenantId, KeyOf(w, b.fingerprint), k);
    }
    forall i: nat | OpenFor(w, t, b, i) ensures OpenFor(w, t', b, i) && (HasFiring(t', i) ==> HasFiring(t, i)) {
      var k: nat :| OpenGroupRow(t, b.tenantId, KeyOf(w, b.fingerprint), k) && t.alerts[k].incident == i;
      assert t'.alerts[k] == t.alerts[k] && OpenGroupRow(t', b.tenantId, KeyOf(w, b.fingerprint), k);
      if i == id {
        OpenForOneGroup(w, t, a, b, id);
      }
      NewRowFires(t, t', i, t'.alerts[|t.alerts|]);
    }
  }

  lemma SilencedElsewhere(w: World, t: Tables, a: Alert, b: Alert)
    ensures Undisturbed(w, t, Silenced(t, a.tenantId, a.fingerprint), b)
  {
    var t' := Silenced(t, a.tenantId, a.fingerprint);
    forall k: nat ensures OpenGroupRow(t', b.tenantId, KeyOf(w, b.fingerprint), k) <==> OpenGroupRow(t, b.tenantId, KeyOf(w, b.fingerprint), k) {
    }
    forall id: nat ensures HasFiring(t', id) ==> HasFiring(t, id) {
      if k: nat :| IsFiring(t', id, k) {
        assert IsFiring(t, id, k);
      }
    }
    forall id: nat | OpenFor(w, t, b, id) ensures OpenFor(w, t', b, id) {
      var k: nat :| OpenGroupRow(t, b.tenantId, KeyOf(w, b.fingerprint), k) && t.alerts[k].incident == id;
      assert OpenGroupRow(t', b.tenantId, KeyOf(w, b.fingerprint), k) && t'.alerts[k].incident == id;
    }
  }

  lemma ClosedElsewhere(w: World, t: Tables, a: Alert, b: Alert, id: nat, now: int)
    requires Grouped(w, t) && OpenFor(w, t, a, id) && !SameWork(w, a, b)
    ensures Undisturbed(w, t, Closed(t, a.tenantId, id, now), b)
  {
    var t' := Closed(t, a.tenantId, id, now);
    if k: nat :| OpenGroupRow(t', b.tenantId, KeyOf(w, b.fingerprint), k) {
      assert OpenGroupRow(t, b.tenantId, KeyOf(w, b.fingerprint), k);
    }
    forall i: nat | OpenFor(w, t, b, i) ensures OpenFor(w, t', b, i) && (HasFiring(t', i) ==> HasFiring(t, i)) {
      var k: nat :| OpenGroupRow(t, b.tenantId, KeyOf(w, b.fingerprint), k) && t.alerts[k].incident == i;
      if i == id {
        OpenForOneGroup(w, t, a, b, id);
      }
      assert OpenGroupRow(t', b.tenantId, KeyOf(w, b.fingerprint), k);
      SameRowsSameFiring(t, t', i);
    }
  }

  // ---- Each step keeps the invariant ----

  /** Process p has moved on; every other consumer was undisturbed. */
  lemma OthersAgree(w: World, s: Sys, s': Sys, p: nat)
    requires p in s'.procs && s'.procs == s.procs[p := s'.procs[p]]
    requires forall r | r in s.procs :: Agrees(w, s.t, s.procs[r])
    requires forall r | r in s.procs && r != p && !s.procs[r].Idle? :: Undisturbed(w, s.t, s'.t, s.procs[r].alert)
    requires Agrees(w, s'.t, s'.procs[p])
    ensures forall r | r in s'.procs :: Agrees(w, s'.t, s'.procs[r])
  {
    forall r | r in s'.procs ensures Agrees(w, s'.t, s'.procs[r]) {
      if r != p {
        AgreesStill(w, s.t, s'.t, s.procs[r]);
      }
    }
  }

  /** An incident that nothing touched is as tended as before, if p was not the one to close it or still is. */
  lemma StillTended(s: Sys, s': Sys, id: nat, p: nat)
    requires Tended(s, id) && (HasFiring(s'.t, id) <==> HasFiring(s.t, id)) && (Unresolved(s'.t, id) <==> Unresolved(s.t, id))
    requires forall r | r in s.procs && r != p :: r in s'.procs && s'.procs[r] == s.procs[r]
    requires Closing(ProcOf(s, p), id) ==> Closing(ProcOf(s', p), id) || HasFiring(s'.t, id)
    ensures Tended(s', id)
  {
    if Unresolved(s'.t, id) && !HasFiring(s'.t, id) {
      var r :| r in s.procs && Closing(s.procs[r], id);
      assert r in s'.procs && Closing(s'.procs[r], id);
    }
  }

  lemma FileKeepsInv(w: World, s: Sys, p: nat)
    requires Inv(w, s) && Exclusive(w, s) && Enabled(w, s, File(p))
    ensures Inv(w, Exec(w, s, File(p)))
  {
    var s' := Exec(w, s, File(p));
    var q := s.procs[p];
    var row := s'.t.alerts[|s.t.alerts|];
    assert Agrees(w, s.t, q);
    if q.found.Some? {
      var k: nat :| OpenGroupRow(s.t, q.alert.tenantId, KeyOf(w, q.alert.fingerprint), k) && s.t.alerts[k].incident == q.found.value;
      AttachedKeepsGrouped(w, s.t, q.alert, k);
    } else {
      CreatedKeepsGrouped(w, s.t, q.alert);
    }
    forall r | r in s.procs && r != p && !s.procs[r].Idle? ensures Undisturbed(w, s.t, s'.t, s.procs[r].alert) {
      if q.found.Some? {
        AttachedElsewhere(w, s.t, q.alert, s.procs[r].alert, q.found.value);
      } else {
        CreatedElsewhere(w, s.t, q.alert, s.procs[r].alert);
      }
    }
    OthersAgree(w, s, s', p);
    forall id: nat | id in s'.t.incidents ensures Tended(s', id) {
      NewRowFires(s.t, s'.t, id, row);
      if id != row.incident {
        StillTended(s, s', id, p);
      }
    }
  }

  /** All firing rows of one fingerprint sit in one incident. */
  lemma OneIncidentFires(w: World, s: Sys, a: Alert, j: nat, k: nat)
    requires Inv(w, s) && FiringRow(s.t, a.tenantId, a.fingerprint, j) && FiringRow(s.t, a.tenantId, a.fingerprint, k)
    ensures s.t.alerts[j].incident == s.t.alerts[k].incident && Unresolved(s.t, s.t.alerts[k].incident)
  {
    assert IsFiring(s.t, s.t.alerts[j].incident, j) && IsFiring(s.t, s.t.alerts[k].incident, k);
    assert Tended(s, s.t.alerts[j].incident) && Tended(s, s.t.alerts[k].incident);
    assert SameGroup(s.t.alerts[j], s.t.alerts[k]);
  }

  lemma SilencedTended(w: World, s: Sys, s': Sys, p: nat, a: Alert, k: nat, id: nat)
    requires Inv(w, s) && Enabled(w, s, Silence(p, a, Some(k))) && s' == Exec(w, s, Silence(p, a, Some(k))) && id in s.t.incidents
    ensures Tended(s', id)
  {
    var chosen := s.t.alerts[k].incident;
    OneIncidentFires(w, s, a, k, k);
    SilencedFiring(s.t, a, id);
    if id == chosen {
      assert Closing(s'.procs[p], id);
    } else {
      if j: nat :| IsFiring(s.t, id, j) {
        if FiringRow(s.t, a.tenantId, a.fingerprint, j) {
          OneIncidentFires(w, s, a, j, k);
        }
        assert OtherFiring(s.t, id, a);
      }
      StillTended(s, s', id, p);
    }
  }

  lemma SilenceKeepsInv(w: World, s: Sys, p: nat, a: Alert, k: nat)
    requires Inv(w, s) && Enabled(w, s, Silence(p, a, Some(k)))
    ensures Inv(w, Exec(w, s, Silence(p, a, Some(k))))
  {
    var s' := Exec(w, s, Silence(p, a, Some(k)));
    OneIncidentFires(w, s, a, k, k);
    CalmerKeepsGrouped(w, s.t, s'.t);
    forall r | r in s.procs && r != p && !s.procs[r].Idle? ensures Undisturbed(w, s.t, s'.t, s.procs[r].alert) {
      SilencedElsewhere(w, s.t, a, s.procs[r].alert);
    }
    assert OpenGroupRow(s'.t, a.tenantId, KeyOf(w, a.fingerprint), k);
    OthersAgree(w, s, s', p);
    forall id: nat | id in s'.t.incidents ensures Tended(s', id) {
      SilencedTended(w, s, s', p, a, k, id);
    }
  }

  lemma CountKeepsInv(w: World, s: Sys, p: nat)
    requires Inv(w, s) && Enabled(w, s, Count(p))
    ensures Inv(w, Exec(w, s, Count(p)))
  {
    var s' := Exec(w, s, Count(p));
    assert Agrees(w, s.t, s.procs[p]);
    forall id: nat | id in s'.t.incidents ensures Tended(s', id) {
      StillTended(s, s', id, p);
    }
  }

  lemma CloseTended(w: World, s: Sys, p: nat, now: int, id: nat)
    requires Inv(w, s) && Enabled(w, s, Close(p, now)) && id in s.t.incidents
    ensures Tended(Exec(w, s, Close(p, now)), id)
  {
    var s' := Exec(w, s, Close(p, now));
    var q := s.procs[p];
    assert Agrees(w, s.t, q);
    SameRowsSameFiring(s.t, s'.t, id);
    if id != q.id {
      StillTended(s, s', id, p);
    }
  }

  lemma CloseKeepsInv(w: World, s: Sys, p: nat, now: int)
    requires Inv(w, s) && Exclusive(w, s) && Enabled(w, s, Close(p, now))
    ensures Inv(w, Exec(w, s, Close(p, now)))
  {
    var s' := Exec(w, s, Close(p, now));
    var q := s.procs[p];
    assert Agrees(w, s.t, q);
    CalmerKeepsGrouped(w, s.t, s'.t);
    forall r | r in s.procs && r != p && !s.procs[r].Idle? ensures Undisturbed(w, s.t, s'.t, s.procs[r].alert) {
      ClosedElsewhere(w, s.t, q.alert, s.procs[r].alert, q.id, now);
    }
    OthersAgree(w, s, s', p);
    forall id: nat | id in s'.t.incidents ensures Tended(s', id) {
      CloseTended(w, s, p, now, id);
    }
  }

  /** A step that leaves the tables alone and starts or ends a consumer's work without an incident to close. */
  lemma QuietKeepsInv(w: World, s: Sys, p: nat, q: Proc)
    requires Inv(w, s) && Agrees(w, s.t, q) && !ProcOf(s, p).Silent? && !ProcOf(s, p).Counted?
    ensures Inv(w, s.(procs := s.procs[p := q]))
  {
    var s' := s.(procs := s.procs[p := q]);
    forall id: nat | id in s'.t.incidents ensures Tended(s', id) {
      StillTended(s, s', id, p);
    }
  }

  lemma StepKeepsInv(w: World, s: Sys, step: Step)
    requires Inv(w, s) && Exclusive(w, s) && Enabled(w, s, step) && Finishing(s, step)
    ensures Inv(w, Exec(w, s, step))
  {
    match step
    case Look(p, a, row) => QuietKeepsInv(w, s, p, Exec(w, s, step).procs[p]);
    case File(p) => FileKeepsInv(w, s, p);
    case Silence(p, a, row) =>
      if row.Some? {
        SilenceKeepsInv(w, s, p, a, row.value);
      }
    case Count(p) => CountKeepsInv(w, s, p);
    case Close(p, now) => CloseKeepsInv(w, s, p, now);
    case Fail(p) => QuietKeepsInv(w, s, p, Idle);
  }

  lemma {:induction false} RunInv(w: World, states: seq<Sys>, steps: seq<Step>, i: nat)
    requires Run(w, states, steps) && i < |states|
    requires forall j | 0 <= j < |steps| :: Exclusive(w, states[j]) && Finishing(states[j], steps[j])
    ensures Inv(w, states[i])
  {
    if i > 0 {
      RunInv(w, states, steps, i - 1);
      StepKeepsInv(w, states[i - 1], steps[i - 1]);
    }
  }

  /**
   * Any number of consumers, interleaved statement by statement, none of them failing between its two writes and no two at
   * work on one group of a tenant at one time: grouping holds throughout, only open incidents fire, an open incident
   * with nothing firing is about to be closed, and whenever all are idle an incident is unresolved exactly when it has a
   * firing alert.
   */
  lemma DisjointGroupsKeepInv(w: World, states: seq<Sys>, steps: seq<Step>, i: nat)
    requires Run(w, states, steps) && i < |states|
    requires forall j | 0 <= j < |steps| :: Exclusive(w, states[j]) && Finishing(states[j], steps[j])
    ensures OneKeyEach(states[i].t) && OneOpenPerGroup(states[i].t)
    ensures forall id: nat | id in states[i].t.incidents :: Tended(states[i], id)
    ensures (forall p | p in states[i].procs :: states[i].procs[p].Idle?) ==> OpenIffFiring(states[i].t)
  {
    RunInv(w, states, steps, i);
    assert forall id: nat | id in states[i].t.incidents :: Tended(states[i], id);
  }
}
