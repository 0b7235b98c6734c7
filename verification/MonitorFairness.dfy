/** The monitor's batches of fifty starve no row: how many ticks an expired row can wait (monitor.go). */
module MonitorFairness {
  import opened Escalation
  import opened Escalator

  /** Active rows whose deadline is d or earlier. */
  function Due(states: States, d: int): set<string> {
    set id | id in states && IsExpired(states, d, id)
  }

  /** Timeouts are positive, as the policy handler demands. */
  ghost predicate PositiveTimeouts(policies: map<string, Policy>) {
    forall policyId, t | policyId in policies && t in policies[policyId] :: policies[policyId][t] > 0
  }

  /** A row written by an advance at or after d is not due by d. */
  lemma NextNotDue(policies: map<string, Policy>, policyId: string, row: Row, t: int, d: int)
    requires PositiveTimeouts(policies) && d <= t
    ensures var next := NextRow(PolicyOf(policies, policyId), row, t); !(next.status == Active && next.escalateAt <= d)
  {
    if row.tier + 1 in PolicyOf(policies, policyId) {
      assert policies[policyId][row.tier + 1] > 0;
    }
  }

  lemma AdvancedNotDue(policies: map<string, Policy>, s: StoredState, now: int, s': StoredState, d: int)
    requires PositiveTimeouts(policies) && d <= now && AdvancedAfter(policies, s, now, s')
    ensures !(s'.row.status == Active && s'.row.escalateAt <= d)
  {
    var t :| now <= t && s' == s.(row := NextRow(PolicyOf(policies, s.policyId), s.row, t));
    NextNotDue(policies, s.policyId, s.row, t, d);
  }

  /** A tick that nobody interrupts takes exactly the rows it moved out of the due ones. */
  lemma QuietTickClears(policies: map<string, Policy>, before: States, now: int, moved: set<string>, after: States, d: int)
    requires PositiveTimeouts(policies) && d <= now && Ticked(policies, before, now, moved, after)
    ensures Due(after, d) == Due(before, d) - moved
  {
    forall id | id in before && id in moved ensures id !in Due(after, d) {
      AdvancedNotDue(policies, before[id], now, after[id], d);
    }
  }

  // ---- Ticks that others interrupt ----

  /** Only row id may change. */
  ghost predicate SameElsewhere(before: States, after: States, id: string) {
    forall other | other != id :: (other in after <==> other in before) && (other in before ==> after[other] == before[other])
  }

  /** What other actors do to one row at or after d: advance it, stop it, or create it with a later deadline. */
  ghost predicate OtherAction(policies: map<string, Policy>, before: States, after: States, id: string, d: int) {
    && SameElsewhere(before, after, id) && id in after
    && ((id in before && AdvancedAfter(policies, before[id], d, after[id]))
        || after[id].row.status != Active
        || (id !in before && d < after[id].row.escalateAt))
  }

  /** The monitor's guarded update of a row it listed in `listed`, possibly long ago. */
  ghost predicate OwnAttempt(policies: map<string, Policy>, listed: States, before: States, after: States, id: string, d: int) {
    && SameElsewhere(before, after, id) && id in listed && id in before && id in after
    && if Claimable(before[id].row, listed[id].row.tier) then
         exists t :: d <= t && after[id] == before[id].(row := NextRow(PolicyOf(policies, listed[id].policyId), listed[id].row, t))
       else after[id] == before[id]
  }

  /**
   * The monitor's attempt on a listed row, an action of another actor at or after d, or a stray one, which may leave the row in
   * any state: an action whose clock was read before d, or an attempt that fails.
   */
  datatype Act = Own(id: string) | Other(id: string) | Stray(id: string)

  /** A listing, the table it read, and everything that happened until the next listing. */
  datatype Tick = Tick(now: int, locked: set<string>, batch: seq<string>, acts: seq<Act>, states: seq<States>)

  ghost predicate ActAt(policies: map<string, Policy>, tick: Tick, d: int, k: nat)
    requires k < |tick.acts| && |tick.states| == |tick.acts| + 1
  {
    match tick.acts[k]
    case Own(id) => id in tick.batch && OwnAttempt(policies, tick.states[0], tick.states[k], tick.states[k + 1], id, d)
    case Other(id) => OtherAction(policies, tick.states[k], tick.states[k + 1], id, d)
    case Stray(id) => SameElsewhere(tick.states[k], tick.states[k + 1], id)
  }

  /** The rows that stray actions touched among the first n acts. */
  function StrayRows(tick: Tick, n: nat): set<string>
    requires n <= |tick.acts|
  {
    set a | a in tick.acts[..n] && a.Stray? :: a.id
  }

  /** A tick at or after d; each listed row is tried, or its attempt has failed. */
  ghost predicate Proper(policies: map<string, Policy>, tick: Tick, d: int) {
    && |tick.states| == |tick.acts| + 1 && d <= tick.now
    && EarliestExpired(tick.states[0], tick.now, 50, tick.locked, tick.batch)
    && (forall k: nat | k < |tick.acts| :: ActAt(policies, tick, d, k))
    && (forall id | id in tick.batch :: Own(id) in tick.acts || Stray(id) in tick.acts)
  }

  function Start(tick: Tick): States
    requires tick.states != []
  {
    tick.states[0]
  }

  function End(tick: Tick): States
    requires tick.states != []
  {
    tick.states[|tick.states| - 1]
  }

  /** Nobody makes a row due by d. */
  lemma OthersAddNothingDue(policies: map<string, Policy>, before: States, after: States, id: string, d: int)
    requires PositiveTimeouts(policies) && OtherAction(policies, before, after, id, d)
    ensures Due(after, d) <= Due(before, d) && id !in Due(after, d)
  {
    if id in before && AdvancedAfter(policies, before[id], d, after[id]) {
      AdvancedNotDue(policies, before[id], d, after[id], d);
    }
  }

  /** The attempt on a listed row takes it out of the due ones, unless somebody else already has. */
  lemma OwnAttemptClears(policies: map<string, Policy>, listed: States, before: States, after: States, id: string, d: int)
    requires PositiveTimeouts(policies) && OwnAttempt(policies, listed, before, after, id, d)
    requires (before[id] == listed[id] && listed[id].row.status == Active) || id !in Due(before, d)
    ensures Due(after, d) <= Due(before, d) && id !in Due(after, d)
  {
    if Claimable(before[id].row, listed[id].row.tier) {
      var t :| d <= t && after[id] == before[id].(row := NextRow(PolicyOf(policies, listed[id].policyId), listed[id].row, t));
      NextNotDue(policies, listed[id].policyId, listed[id].row, t, d);
    }
  }

  /** After n acts, stray rows apart: nothing new is due, listed rows are as listed or not due, and the tried ones are not due. */
  ghost predicate Cleared(tick: Tick, d: int, n: nat)
    requires n <= |tick.acts| && |tick.states| == |tick.acts| + 1
  {
    && Due(tick.states[n], d) <= Due(tick.states[0], d) + StrayRows(tick, n)
    && (forall id | id in tick.batch && id !in StrayRows(tick, n) ::
          id in tick.states[0] && id in tick.states[n]
          && (tick.states[n][id] == tick.states[0][id] || id !in Due(tick.states[n], d)))
    && (forall id | Own(id) in tick.acts[..n] && id !in StrayRows(tick, n) :: id !in Due(tick.states[n], d))
  }

  lemma StrayRowsGrow(tick: Tick, n: nat)
    requires 0 < n <= |tick.acts|
    ensures StrayRows(tick, n) == StrayRows(tick, n - 1) + (if tick.acts[n - 1].Stray? then {tick.acts[n - 1].id} else {})
    ensures forall a :: a in tick.acts[..n] <==> a in tick.acts[..n - 1] || a == tick.acts[n - 1]
  {
    assert tick.acts[..n] == tick.acts[..n - 1] + [tick.acts[n - 1]];
  }

  /** An own attempt on a row that a stray action has touched adds nothing to the due rows either. */
  lemma OwnAddsNothingDue(policies: map<string, Policy>, listed: States, before: States, after: States, id: string, d: int)
    requires PositiveTimeouts(policies) && OwnAttempt(policies, listed, before, after, id, d)
    ensures Due(after, d) <= Due(before, d)
  {
    if Claimable(before[id].row, listed[id].row.tier) {
      var t :| d <= t && after[id] == before[id].(row := NextRow(PolicyOf(policies, listed[id].policyId), listed[id].row, t));
      NextNotDue(policies, listed[id].policyId, listed[id].row, t, d);
    }
  }

  lemma OthersKeep(before: States, after: States, id: string, d: int)
    requires SameElsewhere(before, after, id)
    ensures forall other | other != id :: other in Due(after, d) <==> other in Due(before, d)
  {
    forall other | other != id ensures other in Due(after, d) <==> other in Due(before, d) {
      assert other in after <==> other in before;
    }
  }

  lemma OwnClears(policies: map<string, Policy>, tick: Tick, d: int, n: nat, id: string)
    requires PositiveTimeouts(policies) && Proper(policies, tick, d) && 0 < n <= |tick.acts| && Cleared(tick, d, n - 1)
    requires tick.acts[n - 1] == Own(id)
    ensures Cleared(tick, d, n)
  {
    var before, after := tick.states[n - 1], tick.states[n];
    StrayRowsGrow(tick, n);
    assert ActAt(policies, tick, d, n - 1);
    assert IsExpired(tick.states[0], tick.now, id);
    OthersKeep(before, after, id, d);
    OwnAddsNothingDue(policies, tick.states[0], before, after, id, d);
    if id !in StrayRows(tick, n) {
      OwnAttemptClears(policies, tick.states[0], before, after, id, d);
    }
  }

  lemma OtherClears(policies: map<string, Policy>, tick: Tick, d: int, n: nat, id: string)
    requires PositiveTimeouts(policies) && Proper(policies, tick, d) && 0 < n <= |tick.acts| && Cleared(tick, d, n - 1)
    requires tick.acts[n - 1] == Other(id)
    ensures Cleared(tick, d, n)
  {
    StrayRowsGrow(tick, n);
    assert ActAt(policies, tick, d, n - 1);
    OthersKeep(tick.states[n - 1], tick.states[n], id, d);
    OthersAddNothingDue(policies, tick.states[n - 1], tick.states[n], id, d);
  }

  lemma StrayClears(policies: map<string, Policy>, tick: Tick, d: int, n: nat, id: string)
    requires Proper(policies, tick, d) && 0 < n <= |tick.acts| && Cleared(tick, d, n - 1)
    requires tick.acts[n - 1] == Stray(id)
    ensures Cleared(tick, d, n)
  {
    StrayRowsGrow(tick, n);
    assert ActAt(policies, tick, d, n - 1);
    OthersKeep(tick.states[n - 1], tick.states[n], id, d);
    forall other | other in tick.batch && other !in StrayRows(tick, n)
      ensures other in tick.states[n] && tick.states[n][other] == tick.states[n - 1][other]
    {
      assert other !in StrayRows(tick, n - 1);
      assert other in tick.states[n - 1] && other != id;
    }
  }

  lemma ActClears(policies: map<string, Policy>, tick: Tick, d: int, n: nat)
    requires PositiveTimeouts(policies) && Proper(policies, tick, d) && 0 < n <= |tick.acts| && Cleared(tick, d, n - 1)
    ensures Cleared(tick, d, n)
  {
    match tick.acts[n - 1]
    case Own(id) => OwnClears(policies, tick, d, n, id);
    case Other(id) => OtherClears(policies, tick, d, n, id);
    case Stray(id) => StrayClears(policies, tick, d, n, id);
  }

  lemma {:induction false} ActsClear(policies: map<string, Policy>, tick: Tick, d: int, n: nat)
    requires PositiveTimeouts(policies) && Proper(policies, tick, d) && n <= |tick.acts|
    ensures Cleared(tick, d, n)
  {
    if n == 0 {
      assert forall id | id in tick.batch :: IsExpired(tick.states[0], tick.now, id);
    } else {
      ActsClear(policies, tick, d, n - 1);
      ActClears(policies, tick, d, n);
    }
  }

  /** However others interleave with it, a tick takes at least its batch out of the due rows; only stray actions put rows in. */
  lemma TickClearsBatch(policies: map<string, Policy>, tick: Tick, d: int)
    requires PositiveTimeouts(policies) && Proper(policies, tick, d)
    ensures Due(End(tick), d) <= Due(Start(tick), d) - (set id | id in tick.batch) + StrayRows(tick, |tick.acts|)
  {
    ActsClear(policies, tick, d, |tick.acts|);
    assert tick.acts[..|tick.acts|] == tick.acts;
    forall id | Stray(id) in tick.acts ensures id in StrayRows(tick, |tick.acts|) {
      assert Stray(id).Stray? && Stray(id).id == id;
    }
  }

  /** Monitor ticks after instant d, each up to the next. */
  ghost predicate Ticking(policies: map<string, Policy>, ticks: seq<Tick>, d: int) {
    && (forall i | 0 <= i < |ticks| :: Proper(policies, ticks[i], d))
    && (forall i | 0 < i < |ticks| :: Follow(ticks, i))
  }

  ghost predicate Follow(ticks: seq<Tick>, i: int)
    requires 0 < i < |ticks|
  {
    ticks[i - 1].states != [] && ticks[i].states != [] && End(ticks[i - 1]) == Start(ticks[i])
  }

  /** How many rows stray actions touch in the first n ticks. */
  function StrayTotal(ticks: seq<Tick>, n: nat): nat
    requires n <= |ticks|
  {
    if n == 0 then 0 else StrayTotal(ticks, n - 1) + |StrayRows(ticks[n - 1], |ticks[n - 1].acts|)|
  }

  /** Row id is due at the tick's listing, held by no other statement, and not listed. */
  predicate Passes(tick: Tick, id: string, d: int)
    requires tick.states != []
  {
    id in Due(Start(tick), d) && id !in tick.locked && id !in tick.batch
  }

  ghost predicate PassedOverBefore(ticks: seq<Tick>, id: string, d: int, n: nat)
    requires n <= |ticks| && forall i | 0 <= i < |ticks| :: ticks[i].states != []
  {
    forall i | 0 <= i < n :: Passes(ticks[i], id, d)
  }

  lemma {:induction false} SizeOfList(batch: seq<string>)
    requires forall i, j | 0 <= i < j < |batch| :: batch[i] != batch[j]
    ensures |set id | id in batch| == |batch|
  {
    if batch != [] {
      var front := batch[..|batch| - 1];
      var last := batch[|batch| - 1];
      SizeOfList(front);
      assert (set id | id in batch) == (set id | id in front) + {last};
    }
  }

  /** A due row that a tick passes over is behind fifty other due rows. */
  lemma PassedOver(policies: map<string, Policy>, tick: Tick, id: string, d: int)
    requires Proper(policies, tick, d) && Passes(tick, id, d)
    ensures |tick.batch| == 50 && (set other | other in tick.batch) <= Due(Start(tick), d)
  {
  }

  lemma SizeOfDifference<T>(a: set<T>, b: set<T>)
    requires b <= a
    ensures |a - b| == |a| - |b|
  {
    assert a == (a - b) + b;
  }

  lemma SizeOfSubset<T>(a: set<T>, b: set<T>)
    requires a <= b
    ensures |a| <= |b|
  {
    SizeOfDifference(b, a);
  }

  lemma SizeOfUnion<T>(a: set<T>, b: set<T>)
    ensures |a + b| <= |a| + |b|
  {
    assert a + b == a + (b - a);
    SizeOfSubset(b - a, b);
  }

  /** One tick that passes a due row over takes fifty rows out of those due, stray rows apart. */
  lemma TickTakesFifty(policies: map<string, Policy>, tick: Tick, id: string, d: int)
    requires PositiveTimeouts(policies) && Proper(policies, tick, d) && Passes(tick, id, d)
    ensures |Due(End(tick), d)| <= |Due(Start(tick), d)| - 50 + |StrayRows(tick, |tick.acts|)|
    ensures |Due(Start(tick), d)| > 50
  {
    var listed := set other | other in tick.batch;
    var rest := Due(Start(tick), d) - listed;
    PassedOver(policies, tick, id, d);
    SizeOfList(tick.batch);
    TickClearsBatch(policies, tick, d);
    SizeOfDifference(Due(Start(tick), d), listed);
    SizeOfSubset(Due(End(tick), d), rest + StrayRows(tick, |tick.acts|));
    SizeOfUnion(rest, StrayRows(tick, |tick.acts|));
    SizeOfSubset({id}, rest);
  }

  /** While a row is passed over, the rows due shrink by fifty a tick, stray rows apart. */
  lemma {:induction false} BacklogShrinks(policies: map<string, Policy>, ticks: seq<Tick>, id: string, d: int, n: nat)
    requires PositiveTimeouts(policies) && Ticking(policies, ticks, d) && n < |ticks|
    requires PassedOverBefore(ticks, id, d, n)
    ensures |Due(Start(ticks[n]), d)| <= |Due(Start(ticks[0]), d)| - 50 * n + StrayTotal(ticks, n)
    decreases n
  {
    if n > 0 {
      BacklogShrinks(policies, ticks, id, d, n - 1);
      assert Passes(ticks[n - 1], id, d);
      TickTakesFifty(policies, ticks[n - 1], id, d);
      assert Follow(ticks, n);
    }
  }

  lemma {:induction false} StrayGrows(ticks: seq<Tick>, m: nat, n: nat)
    requires m <= n <= |ticks|
    ensures StrayTotal(ticks, m) <= StrayTotal(ticks, n)
    decreases n
  {
    if m < n {
      StrayGrows(ticks, m, n - 1);
    }
  }

  /**
   * No starvation: with c rows due by the row's deadline and e rows touched by stray actions, tick by tick,
   * within ceil((c + e) / 50) ticks the row is listed, unless at one of them another statement is at work on it or another
   * actor has already dealt with it.
   */
  lemma ListedInTime(policies: map<string, Policy>, ticks: seq<Tick>, id: string, d: int, e: nat)
    requires PositiveTimeouts(policies) && Ticking(policies, ticks, d) && ticks != []
    requires id in Due(Start(ticks[0]), d) && StrayTotal(ticks, |ticks|) <= e
    requires |ticks| == (|Due(Start(ticks[0]), d)| + e + 49) / 50
    ensures exists i :: 0 <= i < |ticks| && (id in ticks[i].batch || id in ticks[i].locked || id !in Due(Start(ticks[i]), d))
  {
    if PassedOverBefore(ticks, id, d, |ticks|) {
      var n := |ticks| - 1;
      BacklogShrinks(policies, ticks, id, d, n);
      StrayGrows(ticks, n, |ticks|);
      assert Passes(ticks[n], id, d);
      TickTakesFifty(policies, ticks[n], id, d);
    }
  }
}
