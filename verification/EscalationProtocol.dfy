/**
 * Several monitor workers, manual escalations and Stop calls on one escalation row, every database
 * statement a step of its own (escalator.go, store.go). `claims`, `writes` and `exhaustions` record
 * what was committed; they guide no step.
 */
module EscalationProtocol {
  import opened Common
  import opened Escalation

  datatype Proc =
    | Idle
    | Ready(snap: Row, timedOut: bool)                 // has read the row; timedOut when the monitor did
    | Prepared(snap: Row, next: Row, timedOut: bool)   // has looked up the next tier and read the clock
    | WonTier(tier: int)                               // has claimed a tier; its event is still to publish
    | WonExhaustion                                    // has exhausted the row; its event is still to publish
    | StopReady(snap: Row, reason: Status)             // Stop has read an active row

  datatype Sys = Sys(
    row: Row, clock: int, procs: map<nat, Proc>,
    triggered: seq<int>, exhaustedEvents: nat,
    claims: seq<Row>, writes: nat, exhaustions: nat)

  datatype Step =
    | Tick(to: int)
    | ReadExpired(p: nat)
    | ReadManual(p: nat)
    | Prepare(p: nat)
    | Commit(p: nat)
    | CommitFails(p: nat)
    | Publish(p: nat, ok: bool)
    | ReadStop(p: nat, reason: Status)
    | WriteStop(p: nat, at: int)
    | Crash(p: nat)

  function ProcOf(s: Sys, p: nat): Proc { if p in s.procs then s.procs[p] else Idle }

  predicate Enabled(s: Sys, step: Step) {
    match step
    case Tick(to) => s.clock <= to
    case ReadExpired(p) => ProcOf(s, p).Idle? && s.row.status == Active && s.row.escalateAt <= s.clock
    case ReadManual(p) => ProcOf(s, p).Idle? && s.row.status == Active
    case Prepare(p) => ProcOf(s, p).Ready?
    case Commit(p) => ProcOf(s, p).Prepared?
    case CommitFails(p) => ProcOf(s, p).Prepared?
    case Publish(p, ok) => ProcOf(s, p).WonTier? || ProcOf(s, p).WonExhaustion?
    case ReadStop(p, reason) => ProcOf(s, p).Idle? && s.row.status == Active && (reason == Acknowledged || reason == Resolved)
    case WriteStop(p, at) => ProcOf(s, p).StopReady? && at <= s.clock
    case Crash(p) => true
  }

  /** The conditional update of p finds the row as expected. */
  predicate Wins(s: Sys, p: nat) {
    ProcOf(s, p).Prepared? && Claimable(s.row, ProcOf(s, p).snap.tier)
  }

  function Exec(policy: Policy, s: Sys, step: Step): Sys
    requires Enabled(s, step)
  {
    match step
    case Tick(to) => s.(clock := to)
    case ReadExpired(p) => s.(procs := s.procs[p := Ready(s.row, true)])
    case ReadManual(p) => s.(procs := s.procs[p := Ready(s.row, false)])
    case Prepare(p) =>
      var q := s.procs[p];
      s.(procs := s.procs[p := Prepared(q.snap, NextRow(policy, q.snap, s.clock), q.timedOut)])
    case Commit(p) =>
      var q := s.procs[p];
      if !Wins(s, p) then s.(procs := s.procs[p := Idle])
      else if q.next.status == Active then
        s.(row := q.next, writes := s.writes + 1, claims := s.claims + [q.next], procs := s.procs[p := WonTier(q.next.tier)])
      else
        s.(row := q.next, writes := s.writes + 1, exhaustions := s.exhaustions + 1, procs := s.procs[p := WonExhaustion])
    case CommitFails(p) => s.(procs := s.procs[p := Idle])
    case Publish(p, ok) =>
      var done := s.(procs := s.procs[p := Idle]);
      if !ok then done
      else if s.procs[p].WonTier? then done.(triggered := s.triggered + [s.procs[p].tier])
      else done.(exhaustedEvents := s.exhaustedEvents + 1)
    case ReadStop(p, reason) => s.(procs := s.procs[p := StopReady(s.row, reason)])
    case WriteStop(p, at) =>
      var q := s.procs[p];
      s.(row := Row(q.snap.tier, q.reason, at), writes := s.writes + 1, procs := s.procs[p := Idle])
    case Crash(p) => s.(procs := s.procs[p := Idle])
  }

  /** AssignPolicy has created the row at the policy's lowest tier, by the clock of this state, and is about to trigger it. */
  ghost predicate Init(policy: Policy, low: int, s: Sys) {
    && low in policy && (forall t | t in policy :: low <= t)
    && s.row == Row(low, Active, s.clock + policy[low] * SECOND)
    && s.procs == map[0 := WonTier(low)]
    && s.triggered == [] && s.exhaustedEvents == 0
    && s.claims == [s.row] && s.writes == 1 && s.exhaustions == 0
  }

  /** A run: one state before each step and one after the last. */
  ghost predicate Run(policy: Policy, low: int, states: seq<Sys>, steps: seq<Step>) {
    && |states| == |steps| + 1
    && Init(policy, low, states[0])
    && forall i | 0 <= i < |steps| :: Enabled(states[i], steps[i]) && states[i + 1] == Exec(policy, states[i], steps[i])
  }

  // ---- The invariant ----

  /** The claimed tiers are low, low + 1, ..., each a tier of the policy. */
  ghost predicate ClaimsRun(policy: Policy, low: int, s: Sys) {
    && s.claims != []
    && forall i | 0 <= i < |s.claims| :: s.claims[i].tier == low + i && s.claims[i].status == Active && s.claims[i].tier in policy
  }

  /** An active row is the last claim and nothing else was ever written; exhaustion happens once, at the end of the chain. */
  ghost predicate RowAgrees(policy: Policy, low: int, s: Sys) {
    && low <= s.row.tier < low + |s.claims|
    && (s.row.status == Active ==> s.row == s.claims[|s.claims| - 1] && s.writes == |s.claims| && s.exhaustions == 0)
    && s.exhaustions <= 1
    && (s.exhaustions == 1 ==> low + |s.claims| !in policy)
  }

  ghost predicate SnapAgrees(low: int, s: Sys, snap: Row) {
    low <= snap.tier < low + |s.claims| && snap == s.claims[snap.tier - low]
  }

  ghost predicate NextAgrees(policy: Policy, snap: Row, next: Row) {
    if snap.tier + 1 in policy then next.tier == snap.tier + 1 && next.status == Active
    else next.tier == snap.tier && next.status == Exhausted
  }

  ghost predicate ProcAgrees(policy: Policy, low: int, s: Sys, q: Proc) {
    match q
    case Idle => true
    case Ready(snap, timedOut) => SnapAgrees(low, s, snap) && (timedOut ==> snap.escalateAt <= s.clock)
    case Prepared(snap, next, timedOut) =>
      SnapAgrees(low, s, snap) && NextAgrees(policy, snap, next) && (timedOut ==> snap.escalateAt <= s.clock)
    case WonTier(t) => low <= t < low + |s.claims| && t !in s.triggered
    case WonExhaustion => s.exhaustions == 1 && s.exhaustedEvents == 0
    case StopReady(snap, reason) => SnapAgrees(low, s, snap) && (reason == Acknowledged || reason == Resolved)
  }

  /** Every pending or published event stands for a claim of its own. */
  ghost predicate EventsOnce(low: int, s: Sys) {
    && (forall i, j | 0 <= i < j < |s.triggered| :: s.triggered[i] != s.triggered[j])
    && (forall t | t in s.triggered :: low <= t < low + |s.claims|)
    && s.exhaustedEvents <= s.exhaustions
    && PendingDistinct(s.procs)
  }

  ghost predicate PendingDistinct(procs: map<nat, Proc>) {
    forall p, q | p in procs && q in procs && p != q && procs[p] == procs[q] ::
      !procs[p].WonTier? && !procs[p].WonExhaustion?
  }

  lemma UnwonKeepsDistinct(procs: map<nat, Proc>, p: nat, q: Proc)
    requires PendingDistinct(procs) && !q.WonTier? && !q.WonExhaustion?
    ensures PendingDistinct(procs[p := q])
  {
    var procs' := procs[p := q];
    forall i, j | i in procs' && j in procs' && i != j && procs'[i] == procs'[j]
      ensures !procs'[i].WonTier? && !procs'[i].WonExhaustion?
    {
      if i != p && j != p {
        assert procs[i] == procs[j];
      }
    }
  }

  ghost predicate Inv(policy: Policy, low: int, s: Sys) {
    && ClaimsRun(policy, low, s)
    && RowAgrees(policy, low, s)
    && (forall p | p in s.procs :: ProcAgrees(policy, low, s, s.procs[p]))
    && EventsOnce(low, s)
  }

  lemma InitInv(policy: Policy, low: int, s: Sys)
    requires Init(policy, low, s)
    ensures Inv(policy, low, s)
  {
  }

  /** The step of a winning worker that claims a tier. */
  lemma ClaimKeepsInv(policy: Policy, low: int, s: Sys, p: nat)
    requires Inv(policy, low, s) && Wins(s, p) && s.procs[p].next.status == Active
    ensures Inv(policy, low, Exec(policy, s, Commit(p)))
    ensures s.procs[p].snap == s.row
  {
    var s' := Exec(policy, s, Commit(p));
    assert ProcAgrees(policy, low, s, s.procs[p]);
    forall q | q in s'.procs ensures ProcAgrees(policy, low, s', s'.procs[q]) {
      if q != p {
        assert ProcAgrees(policy, low, s, s.procs[q]);
      }
    }
  }

  lemma ExhaustKeepsInv(policy: Policy, low: int, s: Sys, p: nat)
    requires Inv(policy, low, s) && Wins(s, p) && s.procs[p].next.status != Active
    ensures Inv(policy, low, Exec(policy, s, Commit(p)))
    ensures s.procs[p].snap == s.row
  {
    var s' := Exec(policy, s, Commit(p));
    assert ProcAgrees(policy, low, s, s.procs[p]);
    forall q | q in s'.procs ensures ProcAgrees(policy, low, s', s'.procs[q]) {
      if q != p {
        assert ProcAgrees(policy, low, s, s.procs[q]);
      }
    }
  }

  lemma PublishKeepsInv(policy: Policy, low: int, s: Sys, p: nat, ok: bool)
    requires Inv(policy, low, s) && Enabled(s, Publish(p, ok))
    ensures Inv(policy, low, Exec(policy, s, Publish(p, ok)))
  {
    var s' := Exec(policy, s, Publish(p, ok));
    assert ProcAgrees(policy, low, s, s.procs[p]);
    assert EventsOnce(low, s') by {
      UnwonKeepsDistinct(s.procs, p, Idle);
      forall i, j | 0 <= i < j < |s'.triggered| ensures s'.triggered[i] != s'.triggered[j] {
        if j == |s.triggered| {
          assert s'.triggered[i] in s.triggered;
        }
      }
    }
    forall q | q in s'.procs ensures ProcAgrees(policy, low, s', s'.procs[q]) {
      if q != p {
        assert ProcAgrees(policy, low, s, s.procs[q]);
        assert s.procs[p] != s.procs[q];
      }
    }
    assert s'.claims == s.claims && s'.row == s.row;
  }

  lemma StopKeepsInv(policy: Policy, low: int, s: Sys, p: nat, at: int)
    requires Inv(policy, low, s) && Enabled(s, WriteStop(p, at))
    ensures Inv(policy, low, Exec(policy, s, WriteStop(p, at)))
  {
    var s' := Exec(policy, s, WriteStop(p, at));
    UnwonKeepsDistinct(s.procs, p, Idle);
    assert ProcAgrees(policy, low, s, s.procs[p]);
    forall q | q in s'.procs ensures ProcAgrees(policy, low, s', s'.procs[q]) {
      if q != p {
        assert ProcAgrees(policy, low, s, s.procs[q]);
      }
    }
  }

  /** Steps that touch only the clock and one process. */
  lemma LocalKeepsInv(policy: Policy, low: int, s: Sys, step: Step)
    requires Inv(policy, low, s) && Enabled(s, step)
    requires step.Tick? || step.ReadExpired? || step.ReadManual? || step.Prepare? || step.CommitFails? || step.ReadStop?
             || step.Crash? || (step.Commit? && !Wins(s, step.p))
    ensures Inv(policy, low, Exec(policy, s, step))
  {
    var s' := Exec(policy, s, step);
    if !step.Tick? {
      var q := s'.procs[step.p];
      assert s'.procs == s.procs[step.p := q];
      UnwonKeepsDistinct(s.procs, step.p, q);
    }
    if step.Prepare? {
      assert ProcAgrees(policy, low, s, s.procs[step.p]);
    }
    forall q | q in s'.procs ensures ProcAgrees(policy, low, s', s'.procs[q]) {
      if q in s.procs {
        assert ProcAgrees(policy, low, s, s.procs[q]);
      }
    }
  }

  /** Every step of every process keeps the invariant. */
  lemma NextKeepsInv(policy: Policy, low: int, s: Sys, step: Step)
    requires Inv(policy, low, s) && Enabled(s, step)
    ensures Inv(policy, low, Exec(policy, s, step))
  {
    if step.Commit? && Wins(s, step.p) {
      if s.procs[step.p].next.status == Active {
        ClaimKeepsInv(policy, low, s, step.p);
      } else {
        ExhaustKeepsInv(policy, low, s, step.p);
      }
    } else if step.Publish? {
      PublishKeepsInv(policy, low, s, step.p, step.ok);
    } else if step.WriteStop? {
      StopKeepsInv(policy, low, s, step.p, step.at);
    } else {
      LocalKeepsInv(policy, low, s, step);
    }
  }

  lemma {:induction false} RunInv(policy: Policy, low: int, states: seq<Sys>, steps: seq<Step>, i: nat)
    requires Run(policy, low, states, steps) && i < |states|
    ensures Inv(policy, low, states[i])
  {
    if i == 0 {
      InitInv(policy, low, states[0]);
    } else {
      RunInv(policy, low, states, steps, i - 1);
      NextKeepsInv(policy, low, states[i - 1], steps[i - 1]);
    }
  }

  // ---- Safety over runs ----

  /**
   * At every point of every run: the claimed tiers are a gapless run from the policy's lowest tier, each claimed
   * once; no tier has two triggered events and none unclaimed has one; exhaustion is committed and announced at
   * most once, only at the end of the chain.
   */
  lemma ClaimsAndEventsOnce(policy: Policy, low: int, states: seq<Sys>, steps: seq<Step>, i: nat)
    requires Run(policy, low, states, steps) && i < |states|
    ensures var s := states[i];
            && (forall k | 0 <= k < |s.claims| :: s.claims[k].tier == low + k && s.claims[k].tier in policy)
            && (forall j, k | 0 <= j < k < |s.triggered| :: s.triggered[j] != s.triggered[k])
            && (forall t | t in s.triggered :: low <= t < low + |s.claims|)
            && s.exhaustedEvents <= s.exhaustions <= 1
            && (s.exhaustions == 1 ==> low + |s.claims| !in policy && s.row.status != Active)
  {
    RunInv(policy, low, states, steps, i);
  }

  /** A row that has left `active` never becomes active again. */
  lemma {:induction false} InactiveAbsorbs(policy: Policy, low: int, states: seq<Sys>, steps: seq<Step>, i: nat, j: nat)
    requires Run(policy, low, states, steps) && i <= j < |states|
    requires states[i].row.status != Active
    ensures states[j].row.status != Active
    decreases j
  {
    if i < j {
      InactiveAbsorbs(policy, low, states, steps, i, j - 1);
      RunInv(policy, low, states, steps, j - 1);
      if steps[j - 1].WriteStop? {
        assert ProcAgrees(policy, low, states[j - 1], states[j - 1].procs[steps[j - 1].p]);
      }
    }
  }

  /** The row changes only by a counted write. */
  lemma {:induction false} WritesCount(policy: Policy, low: int, states: seq<Sys>, steps: seq<Step>, i: nat, j: nat)
    requires Run(policy, low, states, steps) && i <= j < |states|
    ensures states[i].writes <= states[j].writes
    ensures states[i].writes == states[j].writes ==> states[i].row == states[j].row
    ensures states[i].clock <= states[j].clock
    decreases j
  {
    if i < j {
      WritesCount(policy, low, states, steps, i, j - 1);
    }
  }

  predicate Reads(step: Step, p: nat) { step == ReadExpired(p) || step == ReadManual(p) }

  /** Between its read and its commit, a worker does nothing but prepare. */
  ghost predicate OneAttempt(steps: seq<Step>, p: nat, i: nat, j: nat) {
    && i < j < |steps| && Reads(steps[i], p) && steps[j] == Commit(p)
    && forall k | i < k < j && !steps[k].Tick? && steps[k].p == p :: steps[k] == Prepare(p)
  }

  /** Until the commit, the worker's snapshot is the row it read. */
  lemma {:induction false} SnapshotKept(policy: Policy, low: int, states: seq<Sys>, steps: seq<Step>, p: nat, i: nat, j: nat, k: nat)
    requires Run(policy, low, states, steps) && OneAttempt(steps, p, i, j) && i < k <= j
    ensures var q := ProcOf(states[k], p);
            (q.Ready? || q.Prepared?) && q.snap == states[i].row && (q.timedOut <==> steps[i] == ReadExpired(p))
    decreases k
  {
    if k > i + 1 {
      SnapshotKept(policy, low, states, steps, p, i, j, k - 1);
      assert steps[k - 1].Tick? || steps[k - 1].p != p || steps[k - 1] == Prepare(p);
    }
  }

  /**
   * No ABA: when a worker's conditional update succeeds, the row has not changed at any moment since that worker
   * read it, whatever other workers, manual escalations and stale Stop writes did in between.
   */
  lemma CommitMeansUnchanged(policy: Policy, low: int, states: seq<Sys>, steps: seq<Step>, p: nat, i: nat, j: nat, k: nat)
    requires Run(policy, low, states, steps) && OneAttempt(steps, p, i, j) && Wins(states[j], p)
    requires i <= k <= j
    ensures states[k].row == states[i].row
  {
    RunInv(policy, low, states, steps, i);
    RunInv(policy, low, states, steps, j);
    SnapshotKept(policy, low, states, steps, p, i, j, j);
    assert ProcAgrees(policy, low, states[j], states[j].procs[p]);
    assert states[i].row == states[j].row;
    assert states[i].writes == |states[i].claims| == states[i].row.tier - low + 1 == |states[j].claims| == states[j].writes;
    WritesCount(policy, low, states, steps, i, k);
    WritesCount(policy, low, states, steps, k, j);
  }

  // ---- Deadlines over runs ----

  /** What a worker is about to write was computed by the clock at its Prepare. */
  lemma {:induction false} PlanClock(policy: Policy, low: int, states: seq<Sys>, steps: seq<Step>, p: nat, j: nat) returns (k: nat)
    requires Run(policy, low, states, steps) && j < |states| && ProcOf(states[j], p).Prepared?
    ensures k < j && steps[k] == Prepare(p)
    ensures var q := ProcOf(states[j], p); q.next == NextRow(policy, q.snap, states[k].clock)
    ensures forall m | k < m < j && !steps[m].Tick? :: steps[m].p != p
    decreases j
  {
    if steps[j - 1] == Prepare(p) {
      k := j - 1;
    } else {
      k := PlanClock(policy, low, states, steps, p, j - 1);
    }
  }

  /**
   * What a winning attempt writes: the next tier, due its timeout in seconds after the clock at the attempt's Prepare; or
   * exhaustion, stamped with that clock, when the policy has no such tier.
   */
  lemma WinnerWrites(policy: Policy, low: int, states: seq<Sys>, steps: seq<Step>, p: nat, i: nat, j: nat) returns (k: nat)
    requires Run(policy, low, states, steps) && OneAttempt(steps, p, i, j) && Wins(states[j], p)
    ensures i < k < j && steps[k] == Prepare(p)
    ensures var t := states[i].row.tier + 1;
            states[j + 1].row == if t in policy then Row(t, Active, states[k].clock + policy[t] * 1_000_000_000)
                                 else Row(t - 1, Exhausted, states[k].clock)
  {
    SnapshotKept(policy, low, states, steps, p, i, j, j);
    k := PlanClock(policy, low, states, steps, p, j);
    RunInv(policy, low, states, steps, j);
    assert ProcAgrees(policy, low, states[j], states[j].procs[p]);
    assert !steps[i].Tick? && steps[i].p == p;
  }

  /** State k is the one whose clock set the deadline of the active row of state n. */
  ghost predicate DeadlineSetAt(low: int, states: seq<Sys>, steps: seq<Step>, n: nat, k: nat)
    requires n < |states| == |steps| + 1
  {
    && k <= n
    && if states[n].row.tier == low then k == 0
       else exists j :: k < j < n && steps[k].Prepare? && steps[j] == Commit(steps[k].p)
                        && Wins(states[j], steps[k].p) && states[j + 1].row == states[n].row
  }

  lemma ClaimSetsDeadline(policy: Policy, low: int, states: seq<Sys>, steps: seq<Step>, n: nat, p: nat) returns (k: nat)
    requires Run(policy, low, states, steps) && n < |steps| && steps[n] == Commit(p) && Wins(states[n], p)
    requires states[n + 1].row.status == Active
    ensures DeadlineSetAt(low, states, steps, n + 1, k) && states[n + 1].row.tier in policy
    ensures states[n + 1].row.escalateAt == states[k].clock + policy[states[n + 1].row.tier] * 1_000_000_000
  {
    k := PlanClock(policy, low, states, steps, p, n);
    RunInv(policy, low, states, steps, n);
    assert ProcAgrees(policy, low, states[n], states[n].procs[p]);
    assert steps[n] == Commit(steps[k].p);
  }

  /**
   * An active row's deadline at any point of any run: the timeout of its tier, in seconds, after the clock by which the
   * tier was claimed. That is the assignment's clock for the lowest tier, the claiming worker's at its Prepare for the others.
   */
  lemma {:induction false} ActiveDeadline(policy: Policy, low: int, states: seq<Sys>, steps: seq<Step>, n: nat) returns (k: nat)
    requires Run(policy, low, states, steps) && n < |states| && states[n].row.status == Active
    ensures DeadlineSetAt(low, states, steps, n, k) && states[n].row.tier in policy
    ensures states[n].row.escalateAt == states[k].clock + policy[states[n].row.tier] * 1_000_000_000
    decreases n
  {
    if n == 0 {
      k := 0;
    } else if steps[n - 1].Commit? && Wins(states[n - 1], steps[n - 1].p) {
      k := ClaimSetsDeadline(policy, low, states, steps, n - 1, steps[n - 1].p);
    } else {
      RunInv(policy, low, states, steps, n - 1);
      if steps[n - 1].WriteStop? {
        StopEndsEscalation(policy, low, states[n - 1], steps[n - 1].p, steps[n - 1].at);
      }
      k := ActiveDeadline(policy, low, states, steps, n - 1);
    }
  }

  /** The monitor takes a tier away only when the tier's timeout has passed since the clock by which it was claimed. */
  lemma TimeoutNotEarly(policy: Policy, low: int, states: seq<Sys>, steps: seq<Step>, p: nat, i: nat, j: nat) returns (k: nat)
    requires Run(policy, low, states, steps) && OneAttempt(steps, p, i, j) && Wins(states[j], p)
    requires steps[i] == ReadExpired(p)
    ensures states[j].row == states[i].row && states[j].row.tier in policy && DeadlineSetAt(low, states, steps, i, k)
    ensures states[k].clock + policy[states[j].row.tier] * 1_000_000_000 <= states[i].clock <= states[j].clock
  {
    CommitMeansUnchanged(policy, low, states, steps, p, i, j, j);
    WritesCount(policy, low, states, steps, i, j);
    assert Enabled(states[i], steps[i]);
    k := ActiveDeadline(policy, low, states, steps, i);
  }

  // ---- Progress measure ----

  /** Claims still possible, plus the exhaustion. */
  function Remaining(policy: Policy, s: Sys): nat {
    if s.row.status == Active then Chain(policy, s.row.tier) + 1 else 0
  }

  /** No step adds work, and a successful conditional update always takes one unit of it. */
  lemma RemainingDecreases(policy: Policy, low: int, s: Sys, step: Step)
    requires Inv(policy, low, s) && Enabled(s, step)
    ensures Remaining(policy, Exec(policy, s, step)) <= Remaining(policy, s)
    ensures step.Commit? && Wins(s, step.p) ==> Remaining(policy, Exec(policy, s, step)) == Remaining(policy, s) - 1
  {
    if step.Commit? || step.WriteStop? {
      assert ProcAgrees(policy, low, s, s.procs[step.p]);
      ChainStep(policy, s.row.tier);
    }
  }

  function Won(states: seq<Sys>, steps: seq<Step>, n: nat): nat
    requires n <= |steps| && n <= |states|
  {
    if n == 0 then 0
    else Won(states, steps, n - 1) + if steps[n - 1].Commit? && Wins(states[n - 1], steps[n - 1].p) then 1 else 0
  }

  /** Any run, of any length and interleaving, has at most chain-length + 1 successful advances. */
  lemma {:induction false} AdvancesBounded(policy: Policy, low: int, states: seq<Sys>, steps: seq<Step>, n: nat)
    requires Run(policy, low, states, steps) && n <= |steps|
    ensures Won(states, steps, n) + Remaining(policy, states[n]) <= Chain(policy, low) + 1
    decreases n
  {
    if n > 0 {
      AdvancesBounded(policy, low, states, steps, n - 1);
      RunInv(policy, low, states, steps, n - 1);
      RemainingDecreases(policy, low, states[n - 1], steps[n - 1]);
    }
  }

  /** A worker wins exactly when nothing has changed the row since it read it. */
  lemma WinsIfUnchanged(policy: Policy, low: int, states: seq<Sys>, steps: seq<Step>, p: nat, i: nat, j: nat)
    requires Run(policy, low, states, steps) && OneAttempt(steps, p, i, j)
    ensures Wins(states[j], p) <==> states[j].row == states[i].row
    ensures Wins(states[j], p) <==> states[j].writes == states[i].writes
  {
    SnapshotKept(policy, low, states, steps, p, i, j, j);
    assert Enabled(states[i], steps[i]) && Enabled(states[j], steps[j]);
    SameRowSameWrites(policy, low, states, steps, i, j);
    if Wins(states[j], p) {
      CommitMeansUnchanged(policy, low, states, steps, p, i, j, j);
    }
  }

  /** From an active row on, the row is the same exactly when nothing was written in between. */
  lemma SameRowSameWrites(policy: Policy, low: int, states: seq<Sys>, steps: seq<Step>, i: nat, j: nat)
    requires Run(policy, low, states, steps) && i <= j < |states| && states[i].row.status == Active
    ensures states[i].row == states[j].row <==> states[i].writes == states[j].writes
  {
    RunInv(policy, low, states, steps, i);
    RunInv(policy, low, states, steps, j);
    WritesCount(policy, low, states, steps, i, j);
    if states[i].row == states[j].row {
      assert states[i].writes == |states[i].claims| == states[i].row.tier - low + 1;
      assert states[j].writes == |states[j].claims| == states[j].row.tier - low + 1;
    }
  }

  // ---- What Stop's unconditional write does ----

  /** Between its read and its write, a Stop call does nothing else. */
  ghost predicate OneStop(steps: seq<Step>, p: nat, i: nat, j: nat) {
    && i < j < |steps| && steps[i].ReadStop? && steps[i].p == p && steps[j].WriteStop? && steps[j].p == p
    && forall k | i < k < j && !steps[k].Tick? :: steps[k].p != p
  }

  lemma {:induction false} StopSnapshotKept(policy: Policy, low: int, states: seq<Sys>, steps: seq<Step>, p: nat, i: nat, j: nat, k: nat)
    requires Run(policy, low, states, steps) && OneStop(steps, p, i, j) && i < k <= j
    ensures ProcOf(states[k], p) == StopReady(states[i].row, steps[i].reason)
    decreases k
  {
    if k > i + 1 {
      StopSnapshotKept(policy, low, states, steps, p, i, j, k - 1);
      assert steps[k - 1].Tick? || steps[k - 1].p != p;
    }
  }

  /** Stop's write puts back the tier it read, the last one claimed by then, and ends the escalation. */
  lemma StopWritesWhatItRead(policy: Policy, low: int, states: seq<Sys>, steps: seq<Step>, p: nat, i: nat, j: nat)
    requires Run(policy, low, states, steps) && OneStop(steps, p, i, j)
    ensures states[i].row.status == Active && states[i].row.tier == low + |states[i].claims| - 1
    ensures states[j + 1].row == Row(states[i].row.tier, steps[i].reason, steps[j].at)
    ensures steps[i].reason == Acknowledged || steps[i].reason == Resolved
  {
    assert Enabled(states[i], steps[i]);
    RunInv(policy, low, states, steps, i);
    StopSnapshotKept(policy, low, states, steps, p, i, j, j);
  }

  /** Stop ends an active escalation on its current tier exactly when nothing was written since Stop read the row. */
  lemma StopKeepsTier(policy: Policy, low: int, states: seq<Sys>, steps: seq<Step>, p: nat, i: nat, j: nat)
    requires Run(policy, low, states, steps) && OneStop(steps, p, i, j)
    ensures states[j + 1].row.tier == states[j].row.tier && states[j].row.status == Active
            <==> states[j].writes == states[i].writes
    ensures states[j].row == states[i].row <==> states[j].writes == states[i].writes
  {
    StopWritesWhatItRead(policy, low, states, steps, p, i, j);
    RunInv(policy, low, states, steps, i);
    RunInv(policy, low, states, steps, j);
    SameRowSameWrites(policy, low, states, steps, i, j);
  }

  lemma {:induction false} ClaimsGrow(policy: Policy, low: int, states: seq<Sys>, steps: seq<Step>, i: nat, j: nat)
    requires Run(policy, low, states, steps) && i <= j < |states|
    ensures states[i].claims <= states[j].claims
    decreases j
  {
    if i < j {
      ClaimsGrow(policy, low, states, steps, i, j - 1);
    }
  }

  /** Unless a Stop wrote it, a row stands on the last tier claimed. */
  lemma {:induction false} UnstoppedTier(policy: Policy, low: int, states: seq<Sys>, steps: seq<Step>, i: nat)
    requires Run(policy, low, states, steps) && i < |states|
    requires states[i].row.status == Active || states[i].row.status == Exhausted
    ensures states[i].row.tier == low + |states[i].claims| - 1
  {
    RunInv(policy, low, states, steps, i);
    if i > 0 {
      RunInv(policy, low, states, steps, i - 1);
      if steps[i - 1].WriteStop? {
        StopEndsEscalation(policy, low, states[i - 1], steps[i - 1].p, steps[i - 1].at);
      } else if steps[i - 1].Commit? && Wins(states[i - 1], steps[i - 1].p) {
        assert ProcAgrees(policy, low, states[i - 1], states[i - 1].procs[steps[i - 1].p]);
      } else {
        UnstoppedTier(policy, low, states, steps, i - 1);
      }
    }
  }

  /**
   * When Stop takes the row back a tier. Over a row no Stop has written: exactly when a tier was claimed since Stop read
   * it. Over a row that another Stop wrote last: exactly when a tier was claimed between the two reads.
   */
  lemma StopRollsBack(policy: Policy, low: int, states: seq<Sys>, steps: seq<Step>, p: nat, i: nat, j: nat)
    requires Run(policy, low, states, steps) && OneStop(steps, p, i, j)
    ensures states[j].row.status == Active || states[j].row.status == Exhausted ==>
              (states[j + 1].row.tier < states[j].row.tier <==> |states[i].claims| < |states[j].claims|)
    ensures forall q: nat, m: nat, n: nat | OneStop(steps, q, m, n) && n < j && states[n + 1].writes == states[j].writes ::
              states[j + 1].row.tier < states[j].row.tier <==> |states[i].claims| < |states[m].claims|
  {
    StopWritesWhatItRead(policy, low, states, steps, p, i, j);
    ClaimsGrow(policy, low, states, steps, i, j);
    if states[j].row.status == Active || states[j].row.status == Exhausted {
      UnstoppedTier(policy, low, states, steps, j);
    }
    forall q: nat, m: nat, n: nat | OneStop(steps, q, m, n) && n < j && states[n + 1].writes == states[j].writes
      ensures states[j + 1].row.tier < states[j].row.tier <==> |states[i].claims| < |states[m].claims|
    {
      StopWritesWhatItRead(policy, low, states, steps, q, m, n);
      WritesCount(policy, low, states, steps, n + 1, j);
    }
  }

  /** The step is the update that exhausts the row. */
  predicate Exhausts(s: Sys, step: Step) {
    step.Commit? && Wins(s, step.p) && ProcOf(s, step.p).next.status != Active
  }

  lemma {:induction false} LastWrite(policy: Policy, low: int, states: seq<Sys>, steps: seq<Step>, i: nat, j: nat) returns (k: nat)
    requires Run(policy, low, states, steps) && i <= j < |states| && states[i].writes != states[j].writes
    ensures i <= k < j && states[k].writes < states[k + 1].writes == states[j].writes
    decreases j
  {
    WritesCount(policy, low, states, steps, j - 1, j);
    if states[j - 1].writes == states[j].writes {
      k := LastWrite(policy, low, states, steps, i, j - 1);
    } else {
      k := j - 1;
    }
  }

  /** Stop overwrites an exhausted row exactly when the last write since Stop's read is an exhaustion. */
  lemma StopHidesExhaustion(policy: Policy, low: int, states: seq<Sys>, steps: seq<Step>, p: nat, i: nat, j: nat)
    requires Run(policy, low, states, steps) && OneStop(steps, p, i, j)
    ensures states[j + 1].row.status != Exhausted
    ensures states[j].row.status == Exhausted
            <==> exists k :: i < k < j && Exhausts(states[k], steps[k]) && states[k + 1].writes == states[j].writes
  {
    StopWritesWhatItRead(policy, low, states, steps, p, i, j);
    if states[j].row.status == Exhausted {
      SameRowSameWrites(policy, low, states, steps, i, j);
      var k := LastWrite(policy, low, states, steps, i, j);
      WritesCount(policy, low, states, steps, k + 1, j);
      RunInv(policy, low, states, steps, k);
      if steps[k].WriteStop? {
        StopEndsEscalation(policy, low, states[k], steps[k].p, steps[k].at);
      }
      assert Exhausts(states[k], steps[k]);
    }
    if k :| i < k < j && Exhausts(states[k], steps[k]) && states[k + 1].writes == states[j].writes {
      RunInv(policy, low, states, steps, k);
      assert ProcAgrees(policy, low, states[k], states[k].procs[steps[k].p]);
      WritesCount(policy, low, states, steps, k + 1, j);
    }
  }

  /** The row cannot be revived: whatever Stop overwrites, it ends acknowledged or resolved. */
  lemma StopEndsEscalation(policy: Policy, low: int, s: Sys, p: nat, at: int)
    requires Inv(policy, low, s) && Enabled(s, WriteStop(p, at))
    ensures var status := Exec(policy, s, WriteStop(p, at)).row.status; status == Acknowledged || status == Resolved
  {
    assert ProcAgrees(policy, low, s, s.procs[p]);
  }

  /** A run in which Stop's stale write takes the row from tier 2 back to tier 1. */
  lemma StopCanRollBack() returns (policy: Policy, states: seq<Sys>, steps: seq<Step>)
    ensures Run(policy, 1, states, steps) && |steps| == 5
    ensures states[|steps| - 1].row.tier == 2 && states[|steps|].row.tier == 1
  {
    policy := map[1 := 60, 2 := 60];
    var row := Row(1, Active, 60 * SECOND);
    var s0 := Sys(row, 0, map[0 := WonTier(1)], [], 0, [row], 1, 0);
    steps := [ReadStop(1, Acknowledged), ReadManual(2), Prepare(2), Commit(2), WriteStop(1, 0)];
    var s1 := Exec(policy, s0, steps[0]);
    var s2 := Exec(policy, s1, steps[1]);
    var s3 := Exec(policy, s2, steps[2]);
    var s4 := Exec(policy, s3, steps[3]);
    var s5 := Exec(policy, s4, steps[4]);
    states := [s0, s1, s2, s3, s4, s5];
  }

  /** A run in which Stop's stale write turns `exhausted` into `acknowledged`. */
  lemma StopCanHideExhaustion() returns (policy: Policy, states: seq<Sys>, steps: seq<Step>)
    ensures Run(policy, 1, states, steps) && |steps| == 5
    ensures states[|steps| - 1].row.status == Exhausted && states[|steps|].row.status == Acknowledged
  {
    policy := map[1 := 60];
    var row := Row(1, Active, 60 * SECOND);
    var s0 := Sys(row, 0, map[0 := WonTier(1)], [], 0, [row], 1, 0);
    steps := [ReadStop(1, Acknowledged), ReadManual(2), Prepare(2), Commit(2), WriteStop(1, 0)];
    var s1 := Exec(policy, s0, steps[0]);
    var s2 := Exec(policy, s1, steps[1]);
    var s3 := Exec(policy, s2, steps[2]);
    var s4 := Exec(policy, s3, steps[3]);
    var s5 := Exec(policy, s4, steps[4]);
    states := [s0, s1, s2, s3, s4, s5];
  }
}
