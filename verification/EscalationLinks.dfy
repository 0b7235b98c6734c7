/** The three views of one advance agree: the escalator's operation, the protocol's steps, the monitor's attempt. */
module EscalationLinks {
  import opened Escalation
  import P = EscalationProtocol
  import opened Escalator
  import opened MonitorFairness

  /** What AdvanceOrExhaust does to the table on a row listed earlier is an attempt of the monitor. */
  lemma AdvanceIsAttempt(policies: map<string, Policy>, listed: States, before: States, id: string, now: int, faults: Faults, d: int)
    requires id in listed && id in before && Succeeds(faults) && d <= now
    ensures OwnAttempt(policies, listed, before,
                       AfterAdvance(PolicyOf(policies, listed[id].policyId), before, id, listed[id].row, now, faults), id, d)
  {
    var policy := PolicyOf(policies, listed[id].policyId);
    var after := AfterAdvance(policy, before, id, listed[id].row, now, faults);
    if Claimable(before[id].row, listed[id].row.tier) {
      assert after[id] == before[id].(row := NextRow(policy, listed[id].row, now));
    }
  }

  /** The events published between two states of the protocol. */
  function NewEvents(id: string, s: P.Sys, s': P.Sys): seq<Event>
    requires |s.triggered| <= |s'.triggered| && s.exhaustedEvents <= s'.exhaustedEvents
  {
    seq(|s'.triggered| - |s.triggered|, i requires 0 <= i < |s'.triggered| - |s.triggered| =>
      TriggeredEvent(id, s'.triggered[|s.triggered| + i]))
    + seq(s'.exhaustedEvents - s.exhaustedEvents, _ => ExhaustedEvent(id))
  }

  /** A worker of the protocol about to commit what it computed from its snapshot at instant t. */
  predicate ReadyToCommit(policy: Policy, s: P.Sys, p: nat, snap: Row, t: int) {
    P.ProcOf(s, p).Prepared? && P.ProcOf(s, p).snap == snap && snap.status == Active
    && P.ProcOf(s, p).next == NextRow(policy, snap, t)
  }

  /** The commit step is the operation's guarded update, on the same possibly outdated row. */
  lemma CommitIsAdvance(policy: Policy, s: P.Sys, p: nat, snap: Row, t: int, states: States, id: string, faults: Faults)
    requires ReadyToCommit(policy, s, p, snap, t) && id in states && states[id].row == s.row && Succeeds(faults)
    ensures P.Wins(s, p) <==> AdvanceWins(states, id, snap, faults)
    ensures P.Exec(policy, s, P.Commit(p)).row == AfterAdvance(policy, states, id, snap, t, faults)[id].row
    ensures P.Exec(policy, s, P.Commit(p)).triggered == s.triggered
    ensures P.Exec(policy, s, P.Commit(p)).exhaustedEvents == s.exhaustedEvents
    ensures P.Wins(s, p) ==> P.ProcOf(P.Exec(policy, s, P.Commit(p)), p)
                             == if snap.tier + 1 in policy then P.WonTier(snap.tier + 1) else P.WonExhaustion
  {
  }

  /** A winning commit and its publish publish what the operation publishes. */
  lemma PublishIsAdvance(policy: Policy, s: P.Sys, p: nat, snap: Row, t: int, states: States, id: string, faults: Faults)
    requires ReadyToCommit(policy, s, p, snap, t) && id in states && states[id].row == s.row && Succeeds(faults) && P.Wins(s, p)
    ensures var won := P.Exec(policy, s, P.Commit(p));
            && P.Enabled(won, P.Publish(p, faults.publish))
            && var done := P.Exec(policy, won, P.Publish(p, faults.publish));
               done.row == won.row && s.triggered <= done.triggered && s.exhaustedEvents <= done.exhaustedEvents
               && NewEvents(id, s, done) == AdvanceEvents(policy, id, snap, faults)
  {
    CommitIsAdvance(policy, s, p, snap, t, states, id, faults);
  }

  /** The monitor can read the row exactly when the row counts as expired. */
  lemma ListedIsReadable(s: P.Sys, p: nat, states: States, id: string)
    requires P.ProcOf(s, p).Idle? && id in states && states[id].row == s.row
    ensures P.Enabled(s, P.ReadExpired(p)) <==> s.row.status == Active && s.row.escalateAt <= s.clock
    ensures P.Enabled(s, P.ReadExpired(p)) <==> IsExpired(states, s.clock, id)
  {
  }

  /** Stop's read and write in a row end an active escalation on its tier, at the clock's instant. */
  lemma StopInARow(policy: Policy, s: P.Sys, p: nat, reason: Status)
    requires P.ProcOf(s, p).Idle? && (reason == Acknowledged || reason == Resolved)
    ensures P.Enabled(s, P.ReadStop(p, reason)) <==> s.row.status == Active
    ensures s.row.status == Active ==>
              var read := P.Exec(policy, s, P.ReadStop(p, reason));
              && P.Enabled(read, P.WriteStop(p, s.clock))
              && var done := P.Exec(policy, read, P.WriteStop(p, s.clock));
                 done.row == Row(s.row.tier, reason, s.clock) && done.triggered == s.triggered
                 && done.exhaustedEvents == s.exhaustedEvents
  {
  }

  /** Read, prepare, commit and publish in a row do to row and events what one call of the operation does. */
  lemma AttemptInARow(policy: Policy, s: P.Sys, p: nat, states: States, id: string, faults: Faults)
    requires P.ProcOf(s, p).Idle? && s.row.status == Active && id in states && states[id].row == s.row && Succeeds(faults)
    ensures var read := P.Exec(policy, s, P.ReadManual(p));
            var prepared := P.Exec(policy, read, P.Prepare(p));
            var won := P.Exec(policy, prepared, P.Commit(p));
            && P.Enabled(won, P.Publish(p, faults.publish))
            && var done := P.Exec(policy, won, P.Publish(p, faults.publish));
               && done.row == AfterAdvance(policy, states, id, s.row, s.clock, faults)[id].row
               && s.triggered <= done.triggered && s.exhaustedEvents <= done.exhaustedEvents
               && NewEvents(id, s, done) == AdvanceEvents(policy, id, s.row, faults)
  {
    var prepared := P.Exec(policy, P.Exec(policy, s, P.ReadManual(p)), P.Prepare(p));
    CommitIsAdvance(policy, prepared, p, s.row, s.clock, states, id, faults);
    PublishIsAdvance(policy, prepared, p, s.row, s.clock, states, id, faults);
  }
}
