/** Escalation rows and the transitions the escalator computes (escalator.go, store.go). */
module Escalation {
  import opened Common

  datatype Status = Active | Acknowledged | Resolved | Exhausted

  /** A policy's tiers: tier number to timeout in seconds. Tier numbers of a policy are unique. */
  type Policy = map<int, nat>

  /** The part of an escalation row the protocol writes. */
  datatype Row = Row(tier: int, status: Status, escalateAt: int)

  /** What AdvanceOrExhaust sets out to write, from the row it was given and the clock. */
  function NextRow(policy: Policy, snap: Row, now: int): Row {
    if snap.tier + 1 in policy
    then snap.(tier := snap.tier + 1, escalateAt := now + policy[snap.tier + 1] * SECOND)
    else snap.(status := Exhausted, escalateAt := now)
  }

  /** The guard of the conditional update: expected tier, still active. */
  predicate Claimable(row: Row, expectedTier: int) {
    row.tier == expectedTier && row.status == Active
  }

  /** How many tiers follow tier t without a gap. */
  function Chain(policy: Policy, t: int): nat
    decreases |policy|
  {
    if t + 1 in policy then 1 + Chain(policy - {t + 1}, t + 1) else 0
  }

  lemma {:induction false} ChainIgnoresBelow(policy: Policy, t: int, x: int)
    requires x <= t
    ensures Chain(policy - {x}, t) == Chain(policy, t)
    decreases |policy|
  {
    if t + 1 in policy {
      ChainIgnoresBelow(policy - {t + 1}, t + 1, x);
      assert policy - {x} - {t + 1} == policy - {t + 1} - {x};
    }
  }

  lemma ChainStep(policy: Policy, t: int)
    ensures Chain(policy, t) == if t + 1 in policy then 1 + Chain(policy, t + 1) else 0
  {
    if t + 1 in policy {
      ChainIgnoresBelow(policy, t + 1, t + 1);
    }
  }

  /** Advances that nothing interrupts, one per clock reading. */
  function AdvanceTimes(policy: Policy, row: Row, nows: seq<int>): Row
    decreases |nows|
  {
    if nows == [] || row.status != Active then row
    else AdvanceTimes(policy, NextRow(policy, row, nows[0]), nows[1..])
  }

  /** Uninterrupted, an active row visits the tiers above it in turn, then is exhausted at the top of the chain. */
  lemma {:induction false} UninterruptedRun(policy: Policy, row: Row, nows: seq<int>)
    requires row.status == Active
    ensures var end := AdvanceTimes(policy, row, nows); var n := Chain(policy, row.tier);
            if |nows| <= n then end.status == Active && end.tier == row.tier + |nows|
            else end.status == Exhausted && end.tier == row.tier + n
    decreases |nows|
  {
    if nows != [] {
      ChainStep(policy, row.tier);
      var next := NextRow(policy, row, nows[0]);
      if next.status == Active {
        UninterruptedRun(policy, next, nows[1..]);
      }
    }
  }
}
