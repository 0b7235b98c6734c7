/** The rotation is periodic and fair: each position gets the same time in every full cycle. */
module Fairness {
  import opened Duration
  import opened Rotation

  predicate OnDuty(epoch: int, dur: int, n: nat, p: nat, t: int)
    requires dur > 0 && n > 0
  {
    ShiftIndex(epoch, dur, t) % n == p
  }

  /** Nanoseconds of [a, a + len) at which position p of n is on duty. */
  function DutyTime(epoch: int, dur: int, n: nat, p: nat, a: int, len: nat): nat
    requires dur > 0 && n > 0
  {
    if len == 0 then 0
    else DutyTime(epoch, dur, n, p, a, len - 1) + (if OnDuty(epoch, dur, n, p, a + len - 1) then 1 else 0)
  }

  lemma ModuloCycle(k: nat, n: nat)
    requires n > 0
    ensures (k + n) % n == k % n
  {
    var q := k / n;
    assert k + n == (q + 1) * n + k % n;
    assert (k + n) / n == q + 1 by {
      DivideExactly(k + n, n, q + 1);
    }
  }

  /** One cycle later the shift index has grown by the size of the rotation. */
  lemma CycleLater(epoch: int, dur: int, n: nat, t: int)
    requires dur > 0 && n > 0 && epoch <= t
    ensures ShiftIndex(epoch, dur, t + n * dur) == ShiftIndex(epoch, dur, t) + n
    ensures forall p :: OnDuty(epoch, dur, n, p, t + n * dur) == OnDuty(epoch, dur, n, p, t)
  {
    var k := ShiftIndex(epoch, dur, t);
    assert n * dur >= 0;
    IndexEncloses(epoch, dur, t, k);
    BoundaryStep(epoch, dur, k);
    BoundaryStep(epoch, dur, k + n);
    assert Boundary(epoch, dur, k + n) == Boundary(epoch, dur, k) + n * dur;
    IndexEncloses(epoch, dur, t + n * dur, k + n);
    ModuloCycle(k, n);
  }

  /** The rotation's answer has period n * dur. */
  lemma RotationPeriodic(s: Schedule, at: int)
    requires FromRotation(s, at).Ok? && s.epoch <= at
    ensures var cycle := |s.rotation| * ParseDuration(s.shiftDuration).value;
            FromRotation(s, at + cycle).Ok? && FromRotation(s, at + cycle).value.userId == FromRotation(s, at).value.userId
  {
    var dur := ParseDuration(s.shiftDuration).value;
    CycleLater(s.epoch, dur, |s.rotation|, at);
    ModuloCycle(ShiftIndex(s.epoch, dur, at), |s.rotation|);
  }

  lemma {:induction false} DutySplits(epoch: int, dur: int, n: nat, p: nat, a: int, x: nat, y: nat)
    requires dur > 0 && n > 0
    ensures DutyTime(epoch, dur, n, p, a, x + y) == DutyTime(epoch, dur, n, p, a, x) + DutyTime(epoch, dur, n, p, a + x, y)
    decreases y
  {
    if y > 0 {
      DutySplits(epoch, dur, n, p, a, x, y - 1);
      assert a + (x + y) - 1 == (a + x) + y - 1;
    }
  }

  /** Within one shift the duty never changes hands. */
  lemma {:induction false} DutyInShift(epoch: int, dur: int, n: nat, p: nat, k: nat, len: nat)
    requires dur > 0 && n > 0 && len <= dur
    ensures DutyTime(epoch, dur, n, p, Boundary(epoch, dur, k), len) == if k % n == p then len else 0
    decreases len
  {
    if len > 0 {
      DutyInShift(epoch, dur, n, p, k, len - 1);
      BoundaryStep(epoch, dur, k);
      IndexEncloses(epoch, dur, Boundary(epoch, dur, k) + len - 1, k);
    }
  }

  /** In the first m shifts of the first cycle, position p has been on duty once if its turn has come. */
  lemma {:induction false} DutyInFirstShifts(epoch: int, dur: int, n: nat, p: nat, m: nat)
    requires dur > 0 && p < n && m <= n
    ensures m * dur >= 0
    ensures DutyTime(epoch, dur, n, p, epoch, m * dur) == if p < m then dur else 0
    decreases m
  {
    if m > 0 {
      DutyInFirstShifts(epoch, dur, n, p, m - 1);
      var before := (m - 1) * dur;
      assert m * dur == before + dur;
      DutySplits(epoch, dur, n, p, epoch, before, dur);
      assert Boundary(epoch, dur, m - 1) == epoch + before;
      DutyInShift(epoch, dur, n, p, m - 1, dur);
      FirstTurns(m - 1, n);
    }
  }

  lemma FirstTurns(k: nat, n: nat)
    requires k < n
    ensures k % n == k
  {
  }

  /** Any window of one full cycle, aligned or not, gives every position exactly one shift length. */
  lemma {:induction false} DutyPerCycle(epoch: int, dur: int, n: nat, p: nat, a: int)
    requires dur > 0 && p < n && epoch <= a
    ensures n * dur >= 0 && DutyTime(epoch, dur, n, p, a, n * dur) == dur
    decreases a - epoch
  {
    var cycle := n * dur;
    if a == epoch {
      DutyInFirstShifts(epoch, dur, n, p, n);
    } else {
      DutyPerCycle(epoch, dur, n, p, a - 1);
      DutySplits(epoch, dur, n, p, a - 1, 1, cycle);
      DutySplits(epoch, dur, n, p, a - 1, cycle, 1);
      CycleLater(epoch, dur, n, a - 1);
      SingleInstant(epoch, dur, n, p, a - 1);
      SingleInstant(epoch, dur, n, p, a - 1 + cycle);
    }
  }

  lemma SingleInstant(epoch: int, dur: int, n: nat, p: nat, t: int)
    requires dur > 0 && n > 0
    ensures DutyTime(epoch, dur, n, p, t, 1) == if OnDuty(epoch, dur, n, p, t) then 1 else 0
  {
    assert DutyTime(epoch, dur, n, p, t, 0) == 0;
  }

  /** Fairness: over m full cycles from any instant at or after the epoch, each position serves exactly m shift lengths. */
  lemma {:induction false} RotationFair(epoch: int, dur: int, n: nat, p: nat, a: int, m: nat)
    requires dur > 0 && p < n && epoch <= a
    ensures m * (n * dur) >= 0 && DutyTime(epoch, dur, n, p, a, m * (n * dur)) == m * dur
    decreases m
  {
    var cycle := n * dur;
    assert cycle >= 0 && m * cycle >= 0;
    if m > 0 {
      assert m * cycle == cycle + (m - 1) * cycle && (m - 1) * cycle >= 0;
      DutyPerCycle(epoch, dur, n, p, a);
      RotationFair(epoch, dur, n, p, a + cycle, m - 1);
      DutySplits(epoch, dur, n, p, a, cycle, (m - 1) * cycle);
      assert m * dur == (m - 1) * dur + dur;
    }
  }

  // ---- By name ----

  /** Nanoseconds of [a, a + len) at which a query without overrides names the user. */
  function OnCallTime(s: Schedule, user: string, a: int, len: nat): nat {
    if len == 0 then 0
    else
      var answer := OnCallAt(s, [], a + len - 1);
      OnCallTime(s, user, a, len - 1) + (if answer.Ok? && answer.value.userId == user then 1 else 0)
  }

  /** How many of the first p positions are the user's. */
  function Turns(rotation: seq<string>, user: string, p: nat): nat
    requires p <= |rotation|
  {
    if p == 0 then 0 else Turns(rotation, user, p - 1) + (if rotation[p - 1] == user then 1 else 0)
  }

  /** The duty time of the user's positions among the first p. */
  function NamedDuty(epoch: int, dur: int, rotation: seq<string>, user: string, a: int, len: nat, p: nat): nat
    requires dur > 0 && rotation != [] && p <= |rotation|
  {
    if p == 0 then 0
    else NamedDuty(epoch, dur, rotation, user, a, len, p - 1)
         + (if rotation[p - 1] == user then DutyTime(epoch, dur, |rotation|, p - 1, a, len) else 0)
  }

  /** One more instant is one more nanosecond of duty for the position on duty, and for no other. */
  lemma {:induction false} OneMoreInstant(epoch: int, dur: int, rotation: seq<string>, user: string, a: int, len: nat, p: nat, q: nat)
    requires dur > 0 && rotation != [] && p <= |rotation| && len > 0
    requires q == ShiftIndex(epoch, dur, a + len - 1) % |rotation|
    ensures NamedDuty(epoch, dur, rotation, user, a, len, p)
         == NamedDuty(epoch, dur, rotation, user, a, len - 1, p) + (if q < p && rotation[q] == user then 1 else 0)
    decreases p
  {
    if p > 0 {
      OneMoreInstant(epoch, dur, rotation, user, a, len, p - 1, q);
    }
  }

  lemma {:induction false} NamedNothing(epoch: int, dur: int, rotation: seq<string>, user: string, a: int, p: nat)
    requires dur > 0 && rotation != [] && p <= |rotation|
    ensures NamedDuty(epoch, dur, rotation, user, a, 0, p) == 0
    decreases p
  {
    if p > 0 {
      NamedNothing(epoch, dur, rotation, user, a, p - 1);
    }
  }

  /** The queries name a user for as long as the user's positions are on duty. */
  lemma {:induction false} QueriesNameDuty(s: Schedule, user: string, a: int, len: nat)
    requires Staffed(s)
    ensures OnCallTime(s, user, a, len)
         == NamedDuty(s.epoch, ParseDuration(s.shiftDuration).value, s.rotation, user, a, len, |s.rotation|)
    decreases len
  {
    var dur := ParseDuration(s.shiftDuration).value;
    if len == 0 {
      NamedNothing(s.epoch, dur, s.rotation, user, a, |s.rotation|);
    } else {
      QueriesNameDuty(s, user, a, len - 1);
      OneMoreInstant(s.epoch, dur, s.rotation, user, a, len, |s.rotation|, ShiftIndex(s.epoch, dur, a + len - 1) % |s.rotation|);
    }
  }

  lemma OneMoreTurn(turns: nat, share: nat)
    ensures (turns + 1) * share == turns * share + share
  {
  }

  /** Positions that serve equally give a user the share of one position per turn. */
  lemma {:induction false} DutyOfTurns(epoch: int, dur: int, rotation: seq<string>, user: string, a: int, len: nat, share: nat, p: nat)
    requires dur > 0 && rotation != [] && p <= |rotation|
    requires forall q: nat | q < p :: DutyTime(epoch, dur, |rotation|, q, a, len) == share
    ensures NamedDuty(epoch, dur, rotation, user, a, len, p) == Turns(rotation, user, p) * share
    decreases p
  {
    if p > 0 {
      DutyOfTurns(epoch, dur, rotation, user, a, len, share, p - 1);
      OneMoreTurn(Turns(rotation, user, p - 1), share);
    }
  }

  /** Fairness by name: over m full cycles the queries name a user for m shift lengths per turn in the rotation. */
  lemma OnCallFair(s: Schedule, user: string, a: int, m: nat, len: nat)
    requires Staffed(s) && s.epoch <= a && len == m * (|s.rotation| * ParseDuration(s.shiftDuration).value)
    ensures OnCallTime(s, user, a, len)
         == Turns(s.rotation, user, |s.rotation|) * (m * ParseDuration(s.shiftDuration).value)
  {
    var dur := ParseDuration(s.shiftDuration).value;
    QueriesNameDuty(s, user, a, len);
    forall q: nat | q < |s.rotation| ensures DutyTime(s.epoch, dur, |s.rotation|, q, a, len) == m * dur {
      RotationFair(s.epoch, dur, |s.rotation|, q, a, m);
    }
    DutyOfTurns(s.epoch, dur, s.rotation, user, a, len, m * dur, |s.rotation|);
  }
}
