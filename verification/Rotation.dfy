/**
 * On-call rotation with overrides (rotation.go): the point query OnCallAt, and GenerateShifts,
 * which lists the shifts of a window. Instants are integers (nanoseconds); the epoch, the start
 * of the schedule's first day in its own time zone, is given.
 */
module Rotation {
  import opened Common
  import opened Duration

  datatype Schedule = Schedule(rotation: seq<string>, shiftDuration: string, epoch: int)

  datatype Override = Override(id: string, scheduleId: string, tenantId: string, userId: string, startAt: int, endAt: int)

  datatype Shift = Shift(userId: string, startAt: int, endAt: int, isOverride: bool)

  datatype OnCall = OnCall(userId: string, startsAt: int, endsAt: int)

  datatype RotationError = EmptyRotation | BadDuration(cause: DurationError)

  function Min(a: int, b: int): int { if a <= b then a else b }

  function Max(a: int, b: int): int { if a >= b then a else b }

  // ---- Shift boundaries ----

  /** Start of the k-th shift. */
  function Boundary(epoch: int, dur: int, k: nat): int { epoch + k * dur }

  /** Number of the shift holding t; before the epoch it is the first one. */
  function ShiftIndex(epoch: int, dur: int, t: int): nat
    requires dur > 0
  {
    Max(t - epoch, 0) / dur
  }

  lemma BoundaryStep(epoch: int, dur: int, k: nat)
    ensures Boundary(epoch, dur, k + 1) == Boundary(epoch, dur, k) + dur
  {
  }

  lemma BoundaryMonotone(epoch: int, dur: int, j: nat, k: nat)
    requires dur > 0 && j <= k
    ensures Boundary(epoch, dur, j) <= Boundary(epoch, dur, k)
    ensures epoch <= Boundary(epoch, dur, k)
  {
    assert (k - j) * dur >= 0 && k * dur == j * dur + (k - j) * dur && j * dur >= 0;
  }

  lemma StrictMultiples(a: int, b: int, d: int)
    requires a < b && d > 0
    ensures a * d + d <= b * d
  {
    assert (b - a - 1) * d >= 0;
    assert (b - a - 1) * d == b * d - a * d - d;
  }

  lemma DivideExactly(x: int, d: int, k: int)
    requires d > 0 && k * d <= x < k * d + d
    ensures x / d == k
  {
    if x / d < k {
      StrictMultiples(x / d, k, d);
    }
    if k < x / d {
      StrictMultiples(k, x / d, d);
    }
  }

  /** From the epoch on, the shift holding t is the one whose boundaries enclose t. */
  lemma IndexEncloses(epoch: int, dur: int, t: int, k: nat)
    requires dur > 0
    ensures epoch <= t && ShiftIndex(epoch, dur, t) == k <==> Boundary(epoch, dur, k) <= t < Boundary(epoch, dur, k + 1)
  {
    BoundaryStep(epoch, dur, k);
    BoundaryMonotone(epoch, dur, 0, k);
    if Boundary(epoch, dur, k) <= t < Boundary(epoch, dur, k + 1) {
      DivideExactly(t - epoch, dur, k);
    }
  }

  lemma AtBoundary(epoch: int, dur: int, k: nat)
    requires dur > 0
    ensures epoch <= Boundary(epoch, dur, k) && ShiftIndex(epoch, dur, Boundary(epoch, dur, k)) == k
  {
    BoundaryStep(epoch, dur, k);
    IndexEncloses(epoch, dur, Boundary(epoch, dur, k), k);
  }

  lemma ShiftEndsLater(epoch: int, dur: int, t: int)
    requires dur > 0
    ensures t < Boundary(epoch, dur, ShiftIndex(epoch, dur, t)) + dur == Boundary(epoch, dur, ShiftIndex(epoch, dur, t) + 1)
  {
    BoundaryStep(epoch, dur, ShiftIndex(epoch, dur, t));
    if epoch <= t {
      IndexEncloses(epoch, dur, t, ShiftIndex(epoch, dur, t));
    }
  }

  // ---- The point query ----

  predicate Covers(o: Override, t: int) { o.startAt <= t < o.endAt }

  /** A schedule with somebody in its rotation and a shift length that parses. */
  ghost predicate Staffed(s: Schedule) { s.rotation != [] && ParseDuration(s.shiftDuration).Ok? }

  /** The failure of a schedule that is not staffed. */
  ghost predicate FailsAsStated<T>(s: Schedule, r: Result<T, RotationError>) {
    && (s.rotation == [] <==> r == Err(EmptyRotation))
    && (s.rotation != [] && ParseDuration(s.shiftDuration).Err? ==> r == Err(BadDuration(ParseDuration(s.shiftDuration).error)))
  }

  function FromRotation(s: Schedule, at: int): (r: Result<OnCall, RotationError>)
    ensures r.Ok? <==> Staffed(s)
    ensures FailsAsStated(s, r)
  {
    if s.rotation == [] then Err(EmptyRotation)
    else match ParseDuration(s.shiftDuration)
      case Err(e) => Err(BadDuration(e))
      case Ok(dur) =>
        var k := ShiftIndex(s.epoch, dur, at);
        var start := Boundary(s.epoch, dur, k);
        Ok(OnCall(s.rotation[k % |s.rotation|], start, start + dur))
  }

  function OnCallAt(s: Schedule, overrides: seq<Override>, at: int): Result<OnCall, RotationError> {
    if overrides == [] then FromRotation(s, at)
    else if Covers(overrides[0], at) then Ok(OnCall(overrides[0].userId, overrides[0].startAt, overrides[0].endAt))
    else OnCallAt(s, overrides[1..], at)
  }

  /** Overrides as the store lists them: non-empty windows, in order, none overlapping another. */
  ghost predicate Ordered(os: seq<Override>) {
    && (forall i | 0 <= i < |os| :: os[i].startAt < os[i].endAt)
    && (forall i, j | 0 <= i < j < |os| :: os[i].endAt <= os[j].startAt)
  }

  /** The query answers with the covering override when there is one, else with the rotation. */
  lemma {:induction false} OnCallAtMeaning(s: Schedule, os: seq<Override>, at: int)
    ensures (forall o | o in os :: !Covers(o, at)) ==> OnCallAt(s, os, at) == FromRotation(s, at)
    ensures Ordered(os) ==> forall o | o in os && Covers(o, at) ::
              OnCallAt(s, os, at) == Ok(OnCall(o.userId, o.startAt, o.endAt))
  {
    if os != [] {
      OnCallAtMeaning(s, os[1..], at);
      assert forall o | o in os :: o == os[0] || o in os[1..];
      if Ordered(os) {
        assert Ordered(os[1..]);
        if Covers(os[0], at) {
          forall o | o in os[1..] ensures !Covers(o, at) {
            var j :| 0 <= j < |os[1..]| && os[1..][j] == o;
            assert os[j + 1] == o;
          }
        }
      }
    }
  }

  /** The rotation's answer is one whole shift: the one holding the instant, or the first before the epoch. */
  lemma RotationExact(s: Schedule, at: int) returns (k: nat)
    requires Staffed(s)
    ensures var dur := ParseDuration(s.shiftDuration).value;
            && FromRotation(s, at) == Ok(OnCall(s.rotation[k % |s.rotation|], s.epoch + k * dur, s.epoch + k * dur + dur))
            && (s.epoch <= at ==> s.epoch + k * dur <= at < s.epoch + k * dur + dur)
            && (at < s.epoch ==> k == 0)
  {
    var dur := ParseDuration(s.shiftDuration).value;
    k := ShiftIndex(s.epoch, dur, at);
    IndexEncloses(s.epoch, dur, at, k);
    BoundaryStep(s.epoch, dur, k);
  }

  /** From the epoch on, the answer's window holds the instant and every instant of it has the same answer. */
  lemma RotationWindow(s: Schedule, at: int, t: int)
    requires s.epoch <= at && FromRotation(s, at).Ok?
    requires FromRotation(s, at).value.startsAt <= t < FromRotation(s, at).value.endsAt
    ensures FromRotation(s, at).value.startsAt <= at < FromRotation(s, at).value.endsAt
    ensures FromRotation(s, t) == FromRotation(s, at)
  {
    var dur := ParseDuration(s.shiftDuration).value;
    var k := ShiftIndex(s.epoch, dur, at);
    IndexEncloses(s.epoch, dur, at, k);
    BoundaryStep(s.epoch, dur, k);
    IndexEncloses(s.epoch, dur, t, k);
  }

  // ---- Base shifts of a window ----

  /** The k-th rotation shift, cut at the window's end; its start is not cut. */
  function BaseShift(s: Schedule, dur: int, to: int, k: nat): Shift
    requires s.rotation != []
  {
    Shift(s.rotation[k % |s.rotation|], Boundary(s.epoch, dur, k), Min(Boundary(s.epoch, dur, k + 1), to), false)
  }

  /** How many base shifts a window has: its length from the first boundary, divided by dur and rounded up. */
  function BaseCount(epoch: int, dur: int, from: int, to: int): nat
    requires dur > 0
  {
    if from >= to then 0
    else
      var length := to - Boundary(epoch, dur, ShiftIndex(epoch, dur, from));
      if length <= dur then 1 else (length + dur - 1) / dur
  }

  function BaseShifts(s: Schedule, dur: int, from: int, to: int): seq<Shift>
    requires s.rotation != [] && dur > 0
  {
    seq(BaseCount(s.epoch, dur, from, to), j requires 0 <= j => BaseShift(s, dur, to, ShiftIndex(s.epoch, dur, from) + j))
  }

  lemma CountFound(epoch: int, dur: int, from: int, to: int, m: nat)
    requires dur > 0 && from < to && m > 0
    requires m > 1 ==> Boundary(epoch, dur, ShiftIndex(epoch, dur, from) + m - 1) < to
    requires to <= Boundary(epoch, dur, ShiftIndex(epoch, dur, from) + m)
    ensures m == BaseCount(epoch, dur, from, to)
  {
    var k := ShiftIndex(epoch, dur, from);
    var length := to - Boundary(epoch, dur, k);
    assert Boundary(epoch, dur, k + m) == Boundary(epoch, dur, k) + m * dur;
    assert Boundary(epoch, dur, k + m - 1) == Boundary(epoch, dur, k) + (m - 1) * dur;
    assert (m - 1) * dur == m * dur - dur;
    if m > 1 {
      assert (m - 2) * dur >= 0 && (m - 2) * dur == m * dur - 2 * dur;
      DivideExactly(length + dur - 1, dur, m);
    }
  }

  // ---- Cutting base shifts by overrides ----

  /** An override cut to the window, as a shift. */
  function Clip(o: Override, from: int, to: int): Shift {
    Shift(o.userId, Max(o.startAt, from), Min(o.endAt, to), true)
  }

  /** The cut override is not empty and overlaps the base shift. */
  predicate Touches(c: Shift, b: Shift) {
    c.startAt < c.endAt && c.startAt < b.endAt && c.endAt > b.startAt
  }

  /** Pieces of base shift b from `cur` on, given that overrides before the i-th are done with. */
  function CutFrom(b: Shift, os: seq<Override>, from: int, to: int, i: nat, cur: int): seq<Shift>
    requires i <= |os|
    decreases |os| - i
  {
    if i == |os| then
      if cur < b.endAt then [Shift(b.userId, cur, b.endAt, false)] else []
    else
      var c := Clip(os[i], from, to);
      if Touches(c, b) then
        (if cur < c.startAt then [Shift(b.userId, cur, c.startAt, false)] else [])
        + [c] + CutFrom(b, os, from, to, i + 1, c.endAt)
      else
        CutFrom(b, os, from, to, i + 1, cur)
  }

  function Cut(b: Shift, os: seq<Override>, from: int, to: int): seq<Shift> {
    CutFrom(b, os, from, to, 0, b.startAt)
  }

  function CutAll(base: seq<Shift>, os: seq<Override>, from: int, to: int): seq<Shift> {
    if base == [] then [] else CutAll(base[..|base| - 1], os, from, to) + Cut(base[|base| - 1], os, from, to)
  }

  function Layered(base: seq<Shift>, os: seq<Override>, from: int, to: int): seq<Shift> {
    if os == [] then base else CutAll(base, os, from, to)
  }

  /** The shifts of a window; the list fails exactly when the point query of the rotation does, and in the same way. */
  function ShiftList(s: Schedule, os: seq<Override>, from: int, to: int): (r: Result<seq<Shift>, RotationError>)
    ensures r.Ok? <==> FromRotation(s, from).Ok?
    ensures r.Err? ==> FromRotation(s, from) == Err(r.error)
    ensures r.Ok? && to <= from ==> r.value == []
  {
    if s.rotation == [] then Err(EmptyRotation)
    else match ParseDuration(s.shiftDuration)
      case Err(e) => Err(BadDuration(e))
      case Ok(dur) => Ok(Layered(BaseShifts(s, dur, from, to), os, from, to))
  }

  lemma Regroup<T>(a: seq<T>, b: seq<T>, c: seq<T>)
    ensures a + (b + c) == a + b + c
  {
  }

  /** The inner loop of applyOverrides: one base shift against every override. */
  method CutShift(s: Shift, overrides: seq<Override>, from: int, to: int) returns (result: seq<Shift>)
    ensures result == Cut(s, overrides, from, to)
  {
    result := [];
    var cur := s.startAt;
    for i := 0 to |overrides|
      invariant result + CutFrom(s, overrides, from, to, i, cur) == Cut(s, overrides, from, to)
    {
      var o := overrides[i];
      var oStart := o.startAt;
      var oEnd := o.endAt;
      if oStart < from {
        oStart := from;
      }
      if oEnd > to {
        oEnd := to;
      }
      if oStart >= oEnd {
        continue;
      }
      if oStart < s.endAt && oEnd > s.startAt {
        ghost var later := CutFrom(s, overrides, from, to, i + 1, oEnd);
        var pieces: seq<Shift> := [];
        if cur < oStart {
          pieces := [Shift(s.userId, cur, oStart, false)];
        }
        pieces := pieces + [Shift(o.userId, oStart, oEnd, true)];
        Regroup(result, pieces, later);
        result := result + pieces;
        cur := oEnd;
      }
    }
    if cur < s.endAt {
      result := result + [Shift(s.userId, cur, s.endAt, false)];
    }
  }

  /** applyOverrides: the base shifts one by one. */
  method ApplyOverrides(base: seq<Shift>, overrides: seq<Override>, from: int, to: int) returns (result: seq<Shift>)
    ensures result == Layered(base, overrides, from, to)
  {
    if |overrides| == 0 {
      return base;
    }
    result := [];
    for b := 0 to |base|
      invariant result == CutAll(base[..b], overrides, from, to)
    {
      var pieces := CutShift(base[b], overrides, from, to);
      result := result + pieces;
      assert base[..b + 1][..b] == base[..b];
    }
    assert base[..|base|] == base;
  }

  /** The loop of GenerateShifts that builds the base rotation. */
  method BuildBase(s: Schedule, dur: int, from: int, to: int) returns (shifts: seq<Shift>)
    requires s.rotation != [] && dur > 0
    ensures shifts == BaseShifts(s, dur, from, to)
  {
    ghost var first := ShiftIndex(s.epoch, dur, from);
    shifts := [];
    var cur := from;
    while cur < to
      invariant forall j | 0 <= j < |shifts| :: shifts[j] == BaseShift(s, dur, to, first + j)
      invariant shifts == [] ==> cur == from
      invariant shifts != [] ==> from < to && cur == Min(Boundary(s.epoch, dur, first + |shifts|), to)
      invariant |shifts| > 1 ==> Boundary(s.epoch, dur, first + |shifts| - 1) < to
    {
      if shifts != [] {
        AtBoundary(s.epoch, dur, first + |shifts|);
      }
      ShiftEndsLater(s.epoch, dur, cur);
      var elapsed := cur - s.epoch;
      if elapsed < 0 {
        elapsed := 0;
      }
      var k := elapsed / dur;
      var shiftStart := Boundary(s.epoch, dur, k);
      var shiftEnd := shiftStart + dur;
      if shiftEnd > to {
        shiftEnd := to;
      }
      shifts := shifts + [Shift(s.rotation[k % |s.rotation|], shiftStart, shiftEnd, false)];
      cur := shiftEnd;
    }
    if from < to {
      CountFound(s.epoch, dur, from, to, |shifts|);
    }
  }

  /** GenerateShifts. */
  method GenerateShifts(s: Schedule, overrides: seq<Override>, from: int, to: int)
    returns (r: Result<seq<Shift>, RotationError>)
    ensures r == ShiftList(s, overrides, from, to)
    ensures r.Ok? <==> Staffed(s)
    ensures FailsAsStated(s, r)
  {
    if |s.rotation| == 0 {
      return Err(EmptyRotation);
    }
    var parsed := ParseIso8601Duration(s.shiftDuration);
    if parsed.Err? {
      return Err(BadDuration(parsed.error));
    }
    var shifts := BuildBase(s, parsed.value, from, to);
    shifts := ApplyOverrides(shifts, overrides, from, to);
    return Ok(shifts);
  }
}
