/** GenerateShifts against OnCallAt: whom the listed shifts name, and which instants they reach. */
module Coverage {
  import opened Common
  import opened Duration
  import opened Rotation

  predicate Holds(p: Shift, t: int) { p.startAt <= t < p.endAt }

  /** The shift list of a valid schedule. */
  function Listed(s: Schedule, os: seq<Override>, from: int, to: int): seq<Shift>
    requires Staffed(s)
  {
    ShiftList(s, os, from, to).value
  }

  /** Where cutting stands before the i-th override: earlier overrides end by `cur`, later ones start after it. */
  ghost predicate CutState(b: Shift, os: seq<Override>, from: int, to: int, i: nat, cur: int) {
    && i <= |os|
    && b.startAt <= cur
    && (forall j | 0 <= j < i && Touches(Clip(os[j], from, to), b) :: Clip(os[j], from, to).endAt <= cur)
    && (cur == b.startAt
        || forall j | i <= j < |os| && Touches(Clip(os[j], from, to), b) :: cur <= Clip(os[j], from, to).startAt)
  }

  lemma CutStateStep(b: Shift, os: seq<Override>, from: int, to: int, i: nat, cur: int)
    requires Ordered(os) && i < |os| && CutState(b, os, from, to, i, cur)
    ensures var c := Clip(os[i], from, to); CutState(b, os, from, to, i + 1, if Touches(c, b) then c.endAt else cur)
  {
  }

  /** A piece is a cut override that touches the base shift, or a stretch of the base shift free of overrides. */
  lemma {:induction false} PieceMeaning(b: Shift, os: seq<Override>, from: int, to: int, i: nat, cur: int, p: Shift)
    requires Ordered(os) && CutState(b, os, from, to, i, cur)
    requires p in CutFrom(b, os, from, to, i, cur)
    ensures p.isOverride ==> exists j :: 0 <= j < |os| && p == Clip(os[j], from, to) && Touches(p, b)
    ensures !p.isOverride ==> p.userId == b.userId && b.startAt <= p.startAt && p.endAt <= b.endAt
    ensures !p.isOverride ==> forall j, t | 0 <= j < |os| && Holds(p, t) :: !Holds(Clip(os[j], from, to), t)
    decreases |os| - i
  {
    if i < |os| {
      var c := Clip(os[i], from, to);
      CutStateStep(b, os, from, to, i, cur);
      if p in CutFrom(b, os, from, to, i + 1, if Touches(c, b) then c.endAt else cur) {
        PieceMeaning(b, os, from, to, i + 1, if Touches(c, b) then c.endAt else cur, p);
      } else if p.isOverride {
        assert p == c;
      } else {
        assert p == Shift(b.userId, cur, c.startAt, false);
      }
    }
  }

  /** No instant of the base shift from `cur` on is lost. */
  lemma {:induction false} PiecesReach(b: Shift, os: seq<Override>, from: int, to: int, i: nat, cur: int, t: int)
    returns (p: Shift)
    requires i <= |os| && cur <= t < b.endAt
    ensures p in CutFrom(b, os, from, to, i, cur) && Holds(p, t)
    decreases |os| - i
  {
    if i == |os| {
      p := Shift(b.userId, cur, b.endAt, false);
    } else {
      var c := Clip(os[i], from, to);
      if !Touches(c, b) {
        p := PiecesReach(b, os, from, to, i + 1, cur, t);
      } else if t < c.startAt {
        p := Shift(b.userId, cur, c.startAt, false);
      } else if t < c.endAt {
        p := c;
      } else {
        p := PiecesReach(b, os, from, to, i + 1, c.endAt, t);
      }
    }
  }

  /** Every override touching the base shift is emitted whole. */
  lemma {:induction false} OverridesEmitted(b: Shift, os: seq<Override>, from: int, to: int, i: nat, cur: int, j: nat)
    requires i <= j < |os| && Touches(Clip(os[j], from, to), b)
    ensures Clip(os[j], from, to) in CutFrom(b, os, from, to, i, cur)
    decreases |os| - i
  {
    if i < j {
      var c := Clip(os[i], from, to);
      OverridesEmitted(b, os, from, to, i + 1, if Touches(c, b) then c.endAt else cur, j);
    }
  }

  /** The list is made of the pieces of the base shifts, base shift by base shift. */
  lemma {:induction false} ListMembers(base: seq<Shift>, os: seq<Override>, from: int, to: int, p: Shift)
    ensures p in CutAll(base, os, from, to) <==> exists k :: 0 <= k < |base| && p in Cut(base[k], os, from, to)
  {
    if base != [] {
      var last := |base| - 1;
      ListMembers(base[..last], os, from, to, p);
      if p in CutAll(base, os, from, to) && p !in Cut(base[last], os, from, to) {
        var k :| 0 <= k < |base[..last]| && p in Cut(base[..last][k], os, from, to);
        assert p in Cut(base[k], os, from, to);
      }
      forall k | 0 <= k < |base| && p in Cut(base[k], os, from, to) ensures p in CutAll(base, os, from, to) {
        if k < last {
          assert base[..last][k] == base[k];
        }
      }
    }
  }

  /** Base shifts: the k-th of the list is the rotation's shift holding each of its instants. */
  lemma BaseHolds(s: Schedule, dur: int, from: int, to: int, j: nat, t: int)
    requires s.rotation != [] && dur > 0 && j < BaseCount(s.epoch, dur, from, to)
    requires Holds(BaseShifts(s, dur, from, to)[j], t)
    ensures s.epoch <= t && BaseShifts(s, dur, from, to)[j].userId == s.rotation[ShiftIndex(s.epoch, dur, t) % |s.rotation|]
  {
    IndexEncloses(s.epoch, dur, t, ShiftIndex(s.epoch, dur, from) + j);
  }

  lemma IndexMonotone(epoch: int, dur: int, t: int, u: int)
    requires dur > 0 && t <= u
    ensures ShiftIndex(epoch, dur, t) <= ShiftIndex(epoch, dur, u)
  {
    var k := ShiftIndex(epoch, dur, u);
    if epoch <= t && k < ShiftIndex(epoch, dur, t) {
      IndexEncloses(epoch, dur, t, ShiftIndex(epoch, dur, t));
      IndexEncloses(epoch, dur, u, k);
      BoundaryMonotone(epoch, dur, k + 1, ShiftIndex(epoch, dur, t));
    }
  }

  /** The list has enough base shifts: rounding up reaches the window's end. */
  lemma CountReaches(epoch: int, dur: int, from: int, to: int)
    requires dur > 0 && from < to
    ensures BaseCount(epoch, dur, from, to) > 0
    ensures to <= Boundary(epoch, dur, ShiftIndex(epoch, dur, from) + BaseCount(epoch, dur, from, to))
  {
    var k := ShiftIndex(epoch, dur, from);
    var length := to - Boundary(epoch, dur, k);
    var m := BaseCount(epoch, dur, from, to);
    assert Boundary(epoch, dur, k + m) == Boundary(epoch, dur, k) + m * dur;
    if length > dur {
      assert m * dur <= length + dur - 1 < m * dur + dur;
    }
  }

  /** Every instant of the window from the epoch on lies in a base shift. */
  lemma BaseReaches(s: Schedule, dur: int, from: int, to: int, t: int) returns (j: nat)
    requires s.rotation != [] && dur > 0 && from <= t < to && s.epoch <= t
    ensures j < BaseCount(s.epoch, dur, from, to) && Holds(BaseShifts(s, dur, from, to)[j], t)
  {
    var k := ShiftIndex(s.epoch, dur, t);
    IndexMonotone(s.epoch, dur, from, t);
    IndexEncloses(s.epoch, dur, t, k);
    CountReaches(s.epoch, dur, from, to);
    var first := ShiftIndex(s.epoch, dur, from);
    j := k - first;
    if BaseCount(s.epoch, dur, from, to) <= j {
      BoundaryMonotone(s.epoch, dur, first + BaseCount(s.epoch, dur, from, to), k);
    }
    assert BaseShifts(s, dur, from, to)[j] == BaseShift(s, dur, to, k);
  }

  /** Whom a piece of a base shift names at an instant it holds. */
  ghost predicate NamesRightly(s: Schedule, os: seq<Override>, p: Shift, t: int) {
    && OnCallAt(s, os, t).Ok? && OnCallAt(s, os, t).value.userId == p.userId
    && (p.isOverride <==> exists o :: o in os && Covers(o, t))
  }

  /** A piece that is an override names whom the query names. */
  lemma OverridePieceNames(s: Schedule, b: Shift, os: seq<Override>, from: int, to: int, p: Shift, t: int)
    requires Ordered(os) && p in Cut(b, os, from, to) && p.isOverride && Holds(p, t)
    ensures NamesRightly(s, os, p, t)
  {
    PieceMeaning(b, os, from, to, 0, b.startAt, p);
    OnCallAtMeaning(s, os, t);
    var i :| 0 <= i < |os| && p == Clip(os[i], from, to);
    assert os[i] in os && Covers(os[i], t);
  }

  /** At an instant of a base stretch no override answers. */
  lemma BasePieceUncovered(b: Shift, os: seq<Override>, from: int, to: int, p: Shift, t: int)
    requires Ordered(os) && p in Cut(b, os, from, to) && !p.isOverride && from <= t < to && Holds(p, t)
    ensures Holds(b, t) && p.userId == b.userId && forall o | o in os :: !Covers(o, t)
  {
    PieceMeaning(b, os, from, to, 0, b.startAt, p);
    forall o | o in os ensures !Covers(o, t) {
      var i :| 0 <= i < |os| && os[i] == o;
      assert !Holds(Clip(os[i], from, to), t);
    }
  }

  lemma CutNames(s: Schedule, dur: int, os: seq<Override>, from: int, to: int, j: nat, p: Shift, t: int)
    requires ParseDuration(s.shiftDuration) == Ok(dur) && s.rotation != [] && Ordered(os)
    requires j < BaseCount(s.epoch, dur, from, to) && p in Cut(BaseShifts(s, dur, from, to)[j], os, from, to)
    requires from <= t < to && Holds(p, t)
    ensures NamesRightly(s, os, p, t)
  {
    var b := BaseShifts(s, dur, from, to)[j];
    if p.isOverride {
      OverridePieceNames(s, b, os, from, to, p, t);
    } else {
      BasePieceUncovered(b, os, from, to, p, t);
      BaseHolds(s, dur, from, to, j, t);
      OnCallAtMeaning(s, os, t);
    }
  }

  lemma BaseNames(s: Schedule, from: int, to: int, p: Shift, t: int)
    requires Staffed(s) && p in Listed(s, [], from, to) && Holds(p, t)
    ensures NamesRightly(s, [], p, t)
  {
    var dur := ParseDuration(s.shiftDuration).value;
    var j :| 0 <= j < BaseCount(s.epoch, dur, from, to) && BaseShifts(s, dur, from, to)[j] == p;
    BaseHolds(s, dur, from, to, j, t);
    assert p == BaseShift(s, dur, to, ShiftIndex(s.epoch, dur, from) + j);
    OnCallAtMeaning(s, [], t);
  }

  lemma LayeredNames(s: Schedule, os: seq<Override>, from: int, to: int, p: Shift, t: int)
    requires Staffed(s) && Ordered(os) && os != []
    requires p in Listed(s, os, from, to) && from <= t < to && Holds(p, t)
    ensures NamesRightly(s, os, p, t)
  {
    var dur := ParseDuration(s.shiftDuration).value;
    var base := BaseShifts(s, dur, from, to);
    ListMembers(base, os, from, to, p);
    var j :| 0 <= j < |base| && p in Cut(base[j], os, from, to);
    CutNames(s, dur, os, from, to, j, p, t);
  }

  /**
   * Soundness, before the epoch too: a listed shift holding t names the user OnCallAt returns at t, and is marked as an
   * override exactly when one covers t.
   */
  lemma ShiftsNameOnCall(s: Schedule, os: seq<Override>, from: int, to: int, p: Shift, t: int)
    requires Staffed(s) && Ordered(os)
    requires p in Listed(s, os, from, to) && from <= t < to && Holds(p, t)
    ensures OnCallAt(s, os, t).Ok? && OnCallAt(s, os, t).value.userId == p.userId
    ensures p.isOverride <==> exists o :: o in os && Covers(o, t)
  {
    if os == [] {
      BaseNames(s, from, to, p, t);
    } else {
      LayeredNames(s, os, from, to, p, t);
    }
  }

  ghost predicate Reached(s: Schedule, os: seq<Override>, from: int, to: int, t: int)
    requires Staffed(s)
  {
    exists p :: p in Listed(s, os, from, to) && Holds(p, t)
  }

  /** When the list leaves no gap: a window from the epoch on, or one whose stretch before the epoch a single override bridges. */
  ghost predicate NoGap(s: Schedule, os: seq<Override>, from: int, to: int) {
    s.epoch <= from || (s.epoch < to && exists o :: o in os && o.startAt <= from && s.epoch < o.endAt)
  }

  lemma ReachedFromEpoch(s: Schedule, os: seq<Override>, from: int, to: int, t: int)
    requires Staffed(s) && from <= t < to && s.epoch <= t
    ensures Reached(s, os, from, to, t)
  {
    var dur := ParseDuration(s.shiftDuration).value;
    var base := BaseShifts(s, dur, from, to);
    var j := BaseReaches(s, dur, from, to, t);
    if os == [] {
      assert base[j] in Listed(s, os, from, to);
    } else {
      var p := PiecesReach(base[j], os, from, to, 0, base[j].startAt, t);
      ListMembers(base, os, from, to, p);
    }
  }

  lemma FirstFromEpoch(s: Schedule, dur: int, from: int, to: int)
    requires s.rotation != [] && dur > 0 && from < s.epoch < to
    ensures var base := BaseShifts(s, dur, from, to); base != [] && base[0].startAt == s.epoch < base[0].endAt
  {
    CountReaches(s.epoch, dur, from, to);
    BoundaryStep(s.epoch, dur, 0);
    assert BaseShifts(s, dur, from, to)[0] == BaseShift(s, dur, to, 0);
  }

  lemma BridgedByOverride(s: Schedule, os: seq<Override>, from: int, to: int, o: Override, t: int)
    requires Staffed(s) && from <= t < s.epoch < to
    requires o in os && o.startAt <= from && s.epoch < o.endAt
    ensures Reached(s, os, from, to, t)
  {
    var dur := ParseDuration(s.shiftDuration).value;
    var base := BaseShifts(s, dur, from, to);
    FirstFromEpoch(s, dur, from, to);
    var b := base[0];
    var i :| 0 <= i < |os| && os[i] == o;
    var p := Clip(o, from, to);
    OverridesEmitted(b, os, from, to, 0, b.startAt, i);
    assert p in Cut(b, os, from, to);
    ListMembers(base, os, from, to, p);
    assert Holds(p, t);
  }

  lemma BaseAfterEpoch(s: Schedule, dur: int, from: int, to: int, j: nat)
    requires s.rotation != [] && dur > 0 && j < BaseCount(s.epoch, dur, from, to)
    ensures s.epoch <= BaseShifts(s, dur, from, to)[j].startAt
  {
    var k := ShiftIndex(s.epoch, dur, from) + j;
    BoundaryMonotone(s.epoch, dur, 0, k);
    assert BaseShifts(s, dur, from, to)[j] == BaseShift(s, dur, to, k);
  }

  /** A gap before the epoch, unless an override bridges it. */
  lemma GapAtStart(s: Schedule, os: seq<Override>, from: int, to: int)
    requires Staffed(s) && Ordered(os) && from < to && from < s.epoch
    requires Reached(s, os, from, to, from)
    ensures NoGap(s, os, from, to)
  {
    var dur := ParseDuration(s.shiftDuration).value;
    var base := BaseShifts(s, dur, from, to);
    var p :| p in Listed(s, os, from, to) && Holds(p, from);
    if os == [] {
      var j :| 0 <= j < |base| && base[j] == p;
      BaseHolds(s, dur, from, to, j, from);
    } else {
      ListMembers(base, os, from, to, p);
      var j :| 0 <= j < |base| && p in Cut(base[j], os, from, to);
      BaseAfterEpoch(s, dur, from, to, j);
      PieceMeaning(base[j], os, from, to, 0, base[j].startAt, p);
      assert p.isOverride;
      var i :| 0 <= i < |os| && p == Clip(os[i], from, to) && Touches(p, base[j]);
      assert os[i] in os;
    }
  }

  /** Every instant of the window lies in a listed shift exactly when there is no gap. */
  lemma CoverageExact(s: Schedule, os: seq<Override>, from: int, to: int)
    requires Staffed(s) && Ordered(os) && from < to
    ensures (forall t | from <= t < to :: Reached(s, os, from, to, t)) <==> NoGap(s, os, from, to)
  {
    if NoGap(s, os, from, to) {
      forall t | from <= t < to ensures Reached(s, os, from, to, t) {
        if s.epoch <= t {
          ReachedFromEpoch(s, os, from, to, t);
        } else {
          var o :| o in os && o.startAt <= from && s.epoch < o.endAt;
          BridgedByOverride(s, os, from, to, o, t);
        }
      }
    } else if Reached(s, os, from, to, from) {
      GapAtStart(s, os, from, to);
    }
  }
}
