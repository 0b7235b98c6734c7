/** The shape of GenerateShifts' list: a tiling of the window, but for repeated override entries. */
module Tiling {
  import opened Duration
  import opened Rotation
  import opened Coverage

  /** y may follow x in the list: it starts where x ends, or repeats the same override entry. */
  predicate Follows(x: Shift, y: Shift) {
    x.endAt == y.startAt || (x == y && x.isOverride)
  }

  /** Non-empty entries, each following the one before. */
  ghost predicate Linked(xs: seq<Shift>) {
    && (forall i | 0 <= i < |xs| :: xs[i].startAt < xs[i].endAt)
    && (forall i | 0 < i < |xs| :: Follows(xs[i - 1], xs[i]))
  }

  lemma LinkedJoin(xs: seq<Shift>, ys: seq<Shift>)
    requires Linked(xs) && Linked(ys)
    requires xs != [] && ys != [] ==> Follows(xs[|xs| - 1], ys[0])
    ensures Linked(xs + ys)
  {
    var zs := xs + ys;
    forall i | 0 < i < |zs| ensures Follows(zs[i - 1], zs[i]) {
      if i > |xs| {
        assert Follows(ys[i - 1 - |xs|], ys[i - |xs|]);
      }
    }
  }

  /** The list without immediate repetitions. */
  function Collapse(xs: seq<Shift>): seq<Shift> {
    if |xs| <= 1 then xs
    else if xs[0] == xs[1] then Collapse(xs[1..])
    else [xs[0]] + Collapse(xs[1..])
  }

  /** Non-empty entries laid end to end. */
  ghost predicate EndToEnd(xs: seq<Shift>) {
    && (forall k | 0 <= k < |xs| :: xs[k].startAt < xs[k].endAt)
    && (forall k | 0 < k < |xs| :: xs[k - 1].endAt == xs[k].startAt)
  }

  /** Entries tile [a, b) exactly. */
  ghost predicate Tiles(xs: seq<Shift>, a: int, b: int) {
    xs != [] && xs[0].startAt == a && xs[|xs| - 1].endAt == b && EndToEnd(xs)
  }

  lemma LinkedTail(xs: seq<Shift>)
    requires Linked(xs) && xs != []
    ensures Linked(xs[1..])
  {
    var ys := xs[1..];
    forall i | 0 < i < |ys| ensures Follows(ys[i - 1], ys[i]) {
      assert Follows(xs[i], xs[i + 1]);
    }
  }

  lemma {:induction false} LinkedTiles(xs: seq<Shift>)
    requires Linked(xs) && xs != []
    ensures Tiles(Collapse(xs), xs[0].startAt, xs[|xs| - 1].endAt)
    ensures Collapse(xs)[0] == xs[0]
  {
    if |xs| > 1 {
      LinkedTail(xs);
      LinkedTiles(xs[1..]);
      if xs[0] != xs[1] {
        assert Follows(xs[0], xs[1]);
        var rest := Collapse(xs[1..]);
        var all := [xs[0]] + rest;
        forall i | 0 < i < |all| ensures all[i - 1].endAt == all[i].startAt {
          if i > 1 {
            assert rest[i - 2].endAt == rest[i - 1].startAt;
          }
        }
      }
    }
  }

  predicate Overlap(x: Shift, y: Shift) { x.startAt < y.endAt && y.startAt < x.endAt }

  /** In a linked list, overlapping entries are copies of one override entry. */
  lemma {:induction false} OverlapsAreCopies(xs: seq<Shift>, i: nat, j: nat)
    requires Linked(xs) && i < j < |xs|
    ensures (xs[i] == xs[j] && xs[i].isOverride) || xs[i].endAt <= xs[j].startAt
    decreases j
  {
    assert Follows(xs[j - 1], xs[j]);
    if i < j - 1 {
      OverlapsAreCopies(xs, i, j - 1);
    }
  }

  // ---- The pieces of one base shift ----

  lemma EndToEndJoin(xs: seq<Shift>, ys: seq<Shift>)
    requires EndToEnd(xs) && EndToEnd(ys)
    requires xs != [] && ys != [] ==> xs[|xs| - 1].endAt == ys[0].startAt
    ensures EndToEnd(xs + ys)
  {
    var zs := xs + ys;
    forall k | 0 < k < |zs| ensures zs[k - 1].endAt == zs[k].startAt {
      if k > |xs| {
        assert ys[k - 1 - |xs|].endAt == ys[k - |xs|].startAt;
      }
    }
  }

  /** The pieces start at `cur`, or at an override that began before the base shift. */
  ghost predicate StartsWell(b: Shift, r: seq<Shift>, cur: int) {
    r != [] ==> r[0].startAt == cur || (cur == b.startAt && r[0].isOverride && r[0].startAt < cur)
  }

  /** The pieces end where the base shift does, or at an override that ends after it. */
  ghost predicate EndsWell(b: Shift, r: seq<Shift>, cur: int) {
    if r == [] then b.endAt <= cur
    else b.endAt == r[|r| - 1].endAt || (r[|r| - 1].isOverride && b.endAt < r[|r| - 1].endAt)
  }

  lemma OverrideThenRest(b: Shift, os: seq<Override>, from: int, to: int, i: nat, cur: int, rest: seq<Shift>)
    requires Ordered(os) && CutState(b, os, from, to, i, cur) && i < |os| && Touches(Clip(os[i], from, to), b)
    requires rest == CutFrom(b, os, from, to, i + 1, Clip(os[i], from, to).endAt)
    requires EndToEnd(rest) && StartsWell(b, rest, Clip(os[i], from, to).endAt)
    requires EndsWell(b, rest, Clip(os[i], from, to).endAt)
    ensures var r := CutFrom(b, os, from, to, i, cur); EndToEnd(r) && StartsWell(b, r, cur) && EndsWell(b, r, cur)
  {
    var c := Clip(os[i], from, to);
    var r := CutFrom(b, os, from, to, i, cur);
    var head := if cur < c.startAt then [Shift(b.userId, cur, c.startAt, false), c] else [c];
    assert EndToEnd(head);
    EndToEndJoin(head, rest);
    assert r == head + rest;
    if rest == [] {
      assert r[|r| - 1] == c;
    } else {
      assert r[|r| - 1] == rest[|rest| - 1];
    }
  }

  /** What is cut from a base shift lies end to end. */
  lemma {:induction false} PiecesLinked(b: Shift, os: seq<Override>, from: int, to: int, i: nat, cur: int)
    requires Ordered(os) && CutState(b, os, from, to, i, cur)
    ensures var r := CutFrom(b, os, from, to, i, cur); EndToEnd(r) && StartsWell(b, r, cur) && EndsWell(b, r, cur)
    decreases |os| - i
  {
    if i < |os| {
      var c := Clip(os[i], from, to);
      CutStateStep(b, os, from, to, i, cur);
      if Touches(c, b) {
        PiecesLinked(b, os, from, to, i + 1, c.endAt);
        OverrideThenRest(b, os, from, to, i, cur, CutFrom(b, os, from, to, i + 1, c.endAt));
      } else {
        PiecesLinked(b, os, from, to, i + 1, cur);
      }
    }
  }

  ghost predicate Straddles(c: Shift, x: int) { c.startAt < x < c.endAt }

  /** At most one cut override straddles an instant. */
  lemma StraddleUnique(os: seq<Override>, from: int, to: int, i: nat, j: nat, x: int)
    requires Ordered(os) && i < |os| && j < |os|
    requires Straddles(Clip(os[i], from, to), x) && Straddles(Clip(os[j], from, to), x)
    ensures i == j
  {
  }

  ghost predicate StraddledBy(os: seq<Override>, from: int, to: int, x: int, i: int) {
    0 <= i < |os| && Straddles(Clip(os[i], from, to), x)
  }

  lemma {:induction false} OrderedEnds(r: seq<Shift>, i: nat, j: nat)
    requires EndToEnd(r) && i <= j < |r|
    ensures r[i].startAt <= r[j].startAt && r[i].endAt <= r[j].endAt
    decreases j
  {
    if i < j {
      OrderedEnds(r, i, j - 1);
    }
  }

  /** A straddling override is emitted among the pieces. */
  lemma StraddlerEmitted(b: Shift, os: seq<Override>, from: int, to: int, x: int, i: int) returns (k: nat)
    requires b.startAt < b.endAt && (x == b.startAt || x == b.endAt) && StraddledBy(os, from, to, x, i)
    ensures var r := Cut(b, os, from, to); k < |r| && r[k] == Clip(os[i], from, to)
  {
    OverridesEmitted(b, os, from, to, 0, b.startAt, i);
    var r := Cut(b, os, from, to);
    k :| 0 <= k < |r| && r[k] == Clip(os[i], from, to);
  }

  /** The first piece is the override straddling the base shift's start, or starts there. */
  lemma FirstPiece(b: Shift, os: seq<Override>, from: int, to: int)
    requires Ordered(os) && b.startAt < b.endAt
    ensures Cut(b, os, from, to) != []
    ensures var r := Cut(b, os, from, to);
            (exists i :: StraddledBy(os, from, to, b.startAt, i) && r[0] == Clip(os[i], from, to))
            || (r[0].startAt == b.startAt && forall i :: !StraddledBy(os, from, to, b.startAt, i))
  {
    var r := Cut(b, os, from, to);
    PiecesLinked(b, os, from, to, 0, b.startAt);
    if r[0].startAt == b.startAt {
      forall i ensures !StraddledBy(os, from, to, b.startAt, i) {
        if StraddledBy(os, from, to, b.startAt, i) {
          var k := StraddlerEmitted(b, os, from, to, b.startAt, i);
          OrderedEnds(r, 0, k);
        }
      }
    } else {
      PieceMeaning(b, os, from, to, 0, b.startAt, r[0]);
      var i :| 0 <= i < |os| && r[0] == Clip(os[i], from, to) && Touches(r[0], b);
      assert StraddledBy(os, from, to, b.startAt, i);
    }
  }

  /** The last piece is the override straddling the base shift's end, or ends there. */
  lemma LastPiece(b: Shift, os: seq<Override>, from: int, to: int)
    requires Ordered(os) && b.startAt < b.endAt
    ensures Cut(b, os, from, to) != []
    ensures var r := Cut(b, os, from, to);
            (exists i :: StraddledBy(os, from, to, b.endAt, i) && r[|r| - 1] == Clip(os[i], from, to))
            || (r[|r| - 1].endAt == b.endAt && forall i :: !StraddledBy(os, from, to, b.endAt, i))
  {
    var r := Cut(b, os, from, to);
    PiecesLinked(b, os, from, to, 0, b.startAt);
    var last := r[|r| - 1];
    if last.endAt == b.endAt {
      forall i ensures !StraddledBy(os, from, to, b.endAt, i) {
        if StraddledBy(os, from, to, b.endAt, i) {
          var k := StraddlerEmitted(b, os, from, to, b.endAt, i);
          OrderedEnds(r, k, |r| - 1);
        }
      }
    } else {
      assert last in r;
      PieceMeaning(b, os, from, to, 0, b.startAt, last);
      var i :| 0 <= i < |os| && last == Clip(os[i], from, to) && Touches(last, b);
      assert StraddledBy(os, from, to, b.endAt, i);
    }
  }

  /** Consecutive base shifts: the pieces of the second follow those of the first. */
  lemma PiecesFollow(b: Shift, d: Shift, os: seq<Override>, from: int, to: int)
    requires Ordered(os) && b.startAt < b.endAt == d.startAt < d.endAt
    ensures var r, q := Cut(b, os, from, to), Cut(d, os, from, to);
            r != [] && q != [] && Follows(r[|r| - 1], q[0])
  {
    LastPiece(b, os, from, to);
    FirstPiece(d, os, from, to);
    var r, q := Cut(b, os, from, to), Cut(d, os, from, to);
    if i, j :| StraddledBy(os, from, to, b.endAt, i) && r[|r| - 1] == Clip(os[i], from, to)
               && StraddledBy(os, from, to, d.startAt, j) && q[0] == Clip(os[j], from, to) {
      StraddleUnique(os, from, to, i, j, b.endAt);
    }
  }

  lemma EndToEndLinked(xs: seq<Shift>)
    requires EndToEnd(xs)
    ensures Linked(xs)
  {
  }

  lemma CutLinked(b: Shift, os: seq<Override>, from: int, to: int)
    requires Ordered(os) && b.startAt < b.endAt
    ensures Cut(b, os, from, to) != [] && Linked(Cut(b, os, from, to))
  {
    FirstPiece(b, os, from, to);
    PiecesLinked(b, os, from, to, 0, b.startAt);
    EndToEndLinked(Cut(b, os, from, to));
  }

  /** All pieces of all base shifts: linked, from the first base shift's first piece to the last one's last. */
  lemma {:induction false} CutAllLinked(base: seq<Shift>, os: seq<Override>, from: int, to: int)
    requires Ordered(os) && EndToEnd(base) && base != []
    ensures CutAll(base, os, from, to) != [] && Linked(CutAll(base, os, from, to))
    ensures Cut(base[0], os, from, to) != [] && Cut(base[|base| - 1], os, from, to) != []
    ensures CutAll(base, os, from, to)[0] == Cut(base[0], os, from, to)[0]
    ensures var r, q := CutAll(base, os, from, to), Cut(base[|base| - 1], os, from, to); r[|r| - 1] == q[|q| - 1]
  {
    var n := |base| - 1;
    var q := Cut(base[n], os, from, to);
    CutLinked(base[n], os, from, to);
    if n > 0 {
      var front := base[..n];
      assert front[0] == base[0] && front[n - 1] == base[n - 1];
      CutAllLinked(front, os, from, to);
      PiecesFollow(base[n - 1], base[n], os, from, to);
      LinkedJoin(CutAll(front, os, from, to), q);
    } else {
      assert base[..0] == [];
      assert CutAll(base, os, from, to) == q;
    }
  }

  lemma BaseEntry(s: Schedule, dur: int, from: int, to: int, j: nat)
    requires s.rotation != [] && dur > 0 && s.epoch <= from < to && j < BaseCount(s.epoch, dur, from, to)
    ensures var base := BaseShifts(s, dur, from, to);
            && base[j].startAt == Boundary(s.epoch, dur, ShiftIndex(s.epoch, dur, from) + j) < base[j].endAt
            && (j + 1 < |base| ==> base[j].endAt == base[j + 1].startAt)
  {
    var k := ShiftIndex(s.epoch, dur, from) + j;
    assert BaseShifts(s, dur, from, to)[j] == BaseShift(s, dur, to, k);
    BoundaryStep(s.epoch, dur, k);
    BoundaryInside(s.epoch, dur, from, to, j);
    if j + 1 < BaseCount(s.epoch, dur, from, to) {
      BoundaryInside(s.epoch, dur, from, to, j + 1);
      assert BaseShifts(s, dur, from, to)[j + 1] == BaseShift(s, dur, to, k + 1);
    }
  }

  lemma BaseEndToEnd(s: Schedule, dur: int, from: int, to: int)
    requires s.rotation != [] && dur > 0 && s.epoch <= from < to
    ensures var base := BaseShifts(s, dur, from, to); base != [] && EndToEnd(base)
    ensures var base := BaseShifts(s, dur, from, to);
            && base[0].startAt == Boundary(s.epoch, dur, ShiftIndex(s.epoch, dur, from)) <= from < base[0].startAt + dur
            && base[|base| - 1].endAt == to
  {
    var base := BaseShifts(s, dur, from, to);
    var k := ShiftIndex(s.epoch, dur, from);
    CountReaches(s.epoch, dur, from, to);
    forall j | 0 <= j < |base|
      ensures base[j].startAt < base[j].endAt && (j + 1 < |base| ==> base[j].endAt == base[j + 1].startAt)
    {
      BaseEntry(s, dur, from, to, j);
    }
    BaseEntry(s, dur, from, to, 0);
    IndexEncloses(s.epoch, dur, from, k);
    BoundaryStep(s.epoch, dur, k);
    assert base[|base| - 1] == BaseShift(s, dur, to, k + |base| - 1);
  }

  lemma BoundaryInside(epoch: int, dur: int, from: int, to: int, j: nat)
    requires dur > 0 && epoch <= from < to && j < BaseCount(epoch, dur, from, to)
    ensures Boundary(epoch, dur, ShiftIndex(epoch, dur, from) + j) < to
  {
    var k := ShiftIndex(epoch, dur, from);
    var m := BaseCount(epoch, dur, from, to);
    IndexEncloses(epoch, dur, from, k);
    var length := to - Boundary(epoch, dur, k);
    assert Boundary(epoch, dur, k + j) == Boundary(epoch, dur, k) + j * dur;
    if length > dur {
      assert m * dur <= length + dur - 1;
      StrictMultiples(j, m, dur);
    }
  }

  lemma ListLinked(s: Schedule, os: seq<Override>, from: int, to: int)
    requires Staffed(s) && Ordered(os) && s.epoch <= from < to
    ensures var dur := ParseDuration(s.shiftDuration).value;
            var start := Boundary(s.epoch, dur, ShiftIndex(s.epoch, dur, from));
            var xs := Listed(s, os, from, to);
            && start <= from < start + dur
            && xs != [] && Linked(xs) && xs[0].startAt == start && xs[|xs| - 1].endAt == to
  {
    var dur := ParseDuration(s.shiftDuration).value;
    var base := BaseShifts(s, dur, from, to);
    BaseEndToEnd(s, dur, from, to);
    if os == [] {
      EndToEndLinked(base);
    } else {
      CutAllLinked(base, os, from, to);
      FirstPiece(base[0], os, from, to);
      LastPiece(base[|base| - 1], os, from, to);
    }
  }

  /**
   * From the epoch on, the list without its repeated entries tiles the window exactly, from the shift
   * boundary at or before `from` to `to`; and overlapping entries are copies of one override entry.
   */
  lemma ShiftsTile(s: Schedule, os: seq<Override>, from: int, to: int)
    requires Staffed(s) && Ordered(os) && s.epoch <= from < to
    ensures var dur := ParseDuration(s.shiftDuration).value;
            var start := Boundary(s.epoch, dur, ShiftIndex(s.epoch, dur, from));
            start <= from < start + dur && Tiles(Collapse(Listed(s, os, from, to)), start, to)
    ensures var xs := Listed(s, os, from, to);
            forall i, j | 0 <= i < j < |xs| && Overlap(xs[i], xs[j]) :: xs[i] == xs[j] && xs[i].isOverride
  {
    var xs := Listed(s, os, from, to);
    ListLinked(s, os, from, to);
    LinkedTiles(xs);
    forall i, j | 0 <= i < j < |xs| && Overlap(xs[i], xs[j]) ensures xs[i] == xs[j] && xs[i].isOverride {
      OverlapsAreCopies(xs, i, j);
    }
  }
}
