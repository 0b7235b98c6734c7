/**
 * The schedule_overrides table (scheduling store.go and handler.go): creating and deleting keep the
 * windows of a schedule disjoint, and the overrides of a window are all the rotation code needs.
 */
module Overrides {
  import opened Common
  import opened Sorting
  import opened Duration
  import opened Rotation
  import opened Coverage
  import opened Tiling

  predicate Intersects(a: Override, b: Override) { a.startAt < b.endAt && b.startAt < a.endAt }

  /** Two non-empty windows intersect exactly when some instant lies in both; one that ends where the other starts does not. */
  lemma IntersectsMeaning(a: Override, b: Override)
    requires a.startAt < a.endAt && b.startAt < b.endAt
    ensures Intersects(a, b) <==> exists t :: Covers(a, t) && Covers(b, t)
    ensures a.endAt <= b.startAt || b.endAt <= a.startAt <==> !Intersects(a, b)
  {
    if Intersects(a, b) {
      assert Covers(a, Max(a.startAt, b.startAt)) && Covers(b, Max(a.startAt, b.startAt));
    }
  }

  /** Rows have non-empty windows, and rows of one schedule do not overlap. */
  ghost predicate Disjoint(rows: seq<Override>) {
    && (forall i | 0 <= i < |rows| :: rows[i].startAt < rows[i].endAt)
    && (forall i, j | 0 <= i < j < |rows| && rows[i].scheduleId == rows[j].scheduleId :: !Intersects(rows[i], rows[j]))
  }

  datatype OverrideError = InvalidWindow | Conflict(existing: Override) | NotFound

  function ByStart(): (Override, Override) -> bool { (a: Override, b: Override) => a.startAt <= b.startAt }

  /** Rows of one schedule and tenant with windows meeting [from, to), in table order. */
  function Matching(rows: seq<Override>, tenantId: string, scheduleId: string, from: int, to: int): seq<Override> {
    if rows == [] then []
    else
      var last := rows[|rows| - 1];
      Matching(rows[..|rows| - 1], tenantId, scheduleId, from, to)
      + if last.scheduleId == scheduleId && last.tenantId == tenantId && last.startAt < to && from < last.endAt
        then [last] else []
  }

  class OverrideTable {
    var rows: seq<Override>

    constructor ()
      ensures rows == [] && Disjoint(rows)
    {
      rows := [];
    }

    /** The insertion of CreateOverride behind the handler's check of the window. */
    method Create(o: Override) returns (r: Result<(), OverrideError>)
      modifies this
      ensures r == Err(InvalidWindow) <==> o.endAt <= o.startAt
      ensures r.Ok? <==> o.startAt < o.endAt
                         && forall i | 0 <= i < |old(rows)| && old(rows)[i].scheduleId == o.scheduleId ::
                              old(rows)[i].endAt <= o.startAt || o.endAt <= old(rows)[i].startAt
      ensures r.Err? && r.error.Conflict? ==> r.error.existing in old(rows) && r.error.existing.scheduleId == o.scheduleId
                                              && r.error.existing.startAt < o.endAt && o.startAt < r.error.existing.endAt
                                              && forall i | 0 <= i < |old(rows)| && old(rows)[i].scheduleId == o.scheduleId
                                                            && old(rows)[i].startAt < o.endAt && o.startAt < old(rows)[i].endAt ::
                                                   r.error.existing.startAt <= old(rows)[i].startAt
      ensures r.Err? ==> !r.error.NotFound?
      ensures rows == if r.Ok? then old(rows) + [o] else old(rows)
      ensures old(Disjoint(rows)) ==> Disjoint(rows)
    {
      if o.endAt <= o.startAt {
        return Err(InvalidWindow);
      }
      var found: Option<Override> := None;
      for i := 0 to |rows|
        invariant found.None? ==> forall k | 0 <= k < i :: rows[k].scheduleId == o.scheduleId ==> !Intersects(rows[k], o)
        invariant found.Some? ==> found.value in rows && found.value.scheduleId == o.scheduleId && Intersects(found.value, o)
        invariant found.Some? ==> forall k | 0 <= k < i ::
                                    rows[k].scheduleId == o.scheduleId && Intersects(rows[k], o)
                                    ==> found.value.startAt <= rows[k].startAt
      {
        var row := rows[i];
        if row.scheduleId == o.scheduleId && row.startAt < o.endAt && row.endAt > o.startAt
           && (found.None? || row.startAt < found.value.startAt) {
          found := Some(row);
        }
      }
      if found.Some? {
        return Err(Conflict(found.value));
      }
      rows := rows + [o];
      return Ok(());
    }

    /** DeleteOverride: drops the rows with this id and tenant. */
    method Delete(tenantId: string, id: string) returns (r: Result<(), OverrideError>)
      modifies this
      ensures r.Err? ==> r.error == NotFound && rows == old(rows)
      ensures r.Err? <==> forall o | o in old(rows) :: !(o.id == id && o.tenantId == tenantId)
      ensures rows == Without(old(rows), tenantId, id)
      ensures forall o :: o in rows <==> o in old(rows) && !(o.id == id && o.tenantId == tenantId)
      ensures old(Disjoint(rows)) ==> Disjoint(rows)
    {
      var kept: seq<Override> := [];
      for i := 0 to |rows|
        invariant kept == Without(rows[..i], tenantId, id)
      {
        assert rows[..i + 1][..i] == rows[..i];
        if !(rows[i].id == id && rows[i].tenantId == tenantId) {
          kept := kept + [rows[i]];
        }
      }
      assert rows[..|rows|] == rows;
      WithoutFacts(rows, tenantId, id);
      WithoutLength(rows, tenantId, id);
      if Disjoint(rows) {
        WithoutDisjoint(rows, tenantId, id);
      }
      if |kept| == |rows| {
        return Err(NotFound);
      }
      rows := kept;
      return Ok(());
    }

    /** ListOverridesInWindow: the matching rows, ordered by start. */
    method ListInWindow(tenantId: string, scheduleId: string, from: int, to: int) returns (result: seq<Override>)
      ensures SortedBy(ByStart(), result)
      ensures multiset(result) == multiset(Matching(rows, tenantId, scheduleId, from, to))
      ensures forall i, j | 0 <= i < j < |result| :: result[i].startAt <= result[j].startAt
      ensures forall o :: o in result <==>
                o in rows && o.scheduleId == scheduleId && o.tenantId == tenantId && o.startAt < to && from < o.endAt
    {
      var matching: seq<Override> := [];
      for i := 0 to |rows|
        invariant matching == Matching(rows[..i], tenantId, scheduleId, from, to)
      {
        assert rows[..i + 1][..i] == rows[..i];
        var row := rows[i];
        if row.scheduleId == scheduleId && row.tenantId == tenantId && row.startAt < to && row.endAt > from {
          matching := matching + [row];
        }
      }
      assert rows[..|rows|] == rows;
      result := Sort(ByStart(), matching);
      SortSorts(ByStart(), matching);
      MatchingMembers(rows, tenantId, scheduleId, from, to);
      assert forall o :: o in result <==> o in multiset(result);
      assert forall o :: o in matching <==> o in multiset(matching);
    }
  }

  function Without(rows: seq<Override>, tenantId: string, id: string): seq<Override> {
    if rows == [] then []
    else
      var last := rows[|rows| - 1];
      Without(rows[..|rows| - 1], tenantId, id) + if last.id == id && last.tenantId == tenantId then [] else [last]
  }

  /** Deleting drops exactly the rows asked for, and reports whether there were any. */
  lemma {:induction false} WithoutFacts(rows: seq<Override>, tenantId: string, id: string)
    ensures |Without(rows, tenantId, id)| <= |rows|
    ensures |Without(rows, tenantId, id)| == |rows| ==> Without(rows, tenantId, id) == rows
    ensures forall o :: o in Without(rows, tenantId, id) <==> o in rows && !(o.id == id && o.tenantId == tenantId)
  {
    if rows != [] {
      var front := rows[..|rows| - 1];
      WithoutFacts(front, tenantId, id);
      assert rows == front + [rows[|rows| - 1]];
    }
  }

  lemma {:induction false} WithoutLength(rows: seq<Override>, tenantId: string, id: string)
    ensures |Without(rows, tenantId, id)| == |rows| <==> forall o | o in rows :: !(o.id == id && o.tenantId == tenantId)
  {
    if rows != [] {
      var front := rows[..|rows| - 1];
      WithoutLength(front, tenantId, id);
      WithoutFacts(front, tenantId, id);
      assert forall o :: o in rows <==> o in front || o == rows[|rows| - 1];
    }
  }

  lemma {:induction false} WithoutDisjoint(rows: seq<Override>, tenantId: string, id: string)
    requires Disjoint(rows)
    ensures Disjoint(Without(rows, tenantId, id))
  {
    if rows != [] {
      var front := rows[..|rows| - 1];
      var kept := Without(front, tenantId, id);
      WithoutDisjoint(front, tenantId, id);
      WithoutFacts(front, tenantId, id);
      AppendDisjoint(kept, rows, |rows| - 1);
    }
  }

  lemma AppendDisjoint(kept: seq<Override>, rows: seq<Override>, n: nat)
    requires Disjoint(rows) && Disjoint(kept) && n < |rows| && forall o | o in kept :: o in rows[..n]
    ensures Disjoint(kept + [rows[n]])
  {
    forall i | 0 <= i < |kept| && kept[i].scheduleId == rows[n].scheduleId ensures !Intersects(kept[i], rows[n]) {
      assert kept[i] in rows[..n];
      var k :| 0 <= k < n && rows[..n][k] == kept[i];
    }
  }

  // ---- Sufficiency of the windowed rows ----

  predicate Meets(o: Override, from: int, to: int) { o.startAt < to && from < o.endAt }

  /** The overrides of a listing that meet [from, to), order kept. */
  function InWindow(os: seq<Override>, from: int, to: int): seq<Override> {
    if os == [] then []
    else if Meets(os[0], from, to) then [os[0]] + InWindow(os[1..], from, to)
    else InWindow(os[1..], from, to)
  }

  lemma {:induction false} InWindowMembers(os: seq<Override>, from: int, to: int)
    ensures forall o :: o in InWindow(os, from, to) <==> o in os && Meets(o, from, to)
  {
    if os != [] {
      InWindowMembers(os[1..], from, to);
      assert forall o :: o in os <==> o == os[0] || o in os[1..];
    }
  }

  lemma {:induction false} InWindowOrdered(os: seq<Override>, from: int, to: int)
    requires Ordered(os)
    ensures Ordered(InWindow(os, from, to))
  {
    if os != [] {
      var rest := InWindow(os[1..], from, to);
      assert Ordered(os[1..]);
      InWindowOrdered(os[1..], from, to);
      InWindowMembers(os[1..], from, to);
      forall j | 0 <= j < |rest| ensures os[0].endAt <= rest[j].startAt {
        assert rest[j] in os[1..];
        var k :| 0 <= k < |os[1..]| && os[1..][k] == rest[j];
        assert os[k + 1] == rest[j];
      }
    }
  }

  /** Overrides outside a window do not affect a point query inside it. */
  lemma {:induction false} SameAnswer(s: Schedule, os: seq<Override>, from: int, to: int, t: int)
    requires from <= t < to
    ensures OnCallAt(s, InWindow(os, from, to), t) == OnCallAt(s, os, t)
  {
    if os != [] {
      SameAnswer(s, os[1..], from, to, t);
      if Meets(os[0], from, to) {
        assert InWindow(os, from, to)[1..] == InWindow(os[1..], from, to);
      }
    }
  }

  /** GetOnCall asks for the overrides of [at, at + 1s): the answer is the same as with all of them. */
  lemma PointQueryWindowed(s: Schedule, os: seq<Override>, at: int)
    ensures OnCallAt(s, InWindow(os, at, at + SECOND), at) == OnCallAt(s, os, at)
  {
    SameAnswer(s, os, at, at + SECOND, at);
  }

  lemma {:induction false} CutTail(b: Shift, os: seq<Override>, from: int, to: int, i: nat, cur: int)
    requires i < |os|
    ensures CutFrom(b, os, from, to, i + 1, cur) == CutFrom(b, os[1..], from, to, i, cur)
    decreases |os| - i
  {
    if i + 1 < |os| {
      var c := Clip(os[i + 1], from, to);
      CutTail(b, os, from, to, i + 1, if Touches(c, b) then c.endAt else cur);
    }
  }

  /** Overrides outside the window cut nothing. */
  lemma {:induction false} CutWindowed(b: Shift, os: seq<Override>, from: int, to: int, cur: int)
    ensures CutFrom(b, InWindow(os, from, to), from, to, 0, cur) == CutFrom(b, os, from, to, 0, cur)
  {
    if os != [] {
      var c := Clip(os[0], from, to);
      var w := InWindow(os, from, to);
      var next := if Touches(c, b) then c.endAt else cur;
      CutTail(b, os, from, to, 0, next);
      CutWindowed(b, os[1..], from, to, next);
      if Meets(os[0], from, to) {
        assert w[1..] == InWindow(os[1..], from, to);
        CutTail(b, w, from, to, 0, next);
      }
    }
  }

  lemma {:induction false} CutAllWindowed(base: seq<Shift>, os: seq<Override>, from: int, to: int)
    ensures CutAll(base, InWindow(os, from, to), from, to) == CutAll(base, os, from, to)
  {
    if base != [] {
      CutAllWindowed(base[..|base| - 1], os, from, to);
      CutWindowed(base[|base| - 1], os, from, to, base[|base| - 1].startAt);
    }
  }

  /** With nothing to cut, non-empty rotation entries come back as they are. */
  lemma {:induction false} CutAllByNone(base: seq<Shift>, from: int, to: int)
    requires forall k | 0 <= k < |base| :: base[k].startAt < base[k].endAt && !base[k].isOverride
    ensures CutAll(base, [], from, to) == base
  {
    if base != [] {
      var n := |base| - 1;
      CutAllByNone(base[..n], from, to);
      assert Cut(base[n], [], from, to) == [base[n]];
      assert base == base[..n] + [base[n]];
    }
  }

  lemma BaseNonEmpty(s: Schedule, dur: int, from: int, to: int, j: nat)
    requires s.rotation != [] && dur > 0 && from < to && s.epoch < to && j < BaseCount(s.epoch, dur, from, to)
    ensures var b := BaseShifts(s, dur, from, to)[j]; b.startAt < b.endAt && !b.isOverride
  {
    var k := ShiftIndex(s.epoch, dur, from);
    BoundaryStep(s.epoch, dur, k + j);
    assert BaseShifts(s, dur, from, to)[j] == BaseShift(s, dur, to, k + j);
    if s.epoch <= from {
      BoundaryInside(s.epoch, dur, from, to, j);
    } else {
      assert BaseCount(s.epoch, dur, from, to) == BaseCount(s.epoch, dur, s.epoch, to);
      BoundaryInside(s.epoch, dur, s.epoch, to, j);
    }
  }

  /** A window wholly before the epoch has one base entry, running backwards. */
  lemma BackwardsEntry(s: Schedule, dur: int, from: int, to: int)
    requires s.rotation != [] && dur > 0 && from < to <= s.epoch
    ensures BaseShifts(s, dur, from, to) == [Shift(s.rotation[0], s.epoch, to, false)]
  {
    BoundaryStep(s.epoch, dur, 0);
    assert 0 % |s.rotation| == 0;
  }

  /**
   * ListShifts passes only the overrides meeting the window. The list is the same as with all of them
   * exactly when the window reaches past the epoch, or is empty, or leaves out nothing that matters.
   */
  lemma ShiftsWindowed(s: Schedule, os: seq<Override>, from: int, to: int)
    requires Staffed(s)
    ensures ShiftList(s, InWindow(os, from, to), from, to) == ShiftList(s, os, from, to)
            <==> to <= from || s.epoch < to || os == [] || InWindow(os, from, to) != []
  {
    var dur := ParseDuration(s.shiftDuration).value;
    var base := BaseShifts(s, dur, from, to);
    CutAllWindowed(base, os, from, to);
    if os != [] && InWindow(os, from, to) == [] {
      if to <= from {
      } else if s.epoch < to {
        forall k | 0 <= k < |base| ensures base[k].startAt < base[k].endAt && !base[k].isOverride {
          BaseNonEmpty(s, dur, from, to, k);
        }
        CutAllByNone(base, from, to);
      } else {
        BackwardsEntry(s, dur, from, to);
        assert base[..0] == [];
        assert CutAll(base, [], from, to) == CutAll(base[..0], [], from, to) + Cut(base[0], [], from, to) == [];
      }
    }
  }

  // ---- From the table to the rotation code ----

  lemma {:induction false} MatchingMembers(rows: seq<Override>, tenantId: string, scheduleId: string, from: int, to: int)
    ensures forall o :: o in Matching(rows, tenantId, scheduleId, from, to)
                        <==> o in rows && o.scheduleId == scheduleId && o.tenantId == tenantId && Meets(o, from, to)
  {
    if rows != [] {
      MatchingMembers(rows[..|rows| - 1], tenantId, scheduleId, from, to);
      assert forall o :: o in rows <==> o in rows[..|rows| - 1] || o == rows[|rows| - 1];
    }
  }

  /** Pairwise apart, in whatever order. */
  ghost predicate Apart(s: seq<Override>) {
    && (forall i | 0 <= i < |s| :: s[i].startAt < s[i].endAt)
    && (forall i, j | 0 <= i < j < |s| :: !Intersects(s[i], s[j]))
  }

  lemma {:induction false} MatchingApart(rows: seq<Override>, tenantId: string, scheduleId: string, from: int, to: int)
    requires Disjoint(rows)
    ensures Apart(Matching(rows, tenantId, scheduleId, from, to))
  {
    if rows != [] {
      var n := |rows| - 1;
      var front := Matching(rows[..n], tenantId, scheduleId, from, to);
      MatchingApart(rows[..n], tenantId, scheduleId, from, to);
      MatchingMembers(rows[..n], tenantId, scheduleId, from, to);
      if rows[n].scheduleId == scheduleId {
        forall i | 0 <= i < |front| ensures !Intersects(front[i], rows[n]) {
          assert front[i] in front;
          var k :| 0 <= k < n && rows[..n][k] == front[i];
        }
      }
    }
  }

  lemma LaterInOrder(s: seq<Override>, o: Override)
    requires Ordered(s) && s != [] && o in s[1..]
    ensures s[0].endAt <= o.startAt
  {
    var k :| 0 <= k < |s| - 1 && s[1..][k] == o;
    assert s[k + 1] == o;
  }

  /** Inserting a row apart from the others, by start, keeps the listing ordered. */
  lemma {:induction false} InsertOrdered(x: Override, s: seq<Override>)
    requires Ordered(s) && x.startAt < x.endAt && forall o | o in s :: !Intersects(x, o)
    ensures Ordered(Insert(ByStart(), x, s))
    ensures forall o :: o in Insert(ByStart(), x, s) <==> o == x || o in s
  {
    if s != [] {
      assert s[0] in s;
      if s[0].startAt < x.startAt {
        assert Ordered(s[1..]);
        assert forall o | o in s[1..] :: o in s;
        InsertOrdered(x, s[1..]);
        var rest := Insert(ByStart(), x, s[1..]);
        forall j | 0 <= j < |rest| ensures s[0].endAt <= rest[j].startAt {
          assert rest[j] in rest;
          if rest[j] != x {
            LaterInOrder(s, rest[j]);
          }
        }
      }
    }
  }

  lemma {:induction false} SortOrdered(s: seq<Override>)
    requires Apart(s)
    ensures Ordered(Sort(ByStart(), s))
    ensures forall o :: o in Sort(ByStart(), s) <==> o in s
  {
    if s != [] {
      assert Apart(s[1..]);
      SortOrdered(s[1..]);
      InsertOrdered(s[0], Sort(ByStart(), s[1..]));
      assert forall o :: o in s <==> o == s[0] || o in s[1..];
    }
  }

  /** Two ordered listings of the same rows are equal. */
  lemma {:induction false} OrderedSame(a: seq<Override>, b: seq<Override>)
    requires Ordered(a) && Ordered(b) && forall o :: o in a <==> o in b
    ensures a == b
  {
    assert a != [] ==> a[0] in b;
    assert b != [] ==> b[0] in a;
    if a != [] {
      OrderedFirst(a, b);
      OrderedFirst(b, a);
      assert a[0] == b[0];
      TailMembers(a);
      TailMembers(b);
      OrderedSame(a[1..], b[1..]);
      assert a == [a[0]] + a[1..] && b == [b[0]] + b[1..];
    }
  }

  lemma OrderedFirst(a: seq<Override>, b: seq<Override>)
    requires Ordered(a) && Ordered(b) && a != [] && b != [] && forall o :: o in a <==> o in b
    ensures a[0].startAt <= b[0].startAt && (a[0].startAt == b[0].startAt ==> a[0] == b[0])
  {
    assert b[0] in b && b[0] in a;
    var i :| 0 <= i < |a| && a[i] == b[0];
  }

  lemma TailMembers(s: seq<Override>)
    requires Ordered(s) && s != []
    ensures Ordered(s[1..])
    ensures forall o :: o in s[1..] <==> o in s && o != s[0]
  {
    assert forall k | 1 <= k < |s| :: s[k] != s[0] && s[k] == s[1..][k - 1];
  }

  /** The listing the rotation code is given for a window of a schedule. */
  function Listing(rows: seq<Override>, tenantId: string, scheduleId: string, from: int, to: int): seq<Override> {
    Sort(ByStart(), Matching(rows, tenantId, scheduleId, from, to))
  }

  /** What the table lists for a window is ordered, and is the part of any wider listing that meets the window. */
  lemma ListingOfWindow(rows: seq<Override>, tenantId: string, scheduleId: string, from: int, to: int, lo: int, hi: int)
    requires Disjoint(rows) && lo <= from && to <= hi
    ensures Ordered(Listing(rows, tenantId, scheduleId, from, to))
    ensures Listing(rows, tenantId, scheduleId, from, to) == InWindow(Listing(rows, tenantId, scheduleId, lo, hi), from, to)
  {
    var all := Listing(rows, tenantId, scheduleId, lo, hi);
    var some := Listing(rows, tenantId, scheduleId, from, to);
    MatchingApart(rows, tenantId, scheduleId, lo, hi);
    MatchingApart(rows, tenantId, scheduleId, from, to);
    SortOrdered(Matching(rows, tenantId, scheduleId, lo, hi));
    SortOrdered(Matching(rows, tenantId, scheduleId, from, to));
    MatchingMembers(rows, tenantId, scheduleId, lo, hi);
    MatchingMembers(rows, tenantId, scheduleId, from, to);
    InWindowOrdered(all, from, to);
    InWindowMembers(all, from, to);
    OrderedSame(some, InWindow(all, from, to));
  }

  /** End to end: a point query on the table's windowed rows agrees with the listed shifts of any window around it. */
  lemma TableQueriesAgree(rows: seq<Override>, tenantId: string, s: Schedule, scheduleId: string, from: int, to: int, p: Shift, t: int)
    requires Disjoint(rows) && from <= t < to
    requires var os := Listing(rows, tenantId, scheduleId, from, to);
             Staffed(s) && p in Listed(s, os, from, to) && Holds(p, t)
    ensures var at := OnCallAt(s, Listing(rows, tenantId, scheduleId, t, t + SECOND), t); at.Ok? && at.value.userId == p.userId
  {
    var hi := Max(to, t + SECOND);
    var all := Listing(rows, tenantId, scheduleId, from, hi);
    var os := Listing(rows, tenantId, scheduleId, from, to);
    ListingOfWindow(rows, tenantId, scheduleId, from, to, from, hi);
    ListingOfWindow(rows, tenantId, scheduleId, t, t + SECOND, from, hi);
    ShiftsNameOnCall(s, os, from, to, p, t);
    PointQueryWindowed(s, all, t);
    SameAnswer(s, all, from, to, t);
  }

  // ---- Two creations at once ----

  /** What CreateOverride's look at the table must find. */
  ghost predicate Free(rows: seq<Override>, o: Override) {
    o.startAt < o.endAt && forall i | 0 <= i < |rows| && rows[i].scheduleId == o.scheduleId :: !Intersects(rows[i], o)
  }

  /**
   * Two creations that both look before either inserts: windows stay disjoint exactly when the two new ones are of different
   * schedules or do not meet.
   */
  lemma RacingCreations(rows: seq<Override>, a: Override, b: Override)
    requires Disjoint(rows) && Free(rows, a) && Free(rows, b)
    ensures Disjoint(rows + [a] + [b]) <==> a.scheduleId != b.scheduleId || !Intersects(a, b)
  {
    var all := rows + [a] + [b];
    var n := |rows|;
    assert all[n] == a && all[n + 1] == b && forall i | 0 <= i < n :: all[i] == rows[i];
  }
}
