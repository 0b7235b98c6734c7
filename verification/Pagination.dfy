/**
 * Keyset pagination of incidents (incident store.go): ListIncidents with its opaque cursor. The codec of a cursor,
 * RFC 3339 timestamps inside base64url text, is a parameter known only by its round trips.
 */
module Pagination {
  import opened Common
  import opened Sorting

  datatype Row = Row(createdAt: int, id: string, tenantId: string, status: string, severity: string, labels: map<string, string>)

  datatype Key = Key(createdAt: int, id: string)

  function KeyOf(r: Row): Key { Key(r.createdAt, r.id) }

  /** Row-value comparison. */
  predicate KeyLess(a: Key, b: Key) {
    a.createdAt < b.createdAt || (a.createdAt == b.createdAt && a.id != b.id && LexLeq(a.id, b.id))
  }

  /** Strict and weak steps down add up. */
  lemma StepsDown(a: Key, b: Key, c: Key)
    ensures !KeyLess(a, b) && !KeyLess(b, c) ==> !KeyLess(a, c)
    ensures KeyLess(b, a) && !KeyLess(b, c) ==> KeyLess(c, a)
    ensures !KeyLess(a, b) && KeyLess(c, b) ==> KeyLess(c, a)
  {
    KeyOrder(a, b, c);
    KeyOrder(b, c, a);
    KeyOrder(c, b, a);
    KeyOrder(a, c, b);
  }

  lemma KeyOrder(a: Key, b: Key, c: Key)
    ensures !KeyLess(a, a)
    ensures a == b || KeyLess(a, b) || KeyLess(b, a)
    ensures !(KeyLess(a, b) && KeyLess(b, a))
    ensures KeyLess(a, b) && KeyLess(b, c) ==> KeyLess(a, c)
  {
    LexTotal(a.id, b.id);
    if LexLeq(a.id, b.id) && LexLeq(b.id, a.id) {
      LexAntisymmetric(a.id, b.id);
    }
    if LexLeq(a.id, b.id) && LexLeq(b.id, c.id) {
      LexTransitive(a.id, b.id, c.id);
      if a.id == c.id {
        LexAntisymmetric(a.id, b.id);
      }
    }
  }

  /** ORDER BY created_at DESC, id DESC. */
  predicate ListedFirst(a: Row, b: Row) { !KeyLess(KeyOf(a), KeyOf(b)) }

  // ---- Cursors ----

  datatype Codec = Codec(format: int -> string, parse: string -> Option<int>, enc: string -> string, dec: string -> Option<string>)

  /** Instants that section 5.6 of RFC 3339 has a text for: the years 0 to 9999. */
  predicate Writable(t: int) { -62_167_219_200 * SECOND <= t < 253_402_300_800 * SECOND }

  /** Writable timestamps print without '|' and parse back; the text encoding decodes, the empty text to itself. */
  ghost predicate Faithful(c: Codec) {
    && (forall t | Writable(t) :: '|' !in c.format(t) && c.parse(c.format(t)) == Some(t))
    && (forall s :: c.dec(c.enc(s)) == Some(s))
    && c.dec("") == Some("")
  }

  function EncodeCursor(c: Codec, k: Key): string { c.enc(c.format(k.createdAt) + ['|'] + k.id) }

  /** None for a cursor that is empty or does not parse: the first page. */
  function DecodeCursor(c: Codec, cursor: string): Option<Key> {
    if cursor == "" then None
    else match c.dec(cursor)
      case None => None
      case Some(raw) =>
        var cut := IndexOf(raw, '|');
        if cut == |raw| || raw[cut + 1..] == "" then None
        else match c.parse(raw[..cut])
          case None => None
          case Some(t) => Some(Key(t, raw[cut + 1..]))
  }

  /** A cursor leads back to its row exactly when the row has an id, whatever characters the id holds. */
  lemma CursorRoundTrip(c: Codec, k: Key)
    requires Faithful(c) && Writable(k.createdAt)
    ensures EncodeCursor(c, k) != ""
    ensures DecodeCursor(c, EncodeCursor(c, k)) == Some(k) <==> k.id != ""
  {
    var raw := c.format(k.createdAt) + ['|'] + k.id;
    assert c.dec(c.enc(raw)) == Some(raw);
    assert raw[|c.format(k.createdAt)|] == '|';
    IndexOfSeparator(c.format(k.createdAt), '|', k.id);
    assert raw[..|c.format(k.createdAt)|] == c.format(k.createdAt);
    assert raw[|c.format(k.createdAt)| + 1..] == k.id;
  }

  /** What a cursor decodes to: the text before its first '|' parses as an instant and a non-empty id follows. */
  lemma DecodedForm(c: Codec, cursor: string, k: Key)
    ensures DecodeCursor(c, cursor) == Some(k) <==>
            cursor != "" && k.id != ""
            && exists stamp :: '|' !in stamp && c.dec(cursor) == Some(stamp + ['|'] + k.id) && c.parse(stamp) == Some(k.createdAt)
  {
    if DecodeCursor(c, cursor) == Some(k) {
      var raw := c.dec(cursor).value;
      var cut := IndexOf(raw, '|');
      assert raw == raw[..cut] + ['|'] + raw[cut + 1..];
    }
    if stamp :| '|' !in stamp && c.dec(cursor) == Some(stamp + ['|'] + k.id) && c.parse(stamp) == Some(k.createdAt) {
      CutAtFirst(stamp, k.id);
    }
  }

  lemma CutAtFirst(stamp: string, id: string)
    requires '|' !in stamp
    ensures var raw := stamp + ['|'] + id; var cut := IndexOf(raw, '|');
            cut < |raw| && raw[..cut] == stamp && raw[cut + 1..] == id
  {
    IndexOfSeparator(stamp, '|', id);
  }

  /** Keys that rows have. */
  predicate Named(k: Key) { k.id != "" && Writable(k.createdAt) }

  /** What the query needs of cursors: those of rows are not empty and lead back. */
  datatype Cursors = Cursors(encode: Key -> string, decode: string -> Option<Key>)

  ghost predicate LeadBack(cs: Cursors) {
    cs.decode("") == None && forall k: Key | Named(k) :: cs.encode(k) != "" && cs.decode(cs.encode(k)) == Some(k)
  }

  lemma EncodedCursorsLeadBack(c: Codec)
    requires Faithful(c)
    ensures LeadBack(Cursors(k => EncodeCursor(c, k), s => DecodeCursor(c, s)))
  {
    forall k: Key | Named(k) {
      CursorRoundTrip(c, k);
    }
  }

  // ---- The query ----

  datatype Filter = Filter(statuses: seq<string>, severity: string, fromTime: Option<int>, toTime: Option<int>, labels: map<string, string>)

  predicate Passes(r: Row, tenantId: string, f: Filter) {
    && r.tenantId == tenantId
    && (f.statuses != [] ==> r.status in f.statuses)
    && (f.severity != "" ==> r.severity == f.severity)
    && (f.fromTime.Some? ==> r.createdAt >= f.fromTime.value)
    && (f.toTime.Some? ==> r.createdAt <= f.toTime.value)
    && (forall k | k in f.labels :: k in r.labels && r.labels[k] == f.labels[k])
  }

  predicate BelowCursor(r: Row, after: Option<Key>) { after.Some? ==> KeyLess(KeyOf(r), after.value) }

  function Selected(table: seq<Row>, tenantId: string, f: Filter, after: Option<Key>): seq<Row> {
    if table == [] then []
    else if Passes(table[0], tenantId, f) && BelowCursor(table[0], after) then [table[0]] + Selected(table[1..], tenantId, f, after)
    else Selected(table[1..], tenantId, f, after)
  }

  ghost predicate DistinctIds(s: seq<Row>) { forall i, j | 0 <= i < j < |s| :: s[i].id != s[j].id }

  /** Ids are a primary key and never empty; creation times lie in the years that a cursor can name. */
  ghost predicate Keyed(table: seq<Row>) { DistinctIds(table) && forall r | r in table :: Named(KeyOf(r)) }

  ghost predicate Descending(s: seq<Row>) { forall i, j | 0 <= i < j < |s| :: KeyLess(KeyOf(s[j]), KeyOf(s[i])) }

  function PageSize(requested: int): (n: nat)
    ensures 0 < n <= 100
  {
    if requested <= 0 || requested > 100 then 20 else requested
  }

  /** The whole filtered table, newest first. */
  function Ordered(table: seq<Row>, tenantId: string, f: Filter): seq<Row> { Sort(ListedFirst, Selected(table, tenantId, f, None)) }

  /** How many rows at the front of a listing are not below the cursor. */
  function Skipped(s: seq<Row>, after: Option<Key>): (n: nat)
    ensures n <= |s|
  {
    if s == [] || BelowCursor(s[0], after) then 0 else 1 + Skipped(s[1..], after)
  }

  function Min(a: int, b: int): int { if a <= b then a else b }

  datatype Slice = Slice(rows: seq<Row>, next: Option<Key>)

  /** The next n rows of a listing, and the last one's key if more rows follow. */
  function SliceBelow(all: seq<Row>, after: Option<Key>, n: nat): Slice
    requires n > 0
  {
    var from := Skipped(all, after);
    Slice(all[from..Min(from + n, |all|)], if from + n < |all| then Some(KeyOf(all[from + n - 1])) else None)
  }

  datatype Page = Page(rows: seq<Row>, next: string)

  function EncodeNext(cs: Cursors, next: Option<Key>): string { if next.None? then "" else cs.encode(next.value) }

  /** The page a cursor asks for, read off the whole listing. */
  function PageAfter(cs: Cursors, table: seq<Row>, tenantId: string, f: Filter, cursor: string, requested: int): Page {
    var s := SliceBelow(Ordered(table, tenantId, f), cs.decode(cursor), PageSize(requested));
    Page(s.rows, EncodeNext(cs, s.next))
  }

  /** The rows a LIMIT lets through, collected one by one. */
  method Collect(found: seq<Row>, limit: nat) returns (result: seq<Row>)
    ensures result == found[..Min(limit, |found|)]
  {
    result := [];
    for i := 0 to Min(limit, |found|)
      invariant result == found[..i]
    {
      result := result + [found[i]];
    }
  }

  /** ListIncidents: one row more than the page is fetched, to see whether another page follows. */
  method ListIncidents(cs: Cursors, table: seq<Row>, tenantId: string, f: Filter, cursor: string, requested: int) returns (p: Page)
    requires Keyed(table)
    ensures p == PageAfter(cs, table, tenantId, f, cursor, requested)
    ensures var size := if 1 <= requested <= 100 then requested else 20; |p.rows| <= size && (|p.rows| == size || p.next == "")
    ensures forall i, j | 0 <= i < j < |p.rows| ::
              var a, b := p.rows[i], p.rows[j];
              b.createdAt < a.createdAt || (b.createdAt == a.createdAt && b.id != a.id && LexLeq(b.id, a.id))
    ensures forall r | r in p.rows ::
              r in table && r.tenantId == tenantId
              && (cs.decode(cursor).Some? ==>
                    var k := cs.decode(cursor).value;
                    r.createdAt < k.createdAt || (r.createdAt == k.createdAt && r.id != k.id && LexLeq(r.id, k.id)))
  {
    var pageSize := requested;
    if pageSize <= 0 || pageSize > 100 {
      pageSize := 20;
    }
    var after := cs.decode(cursor);
    var found := Sort(ListedFirst, Selected(table, tenantId, f, after));
    var result := Collect(found, pageSize + 1);
    var nextCursor := "";
    if |result| > pageSize {
      nextCursor := cs.encode(KeyOf(result[pageSize - 1]));
      result := result[..pageSize];
    }
    p := Page(result, nextCursor);
    PageFromQuery(cs, table, tenantId, f, cursor, requested, found);
    PageShape(cs, table, tenantId, f, cursor, requested);
  }

  /** A page's rows as the caller sees them: newest first, of the tenant, below the cursor. */
  lemma PageOrder(table: seq<Row>, tenantId: string, f: Filter, after: Option<Key>, found: seq<Row>, rows: seq<Row>)
    requires Keyed(table) && found == Sort(ListedFirst, Selected(table, tenantId, f, after)) && rows <= found
    ensures forall i, j | 0 <= i < j < |rows| ::
              var a, b := rows[i], rows[j];
              b.createdAt < a.createdAt || (b.createdAt == a.createdAt && b.id != a.id && LexLeq(b.id, a.id))
    ensures forall r | r in rows ::
              r in table && r.tenantId == tenantId
              && (after.Some? ==>
                    var k := after.value;
                    r.createdAt < k.createdAt || (r.createdAt == k.createdAt && r.id != k.id && LexLeq(r.id, k.id)))
  {
    QueryListed(table, tenantId, f, after);
    DescendingRows(found);
    forall r | r in rows ensures r in table && Passes(r, tenantId, f) && BelowCursor(r, after) {
      assert r in found;
    }
  }

  lemma PageFromQuery(cs: Cursors, table: seq<Row>, tenantId: string, f: Filter, cursor: string, requested: int, found: seq<Row>)
    requires Keyed(table) && found == Sort(ListedFirst, Selected(table, tenantId, f, cs.decode(cursor)))
    ensures var n := PageSize(requested);
            PageAfter(cs, table, tenantId, f, cursor, requested)
            == Page(found[..Min(n, |found|)], if n < |found| then cs.encode(KeyOf(found[n - 1])) else "")
  {
    QueryIsSuffix(table, tenantId, f, cs.decode(cursor));
    SliceOfSuffix(Ordered(table, tenantId, f), cs.decode(cursor), PageSize(requested), found);
  }

  lemma PageShape(cs: Cursors, table: seq<Row>, tenantId: string, f: Filter, cursor: string, requested: int)
    requires Keyed(table)
    ensures var p := PageAfter(cs, table, tenantId, f, cursor, requested); var after := cs.decode(cursor);
            var size := if 1 <= requested <= 100 then requested else 20;
            && |p.rows| <= size && (|p.rows| == size || p.next == "")
            && (forall i, j | 0 <= i < j < |p.rows| ::
                  var a, b := p.rows[i], p.rows[j];
                  b.createdAt < a.createdAt || (b.createdAt == a.createdAt && b.id != a.id && LexLeq(b.id, a.id)))
            && (forall r | r in p.rows ::
                  r in table && r.tenantId == tenantId
                  && (after.Some? ==>
                        var k := after.value;
                        r.createdAt < k.createdAt || (r.createdAt == k.createdAt && r.id != k.id && LexLeq(r.id, k.id))))
  {
    var after, n := cs.decode(cursor), PageSize(requested);
    var found := Sort(ListedFirst, Selected(table, tenantId, f, after));
    PageFromQuery(cs, table, tenantId, f, cursor, requested, found);
    PageOrder(table, tenantId, f, after, found, found[..Min(n, |found|)]);
  }

  lemma DescendingRows(s: seq<Row>)
    requires Descending(s)
    ensures forall i, j | 0 <= i < j < |s| ::
              var a, b := s[i], s[j];
              b.createdAt < a.createdAt || (b.createdAt == a.createdAt && b.id != a.id && LexLeq(b.id, a.id))
  {
    forall i, j | 0 <= i < j < |s| ensures KeyLess(KeyOf(s[j]), KeyOf(s[i])) {
    }
  }

  lemma SliceOfSuffix(all: seq<Row>, after: Option<Key>, n: nat, found: seq<Row>)
    requires n > 0 && found == all[Skipped(all, after)..]
    ensures SliceBelow(all, after, n)
         == Slice(found[..Min(n, |found|)], if n < |found| then Some(KeyOf(found[n - 1])) else None)
  {
    var from := Skipped(all, after);
    assert all[from..Min(from + n, |all|)] == found[..Min(n, |found|)];
  }

  // ---- Why the query is a tail of the listing ----

  lemma {:induction false} SelectedMembers(table: seq<Row>, tenantId: string, f: Filter, after: Option<Key>, r: Row)
    ensures r in Selected(table, tenantId, f, after) <==> r in table && Passes(r, tenantId, f) && BelowCursor(r, after)
  {
    if table != [] {
      SelectedMembers(table[1..], tenantId, f, after, r);
      assert table == [table[0]] + table[1..];
    }
  }

  lemma {:induction false} SelectedDistinct(table: seq<Row>, tenantId: string, f: Filter, after: Option<Key>)
    requires DistinctIds(table)
    ensures DistinctIds(Selected(table, tenantId, f, after))
  {
    if table != [] {
      SelectedDistinct(table[1..], tenantId, f, after);
      var rest := Selected(table[1..], tenantId, f, after);
      forall j | 0 <= j < |rest| ensures rest[j].id != table[0].id {
        assert rest[j] in rest;
        SelectedMembers(table[1..], tenantId, f, after, rest[j]);
      }
    }
  }

  lemma {:induction false} InsertDescends(x: Row, s: seq<Row>)
    requires Descending(s) && forall r | r in s :: r.id != x.id
    ensures Descending(Insert(ListedFirst, x, s))
    ensures forall r :: r in Insert(ListedFirst, x, s) <==> r == x || r in s
  {
    if s == [] {
    } else if ListedFirst(x, s[0]) {
      forall j | 0 <= j < |s| ensures KeyLess(KeyOf(s[j]), KeyOf(x)) {
        assert s[0] in s;
        KeyOrder(KeyOf(s[0]), KeyOf(x), KeyOf(x));
        KeyOrder(KeyOf(s[j]), KeyOf(s[0]), KeyOf(x));
      }
    } else {
      InsertDescends(x, s[1..]);
      var rest := Insert(ListedFirst, x, s[1..]);
      assert s == [s[0]] + s[1..];
      forall j | 0 <= j < |rest| ensures KeyLess(KeyOf(rest[j]), KeyOf(s[0])) {
        assert rest[j] in rest;
      }
    }
  }

  lemma {:induction false} SortDescends(s: seq<Row>)
    requires DistinctIds(s)
    ensures Descending(Sort(ListedFirst, s))
    ensures forall r :: r in Sort(ListedFirst, s) <==> r in s
  {
    if s != [] {
      SortDescends(s[1..]);
      forall r | r in s[1..] ensures r.id != s[0].id {
      }
      InsertDescends(s[0], Sort(ListedFirst, s[1..]));
      assert s == [s[0]] + s[1..];
    }
  }

  lemma QueryListed(table: seq<Row>, tenantId: string, f: Filter, after: Option<Key>)
    requires Keyed(table)
    ensures var found := Sort(ListedFirst, Selected(table, tenantId, f, after));
            && Descending(found)
            && forall r :: r in found <==> r in table && Passes(r, tenantId, f) && BelowCursor(r, after)
  {
    SelectedDistinct(table, tenantId, f, after);
    SortDescends(Selected(table, tenantId, f, after));
    forall r {
      SelectedMembers(table, tenantId, f, after, r);
    }
  }

  lemma TailMembers(s: seq<Row>, r: Row)
    requires Descending(s) && s != []
    ensures r in s[1..] <==> r in s && r != s[0]
  {
    KeyOrder(KeyOf(s[0]), KeyOf(s[0]), KeyOf(s[0]));
    assert s == [s[0]] + s[1..];
    if r in s[1..] {
      var k :| 0 <= k < |s| - 1 && s[1..][k] == r;
      assert s[k + 1] == r;
    }
  }

  lemma SameHead(a: seq<Row>, b: seq<Row>)
    requires Descending(a) && Descending(b) && a != [] && b != [] && a[0] in b && b[0] in a
    ensures a[0] == b[0]
  {
    var i :| 0 <= i < |b| && b[i] == a[0];
    var j :| 0 <= j < |a| && a[j] == b[0];
    KeyOrder(KeyOf(a[0]), KeyOf(b[0]), KeyOf(b[0]));
  }

  /** The order and the members determine a listing. */
  lemma {:induction false} ListingUnique(a: seq<Row>, b: seq<Row>)
    requires Descending(a) && Descending(b) && forall r :: r in a <==> r in b
    ensures a == b
  {
    assert a != [] ==> a[0] in a;
    assert b != [] ==> b[0] in b;
    if a != [] {
      SameHead(a, b);
      forall r ensures r in a[1..] <==> r in b[1..] {
        TailMembers(a, r);
        TailMembers(b, r);
      }
      ListingUnique(a[1..], b[1..]);
      assert a == [a[0]] + a[1..] && b == [b[0]] + b[1..];
    }
  }

  lemma {:induction false} SkippedSplits(s: seq<Row>, after: Option<Key>, i: nat)
    requires Descending(s) && i < |s|
    ensures i < Skipped(s, after) <==> !BelowCursor(s[i], after)
  {
    if BelowCursor(s[0], after) {
      if i > 0 && after.Some? {
        KeyOrder(KeyOf(s[i]), KeyOf(s[0]), after.value);
      }
    } else if i > 0 {
      SkippedSplits(s[1..], after, i - 1);
    }
  }

  lemma BelowInSuffix(s: seq<Row>, after: Option<Key>, r: Row)
    requires Descending(s) && r in s && BelowCursor(r, after)
    ensures r in s[Skipped(s, after)..]
  {
    var from := Skipped(s, after);
    var i :| 0 <= i < |s| && s[i] == r;
    SkippedSplits(s, after, i);
    assert s[from..][i - from] == r;
  }

  lemma SuffixIsBelow(s: seq<Row>, after: Option<Key>, r: Row)
    requires Descending(s) && r in s[Skipped(s, after)..]
    ensures r in s && BelowCursor(r, after)
  {
    var from := Skipped(s, after);
    var i :| 0 <= i < |s| - from && s[from..][i] == r;
    assert s[from + i] == r;
    SkippedSplits(s, after, from + i);
  }

  lemma SuffixMembers(s: seq<Row>, after: Option<Key>, r: Row)
    requires Descending(s)
    ensures r in s[Skipped(s, after)..] <==> r in s && BelowCursor(r, after)
  {
    if r in s[Skipped(s, after)..] {
      SuffixIsBelow(s, after, r);
    }
    if r in s && BelowCursor(r, after) {
      BelowInSuffix(s, after, r);
    }
  }

  /** Filtering below the cursor before ordering gives the tail of the whole ordered listing. */
  lemma QueryIsSuffix(table: seq<Row>, tenantId: string, f: Filter, after: Option<Key>)
    requires Keyed(table)
    ensures var all := Ordered(table, tenantId, f);
            Sort(ListedFirst, Selected(table, tenantId, f, after)) == all[Skipped(all, after)..]
  {
    var all := Ordered(table, tenantId, f);
    QueryListed(table, tenantId, f, after);
    QueryListed(table, tenantId, f, None);
    forall r {
      SuffixMembers(all, after, r);
    }
    ListingUnique(Sort(ListedFirst, Selected(table, tenantId, f, after)), all[Skipped(all, after)..]);
  }

  // ---- Following cursors through one table ----

  /** The key behind the cursor of page i when every cursor is taken from the page before. */
  function KeyAt(all: seq<Row>, n: nat, i: nat): Option<Key>
    requires n > 0
  {
    if i == 0 then None else SliceBelow(all, KeyAt(all, n, i - 1), n).next
  }

  lemma SkippedAtRow(s: seq<Row>, i: nat)
    requires Descending(s) && i < |s|
    ensures Skipped(s, Some(KeyOf(s[i]))) == i + 1
  {
    var after := Some(KeyOf(s[i]));
    KeyOrder(KeyOf(s[i]), KeyOf(s[i]), KeyOf(s[i]));
    SkippedSplits(s, after, i);
    if i + 1 < |s| {
      SkippedSplits(s, after, i + 1);
    }
  }

  /** Page i starts at row i * n, as long as rows reach that far. */
  lemma {:induction false} PageStarts(all: seq<Row>, n: nat, i: nat)
    requires Descending(all) && n > 0 && (i > 0 ==> i * n < |all|)
    ensures Skipped(all, KeyAt(all, n, i)) == i * n
  {
    if i > 0 {
      assert i * n == (i - 1) * n + n;
      PageStarts(all, n, i - 1);
      SkippedAtRow(all, i * n - 1);
    } else if all != [] {
      assert BelowCursor(all[0], None);
    }
  }

  /** ceil(rows / n) pages, and one page for an empty listing. */
  function PageCount(rows: nat, n: nat): (p: nat)
    requires n > 0
    ensures p > 0 && rows <= p * n && (p > 1 ==> (p - 1) * n < rows)
  {
    if rows <= n then 1
    else
      var q := PageCount(rows - n, n);
      assert (q + 1) * n == q * n + n && (q - 1) * n + n == q * n;
      1 + q
  }

  lemma PageBound(i: nat, last: nat, n: nat)
    requires i <= last
    ensures i * n <= last * n
    ensures i < last ==> i * n + n <= last * n
  {
    assert last * n == i * n + (last - i) * n;
    if i < last {
      assert (last - i) * n == (last - i - 1) * n + n;
    }
  }

  lemma PageEnds(rows: nat, n: nat, i: nat)
    requires n > 0 && i < PageCount(rows, n)
    ensures 0 <= i * n <= rows
    ensures i > 0 ==> i * n < rows
    ensures i * n + n < rows <==> i < PageCount(rows, n) - 1
  {
    var last := PageCount(rows, n) - 1;
    PageBound(i, last, n);
    assert (last + 1) * n == last * n + n;
  }

  lemma SliceFrom(all: seq<Row>, after: Option<Key>, n: nat, from: nat)
    requires n > 0 && Skipped(all, after) == from
    ensures SliceBelow(all, after, n).rows == all[from..Min(from + n, |all|)]
    ensures SliceBelow(all, after, n).next == None <==> from + n >= |all|
  {
  }

  /** Page i holds rows i * n up to (i + 1) * n, and only the last page has no next key. */
  lemma PageAt(all: seq<Row>, n: nat, i: nat)
    requires Descending(all) && n > 0 && i < PageCount(|all|, n)
    ensures 0 <= i * n <= |all|
    ensures SliceBelow(all, KeyAt(all, n, i), n).rows == all[i * n..Min(i * n + n, |all|)]
    ensures KeyAt(all, n, i + 1) == None <==> i + 1 == PageCount(|all|, n)
  {
    PageEnds(|all|, n, i);
    PageStarts(all, n, i);
    SliceFrom(all, KeyAt(all, n, i), n, i * n);
  }

  /** The cursor of page i when every cursor is the next_cursor of the page before. */
  function CursorAt(cs: Cursors, table: seq<Row>, tenantId: string, f: Filter, requested: int, i: nat): string {
    if i == 0 then "" else PageAfter(cs, table, tenantId, f, CursorAt(cs, table, tenantId, f, requested, i - 1), requested).next
  }

  /** The first i pages, one after another. */
  function Concat(pages: nat -> seq<Row>, i: nat): seq<Row> { if i == 0 then [] else Concat(pages, i - 1) + pages(i - 1) }

  /** The rows of page k when the cursors are followed. */
  function RowsOfPage(cs: Cursors, table: seq<Row>, tenantId: string, f: Filter, requested: int, k: nat): seq<Row> {
    PageAfter(cs, table, tenantId, f, CursorAt(cs, table, tenantId, f, requested, k), requested).rows
  }

  /** The rows met on the first i pages when the cursors are followed. */
  function Gathered(cs: Cursors, table: seq<Row>, tenantId: string, f: Filter, requested: int, i: nat): seq<Row> {
    Concat((k: nat) => RowsOfPage(cs, table, tenantId, f, requested, k), i)
  }

  lemma TwoSlices(s: seq<Row>, i: nat, j: nat)
    requires i <= j <= |s|
    ensures s[..i] + s[i..j] == s[..j]
  {
  }

  lemma {:induction false} ConcatCovers(pages: nat -> seq<Row>, all: seq<Row>, n: nat, i: nat, upTo: nat)
    requires upTo == i * n
    requires forall k: nat | k < i :: 0 <= k * n <= |all| && pages(k) == all[k * n..Min(k * n + n, |all|)]
    ensures Concat(pages, i) == all[..Min(upTo, |all|)]
  {
    if i > 0 {
      var before := (i - 1) * n;
      assert upTo == before + n;
      ConcatCovers(pages, all, n, i - 1, before);
      assert pages(i - 1) == all[before..Min(upTo, |all|)];
      TwoSlices(all, before, Min(upTo, |all|));
    }
  }

  lemma NextDecodes(cs: Cursors, all: seq<Row>, after: Option<Key>, n: nat)
    requires LeadBack(cs) && n > 0 && forall r | r in all :: Named(KeyOf(r))
    ensures var next := SliceBelow(all, after, n).next;
            cs.decode(EncodeNext(cs, next)) == next && (EncodeNext(cs, next) == "" <==> next == None)
  {
    var next := SliceBelow(all, after, n).next;
    if next.Some? {
      assert all[Skipped(all, after) + n - 1] in all;
    }
  }

  lemma PageAtKey(cs: Cursors, table: seq<Row>, tenantId: string, f: Filter, cursor: string, requested: int, after: Option<Key>)
    requires LeadBack(cs) && Keyed(table) && cs.decode(cursor) == after
    ensures var s := SliceBelow(Ordered(table, tenantId, f), after, PageSize(requested));
            var p := PageAfter(cs, table, tenantId, f, cursor, requested);
            p.rows == s.rows && cs.decode(p.next) == s.next && (p.next == "" <==> s.next == None)
  {
    QueryListed(table, tenantId, f, None);
    NextDecodes(cs, Ordered(table, tenantId, f), after, PageSize(requested));
  }

  lemma NextCursor(cs: Cursors, table: seq<Row>, tenantId: string, f: Filter, cursor: string, requested: int,
                   after: Option<Key>, next: Option<Key>)
    requires LeadBack(cs) && Keyed(table) && cs.decode(cursor) == after
    requires next == SliceBelow(Ordered(table, tenantId, f), after, PageSize(requested)).next
    ensures var p := PageAfter(cs, table, tenantId, f, cursor, requested); cs.decode(p.next) == next && (p.next == "" <==> next == None)
  {
    PageAtKey(cs, table, tenantId, f, cursor, requested, after);
  }

  lemma {:induction false} CursorsAreKeys(cs: Cursors, table: seq<Row>, tenantId: string, f: Filter, requested: int, i: nat)
    requires LeadBack(cs) && Keyed(table)
    ensures var key := KeyAt(Ordered(table, tenantId, f), PageSize(requested), i);
            var cursor := CursorAt(cs, table, tenantId, f, requested, i);
            cs.decode(cursor) == key && (cursor == "" <==> key == None)
  {
    if i > 0 {
      CursorsAreKeys(cs, table, tenantId, f, requested, i - 1);
      NextCursor(cs, table, tenantId, f, CursorAt(cs, table, tenantId, f, requested, i - 1), requested,
                 KeyAt(Ordered(table, tenantId, f), PageSize(requested), i - 1),
                 KeyAt(Ordered(table, tenantId, f), PageSize(requested), i));
    }
  }

  lemma ListedDescends(table: seq<Row>, tenantId: string, f: Filter)
    requires Keyed(table)
    ensures Descending(Ordered(table, tenantId, f))
  {
    QueryListed(table, tenantId, f, None);
  }

  lemma PageFollowed(cs: Cursors, table: seq<Row>, tenantId: string, f: Filter, requested: int, k: nat, from: int)
    requires LeadBack(cs) && Keyed(table) && k < PageCount(|Ordered(table, tenantId, f)|, PageSize(requested))
    requires from == k * PageSize(requested)
    ensures var all, n := Ordered(table, tenantId, f), PageSize(requested);
            && 0 <= from <= |all|
            && RowsOfPage(cs, table, tenantId, f, requested, k) == all[from..Min(from + n, |all|)]
  {
    var all, n := Ordered(table, tenantId, f), PageSize(requested);
    ListedDescends(table, tenantId, f);
    PageAt(all, n, k);
    CursorsAreKeys(cs, table, tenantId, f, requested, k);
    PageAtKey(cs, table, tenantId, f, CursorAt(cs, table, tenantId, f, requested, k), requested, KeyAt(all, n, k));
  }

  lemma CoversAll(pages: nat -> seq<Row>, all: seq<Row>, n: nat)
    requires n > 0
    requires forall k: nat | k < PageCount(|all|, n) :: 0 <= k * n <= |all| && pages(k) == all[k * n..Min(k * n + n, |all|)]
    ensures Concat(pages, PageCount(|all|, n)) == all
  {
    var count := PageCount(|all|, n);
    ConcatCovers(pages, all, n, count, count * n);
    assert all[..|all|] == all;
  }

  lemma AllGathered(cs: Cursors, table: seq<Row>, tenantId: string, f: Filter, requested: int, pages: nat)
    requires LeadBack(cs) && Keyed(table) && pages == PageCount(|Ordered(table, tenantId, f)|, PageSize(requested))
    ensures Gathered(cs, table, tenantId, f, requested, pages) == Ordered(table, tenantId, f)
  {
    var all, n := Ordered(table, tenantId, f), PageSize(requested);
    var page := (k: nat) => RowsOfPage(cs, table, tenantId, f, requested, k);
    forall k: nat | k < pages ensures 0 <= k * n <= |all| && page(k) == all[k * n..Min(k * n + n, |all|)] {
      PageFollowed(cs, table, tenantId, f, requested, k, k * n);
    }
    CoversAll(page, all, n);
  }

  lemma OnlyLastIsEmpty(cs: Cursors, table: seq<Row>, tenantId: string, f: Filter, requested: int, i: nat)
    requires LeadBack(cs) && Keyed(table)
    requires 0 < i <= PageCount(|Ordered(table, tenantId, f)|, PageSize(requested))
    ensures CursorAt(cs, table, tenantId, f, requested, i) == ""
            <==> i == PageCount(|Ordered(table, tenantId, f)|, PageSize(requested))
  {
    QueryListed(table, tenantId, f, None);
    CursorsAreKeys(cs, table, tenantId, f, requested, i);
    var last: nat := i - 1;
    PageAt(Ordered(table, tenantId, f), PageSize(requested), last);
    assert last + 1 == i;
  }

  /**
   * Following next_cursor from the first page: the cursor first comes back empty on page ceil(rows / n), and the pages
   * up to there hold the filtered table in order, every row once, whatever timestamps coincide.
   */
  lemma PagesCoverTable(cs: Cursors, table: seq<Row>, tenantId: string, f: Filter, requested: int)
    requires LeadBack(cs) && Keyed(table)
    ensures var pages := PageCount(|Ordered(table, tenantId, f)|, PageSize(requested));
            && (forall i: nat | 0 < i <= pages :: CursorAt(cs, table, tenantId, f, requested, i) == "" <==> i == pages)
            && Gathered(cs, table, tenantId, f, requested, pages) == Ordered(table, tenantId, f)
  {
    var pages := PageCount(|Ordered(table, tenantId, f)|, PageSize(requested));
    forall i: nat | 0 < i <= pages ensures CursorAt(cs, table, tenantId, f, requested, i) == "" <==> i == pages {
      OnlyLastIsEmpty(cs, table, tenantId, f, requested, i);
    }
    AllGathered(cs, table, tenantId, f, requested, pages);
  }

  /**
   * The listing is the tenant's filtered rows, newest first and by descending id among rows of one instant: no row is
   * missing, foreign or repeated.
   */
  lemma ListingExact(table: seq<Row>, tenantId: string, f: Filter)
    requires Keyed(table)
    ensures Descending(Ordered(table, tenantId, f))
    ensures var all := Ordered(table, tenantId, f);
            forall i, j | 0 <= i < j < |all| ::
              var a, b := all[i], all[j];
              b.createdAt < a.createdAt || (b.createdAt == a.createdAt && b.id != a.id && LexLeq(b.id, a.id))
    ensures forall r :: r in Ordered(table, tenantId, f) <==>
              r in table && r.tenantId == tenantId
              && (f.statuses == [] || r.status in f.statuses) && (f.severity == "" || r.severity == f.severity)
              && (f.fromTime.None? || f.fromTime.value <= r.createdAt) && (f.toTime.None? || r.createdAt <= f.toTime.value)
              && forall k | k in f.labels :: k in r.labels && r.labels[k] == f.labels[k]
  {
    QueryListed(table, tenantId, f, None);
    DescendingRows(Ordered(table, tenantId, f));
  }

  // ---- Following cursors while the table changes ----

  lemma SliceHolds(all: seq<Row>, after: Option<Key>, n: nat, r: Row)
    requires Descending(all) && n > 0 && r in SliceBelow(all, after, n).rows
    ensures var s := SliceBelow(all, after, n);
            r in all && BelowCursor(r, after) && (s.next.Some? ==> !KeyLess(KeyOf(r), s.next.value))
  {
    var from := Skipped(all, after);
    var s := SliceBelow(all, after, n);
    var i :| 0 <= i < |s.rows| && s.rows[i] == r;
    assert r == all[from + i];
    SkippedSplits(all, after, from + i);
    if s.next.Some? {
      KeyOrder(KeyOf(r), s.next.value, s.next.value);
    }
  }

  lemma SliceComplete(all: seq<Row>, after: Option<Key>, n: nat, r: Row)
    requires Descending(all) && n > 0 && r in all && BelowCursor(r, after)
    ensures var s := SliceBelow(all, after, n); r in s.rows || (s.next.Some? && BelowCursor(r, s.next))
  {
    var from := Skipped(all, after);
    var i :| 0 <= i < |all| && all[i] == r;
    SkippedSplits(all, after, i);
    if i < from + n {
      assert SliceBelow(all, after, n).rows[i - from] == r;
    }
  }

  lemma SliceMeaning(all: seq<Row>, after: Option<Key>, n: nat, r: Row)
    requires Descending(all) && n > 0
    ensures var s := SliceBelow(all, after, n);
            && (s.next.Some? ==> s.rows != [] && s.next.value == KeyOf(s.rows[|s.rows| - 1]))
            && (r in s.rows ==> r in all && BelowCursor(r, after) && (s.next.Some? ==> !KeyLess(KeyOf(r), s.next.value)))
            && (r in all && BelowCursor(r, after) ==> r in s.rows || (s.next.Some? && BelowCursor(r, s.next)))
  {
    if r in SliceBelow(all, after, n).rows {
      SliceHolds(all, after, n, r);
    }
    if r in all && BelowCursor(r, after) {
      SliceComplete(all, after, n, r);
    }
  }

  /** A page holds rows below its cursor and not below the next one, and every row of the table in between. */
  ghost predicate Fits(p: Slice, table: seq<Row>, tenantId: string, f: Filter, after: Option<Key>) {
    && (p.next.Some? ==> p.rows != [] && p.next.value == KeyOf(p.rows[|p.rows| - 1]))
    && (forall r | r in p.rows :: r in table && Passes(r, tenantId, f) && BelowCursor(r, after))
    && (forall r | r in p.rows :: p.next.Some? ==> !KeyLess(KeyOf(r), p.next.value))
    && (forall r | r in table && Passes(r, tenantId, f) && BelowCursor(r, after) ::
          r in p.rows || (p.next.Some? && BelowCursor(r, p.next)))
  }

  lemma SliceFits(table: seq<Row>, tenantId: string, f: Filter, after: Option<Key>, n: nat)
    requires Keyed(table) && n > 0
    ensures Fits(SliceBelow(Ordered(table, tenantId, f), after, n), table, tenantId, f, after)
  {
    QueryListed(table, tenantId, f, None);
    var all := Ordered(table, tenantId, f);
    forall r {
      SliceMeaning(all, after, n, r);
    }
  }

  function CursorOf(pages: seq<Slice>, i: nat): Option<Key>
    requires i <= |pages|
  {
    if i == 0 then None else pages[i - 1].next
  }

  ghost predicate FitsAt(pages: seq<Slice>, tables: seq<seq<Row>>, tenantId: string, f: Filter, i: nat)
    requires i < |pages| == |tables|
  {
    Fits(pages[i], tables[i], tenantId, f, CursorOf(pages, i))
  }

  /** Pages that each fit the table as it was when they were read, each but the last pointing on. */
  ghost predicate Chained(pages: seq<Slice>, tables: seq<seq<Row>>, tenantId: string, f: Filter) {
    && |pages| == |tables|
    && (forall i: nat | i < |pages| :: FitsAt(pages, tables, tenantId, f, i))
    && (forall i | 0 <= i < |pages| - 1 :: pages[i].next.Some?)
  }

  lemma {:induction false} KeysDescend(keys: seq<Key>, i: nat, j: nat)
    requires i <= j < |keys| && forall k | 0 < k < |keys| :: KeyLess(keys[k], keys[k - 1])
    ensures !KeyLess(keys[i], keys[j])
    decreases j
  {
    if i < j {
      KeysDescend(keys, i, j - 1);
      StepsDown(keys[i], keys[j - 1], keys[j]);
      KeyOrder(keys[j], keys[j - 1], keys[j]);
    } else {
      KeyOrder(keys[i], keys[i], keys[i]);
    }
  }

  lemma NextIsLower(pages: seq<Slice>, tables: seq<seq<Row>>, tenantId: string, f: Filter, i: nat)
    requires Chained(pages, tables, tenantId, f) && 0 < i < |pages| - 1
    ensures KeyLess(pages[i].next.value, pages[i - 1].next.value)
  {
    assert FitsAt(pages, tables, tenantId, f, i);
    var rows := pages[i].rows;
    assert rows[|rows| - 1] in rows;
  }

  /** Cursors only go down. */
  lemma NextDescends(pages: seq<Slice>, tables: seq<seq<Row>>, tenantId: string, f: Filter, i: nat, j: nat)
    requires Chained(pages, tables, tenantId, f) && i <= j < |pages| - 1
    ensures !KeyLess(pages[i].next.value, pages[j].next.value)
  {
    var keys := seq(|pages| - 1, k requires 0 <= k < |pages| - 1 => pages[k].next.value);
    forall k | 0 < k < |keys| ensures KeyLess(keys[k], keys[k - 1]) {
      NextIsLower(pages, tables, tenantId, f, k);
    }
    KeysDescend(keys, i, j);
  }

  lemma LaterIsLower(pages: seq<Slice>, tables: seq<seq<Row>>, tenantId: string, f: Filter, i: nat, j: nat, a: Row, b: Row)
    requires Chained(pages, tables, tenantId, f) && i < j < |pages| && a in pages[i].rows && b in pages[j].rows
    ensures KeyLess(KeyOf(b), KeyOf(a))
  {
    NextDescends(pages, tables, tenantId, f, i, j - 1);
    assert FitsAt(pages, tables, tenantId, f, i) && FitsAt(pages, tables, tenantId, f, j);
    StepsDown(KeyOf(a), pages[i].next.value, pages[j - 1].next.value);
    StepsDown(KeyOf(a), pages[j - 1].next.value, KeyOf(b));
  }

  lemma {:induction false} ReadOrBelow(pages: seq<Slice>, tables: seq<seq<Row>>, tenantId: string, f: Filter, r: Row, k: nat)
    requires Chained(pages, tables, tenantId, f) && k < |pages| && Passes(r, tenantId, f)
    requires forall i | 0 <= i <= k :: r in tables[i]
    ensures (exists i: nat :: i <= k && r in pages[i].rows) || (pages[k].next.Some? && BelowCursor(r, pages[k].next))
  {
    assert FitsAt(pages, tables, tenantId, f, k);
    if k > 0 {
      ReadOrBelow(pages, tables, tenantId, f, r, k - 1);
    }
  }

  /** Pages asked for one after another, each answered from the table as it then is. */
  datatype Session = Session(cs: Cursors, tenantId: string, f: Filter, requested: int, tables: seq<seq<Row>>, pages: seq<Page>)

  ghost predicate AnsweredAt(s: Session, i: nat)
    requires i < |s.pages| == |s.tables|
  {
    s.pages[i] == PageAfter(s.cs, s.tables[i], s.tenantId, s.f, if i == 0 then "" else s.pages[i - 1].next, s.requested)
  }

  /** The first page has no cursor; every other is asked for by the non-empty cursor that the page before returned. */
  ghost predicate Reading(s: Session) {
    && LeadBack(s.cs) && |s.tables| == |s.pages|
    && (forall i | 0 <= i < |s.tables| :: Keyed(s.tables[i]))
    && (forall i | 0 <= i < |s.pages| - 1 :: s.pages[i].next != "")
    && (forall i: nat | i < |s.pages| :: AnsweredAt(s, i))
  }

  function Decoded(s: Session): seq<Slice> {
    seq(|s.pages|, i requires 0 <= i < |s.pages| => Slice(s.pages[i].rows, s.cs.decode(s.pages[i].next)))
  }

  lemma DecodedFits(s: Session, i: nat)
    requires Reading(s) && i < |s.pages|
    ensures FitsAt(Decoded(s), s.tables, s.tenantId, s.f, i)
    ensures Decoded(s)[i].next.Some? <==> s.pages[i].next != ""
  {
    assert AnsweredAt(s, i);
    var cursor := if i == 0 then "" else s.pages[i - 1].next;
    PageAtKey(s.cs, s.tables[i], s.tenantId, s.f, cursor, s.requested, CursorOf(Decoded(s), i));
    SliceFits(s.tables[i], s.tenantId, s.f, CursorOf(Decoded(s), i), PageSize(s.requested));
  }

  lemma DecodedChained(s: Session)
    requires Reading(s)
    ensures Chained(Decoded(s), s.tables, s.tenantId, s.f)
  {
    forall i: nat | i < |s.pages|
      ensures FitsAt(Decoded(s), s.tables, s.tenantId, s.f, i)
      ensures Decoded(s)[i].next.Some? <==> s.pages[i].next != ""
    {
      DecodedFits(s, i);
    }
  }

  /**
   * No row comes twice, though rows are added, changed and deleted between the pages: rows of later pages are older, or of
   * the same instant with a smaller id.
   */
  lemma NoRowTwice(s: Session, i: nat, j: nat, a: Row, b: Row)
    requires Reading(s) && i < j < |s.pages| && a in s.pages[i].rows && b in s.pages[j].rows
    ensures b.createdAt < a.createdAt || (b.createdAt == a.createdAt && b.id != a.id && LexLeq(b.id, a.id))
  {
    DecodedChained(s);
    LaterIsLower(Decoded(s), s.tables, s.tenantId, s.f, i, j, a, b);
  }

  /** A row that is there and passes the filter all the while is on one of the pages once the last cursor is empty. */
  lemma NoRowSkipped(s: Session, r: Row)
    requires Reading(s) && s.pages != [] && s.pages[|s.pages| - 1].next == "" && Passes(r, s.tenantId, s.f)
    requires forall i | 0 <= i < |s.tables| :: r in s.tables[i]
    ensures exists i :: 0 <= i < |s.pages| && r in s.pages[i].rows
  {
    var last := |s.pages| - 1;
    DecodedChained(s);
    DecodedFits(s, last);
    ReadOrBelow(Decoded(s), s.tables, s.tenantId, s.f, r, last);
    var i :| 0 <= i <= last && r in Decoded(s)[i].rows;
    assert r in s.pages[i].rows;
  }
}
