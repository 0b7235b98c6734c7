/**
 * When the strings of CanonicalKeys determine what they are made of if values may hold commas: exactly for rules and
 * label sets of at most one label.
 */
module KeyExactness {
  import opened Common
  import opened Sorting
  import opened CanonicalKeys

  predicate Plain(name: string) { '=' !in name && ',' !in name }

  ghost predicate PlainNames(names: seq<string>) { forall n | n in names :: Plain(n) }

  ghost predicate Distinct(names: seq<string>) { forall i, j | 0 <= i < j < |names| :: names[i] != names[j] }

  // ---- The order of pairs is the order of their names ----

  function Headed(name: string): string { name + ['='] }

  predicate NameLeq(p: string, q: string) { LexLeq(Headed(p), Headed(q)) }

  lemma NameOrder()
    ensures TotalPreorder(NameLeq)
  {
    forall p: string, q: string ensures NameLeq(p, q) || NameLeq(q, p) {
      LexTotal(Headed(p), Headed(q));
    }
    forall p: string, q: string, r: string | NameLeq(p, q) && NameLeq(q, r) ensures NameLeq(p, r) {
      LexTransitive(Headed(p), Headed(q), Headed(r));
    }
  }

  /** What stands behind the first '=' does not matter. */
  lemma {:induction false} PairOrder(p: string, q: string, v: string, u: string)
    requires p != q && '=' !in p && '=' !in q && NameLeq(p, q)
    ensures LexLeq(p + ['='] + v, q + ['='] + u)
  {
    if p != "" && q != "" && p[0] == q[0] {
      assert p == [p[0]] + p[1..] && q == [q[0]] + q[1..];
      assert (p + ['='])[1..] == p[1..] + ['='] && (q + ['='])[1..] == q[1..] + ['='];
      assert (p + ['='] + v)[1..] == p[1..] + ['='] + v && (q + ['='] + u)[1..] == q[1..] + ['='] + u;
      PairOrder(p[1..], q[1..], v, u);
    }
  }

  lemma PairsInOrder(labels: Labels, sorted: seq<string>)
    requires PlainNames(sorted) && SortedBy(NameLeq, sorted)
    ensures SortedBy(LexLeq, Pairs(labels, sorted))
  {
    forall i, j | 0 <= i < j < |sorted| ensures LexLeq(Pair(labels, sorted[i]), Pair(labels, sorted[j])) {
      assert sorted[i] in sorted && sorted[j] in sorted;
      if sorted[i] == sorted[j] {
        LexReflexive(Pair(labels, sorted[i]));
      } else {
        PairOrder(sorted[i], sorted[j], ValueOf(labels, sorted[i]), ValueOf(labels, sorted[j]));
      }
    }
  }

  lemma SortedNames(names: seq<string>)
    requires PlainNames(names)
    ensures var sorted := Sort(NameLeq, names);
            multiset(sorted) == multiset(names) && SortedBy(NameLeq, sorted) && PlainNames(sorted)
  {
    var sorted := Sort(NameLeq, names);
    NameOrder();
    SortSorts(NameLeq, names);
    forall n | n in sorted ensures Plain(n) {
      assert n in multiset(names);
    }
  }

  /** Sorting the pairs is sorting the names, whatever the values. */
  lemma SortedPairs(labels: Labels, names: seq<string>)
    requires PlainNames(names)
    ensures Sort(LexLeq, Pairs(labels, names)) == Pairs(labels, Sort(NameLeq, names))
  {
    var sorted := Sort(NameLeq, names);
    SortedNames(names);
    PairsInOrder(labels, sorted);
    PairsPermute(labels, sorted, names);
    LexIsTotalOrder();
    SortSorts(LexLeq, Pairs(labels, names));
    SortedUnique(LexLeq, Sort(LexLeq, Pairs(labels, names)), Pairs(labels, sorted));
  }

  // ---- Two labels ----

  lemma MovedComma(p: string, x: string, q: string, y: string, z: string)
    ensures (p + ['='] + (x + ([','] + q + ['=']) + y)) + [','] + (q + ['='] + z)
         == (p + ['='] + x) + [','] + (q + ['='] + (y + ([','] + q + ['=']) + z))
  {
  }

  /** Joining cannot tell two first parts from another two that make the same text. */
  lemma JoinBlurs(parts: seq<string>, other: seq<string>)
    requires |parts| == |other| >= 2 && parts[2..] == other[2..]
    requires parts[0] + [','] + parts[1] == other[0] + [','] + other[1]
    ensures Join(parts) == Join(other)
  {
    JoinTwo(parts);
    JoinTwo(other);
  }

  lemma JoinTwo(parts: seq<string>)
    requires |parts| >= 2
    ensures Join(parts) == parts[0] + [','] + parts[1] + if |parts| == 2 then "" else [','] + Join(parts[2..])
  {
    var rest := parts[1..];
    assert rest[0] == parts[1];
    assert Join(parts) == parts[0] + [','] + Join(rest);
    if |parts| > 2 {
      assert rest[1..] == parts[2..];
      Regroup(parts[0], rest[0], Join(parts[2..]));
    }
  }

  lemma Regroup(a: string, b: string, c: string)
    ensures a + [','] + (b + [','] + c) == a + [','] + b + ([','] + c)
  {
  }

  /** The first label's value with a piece of text that reads like the second label, and that piece moved over. */
  function Before(p: string, q: string, x: string, y: string, z: string): Labels { map[p := x + ([','] + q + ['=']) + y, q := z] }

  function After(p: string, q: string, x: string, y: string, z: string): Labels { map[p := x, q := y + ([','] + q + ['=']) + z] }

  lemma SameText(p: string, q: string, x: string, y: string, z: string, names: seq<string>)
    requires p != q && Distinct(names) && |names| >= 2 && names[0] == p && names[1] == q
    ensures Join(Pairs(Before(p, q, x, y, z), names)) == Join(Pairs(After(p, q, x, y, z), names))
  {
    var a, b := Pairs(Before(p, q, x, y, z), names), Pairs(After(p, q, x, y, z), names);
    forall i | 2 <= i < |names| ensures a[i] == b[i] {
      assert names[i] != names[0] && names[i] != names[1];
    }
    assert a[2..] == b[2..];
    MovedComma(p, x, q, y, z);
    JoinBlurs(a, b);
  }

  lemma {:induction false} AtMostOnce(s: seq<string>, x: string)
    requires Distinct(s)
    ensures multiset(s)[x] <= 1
  {
    if s != [] {
      var n := |s| - 1;
      AtMostOnce(s[..n], x);
      assert s == s[..n] + [s[n]] && s[n] !in s[..n];
    }
  }

  lemma TwiceCounts(s: seq<string>, i: nat, j: nat)
    requires i < j < |s| && s[i] == s[j]
    ensures multiset(s)[s[i]] >= 2
  {
    assert s == s[..i] + [s[i]] + s[i + 1..j] + [s[j]] + s[j + 1..];
  }

  lemma DistinctKept(a: seq<string>, b: seq<string>)
    requires multiset(a) == multiset(b) && Distinct(a)
    ensures Distinct(b)
  {
    forall i, j | 0 <= i < j < |b| ensures b[i] != b[j] {
      AtMostOnce(a, b[i]);
      if b[i] == b[j] {
        TwiceCounts(b, i, j);
      }
    }
  }

  /**
   * A comma in a value can move from one label to the next: under any rule of two labels or more, alerts that disagree
   * on two of them share a group string.
   */
  lemma GroupCollision(names: seq<string>, x: string, y: string, z: string) returns (p: string, q: string)
    requires PlainNames(names) && Distinct(names) && |names| >= 2
    ensures p in names && q in names && p != q
    ensures Before(p, q, x, y, z)[p] != After(p, q, x, y, z)[p] && Before(p, q, x, y, z)[q] != After(p, q, x, y, z)[q]
    ensures GroupString(Before(p, q, x, y, z), names) == GroupString(After(p, q, x, y, z), names)
  {
    var sorted := Sort(NameLeq, names);
    SortedNames(names);
    SameSize(sorted, names);
    DistinctKept(names, sorted);
    p, q := sorted[0], sorted[1];
    assert p in multiset(sorted) && q in multiset(sorted);
    assert |Before(p, q, x, y, z)[p]| > |After(p, q, x, y, z)[p]| && |Before(p, q, x, y, z)[q]| < |After(p, q, x, y, z)[q]|;
    SortedPairs(Before(p, q, x, y, z), names);
    SortedPairs(After(p, q, x, y, z), names);
    SameText(p, q, x, y, z, sorted);
  }

  // ---- One label ----

  lemma {:induction false} JoinOfCopies(parts: seq<string>, part: string)
    requires parts != [] && forall i | 0 <= i < |parts| :: parts[i] == part
    ensures |Join(parts)| == |parts| * (|part| + 1) - 1 && part <= Join(parts)
  {
    if |parts| > 1 {
      JoinOfCopies(parts[1..], part);
      assert |parts| * (|part| + 1) == (|parts| - 1) * (|part| + 1) + (|part| + 1);
    }
  }

  lemma SameProduct(n: nat, x: nat, y: nat)
    requires n > 0 && n * (x + 1) == n * (y + 1)
    ensures x == y
  {
    assert n * (x - y) == 0;
  }

  lemma CopiesDetermine(a: seq<string>, b: seq<string>, x: string, y: string)
    requires |a| == |b| > 0 && Join(a) == Join(b)
    requires (forall i | 0 <= i < |a| :: a[i] == x) && (forall i | 0 <= i < |b| :: b[i] == y)
    ensures x == y
  {
    JoinOfCopies(a, x);
    JoinOfCopies(b, y);
    SameProduct(|a|, |x|, |y|);
    assert x == Join(a)[..|x|] && y == Join(a)[..|y|];
  }

  lemma SortOfCopies(labels: Labels, names: seq<string>, n: string)
    requires forall i | 0 <= i < |names| :: names[i] == n
    ensures var s := Sort(LexLeq, Pairs(labels, names)); |s| == |names| && forall i | 0 <= i < |s| :: s[i] == Pair(labels, n)
  {
    var s := Sort(LexLeq, Pairs(labels, names));
    LexIsTotalOrder();
    SortSorts(LexLeq, Pairs(labels, names));
    SameSize(s, Pairs(labels, names));
    forall i | 0 <= i < |s| ensures s[i] == Pair(labels, n) {
      assert s[i] in multiset(Pairs(labels, names));
    }
  }

  /** A rule of one label, however often it lists it, is determined by its string, whatever the values hold. */
  lemma OneLabelDetermines(names: seq<string>, a: Labels, b: Labels)
    requires forall i, j | 0 <= i < |names| && 0 <= j < |names| :: names[i] == names[j]
    requires GroupString(a, names) == GroupString(b, names)
    ensures AgreeOn(a, b, names)
  {
    if names != [] {
      var n := names[0];
      SortOfCopies(a, names, n);
      SortOfCopies(b, names, n);
      CopiesDetermine(Sort(LexLeq, Pairs(a, names)), Sort(LexLeq, Pairs(b, names)), Pair(a, n), Pair(b, n));
      assert Pair(a, n)[|n| + 1..] == ValueOf(a, n) && Pair(b, n)[|n| + 1..] == ValueOf(b, n);
    }
  }

  /** The rule's string determines the value of every label the rule lists. */
  ghost predicate Determines(names: seq<string>) {
    forall a: Labels, b: Labels | GroupString(a, names) == GroupString(b, names) :: AgreeOn(a, b, names)
  }

  /** Whatever values hold: the group string of a rule determines its labels' values exactly when the rule has at most one label. */
  lemma RuleExact(names: seq<string>)
    requires PlainNames(names) && Distinct(names)
    ensures Determines(names) <==> |names| <= 1
  {
    if |names| <= 1 {
      forall a: Labels, b: Labels | GroupString(a, names) == GroupString(b, names) ensures AgreeOn(a, b, names) {
        OneLabelDetermines(names, a, b);
      }
    } else {
      var p, q := GroupCollision(names, "", "", "");
      assert !AgreeOn(Before(p, q, "", "", ""), After(p, q, "", "", ""), names);
    }
  }

  // ---- A rule that lists its labels twice ----

  /** Words that a word c carries along agree as far as both go. */
  lemma {:induction false} CarriedAgree(x: string, y: string, c: string, d: string, i: nat)
    requires c != "" && x + d == c + x && y + d == c + y && i < |x| && i < |y|
    ensures x[i] == y[i]
  {
    assert x[i] == (c + x)[i] && y[i] == (c + y)[i];
    if i >= |c| {
      CarriedAgree(x, y, c, d, i - |c|);
    }
  }

  lemma SamePrefixWord(x: string, y: string, c: string, d: string, p: string, q: string)
    requires c != "" && x + d == c + x && y + d == c + y && '=' !in p && '=' !in q
    requires p + ['='] <= x && q + ['='] <= y
    ensures p == q
  {
    forall i: nat | i <= |p| && i <= |q| ensures x[i] == y[i] {
      CarriedAgree(x, y, c, d, i);
    }
    SamePrefix(x, y, p, q);
  }

  lemma SamePrefix(x: string, y: string, p: string, q: string)
    requires p + ['='] <= x && q + ['='] <= y && '=' !in p && '=' !in q
    requires forall i: nat | i <= |p| && i <= |q| :: x[i] == y[i]
    ensures p == q
  {
    assert x[|p|] == '=' && y[|q|] == '=';
    assert forall i: nat | i < |p| :: p[i] == x[i];
    assert forall i: nat | i < |q| :: q[i] == y[i];
  }

  lemma Cancel(a: string, x: string, y: string, b: string)
    requires a + x + b == a + y + b
    ensures x == y
  {
    assert (a + x + b)[|a|..|a| + |x|] == x;
    assert |x| == |y|;
    assert (a + y + b)[|a|..|a| + |y|] == y;
  }

  lemma LongerPrefix(w: string, a: string, a': string)
    requires a <= w && a' <= w && |a| <= |a'|
    ensures a' == a + a'[|a|..]
  {
  }

  lemma LongerSuffix(u: string, b: string, u': string, b': string)
    requires u + b == u' + b' && |b'| <= |b|
    ensures b == b[..|b| - |b'|] + b'
  {
    var w := u + b;
    assert b == w[|w| - |b|..] && b' == w[|w| - |b'|..];
  }

  lemma Middles(a: string, b: string, c: string, d: string)
    ensures a + a + (d + b) + (d + b) == a + (a + d + b + d) + b
    ensures (a + c) + (a + c) + b + b == a + (c + a + c + b) + b
  {
  }

  lemma HalfAndHalf(a: string, b: string, c: string, d: string)
    requires a + d + b + d == c + a + c + b && |c| == |d|
    ensures a + d == c + a && b + d == c + b
  {
    var v, k := a + d + b + d, |a| + |d|;
    assert v == (a + d) + (b + d) && v == (c + a) + (c + b);
    assert v[..k] == a + d && v[k..] == b + d;
    assert v[..k] == c + a && v[k..] == c + b;
  }

  /** Two products of two squares with the same text: what the first root has more carries the shorter roots along. */
  lemma SquaresCarry(a: string, b: string, a': string, b': string) returns (c: string, d: string)
    requires a + a + b + b == a' + a' + b' + b' && |a| < |a'|
    ensures c != "" && a + d == c + a && b' + d == c + b'
  {
    c, d := a'[|a|..], b[..|b| - |b'|];
    LongerPrefix(a + a + b + b, a, a');
    LongerSuffix(a + a + b, b, a' + a' + b', b');
    Middles(a, b', c, d);
    Cancel(a, a + d + b' + d, c + a + c + b', b');
    HalfAndHalf(a, b', c, d);
  }

  lemma SquaresDetermine(p: string, q: string, x: string, y: string, x': string, y': string)
    requires p != q && '=' !in p && '=' !in q
    requires p + ['='] <= x && p + ['='] <= x' && q + ['='] <= y && q + ['='] <= y'
    requires x + x + y + y == x' + x' + y' + y'
    ensures x == x' && y == y'
  {
    if |x| < |x'| {
      var c, d := SquaresCarry(x, y, x', y');
      SamePrefixWord(x, y', c, d, p, q);
    } else if |x'| < |x| {
      var c, d := SquaresCarry(x', y', x, y);
      SamePrefixWord(x', y, c, d, p, q);
    } else {
      var w := x + x + y + y;
      assert x == w[..|x|] && x' == w[..|x|];
      assert |y| == |y'| && y == w[|w| - |y|..] && y' == w[|w| - |y|..];
    }
  }

  lemma JoinFour(x: string, y: string)
    ensures Join([x, x, y, y]) + [','] == (x + [',']) + (x + [',']) + (y + [',']) + (y + [','])
  {
    assert [y, y][1..] == [y] && [x, y, y][1..] == [y, y] && [x, x, y, y][1..] == [x, y, y];
    assert Join([y, y]) == y + [','] + y;
    assert Join([x, y, y]) == x + [','] + Join([y, y]);
    assert Join([x, x, y, y]) == x + [','] + Join([x, y, y]);
  }

  lemma DoubledInOrder(labels: Labels, p: string, q: string)
    requires Plain(p) && Plain(q) && NameLeq(p, q)
    ensures GroupString(labels, [p, p, q, q]) == Join([Pair(labels, p), Pair(labels, p), Pair(labels, q), Pair(labels, q)])
  {
    var names := [p, p, q, q];
    LexReflexive(Headed(p));
    LexReflexive(Headed(q));
    PairsInOrder(labels, names);
    LexIsTotalOrder();
    SortSorts(LexLeq, Pairs(labels, names));
    SortedUnique(LexLeq, Sort(LexLeq, Pairs(labels, names)), Pairs(labels, names));
    assert Pairs(labels, names) == [Pair(labels, p), Pair(labels, p), Pair(labels, q), Pair(labels, q)];
  }

  lemma SameValues(a: Labels, b: Labels, p: string, q: string)
    requires Plain(p) && Plain(q) && p != q && NameLeq(p, q)
    requires GroupString(a, [p, p, q, q]) == GroupString(b, [p, p, q, q])
    ensures ValueOf(a, p) == ValueOf(b, p) && ValueOf(a, q) == ValueOf(b, q)
  {
    DoubledInOrder(a, p, q);
    DoubledInOrder(b, p, q);
    JoinFour(Pair(a, p), Pair(a, q));
    JoinFour(Pair(b, p), Pair(b, q));
    var x, y, x', y' := Pair(a, p) + [','], Pair(a, q) + [','], Pair(b, p) + [','], Pair(b, q) + [','];
    SquaresDetermine(p, q, x, y, x', y');
    assert x[|p| + 1..|x| - 1] == ValueOf(a, p) && x'[|p| + 1..|x'| - 1] == ValueOf(b, p);
    assert y[|q| + 1..|y| - 1] == ValueOf(a, q) && y'[|q| + 1..|y'| - 1] == ValueOf(b, q);
  }

  /** Repetition can restore what commas blur: a rule that lists each of two labels twice is determined by its string. */
  lemma DoubledLabelsDetermine(p: string, q: string)
    requires Plain(p) && Plain(q) && p != q
    ensures Determines([p, p, q, q])
  {
    LexTotal(Headed(p), Headed(q));
    forall a: Labels, b: Labels | GroupString(a, [p, p, q, q]) == GroupString(b, [p, p, q, q]) ensures AgreeOn(a, b, [p, p, q, q]) {
      if NameLeq(p, q) {
        SameValues(a, b, p, q);
      } else {
        GroupStringPermutes(a, [p, p, q, q], [q, q, p, p]);
        GroupStringPermutes(b, [p, p, q, q], [q, q, p, p]);
        SameValues(a, b, q, p);
      }
    }
  }

  // ---- Fingerprints ----

  /** Commas allowed in values, not in the source or the tenant. */
  predicate PlainOrigin(source: string, tenantId: string) { ',' !in source && ',' !in tenantId }

  /** Over alerts with exactly these labels, the fingerprint string determines values, source and tenant. */
  ghost predicate FingerprintDetermines(keys: set<string>) {
    forall a: Labels, b: Labels, s: string, t: string, s': string, t': string
      | a.Keys == keys && b.Keys == keys && PlainOrigin(s, t) && PlainOrigin(s', t')
        && FingerprintString(a, s, t) == FingerprintString(b, s', t') ::
      a == b && s == s' && t == t'
  }

  /** The text after the last separator, and the text before it, are determined by the whole. */
  lemma SplitsLast(a: string, x: string, b: string, y: string)
    requires a + [','] + x == b + [','] + y && ',' !in x && ',' !in y
    ensures a == b && x == y
  {
    var s := a + [','] + x;
    assert s[|a|] == ',' && s[|b|] == ',';
    assert forall i | |a| < i < |s| :: s[i] == x[i - |a| - 1];
    assert forall i | |b| < i < |s| :: s[i] == y[i - |b| - 1];
    assert |a| == |b|;
    assert a == s[..|a|] && x == s[|a| + 1..] && b == s[..|a|] && y == s[|a| + 1..];
  }

  lemma FingerprintText(labels: Labels, source: string, tenantId: string)
    ensures FingerprintString(labels, source, tenantId)
         == Built(labels, SortedKeys(labels.Keys)) + ("source=" + source) + [','] + ("tenant=" + tenantId)
  {
  }

  lemma NoCommaBehind(head: string, tail: string)
    requires ',' !in head && ',' !in tail
    ensures ',' !in head + tail
  {
  }

  lemma OriginDetermined(text: string, s: string, t: string, text': string, s': string, t': string)
    requires PlainOrigin(s, t) && PlainOrigin(s', t')
    requires text + ("source=" + s) + [','] + ("tenant=" + t) == text' + ("source=" + s') + [','] + ("tenant=" + t')
    ensures text + ("source=" + s) == text' + ("source=" + s') && t == t'
  {
    NoCommaBehind("tenant=", t);
    NoCommaBehind("tenant=", t');
    SplitsLast(text + ("source=" + s), "tenant=" + t, text' + ("source=" + s'), "tenant=" + t');
    assert ("tenant=" + t)[7..] == t && ("tenant=" + t')[7..] == t';
  }

  /** One label or none: everything is determined. */
  lemma FewLabelsDetermine(a: Labels, b: Labels, s: string, t: string, s': string, t': string)
    requires a.Keys == b.Keys && |a.Keys| <= 1 && PlainOrigin(s, t) && PlainOrigin(s', t')
    requires FingerprintString(a, s, t) == FingerprintString(b, s', t')
    ensures a == b && s == s' && t == t'
  {
    var names := SortedKeys(a.Keys);
    FingerprintText(a, s, t);
    FingerprintText(b, s', t');
    OriginDetermined(Built(a, names), s, t, Built(b, names), s', t');
    SortedKeysFacts(a.Keys);
    assert |names| == |multiset(names)| == |multiset(a.Keys)| == |a.Keys|;
    NoCommaBehind("source=", s);
    NoCommaBehind("source=", s');
    if |names| == 0 {
      assert "" + ("source=" + s) == "source=" + s && "" + ("source=" + s') == "source=" + s';
      assert ("source=" + s)[7..] == s && ("source=" + s')[7..] == s';
      SameLabels(a, b, names);
    } else {
      OneBuilt(a, names[0], s);
      OneBuilt(b, names[0], s');
      assert names == [names[0]];
      SplitsLast(Pair(a, names[0]), "source=" + s, Pair(b, names[0]), "source=" + s');
      assert ("source=" + s)[7..] == s && ("source=" + s')[7..] == s';
      assert Pair(a, names[0])[|names[0]| + 1..] == ValueOf(a, names[0]) && Pair(b, names[0])[|names[0]| + 1..] == ValueOf(b, names[0]);
      SameLabels(a, b, names);
    }
  }

  lemma OneBuilt(labels: Labels, n: string, s: string)
    ensures Built(labels, [n]) + ("source=" + s) == Pair(labels, n) + [','] + ("source=" + s)
  {
    BuiltSnoc(labels, [], n);
    assert [] + [n] == [n];
  }

  /** Values for two of the labels; the others hold nothing. */
  function TwoOf(keys: set<string>, p: string, v: string, q: string, u: string): Labels {
    map k | k in keys :: if k == p then v else if k == q then u else ""
  }

  lemma ItemsBlur(keys: set<string>, names: seq<string>, v: string, u: string, v': string, u': string, s: string, t: string)
    requires Distinct(names) && |names| >= 2 && forall n | n in names :: n in keys
    requires names[0] + ['='] + v + [','] + (names[1] + ['='] + u) == names[0] + ['='] + v' + [','] + (names[1] + ['='] + u')
    ensures Join(Items(TwoOf(keys, names[0], v, names[1], u), names, s, t))
         == Join(Items(TwoOf(keys, names[0], v', names[1], u'), names, s, t))
  {
    var x, y := Items(TwoOf(keys, names[0], v, names[1], u), names, s, t), Items(TwoOf(keys, names[0], v', names[1], u'), names, s, t);
    forall i | 2 <= i < |x| ensures x[i] == y[i] {
      if i < |names| {
        assert names[i] in names && names[i] != names[0] && names[i] != names[1];
      }
    }
    assert x[2..] == y[2..];
    assert names[0] in names && names[1] in names;
    JoinBlurs(x, y);
  }

  lemma FingerprintBlurs(keys: set<string>, s: string, t: string) returns (a: Labels, b: Labels)
    requires |keys| >= 2
    ensures a.Keys == keys && b.Keys == keys && a != b && FingerprintString(a, s, t) == FingerprintString(b, s, t)
  {
    var names := SortedKeys(keys);
    SortedKeysFacts(keys);
    assert |names| == |multiset(names)| == |multiset(keys)| == |keys|;
    KeysDistinct(keys, names);
    var p, q := names[0], names[1];
    assert p in names && q in names;
    var text := [','] + q + ['='];
    a := TwoOf(keys, p, "" + text + "", q, "");
    b := TwoOf(keys, p, "", q, "" + text + "");
    assert a[p] != b[p];
    FingerprintIsJoin(a, s, t);
    FingerprintIsJoin(b, s, t);
    MovedComma(p, "", q, "", "");
    ItemsBlur(keys, names, "" + text + "", "", "", "" + text + "", s, t);
  }

  lemma KeysDistinct(keys: set<string>, names: seq<string>)
    requires multiset(names) == multiset(keys)
    ensures Distinct(names)
  {
    forall i, j | 0 <= i < j < |names| ensures names[i] != names[j] {
      if names[i] == names[j] {
        TwiceCounts(names, i, j);
      }
    }
  }

  /** Whatever values hold: fingerprints over a fixed set of labels determine the alert exactly when there is at most one label. */
  lemma FingerprintExact(keys: set<string>)
    ensures FingerprintDetermines(keys) <==> |keys| <= 1
  {
    if |keys| <= 1 {
      forall a: Labels, b: Labels, s: string, t: string, s': string, t': string
        | a.Keys == keys && b.Keys == keys && PlainOrigin(s, t) && PlainOrigin(s', t')
          && FingerprintString(a, s, t) == FingerprintString(b, s', t')
        ensures a == b && s == s' && t == t'
      {
        FewLabelsDetermine(a, b, s, t, s', t');
      }
    } else {
      var a, b := FingerprintBlurs(keys, "", "");
      assert PlainOrigin("", "");
    }
  }
}
