/**
 * The strings behind the hashes that identify alerts and groups: computeGroupKey (incident consumer.go) and
 * computeFingerprint (ingestion normalize.go), before SHA-256.
 */
module CanonicalKeys {
  import opened Common
  import opened Sorting
  import opened Alerts

  type Labels = map<string, string>

  lemma LexIsTotalOrder()
    ensures TotalOrder(LexLeq)
  {
    forall a: string, b: string ensures LexLeq(a, b) || LexLeq(b, a) {
      LexTotal(a, b);
    }
    forall a: string, b: string | LexLeq(a, b) && LexLeq(b, a) ensures a == b {
      LexAntisymmetric(a, b);
    }
    forall a: string, b: string, c: string | LexLeq(a, b) && LexLeq(b, c) ensures LexLeq(a, c) {
      LexTransitive(a, b, c);
    }
  }

  function Join(parts: seq<string>): string {
    if parts == [] then ""
    else if |parts| == 1 then parts[0]
    else parts[0] + [','] + Join(parts[1..])
  }

  ghost predicate CommaFree(parts: seq<string>) { forall p | p in parts :: ',' !in p }

  lemma JoinHasComma(parts: seq<string>)
    requires |parts| > 1
    ensures ',' in Join(parts)
  {
    assert Join(parts)[|parts[0]|] == ',';
  }

  /** Joining comma-free parts loses nothing. */
  lemma {:induction false} JoinInjective(a: seq<string>, b: seq<string>)
    requires CommaFree(a) && CommaFree(b) && a != [] && b != [] && Join(a) == Join(b)
    ensures a == b
    decreases |a|
  {
    assert a[0] in a && b[0] in b;
    if |a| == 1 || |b| == 1 {
      if |a| > 1 {
        JoinHasComma(a);
      }
      if |b| > 1 {
        JoinHasComma(b);
      }
    } else {
      SplitsOnce(a[0], Join(a[1..]), b[0], Join(b[1..]), ',');
      JoinInjective(a[1..], b[1..]);
      assert a == [a[0]] + a[1..] && b == [b[0]] + b[1..];
    }
  }

  // ---- Group keys ----

  /** A missing label reads as the empty string. */
  function ValueOf(labels: Labels, name: string): string { if name in labels then labels[name] else "" }

  function Pair(labels: Labels, name: string): string { name + ['='] + ValueOf(labels, name) }

  function Pairs(labels: Labels, names: seq<string>): seq<string> {
    seq(|names|, i requires 0 <= i < |names| => Pair(labels, names[i]))
  }

  function GroupString(labels: Labels, names: seq<string>): string {
    Join(Sort(LexLeq, Pairs(labels, names)))
  }

  /** computeGroupKey, up to the hash. */
  method ComputeGroupString(labels: Labels, groupingLabels: seq<string>) returns (r: string)
    ensures r == GroupString(labels, groupingLabels)
  {
    var parts: seq<string> := [];
    for i := 0 to |groupingLabels|
      invariant parts == Pairs(labels, groupingLabels[..i])
    {
      parts := parts + [groupingLabels[i] + "=" + ValueOf(labels, groupingLabels[i])];
    }
    assert groupingLabels[..|groupingLabels|] == groupingLabels;
    parts := Sort(LexLeq, parts);
    r := Join(parts);
  }

  lemma PairsOfRemoval(labels: Labels, names: seq<string>, k: nat)
    requires k < |names|
    ensures multiset(Pairs(labels, names)) == multiset(Pairs(labels, names[..k] + names[k + 1..])) + multiset{Pair(labels, names[k])}
  {
    var all := Pairs(labels, names);
    assert Pairs(labels, names[..k] + names[k + 1..]) == all[..k] + all[k + 1..];
    assert all == all[..k] + [all[k]] + all[k + 1..];
  }

  lemma RemovedElements(s: seq<string>, k: nat)
    requires k < |s|
    ensures multiset(s[..k] + s[k + 1..]) == multiset(s) - multiset{s[k]}
  {
    assert s == s[..k] + [s[k]] + s[k + 1..];
  }

  lemma PairsOfFirst(labels: Labels, names: seq<string>)
    requires names != []
    ensures multiset(Pairs(labels, names)) == multiset(Pairs(labels, names[1..])) + multiset{Pair(labels, names[0])}
  {
    assert Pairs(labels, names) == [Pair(labels, names[0])] + Pairs(labels, names[1..]);
  }

  lemma FirstElsewhere(a: seq<string>, b: seq<string>) returns (k: nat)
    requires multiset(a) == multiset(b) && a != []
    ensures k < |b| && b[k] == a[0] && multiset(a[1..]) == multiset(b[..k] + b[k + 1..])
  {
    assert a[0] in multiset(b);
    k :| 0 <= k < |b| && b[k] == a[0];
    RemovedElements(b, k);
    TailElements(a);
  }

  lemma {:induction false} PairsPermute(labels: Labels, a: seq<string>, b: seq<string>)
    requires multiset(a) == multiset(b)
    ensures multiset(Pairs(labels, a)) == multiset(Pairs(labels, b))
    decreases |a|
  {
    SameSize(a, b);
    if a != [] {
      var k := FirstElsewhere(a, b);
      PairsPermute(labels, a[1..], b[..k] + b[k + 1..]);
      PairsOfFirst(labels, a);
      PairsOfRemoval(labels, b, k);
    }
  }

  /** The order in which a rule lists its labels does not matter. */
  lemma GroupStringPermutes(labels: Labels, a: seq<string>, b: seq<string>)
    requires multiset(a) == multiset(b)
    ensures GroupString(labels, a) == GroupString(labels, b)
  {
    LexIsTotalOrder();
    PairsPermute(labels, a, b);
    SortCanonical(LexLeq, Pairs(labels, a), Pairs(labels, b));
  }

  /** Names without separators, values without commas; values may hold '='. */
  ghost predicate CleanFor(labels: Labels, names: seq<string>) {
    forall n | n in names :: '=' !in n && ',' !in n && ',' !in ValueOf(labels, n)
  }

  ghost predicate AgreeOn(a: Labels, b: Labels, names: seq<string>) {
    forall n | n in names :: ValueOf(a, n) == ValueOf(b, n)
  }

  lemma SortedPairsCommaFree(labels: Labels, names: seq<string>)
    requires CleanFor(labels, names)
    ensures CommaFree(Sort(LexLeq, Pairs(labels, names)))
    ensures multiset(Sort(LexLeq, Pairs(labels, names))) == multiset(Pairs(labels, names))
    ensures |Sort(LexLeq, Pairs(labels, names))| == |names|
  {
    LexIsTotalOrder();
    SortSorts(LexLeq, Pairs(labels, names));
    SameSize(Sort(LexLeq, Pairs(labels, names)), Pairs(labels, names));
    forall p | p in Sort(LexLeq, Pairs(labels, names)) ensures ',' !in p {
      assert p in multiset(Pairs(labels, names));
      var i :| 0 <= i < |names| && Pairs(labels, names)[i] == p;
      assert names[i] in names;
    }
  }

  /** Under one rule, clean alerts share a group string exactly when they agree on every grouping label. */
  lemma GroupStringExact(a: Labels, b: Labels, names: seq<string>)
    requires CleanFor(a, names) && CleanFor(b, names)
    ensures GroupString(a, names) == GroupString(b, names) <==> AgreeOn(a, b, names)
  {
    if AgreeOn(a, b, names) {
      assert Pairs(a, names) == Pairs(b, names);
    } else if GroupString(a, names) == GroupString(b, names) {
      SortedPairsCommaFree(a, names);
      SortedPairsCommaFree(b, names);
      JoinInjective(Sort(LexLeq, Pairs(a, names)), Sort(LexLeq, Pairs(b, names)));
      forall n | n in names ensures ValueOf(a, n) == ValueOf(b, n) {
        PairRecovered(a, b, names, n);
      }
    }
  }

  lemma PairRecovered(a: Labels, b: Labels, names: seq<string>, n: string)
    requires CleanFor(a, names) && CleanFor(b, names) && n in names
    requires multiset(Pairs(a, names)) == multiset(Pairs(b, names))
    ensures ValueOf(a, n) == ValueOf(b, n)
  {
    var i :| 0 <= i < |names| && names[i] == n;
    assert Pairs(a, names)[i] in multiset(Pairs(b, names));
    var j :| 0 <= j < |names| && Pairs(b, names)[j] == Pair(a, n);
    assert names[j] in names;
    SplitsOnce(n, ValueOf(a, n), names[j], ValueOf(b, names[j]), '=');
  }

  // ---- Fingerprints ----

  /** The keys of a map in some order, each once. */
  ghost function Enumeration(keys: set<string>): seq<string>
    decreases |keys|
  {
    if keys == {} then [] else var k :| k in keys; [k] + Enumeration(keys - {k})
  }

  lemma {:induction false} EnumerationOnce(keys: set<string>)
    ensures multiset(Enumeration(keys)) == multiset(keys)
    decreases |keys|
  {
    if keys != {} {
      var s := Enumeration(keys);
      var k := s[0];
      assert s[1..] == Enumeration(keys - {k});
      EnumerationOnce(keys - {k});
      assert s == [k] + s[1..];
    }
  }

  ghost function SortedKeys(keys: set<string>): seq<string> { Sort(LexLeq, Enumeration(keys)) }

  lemma SortedKeysFacts(keys: set<string>)
    ensures multiset(SortedKeys(keys)) == multiset(keys)
    ensures forall k :: k in SortedKeys(keys) <==> k in keys
  {
    LexIsTotalOrder();
    EnumerationOnce(keys);
    SortSorts(LexLeq, Enumeration(keys));
    assert forall k :: k in SortedKeys(keys) <==> k in multiset(SortedKeys(keys));
  }

  /** What the string builder holds after the given names: each `name=value,`. */
  function Built(labels: Labels, names: seq<string>): string {
    if names == [] then ""
    else Built(labels, names[..|names| - 1]) + (Pair(labels, names[|names| - 1]) + [','])
  }

  function Suffix(source: string, tenantId: string): string { "source=" + source + ",tenant=" + tenantId }

  ghost function FingerprintString(labels: Labels, source: string, tenantId: string): string {
    Built(labels, SortedKeys(labels.Keys)) + Suffix(source, tenantId)
  }

  /** computeFingerprint, up to the hash. The map yields its keys in any order; the string does not depend on it. */
  method ComputeFingerprintString(a: Alert) returns (r: string)
    ensures r == FingerprintString(a.labels, a.source, a.tenantId)
  {
    var keys := CollectKeys(a.labels);
    LexIsTotalOrder();
    EnumerationOnce(a.labels.Keys);
    SortCanonical(LexLeq, keys, Enumeration(a.labels.Keys));
    keys := Sort(LexLeq, keys);
    var b := "";
    for i := 0 to |keys|
      invariant b == Built(a.labels, keys[..i])
    {
      b := b + (keys[i] + "=" + ValueOf(a.labels, keys[i]) + ",");
      assert keys[..i + 1][..i] == keys[..i];
    }
    assert keys[..|keys|] == keys;
    b := b + Suffix(a.source, a.tenantId);
    r := b;
  }

  /** Ranging over a map: its keys, once each, in an order of the runtime's choosing. */
  method CollectKeys(labels: Labels) returns (keys: seq<string>)
    ensures multiset(keys) == multiset(labels.Keys)
  {
    keys := [];
    var left := labels.Keys;
    while left != {}
      invariant left <= labels.Keys && multiset(keys) == multiset(labels.Keys - left)
      decreases left
    {
      var k :| k in left;
      assert labels.Keys - (left - {k}) == labels.Keys - left + {k};
      keys := keys + [k];
      left := left - {k};
    }
  }

  /** The builder's text is the join of its items. */
  lemma {:induction false} BuiltIsJoin(labels: Labels, names: seq<string>, rest: seq<string>)
    requires rest != []
    ensures Built(labels, names) + Join(rest) == Join(Pairs(labels, names) + rest)
    decreases |names|
  {
    var ps := Pairs(labels, names);
    if names == [] {
      assert ps + rest == rest;
    } else {
      var n := |names| - 1;
      var last := Pair(labels, names[n]);
      BuiltIsJoin(labels, names[..n], [last] + rest);
      assert ([last] + rest)[1..] == rest;
      assert Pairs(labels, names[..n]) + ([last] + rest) == ps + rest;
      assert Join([last] + rest) == last + [','] + Join(rest);
      assert Built(labels, names) + Join(rest) == Built(labels, names[..n]) + (last + [','] + Join(rest));
    }
  }

  function Items(labels: Labels, names: seq<string>, source: string, tenantId: string): seq<string> {
    Pairs(labels, names) + ["source=" + source, "tenant=" + tenantId]
  }

  lemma SuffixIsJoin(source: string, tenantId: string)
    ensures Suffix(source, tenantId) == Join(["source=" + source, "tenant=" + tenantId])
  {
    var tail := ["source=" + source, "tenant=" + tenantId];
    assert tail[1..] == [tail[1]];
    assert Join(tail) == "source=" + source + [','] + ("tenant=" + tenantId);
  }

  lemma FingerprintIsJoin(labels: Labels, source: string, tenantId: string)
    ensures FingerprintString(labels, source, tenantId) == Join(Items(labels, SortedKeys(labels.Keys), source, tenantId))
  {
    SuffixIsJoin(source, tenantId);
    BuiltIsJoin(labels, SortedKeys(labels.Keys), ["source=" + source, "tenant=" + tenantId]);
  }

  /** Label names without separators; values, source and tenant without commas. */
  ghost predicate CleanAlert(a: Alert) {
    && (forall k | k in a.labels :: '=' !in k && ',' !in k && ',' !in a.labels[k])
    && ',' !in a.source && ',' !in a.tenantId
  }

  lemma CleanItems(a: Alert)
    requires CleanAlert(a)
    ensures CommaFree(Items(a.labels, SortedKeys(a.labels.Keys), a.source, a.tenantId))
  {
    var names := SortedKeys(a.labels.Keys);
    SortedKeysFacts(a.labels.Keys);
    forall p | p in Pairs(a.labels, names) ensures ',' !in p {
      var i :| 0 <= i < |names| && Pairs(a.labels, names)[i] == p;
      assert names[i] in names;
    }
  }

  /** Fingerprint strings of clean alerts determine labels, source and tenant. */
  lemma FingerprintInjective(a: Alert, b: Alert)
    requires CleanAlert(a) && CleanAlert(b)
    ensures FingerprintString(a.labels, a.source, a.tenantId) == FingerprintString(b.labels, b.source, b.tenantId)
            <==> a.labels == b.labels && a.source == b.source && a.tenantId == b.tenantId
  {
    if FingerprintString(a.labels, a.source, a.tenantId) == FingerprintString(b.labels, b.source, b.tenantId) {
      var m, n := SortedKeys(a.labels.Keys), SortedKeys(b.labels.Keys);
      var x, y := Items(a.labels, m, a.source, a.tenantId), Items(b.labels, n, b.source, b.tenantId);
      FingerprintIsJoin(a.labels, a.source, a.tenantId);
      FingerprintIsJoin(b.labels, b.source, b.tenantId);
      CleanItems(a);
      CleanItems(b);
      JoinInjective(x, y);
      ItemsEqual(a, b, m, n);
    }
  }

  lemma ItemsEqual(a: Alert, b: Alert, m: seq<string>, n: seq<string>)
    requires CleanAlert(a) && CleanAlert(b) && m == SortedKeys(a.labels.Keys) && n == SortedKeys(b.labels.Keys)
    requires Items(a.labels, m, a.source, a.tenantId) == Items(b.labels, n, b.source, b.tenantId)
    ensures a.labels == b.labels && a.source == b.source && a.tenantId == b.tenantId
  {
    var x, y := Items(a.labels, m, a.source, a.tenantId), Items(b.labels, n, b.source, b.tenantId);
    var c := |x|;
    assert |m| == |n|;
    assert x[c - 2] == "source=" + a.source && y[c - 2] == "source=" + b.source;
    assert x[c - 1] == "tenant=" + a.tenantId && y[c - 1] == "tenant=" + b.tenantId;
    assert ("source=" + a.source)[7..] == a.source && ("source=" + b.source)[7..] == b.source;
    assert ("tenant=" + a.tenantId)[7..] == a.tenantId && ("tenant=" + b.tenantId)[7..] == b.tenantId;
    SortedKeysFacts(a.labels.Keys);
    SortedKeysFacts(b.labels.Keys);
    forall i | 0 <= i < |m| ensures m[i] == n[i] && ValueOf(a.labels, m[i]) == ValueOf(b.labels, n[i]) {
      assert m[i] in m && n[i] in n;
      assert x[i] == Pair(a.labels, m[i]) && y[i] == Pair(b.labels, n[i]);
      SplitsOnce(m[i], ValueOf(a.labels, m[i]), n[i], ValueOf(b.labels, n[i]), '=');
    }
    assert m == n;
    SameLabels(a.labels, b.labels, m);
  }

  lemma SameLabels(a: Labels, b: Labels, names: seq<string>)
    requires forall k :: k in names <==> k in a
    requires forall k :: k in names <==> k in b
    requires AgreeOn(a, b, names)
    ensures a == b
  {
    assert a.Keys == b.Keys;
    assert forall k | k in a :: ValueOf(a, k) == a[k] && ValueOf(b, k) == b[k] && k in names;
  }

  /** With a comma in a value, one label can pass for two: the alerts differ and their fingerprint strings do not. */
  lemma FingerprintCollision(p: string, q: string, x: string, y: string, source: string, tenantId: string)
    requires p != q && LexLeq(p, q)
    ensures map[p := x + "," + q + "=" + y] != map[p := x, q := y]
    ensures FingerprintString(map[p := x + "," + q + "=" + y], source, tenantId)
         == FingerprintString(map[p := x, q := y], source, tenantId)
  {
    var a, b := map[p := x + "," + q + "=" + y], map[p := x, q := y];
    assert q in b && q !in a;
    KeysInOrder([p], a.Keys);
    KeysInOrder([p, q], b.Keys);
    BuiltCollision(a, b, p, q);
  }

  lemma BuiltSnoc(labels: Labels, names: seq<string>, last: string)
    ensures Built(labels, names + [last]) == Built(labels, names) + (Pair(labels, last) + [','])
  {
    assert (names + [last])[..|names|] == names;
  }

  lemma BuiltCollision(a: Labels, b: Labels, p: string, q: string)
    requires ValueOf(a, p) == ValueOf(b, p) + "," + q + "=" + ValueOf(b, q)
    ensures Built(a, [p]) == Built(b, [p, q])
  {
    BuiltSnoc(a, [], p);
    BuiltSnoc(b, [], p);
    BuiltSnoc(b, [p], q);
    assert [] + [p] == [p] && [p] + [q] == [p, q];
    PairCollision(ValueOf(a, p), p, ValueOf(b, p), q, ValueOf(b, q));
  }

  lemma PairCollision(v: string, p: string, x: string, q: string, y: string)
    requires v == x + "," + q + "=" + y
    ensures "" + (p + ['='] + v + [',']) == "" + (p + ['='] + x + [',']) + (q + ['='] + y + [','])
  {
  }

  lemma KeysInOrder(names: seq<string>, keys: set<string>)
    requires SortedBy(LexLeq, names) && multiset(names) == multiset(keys)
    ensures SortedKeys(keys) == names
  {
    LexIsTotalOrder();
    SortedKeysFacts(keys);
    SortSorts(LexLeq, Enumeration(keys));
    SortedUnique(LexLeq, SortedKeys(keys), names);
  }
}
