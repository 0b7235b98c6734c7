/** Failure types and string order shared by the models. */
module Common {
  datatype Option<+T> = None | Some(value: T)

  datatype Result<+T, +E> = Ok(value: T) | Err(error: E)

  /** Nanoseconds; all instants and durations are counted in them. */
  const SECOND: int := 1_000_000_000

  lemma PickElement<T>(s: set<T>) returns (x: T)
    requires s != {}
    ensures x in s
  {
    x :| x in s;
  }

  /** Go's order on strings: character by character, a proper prefix first. */
  predicate LexLeq(a: string, b: string) {
    if a == "" then true
    else if b == "" then false
    else a[0] < b[0] || (a[0] == b[0] && LexLeq(a[1..], b[1..]))
  }

  /** The texts first differ at i, where a has the smaller character. */
  predicate LessAt(a: string, b: string, i: nat) { i < |a| && i < |b| && a[..i] == b[..i] && a[i] < b[i] }

  lemma LessAtTail(a: string, b: string, i: nat)
    requires a != "" && b != "" && a[0] == b[0]
    ensures LessAt(a, b, i + 1) <==> LessAt(a[1..], b[1..], i)
  {
    if i + 1 < |a| && i + 1 < |b| {
      assert a[..i + 1] == [a[0]] + a[1..][..i] && b[..i + 1] == [b[0]] + b[1..][..i];
      assert a[1..i + 1] == a[1..][..i] && b[1..i + 1] == b[1..][..i];
      assert a[..i + 1][1..] == a[1..][..i] && b[..i + 1][1..] == b[1..][..i];
    }
  }

  lemma LessAtHead(a: string, b: string)
    requires a != "" && b != ""
    ensures a[0] != b[0] ==> forall i: nat :: LessAt(a, b, i) <==> i == 0 && a[0] < b[0]
    ensures a[0] == b[0] ==> !LessAt(a, b, 0)
  {
    forall i: nat | LessAt(a, b, i) && i > 0 ensures a[0] == b[0] {
      assert a[..i][0] == b[..i][0];
    }
  }

  lemma PrefixTail(a: string, b: string)
    requires a != "" && b != ""
    ensures a <= b <==> a[0] == b[0] && a[1..] <= b[1..]
  {
    assert a == [a[0]] + a[1..] && b == [b[0]] + b[1..];
  }

  /** The first difference decides, and a text comes after its prefixes. */
  lemma {:induction false} LexMeaning(a: string, b: string)
    ensures LexLeq(a, b) <==> a <= b || exists i: nat :: LessAt(a, b, i)
  {
    if a != "" && b != "" {
      PrefixTail(a, b);
      LessAtHead(a, b);
      if a[0] == b[0] {
        LexMeaning(a[1..], b[1..]);
        if i: nat :| LessAt(a, b, i) {
          LessAtTail(a, b, i - 1);
        }
        if i: nat :| LessAt(a[1..], b[1..], i) {
          LessAtTail(a, b, i);
        }
      } else if a[0] < b[0] {
        assert LessAt(a, b, 0);
      }
    }
  }

  lemma {:induction false} LexReflexive(a: string)
    ensures LexLeq(a, a)
  {
    if a != "" {
      LexReflexive(a[1..]);
    }
  }

  lemma {:induction false} LexTotal(a: string, b: string)
    ensures LexLeq(a, b) || LexLeq(b, a)
  {
    if a != "" && b != "" {
      LexTotal(a[1..], b[1..]);
    }
  }

  lemma {:induction false} LexAntisymmetric(a: string, b: string)
    requires LexLeq(a, b) && LexLeq(b, a)
    ensures a == b
  {
    if a != "" && b != "" {
      LexAntisymmetric(a[1..], b[1..]);
      assert a == [a[0]] + a[1..] && b == [b[0]] + b[1..];
    }
  }

  lemma {:induction false} LexTransitive(a: string, b: string, c: string)
    requires LexLeq(a, b) && LexLeq(b, c)
    ensures LexLeq(a, c)
  {
    if a != "" && b != "" && c != "" && a[0] == b[0] == c[0] {
      LexTransitive(a[1..], b[1..], c[1..]);
    }
  }

  /** Index of the first c, or the length when there is none. */
  function IndexOf(s: string, c: char): (n: nat)
    ensures n <= |s| && c !in s[..n] && (n < |s| ==> s[n] == c)
    ensures n == |s| <==> c !in s
  {
    if s == "" || s[0] == c then 0 else 1 + IndexOf(s[1..], c)
  }

  lemma {:induction false} IndexOfSeparator(a: string, c: char, x: string)
    requires c !in a
    ensures IndexOf(a + [c] + x, c) == |a|
  {
    if a != "" {
      assert (a + [c] + x)[1..] == a[1..] + [c] + x;
      IndexOfSeparator(a[1..], c, x);
    }
  }

  /** The text before the first separator, and the text after it, are determined by the whole. */
  lemma SplitsOnce(a: string, x: string, b: string, y: string, c: char)
    requires a + [c] + x == b + [c] + y && c !in a && c !in b
    ensures a == b && x == y
  {
    IndexOfSeparator(a, c, x);
    IndexOfSeparator(b, c, y);
    var s := a + [c] + x;
    assert s[..|a|] == a && s[|a| + 1..] == x;
    assert s[..|b|] == b && s[|b| + 1..] == y;
  }
}
