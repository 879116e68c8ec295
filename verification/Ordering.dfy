/** Code-point order on strings, which is what sorting Rust strings by their bytes gives, and
    a set of keys listed in it. */
module Ordering {

  predicate Le(a: string, b: string) {
    a == "" || (b != "" && (a[0] < b[0] || (a[0] == b[0] && Le(a[1..], b[1..]))))
  }

  lemma {:induction false} LeTotal(a: string, b: string)
    ensures Le(a, b) || Le(b, a)
  {
    if a != "" && b != "" && a[0] == b[0] {
      LeTotal(a[1..], b[1..]);
    }
  }

  lemma {:induction false} LeAntisymmetric(a: string, b: string)
    requires Le(a, b) && Le(b, a)
    ensures a == b
  {
    if a == "" {
    } else {
      LeAntisymmetric(a[1..], b[1..]);
      assert a == [a[0]] + a[1..] && b == [b[0]] + b[1..];
    }
  }

  lemma {:induction false} LeTransitive(a: string, b: string, c: string)
    requires Le(a, b) && Le(b, c)
    ensures Le(a, c)
  {
    if a != "" && a[0] == b[0] == c[0] {
      LeTransitive(a[1..], b[1..], c[1..]);
    }
  }

  /** At the place `i` both texts go on, for the first time differently, `a` lower than `b`. */
  predicate LowerAt(a: string, b: string, i: nat) {
    i < |a| && i < |b| && a[..i] == b[..i] && a[i] < b[i]
  }

  lemma LowerLater(a: string, b: string, i: nat)
    requires a != "" && b != "" && a[0] == b[0]
    ensures LowerAt(a, b, i + 1) <==> LowerAt(a[1..], b[1..], i)
    ensures !LowerAt(a, b, 0)
    ensures a <= b <==> a[1..] <= b[1..]
  {
    if i < |a| - 1 && i < |b| - 1 {
      assert a[..i + 1] == [a[0]] + a[1..][..i] && b[..i + 1] == [b[0]] + b[1..][..i];
      assert a[..i + 1][1..] == a[1..][..i] && b[..i + 1][1..] == b[1..][..i];
    }
    assert a == [a[0]] + a[1..] && b == [b[0]] + b[1..];
    if |a| <= |b| {
      assert b[..|a|] == [b[0]] + b[1..][..|a| - 1];
    }
  }

  /** A text comes before what begins with it, and before what has a higher character at the
      first place where the two differ. */
  lemma {:induction false} LeMeaning(a: string, b: string)
    ensures Le(a, b) <==> a <= b || exists i: nat :: LowerAt(a, b, i)
  {
    if a == "" || b == "" {
    } else if a[0] == b[0] {
      LeMeaning(a[1..], b[1..]);
      LowerLater(a, b, 0);
      hide LowerAt;
      if i: nat :| LowerAt(a[1..], b[1..], i) {
        LowerLater(a, b, i);
      }
      if i: nat :| LowerAt(a, b, i) {
        assert i != 0;
        LowerLater(a, b, i - 1);
      }
    } else {
      assert LowerAt(a, b, 0) <==> a[0] < b[0];
    }
  }

  predicate IsLeast(k: string, s: set<string>) {
    k in s && forall j :: j in s ==> Le(k, j)
  }

  lemma {:induction false} LeastExists(s: set<string>)
    requires s != {}
    ensures exists k :: IsLeast(k, s)
  {
    var x :| x in s;
    if s == {x} {
      LeTotal(x, x);
      assert IsLeast(x, s);
    } else {
      LeastExists(s - {x});
      var y :| IsLeast(y, s - {x});
      LeTotal(x, y);
      LeTotal(x, x);
      if Le(x, y) {
        forall j | j in s ensures Le(x, j) {
          if j != x {
            LeTransitive(x, y, j);
          }
        }
        assert IsLeast(x, s);
      } else {
        assert IsLeast(y, s);
      }
    }
  }

  function Least(s: set<string>): (k: string)
    requires s != {}
    ensures IsLeast(k, s)
  {
    LeastExists(s);
    assert forall a, b | IsLeast(a, s) && IsLeast(b, s) :: a == b by {
      forall a, b | IsLeast(a, s) && IsLeast(b, s) ensures a == b {
        LeAntisymmetric(a, b);
      }
    }
    var k :| k in s && IsLeast(k, s);
    k
  }

  predicate NoRepeats<T(==)>(s: seq<T>) {
    forall i, j :: 0 <= i < j < |s| ==> s[i] != s[j]
  }

  /** The keys of `s`, ascending. */
  function SortedKeys(s: set<string>): (r: seq<string>)
    ensures forall k :: k in r <==> k in s
    ensures NoRepeats(r)
  {
    if s == {} then []
    else
      var k := Least(s);
      [k] + SortedKeys(s - {k})
  }

  predicate Ascending(s: seq<string>) {
    forall i, j :: 0 <= i < j < |s| ==> Le(s[i], s[j])
  }

  lemma {:induction false} SortedKeysAscend(s: set<string>)
    ensures Ascending(SortedKeys(s))
  {
    if s != {} {
      var k := Least(s);
      var rest := SortedKeys(s - {k});
      SortedKeysAscend(s - {k});
      forall i, j | 0 <= i < j < |rest| + 1 ensures Le(([k] + rest)[i], ([k] + rest)[j]) {
        assert rest[j - 1] in rest;
      }
    }
  }
}
