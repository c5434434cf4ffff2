/**
 * Python's ordering of strings (code point by code point, a proper prefix
 * first) and the `sorted(...)` of a collection of distinct strings.
 */
module Ordering {

  /** `a < b` on Python strings. */
  predicate StrLt(a: string, b: string)
    decreases |a|
  {
    if |a| == 0 then |b| > 0
    else |b| > 0 && (a[0] < b[0] || (a[0] == b[0] && StrLt(a[1..], b[1..])))
  }

  lemma {:induction false} StrLtIrreflexive(a: string)
    ensures !StrLt(a, a)
    decreases |a|
  {
    if |a| > 0 {
      StrLtIrreflexive(a[1..]);
    }
  }

  lemma {:induction false} StrLtTransitive(a: string, b: string, c: string)
    requires StrLt(a, b) && StrLt(b, c)
    ensures StrLt(a, c)
    decreases |a|
  {
    if |a| > 0 && a[0] == b[0] && b[0] == c[0] {
      StrLtTransitive(a[1..], b[1..], c[1..]);
    }
  }

  lemma {:induction false} StrLtTotal(a: string, b: string)
    ensures a == b || StrLt(a, b) || StrLt(b, a)
    decreases |a|
  {
    if |a| > 0 && |b| > 0 && a[0] == b[0] {
      StrLtTotal(a[1..], b[1..]);
      if a[1..] == b[1..] {
        assert a == [a[0]] + a[1..] && b == [b[0]] + b[1..];
      }
    }
  }

  lemma StrLtAsymmetric(a: string, b: string)
    requires StrLt(a, b)
    ensures !StrLt(b, a) && a != b
  {
    StrLtIrreflexive(a);
    if StrLt(b, a) {
      StrLtTransitive(a, b, a);
    }
  }

  predicate StrictlySorted(s: seq<string>) {
    forall i, j :: 0 <= i < j < |s| ==> StrLt(s[i], s[j])
  }

  /** Inserts `x` into a strictly increasing list, dropping it if already present. */
  function InsertSorted(x: string, s: seq<string>): (r: seq<string>)
    requires StrictlySorted(s)
    ensures StrictlySorted(r)
    ensures forall y :: y in r <==> y == x || y in s
    decreases |s|
  {
    if |s| == 0 then [x]
    else if x == s[0] then s
    else if StrLt(x, s[0]) then
      assert forall j :: 0 < j < |s| ==> StrLt(x, s[j]) by {
        forall j | 0 < j < |s| ensures StrLt(x, s[j]) { StrLtTransitive(x, s[0], s[j]); }
      }
      [x] + s
    else
      StrLtTotal(x, s[0]);
      var rest := InsertSorted(x, s[1..]);
      assert forall y :: y in rest ==> StrLt(s[0], y) by {
        forall y | y in rest ensures StrLt(s[0], y) {
          if y != x {
            var j :| 0 <= j < |s[1..]| && s[1..][j] == y;
            assert s[j + 1] == y;
          }
        }
      }
      [s[0]] + rest
  }

  /** `sorted(set(s))`: the distinct elements of `s` in increasing order. */
  function SortedSet(s: seq<string>): (r: seq<string>)
    ensures StrictlySorted(r)
    ensures forall y :: y in r <==> y in s
  {
    if |s| == 0 then []
    else
      var r := InsertSorted(s[|s| - 1], SortedSet(s[..|s| - 1]));
      assert forall y :: y in s <==> y == s[|s| - 1] || y in s[..|s| - 1] by {
        assert s == s[..|s| - 1] + [s[|s| - 1]];
      }
      r
  }

  /**
   * A strictly increasing list is determined by its elements, so the result
   * of `sorted(set(...))` depends only on the set of values.
   */
  lemma {:induction false} SortedUnique(r: seq<string>, t: seq<string>)
    requires StrictlySorted(r) && StrictlySorted(t)
    requires forall y :: y in r <==> y in t
    ensures r == t
    decreases |r|
  {
    assert |r| > 0 ==> r[0] in t;
    assert |t| > 0 ==> t[0] in r;
    if |r| > 0 && |t| > 0 {
      assert r[0] == t[0] by {
        assert r[0] in t && t[0] in r;
        var i :| 0 <= i < |t| && t[i] == r[0];
        var j :| 0 <= j < |r| && r[j] == t[0];
        if i > 0 && j > 0 {
          StrLtAsymmetric(t[0], r[0]);
        }
      }
      forall y ensures y in r[1..] <==> y in t[1..] {
        if y in r[1..] {
          var i :| 0 <= i < |r[1..]| && r[1..][i] == y;
          StrLtAsymmetric(r[0], r[i + 1]);
          assert y in t;
          var j :| 0 <= j < |t| && t[j] == y;
          assert t[1..][j - 1] == y;
        }
        if y in t[1..] {
          var i :| 0 <= i < |t[1..]| && t[1..][i] == y;
          StrLtAsymmetric(t[0], t[i + 1]);
          assert y in r;
          var j :| 0 <= j < |r| && r[j] == y;
          assert r[1..][j - 1] == y;
        }
      }
      SortedUnique(r[1..], t[1..]);
      assert r == [r[0]] + r[1..] && t == [t[0]] + t[1..];
    }
  }
}
