/**
 * List comprehensions, ordered dictionaries and reductions as the Python
 * source uses them: `[x for x in s if p(x)]`, `extend` in a loop,
 * `.unique()`, a `dict` with its insertion order, `min` and `max`.
 */
module Collections {
  import opened Wrappers

  /** `[x for x in s if p(x)]`: keeps order and multiplicity. */
  function Filter<T(!new)>(s: seq<T>, p: T -> bool): (r: seq<T>)
    ensures |r| <= |s|
    ensures forall x :: x in r <==> x in s && p(x)
  {
    if |s| == 0 then []
    else
      var last := s[|s| - 1];
      assert forall x :: x in s <==> x in s[..|s| - 1] || x == last by {
        assert s == s[..|s| - 1] + [last];
      }
      Filter(s[..|s| - 1], p) + (if p(last) then [last] else [])
  }

  lemma {:induction false} FilterMultiset<T(!new)>(s: seq<T>, p: T -> bool, x: T)
    ensures multiset(Filter(s, p))[x] == if p(x) then multiset(s)[x] else 0
  {
    if |s| > 0 {
      var last := s[|s| - 1];
      FilterMultiset(s[..|s| - 1], p, x);
      assert s == s[..|s| - 1] + [last];
      assert multiset(s) == multiset(s[..|s| - 1]) + multiset{last};
    }
  }

  lemma {:induction false} FilterAppend<T(!new)>(a: seq<T>, b: seq<T>, p: T -> bool)
    ensures Filter(a + b, p) == Filter(a, p) + Filter(b, p)
    decreases |b|
  {
    if |b| == 0 {
      assert a + b == a;
    } else {
      var ab := a + b;
      var b', x := b[..|b| - 1], b[|b| - 1];
      var tail := if p(x) then [x] else [];
      assert ab[..|ab| - 1] == a + b';
      assert ab[|ab| - 1] == x;
      assert Filter(ab, p) == Filter(a + b', p) + tail;
      assert Filter(b, p) == Filter(b', p) + tail;
      FilterAppend(a, b', p);
      assert Filter(a, p) + Filter(b', p) + tail == Filter(a, p) + (Filter(b', p) + tail);
    }
  }

  lemma ConcatAssoc<T>(a: seq<T>, b: seq<T>, c: seq<T>)
    ensures (a + b) + c == a + (b + c)
  {
  }

  /** A filter that every element passes keeps the sequence as it is. */
  lemma {:induction false} FilterKeepsAll<T(!new)>(s: seq<T>, p: T -> bool)
    requires forall x :: x in s ==> p(x)
    ensures Filter(s, p) == s
  {
    if |s| > 0 {
      var init := s[..|s| - 1];
      assert forall x :: x in init ==> x in s;
      FilterKeepsAll(init, p);
      assert s == init + [s[|s| - 1]];
    }
  }

  /** `[f(x) for x in s if f(x) is not None]`: the present results, in order. */
  function FilterMap<T, U>(s: seq<T>, f: T -> Option<U>): (r: seq<U>)
    ensures |r| <= |s|
  {
    if |s| == 0 then []
    else
      var last := s[|s| - 1];
      FilterMap(s[..|s| - 1], f) + (match f(last) case None => [] case Some(y) => [y])
  }

  lemma {:induction false} FilterMapMember<T, U>(s: seq<T>, f: T -> Option<U>, y: U)
    ensures y in FilterMap(s, f) <==> exists i :: 0 <= i < |s| && f(s[i]) == Some(y)
  {
    if |s| > 0 {
      var init := s[..|s| - 1];
      var tail := match f(s[|s| - 1]) case None => [] case Some(z) => [z];
      assert FilterMap(s, f) == FilterMap(init, f) + tail;
      assert y in tail <==> f(s[|s| - 1]) == Some(y);
      FilterMapMember(init, f, y);
      if y in FilterMap(init, f) {
        var i :| 0 <= i < |init| && f(init[i]) == Some(y);
        assert s[i] == init[i];
      }
      if exists i :: 0 <= i < |s| && f(s[i]) == Some(y) {
        var i :| 0 <= i < |s| && f(s[i]) == Some(y);
        if i < |init| {
          assert init[i] == s[i];
        }
      }
    }
  }

  /** The results are those of the inputs `f` maps to something: one each, in order. */
  lemma {:induction false} FilterMapLength<T(!new), U>(s: seq<T>, f: T -> Option<U>, p: T -> bool)
    requires forall x :: p(x) <==> f(x).Some?
    ensures |FilterMap(s, f)| == |Filter(s, p)|
  {
    if |s| > 0 {
      FilterMapLength(s[..|s| - 1], f, p);
    }
  }

  /** The distinct elements of `s` in order of first appearance (`Series.unique()`). */
  function Unique<T(==,!new)>(s: seq<T>): (r: seq<T>)
    ensures forall x :: x in r <==> x in s
    ensures forall i, j :: 0 <= i < j < |r| ==> r[i] != r[j]
  {
    if |s| == 0 then []
    else
      var last := s[|s| - 1];
      assert s == s[..|s| - 1] + [last];
      var u := Unique(s[..|s| - 1]);
      if last in u then u else u + [last]
  }

  /** A Python `dict`: key/value pairs in insertion order. */
  type Dict<K, V> = seq<(K, V)>

  function Keys<K, V>(d: Dict<K, V>): (ks: seq<K>)
    ensures |ks| == |d|
    ensures forall i :: 0 <= i < |d| ==> ks[i] == d[i].0
  {
    seq(|d|, i requires 0 <= i < |d| => d[i].0)
  }

  ghost predicate DistinctKeys<K, V>(d: Dict<K, V>) {
    forall i, j :: 0 <= i < j < |d| ==> d[i].0 != d[j].0
  }

  /** Position of key `k` in `d`, or `|d|` when absent. */
  function KeyIndex<K(==), V>(d: Dict<K, V>, k: K): (i: nat)
    ensures i <= |d|
    ensures i < |d| ==> d[i].0 == k
    ensures forall j :: 0 <= j < i ==> d[j].0 != k
  {
    if |d| == 0 then 0
    else if d[0].0 == k then 0
    else 1 + KeyIndex(d[1..], k)
  }

  /** `d.get(k)`. */
  function Get<K(==), V>(d: Dict<K, V>, k: K): (r: Option<V>)
    ensures r.Some? <==> k in Keys(d)
    ensures r.Some? ==> (k, r.value) in d
    ensures DistinctKeys(d) ==> forall i :: 0 <= i < |d| && d[i].0 == k ==> r == Some(d[i].1)
  {
    var i := KeyIndex(d, k);
    assert k in Keys(d) ==> i < |d| by {
      if k in Keys(d) {
        var j :| 0 <= j < |d| && Keys(d)[j] == k;
      }
    }
    if i < |d| then Some(d[i].1) else None
  }

  /**
   * `d[k] = v`: an existing key keeps its position and takes the new value;
   * a new key goes last.
   */
  function Put<K(==), V>(d: Dict<K, V>, k: K, v: V): (r: Dict<K, V>)
    ensures DistinctKeys(d) ==> DistinctKeys(r)
    ensures k in Keys(d) ==> Keys(r) == Keys(d)
    ensures k !in Keys(d) ==> Keys(r) == Keys(d) + [k]
    ensures forall i :: 0 <= i < |d| && d[i].0 != k ==> r[i] == d[i]
    ensures (k, v) in r
  {
    var i := KeyIndex(d, k);
    assert k in Keys(d) ==> i < |d| by {
      if k in Keys(d) {
        var j :| 0 <= j < |d| && Keys(d)[j] == k;
      }
    }
    if i < |d| then d[i := (k, v)] else d + [(k, v)]
  }

  lemma GetPut<K, V>(d: Dict<K, V>, k: K, v: V, k': K)
    requires DistinctKeys(d)
    ensures Get(Put(d, k, v), k') == if k' == k then Some(v) else Get(d, k')
  {
    var r := Put(d, k, v);
    var i := KeyIndex(r, k');
    var j := KeyIndex(d, k');
    if k' != k && j < |d| {
      assert r[j] == d[j];
    }
  }

  /** Every entry of `Put(d, k, v)` is the new pair or an entry of `d`. */
  lemma PutEntries<K, V>(d: Dict<K, V>, k: K, v: V)
    ensures forall i :: 0 <= i < |Put(d, k, v)| ==> Put(d, k, v)[i] == (k, v) || Put(d, k, v)[i] in d
  {
    var i := KeyIndex(d, k);
    if i == |d| {
      assert k !in Keys(d);
    }
  }

  /** Looking up a key in a dict extended by one pair at the end. */
  lemma {:induction false} GetAppend<K, V>(d: Dict<K, V>, k: K, v: V, k': K)
    ensures Get(d + [(k, v)], k') == if k' in Keys(d) then Get(d, k') else if k' == k then Some(v) else None
  {
    KeyIndexAppend(d, (k, v), k');
  }

  lemma {:induction false} KeyIndexAppend<K, V>(d: Dict<K, V>, p: (K, V), k: K)
    ensures KeyIndex(d + [p], k) == if KeyIndex(d, k) < |d| then KeyIndex(d, k) else if p.0 == k then |d| else |d| + 1
    decreases |d|
  {
    if |d| > 0 {
      assert (d + [p])[1..] == d[1..] + [p];
      if d[0].0 != k {
        KeyIndexAppend(d[1..], p, k);
      }
    }
  }

  function MinReal(s: seq<real>): (m: real)
    requires |s| > 0
    ensures m in s
    ensures forall i :: 0 <= i < |s| ==> m <= s[i]
  {
    if |s| == 1 then s[0]
    else
      var m := MinReal(s[..|s| - 1]);
      assert m in s;
      if s[|s| - 1] < m then s[|s| - 1] else m
  }

  function MaxReal(s: seq<real>): (m: real)
    requires |s| > 0
    ensures m in s
    ensures forall i :: 0 <= i < |s| ==> s[i] <= m
  {
    if |s| == 1 then s[0]
    else
      var m := MaxReal(s[..|s| - 1]);
      assert m in s;
      if s[|s| - 1] > m then s[|s| - 1] else m
  }

  // MinInt and MaxInt repeat MinReal and MaxReal for the integer years:
  // a type parameter in Dafny carries no ordering to share them through.

  function MinInt(s: seq<int>): (m: int)
    requires |s| > 0
    ensures m in s
    ensures forall i :: 0 <= i < |s| ==> m <= s[i]
  {
    if |s| == 1 then s[0]
    else
      var m := MinInt(s[..|s| - 1]);
      assert m in s;
      if s[|s| - 1] < m then s[|s| - 1] else m
  }

  function MaxInt(s: seq<int>): (m: int)
    requires |s| > 0
    ensures m in s
    ensures forall i :: 0 <= i < |s| ==> s[i] <= m
  {
    if |s| == 1 then s[0]
    else
      var m := MaxInt(s[..|s| - 1]);
      assert m in s;
      if s[|s| - 1] > m then s[|s| - 1] else m
  }
}
