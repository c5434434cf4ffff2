/**
 * Repairs to the attributes of a dataset's `time` variable so that its
 * encoding follows the CF Metadata Conventions: `units` of the form
 * "<unit> since <date>" (section 4.4) and a `calendar` attribute
 * (section 4.4.1, with `365_day` as the assumed calendar).
 */
module TimeUtils {
  import opened Wrappers
  import opened Text

  /** The attributes of one variable. */
  type Attrs = map<string, string>

  /** A dataset, as far as the repair sees it: each variable's attributes. */
  type Dataset = map<string, Attrs>

  /** `s[i..i+n]` holds `n` digits, for the group widths the patterns use (at most 4). */
  predicate DigitsAt(s: string, i: nat, n: nat)
    requires n <= 4
  {
    i + n <= |s| &&
    (n > 0 ==> IsDigit(s[i])) && (n > 1 ==> IsDigit(s[i + 1])) &&
    (n > 2 ==> IsDigit(s[i + 2])) && (n > 3 ==> IsDigit(s[i + 3]))
  }

  // ---------------------------------------------------------------------
  // Fix 2: D-D-YYYY becomes YYYY-D-D
  // ---------------------------------------------------------------------

  /**
   * Width of a `\d{1,2}` group at `i` that a `-` follows. Trying two digits
   * before one, as the greedy quantifier does, never changes the outcome: a
   * two-digit group needs a digit where a one-digit group needs the `-`.
   */
  function GroupAt(s: string, i: nat): (w: nat)
    ensures w <= 2
    ensures w > 0 ==> DigitsAt(s, i, w) && i + w < |s| && s[i + w] == '-'
  {
    if DigitsAt(s, i, 2) && i + 2 < |s| && s[i + 2] == '-' then 2
    else if DigitsAt(s, i, 1) && i + 1 < |s| && s[i + 1] == '-' then 1
    else 0
  }

  /** Where the second group starts, for a match at `i`. */
  function SecondAt(s: string, i: nat): nat {
    i + GroupAt(s, i) + 1
  }

  /** Where the `\d{4}` group starts, for a match at `i`. */
  function YearAt(s: string, i: nat): nat {
    SecondAt(s, i) + GroupAt(s, SecondAt(s, i)) + 1
  }

  /** `(\d{1,2})-(\d{1,2})-(\d{4})` matches at `i`. */
  predicate DateAt(s: string, i: nat) {
    GroupAt(s, i) > 0 && GroupAt(s, SecondAt(s, i)) > 0 && DigitsAt(s, YearAt(s, i), 4)
  }

  /** `re.search` of the date pattern. */
  predicate HasDate(s: string) {
    exists i | 0 <= i < |s| :: DateAt(s, i)
  }

  /** The replacement `\3-\1-\2` for the match at `i`. */
  function SwapAt(s: string, i: nat): (r: string)
    requires DateAt(s, i)
    ensures |r| == YearAt(s, i) + 4 - i
  {
    var m, y := SecondAt(s, i), YearAt(s, i);
    s[y..y + 4] + "-" + s[i..m - 1] + "-" + s[m..y - 1]
  }

  lemma RotatePieces<T>(g1: seq<T>, d1: seq<T>, g2: seq<T>, d2: seq<T>, y: seq<T>)
    ensures multiset(y + d1 + g1 + d2 + g2) == multiset(g1 + d1 + g2 + d2 + y)
  {
  }

  /** A slice cut at four inner points is the concatenation of the five pieces. */
  lemma SliceFive<T>(s: seq<T>, a: nat, b: nat, c: nat, d: nat, e: nat, f: nat)
    requires a <= b <= c <= d <= e <= f <= |s|
    ensures s[a..f] == s[a..b] + s[b..c] + s[c..d] + s[d..e] + s[e..f]
  {
    SliceTwo(s, a, e, f);
    SliceTwo(s, a, d, e);
    SliceTwo(s, a, c, d);
    SliceTwo(s, a, b, c);
  }

  lemma SliceTwo<T>(s: seq<T>, a: nat, b: nat, c: nat)
    requires a <= b <= c <= |s|
    ensures s[a..c] == s[a..b] + s[b..c]
  {
  }

  lemma SliceCons<T>(s: seq<T>, a: nat, b: nat)
    requires a < b <= |s|
    ensures s[a..b] == [s[a]] + s[a + 1..b]
  {
  }

  lemma ConsAssoc<T>(x: T, a: seq<T>, b: seq<T>)
    ensures [x] + (a + b) == ([x] + a) + b
  {
  }

  /** Concatenating pieces with the same characters gives the same characters. */
  lemma ConcatPermutes<T>(a: seq<T>, b: seq<T>, c: seq<T>, d: seq<T>)
    requires multiset(a) == multiset(c) && multiset(b) == multiset(d)
    ensures multiset(a + b) == multiset(c + d)
  {
  }

  /**
   * Moving the last of five slices to the front, when the second and fourth
   * are the same separator, keeps the elements of the whole.
   */
  lemma RotateSlices<T>(s: seq<T>, a: nat, b: nat, c: nat, d: nat, e: nat, f: nat, dash: seq<T>, r: seq<T>)
    requires a <= b <= c <= d <= e <= f <= |s|
    requires s[b..c] == dash && s[d..e] == dash
    requires r == s[e..f] + dash + s[a..b] + dash + s[c..d]
    ensures multiset(r) == multiset(s[a..f])
  {
    SliceFive(s, a, b, c, d, e, f);
    RotatePieces(s[a..b], dash, s[c..d], dash, s[e..f]);
  }

  /** The replacement holds the characters of the match. */
  lemma SwapAtPermutes(s: string, i: nat)
    requires DateAt(s, i)
    ensures multiset(SwapAt(s, i)) == multiset(s[i..YearAt(s, i) + 4])
  {
    var m, y := SecondAt(s, i), YearAt(s, i);
    assert s[m - 1..m] == "-" && s[y - 1..y] == "-";
    RotateSlices(s, i, m - 1, m, y - 1, y, y + 4, "-", SwapAt(s, i));
  }

  /** A digit of the year now stands where the first `-` stood. */
  lemma SwapAtMovesDash(s: string, i: nat)
    requires DateAt(s, i)
    ensures var a := GroupAt(s, i);
      IsDigit(SwapAt(s, i)[a]) && s[i + a] == '-'
  {
  }

  /** What the scan emits at `i`: the replacement of a match there, or the character. */
  function Piece(s: string, i: nat): string
    requires i < |s|
  {
    if DateAt(s, i) then SwapAt(s, i) else [s[i]]
  }

  /** Where the scan goes on after `i`: past the match, or to the next character. */
  function Next(s: string, i: nat): (j: nat)
    requires i < |s|
    ensures i < j <= |s|
  {
    if DateAt(s, i) then YearAt(s, i) + 4 else i + 1
  }

  /** `re.sub` from position `i` on: each match is replaced, scanning resumes after it. */
  function SwapFrom(s: string, i: nat): string
    decreases |s| - i
  {
    if i >= |s| then [] else Piece(s, i) + SwapFrom(s, Next(s, i))
  }

  function SwapDates(s: string): string {
    SwapFrom(s, 0)
  }

  lemma SwapFromStep(s: string, i: nat)
    requires i < |s|
    ensures SwapFrom(s, i) == Piece(s, i) + SwapFrom(s, Next(s, i))
  {
  }

  lemma SwapFromAtDate(s: string, i: nat)
    requires i < |s| && DateAt(s, i)
    ensures SwapFrom(s, i) == SwapAt(s, i) + SwapFrom(s, YearAt(s, i) + 4)
  {
    SwapFromStep(s, i);
  }

  lemma SwapFromCopy(s: string, i: nat)
    requires i < |s| && !DateAt(s, i)
    ensures SwapFrom(s, i) == [s[i]] + SwapFrom(s, i + 1)
  {
    SwapFromStep(s, i);
  }

  /** What the scan emits at `i` holds the characters it steps over. */
  lemma PiecePermutes(s: string, i: nat)
    requires i < |s|
    ensures multiset(Piece(s, i)) == multiset(s[i..Next(s, i)])
  {
    if DateAt(s, i) {
      SwapAtPermutes(s, i);
    } else {
      assert s[i..i + 1] == [s[i]];
    }
  }

  lemma DropSplit<T>(s: seq<T>, i: nat, n: nat)
    requires i <= n <= |s|
    ensures s[i..] == s[i..n] + s[n..]
  {
  }

  /** The rewrite only moves characters: same length, same characters. */
  lemma {:induction false} SwapFromPermutes(s: string, i: nat)
    requires i <= |s|
    ensures multiset(SwapFrom(s, i)) == multiset(s[i..])
    decreases |s| - i
  {
    if i < |s| {
      var n := Next(s, i);
      SwapFromPermutes(s, n);
      SwapFromStep(s, i);
      PiecePermutes(s, i);
      DropSplit(s, i, n);
      ConcatPermutes(Piece(s, i), SwapFrom(s, n), s[i..n], s[n..]);
    }
  }

  /** A string without the pattern is left as it is. */
  lemma {:induction false} SwapFromNoDate(s: string, i: nat)
    requires i <= |s|
    requires forall j :: i <= j < |s| ==> !DateAt(s, j)
    ensures SwapFrom(s, i) == s[i..]
    decreases |s| - i
  {
    if i < |s| {
      SwapFromCopy(s, i);
      SwapFromNoDate(s, i + 1);
      SliceCons(s, i, |s|);
    }
  }

  /** Before the first match the text is copied. */
  lemma {:induction false} SwapFromCopies(s: string, i: nat, j: nat)
    requires i <= j <= |s|
    requires forall k :: i <= k < j ==> !DateAt(s, k)
    ensures SwapFrom(s, i) == s[i..j] + SwapFrom(s, j)
    decreases j - i
  {
    if i < j {
      SwapFromCopy(s, i);
      SwapFromCopies(s, i + 1, j);
      SliceCons(s, i, j);
      ConsAssoc(s[i], s[i + 1..j], SwapFrom(s, j));
    }
  }

  lemma SwapAtGroups(s: string, i: nat)
    requires DateAt(s, i)
    ensures var a, b := GroupAt(s, i), GroupAt(s, SecondAt(s, i));
      var y := i + a + b + 2;
      y == YearAt(s, i) && SwapAt(s, i) == s[y..y + 4] + "-" + s[i..i + a] + "-" + s[i + a + 1..i + a + 1 + b]
  {
  }

  /**
   * The first `D-D-YYYY` occurrence, at `i`, becomes `YYYY-D-D` with the same
   * digits; the text before it is copied.
   */
  lemma FirstDateSwapped(s: string, i: nat)
    requires i < |s| && DateAt(s, i)
    requires forall k :: 0 <= k < i ==> !DateAt(s, k)
    ensures SwapDates(s) == s[..i] + (SwapAt(s, i) + SwapFrom(s, YearAt(s, i) + 4))
    ensures var a, b := GroupAt(s, i), GroupAt(s, SecondAt(s, i));
      var y := i + a + b + 2;
      y == YearAt(s, i) && SwapAt(s, i) == s[y..y + 4] + "-" + s[i..i + a] + "-" + s[i + a + 1..i + a + 1 + b]
  {
    SwapFromCopies(s, 0, i);
    assert s[0..i] == s[..i];
    SwapFromAtDate(s, i);
    SwapAtGroups(s, i);
  }

  lemma SwapStepChanges(s: string, i: nat)
    requires i < |s| && DateAt(s, i)
    ensures SwapFrom(s, i) != s[i..]
  {
    var a := GroupAt(s, i);
    SwapAtMovesDash(s, i);
    SwapFromAtDate(s, i);
    assert SwapFrom(s, i)[a] == SwapAt(s, i)[a];
    assert s[i..][a] == '-';
  }

  lemma CopyStepChanges(s: string, i: nat)
    requires i < |s| && !DateAt(s, i)
    requires SwapFrom(s, i + 1) != s[i + 1..]
    ensures SwapFrom(s, i) != s[i..]
  {
    SwapFromCopy(s, i);
    assert SwapFrom(s, i)[1..] == SwapFrom(s, i + 1);
    assert s[i..][1..] == s[i + 1..];
  }

  /** Once a match lies ahead, the rewrite changes the text. */
  lemma {:induction false} SwapFromChanges(s: string, i: nat, j: nat)
    requires i <= j < |s| && DateAt(s, j)
    ensures SwapFrom(s, i) != s[i..]
    decreases j - i
  {
    if DateAt(s, i) {
      SwapStepChanges(s, i);
    } else {
      SwapFromChanges(s, i + 1, j);
      CopyStepChanges(s, i);
    }
  }

  /** The rewrite changes the string exactly when the search finds the pattern. */
  lemma SwapChangesIff(s: string)
    ensures SwapDates(s) != s <==> HasDate(s)
  {
    if HasDate(s) {
      var j :| 0 <= j < |s| && DateAt(s, j);
      SwapFromChanges(s, 0, j);
      assert s[0..] == s;
    } else {
      SwapFromNoDate(s, 0);
    }
  }

  lemma SwapExample()
    ensures SwapDates("1-1-2000") == "2000-1-1"
  {
    var s := "1-1-2000";
    assert GroupAt(s, 0) == 1 && GroupAt(s, 2) == 1 && DateAt(s, 0);
    assert YearAt(s, 0) == 4;
    SwapFromAtDate(s, 0);
    assert SwapFrom(s, 8) == [];
    assert SwapAt(s, 0) == "2000-1-1";
  }

  // ---------------------------------------------------------------------
  // Fix 3: day 0 becomes day 1
  // ---------------------------------------------------------------------

  /** Length of the run of digits starting at `i`. */
  function DigitRun(s: string, i: nat): (n: nat)
    requires i <= |s|
    ensures i + n <= |s|
    ensures forall k :: i <= k < i + n ==> IsDigit(s[k])
    ensures i + n < |s| ==> !IsDigit(s[i + n])
    decreases |s| - i
  {
    if i < |s| && IsDigit(s[i]) then 1 + DigitRun(s, i + 1) else 0
  }

  /**
   * `(-\d+)-0(\s|$)` matches at `i`. The greedy `\d+` can only succeed with
   * the whole digit run, since a `-` must follow it; `$` adds nothing to `\s`
   * because a final newline is itself white space.
   */
  predicate DayZeroAt(s: string, i: nat) {
    i + 1 < |s| && s[i] == '-' &&
    var n := DigitRun(s, i + 1);
    n >= 1 && i + n + 2 < |s| && s[i + n + 1] == '-' && s[i + n + 2] == '0' &&
    (i + n + 3 == |s| || IsSpace(s[i + n + 3]))
  }

  /** Where the `0` of a match at `i` sits. */
  function ZeroOf(s: string, i: nat): nat
    requires i + 1 <= |s|
  {
    i + DigitRun(s, i + 1) + 2
  }

  /** `re.sub` with `\1-1\2` from position `i` on. */
  function DayFrom(s: string, i: nat): string
    decreases |s| - i
  {
    if i >= |s| then []
    else if DayZeroAt(s, i) then
      var z := ZeroOf(s, i);
      var end := if z + 1 < |s| then z + 2 else z + 1;
      s[i..z] + "1" + s[z + 1..end] + DayFrom(s, end)
    else [s[i]] + DayFrom(s, i + 1)
  }

  function FixDayZero(s: string): string {
    DayFrom(s, 0)
  }

  /** Length of the run of digits that ends just before `k`. */
  function RunBefore(s: string, k: nat): (n: nat)
    requires k <= |s|
    ensures n <= k
    ensures forall q :: k - n <= q < k ==> IsDigit(s[q])
    ensures n < k ==> !IsDigit(s[k - n - 1])
    decreases k
  {
    if k > 0 && IsDigit(s[k - 1]) then 1 + RunBefore(s, k - 1) else 0
  }

  /**
   * `s[p]` is a day `0`: the text around it reads `-<digits>-0` followed by
   * white space or the end.
   */
  predicate ZeroFixed(s: string, p: nat) {
    2 <= p < |s| && s[p] == '0' && s[p - 1] == '-' && (p + 1 == |s| || IsSpace(s[p + 1])) &&
    var n := RunBefore(s, p - 1);
    n >= 1 && n + 2 <= p && s[p - 2 - n] == '-'
  }

  /** Where the match whose `0` is at `p` starts. */
  function StartOfZero(s: string, p: nat): nat
    requires ZeroFixed(s, p)
  {
    p - 2 - RunBefore(s, p - 1)
  }

  lemma {:induction false} RunForward(s: string, k: nat, n: nat)
    requires k + n <= |s|
    requires forall q :: k <= q < k + n ==> IsDigit(s[q])
    requires k + n == |s| || !IsDigit(s[k + n])
    ensures DigitRun(s, k) == n
    decreases n
  {
    if n > 0 {
      RunForward(s, k + 1, n - 1);
    }
  }

  lemma {:induction false} RunBackward(s: string, k: nat, n: nat)
    requires n <= k <= |s|
    requires forall q :: k - n <= q < k ==> IsDigit(s[q])
    requires n == k || !IsDigit(s[k - n - 1])
    ensures RunBefore(s, k) == n
    decreases n
  {
    if n > 0 {
      RunBackward(s, k - 1, n - 1);
    }
  }

  /** A day `0` belongs to the match that starts where its digit run begins. */
  lemma ZeroFixedMatch(s: string, p: nat)
    ensures ZeroFixed(s, p) ==> DayZeroAt(s, StartOfZero(s, p)) && ZeroOf(s, StartOfZero(s, p)) == p
  {
    if ZeroFixed(s, p) {
      var n := RunBefore(s, p - 1);
      RunForward(s, p - 1 - n, n);
    }
  }

  /** The `0` of a match is a day `0`. */
  lemma MatchZeroFixed(s: string, j: nat)
    requires DayZeroAt(s, j)
    ensures ZeroFixed(s, ZeroOf(s, j)) && StartOfZero(s, ZeroOf(s, j)) == j
  {
    var n := DigitRun(s, j + 1);
    RunBackward(s, j + 1 + n, n);
  }

  /** No match starts inside another match. */
  lemma NoMatchInside(s: string, i: nat, j: nat)
    requires DayZeroAt(s, i)
    requires i < j < |s| && j <= ZeroOf(s, i) + 1
    ensures !DayZeroAt(s, j)
  {
    var z := ZeroOf(s, i);
    if j == z - 1 {
      assert DigitRun(s, j + 1) == 1 by {
        if z + 1 < |s| {
          SpaceIsNotDigit(s[z + 1]);
        }
      }
    }
  }

  /** Whether `p` is the `0` of a match that starts at or after `i`. */
  predicate ZeroFixedFrom(s: string, i: nat, p: nat) {
    ZeroFixed(s, p) && StartOfZero(s, p) >= i
  }

  /**
   * `r` is `s[i..]` with the `0` of every match that starts at or after `i`
   * read as `1`.
   */
  predicate FixedFrom(s: string, i: nat, r: string) {
    i <= |s| && |r| == |s| - i &&
    forall k :: 0 <= k < |r| ==> r[k] == if ZeroFixedFrom(s, i, i + k) then '1' else s[i + k]
  }

  /** A position where no match starts adds no fixed `0`. */
  lemma ZeroFixedSkip(s: string, i: nat, p: nat)
    requires i < |s| && !DayZeroAt(s, i)
    ensures ZeroFixedFrom(s, i, p) == ZeroFixedFrom(s, i + 1, p)
  {
    ZeroFixedMatch(s, p);
  }

  lemma DayFromCopy(s: string, i: nat)
    requires i < |s| && !DayZeroAt(s, i)
    ensures DayFrom(s, i) == [s[i]] + DayFrom(s, i + 1)
  {
  }

  /** One position of a pointwise description. */
  lemma FixedAt(s: string, j: nat, r: string, p: nat)
    requires FixedFrom(s, j, r) && j <= p < |s|
    ensures r[p - j] == if ZeroFixedFrom(s, j, p) then '1' else s[p]
  {
    var q := p - j;
    assert r[q] == if ZeroFixedFrom(s, j, j + q) then '1' else s[j + q];
  }

  lemma IndexHead<T>(h: seq<T>, r: seq<T>, k: nat)
    requires k < |h|
    ensures (h + r)[k] == h[k]
  {
  }

  lemma IndexTail<T>(h: seq<T>, r: seq<T>, k: nat, q: nat)
    requires |h| <= k && q == k - |h| && q < |r|
    ensures (h + r)[k] == r[q]
  {
  }

  lemma CopyStepAt(s: string, i: nat, k: nat)
    requires i < |s| && !DayZeroAt(s, i) && k < |s| - i
    requires FixedFrom(s, i + 1, DayFrom(s, i + 1))
    ensures k < |DayFrom(s, i)|
    ensures DayFrom(s, i)[k] == if ZeroFixedFrom(s, i, i + k) then '1' else s[i + k]
  {
    var rest := DayFrom(s, i + 1);
    DayFromCopy(s, i);
    if k > 0 {
      ZeroFixedSkip(s, i, i + k);
      IndexTail([s[i]], rest, k, k - 1);
      FixedAt(s, i + 1, rest, i + k);
    } else {
      IndexHead([s[i]], rest, k);
      assert !ZeroFixedFrom(s, i, i);
    }
  }

  lemma CopyStepFixed(s: string, i: nat)
    requires i < |s| && !DayZeroAt(s, i)
    requires FixedFrom(s, i + 1, DayFrom(s, i + 1))
    ensures FixedFrom(s, i, DayFrom(s, i))
  {
    DayFromCopy(s, i);
    forall k | 0 <= k < |s| - i
      ensures DayFrom(s, i)[k] == if ZeroFixedFrom(s, i, i + k) then '1' else s[i + k]
    {
      CopyStepAt(s, i, k);
    }
  }

  /** Within or after a match at `i`, the fixed `0`s are its own and those of later matches. */
  lemma ZeroFixedAcross(s: string, i: nat, p: nat)
    requires DayZeroAt(s, i)
    ensures var z := ZeroOf(s, i);
      var end := if z + 1 < |s| then z + 2 else z + 1;
      (p < end ==> (ZeroFixedFrom(s, i, p) <==> p == z)) &&
      (p >= end ==> ZeroFixedFrom(s, i, p) == ZeroFixedFrom(s, end, p))
  {
    var z := ZeroOf(s, i);
    var end := if z + 1 < |s| then z + 2 else z + 1;
    MatchZeroFixed(s, i);
    ZeroFixedMatch(s, p);
    if ZeroFixed(s, p) && i < StartOfZero(s, p) < end {
      NoMatchInside(s, i, StartOfZero(s, p));
    }
  }

  lemma ZeroFixedAfter(s: string, i: nat, p: nat)
    requires DayZeroAt(s, i) && ResumeAfter(s, i) <= p
    ensures ZeroFixedFrom(s, i, p) == ZeroFixedFrom(s, ResumeAfter(s, i), p)
  {
    ZeroFixedAcross(s, i, p);
  }

  /** Where scanning resumes after a match at `i`. */
  function ResumeAfter(s: string, i: nat): nat
    requires i + 1 <= |s|
  {
    var z := ZeroOf(s, i);
    if z + 1 < |s| then z + 2 else z + 1
  }

  lemma DayFromAtMatch(s: string, i: nat)
    requires i < |s| && DayZeroAt(s, i)
    ensures var z, end := ZeroOf(s, i), ResumeAfter(s, i);
      DayFrom(s, i) == s[i..z] + "1" + s[z + 1..end] + DayFrom(s, end)
  {
  }

  lemma ReplaceOne(s: string, i: nat, z: nat, end: nat, k: nat)
    requires i <= z < end <= |s| && k < end - i
    ensures (s[i..z] + "1" + s[z + 1..end])[k] == if i + k == z then '1' else s[i + k]
  {
  }

  /** A match's `0` lies inside it, and the match inside the text. */
  lemma MatchBounds(s: string, i: nat)
    requires DayZeroAt(s, i)
    ensures i < ZeroOf(s, i) < ResumeAfter(s, i) <= |s|
  {
  }

  lemma ZeroFixedInside(s: string, i: nat, p: nat)
    requires DayZeroAt(s, i) && p < ResumeAfter(s, i)
    ensures ZeroFixedFrom(s, i, p) <==> p == ZeroOf(s, i)
  {
    ZeroFixedAcross(s, i, p);
  }

  /** Inside the match the `0` reads `1` and nothing else changes. */
  lemma MatchHeadAt(s: string, i: nat, k: nat)
    requires i < |s| && DayZeroAt(s, i) && i + k < ResumeAfter(s, i)
    ensures k < |DayFrom(s, i)|
    ensures DayFrom(s, i)[k] == if ZeroFixedFrom(s, i, i + k) then '1' else s[i + k]
  {
    var z, end := ZeroOf(s, i), ResumeAfter(s, i);
    MatchBounds(s, i);
    var head := s[i..z] + "1" + s[z + 1..end];
    DayFromAtMatch(s, i);
    IndexHead(head, DayFrom(s, end), k);
    ReplaceOne(s, i, z, end, k);
    ZeroFixedInside(s, i, i + k);
  }

  /** After the match, the scan that resumes there decides. */
  lemma MatchTailAt(s: string, i: nat, k: nat)
    requires i < |s| && DayZeroAt(s, i) && ResumeAfter(s, i) <= i + k < |s|
    requires FixedFrom(s, ResumeAfter(s, i), DayFrom(s, ResumeAfter(s, i)))
    ensures k < |DayFrom(s, i)|
    ensures DayFrom(s, i)[k] == if ZeroFixedFrom(s, i, i + k) then '1' else s[i + k]
  {
    var z, end := ZeroOf(s, i), ResumeAfter(s, i);
    var head, rest := s[i..z] + "1" + s[z + 1..end], DayFrom(s, end);
    DayFromAtMatch(s, i);
    IndexTail(head, rest, k, i + k - end);
    FixedAt(s, end, rest, i + k);
    ZeroFixedAfter(s, i, i + k);
  }

  lemma MatchStepFixed(s: string, i: nat)
    requires i < |s| && DayZeroAt(s, i)
    requires FixedFrom(s, ResumeAfter(s, i), DayFrom(s, ResumeAfter(s, i)))
    ensures FixedFrom(s, i, DayFrom(s, i))
  {
    DayFromAtMatch(s, i);
    forall k | 0 <= k < |s| - i
      ensures DayFrom(s, i)[k] == if ZeroFixedFrom(s, i, i + k) then '1' else s[i + k]
    {
      if i + k < ResumeAfter(s, i) {
        MatchHeadAt(s, i, k);
      } else {
        MatchTailAt(s, i, k);
      }
    }
  }

  lemma {:induction false} DayFromPointwise(s: string, i: nat)
    requires i <= |s|
    ensures FixedFrom(s, i, DayFrom(s, i))
    decreases |s| - i
  {
    if i == |s| {
    } else if DayZeroAt(s, i) {
      DayFromPointwise(s, ResumeAfter(s, i));
      MatchStepFixed(s, i);
    } else {
      DayFromPointwise(s, i + 1);
      CopyStepFixed(s, i);
    }
  }

  /**
   * Every `-<digits>-0` followed by white space or the end has its `0`
   * changed to `1`; no other character changes.
   */
  lemma FixDayZeroPointwise(s: string)
    ensures |FixDayZero(s)| == |s|
    ensures forall p {:trigger FixDayZero(s)[p]} :: 0 <= p < |s| ==>
      FixDayZero(s)[p] == if ZeroFixed(s, p) then '1' else s[p]
  {
    DayFromPointwise(s, 0);
    forall p | 0 <= p < |s|
      ensures FixDayZero(s)[p] == if ZeroFixed(s, p) then '1' else s[p]
    {
      assert FixDayZero(s)[p] == DayFrom(s, 0)[0 + p];
    }
  }

  /** `re.search(r'-\d+-0\s')` or `re.search(r'-\d+-0$')`. */
  predicate HasDayZero(s: string) {
    exists i | 0 <= i < |s| :: DayZeroAt(s, i)
  }

  lemma DayZeroFound(s: string)
    requires HasDayZero(s)
    ensures FixDayZero(s) != s
  {
    var i :| 0 <= i < |s| && DayZeroAt(s, i);
    var z := ZeroOf(s, i);
    MatchZeroFixed(s, i);
    FixDayZeroPointwise(s);
    assert FixDayZero(s)[z] == '1' != s[z];
  }

  lemma DayZeroAbsent(s: string)
    requires !HasDayZero(s)
    ensures FixDayZero(s) == s
  {
    FixDayZeroPointwise(s);
    forall p | 0 <= p < |s| ensures FixDayZero(s)[p] == s[p] {
      ZeroFixedMatch(s, p);
    }
  }

  /** The rewrite changes the string exactly when the search finds a day 0. */
  lemma DayZeroChangesIff(s: string)
    ensures FixDayZero(s) != s <==> HasDayZero(s)
  {
    if HasDayZero(s) {
      DayZeroFound(s);
    } else {
      DayZeroAbsent(s);
    }
  }

  /** Any `\s` after `-<digits>-0` ends a day 0, which is then repaired. */
  lemma SpaceEndsDayZero(c: char)
    requires IsSpace(c)
    ensures FixDayZero("-1-0" + [c]) == "-1-1" + [c]
  {
    var s := "-1-0" + [c];
    assert DigitRun(s, 2) == 0;
    assert DigitRun(s, 1) == 1;
    assert DayZeroAt(s, 0) && ZeroOf(s, 0) == 3;
    assert DayFrom(s, 0) == s[0..3] + "1" + s[4..5] + DayFrom(s, 5);
  }

  /** The information separators U+001C to U+001F are among them. */
  lemma SeparatorEndsDayZero()
    ensures forall c :: '\U{1C}' <= c <= '\U{1F}' ==> FixDayZero("-1-0" + [c]) == "-1-1" + [c]
  {
    forall c | '\U{1C}' <= c <= '\U{1F}' ensures FixDayZero("-1-0" + [c]) == "-1-1" + [c] {
      SpaceEndsDayZero(c);
    }
  }

  // ---------------------------------------------------------------------
  // The four fixes
  // ---------------------------------------------------------------------

  /** What `units` holds once the typo `unit` is repaired, if anything. */
  function UnitsAfterRename(a: Attrs): Option<string> {
    if "units" in a then Some(a["units"])
    else if "unit" in a then Some(a["unit"])
    else None
  }

  /** `b` agrees with `a` on every key other than `key`. */
  ghost predicate SameExcept(a: Attrs, b: Attrs, key: string) {
    forall k :: k != key ==> (k in b <==> k in a) && (k in a ==> b[k] == a[k])
  }

  /** Fix 1: a `unit` attribute without `units` is renamed to `units`. */
  method RenameUnit(a: Attrs) returns (b: Attrs)
    ensures forall k :: k != "unit" && k != "units" ==> (k in b <==> k in a) && (k in a ==> b[k] == a[k])
    ensures "unit" in b <==> "unit" in a && "units" in a
    ensures "unit" in b ==> b["unit"] == a["unit"]
    ensures "units" in b <==> UnitsAfterRename(a).Some?
    ensures "units" in b ==> b["units"] == UnitsAfterRename(a).value
  {
    b := a;
    if "unit" in b && "units" !in b {
      var value := b["unit"];
      b := (b - {"unit"})["units" := value];
    }
  }

  /** Fix 2: `D-D-YYYY` dates in `units` become `YYYY-D-D`. */
  method SwapUnitDates(a: Attrs) returns (b: Attrs)
    ensures SameExcept(a, b, "units")
    ensures "units" in b <==> "units" in a
    ensures "units" in a ==> b["units"] == SwapDates(a["units"])
  {
    b := a;
    if "units" in b {
      var units := b["units"];
      if HasDate(units) {
        var swapped := SwapDates(units);
        if swapped != units {
          b := b["units" := swapped];
        }
      } else {
        SwapChangesIff(units);
      }
    }
  }

  /** Fix 3: a day `0` in `units` becomes day `1`. */
  method RepairDayZero(a: Attrs) returns (b: Attrs)
    ensures SameExcept(a, b, "units")
    ensures "units" in b <==> "units" in a
    ensures "units" in a ==> b["units"] == FixDayZero(a["units"])
  {
    b := a;
    if "units" in b {
      var units := b["units"];
      if HasDayZero(units) {
        var fixed := FixDayZero(units);
        if fixed != units {
          b := b["units" := fixed];
        }
      } else {
        DayZeroChangesIff(units);
      }
    }
  }

  /** Fix 4: with `units` present, a missing calendar defaults to `365_day`. */
  method AddCalendar(a: Attrs) returns (b: Attrs)
    ensures SameExcept(a, b, "calendar")
    ensures "calendar" in b <==> "calendar" in a || "units" in a
    ensures "calendar" in b ==> b["calendar"] == if "calendar" in a then a["calendar"] else "365_day"
  {
    b := a;
    if "units" in b && "calendar" !in b {
      b := b["calendar" := "365_day"];
    }
  }

  /**
   * `fix_time_encoding`: on a copy, rename `unit`, swap `D-D-YYYY`, repair
   * day 0 and add a calendar, all on the `time` variable's attributes.
   */
  method FixTimeEncoding(ds: Dataset) returns (r: Dataset)
    ensures "time" !in ds ==> r == ds
    ensures r.Keys == ds.Keys
    ensures forall v :: v in ds && v != "time" ==> r[v] == ds[v]
    ensures "time" in ds ==>
      var a, a' := ds["time"], r["time"];
      var units := UnitsAfterRename(a);
      (forall k :: k != "unit" && k != "units" && k != "calendar" ==>
         (k in a' <==> k in a) && (k in a ==> a'[k] == a[k])) &&
      ("unit" in a' <==> "unit" in a && "units" in a) &&
      ("unit" in a' ==> a'["unit"] == a["unit"]) &&
      ("units" in a' <==> units.Some?) &&
      ("units" in a' ==> a'["units"] == FixDayZero(SwapDates(units.value))) &&
      ("calendar" in a' <==> "calendar" in a || units.Some?) &&
      ("calendar" in a' ==> a'["calendar"] == if "calendar" in a then a["calendar"] else "365_day")
  {
    if "time" !in ds {
      return ds;
    }
    var attrs := RenameUnit(ds["time"]);
    attrs := SwapUnitDates(attrs);
    attrs := RepairDayZero(attrs);
    attrs := AddCalendar(attrs);
    r := ds["time" := attrs];
  }
}
