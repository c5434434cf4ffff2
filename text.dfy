/**
 * Character classes and string operations with the meaning Python's `str`
 * methods and the `re` module give them (Python 3.12, Unicode 15.0).
 */
module Text {

  predicate IsUpper(c: char) { 'A' <= c <= 'Z' }

  /** `c.islower()` for a single ASCII character. */
  predicate IsLower(c: char) { 'a' <= c <= 'z' }

  /**
   * The regular-expression class `\d` of a `str` pattern: every Unicode
   * decimal digit (general category Nd), not only `0`-`9`.
   */
  predicate IsDigit(c: char) {
    '0' <= c <= '9' || '\U{660}' <= c <= '\U{669}' || '\U{6F0}' <= c <= '\U{6F9}' ||
    '\U{7C0}' <= c <= '\U{7C9}' || '\U{966}' <= c <= '\U{96F}' || '\U{9E6}' <= c <= '\U{9EF}' ||
    '\U{A66}' <= c <= '\U{A6F}' || '\U{AE6}' <= c <= '\U{AEF}' || '\U{B66}' <= c <= '\U{B6F}' ||
    '\U{BE6}' <= c <= '\U{BEF}' || '\U{C66}' <= c <= '\U{C6F}' || '\U{CE6}' <= c <= '\U{CEF}' ||
    '\U{D66}' <= c <= '\U{D6F}' || '\U{DE6}' <= c <= '\U{DEF}' || '\U{E50}' <= c <= '\U{E59}' ||
    '\U{ED0}' <= c <= '\U{ED9}' || '\U{F20}' <= c <= '\U{F29}' || '\U{1040}' <= c <= '\U{1049}' ||
    '\U{1090}' <= c <= '\U{1099}' || '\U{17E0}' <= c <= '\U{17E9}' || '\U{1810}' <= c <= '\U{1819}' ||
    '\U{1946}' <= c <= '\U{194F}' || '\U{19D0}' <= c <= '\U{19D9}' || '\U{1A80}' <= c <= '\U{1A89}' ||
    '\U{1A90}' <= c <= '\U{1A99}' || '\U{1B50}' <= c <= '\U{1B59}' || '\U{1BB0}' <= c <= '\U{1BB9}' ||
    '\U{1C40}' <= c <= '\U{1C49}' || '\U{1C50}' <= c <= '\U{1C59}' || '\U{A620}' <= c <= '\U{A629}' ||
    '\U{A8D0}' <= c <= '\U{A8D9}' || '\U{A900}' <= c <= '\U{A909}' || '\U{A9D0}' <= c <= '\U{A9D9}' ||
    '\U{A9F0}' <= c <= '\U{A9F9}' || '\U{AA50}' <= c <= '\U{AA59}' || '\U{ABF0}' <= c <= '\U{ABF9}' ||
    '\U{FF10}' <= c <= '\U{FF19}' || '\U{104A0}' <= c <= '\U{104A9}' || '\U{10D30}' <= c <= '\U{10D39}' ||
    '\U{11066}' <= c <= '\U{1106F}' || '\U{110F0}' <= c <= '\U{110F9}' || '\U{11136}' <= c <= '\U{1113F}' ||
    '\U{111D0}' <= c <= '\U{111D9}' || '\U{112F0}' <= c <= '\U{112F9}' || '\U{11450}' <= c <= '\U{11459}' ||
    '\U{114D0}' <= c <= '\U{114D9}' || '\U{11650}' <= c <= '\U{11659}' || '\U{116C0}' <= c <= '\U{116C9}' ||
    '\U{11730}' <= c <= '\U{11739}' || '\U{118E0}' <= c <= '\U{118E9}' || '\U{11950}' <= c <= '\U{11959}' ||
    '\U{11C50}' <= c <= '\U{11C59}' || '\U{11D50}' <= c <= '\U{11D59}' || '\U{11DA0}' <= c <= '\U{11DA9}' ||
    '\U{11F50}' <= c <= '\U{11F59}' || '\U{16A60}' <= c <= '\U{16A69}' || '\U{16AC0}' <= c <= '\U{16AC9}' ||
    '\U{16B50}' <= c <= '\U{16B59}' || '\U{1D7CE}' <= c <= '\U{1D7FF}' || '\U{1E140}' <= c <= '\U{1E149}' ||
    '\U{1E2F0}' <= c <= '\U{1E2F9}' || '\U{1E4F0}' <= c <= '\U{1E4F9}' || '\U{1E950}' <= c <= '\U{1E959}' ||
    '\U{1FBF0}' <= c <= '\U{1FBF9}'
  }

  /**
   * `c.isspace()`, which is also the regular-expression class `\s` of a
   * `str` pattern and what `str.strip()` removes: the ASCII controls
   * `\t`..`\r` and U+001C..U+001F, the space, and the Unicode spaces and
   * separators.
   */
  predicate IsSpace(c: char) {
    '\t' <= c <= '\r' || '\U{1C}' <= c <= ' ' || c == '\U{85}' || c == '\U{A0}' || c == '\U{1680}' ||
    '\U{2000}' <= c <= '\U{200A}' || c == '\U{2028}' || c == '\U{2029}' || c == '\U{202F}' ||
    c == '\U{205F}' || c == '\U{3000}'
  }

  predicate StartsWith(s: string, prefix: string) {
    |prefix| <= |s| && s[..|prefix|] == prefix
  }

  predicate EndsWith(s: string, suffix: string) {
    |suffix| <= |s| && s[|s| - |suffix|..] == suffix
  }

  predicate OccursAt(s: string, sub: string, i: int) {
    0 <= i <= |s| - |sub| && s[i..i + |sub|] == sub
  }

  /** `sub in s` for strings. */
  predicate Contains(s: string, sub: string) {
    exists i | 0 <= i <= |s| - |sub| :: OccursAt(s, sub, i)
  }

  /** Index of the first `c` in `s`, or `|s|` when there is none. */
  function IndexOf(s: string, c: char): (r: nat)
    ensures r <= |s|
    ensures r < |s| ==> s[r] == c
    ensures forall i :: 0 <= i < r ==> s[i] != c
  {
    if |s| == 0 then 0
    else if s[0] == c then 0
    else 1 + IndexOf(s[1..], c)
  }

  lemma {:induction false} IndexOfAfterFree(a: string, c: char, b: string)
    requires c !in a
    ensures IndexOf(a + [c] + b, c) == |a|
  {
    var s := a + [c] + b;
    assert s[|a|] == c;
  }

  /** `s.split(sep)`: always at least one piece; pieces contain no `sep`. */
  function Split(s: string, sep: char): (pieces: seq<string>)
    ensures |pieces| >= 1
    ensures forall i :: 0 <= i < |pieces| ==> sep !in pieces[i]
    decreases |s|
  {
    var k := IndexOf(s, sep);
    if k == |s| then [s]
    else [s[..k]] + Split(s[k + 1..], sep)
  }

  /** Joining the pieces of `s.split(sep)` with `sep` gives `s` back. */
  function Join(pieces: seq<string>, sep: char): string
  {
    if |pieces| == 0 then ""
    else if |pieces| == 1 then pieces[0]
    else pieces[0] + [sep] + Join(pieces[1..], sep)
  }

  lemma {:induction false} JoinSplit(s: string, sep: char)
    ensures Join(Split(s, sep), sep) == s
    decreases |s|
  {
    var k := IndexOf(s, sep);
    if k < |s| {
      var rest := Split(s[k + 1..], sep);
      JoinSplit(s[k + 1..], sep);
      assert Split(s, sep) == [s[..k]] + rest;
      JoinCons(s[..k], rest, sep);
      assert s == s[..k] + [sep] + s[k + 1..];
    }
  }

  lemma JoinCons(p: string, rest: seq<string>, sep: char)
    requires |rest| >= 1
    ensures Join([p] + rest, sep) == p + [sep] + Join(rest, sep)
  {
    assert ([p] + rest)[1..] == rest;
  }

  lemma {:induction false} SplitWithout(s: string, sep: char)
    requires sep !in s
    ensures Split(s, sep) == [s]
  {
  }

  lemma {:induction false} SplitAfter(a: string, sep: char, b: string)
    requires sep !in a
    ensures Split(a + [sep] + b, sep) == [a] + Split(b, sep)
  {
    var s := a + [sep] + b;
    IndexOfAfterFree(a, sep, b);
    assert s[..|a|] == a;
    assert s[|a| + 1..] == b;
  }

  /** Splitting what was joined gives the pieces back, when no piece holds `sep`. */
  lemma {:induction false} SplitJoin(pieces: seq<string>, sep: char)
    requires |pieces| >= 1
    requires forall i :: 0 <= i < |pieces| ==> sep !in pieces[i]
    ensures Split(Join(pieces, sep), sep) == pieces
    decreases |pieces|
  {
    if |pieces| == 1 {
      SplitWithout(pieces[0], sep);
    } else {
      SplitJoin(pieces[1..], sep);
      SplitAfter(pieces[0], sep, Join(pieces[1..], sep));
      assert [pieces[0]] + pieces[1..] == pieces;
    }
  }

  /** Splitting off a last piece: `(a + sep + b).split(sep) == a.split(sep) + [b]`. */
  lemma {:induction false} SplitLast(a: string, sep: char, b: string)
    requires sep !in b
    ensures Split(a + [sep] + b, sep) == Split(a, sep) + [b]
    decreases |a|
  {
    var k := IndexOf(a, sep);
    if k == |a| {
      SplitAfter(a, sep, b);
      SplitWithout(b, sep);
      SplitWithout(a, sep);
    } else {
      var head, tail := a[..k], a[k + 1..];
      assert a == head + [sep] + tail;
      assert head + [sep] + (tail + [sep] + b) == a + [sep] + b;
      assert sep !in head;
      SplitAfter(head, sep, tail + [sep] + b);
      SplitLast(tail, sep, b);
      SplitAfter(head, sep, tail);
    }
  }

  function StripLeft(s: string): (r: string)
    ensures |r| <= |s| && r == s[|s| - |r|..]
    ensures |r| > 0 ==> !IsSpace(r[0])
    ensures forall i :: 0 <= i < |s| - |r| ==> IsSpace(s[i])
  {
    if |s| > 0 && IsSpace(s[0]) then StripLeft(s[1..]) else s
  }

  function StripRight(s: string): (r: string)
    ensures |r| <= |s| && r == s[..|r|]
    ensures |r| > 0 ==> !IsSpace(r[|r| - 1])
    ensures forall i :: |r| <= i < |s| ==> IsSpace(s[i])
  {
    if |s| > 0 && IsSpace(s[|s| - 1]) then StripRight(s[..|s| - 1]) else s
  }

  /** `s.strip()`: the result is empty exactly when `s` is all whitespace. */
  function Strip(s: string): (r: string)
    ensures |r| == 0 <==> forall i :: 0 <= i < |s| ==> IsSpace(s[i])
    ensures |r| > 0 ==> !IsSpace(r[0]) && !IsSpace(r[|r| - 1])
  {
    var l := StripLeft(s);
    var r := StripRight(l);
    assert |r| == 0 ==> |l| == 0;
    r
  }

  /** No white-space character is a digit. */
  lemma SpaceIsNotDigit(c: char)
    requires IsSpace(c)
    ensures !IsDigit(c)
  {
    if c <= ' ' {
    } else if c <= '\U{A0}' {
    } else if c == '\U{1680}' {
    } else if c <= '\U{200A}' {
    } else if c <= '\U{205F}' {
    } else {
      assert c == '\U{3000}';
    }
  }

  /** One white-space character on either side of a text that starts and ends with no space is stripped. */
  lemma StripAround(a: char, body: string, b: char)
    requires IsSpace(a) && IsSpace(b)
    requires |body| > 0 && !IsSpace(body[0]) && !IsSpace(body[|body| - 1])
    ensures Strip([a] + body + [b]) == body
  {
    var s := [a] + body + [b];
    assert s[1..] == body + [b];
    assert StripLeft(body + [b]) == body + [b];
    assert (body + [b])[..|body|] == body;
  }

  /** `strip()` removes the separators U+001C to U+001F and the no-break space too. */
  lemma StripSeparators()
    ensures forall a, b :: ('\U{1C}' <= a <= '\U{1F}' || a == '\U{A0}') && ('\U{1C}' <= b <= '\U{1F}' || b == '\U{A0}') ==>
      Strip([a] + "0," + [b]) == "0,"
  {
    forall a, b | ('\U{1C}' <= a <= '\U{1F}' || a == '\U{A0}') && ('\U{1C}' <= b <= '\U{1F}' || b == '\U{A0}')
      ensures Strip([a] + "0," + [b]) == "0,"
    {
      StripAround(a, "0,", b);
    }
  }

  /** Text made only of separators strips to nothing. */
  lemma StripOnlySeparators()
    ensures forall a, b :: '\U{1C}' <= a <= '\U{1F}' && '\U{1C}' <= b <= '\U{1F}' ==> Strip([a, b]) == ""
  {
    forall a, b | '\U{1C}' <= a <= '\U{1F}' && '\U{1C}' <= b <= '\U{1F}' ensures Strip([a, b]) == "" {
      assert IsSpace([a, b][0]) && IsSpace([a, b][1]);
    }
  }

  /** The prefix slice `s[:n]` for any integer `n` (negative counts from the end). */
  function SliceTo(s: string, n: int): (r: string)
    ensures 0 <= n ==> r == s[..if n <= |s| then n else |s|]
    ensures n < 0 ==> r == s[..if |s| + n >= 0 then |s| + n else 0]
  {
    if n >= 0 then (if n <= |s| then s[..n] else s)
    else (if |s| + n >= 0 then s[..|s| + n] else [])
  }

  function DigitChar(d: nat): char
    requires d < 10
  {
    ['0', '1', '2', '3', '4', '5', '6', '7', '8', '9'][d]
  }

  /** The decimal text of a natural number, as `str(n)` writes it. */
  function NatToString(n: nat): (r: string)
    ensures |r| >= 1
    ensures forall i :: 0 <= i < |r| ==> IsDigit(r[i])
  {
    if n < 10 then [DigitChar(n)] else NatToString(n / 10) + [DigitChar(n % 10)]
  }
}
