/** String helpers with the JavaScript semantics the application relies on:
    `indexOf`/`includes` (leftmost occurrence), `startsWith`/`endsWith`,
    `replace` with a string pattern (first occurrence only), `trim`,
    `split`/`join` on one separator character, and `${n}` for integers;
    also the length rule of `Array.from({ length: n })`.
    Strings are sequences of code points. */
module Strings {
  import opened Wrappers

  // ---------------------------------------------------------------------
  // Occurrences
  // ---------------------------------------------------------------------

  predicate StartsWith(s: string, prefix: string) {
    |prefix| <= |s| && s[..|prefix|] == prefix
  }

  predicate EndsWith(s: string, suffix: string) {
    |suffix| <= |s| && s[|s| - |suffix|..] == suffix
  }

  /** `t` occurs in `s` starting at index `i`. */
  predicate OccursAt(s: string, t: string, i: int) {
    0 <= i && i + |t| <= |s| && s[i..i + |t|] == t
  }

  /** Leftmost occurrence of `t` in `s` at or after `from`. */
  function IndexFrom(s: string, t: string, from: nat): (r: Option<nat>)
    requires from <= |s|
    ensures r.Some? ==> from <= r.value && OccursAt(s, t, r.value)
    ensures r.Some? ==> forall j :: from <= j < r.value ==> !OccursAt(s, t, j)
    ensures r.None? ==> forall j :: from <= j <= |s| ==> !OccursAt(s, t, j)
    decreases |s| - from
  {
    if OccursAt(s, t, from) then Some(from)
    else if from == |s| then None
    else IndexFrom(s, t, from + 1)
  }

  /** `s.indexOf(t)`, with `None` for `-1`. */
  function IndexOf(s: string, t: string): (r: Option<nat>)
    ensures r.Some? ==> OccursAt(s, t, r.value)
    ensures r.Some? ==> forall j :: 0 <= j < r.value ==> !OccursAt(s, t, j)
    ensures r.None? ==> forall j :: 0 <= j <= |s| ==> !OccursAt(s, t, j)
  {
    IndexFrom(s, t, 0)
  }

  /** `s.includes(t)`. */
  predicate Contains(s: string, t: string) {
    IndexOf(s, t).Some?
  }

  lemma ContainsIff(s: string, t: string)
    ensures Contains(s, t) <==> exists i :: OccursAt(s, t, i)
  {
    if Contains(s, t) {
      assert OccursAt(s, t, IndexOf(s, t).value);
    }
  }

  /** A witness position makes `includes` true. */
  lemma OccursAtContains(s: string, t: string, i: int)
    requires OccursAt(s, t, i)
    ensures Contains(s, t)
  {
    ContainsIff(s, t);
  }

  /** An occurrence inside a slice of `s` is an occurrence in `s`. */
  lemma OccursInSlice(s: string, t: string, lo: nat, hi: nat, i: int)
    requires lo <= hi <= |s|
    requires OccursAt(s[lo..hi], t, i)
    ensures OccursAt(s, t, lo + i)
  {
    forall k | 0 <= k < |t|
      ensures s[lo + i + k] == t[k]
    {
      assert s[lo..hi][i..i + |t|][k] == t[k];
    }
  }

  /** `s.replace(pattern, replacement)` for a string pattern: only the
      leftmost occurrence is replaced; no occurrence leaves `s` as it is. */
  function ReplaceFirst(s: string, pattern: string, replacement: string): (r: string)
    ensures !Contains(s, pattern) ==> r == s
    ensures Contains(s, pattern) ==> |r| == |s| - |pattern| + |replacement|
    ensures Contains(s, pattern) ==>
      var i := IndexOf(s, pattern).value;
      && r[..i] == s[..i]
      && r[i..i + |replacement|] == replacement
      && r[i + |replacement|..] == s[i + |pattern|..]
  {
    match IndexOf(s, pattern)
    case None => s
    case Some(i) => s[..i] + replacement + s[i + |pattern|..]
  }

  // ---------------------------------------------------------------------
  // Case-insensitive suffix test (a regular expression with the `i` flag
  // and no `u` flag folds only ASCII letters)
  // ---------------------------------------------------------------------

  function AsciiLower(c: char): (r: char)
    ensures 'A' <= c <= 'Z' ==> r as int == c as int + 32
    ensures !('A' <= c <= 'Z') ==> r == c
  {
    if 'A' <= c <= 'Z' then (c as int + 32) as char else c
  }

  predicate EndsWithIgnoreCase(s: string, suffix: string) {
    && |suffix| <= |s|
    && forall k :: 0 <= k < |suffix| ==>
         AsciiLower(s[|s| - |suffix| + k]) == AsciiLower(suffix[k])
  }

  // ---------------------------------------------------------------------
  // trim()
  // ---------------------------------------------------------------------

  /** The characters ECMAScript's `String.prototype.trim` removes: the
      WhiteSpace and LineTerminator productions. */
  predicate IsWhiteSpace(ch: char) {
    || ch == ' ' || ch == '\t' || ch == '\n' || ch == '\r'
    || ch == '\U{000B}' || ch == '\U{000C}' || ch == '\U{00A0}' || ch == '\U{FEFF}'
    || ch == '\U{1680}' || ('\U{2000}' <= ch <= '\U{200A}')
    || ch == '\U{2028}' || ch == '\U{2029}' || ch == '\U{202F}'
    || ch == '\U{205F}' || ch == '\U{3000}'
  }

  predicate AllWhiteSpace(s: string) {
    forall i :: 0 <= i < |s| ==> IsWhiteSpace(s[i])
  }

  function TrimStart(s: string): (r: string)
    ensures |r| <= |s| && r == s[|s| - |r|..]
    ensures AllWhiteSpace(s[..|s| - |r|])
    ensures |r| > 0 ==> !IsWhiteSpace(r[0])
  {
    if |s| > 0 && IsWhiteSpace(s[0]) then
      var r := TrimStart(s[1..]);
      TrimStartStep(s, r);
      r
    else s
  }

  /** One step of `TrimStart`: a white-space character in front of a
      trimmed tail is trimmed along with the tail's own prefix. */
  lemma TrimStartStep(s: string, r: string)
    requires |s| > 0 && IsWhiteSpace(s[0]) && |r| <= |s| - 1
    requires r == s[1..][|s| - 1 - |r|..]
    requires AllWhiteSpace(s[1..][..|s| - 1 - |r|])
    ensures r == s[|s| - |r|..]
    ensures AllWhiteSpace(s[..|s| - |r|])
  {
    assert s[|s| - |r|..] == s[1..][|s| - 1 - |r|..];
    WhiteSpacePrefixCons(s, |s| - |r|);
  }

  lemma WhiteSpacePrefixCons(s: string, k: nat)
    requires 0 < k <= |s| && IsWhiteSpace(s[0]) && AllWhiteSpace(s[1..][..k - 1])
    ensures AllWhiteSpace(s[..k])
  {
    forall i | 0 <= i < k
      ensures IsWhiteSpace(s[..k][i])
    {
      if i > 0 {
        assert s[..k][i] == s[1..][..k - 1][i - 1];
      }
    }
  }

  function TrimEnd(s: string): (r: string)
    ensures |r| <= |s| && r == s[..|r|]
    ensures AllWhiteSpace(s[|r|..])
    ensures |r| > 0 ==> !IsWhiteSpace(r[|r| - 1])
  {
    if |s| > 0 && IsWhiteSpace(s[|s| - 1]) then
      var r := TrimEnd(s[..|s| - 1]);
      assert s[|r|..] == s[..|s| - 1][|r|..] + [s[|s| - 1]];
      r
    else s
  }

  /** `s.trim()`. */
  function Trim(s: string): string {
    TrimEnd(TrimStart(s))
  }

  /** `trim()` gives a stretch of `s` with no white space at either end. */
  lemma TrimBounds(s: string)
    ensures var r := Trim(s);
      && |r| <= |s|
      && (|r| > 0 ==> !IsWhiteSpace(r[0]) && !IsWhiteSpace(r[|r| - 1]))
  {
  }

  /** `s.trim() === ''` exactly when every character is white space. */
  lemma TrimEmptyIff(s: string)
    ensures Trim(s) == "" <==> AllWhiteSpace(s)
  {
    var a := TrimStart(s);
    if Trim(s) == "" {
      assert AllWhiteSpace(a[0..]);
      assert a == "";
      assert s[..|s|] == s;
    }
  }

  // ---------------------------------------------------------------------
  // split / join on a single separator character
  // ---------------------------------------------------------------------

  /** Index of the first `c` in `s`, or `|s|` when there is none. */
  function FirstIndexOfChar(s: string, c: char): (r: nat)
    ensures r <= |s|
    ensures r < |s| ==> s[r] == c
    ensures forall j :: 0 <= j < r ==> s[j] != c
  {
    if |s| == 0 then 0
    else if s[0] == c then 0
    else 1 + FirstIndexOfChar(s[1..], c)
  }

  /** `s.split(c)` for a one-character separator: always at least one
      piece, and no piece contains the separator. */
  function Split(s: string, c: char): (r: seq<string>)
    ensures |r| >= 1
    ensures forall i :: 0 <= i < |r| ==> c !in r[i]
    decreases |s|
  {
    var k := FirstIndexOfChar(s, c);
    if k == |s| then [s]
    else [s[..k]] + Split(s[k + 1..], c)
  }

  /** `lines.join(c)`. */
  function Join(lines: seq<string>, c: char): string
    decreases |lines|
  {
    if |lines| == 0 then ""
    else if |lines| == 1 then lines[0]
    else lines[0] + [c] + Join(lines[1..], c)
  }

  /** Joining the pieces of a split gives back the original string. */
  lemma {:induction false} JoinSplit(s: string, c: char)
    ensures Join(Split(s, c), c) == s
    decreases |s|
  {
    var k := FirstIndexOfChar(s, c);
    if k < |s| {
      var rest := Split(s[k + 1..], c);
      JoinSplit(s[k + 1..], c);
      var pieces := Split(s, c);
      assert pieces == [s[..k]] + rest;
      assert pieces[0] == s[..k] && pieces[1..] == rest;
      assert Join(pieces, c) == s[..k] + [c] + Join(rest, c);
      assert s == s[..k] + [c] + s[k + 1..];
    }
  }

  /** Splitting a join of separator-free pieces gives back the pieces. */
  lemma {:induction false} SplitJoin(lines: seq<string>, c: char)
    requires |lines| >= 1
    requires forall i :: 0 <= i < |lines| ==> c !in lines[i]
    ensures Split(Join(lines, c), c) == lines
    decreases |lines|
  {
    var s := Join(lines, c);
    if |lines| == 1 {
      assert FirstIndexOfChar(s, c) == |s|;
    } else {
      var rest := Join(lines[1..], c);
      assert s == lines[0] + [c] + rest;
      var k := FirstIndexOfChar(s, c);
      assert s[|lines[0]|] == c;
      assert k == |lines[0]|;
      assert s[..k] == lines[0];
      assert s[k + 1..] == rest;
      SplitJoin(lines[1..], c);
      assert lines == [lines[0]] + lines[1..];
    }
  }

  /** Every separator-free piece of a join is as long as itself, and the
      pieces are separated by exactly one character each. */
  lemma {:induction false} JoinLength(lines: seq<string>, c: char)
    requires |lines| >= 1
    ensures |Join(lines, c)| == SumLengths(lines) + |lines| - 1
    decreases |lines|
  {
    if |lines| > 1 {
      JoinLength(lines[1..], c);
    }
  }

  function SumLengths(lines: seq<string>): nat {
    if |lines| == 0 then 0 else |lines[0]| + SumLengths(lines[1..])
  }

  // ---------------------------------------------------------------------
  // `${n}` for integers
  // ---------------------------------------------------------------------

  function DigitChar(d: nat): (r: char)
    requires d < 10
    ensures '0' <= r <= '9'
  {
    ('0' as int + d) as char
  }

  predicate IsDigit(ch: char) {
    '0' <= ch <= '9'
  }

  /** Decimal rendering of a natural number, without leading zeros. */
  function NatToDecimal(n: nat): (r: string)
    ensures |r| >= 1
    ensures forall i :: 0 <= i < |r| ==> IsDigit(r[i])
    ensures |r| > 1 ==> r[0] != '0'
  {
    if n < 10 then [DigitChar(n)]
    else NatToDecimal(n / 10) + [DigitChar(n % 10)]
  }

  /** Decimal rendering of an integer, as JavaScript's `${n}` writes it. */
  function IntToDecimal(n: int): (r: string)
    ensures |r| >= 1
    ensures n >= 0 ==> IsDigit(r[0])
    ensures n < 0 ==> r[0] == '-'
  {
    if n >= 0 then NatToDecimal(n) else "-" + NatToDecimal(-n)
  }

  /** Value of a non-empty string of decimal digits. */
  function ParseDigits(s: string): nat
    requires forall i :: 0 <= i < |s| ==> IsDigit(s[i])
  {
    if |s| == 0 then 0
    else
      assert IsDigit(s[|s| - 1]);
      10 * ParseDigits(s[..|s| - 1]) + (s[|s| - 1] as int - '0' as int)
  }

  /** The rendering is read back as the same number. */
  lemma {:induction false} NatToDecimalRoundTrip(n: nat)
    ensures ParseDigits(NatToDecimal(n)) == n
  {
    if n >= 10 {
      NatToDecimalRoundTrip(n / 10);
      var s := NatToDecimal(n);
      assert s[..|s| - 1] == NatToDecimal(n / 10);
    }
  }

  /** Distinct integers are rendered differently, so a path built from a
      chapter number names exactly that chapter. */
  lemma IntToDecimalInjective(a: int, b: int)
    requires IntToDecimal(a) == IntToDecimal(b)
    ensures a == b
  {
    if a >= 0 && b >= 0 {
      NatToDecimalRoundTrip(a);
      NatToDecimalRoundTrip(b);
    } else if a < 0 && b < 0 {
      assert NatToDecimal(-a) == IntToDecimal(a)[1..];
      assert NatToDecimal(-b) == IntToDecimal(b)[1..];
      NatToDecimalRoundTrip(-a);
      NatToDecimalRoundTrip(-b);
    }
  }

  // ---------------------------------------------------------------------
  // Array lengths
  // ---------------------------------------------------------------------

  /** The largest length a JavaScript array can have: ECMA-262's `Array`
      constructor, which `Array.from` calls with the length, rejects any
      length that is not an unsigned 32-bit integer. */
  const MaxArrayLength := 0xFFFF_FFFF

  /** The message of the `RangeError` raised for a longer array (V8's
      wording). */
  const InvalidArrayLength := "Invalid array length"

  /** The length of `Array.from({ length: n })` for an integer `n`: a
      negative length gives an empty array, and a length past the array
      limit throws a `RangeError`. */
  function ArrayFromLength(n: int): (r: Result<nat, string>)
    ensures r.Success? <==> n <= MaxArrayLength
    ensures r.Failure? ==> r.error == InvalidArrayLength
    ensures r.Success? ==> r.value <= MaxArrayLength
    ensures r.Success? && n >= 0 ==> r.value == n
    ensures r.Success? && n < 0 ==> r.value == 0
  {
    if n > MaxArrayLength then Failure(InvalidArrayLength)
    else if n < 0 then Success(0)
    else Success(n)
  }
}
