/**
 * The Kotlin standard-library string operations the application relies on:
 * `isWhitespace`, `isBlank`, `trim`, `indexOf`, `split`, `replace`,
 * `Int.toString` and `String.toIntOrNull` (radix 10).
 */
module KText {
  import opened Wrappers

  /** Kotlin's `Char.isWhitespace`: Java whitespace or a Unicode space separator. */
  predicate IsWhitespace(c: char) {
    || c == ' ' || c == '\t' || c == '\n' || c == '\U{000B}' || c == '\U{000C}' || c == '\r'
    || ('\U{001C}' <= c <= '\U{001F}')
    || c == '\U{00A0}' || c == '\U{1680}'
    || ('\U{2000}' <= c <= '\U{200A}')
    || c == '\U{2028}' || c == '\U{2029}' || c == '\U{202F}' || c == '\U{205F}' || c == '\U{3000}'
  }

  /** `CharSequence.isBlank`: empty or whitespace only. */
  predicate IsBlank(s: string) {
    forall i :: 0 <= i < |s| ==> IsWhitespace(s[i])
  }

  /** Leading whitespace removed. */
  function TrimStart(s: string): string {
    if |s| > 0 && IsWhitespace(s[0]) then TrimStart(s[1..]) else s
  }

  /** `TrimStart` drops a whitespace-only prefix and stops at the first other character. */
  lemma {:induction false} TrimStartSpec(s: string)
    ensures var r := TrimStart(s);
      && |r| <= |s| && r == s[|s| - |r|..]
      && (r == [] || !IsWhitespace(r[0]))
      && forall k :: 0 <= k < |s| - |r| ==> IsWhitespace(s[k])
  {
    if |s| > 0 && IsWhitespace(s[0]) {
      TrimStartSpec(s[1..]);
    }
  }

  /** Trailing whitespace removed. */
  function TrimEnd(s: string): string {
    if |s| > 0 && IsWhitespace(s[|s| - 1]) then TrimEnd(s[..|s| - 1]) else s
  }

  /** `TrimEnd` drops a whitespace-only suffix and stops at the last other character. */
  lemma {:induction false} TrimEndSpec(s: string)
    ensures var r := TrimEnd(s);
      && |r| <= |s| && r == s[..|r|]
      && (r == [] || !IsWhitespace(r[|r| - 1]))
      && forall k :: |r| <= k < |s| ==> IsWhitespace(s[k])
  {
    if |s| > 0 && IsWhitespace(s[|s| - 1]) {
      TrimEndSpec(s[..|s| - 1]);
    }
  }

  /** `String.trim()`: whitespace dropped at both ends. */
  function Trim(s: string): string {
    TrimEnd(TrimStart(s))
  }

  /**
   * `trim` leaves the infix of `s` between its leading and trailing
   * whitespace, which neither starts nor ends with whitespace, and is empty
   * exactly when `s` is blank.
   */
  lemma TrimSpec(s: string)
    ensures var r := Trim(s); var i := |s| - |TrimStart(s)|;
      && 0 <= i && i + |r| <= |s| && r == s[i..i + |r|]
      && (r == [] || (!IsWhitespace(r[0]) && !IsWhitespace(r[|r| - 1])))
      && (r == [] <==> IsBlank(s))
  {
    var t := TrimStart(s);
    TrimStartSpec(s);
    TrimEndSpec(t);
    var r := TrimEnd(t);
    var i := |s| - |t|;
    assert r == s[i..i + |r|];
    if r != [] {
      assert r[0] == t[0];
    }
    if r == [] {
      assert t == [];
    } else {
      assert r[0] == s[i];
    }
  }

  /** `d` occurs in `s` starting at index `i`. */
  predicate OccursAt(s: string, d: string, i: int) {
    0 <= i && i + |d| <= |s| && s[i..i + |d|] == d
  }

  /** `s` contains `d` somewhere. */
  predicate Contains(s: string, d: string) {
    exists i :: 0 <= i <= |s| && OccursAt(s, d, i)
  }

  /** The first occurrence of `d` in `s` at or after index `from`, or -1. */
  function IndexFrom(s: string, d: string, from: nat): (r: int)
    requires from <= |s|
    ensures r == -1 || (from <= r <= |s| && OccursAt(s, d, r))
    ensures forall k :: from <= k && (r < 0 || k < r) ==> !OccursAt(s, d, k)
    decreases |s| - from
  {
    if from + |d| > |s| then -1
    else if s[from..from + |d|] == d then from
    else IndexFrom(s, d, from + 1)
  }

  /** `String.indexOf(d)`: the first occurrence of `d`, or -1 when there is none. */
  function IndexOf(s: string, d: string): (r: int)
    ensures r == -1 || (0 <= r <= |s| && OccursAt(s, d, r))
    ensures forall k :: 0 <= k && (r < 0 || k < r) ==> !OccursAt(s, d, k)
  {
    IndexFrom(s, d, 0)
  }

  lemma IndexOfNone(s: string, d: string)
    requires IndexOf(s, d) < 0
    ensures !Contains(s, d)
  {
  }

  /** `s.split(d)` for a non-empty delimiter: left to right, non-overlapping, empty pieces kept. */
  function Split(s: string, d: string): (r: seq<string>)
    requires |d| > 0
    ensures |r| >= 1
    decreases |s|
  {
    var i := IndexOf(s, d);
    if i < 0 then [s] else [s[..i]] + Split(s[i + |d|..], d)
  }

  /** `joinToString(d)`. */
  function Join(parts: seq<string>, d: string): string {
    if |parts| == 0 then ""
    else if |parts| == 1 then parts[0]
    else parts[0] + d + Join(parts[1..], d)
  }

  /** Splitting on `d` and joining with `d` gives back the string. */
  lemma {:induction false} JoinSplit(s: string, d: string)
    requires |d| > 0
    ensures Join(Split(s, d), d) == s
    decreases |s|
  {
    var i := IndexOf(s, d);
    if i >= 0 {
      var rest := s[i + |d|..];
      JoinSplit(rest, d);
      SplitFound(s, d);
      JoinCons(s[..i], Split(rest, d), d);
      AroundOccurrence(s, d, i);
    }
  }

  /** A string is what comes before an occurrence, the occurrence, and what comes after it. */
  lemma AroundOccurrence(s: string, d: string, i: int)
    requires OccursAt(s, d, i)
    ensures s == s[..i] + d + s[i + |d|..]
  {
    assert s == s[..i] + s[i..i + |d|] + s[i + |d|..];
  }

  /** No piece of a split contains the delimiter. */
  lemma {:induction false} SplitPiecesFree(s: string, d: string)
    requires |d| > 0
    ensures forall k :: 0 <= k < |Split(s, d)| ==> !Contains(Split(s, d)[k], d)
    decreases |s|
  {
    var i := IndexOf(s, d);
    if i < 0 {
      IndexOfNone(s, d);
    } else {
      SplitPiecesFree(s[i + |d|..], d);
      var head := s[..i];
      forall j | OccursAt(head, d, j) ensures false {
        assert head[j..j + |d|] == s[j..j + |d|];
        assert OccursAt(s, d, j);
      }
    }
  }

  /** `s.replace(pat, rep)`: every occurrence, left to right, non-overlapping. */
  function ReplaceAll(s: string, pat: string, rep: string): string
    requires |pat| > 0
    decreases |s|
  {
    if |s| < |pat| then s
    else if s[..|pat|] == pat then rep + ReplaceAll(s[|pat|..], pat, rep)
    else [s[0]] + ReplaceAll(s[1..], pat, rep)
  }

  lemma JoinCons(a: string, t: seq<string>, d: string)
    requires |t| >= 1
    ensures Join([a] + t, d) == a + d + Join(t, d)
  {
    assert ([a] + t)[1..] == t;
  }

  lemma SplitFound(s: string, d: string)
    requires |d| > 0 && IndexOf(s, d) >= 0
    ensures var i := IndexOf(s, d); Split(s, d) == [s[..i]] + Split(s[i + |d|..], d)
  {
  }

  lemma ReplaceAllHead(t: string, pat: string, rep: string)
    requires |pat| > 0 && |t| > 0 && !OccursAt(t, pat, 0)
    ensures |ReplaceAll(t, pat, rep)| > 0 && ReplaceAll(t, pat, rep)[0] == t[0]
  {
  }

  /** Removing every "```" leaves no "``" at the front of a string that did not start with "``". */
  lemma RemoveFenceNoDoubleStart(t: string)
    requires !OccursAt(t, "``", 0)
    ensures !OccursAt(ReplaceAll(t, "```", ""), "``", 0)
  {
    var f := "```";
    if |t| >= 1 {
      assert !OccursAt(t, f, 0);
      ReplaceAllHead(t, f, "");
      if t[0] == '`' && |t| >= 2 {
        assert t[1] != '`';
        var u := t[1..];
        assert !OccursAt(u, f, 0);
        ReplaceAllHead(u, f, "");
        if |t| >= 3 {
          assert ReplaceAll(t, f, "") == [t[0]] + ReplaceAll(u, f, "");
        }
      }
    }
  }

  /** After removing every "```", none is left. */
  lemma {:induction false} RemoveFenceLeavesNone(s: string)
    ensures !Contains(ReplaceAll(s, "```", ""), "```")
    decreases |s|
  {
    var f := "```";
    var r := ReplaceAll(s, f, "");
    if |s| < |f| {
      assert forall i :: !OccursAt(s, f, i);
    } else if s[..|f|] == f {
      RemoveFenceLeavesNone(s[|f|..]);
      assert r == ReplaceAll(s[|f|..], f, "");
    } else {
      var t := s[1..];
      var rt := ReplaceAll(t, f, "");
      RemoveFenceLeavesNone(t);
      assert r == [s[0]] + rt;
      if s[0] == '`' {
        assert !OccursAt(t, "``", 0);
        RemoveFenceNoDoubleStart(t);
      }
      assert f[1..] == "``";
      ConsFree(s[0], rt, f);
    }
  }

  /** Putting `c` in front of a string free of `d` leaves it free of `d`, unless `c` starts `d` and the rest of `d` follows. */
  lemma ConsFree(c: char, u: string, d: string)
    requires |d| > 0 && !Contains(u, d) && !(c == d[0] && OccursAt(u, d[1..], 0))
    ensures !Contains([c] + u, d)
  {
    var r := [c] + u;
    forall i | 0 < i && OccursAt(r, d, i) ensures false {
      assert r[i..i + |d|] == u[i - 1..i - 1 + |d|];
      assert OccursAt(u, d, i - 1);
    }
  }

  /** An infix of a string free of `d` is free of `d`. */
  lemma InfixFree(s: string, i: nat, j: nat, d: string)
    requires i <= j <= |s| && !Contains(s, d)
    ensures !Contains(s[i..j], d)
  {
    forall k | OccursAt(s[i..j], d, k) ensures false {
      var u := s[i..j];
      assert 0 <= k && k + |d| <= |u|;
      assert forall m :: k <= m < k + |d| ==> u[m] == s[i + m];
      assert u[k..k + |d|] == s[i + k..i + k + |d|];
      assert OccursAt(s, d, i + k);
    }
  }

  /** `List.indexOfFirst { it == x }`: the first index holding `x`, or -1. */
  function IndexOfFirst<T(==)>(xs: seq<T>, x: T): (r: int)
    ensures r == -1 || (0 <= r < |xs| && xs[r] == x)
    ensures forall k :: 0 <= k < |xs| && (r < 0 || k < r) ==> xs[k] != x
  {
    if |xs| == 0 then -1
    else if xs[0] == x then 0
    else
      var j := IndexOfFirst(xs[1..], x);
      if j < 0 then -1 else j + 1
  }

  /** `lines.map { it.trim() }`. */
  function TrimAll(xs: seq<string>): (r: seq<string>)
    ensures |r| == |xs| && forall k :: 0 <= k < |xs| ==> r[k] == Trim(xs[k])
  {
    if |xs| == 0 then [] else [Trim(xs[0])] + TrimAll(xs[1..])
  }

  /** ASCII `lowercase()`: exact for comparisons against all-ASCII lower-case words. */
  function LowerAscii(s: string): (r: string)
    ensures |r| == |s|
    ensures forall k :: 0 <= k < |s| ==> r[k] == if 'A' <= s[k] <= 'Z' then (s[k] as int + 32) as char else s[k]
  {
    if |s| == 0 then ""
    else [if 'A' <= s[0] <= 'Z' then (s[0] as int + 32) as char else s[0]] + LowerAscii(s[1..])
  }

  // ---------------------------------------------------------------- integers

  const Int32Min: int := -2147483648
  const Int32Max: int := 2147483647

  /** A Kotlin `Int`. */
  predicate IsInt32(n: int) {
    Int32Min <= n <= Int32Max
  }

  predicate IsDigit(c: char) {
    '0' <= c <= '9'
  }

  function DigitChar(d: nat): char
    requires d < 10
  {
    "0123456789"[d]
  }

  /** Decimal digits of `n`, most significant first, without leading zeros. */
  function Digits(n: nat): (r: string)
    ensures |r| >= 1 && forall i :: 0 <= i < |r| ==> IsDigit(r[i])
  {
    if n < 10 then [DigitChar(n)] else Digits(n / 10) + [DigitChar(n % 10)]
  }

  /** `Int.toString()`: optional minus sign, then the digits without padding. */
  function IntToString(n: int): string {
    if n < 0 then "-" + Digits(-n) else Digits(n)
  }

  /** The value of a string of decimal digits. */
  function DigitsValue(s: string): nat
    requires forall i :: 0 <= i < |s| ==> IsDigit(s[i])
  {
    if |s| == 0 then 0
    else
      assert IsDigit(s[|s| - 1]);
      10 * DigitsValue(s[..|s| - 1]) + (s[|s| - 1] as int - '0' as int)
  }

  predicate AllDigits(s: string) {
    forall i :: 0 <= i < |s| ==> IsDigit(s[i])
  }

  /**
   * `String.toIntOrNull()`: an optional sign followed by at least one digit,
   * whose value fits a 32-bit `Int`.
   */
  function ParseInt(s: string): (r: Option<int>)
    ensures r.Some? ==> IsInt32(r.value)
    ensures r.Some? ==> |s| > 0 && AllDigits(if s[0] == '-' || s[0] == '+' then s[1..] else s)
    ensures s == "" ==> r == None
  {
    if |s| == 0 then None
    else
      var neg := s[0] == '-';
      var body := if s[0] == '-' || s[0] == '+' then s[1..] else s;
      if |body| == 0 || !AllDigits(body) then None
      else
        var v: int := if neg then -(DigitsValue(body) as int) else DigitsValue(body);
        if IsInt32(v) then Some(v) else None
  }

  lemma {:induction false} DigitsRoundTrip(n: nat)
    ensures DigitsValue(Digits(n)) == n
  {
    if n >= 10 {
      DigitsRoundTrip(n / 10);
      var s := Digits(n);
      assert s[..|s| - 1] == Digits(n / 10);
    }
  }

  /** An unsigned run of digits parses to its value when that fits an `Int`. */
  lemma ParseUnsigned(s: string)
    requires |s| > 0 && AllDigits(s) && DigitsValue(s) <= Int32Max
    ensures ParseInt(s) == Some(DigitsValue(s) as int)
  {
    assert IsDigit(s[0]);
  }

  /** A minus sign before a run of digits parses to the negated value when that fits an `Int`. */
  lemma ParseNegative(s: string)
    requires |s| > 0 && AllDigits(s) && -(DigitsValue(s) as int) >= Int32Min
    ensures ParseInt("-" + s) == Some(-(DigitsValue(s) as int))
  {
    assert ("-" + s)[1..] == s;
  }

  /** Printing a Kotlin `Int` and parsing it back gives the same `Int`. */
  lemma ParseIntToString(n: int)
    requires IsInt32(n)
    ensures ParseInt(IntToString(n)) == Some(n)
  {
    if n < 0 {
      DigitsRoundTrip(-n);
      ParseNegative(Digits(-n));
    } else {
      DigitsRoundTrip(n);
      ParseUnsigned(Digits(n));
    }
  }
}
