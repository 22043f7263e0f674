/**
 * The few Kotlin string operations the order screen relies on:
 * `isWhitespace`/`isBlank`, `trim()`, `split(",")`, `String.toIntOrNull()`
 * and the decimal rendering of an `Int` used inside messages.
 */
module Text {
  import opened Wrappers

  /** Bounds of a Kotlin `Int` (32-bit two's complement). */
  const IntMin: int := -0x8000_0000
  const IntMax: int := 0x7FFF_FFFF

  predicate InInt32(n: int) {
    IntMin <= n <= IntMax
  }

  // ---------------------------------------------------------------- whitespace

  /** `Char.isWhitespace()` restricted to the ASCII and C0 separators. */
  predicate IsWhitespace(c: char) {
    c == ' ' || c == '\t' || c == '\n' || c == '\r' || c == '\U{B}' || c == '\U{C}'
    || ('\U{1C}' <= c <= '\U{1F}')
  }

  /** `CharSequence.isBlank()`: empty or only whitespace. */
  predicate IsBlank(s: string) {
    forall i :: 0 <= i < |s| ==> IsWhitespace(s[i])
  }

  /** Leading whitespace removed. */
  function TrimStart(s: string): (r: string)
    ensures |r| <= |s| && r == s[|s| - |r|..]
    ensures forall k :: 0 <= k < |s| - |r| ==> IsWhitespace(s[k])
    ensures r == [] || !IsWhitespace(r[0])
  {
    if s == [] || !IsWhitespace(s[0]) then s
    else
      var r := TrimStart(s[1..]);
      assert forall k :: 1 <= k < |s| ==> s[k] == s[1..][k - 1];
      r
  }

  /** Trailing whitespace removed. */
  function TrimEnd(s: string): (r: string)
    ensures |r| <= |s| && r == s[..|r|]
    ensures forall k :: |r| <= k < |s| ==> IsWhitespace(s[k])
    ensures r == [] || !IsWhitespace(r[|r| - 1])
  {
    if s == [] || !IsWhitespace(s[|s| - 1]) then s
    else TrimEnd(s[..|s| - 1])
  }

  /** `r` is `s` with `i` whitespace characters cut from the front and only whitespace cut from the back. */
  predicate CutAt(s: string, i: int, r: string) {
    0 <= i <= i + |r| <= |s| && r == s[i..i + |r|]
    && (forall k :: 0 <= k < i ==> IsWhitespace(s[k]))
    && (forall k :: i + |r| <= k < |s| ==> IsWhitespace(s[k]))
  }

  /**
   * `String.trim()`: the longest middle part that neither starts nor ends
   * with whitespace; everything cut away is whitespace.
   */
  function Trim(s: string): (r: string)
    ensures exists i :: CutAt(s, i, r)
    ensures r == [] || (!IsWhitespace(r[0]) && !IsWhitespace(r[|r| - 1]))
  {
    var t := TrimStart(s);
    var r := TrimEnd(t);
    TrimCuts(s, t, r);
    r
  }

  /** Cutting a head off `s` and then a tail off what is left cuts a slice out of `s`. */
  lemma TrimCuts(s: string, t: string, r: string)
    requires |t| <= |s| && t == s[|s| - |t|..] && forall k :: 0 <= k < |s| - |t| ==> IsWhitespace(s[k])
    requires |r| <= |t| && r == t[..|r|] && forall k :: |r| <= k < |t| ==> IsWhitespace(t[k])
    requires t == [] || !IsWhitespace(t[0])
    ensures CutAt(s, |s| - |t|, r)
    ensures r == [] || r[0] == t[0]
  {
    var i := |s| - |t|;
    assert forall k :: i <= k < |s| ==> s[k] == t[k - i];
  }

  /** A text with no whitespace at either end is its own trim. */
  lemma TrimUnpadded(s: string)
    requires s == [] || (!IsWhitespace(s[0]) && !IsWhitespace(s[|s| - 1]))
    ensures Trim(s) == s
  {
  }

  // ---------------------------------------------------------------- split

  /**
   * `String.split(sep)` for a one-character separator: every piece,
   * including empty ones, in order.
   */
  function Split(s: string, sep: char): (r: seq<string>)
    ensures |r| >= 1
    decreases |s|
  {
    if s == [] then [""]
    else
      var rest := Split(s[1..], sep);
      if s[0] == sep then [""] + rest
      else [[s[0]] + rest[0]] + rest[1..]
  }

  /** `joinToString(sep)`: the pieces with one separator between neighbours. */
  function Join(parts: seq<string>, sep: char): string
    requires |parts| >= 1
  {
    if |parts| == 1 then parts[0] else parts[0] + [sep] + Join(parts[1..], sep)
  }

  predicate NoSep(parts: seq<string>, sep: char) {
    forall i :: 0 <= i < |parts| ==> sep !in parts[i]
  }

  /** Splitting loses nothing: joining the pieces gives the text back, and no piece holds the separator. */
  lemma SplitJoin(s: string, sep: char)
    ensures NoSep(Split(s, sep), sep)
    ensures Join(Split(s, sep), sep) == s
  {
    SplitNoSep(s, sep);
    JoinOfSplit(s, sep);
  }

  lemma {:induction false} SplitNoSep(s: string, sep: char)
    ensures NoSep(Split(s, sep), sep)
    decreases |s|
  {
    if s != [] {
      SplitNoSep(s[1..], sep);
      var rest := Split(s[1..], sep);
      var r := Split(s, sep);
      if s[0] == sep {
        assert r == [""] + rest;
        forall i | 0 <= i < |r| ensures sep !in r[i] {
          if i > 0 { assert r[i] == rest[i - 1]; }
        }
      } else {
        assert r == [[s[0]] + rest[0]] + rest[1..];
        assert sep !in rest[0];
        forall i | 0 <= i < |r| ensures sep !in r[i] {
          if i > 0 { assert r[i] == rest[i]; }
        }
      }
    }
  }

  lemma {:induction false} JoinOfSplit(s: string, sep: char)
    ensures Join(Split(s, sep), sep) == s
    decreases |s|
  {
    if s != [] {
      JoinOfSplit(s[1..], sep);
      var rest := Split(s[1..], sep);
      var r := Split(s, sep);
      if s[0] == sep {
        assert r == [""] + rest && r[1..] == rest;
      } else {
        assert r[1..] == rest[1..];
        assert r[0] == [s[0]] + rest[0];
        if |rest| == 1 {
          assert Join(r, sep) == [s[0]] + rest[0];
        } else {
          assert Join(r, sep) == [s[0]] + rest[0] + [sep] + Join(rest[1..], sep);
        }
      }
    }
  }

  /** The converse: pieces without the separator are exactly what splitting their join gives. */
  lemma {:induction false} JoinSplit(parts: seq<string>, sep: char)
    requires |parts| >= 1 && NoSep(parts, sep)
    ensures Split(Join(parts, sep), sep) == parts
    decreases |parts|, |parts[0]|
  {
    var p := parts[0];
    if p == [] {
      if |parts| > 1 {
        JoinSplit(parts[1..], sep);
        var j := Join(parts, sep);
        assert j == [sep] + Join(parts[1..], sep);
        assert j[1..] == Join(parts[1..], sep);
      }
    } else {
      var shorter := [p[1..]] + parts[1..];
      assert NoSep(shorter, sep) by {
        forall i | 0 <= i < |shorter| ensures sep !in shorter[i] {
          if i == 0 {
            assert forall c :: c in p[1..] ==> c in p;
          } else {
            assert shorter[i] == parts[i];
          }
        }
      }
      JoinSplit(shorter, sep);
      var j := Join(parts, sep);
      assert shorter[1..] == parts[1..];
      if |parts| == 1 {
        assert j == p;
        assert j[1..] == Join(shorter, sep);
      } else {
        assert j == p + [sep] + Join(parts[1..], sep);
        assert Join(shorter, sep) == p[1..] + [sep] + Join(parts[1..], sep);
        assert j[1..] == Join(shorter, sep);
      }
      assert p[0] in p;
      assert j[0] != sep;
      assert [p[0]] + p[1..] == p;
      assert Split(j, sep) == [[p[0]] + p[1..]] + parts[1..];
    }
  }

  // ---------------------------------------------------------------- integers

  predicate IsDigit(c: char) {
    '0' <= c <= '9'
  }

  predicate AllDigits(s: string) {
    forall i :: 0 <= i < |s| ==> IsDigit(s[i])
  }

  function DigitValue(c: char): nat
    requires IsDigit(c)
  {
    (c as int - '0' as int) as nat
  }

  function DigitChar(d: nat): (c: char)
    requires d < 10
    ensures IsDigit(c) && DigitValue(c) == d
  {
    ('0' as int + d) as char
  }

  /** The value of a run of decimal digits, most significant first. */
  function DigitsValue(s: string): nat
    requires AllDigits(s)
  {
    if s == [] then 0 else 10 * DigitsValue(s[..|s| - 1]) + DigitValue(s[|s| - 1])
  }

  /**
   * `String.toIntOrNull()`: an optional `+` or `-` followed by at least one
   * decimal digit, and a value that fits in an `Int`; anything else is null.
   */
  function ParseInt(s: string): (r: Option<int>)
    ensures r.Some? ==> InInt32(r.value)
    ensures r.Some? ==> s != [] && (AllDigits(s) || (|s| > 1 && (s[0] == '-' || s[0] == '+') && AllDigits(s[1..])))
  {
    if s == [] then None
    else if s[0] == '-' || s[0] == '+' then
      if |s| == 1 || !AllDigits(s[1..]) then None
      else
        var v: int := if s[0] == '-' then 0 - DigitsValue(s[1..]) as int else DigitsValue(s[1..]);
        if InInt32(v) then Some(v) else None
    else if AllDigits(s) && DigitsValue(s) <= IntMax then Some(DigitsValue(s))
    else None
  }

  /** The decimal digits of a natural number, without leading zeros. */
  function Digits(n: nat): (r: string)
    ensures |r| >= 1
  {
    if n < 10 then [DigitChar(n)] else Digits(n / 10) + [DigitChar(n % 10)]
  }

  /** `Int.toString()`: a minus sign for negative numbers, then the digits. */
  function DecimalText(n: int): string {
    if n < 0 then "-" + Digits(-n) else Digits(n)
  }

  lemma {:induction false} DigitsValueOfDigits(n: nat)
    ensures AllDigits(Digits(n)) && DigitsValue(Digits(n)) == n
  {
    if n >= 10 {
      DigitsValueOfDigits(n / 10);
      var d := Digits(n);
      assert d[..|d| - 1] == Digits(n / 10);
    }
  }

  /** `toIntOrNull` reads back every `Int` that `toString` writes. */
  lemma ParseDecimalText(n: int)
    requires InInt32(n)
    ensures ParseInt(DecimalText(n)) == Some(n)
  {
    if n < 0 {
      DigitsValueOfDigits(-n);
      assert DecimalText(n)[1..] == Digits(-n);
    } else {
      DigitsValueOfDigits(n);
      assert IsDigit(Digits(n)[0]);
    }
  }

  /** The digits of a number never start or end with whitespace, so `trim` keeps them. */
  lemma DecimalTextUnpadded(n: int)
    ensures Trim(DecimalText(n)) == DecimalText(n)
  {
    DigitsValueOfDigits(if n < 0 then -n else n);
    var t := DecimalText(n);
    assert IsDigit(t[|t| - 1]);
    TrimUnpadded(t);
  }
}
