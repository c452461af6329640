/**
 * The JavaScript string and number helpers the calendar relies on, on strings
 * of characters: `String(n)`, `padStart`, `parseInt(s, 10)`, `slice`, `trim`,
 * `toLowerCase`, `split` and `join`.
 */
module Text {
  import opened Wrappers

  // ---------------------------------------------------------------------------
  // Digits and decimal numerals
  // ---------------------------------------------------------------------------

  predicate IsDigit(c: char) {
    '0' <= c <= '9'
  }

  predicate AllDigits(s: string) {
    forall i :: 0 <= i < |s| ==> IsDigit(s[i])
  }

  function DigitValue(c: char): (d: nat)
    requires IsDigit(c)
    ensures d < 10
  {
    c as int - '0' as int
  }

  function DigitChar(d: nat): (c: char)
    requires d < 10
    ensures IsDigit(c) && DigitValue(c) == d
  {
    ('0' as int + d) as char
  }

  /** `String(n)` for a non-negative integer: its decimal digits, no leading zeros. */
  function Decimal(n: nat): (s: string)
    ensures 1 <= |s| && AllDigits(s)
    ensures n < 10 ==> |s| == 1
    ensures n < 100 ==> |s| <= 2
    ensures n < 10000 ==> |s| <= 4
    ensures 10 <= n ==> s[0] != '0'
  {
    if n < 10 then [DigitChar(n)] else Decimal(n / 10) + [DigitChar(n % 10)]
  }

  /** The value of a string of decimal digits; leading zeros are allowed. */
  function DigitsValue(s: string): nat
    requires AllDigits(s)
  {
    if s == [] then 0 else DigitsValue(s[..|s| - 1]) * 10 + DigitValue(s[|s| - 1])
  }

  /** The value of a two-digit numeral. */
  lemma TwoDigits(s: string)
    requires |s| == 2 && AllDigits(s)
    ensures DigitsValue(s) == DigitValue(s[0]) * 10 + DigitValue(s[1])
  {
    var p := s[..1];
    assert p[..0] == [] && p[0] == s[0];
    assert DigitsValue(p) == DigitValue(s[0]);
  }

  /** The value of a four-digit numeral. */
  lemma FourDigits(s: string)
    requires |s| == 4 && AllDigits(s)
    ensures DigitsValue(s) == DigitValue(s[0]) * 1000 + DigitValue(s[1]) * 100 + DigitValue(s[2]) * 10 + DigitValue(s[3])
  {
    assert s[..3][..2] == s[..2];
    TwoDigits(s[..2]);
  }

  /** Reading back the numeral of `n` gives `n`. */
  lemma {:induction false} DecimalValue(n: nat)
    ensures DigitsValue(Decimal(n)) == n
  {
    if n >= 10 {
      DecimalValue(n / 10);
      var s := Decimal(n);
      assert s[..|s| - 1] == Decimal(n / 10);
    }
  }

  function Repeat(c: char, n: nat): (r: string)
    ensures |r| == n
    ensures forall i :: 0 <= i < n ==> r[i] == c
  {
    seq(n, _ => c)
  }

  /** Leading zeros do not change the value of a numeral. */
  lemma {:induction false} LeadingZerosValue(k: nat, s: string)
    requires AllDigits(s)
    ensures AllDigits(Repeat('0', k) + s)
    ensures DigitsValue(Repeat('0', k) + s) == DigitsValue(s)
    decreases |s|, k
  {
    var z := Repeat('0', k);
    if s == [] {
      assert z + s == z;
      if k > 0 {
        assert z[..k - 1] == Repeat('0', k - 1);
        LeadingZerosValue(k - 1, []);
        assert Repeat('0', k - 1) + [] == Repeat('0', k - 1);
      }
    } else {
      assert (z + s)[..|z + s| - 1] == z + s[..|s| - 1];
      LeadingZerosValue(k, s[..|s| - 1]);
    }
  }

  /** `s.padStart(width, fill)` with a one-character fill. */
  function PadStart(s: string, width: nat, fill: char): (r: string)
    ensures |r| == if |s| < width then width else |s|
    ensures r[|r| - |s|..] == s
    ensures forall i :: 0 <= i < |r| - |s| ==> r[i] == fill
  {
    if |s| < width then Repeat(fill, width - |s|) + s else s
  }

  /** `String(n).padStart(2, "0")` for n >= 0: the two digits of n below 100, its numeral from 100 on. */
  function Pad2(n: nat): (r: string)
    ensures AllDigits(r) && DigitsValue(r) == n
    ensures n < 100 ==> |r| == 2
  {
    if n < 100 then
      var r := [DigitChar(n / 10), DigitChar(n % 10)];
      TwoDigits(r);
      r
    else
      DecimalValue(n);
      Decimal(n)
  }

  /** `String(n).padStart(4, "0")` for n >= 0 (date-fns "yyyy"): four digits below 10000. */
  function Pad4(n: nat): (r: string)
    ensures AllDigits(r) && DigitsValue(r) == n
    ensures n < 10000 ==> |r| == 4
  {
    if n < 10000 then
      var r := [DigitChar(n / 10 / 10 / 10), DigitChar(n / 10 / 10 % 10), DigitChar(n / 10 % 10), DigitChar(n % 10)];
      FourDigits(r);
      PlaceValues(n);
      r
    else
      DecimalValue(n);
      Decimal(n)
  }

  lemma PlaceValues(n: nat)
    requires n < 10000
    ensures n / 10 / 10 / 10 < 10
    ensures n / 10 / 10 / 10 * 1000 + n / 10 / 10 % 10 * 100 + n / 10 % 10 * 10 + n % 10 == n
  {
    var a := n / 10;
    var b := a / 10;
    assert n == a * 10 + n % 10;
    assert a == b * 10 + a % 10;
    assert b == b / 10 * 10 + b % 10;
  }

  /** Numerals of one length with one value are the same string. */
  lemma {:induction false} DigitsValueInjective(s: string, t: string)
    requires |s| == |t| && AllDigits(s) && AllDigits(t)
    requires DigitsValue(s) == DigitsValue(t)
    ensures s == t
    decreases |s|
  {
    if s != [] {
      var n := |s| - 1;
      var v := DigitsValue(s);
      LastDigit(DigitsValue(s[..n]), DigitValue(s[n]));
      LastDigit(DigitsValue(t[..n]), DigitValue(t[n]));
      DigitsValueInjective(s[..n], t[..n]);
      assert s == s[..n] + [s[n]] && t == t[..n] + [t[n]];
    }
  }

  lemma LastDigit(p: nat, d: nat)
    requires d < 10
    ensures (p * 10 + d) % 10 == d && (p * 10 + d) / 10 == p
  {
  }

  /** Pad2 is `padStart(2, "0")` applied to the numeral of n. */
  lemma Pad2IsPadStart(n: nat)
    ensures Pad2(n) == PadStart(Decimal(n), 2, '0')
  {
    var d := Decimal(n);
    if n < 100 {
      var p := PadStart(d, 2, '0');
      assert AllDigits(p) && DigitsValue(p) == n && |p| == 2 by {
        DecimalValue(n);
        LeadingZerosValue(2 - |d|, d);
        assert p == Repeat('0', 2 - |d|) + d;
      }
      DigitsValueInjective(Pad2(n), p);
    }
  }

  /** Pad4 is `padStart(4, "0")` applied to the numeral of n. */
  lemma Pad4IsPadStart(n: nat)
    ensures Pad4(n) == PadStart(Decimal(n), 4, '0')
  {
    var d := Decimal(n);
    if n < 10000 {
      var p := PadStart(d, 4, '0');
      assert AllDigits(p) && DigitsValue(p) == n && |p| == 4 by {
        DecimalValue(n);
        LeadingZerosValue(4 - |d|, d);
        assert p == Repeat('0', 4 - |d|) + d;
      }
      DigitsValueInjective(Pad4(n), p);
    }
  }

  /** `String(i)` for any integer. */
  function JsString(i: int): (s: string)
    ensures 1 <= |s|
    ensures i >= 0 ==> s == Decimal(i)
    ensures i < 0 ==> s[0] == '-' && s[1..] == Decimal(-i)
  {
    if i < 0 then "-" + Decimal(-i) else Decimal(i)
  }

  // ---------------------------------------------------------------------------
  // Whitespace, trim, parseInt
  // ---------------------------------------------------------------------------

  /** The characters `trim` and `parseInt` skip: WhiteSpace and LineTerminator of ECMAScript. */
  predicate IsJsWhitespace(c: char) {
    || c == '\t' || c == '\n' || c == '\U{000B}' || c == '\U{000C}' || c == '\r'
    || c == ' ' || c == '\U{00A0}' || c == '\U{1680}' || ('\U{2000}' <= c <= '\U{200A}')
    || c == '\U{2028}' || c == '\U{2029}' || c == '\U{202F}' || c == '\U{205F}'
    || c == '\U{3000}' || c == '\U{FEFF}'
  }

  /** Number of whitespace characters at the front of `s`. */
  function LeadingWhitespace(s: string): (k: nat)
    ensures k <= |s|
    ensures forall i :: 0 <= i < k ==> IsJsWhitespace(s[i])
    ensures k < |s| ==> !IsJsWhitespace(s[k])
  {
    if s == [] || !IsJsWhitespace(s[0]) then 0 else 1 + LeadingWhitespace(s[1..])
  }

  /** Number of whitespace characters at the end of `s`. */
  function TrailingWhitespace(s: string): (k: nat)
    ensures k <= |s|
    ensures forall i :: |s| - k <= i < |s| ==> IsJsWhitespace(s[i])
    ensures k < |s| ==> !IsJsWhitespace(s[|s| - 1 - k])
  {
    if s == [] || !IsJsWhitespace(s[|s| - 1]) then 0 else 1 + TrailingWhitespace(s[..|s| - 1])
  }

  /** Everything after the piece `s.trim()` keeps is whitespace. */
  lemma TrimTailIsWhitespace(s: string, a: nat, k: nat)
    requires a == LeadingWhitespace(s) && k == TrailingWhitespace(s[a..])
    ensures forall i :: |s| - k <= i < |s| ==> IsJsWhitespace(s[i])
  {
    forall i | |s| - k <= i < |s| ensures IsJsWhitespace(s[i]) {
      assert s[i] == s[a..][i - a];
    }
  }

  /** A non-empty piece kept by `s.trim()` starts and ends with a non-whitespace character. */
  lemma TrimPieceEnds(s: string, a: nat, k: nat)
    requires a == LeadingWhitespace(s) && k == TrailingWhitespace(s[a..])
    ensures a < |s| - k ==> !IsJsWhitespace(s[a]) && !IsJsWhitespace(s[|s| - k - 1])
  {
    if a < |s| - k {
      assert s[|s| - k - 1] == s[a..][|s| - a - 1 - k];
    }
  }

  /**
   * `s.trim()`: the piece `s[a..b]` left once the whitespace before `a` and
   * after `b` is removed; it neither starts nor ends with whitespace.
   */
  function Trim(s: string): (r: string)
    ensures |r| <= |s|
    ensures exists a, b ::
              && 0 <= a <= b <= |s| && r == s[a..b]
              && (forall i :: 0 <= i < a ==> IsJsWhitespace(s[i]))
              && (forall i :: b <= i < |s| ==> IsJsWhitespace(s[i]))
    ensures r == [] || (!IsJsWhitespace(r[0]) && !IsJsWhitespace(r[|r| - 1]))
    ensures r == [] ==> forall i :: 0 <= i < |s| ==> IsJsWhitespace(s[i])
  {
    var a := LeadingWhitespace(s);
    var k := TrailingWhitespace(s[a..]);
    TrimTailIsWhitespace(s, a, k);
    TrimPieceEnds(s, a, k);
    s[a..|s| - k]
  }

  /** A string that neither starts nor ends with whitespace is its own trim. */
  lemma TrimUnchanged(s: string)
    requires s == [] || (!IsJsWhitespace(s[0]) && !IsJsWhitespace(s[|s| - 1]))
    ensures Trim(s) == s
  {
    assert LeadingWhitespace(s) == 0;
    assert s[0..] == s;
  }

  /** Number of decimal digits at the front of `s`. */
  function LeadingDigits(s: string): (k: nat)
    ensures k <= |s|
    ensures AllDigits(s[..k])
    ensures k < |s| ==> !IsDigit(s[k])
  {
    if s == [] || !IsDigit(s[0]) then 0
    else
      var k := 1 + LeadingDigits(s[1..]);
      assert s[..k] == [s[0]] + s[1..][..k - 1];
      k
  }

  /**
   * `parseInt(s, 10)`: skip leading whitespace, read an optional sign and the
   * longest run of digits; `None` stands for `NaN` (no digit at all).
   */
  function JsParseInt(s: string): (r: Option<int>)
  {
    var t := s[LeadingWhitespace(s)..];
    var negative := |t| > 0 && t[0] == '-';
    var u := if |t| > 0 && (t[0] == '-' || t[0] == '+') then t[1..] else t;
    var k := LeadingDigits(u);
    if k == 0 then None
    else
      var v: int := DigitsValue(u[..k]);
      Some(if negative then -v else v)
  }

  /** A string that starts with a digit parses as its leading run of digits. */
  lemma ParseIntFromDigit(s: string)
    requires |s| > 0 && IsDigit(s[0])
    ensures JsParseInt(s) == Some(DigitsValue(s[..LeadingDigits(s)]))
  {
    assert !IsJsWhitespace(s[0]);
    assert LeadingWhitespace(s) == 0;
    assert s[0..] == s;
  }

  /** A non-empty run of digits parses to its value, whatever follows a non-digit. */
  lemma ParseIntOfDigits(d: string, rest: string)
    requires 1 <= |d| && AllDigits(d)
    requires rest == [] || !IsDigit(rest[0])
    ensures JsParseInt(d + rest) == Some(DigitsValue(d))
  {
    var s := d + rest;
    assert s[0] == d[0];
    ParseIntFromDigit(s);
    LeadingDigitsOf(d, rest);
    assert s[..|d|] == d;
  }

  lemma {:induction false} LeadingDigitsOf(d: string, rest: string)
    requires AllDigits(d)
    requires rest == [] || !IsDigit(rest[0])
    ensures LeadingDigits(d + rest) == |d|
    decreases |d|
  {
    if d != [] {
      assert (d + rest)[1..] == d[1..] + rest;
      LeadingDigitsOf(d[1..], rest);
    } else {
      assert d + rest == rest;
    }
  }

  /** `parseInt(String(i), 10) == i`: the numeral round trip. */
  lemma ParseIntOfJsString(i: int)
    ensures JsParseInt(JsString(i)) == Some(i)
  {
    DecimalValue(if i < 0 then -i else i);
    if i >= 0 {
      ParseIntOfDigits(Decimal(i), []);
      assert Decimal(i) + [] == Decimal(i);
    } else {
      var s := JsString(i);
      assert LeadingWhitespace(s) == 0;
      assert s[0..] == s;
      LeadingDigitsOf(Decimal(-i), []);
      assert s[1..] == Decimal(-i) + [];
      assert s[1..][..|Decimal(-i)|] == Decimal(-i);
    }
  }

  // ---------------------------------------------------------------------------
  // Case, slices, split and join
  // ---------------------------------------------------------------------------

  /** `toLowerCase` on ASCII letters; every other character is kept. */
  function ToLowerChar(c: char): (r: char)
    ensures !('A' <= r <= 'Z')
    ensures !('A' <= c <= 'Z') ==> r == c
  {
    if 'A' <= c <= 'Z' then (c as int - 'A' as int + 'a' as int) as char else c
  }

  function ToLower(s: string): (r: string)
    ensures |r| == |s|
    ensures forall i :: 0 <= i < |s| ==> r[i] == ToLowerChar(s[i])
  {
    seq(|s|, i requires 0 <= i < |s| => ToLowerChar(s[i]))
  }

  /** A relative index of `slice`: negative counts from the end; the result lies in 0..len. */
  function ClampIndex(i: int, len: nat): (r: nat)
    ensures r <= len
    ensures 0 <= i <= len ==> r == i
  {
    if i < 0 then (if len + i < 0 then 0 else len + i) else if i > len then len else i
  }

  /** The two sides of a string glued around one character. */
  lemma SplitAround(a: string, c: char, b: string)
    ensures (a + [c] + b)[..|a|] == a && (a + [c] + b)[|a|] == c && (a + [c] + b)[|a| + 1..] == b
  {
  }

  /** The first and last of three strings glued together. */
  lemma ThreeParts(a: string, b: string, c: string)
    ensures |a + b + c| == |a| + |b| + |c|
    ensures (a + b + c)[..|a|] == a && (a + b + c)[|a|..|a| + |b|] == b && (a + b + c)[|a| + |b|..] == c
  {
  }

  /** `s.slice(start, end)` for strings and arrays. */
  function Slice<T>(s: seq<T>, start: int, end: int): (r: seq<T>)
    ensures 0 <= start <= end <= |s| ==> r == s[start..end]
    ensures |r| <= |s|
  {
    var a := ClampIndex(start, |s|);
    var b := ClampIndex(end, |s|);
    if a < b then s[a..b] else []
  }

  /** First position of `c` in `s`. */
  function IndexOf(s: string, c: char): (k: nat)
    requires c in s
    ensures k < |s| && s[k] == c && c !in s[..k]
  {
    if s[0] == c then 0
    else
      var k := 1 + IndexOf(s[1..], c);
      assert s[..k] == [s[0]] + s[1..][..k - 1];
      k
  }

  /** `s.split(sep)` for a one-character separator: the pieces between separators. */
  function Split(s: string, sep: char): (parts: seq<string>)
    ensures |parts| >= 1
    ensures forall i :: 0 <= i < |parts| ==> sep !in parts[i]
    ensures sep !in s ==> parts == [s]
    decreases |s|
  {
    if sep !in s then [s]
    else
      var k := IndexOf(s, sep);
      [s[..k]] + Split(s[k + 1..], sep)
  }

  /** Splitting two separator-free pieces glued by the separator gives the two pieces. */
  lemma SplitTwo(a: string, sep: char, b: string)
    requires sep !in a && sep !in b
    ensures Split(a + [sep] + b, sep) == [a, b]
  {
    var s := a + [sep] + b;
    SplitAround(a, sep, b);
    assert s[|a|] == sep && s[..|a|] == a;
    assert IndexOf(s, sep) == |a|;
  }

  /** `parts.join(sep)`. */
  function Join(parts: seq<string>, sep: string): (r: string)
    decreases |parts|
  {
    if parts == [] then ""
    else if |parts| == 1 then parts[0]
    else parts[0] + sep + Join(parts[1..], sep)
  }

  /** Joining the pieces of a split with the same separator gives the string back. */
  lemma {:induction false} JoinSplit(s: string, sep: char)
    ensures Join(Split(s, sep), [sep]) == s
    decreases |s|
  {
    if sep in s {
      var k := IndexOf(s, sep);
      var rest := Split(s[k + 1..], sep);
      var parts := Split(s, sep);
      assert parts == [s[..k]] + rest;
      assert |parts| >= 2 && parts[0] == s[..k] && parts[1..] == rest;
      calc {
        Join(parts, [sep]);
        parts[0] + [sep] + Join(parts[1..], [sep]);
        s[..k] + [sep] + Join(rest, [sep]);
        { JoinSplit(s[k + 1..], sep); }
        s[..k] + [sep] + s[k + 1..];
        s;
      }
    }
  }

  /** `s.includes(sub)`: `sub` occurs in `s` as a contiguous piece. */
  ghost predicate Contains(s: string, sub: string) {
    exists p: string, q: string :: s == p + sub + q
  }
}
