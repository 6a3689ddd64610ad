/**
 * The small part of JavaScript's string and number built-ins that the
 * extension relies on: decimal printing (`String(n)`) and parsing of digit
 * strings (`parseInt`), `padStart`, `trim`, ASCII `toUpperCase`,
 * `split` on one character, and the truncating remainder `%`.
 */
module JsText {

  // ---------------------------------------------------------------------
  // Digits and decimal numbers
  // ---------------------------------------------------------------------

  /** The class `\d` of a JavaScript regular expression without the `u` flag. */
  predicate IsDigit(c: char) {
    '0' <= c <= '9'
  }

  predicate AllDigits(s: string) {
    forall i :: 0 <= i < |s| ==> IsDigit(s[i])
  }

  function DigitValue(c: char): nat
    requires IsDigit(c)
  {
    c as int - '0' as int
  }

  function DigitChar(d: nat): (c: char)
    requires d < 10
    ensures IsDigit(c) && DigitValue(c) == d
  {
    ('0' as int + d) as char
  }

  function Pow10(k: nat): (p: nat)
    ensures p >= 1
  {
    if k == 0 then 1 else 10 * Pow10(k - 1)
  }

  /** The powers of ten the timestamp formats use. */
  lemma Pow10Values()
    ensures Pow10(3) == 1000
    ensures Pow10(9) == 1_000_000_000
    ensures Pow10(10) == 10_000_000_000
    ensures Pow10(12) == 1_000_000_000_000
    ensures Pow10(13) == 10_000_000_000_000
  {
    assert Pow10(1) == 10;
    assert Pow10(2) == 100;
    assert Pow10(3) == 1000;
    assert Pow10(6) == 1000 * Pow10(3) by {
      assert Pow10(4) == 10 * Pow10(3);
      assert Pow10(5) == 10 * Pow10(4);
    }
    assert Pow10(9) == 1000 * Pow10(6) by {
      assert Pow10(7) == 10 * Pow10(6);
      assert Pow10(8) == 10 * Pow10(7);
    }
    assert Pow10(12) == 1000 * Pow10(9) by {
      assert Pow10(10) == 10 * Pow10(9);
      assert Pow10(11) == 10 * Pow10(10);
    }
  }

  /** The value of a string of decimal digits, most significant first (`parseInt` on such a string). */
  function DecimalValue(s: string): nat
    requires AllDigits(s)
  {
    if s == [] then 0 else 10 * DecimalValue(s[..|s| - 1]) + DigitValue(s[|s| - 1])
  }

  /** A string of k digits denotes a number below 10^k. */
  lemma {:induction false} DecimalValueBound(s: string)
    requires AllDigits(s)
    ensures DecimalValue(s) < Pow10(|s|)
  {
    if s != [] {
      DecimalValueBound(s[..|s| - 1]);
    }
  }

  /** Reading the digits of a + b is reading a, shifting by |b| places, and adding b. */
  lemma {:induction false} DecimalValueAppend(a: string, b: string)
    requires AllDigits(a) && AllDigits(b)
    ensures AllDigits(a + b)
    ensures DecimalValue(a + b) == DecimalValue(a) * Pow10(|b|) + DecimalValue(b)
  {
    if b == [] {
      assert a + b == a;
    } else {
      var b' := b[..|b| - 1];
      assert (a + b)[..|a + b| - 1] == a + b';
      assert (a + b)[|a + b| - 1] == b[|b| - 1];
      DecimalValueAppend(a, b');
      var x, p, y, d := DecimalValue(a), Pow10(|b'|), DecimalValue(b'), DigitValue(b[|b| - 1]);
      assert DecimalValue(a + b) == 10 * DecimalValue(a + b') + d;
      assert DecimalValue(b) == 10 * y + d;
      assert Pow10(|b|) == 10 * p;
      ShiftDigit(x, p, y, d);
    }
  }

  lemma ShiftDigit(x: int, p: int, y: int, d: int)
    ensures 10 * (x * p + y) + d == x * (10 * p) + (10 * y + d)
  {
  }

  /** Leading zeros do not change the value read. */
  lemma {:induction false} LeadingZerosValue(k: nat, s: string)
    requires AllDigits(s)
    ensures AllDigits(seq(k, _ => '0') + s)
    ensures DecimalValue(seq(k, _ => '0') + s) == DecimalValue(s)
  {
    var z: string := seq(k, _ => '0');
    ZerosValue(k);
    DecimalValueAppend(z, s);
  }

  lemma {:induction false} ZerosValue(k: nat)
    ensures AllDigits(seq(k, _ => '0'))
    ensures DecimalValue(seq(k, _ => '0')) == 0
  {
    if k > 0 {
      var z: string := seq(k, _ => '0');
      assert z[..k - 1] == seq(k - 1, _ => '0');
      ZerosValue(k - 1);
    }
  }

  /** `String(n)` for a non-negative integer: its decimal digits without leading zeros. */
  function NatToString(n: nat): (s: string)
    ensures |s| >= 1 && AllDigits(s)
    ensures |s| > 1 ==> s[0] != '0'
  {
    if n < 10 then [DigitChar(n)] else NatToString(n / 10) + [DigitChar(n % 10)]
  }

  /** Printing a number and parsing it back gives the number (`parseInt(String(n)) === n`). */
  lemma {:induction false} NatToStringRoundTrip(n: nat)
    ensures DecimalValue(NatToString(n)) == n
  {
    if n >= 10 {
      var s := NatToString(n);
      assert s[..|s| - 1] == NatToString(n / 10);
      NatToStringRoundTrip(n / 10);
    }
  }

  /** A number with k + 1 digits prints as k + 1 characters. */
  lemma {:induction false} NatToStringLength(n: nat, k: nat)
    requires Pow10(k) <= n < Pow10(k + 1)
    ensures |NatToString(n)| == k + 1
  {
    if k > 0 {
      NatToStringLength(n / 10, k - 1);
    }
  }

  /** `String(n)` for any integer: a minus sign before the digits of a negative number. */
  function IntToString(n: int): (s: string)
    ensures |s| >= 1
    ensures s[0] == '-' <==> n < 0
    ensures n >= 0 ==> s == NatToString(n)
  {
    if n < 0 then "-" + NatToString(-n) else NatToString(n)
  }

  /** `s.padStart(width, fill)` with a one-character fill string. */
  function PadStart(s: string, width: nat, fill: char): (r: string)
    ensures |r| == if |s| >= width then |s| else width
    ensures r[|r| - |s|..] == s
    ensures forall i :: 0 <= i < |r| - |s| ==> r[i] == fill
  {
    if |s| >= width then s else seq(width - |s|, _ => fill) + s
  }

  /** `String(n).padStart(width, '0')`. */
  function PadNumber(n: nat, width: nat): string {
    PadStart(NatToString(n), width, '0')
  }

  /** A number below 10^width, zero-padded to width >= 1, is exactly width digits that read back as the number. */
  lemma PadNumberRoundTrip(n: nat, width: nat)
    requires 1 <= width && n < Pow10(width)
    ensures |PadNumber(n, width)| == width
    ensures AllDigits(PadNumber(n, width))
    ensures DecimalValue(PadNumber(n, width)) == n
  {
    var s := NatToString(n);
    NatToStringRoundTrip(n);
    if |s| > width {
      assert s[0] != '0';
      DigitsLowerBound(s);
      PowMonotone(width, |s| - 1);
      assert false;
    }
    if |s| < width {
      LeadingZerosValue(width - |s|, s);
    }
  }

  /** A digit string without a leading zero is at least 10^(length - 1). */
  lemma {:induction false} DigitsLowerBound(s: string)
    requires |s| >= 1 && AllDigits(s) && s[0] != '0'
    ensures DecimalValue(s) >= Pow10(|s| - 1)
  {
    if |s| > 1 {
      var s' := s[..|s| - 1];
      DigitsLowerBound(s');
      assert DecimalValue(s) >= 10 * DecimalValue(s');
      assert Pow10(|s| - 1) == 10 * Pow10(|s'| - 1);
    }
  }

  lemma {:induction false} PowMonotone(a: nat, b: nat)
    requires a <= b
    ensures Pow10(a) <= Pow10(b)
  {
    if a < b {
      PowMonotone(a, b - 1);
    }
  }

  // ---------------------------------------------------------------------
  // String.prototype.trim
  // ---------------------------------------------------------------------

  /** The characters `trim` removes: the WhiteSpace and LineTerminator code points of ECMAScript. */
  predicate IsJsSpace(c: char) {
    c == ' ' || c == '\t' || c == '\n' || c == '\U{000B}' || c == '\U{000C}' || c == '\r'
    || c == '\U{00A0}' || c == '\U{1680}' || ('\U{2000}' <= c <= '\U{200A}')
    || c == '\U{2028}' || c == '\U{2029}' || c == '\U{202F}' || c == '\U{205F}'
    || c == '\U{3000}' || c == '\U{FEFF}'
  }

  function TrimStart(s: string): (r: string)
    ensures |r| <= |s| && r == s[|s| - |r|..]
    ensures forall i :: 0 <= i < |s| - |r| ==> IsJsSpace(s[i])
    ensures r == [] || !IsJsSpace(r[0])
  {
    if s != [] && IsJsSpace(s[0]) then TrimStart(s[1..]) else s
  }

  function TrimEnd(s: string): (r: string)
    ensures |r| <= |s| && r == s[..|r|]
    ensures forall i :: |r| <= i < |s| ==> IsJsSpace(s[i])
    ensures r == [] || !IsJsSpace(r[|r| - 1])
  {
    if s != [] && IsJsSpace(s[|s| - 1]) then TrimEnd(s[..|s| - 1]) else s
  }

  /** `s.trim()`: the longest middle part that neither starts nor ends with white space. */
  function Trim(s: string): (r: string)
    ensures r == [] || (!IsJsSpace(r[0]) && !IsJsSpace(r[|r| - 1]))
  {
    TrimEnd(TrimStart(s))
  }

  /** Trimming a string that has no white space at either end changes nothing. */
  lemma TrimNoSpaceEnds(s: string)
    requires s == [] || (!IsJsSpace(s[0]) && !IsJsSpace(s[|s| - 1]))
    ensures Trim(s) == s
  {
  }

  /** White space around a text with no white space at its ends is exactly what `trim` removes. */
  lemma TrimAround(pre: string, t: string, post: string)
    requires forall i :: 0 <= i < |pre| ==> IsJsSpace(pre[i])
    requires forall i :: 0 <= i < |post| ==> IsJsSpace(post[i])
    requires t == [] || (!IsJsSpace(t[0]) && !IsJsSpace(t[|t| - 1]))
    ensures Trim(pre + t + post) == t
  {
    if t == [] {
      var blanks := pre + post;
      assert pre + t + post == blanks + [];
      TrimStartSpaces(blanks, []);
    } else {
      assert pre + t + post == pre + (t + post);
      TrimStartSpaces(pre, t + post);
      TrimEndSpaces(t, post);
    }
  }

  lemma {:induction false} TrimStartSpaces(pre: string, s: string)
    requires forall i :: 0 <= i < |pre| ==> IsJsSpace(pre[i])
    requires s == [] || !IsJsSpace(s[0])
    ensures TrimStart(pre + s) == s
  {
    if pre != [] {
      assert (pre + s)[1..] == pre[1..] + s;
      TrimStartSpaces(pre[1..], s);
    } else {
      assert pre + s == s;
    }
  }

  lemma {:induction false} TrimEndSpaces(s: string, post: string)
    requires forall i :: 0 <= i < |post| ==> IsJsSpace(post[i])
    requires s == [] || !IsJsSpace(s[|s| - 1])
    ensures TrimEnd(s + post) == s
  {
    if post != [] {
      assert (s + post)[..|s + post| - 1] == s + post[..|post| - 1];
      TrimEndSpaces(s, post[..|post| - 1]);
    } else {
      assert s + post == s;
    }
  }

  lemma TrimIdempotent(s: string)
    ensures Trim(Trim(s)) == Trim(s)
  {
    TrimNoSpaceEnds(Trim(s));
  }

  // ---------------------------------------------------------------------
  // String.prototype.toUpperCase, restricted to ASCII
  // ---------------------------------------------------------------------

  function UpperChar(c: char): char {
    if 'a' <= c <= 'z' then (c as int - 32) as char else c
  }

  function ToUpper(s: string): (r: string)
    ensures |r| == |s|
    ensures forall i :: 0 <= i < |s| ==> r[i] == UpperChar(s[i])
  {
    seq(|s|, i requires 0 <= i < |s| => UpperChar(s[i]))
  }

  lemma ToUpperIdempotent(s: string)
    ensures ToUpper(ToUpper(s)) == ToUpper(s)
  {
  }

  // ---------------------------------------------------------------------
  // String.prototype.split with a one-character separator
  // ---------------------------------------------------------------------

  /** `s.split(sep)`: the maximal separator-free pieces between separators, in order. */
  function Split(s: string, sep: char): (parts: seq<string>)
    ensures |parts| >= 1
    ensures forall k :: 0 <= k < |parts| ==> sep !in parts[k]
  {
    if s == [] then [""]
    else
      var rest := Split(s[1..], sep);
      if s[0] == sep then [""] + rest else [[s[0]] + rest[0]] + rest[1..]
  }

  /** `parts.join(sep)`. */
  function Join(parts: seq<string>, sep: char): string
    requires |parts| >= 1
  {
    if |parts| == 1 then parts[0] else parts[0] + [sep] + Join(parts[1..], sep)
  }

  /** Joining the pieces back with the separator restores the string. */
  lemma {:induction false} SplitJoin(s: string, sep: char)
    ensures Join(Split(s, sep), sep) == s
  {
    if s != [] {
      var rest := Split(s[1..], sep);
      SplitJoin(s[1..], sep);
      if s[0] == sep {
        assert Split(s, sep)[1..] == rest;
      } else if |rest| == 1 {
        assert Split(s, sep) == [[s[0]] + rest[0]];
      } else {
        var parts := Split(s, sep);
        assert parts[1..] == rest[1..];
        calc {
          Join(parts, sep);
          parts[0] + [sep] + Join(rest[1..], sep);
          [s[0]] + (rest[0] + [sep] + Join(rest[1..], sep));
          [s[0]] + Join(rest, sep);
          [s[0]] + s[1..];
          s;
        }
      }
    }
  }

  /** There is a second piece exactly when the separator occurs. */
  lemma {:induction false} SplitHasSecondPiece(s: string, sep: char)
    ensures |Split(s, sep)| >= 2 <==> sep in s
  {
    if s != [] {
      SplitHasSecondPiece(s[1..], sep);
      assert sep in s <==> s[0] == sep || sep in s[1..];
    }
  }

  /** A separator-free string is its own single piece. */
  lemma {:induction false} SplitNoSeparator(a: string, sep: char)
    requires sep !in a
    ensures Split(a, sep) == [a]
  {
    if a != [] {
      SplitNoSeparator(a[1..], sep);
      assert [a[0]] + a[1..] == a;
    }
  }

  /** A separator-free head followed by the separator splits off as the first piece. */
  lemma {:induction false} SplitAfterHead(a: string, sep: char, b: string)
    requires sep !in a
    ensures Split(a + [sep] + b, sep) == [a] + Split(b, sep)
  {
    if a == [] {
      assert a + [sep] + b == [sep] + b;
      assert ([sep] + b)[1..] == b;
    } else {
      assert (a + [sep] + b)[1..] == a[1..] + [sep] + b;
      SplitAfterHead(a[1..], sep, b);
      assert [a[0]] + a[1..] == a;
    }
  }

  // ---------------------------------------------------------------------
  // Integer arithmetic as JavaScript does it
  // ---------------------------------------------------------------------

  function Abs(n: int): nat {
    if n < 0 then -n else n
  }

  /**
   * JavaScript's `a % b` on integers: the remainder takes the sign of the
   * dividend (Dafny's `%` is Euclidean and never negative).
   * `Math.floor(a / b)` for b > 0 is Dafny's `a / b`.
   */
  function JsRem(a: int, b: int): (r: int)
    requires b > 0
    ensures Abs(r) < b
    ensures r == 0 || (r < 0 <==> a < 0)
    ensures Abs(r) == Abs(a) % b
  {
    if a >= 0 then a % b else -((-a) % b)
  }
}
