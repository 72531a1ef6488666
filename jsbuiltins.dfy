/**
 * The few JavaScript built-ins the playlist code relies on:
 * `String.prototype.substring` and `length` on JavaScript strings (which
 * count UTF-16 code units), `Number.prototype.toString` on integers, and
 * jQuery's `$.inArray`.
 */
module JsBuiltins {

  /** A UTF-16 code unit, the element of a JavaScript string. */
  newtype CodeUnit = x: int | 0 <= x < 0x1_0000

  /** A JavaScript string: `length`, indices and `substring` offsets count its code units. */
  type JsString = seq<CodeUnit>

  /** The UTF-16 encoding of one character: one code unit below U+10000, a surrogate pair from there on. */
  function CodeUnitsOf(c: char): (r: JsString)
    ensures |r| == if c as int < 0x1_0000 then 1 else 2
    ensures c as int < 0x1_0000 ==> r[0] as int == c as int
    ensures c as int >= 0x1_0000 ==> 0xD800 <= r[0] as int < 0xDC00 <= r[1] as int < 0xE000
  {
    var v := c as int;
    if v < 0x1_0000 then [v as CodeUnit]
    else [(0xD800 + (v - 0x1_0000) / 0x400) as CodeUnit, (0xDC00 + (v - 0x1_0000) % 0x400) as CodeUnit]
  }

  /** The JavaScript string holding the text `s`: the code units of its characters, in order. */
  function Utf16(s: string): JsString
    decreases |s|
  {
    if s == [] then [] else Utf16(s[..|s| - 1]) + CodeUnitsOf(s[|s| - 1])
  }

  /** Encoding distributes over concatenation. */
  lemma {:induction false} Utf16Concat(a: string, b: string)
    ensures Utf16(a + b) == Utf16(a) + Utf16(b)
    decreases |b|
  {
    if b == [] {
      assert a + b == a;
    } else {
      var b' := b[..|b| - 1];
      assert (a + b)[..|a + b| - 1] == a + b';
      assert (a + b)[|a + b| - 1] == b[|b| - 1];
      Utf16Concat(a, b');
    }
  }

  /** Every character of `s` lies in the Basic Multilingual Plane, so it is one code unit. */
  predicate Narrow(s: string)
  {
    forall i :: 0 <= i < |s| ==> s[i] as int < 0x1_0000
  }

  /** A string of the Basic Multilingual Plane is encoded one code unit per character, with the same values. */
  lemma {:induction false} Utf16Narrow(s: string)
    requires Narrow(s)
    ensures |Utf16(s)| == |s|
    ensures forall i :: 0 <= i < |s| ==> Utf16(s)[i] as int == s[i] as int
    decreases |s|
  {
    if s != [] {
      var s' := s[..|s| - 1];
      assert Narrow(s') by {
        forall i | 0 <= i < |s'| ensures s'[i] as int < 0x1_0000 { assert s'[i] == s[i]; }
      }
      Utf16Narrow(s');
      forall i | 0 <= i < |s'| ensures Utf16(s)[i] as int == s[i] as int {
        assert Utf16(s)[i] == Utf16(s')[i];
        assert s'[i] == s[i];
      }
    }
  }

  /** Two texts of the Basic Multilingual Plane are the same JavaScript string only when they are the same text. */
  lemma Utf16NarrowInjective(a: string, b: string)
    requires Narrow(a) && Narrow(b) && Utf16(a) == Utf16(b)
    ensures a == b
  {
    Utf16Narrow(a);
    Utf16Narrow(b);
    forall i | 0 <= i < |a| ensures a[i] == b[i] {
      assert a[i] as int == Utf16(a)[i] as int == b[i] as int;
    }
  }

  /** Clamps a `substring` argument into the range [0, len]. */
  function Clamp(i: int, len: nat): (r: nat)
    ensures r <= len
    ensures 0 <= i <= len ==> r == i
  {
    if i < 0 then 0 else if i > len then len else i
  }

  /**
   * `s.substring(start, end)` on the code units of `s`: both arguments are
   * clamped into [0, |s|], and they are swapped when the first is larger
   * than the second.
   */
  function Substring(s: JsString, start: int, end: int): (r: JsString)
    ensures 0 <= start <= end <= |s| ==> r == s[start..end]
    ensures Clamp(start, |s|) <= Clamp(end, |s|) ==> r == s[Clamp(start, |s|)..Clamp(end, |s|)]
    ensures Clamp(start, |s|) > Clamp(end, |s|) ==> r == s[Clamp(end, |s|)..Clamp(start, |s|)]
    ensures |r| <= |s|
  {
    var a, b := Clamp(start, |s|), Clamp(end, |s|);
    if a <= b then s[a..b] else s[b..a]
  }

  /** The decimal digit character of `d`. */
  function DigitChar(d: nat): (c: char)
    requires d < 10
    ensures '0' <= c <= '9'
  {
    ('0' as int + d) as char
  }

  /** The value of a decimal digit character. */
  function DigitValue(c: char): (d: nat)
    requires IsDigit(c)
    ensures d < 10 && DigitChar(d) == c
  {
    c as int - '0' as int
  }

  predicate IsDigit(c: char)
  {
    '0' <= c <= '9'
  }

  /** The decimal numeral of `n`, as `n.toString()` writes it: no leading zeros. */
  function NatToString(n: nat): (r: string)
    ensures |r| >= 1
    ensures forall i :: 0 <= i < |r| ==> IsDigit(r[i])
    ensures r[0] == '0' <==> n == 0
    ensures n < 10 <==> |r| == 1
    decreases n
  {
    if n < 10 then [DigitChar(n)] else NatToString(n / 10) + [DigitChar(n % 10)]
  }

  /** A number from 1000 to 9999 has a four-digit numeral. */
  lemma FourDigitNumeral(n: nat)
    requires 1000 <= n < 10000
    ensures |NatToString(n)| == 4
  {
    var a := n / 10;
    var b := a / 10;
    var c := b / 10;
    assert 100 <= a < 1000 && 10 <= b < 100 && 1 <= c < 10;
    assert |NatToString(b)| == |NatToString(c)| + 1;
    assert |NatToString(a)| == |NatToString(b)| + 1;
    assert |NatToString(n)| == |NatToString(a)| + 1;
  }

  /** The value of a string of decimal digits (most significant first). */
  function DecimalValue(s: string): (n: nat)
    requires forall i :: 0 <= i < |s| ==> IsDigit(s[i])
    decreases |s|
  {
    if s == [] then 0 else 10 * DecimalValue(s[..|s| - 1]) + DigitValue(s[|s| - 1])
  }

  /** Reading back the numeral `NatToString` writes gives the number again. */
  lemma {:induction false} DecimalValueOfNatToString(n: nat)
    ensures DecimalValue(NatToString(n)) == n
    decreases n
  {
    var s := NatToString(n);
    if n >= 10 {
      DecimalValueOfNatToString(n / 10);
      assert s[..|s| - 1] == NatToString(n / 10);
      assert DigitValue(s[|s| - 1]) == n % 10;
    } else {
      assert DigitValue(s[0]) == n;
    }
  }

  /**
   * The text `i.toString()` writes for an integer `i`: a minus sign before
   * the magnitude when negative (for magnitudes below 10^21, where
   * JavaScript switches to exponent notation).
   */
  function IntToString(i: int): (r: string)
    ensures |r| >= 1
    ensures i < 0 <==> r[0] == '-'
  {
    if i < 0 then "-" + NatToString(-i) else NatToString(i)
  }

  /** A numeral is made of digits and a minus sign, all in the Basic Multilingual Plane. */
  lemma NumeralNarrow(i: int)
    ensures Narrow(IntToString(i))
  {
  }

  /** Distinct integers have distinct numerals. */
  lemma IntToStringInjective(i: int, j: int)
    requires IntToString(i) == IntToString(j)
    ensures i == j
  {
    if i < 0 {
      NegativeNumeral(i);
      NegativeNumeral(j);
      NatToStringInjective(-i, -j);
    } else {
      NatToStringInjective(i, j);
    }
  }

  lemma NegativeNumeral(i: int)
    requires i < 0
    ensures IntToString(i)[1..] == NatToString(-i)
  {
  }

  lemma NatToStringInjective(m: nat, n: nat)
    requires NatToString(m) == NatToString(n)
    ensures m == n
  {
    DecimalValueOfNatToString(m);
    DecimalValueOfNatToString(n);
  }

  /**
   * `$.inArray(v, arr)`: the index of the first element equal to `v`,
   * or -1 when there is none.
   */
  function InArray<T(==)>(v: T, arr: seq<T>): (r: int)
    ensures -1 <= r < |arr|
    ensures r == -1 <==> v !in arr
    ensures 0 <= r ==> arr[r] == v && forall j :: 0 <= j < r ==> arr[j] != v
  {
    if |arr| == 0 then -1
    else if arr[0] == v then 0
    else
      var i := InArray(v, arr[1..]);
      if i == -1 then -1 else i + 1
  }
}
