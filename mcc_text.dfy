/** The C library character and number routines the MCC readers rely on
    (`isspace`, `isdigit`, `strtol` in base 10 and `strtod`), over Dafny
    strings. A C string ends at its first NUL; `At` reads NUL at and past the
    end of a Dafny string, so an index into a string behaves like a pointer
    into a terminated buffer. The number recognisers accept the decimal forms
    only and do not clamp on overflow. */
module CText {
  import opened Wrappers

  /** `isspace` in the C locale: space, tab, newline, vertical tab, form feed
      and carriage return. */
  predicate IsSpace(c: char)
  {
    c == ' ' || '\t' <= c <= '\r'
  }

  predicate IsDigit(c: char)
  {
    '0' <= c <= '9'
  }

  function DigitValue(c: char): (d: nat)
    requires IsDigit(c)
    ensures d < 10
  {
    (c as int) - ('0' as int)
  }

  function DigitChar(d: nat): (c: char)
    requires d < 10
    ensures IsDigit(c) && DigitValue(c) == d
  {
    (('0' as int) + d) as char
  }

  /** `*(s + i)` for a NUL-terminated buffer holding `s`. */
  function At(s: string, i: int): char
  {
    if 0 <= i < |s| then s[i] else '\0'
  }

  /** The first index at or after `i` whose character fails `p`, or `|s|`. */
  function Span(s: string, i: nat, p: char -> bool): (j: nat)
    ensures i <= j
    ensures i < j ==> j <= |s|
    ensures j < |s| ==> !p(s[j])
    decreases |s| - i
  {
    if i >= |s| || !p(s[i]) then i else Span(s, i + 1, p)
  }

  /** Every character `Span` passes over satisfies `p`. */
  lemma {:induction false} SpanAll(s: string, i: nat, p: char -> bool)
    ensures forall k :: i <= k < Span(s, i, p) ==> p(s[k])
    decreases |s| - i
  {
    if i < |s| && p(s[i]) {
      SpanAll(s, i + 1, p);
    }
  }

  /** `Span` is the only index with its two properties. */
  lemma {:induction false} SpanUnique(s: string, i: nat, j: nat, p: char -> bool)
    requires i <= j <= |s|
    requires forall k :: i <= k < j ==> p(s[k])
    requires j < |s| ==> !p(s[j])
    ensures Span(s, i, p) == j
    decreases j - i
  {
    if i < j {
      SpanUnique(s, i + 1, j, p);
    }
  }

  /** The pointer `ltrim_whitespace` leaves behind. */
  function SkipSpace(s: string, i: nat): (j: nat)
    ensures i <= j && !IsSpace(At(s, j))
    ensures forall k :: i <= k < j ==> k < |s| && IsSpace(s[k])
  {
    SpanAll(s, i, IsSpace);
    Span(s, i, IsSpace)
  }

  /** `strempty`: only whitespace remains from `i` to the terminator. */
  predicate Blank(s: string, i: nat)
  {
    At(s, SkipSpace(s, i)) == '\0'
  }

  predicate NonNul(c: char)
  {
    c != '\0'
  }

  /** The C string starting at `i`: the characters up to the first NUL. */
  function CString(s: string, i: nat): (r: string)
    requires i <= |s|
    ensures forall c :: c in r ==> c != '\0'
    ensures i + |r| <= |s| && r == s[i..i + |r|]
    ensures At(s, i + |r|) == '\0'
  {
    SpanAll(s, i, NonNul);
    s[i..Span(s, i, NonNul)]
  }

  /** The value of a string of decimal digits. */
  function DigitsValue(d: string): nat
    requires forall k :: 0 <= k < |d| ==> IsDigit(d[k])
  {
    if d == [] then 0 else DigitsValue(d[..|d| - 1]) * 10 + DigitValue(d[|d| - 1])
  }

  /** A number the recognisers found: its value and the index just past it. */
  datatype Scanned<T> = Scanned(value: T, end: nat)

  function SignEnd(s: string, j: nat): nat
  {
    if At(s, j) == '+' || At(s, j) == '-' then j + 1 else j
  }

  function SignOf(s: string, j: nat): int
  {
    if At(s, j) == '-' then -1 else 1
  }

  /** `strtol(s + i, &end, 10)`: optional whitespace, an optional sign and at
      least one digit; `None` when no digit follows, where `strtol` sets
      `end` back to `s + i`. */
  function ParseLong(s: string, i: nat): (r: Option<Scanned<int>>)
    ensures r.Some? ==> i < r.value.end <= |s| && IsDigit(s[r.value.end - 1])
    ensures r.Some? ==> !IsDigit(At(s, r.value.end))
  {
    var j := SkipSpace(s, i);
    var k := SignEnd(s, j);
    var e := Span(s, k, IsDigit);
    SpanAll(s, k, IsDigit);
    if e == k then None
    else Some(Scanned(SignOf(s, j) * DigitsValue(s[k..e]), e))
  }

  function Pow(b: nat, n: nat): (r: nat)
    ensures b > 0 ==> r > 0
  {
    if n == 0 then 1 else b * Pow(b, n - 1)
  }

  /** Ten to the power `x`. */
  function Pow10(x: int): real
  {
    if x >= 0 then Pow(10, x) as real else 1.0 / (Pow(10, -x) as real)
  }

  /** The value of the digits after a decimal point. */
  function Fraction(d: string): real
    requires forall k :: 0 <= k < |d| ==> IsDigit(d[k])
  {
    DigitsValue(d) as real / (Pow(10, |d|) as real)
  }

  /** An exponent part at `e`; when there is none, or it has no digits, the
      exponent is 0 and nothing is consumed. */
  function Exponent(s: string, e: nat): (r: Scanned<int>)
    ensures r.end >= e
  {
    if At(s, e) == 'e' || At(s, e) == 'E' then
      var k := SignEnd(s, e + 1);
      var d := Span(s, k, IsDigit);
      SpanAll(s, k, IsDigit);
      if d == k then Scanned(0, e) else Scanned(SignOf(s, e + 1) * DigitsValue(s[k..d]), d)
    else Scanned(0, e)
  }

  /** Digits with an optional decimal point at `k`, at least one digit on one
      side of the point; the value read and the index just past it. */
  function Mantissa(s: string, k: nat): (r: Option<Scanned<real>>)
    ensures r.Some? ==> k < r.value.end <= |s|
  {
    var e1 := Span(s, k, IsDigit);
    var point := At(s, e1) == '.';
    var e2 := if point then Span(s, e1 + 1, IsDigit) else e1;
    SpanAll(s, k, IsDigit);
    SpanAll(s, e1 + 1, IsDigit);
    if e1 == k && e2 <= k + 1 then None
    else Some(Scanned(DigitsValue(s[k..e1]) as real + (if point then Fraction(s[e1 + 1..e2]) else 0.0), e2))
  }

  /** `strtod(s + i, &end)` on decimal input: optional whitespace, an optional
      sign, a mantissa, then an optional exponent. `None` when the mantissa
      has no digit. */
  function ParseDouble(s: string, i: nat): (r: Option<Scanned<real>>)
    ensures r.Some? ==> i < r.value.end <= |s|
  {
    var j := SkipSpace(s, i);
    match Mantissa(s, SignEnd(s, j))
    case None => None
    case Some(m) =>
      var x := Exponent(s, m.end);
      Some(Scanned(Scientific(SignOf(s, j), m.value, x.value), x.end))
  }

  /** The number with the given sign, mantissa and decimal exponent. */
  function Scientific(sign: int, mantissa: real, exponent: int): real
  {
    sign as real * mantissa * Pow10(exponent)
  }

  /** The decimal digits of `m`, most significant first. */
  function DigitsOf(m: nat): (d: string)
    ensures |d| > 0
    ensures forall k :: 0 <= k < |d| ==> IsDigit(d[k])
  {
    if m < 10 then [DigitChar(m)] else DigitsOf(m / 10) + [DigitChar(m % 10)]
  }

  /** `m` printed in decimal, with a minus sign when negative (`%ld`). */
  function DecimalString(n: int): (r: string)
    ensures |r| > 0 && (IsDigit(r[0]) || r[0] == '-')
    ensures forall k :: 1 <= k < |r| ==> IsDigit(r[k])
  {
    if n < 0 then "-" + DigitsOf(-n) else DigitsOf(n)
  }

  /** Printing then reading back digits gives the number. */
  lemma {:induction false} DigitsOfValue(m: nat)
    ensures DigitsValue(DigitsOf(m)) == m
  {
    if m >= 10 {
      DigitsOfValue(m / 10);
      var d := DigitsOf(m);
      assert d[..|d| - 1] == DigitsOf(m / 10);
    }
  }

  /** The digits of `m` written at `k` and followed by a non-digit are
      scanned as one run whose value is `m`. */
  lemma DigitsAt(s: string, k: nat, m: nat)
    requires k + |DigitsOf(m)| <= |s| && s[k..k + |DigitsOf(m)|] == DigitsOf(m)
    requires !IsDigit(At(s, k + |DigitsOf(m)|))
    ensures Span(s, k, IsDigit) == k + |DigitsOf(m)|
    ensures DigitsValue(s[k..k + |DigitsOf(m)|]) == m
  {
    var d := DigitsOf(m);
    DigitsOfValue(m);
    assert forall p :: k <= p < k + |d| ==> s[p] == d[p - k];
    SpanUnique(s, k, k + |d|, IsDigit);
  }

  /** How the recognisers see `DecimalString(n)` written at `i`: no leading
      space, a sign exactly when `n` is negative, then the digits of `|n|`. */
  lemma DecimalAt(s: string, i: nat, n: int)
    requires i + |DecimalString(n)| <= |s| && s[i..i + |DecimalString(n)|] == DecimalString(n)
    ensures SkipSpace(s, i) == i
    ensures var k := if n < 0 then i + 1 else i;
      SignEnd(s, i) == k && SignOf(s, i) == (if n < 0 then -1 else 1) &&
      k + |DigitsOf(if n < 0 then -n else n)| == i + |DecimalString(n)| &&
      s[k..i + |DecimalString(n)|] == DigitsOf(if n < 0 then -n else n)
  {
    var ds := DecimalString(n);
    var m := if n < 0 then -n else n;
    DigitsOfValue(m);
    assert s[i] == ds[0];
    assert IsDigit(DigitsOf(m)[0]);
    SpanUnique(s, i, i, IsSpace);
  }

  /** Where a string holds `DecimalString(n)` at `i` followed by something
      that is not a digit, `strtol` reads `n` back and stops just after it. */
  lemma ParseLongDecimal(s: string, i: nat, n: int)
    requires i + |DecimalString(n)| <= |s| && s[i..i + |DecimalString(n)|] == DecimalString(n)
    requires !IsDigit(At(s, i + |DecimalString(n)|))
    ensures ParseLong(s, i) == Some(Scanned(n, i + |DecimalString(n)|))
  {
    var m := if n < 0 then -n else n;
    var k := if n < 0 then i + 1 else i;
    DecimalAt(s, i, n);
    DigitsAt(s, k, m);
  }

  /** Where a string holds `DecimalString(n)` at `i` followed by something
      that cannot continue a number, `strtod` reads `n` back and stops just
      after it. */
  lemma ParseDoubleDecimal(s: string, i: nat, n: int)
    requires i + |DecimalString(n)| <= |s| && s[i..i + |DecimalString(n)|] == DecimalString(n)
    requires var c := At(s, i + |DecimalString(n)|); !IsDigit(c) && c != '.' && c != 'e' && c != 'E'
    ensures ParseDouble(s, i) == Some(Scanned(n as real, i + |DecimalString(n)|))
  {
    var m := if n < 0 then -n else n;
    var k := if n < 0 then i + 1 else i;
    var e := i + |DecimalString(n)|;
    DecimalAt(s, i, n);
    DigitsAt(s, k, m);
    assert Mantissa(s, k) == Some(Scanned(m as real, e));
    assert Exponent(s, e) == Scanned(0, e);
    assert Pow10(0) == 1.0;
    var sign := SignOf(s, i);
    assert Scientific(sign, m as real, 0) == n as real by {
      if n < 0 {
        assert sign == -1;
      } else {
        assert sign == 1;
      }
    }
  }
}
