/** The value-to-text side of the encoder: clamping, sign extraction, the
    nine-character text printNum renders, the date text of printDate, the
    multiplier-to-precision mapping of printFixed, and the command byte of
    wrCmd.  Characters are bytes, as in the driver. */
module Formatting {
  import opened Glyphs

  const MAX_NUM: int := 999999999
  const MIN_NUM: int := -999999999
  const MIN_MINUS_NUM: int := -99999999
  const PRECISION_MIN: nat := 1
  const PRECISION_MAX_POSITIVE: nat := 5

  predicate IsInt32(x: int) { -0x8000_0000 <= x < 0x8000_0000 }
  predicate IsUint32(x: int) { 0 <= x < 0x1_0000_0000 }

  function Dist(a: int, b: int): nat { if a < b then b - a else a - b }

  /** The two range checks at the top of printNum and printFixed: the value
      in [MIN_NUM, MAX_NUM] nearest to x. */
  function Clamp(x: int): (r: int)
    ensures MIN_NUM <= r <= MAX_NUM
    ensures MIN_NUM <= x <= MAX_NUM ==> r == x
    ensures forall y :: MIN_NUM <= y <= MAX_NUM ==> Dist(r, x) <= Dist(y, x)
  {
    if x > MAX_NUM then MAX_NUM else if x < MIN_NUM then MIN_NUM else x
  }

  /** showMinus lights the minus segment only below MIN_MINUS_NUM ... */
  predicate ShowsMinus(c: int) { c < MIN_MINUS_NUM }

  /** ... and then renders the negated value. */
  function Magnitude(c: int): int { if ShowsMinus(c) then -c else c }

  /** printNum is defined only when the value left after showMinus is
      positive: for 0 and for -99999999 .. -1 it takes log10 of a value that
      is not positive and converts the result to an integer. */
  predicate Renderable(num: int)
  {
    var c := Clamp(num);
    c >= 1 || ShowsMinus(c)
  }

  function Pow10(k: nat): (p: nat)
    ensures p >= 1
  {
    if k == 0 then 1 else 10 * Pow10(k - 1)
  }

  /** `(int)log10(v) + 1`: the number of decimal digits of v. */
  function DecimalLength(v: int): (k: nat)
    requires v >= 1
    ensures k >= 1
    ensures Pow10(k - 1) <= v < Pow10(k)
  {
    if v < 10 then 1 else 1 + DecimalLength(v / 10)
  }

  /** Nine-digit values are exactly those from 10^8 to MAX_NUM. */
  lemma {:induction false} NineDigits(v: int)
    requires 1 <= v <= MAX_NUM
    ensures DecimalLength(v) <= 9
    ensures DecimalLength(v) == 9 <==> v >= 100000000
  {
    var k := DecimalLength(v);
    assert Pow10(9) == 1000000000;
    LengthBelow(v, 9);
    if k <= 8 {
      Pow10Monotone(k, 8);
    }
    if k == 9 {
      assert Pow10(8) == 100000000;
    }
  }

  /** A value below 10^n has at most n digits. */
  lemma {:induction false} LengthBelow(v: int, n: nat)
    requires 1 <= v < Pow10(n)
    ensures DecimalLength(v) <= n
  {
    if v >= 10 {
      LengthBelow(v / 10, n - 1);
    }
  }

  lemma {:induction false} Pow10Monotone(a: nat, b: nat)
    requires a <= b
    ensures Pow10(a) <= Pow10(b)
  {
    if a < b {
      Pow10Monotone(a, b - 1);
    }
  }

  /** A value shown under the minus segment always has nine digits, so a
      negative number is never padded. */
  lemma {:induction false} MinusValuesFillTheDisplay(num: int)
    requires ShowsMinus(Clamp(num))
    ensures 1 <= Magnitude(Clamp(num)) <= MAX_NUM
    ensures DecimalLength(Magnitude(Clamp(num))) == 9
  {
    NineDigits(Magnitude(Clamp(num)));
  }

  predicate IsDigit(c: bv8) { ZERO <= c <= ZERO + 9 }

  /** The character of a decimal digit, and its value read back. */
  function DigitChar(x: int): (c: bv8)
    requires 0 <= x < 10
    ensures IsDigit(c) && (c - ZERO) as int == x
  {
    if x == 0 then ZERO else if x == 1 then ZERO + 1 else if x == 2 then ZERO + 2
    else if x == 3 then ZERO + 3 else if x == 4 then ZERO + 4 else if x == 5 then ZERO + 5
    else if x == 6 then ZERO + 6 else if x == 7 then ZERO + 7 else if x == 8 then ZERO + 8
    else ZERO + 9
  }

  /** The decimal digits of v, most significant first, as printf's `%li`
      writes them. */
  function Digits(v: int): (s: seq<bv8>)
    requires v >= 1
    ensures |s| == DecimalLength(v)
    ensures forall i :: 0 <= i < |s| ==> IsDigit(s[i])
    ensures s[0] != ZERO
  {
    if v < 10 then [DigitChar(v)] else Digits(v / 10) + [DigitChar(v % 10)]
  }

  /** The number a row of digits and blanks reads as; a blank reads like a
      leading zero. */
  function DecimalValue(s: seq<bv8>): nat
  {
    if s == [] then 0
    else
      var c := s[|s| - 1];
      DecimalValue(s[..|s| - 1]) * 10 + (if IsDigit(c) then (c - ZERO) as int else 0)
  }

  /** Reading the digits back gives the value. */
  lemma {:induction false} DigitsRoundTrip(v: int)
    requires v >= 1
    ensures DecimalValue(Digits(v)) == v
  {
    if v >= 10 {
      var s := Digits(v);
      assert s[..|s| - 1] == Digits(v / 10);
      DigitsRoundTrip(v / 10);
    }
  }

  predicate IsPad(c: bv8) { c == SPACE || c == ZERO }

  /** Leading blanks and zeros do not change what a numeral reads as. */
  lemma {:induction false} PaddingReadsAsNothing(pad: seq<bv8>, s: seq<bv8>)
    requires forall i :: 0 <= i < |pad| ==> IsPad(pad[i])
    ensures DecimalValue(pad + s) == DecimalValue(s)
  {
    if s == [] {
      assert pad + s == pad;
      if pad != [] {
        assert (pad + s)[..|pad| - 1] == pad[..|pad| - 1];
        PaddingReadsAsNothing(pad[..|pad| - 1], []);
        assert pad[..|pad| - 1] + [] == pad[..|pad| - 1];
      }
    } else {
      assert (pad + s)[..|pad + s| - 1] == pad + s[..|s| - 1];
      PaddingReadsAsNothing(pad, s[..|s| - 1]);
    }
  }

  /** `%9li`: the value right-aligned in nine characters. */
  function RightAligned(v: int): (s: seq<bv8>)
    requires 1 <= v <= MAX_NUM
    ensures |s| == 9
  {
    NineDigits(v);
    seq(9 - DecimalLength(v), _ => SPACE) + Digits(v)
  }

  /** The last DecimalLength(v) characters of `%9li` are the digits of v. */
  lemma {:induction false} RightAlignedTail(v: int)
    requires 1 <= v <= MAX_NUM
    ensures DecimalLength(v) <= 9
    ensures RightAligned(v)[9 - DecimalLength(v)..] == Digits(v)
  {
    NineDigits(v);
    var pad := seq(9 - DecimalLength(v), _ => SPACE);
    assert (pad + Digits(v))[|pad|..] == Digits(v);
  }

  /** The padding printNum writes before the digits: blanks left of position
      DISPLAY_SIZE - precision - 1, zeros from there on. */
  function Padding(n: nat, precision: int): (s: seq<bv8>)
    ensures |s| == n
  {
    seq(n, i => if i < 9 - precision - 1 then SPACE else ZERO)
  }

  /** The nine characters printNum renders for a value v >= 1. */
  function NumText(v: int, precision: int): (s: seq<bv8>)
    requires 1 <= v <= MAX_NUM
    ensures |s| == 9
  {
    NineDigits(v);
    Padding(9 - DecimalLength(v), precision) + Digits(v)
  }

  /** The text reads back as the value whatever the precision, and every
      character of it has a glyph. */
  lemma {:induction false} NumTextReadsBack(v: int, precision: int)
    requires 1 <= v <= MAX_NUM
    ensures DecimalValue(NumText(v, precision)) == v
    ensures forall i :: 0 <= i < 9 ==> Displayable(NumText(v, precision)[i])
  {
    NineDigits(v);
    var pad, ds := Padding(9 - DecimalLength(v), precision), Digits(v);
    assert NumText(v, precision) == pad + ds;
    PaddingReadsAsNothing(pad, ds);
    DigitsRoundTrip(v);
    forall i | 0 <= i < 9
      ensures Displayable((pad + ds)[i])
    {
      if i < |pad| {
        PadDisplayable(pad[i]);
      } else {
        DigitDisplayable(ds[i - |pad|]);
      }
    }
  }

  /** Blanks and zeros have glyphs. */
  lemma {:induction false} PadDisplayable(c: bv8)
    requires IsPad(c)
    ensures Displayable(c)
  {
  }

  /** Digits have glyphs. */
  lemma {:induction false} DigitDisplayable(c: bv8)
    requires IsDigit(c)
    ensures Displayable(c)
  {
  }

  /** `DISPLAY_SIZE - precision - 1` must not overflow a 32-bit int. */
  predicate PrecisionFits(precision: int)
  {
    IsInt32(precision) && IsInt32(9 - precision)
  }

  /** The string building of printNum: padding loop, `%9li` into a second
      buffer, then the copy loop for the last DecimalLength(v) characters.
      The result is NUL-terminated in its tenth byte. */
  method BuildNumText(v: int, precision: int) returns (str: seq<bv8>)
    requires 1 <= v <= MAX_NUM
    requires PrecisionFits(precision)
    ensures str == NumText(v, precision) + [0]
    ensures forall i :: 0 <= i < 9 - DecimalLength(v) ==>
              str[i] == (if i < 8 - precision then SPACE else ZERO)
    ensures str[9 - DecimalLength(v)..9] == Digits(v)
  {
    NineDigits(v);
    var numberSymbols := DecimalLength(v);
    var buf := new bv8[10](_ => 0);
    var strNum := RightAligned(v);
    var i := 0;
    while i < 9 - numberSymbols
      invariant 0 <= i <= 9 - numberSymbols
      invariant forall j :: 0 <= j < i ==> buf[j] == (if j < 8 - precision then SPACE else ZERO)
      invariant forall j :: i <= j < 10 ==> buf[j] == 0
    {
      if i < 9 - precision - 1 {
        buf[i] := SPACE;
      } else {
        buf[i] := ZERO;
      }
      i := i + 1;
    }
    ghost var padded := buf[..];
    i := 9 - numberSymbols;
    while i < 9
      invariant 9 - numberSymbols <= i <= 9
      invariant forall j :: 0 <= j < 9 - numberSymbols ==> buf[j] == padded[j]
      invariant forall j :: 9 - numberSymbols <= j < i ==> buf[j] == strNum[j]
      invariant buf[9] == 0
    {
      ghost var before := buf[..];
      buf[i] := strNum[i];
      assert forall j :: 0 <= j < 10 && j != i ==> buf[j] == before[j];
      i := i + 1;
    }
    str := buf[..];
    NumTextFromParts(str, v, precision);
    assert str == str[..9] + [str[9]];
  }

  /** A ten-byte buffer holding printNum's padding and then the tail of the
      right-aligned digits holds NumText. */
  lemma {:induction false} NumTextFromParts(str: seq<bv8>, v: int, precision: int)
    requires 1 <= v <= MAX_NUM && |str| == 10
    requires DecimalLength(v) <= 9
    requires forall j :: 0 <= j < 9 - DecimalLength(v) ==> str[j] == (if j < 8 - precision then SPACE else ZERO)
    requires forall j :: 9 - DecimalLength(v) <= j < 9 ==> str[j] == RightAligned(v)[j]
    ensures str[9 - DecimalLength(v)..9] == Digits(v)
    ensures str[..9] == NumText(v, precision)
  {
    var n := 9 - DecimalLength(v);
    RightAlignedTail(v);
    assert str[n..9] == RightAligned(v)[n..];
    assert str[..n] == Padding(n, precision);
    assert str[..9] == str[..n] + str[n..9];
  }

  /** The sign `%i` writes before a negative value. */
  const DASH: bv8 := 0x2D

  /** The values `%02i` writes in exactly two characters: a one-digit
      negative value takes the dash and its digit, anything else two digits. */
  predicate DateField(x: int) { -9 <= x <= 99 }

  /** `%02i` for a value it writes in two characters. */
  function TwoDigits(x: int): (s: seq<bv8>)
    requires DateField(x)
    ensures |s| == 2 && IsDigit(s[1])
    ensures x < 0 ==> s[0] == DASH
    ensures x >= 0 ==> IsDigit(s[0])
    ensures Displayable(s[0]) && s[0] != 0
  {
    if x < 0 then [DASH, DigitChar(-x)] else [DigitChar(x / 10), DigitChar(x % 10)]
  }

  /** The signed number a field of the date text reads as. */
  function FieldValue(s: seq<bv8>): int
  {
    if |s| > 0 && s[0] == DASH then -(DecimalValue(s[1..]) as int) else DecimalValue(s)
  }

  /** The text printDate renders: three blanks, then DDMMYY. */
  function DateText(day: int, mon: int, year: int): (s: seq<bv8>)
    requires DateField(day) && DateField(mon) && DateField(year)
    ensures |s| == 9
  {
    [SPACE, SPACE, SPACE] + TwoDigits(day) + TwoDigits(mon) + TwoDigits(year)
  }

  /** The date text holds each field as two characters that read back as
      it, and every character of it has a glyph. */
  lemma {:induction false} DateTextRoundTrip(day: int, mon: int, year: int)
    requires DateField(day) && DateField(mon) && DateField(year)
    ensures var s := DateText(day, mon, year);
            && s[..3] == [SPACE, SPACE, SPACE]
            && FieldValue(s[3..5]) == day
            && FieldValue(s[5..7]) == mon
            && FieldValue(s[7..9]) == year
            && forall i :: 0 <= i < 9 ==> Displayable(s[i]) && s[i] != 0
  {
    var s := DateText(day, mon, year);
    var a, b, c := TwoDigits(day), TwoDigits(mon), TwoDigits(year);
    assert s[3..5] == a && s[5..7] == b && s[7..9] == c;
    TwoDigitsRead(day);
    TwoDigitsRead(mon);
    TwoDigitsRead(year);
    forall i | 0 <= i < 9
      ensures Displayable(s[i]) && s[i] != 0
    {
      if 3 <= i < 5 {
        assert s[i] == a[i - 3];
      } else if 5 <= i < 7 {
        assert s[i] == b[i - 5];
      } else if 7 <= i {
        assert s[i] == c[i - 7];
      }
    }
  }

  lemma {:induction false} TwoDigitsRead(x: int)
    requires DateField(x)
    ensures FieldValue(TwoDigits(x)) == x
  {
    var s := TwoDigits(x);
    if x < 0 {
      assert s[1..] == [s[1]];
      assert s[1..][..0] == [];
      assert DecimalValue(s[1..]) == -x;
    } else {
      assert s == [DigitChar(x / 10), DigitChar(x % 10)];
      assert s[..1][..0] == [];
      assert s[..1] == [s[0]];
      assert DecimalValue(s[..1]) == x / 10;
      assert FieldValue(s) == DecimalValue(s);
    }
  }

  /** printFixed's multiplier: 10^k for k = 1 .. 5 selects precision k,
      anything else precision 0. */
  function Precision(multiplier: int): (p: nat)
    ensures p <= PRECISION_MAX_POSITIVE
    ensures p >= PRECISION_MIN ==> multiplier == Pow10(p)
    ensures p == 0 ==> forall k :: PRECISION_MIN <= k <= PRECISION_MAX_POSITIVE ==> multiplier != Pow10(k)
  {
    if multiplier == 100000 then 5
    else if multiplier == 10000 then 4
    else if multiplier == 1000 then 3
    else if multiplier == 100 then 2
    else if multiplier == 10 then 1
    else 0
  }
}
