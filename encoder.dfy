/** What the encoder routines printStr, printNum, showMinus, printFixed,
    printDate, decimalSeparator and dateSeparator, and the clears they are
    built from, do to the 16-byte data view, and what a reader of the panel
    then sees. */
module Encoder {
  import opened Segments
  import opened Glyphs
  import opened Frame
  import opened Formatting

  /** dotsBufferClear: bit 7 of bytes 6 .. 10 cleared. */
  function DotsCleared(d: seq<bv8>): (r: seq<bv8>)
    requires |d| == DATA_SIZE
    ensures |r| == DATA_SIZE
  {
    ClearMask(d, DotMask(PRECISION_MAX_POSITIVE))
  }

  /** lettersBufferClear: the digit fields of all nine positions cleared. */
  function LettersCleared(d: seq<bv8>): (r: seq<bv8>)
    requires |d| == DATA_SIZE
    ensures |r| == DATA_SIZE
  {
    ClearMask(d, FieldMask(DISPLAY_SIZE))
  }

  /** The bits printStr and printNum may change besides the minus sign. */
  function TextMask(): (m: seq<bv8>)
    ensures |m| == DATA_SIZE
  {
    Union(DotMask(PRECISION_MAX_POSITIVE), FieldMask(DISPLAY_SIZE))
  }

  lemma {:induction false} DotMaskAtDot(k: nat)
    requires 1 <= k <= 5
    ensures DotMask(PRECISION_MAX_POSITIVE)[Dot(k).pos] & Dot(k).mask == Dot(k).mask
    ensures FieldMask(DISPLAY_SIZE)[Dot(k).pos] & Dot(k).mask == 0
  {
  }

  /** After dotsBufferClear no decimal point is lit and only dot bits
      changed. */
  lemma {:induction false} DotsClearedFacts(d: seq<bv8>)
    requires |d| == DATA_SIZE
    ensures forall k :: 1 <= k <= 5 ==> !Lit(DotsCleared(d), Dot(k))
    ensures Agree(d, DotsCleared(d), DotMask(PRECISION_MAX_POSITIVE))
  {
    forall k | 1 <= k <= 5
      ensures !Lit(DotsCleared(d), Dot(k))
    {
      DotMaskAtDot(k);
      DarkUnderMask(d, DotMask(PRECISION_MAX_POSITIVE), Dot(k));
    }
    ClearMaskAgree(d, DotMask(PRECISION_MAX_POSITIVE));
  }

  /** After lettersBufferClear every position shows blank and only digit
      fields changed. */
  lemma {:induction false} LettersClearedFacts(d: seq<bv8>)
    requires |d| == DATA_SIZE
    ensures forall i :: 0 <= i < DISPLAY_SIZE ==> Decode(LettersCleared(d), i) == 0
    ensures Agree(d, LettersCleared(d), FieldMask(DISPLAY_SIZE))
  {
    forall i | 0 <= i < DISPLAY_SIZE
      ensures Decode(LettersCleared(d), i) == 0
    {
      ClearedDecode(d, i);
    }
    ClearMaskAgree(d, FieldMask(DISPLAY_SIZE));
  }

  /** Clearing the digit fields or rendering text leaves the decimal
      points as they were. */
  lemma {:induction false} FieldsKeepDots(a: seq<bv8>, b: seq<bv8>, n: nat, k: nat)
    requires |a| == DATA_SIZE && n <= DISPLAY_SIZE && 1 <= k <= 5
    requires Agree(a, b, FieldMask(n))
    ensures Lit(b, Dot(k)) == Lit(a, Dot(k))
  {
    FieldMaskMisses(n, Dot(k).pos, Dot(k).mask);
    KeptLitOutside(a, b, FieldMask(n), Dot(k));
  }

  /** The text routines change nothing outside TextMask. */
  lemma {:induction false} TextAgree(d: seq<bv8>, d1: seq<bv8>, d2: seq<bv8>, r: seq<bv8>, n: nat)
    requires |d| == DATA_SIZE && n <= DISPLAY_SIZE
    requires Agree(d, d1, DotMask(PRECISION_MAX_POSITIVE))
    requires Agree(d1, d2, FieldMask(DISPLAY_SIZE))
    requires Agree(d2, r, FieldMask(n))
    ensures Agree(d, r, TextMask())
  {
    var m := TextMask();
    UnionContains(DotMask(PRECISION_MAX_POSITIVE), FieldMask(DISPLAY_SIZE));
    AgreeWiden(d, d1, DotMask(PRECISION_MAX_POSITIVE), m);
    AgreeWiden(d1, d2, FieldMask(DISPLAY_SIZE), m);
    forall j | 0 <= j < DATA_SIZE
      ensures FieldMask(n)[j] & !m[j] == 0
    {
      FieldMaskGrows(n, DISPLAY_SIZE, j);
    }
    AgreeWiden(d2, r, FieldMask(n), m);
    AgreeTrans(d, d1, d2, m);
    AgreeTrans(d, d2, r, m);
  }

  /** CN91C4S96printStr(str). */
  function ShowStr(d: seq<bv8>, s: seq<bv8>): (r: seq<bv8>)
    requires |d| == DATA_SIZE
    ensures |r| == DATA_SIZE
  {
    Rendered(LettersCleared(DotsCleared(d)), s)
  }

  /** After printStr every position up to the end of the string (at most
      nine) shows its character's glyph, blank for a character without one,
      the positions after it show blank, no decimal point is lit, and
      nothing outside the dot bits and the digit fields changes. */
  lemma {:induction false} PrintStrShows(d: seq<bv8>, s: seq<bv8>)
    requires |d| == DATA_SIZE
    ensures forall i :: 0 <= i < DISPLAY_SIZE ==>
      Decode(ShowStr(d, s), i) == if i < Shown(s) then Glyph(s[i]) else 0
    ensures forall k :: 1 <= k <= 5 ==> !Lit(ShowStr(d, s), Dot(k))
    ensures Agree(d, ShowStr(d, s), TextMask())
  {
    var d1 := DotsCleared(d);
    var d2 := LettersCleared(d1);
    var r := ShowStr(d, s);
    DotsClearedFacts(d);
    LettersClearedFacts(d1);
    RenderedAgree(d2, s, Shown(s));
    forall i | 0 <= i < DISPLAY_SIZE
      ensures Decode(r, i) == if i < Shown(s) then Glyph(s[i]) else 0
    {
      RenderedDecode(d2, s, Shown(s), i);
    }
    forall k | 1 <= k <= 5
      ensures !Lit(r, Dot(k))
    {
      FieldsKeepDots(d1, d2, DISPLAY_SIZE, k);
      FieldsKeepDots(d2, r, Shown(s), k);
    }
    TextAgree(d, d1, d2, r, Shown(s));
  }

  /** showMinus(&num) on the data view: the minus segment is lit exactly
      for values below MIN_MINUS_NUM, and nothing else changes. */
  function WithSign(d: seq<bv8>, num: int): (r: seq<bv8>)
    requires |d| == DATA_SIZE
    ensures |r| == DATA_SIZE
    ensures Lit(r, MINUS) == ShowsMinus(num)
    ensures Agree(d, r, Footprint([MINUS]))
  {
    SetSegAgrees(d, MINUS, [MINUS]);
    if ShowsMinus(num) then SetSeg(d, MINUS) else ClearSeg(d, MINUS)
  }

  /** The string printNum hands to BufferToAscii: NumText and its NUL. */
  function NumString(num: int, precision: int): (s: seq<bv8>)
    requires Renderable(num)
    ensures |s| == DISPLAY_SIZE + 1
  {
    NumText(Magnitude(Clamp(num)), precision) + [0]
  }

  /** The nine characters of a terminated text are all rendered. */
  lemma {:induction false} AllShown(t: seq<bv8>)
    requires |t| == DISPLAY_SIZE && forall i :: 0 <= i < |t| ==> Displayable(t[i])
    ensures Shown(t + [0]) == DISPLAY_SIZE
    ensures forall i :: 0 <= i < DISPLAY_SIZE ==> (t + [0])[i] == t[i]
  {
    var s := t + [0];
    assert forall i :: 0 <= i < DISPLAY_SIZE ==> s[i] == t[i] && s[i] != 0;
  }

  /** The data view printNum renders onto: points and letters cleared and
      the sign set for the clamped value. */
  function Prepared(d: seq<bv8>, c: int): (r: seq<bv8>)
    requires |d| == DATA_SIZE
    ensures |r| == DATA_SIZE
  {
    WithSign(LettersCleared(DotsCleared(d)), c)
  }

  /** CN91C4S96printNum(num, precision): clamp, clear dots and letters,
      showMinus, then render the padded digits. */
  function ShowNum(d: seq<bv8>, num: int, precision: int): (r: seq<bv8>)
    requires |d| == DATA_SIZE
    requires IsInt32(num) && PrecisionFits(precision) && Renderable(num)
    ensures |r| == DATA_SIZE
  {
    Rendered(Prepared(d, Clamp(num)), NumString(num, precision))
  }

  /** The digits rendered by printNum all land: the nine positions hold the
      glyphs of NumText, and only the digit fields change. */
  lemma {:induction false} NumRendered(p: seq<bv8>, num: int, precision: int)
    requires |p| == DATA_SIZE && Renderable(num)
    ensures var t := NumText(Magnitude(Clamp(num)), precision);
            var r := Rendered(p, NumString(num, precision));
            && (forall i :: 0 <= i < DISPLAY_SIZE ==> Decode(r, i) == Decode(p, i) | Glyph(t[i]))
            && Agree(p, r, FieldMask(DISPLAY_SIZE))
  {
    var t := NumText(Magnitude(Clamp(num)), precision);
    var s := NumString(num, precision);
    NumTextReadsBack(Magnitude(Clamp(num)), precision);
    AllShown(t);
    RenderedAgree(p, s, DISPLAY_SIZE);
    forall i | 0 <= i < DISPLAY_SIZE
      ensures Decode(Rendered(p, s), i) == Decode(p, i) | Glyph(t[i])
    {
      RenderedDecode(p, s, DISPLAY_SIZE, i);
    }
  }

  /** Before rendering, every position is blank, no point is lit, the minus
      segment follows the value, and only dots, fields and the minus
      segment have changed. */
  lemma {:induction false} PreparedFacts(d: seq<bv8>, c: int)
    requires |d| == DATA_SIZE
    ensures var p := Prepared(d, c);
            && (forall i :: 0 <= i < DISPLAY_SIZE ==> Decode(p, i) == 0)
            && (forall k :: 1 <= k <= 5 ==> !Lit(p, Dot(k)))
            && Lit(p, MINUS) == ShowsMinus(c)
            && Agree(d, LettersCleared(DotsCleared(d)), TextMask())
  {
    var d1 := DotsCleared(d);
    var d2 := LettersCleared(d1);
    var p := Prepared(d, c);
    DotsClearedFacts(d);
    LettersClearedFacts(d1);
    forall i | 0 <= i < DISPLAY_SIZE
      ensures Decode(p, i) == 0
    {
      SignKeepsDigits(d2, p, i);
    }
    forall k | 1 <= k <= 5
      ensures !Lit(p, Dot(k))
    {
      FieldsKeepDots(d1, d2, DISPLAY_SIZE, k);
      KeptLit(d2, p, [MINUS], Dot(k));
    }
    TextAgree(d, d1, d2, d2, 0);
  }

  /** After printNum the minus segment is lit exactly when the clamped value
      is below MIN_MINUS_NUM; the nine positions show NumText of the value
      left after the sign is taken off, which reads back as that value and
      carries the padding printNum writes; no decimal point is lit; and
      nothing outside the dot bits, the digit fields and the minus segment
      changes. */
  lemma {:induction false} PrintNumShows(d: seq<bv8>, num: int, precision: int)
    requires |d| == DATA_SIZE
    requires IsInt32(num) && PrecisionFits(precision) && Renderable(num)
    ensures var c := Clamp(num);
            var v := Magnitude(c);
            var r := ShowNum(d, num, precision);
            && Lit(r, MINUS) == ShowsMinus(c)
            && v == (if ShowsMinus(c) then -c else c) && 1 <= v <= MAX_NUM
            && (forall i :: 0 <= i < DISPLAY_SIZE ==> Decode(r, i) == Glyph(NumText(v, precision)[i]))
            && DecimalValue(NumText(v, precision)) == v
            && (forall k :: 1 <= k <= 5 ==> !Lit(r, Dot(k)))
            && Agree(d, r, Union(TextMask(), Footprint([MINUS])))
  {
    var c := Clamp(num);
    var p := Prepared(d, c);
    var r := ShowNum(d, num, precision);
    PreparedFacts(d, c);
    NumRendered(p, num, precision);
    NumTextReadsBack(Magnitude(c), precision);
    FieldMaskMisses(DISPLAY_SIZE, MINUS.pos, MINUS.mask);
    KeptLitOutside(p, r, FieldMask(DISPLAY_SIZE), MINUS);
    forall k | 1 <= k <= 5
      ensures !Lit(r, Dot(k))
    {
      FieldsKeepDots(p, r, DISPLAY_SIZE, k);
    }
    SignedTextAgree(d, LettersCleared(DotsCleared(d)), p, r);
  }

  /** The minus segment is not part of any digit field. */
  lemma {:induction false} SignKeepsDigits(a: seq<bv8>, b: seq<bv8>, i: nat)
    requires |a| == DATA_SIZE && i < DISPLAY_SIZE && Agree(a, b, Footprint([MINUS]))
    ensures Decode(b, i) == Decode(a, i)
  {
    var m := Footprint([MINUS]);
    SingleFootprint(MINUS, 14 - i);
    SingleFootprint(MINUS, 13 - i);
    AgreeAt(a, b, m, 14 - i);
    AgreeAt(a, b, m, 13 - i);
    HighBitOnly(a[14 - i], b[14 - i], m[14 - i]);
    HighBitOnly(a[13 - i], b[13 - i], m[13 - i]);
    DecodeReadsOnlyFields(a[14 - i], a[13 - i], b[14 - i], b[13 - i]);
  }

  /** printNum changes nothing outside TextMask and the minus segment. */
  lemma {:induction false} SignedTextAgree(d: seq<bv8>, d2: seq<bv8>, d3: seq<bv8>, r: seq<bv8>)
    requires |d| == DATA_SIZE
    requires Agree(d, d2, TextMask())
    requires Agree(d2, d3, Footprint([MINUS]))
    requires Agree(d3, r, FieldMask(DISPLAY_SIZE))
    ensures Agree(d, r, Union(TextMask(), Footprint([MINUS])))
  {
    var m := Union(TextMask(), Footprint([MINUS]));
    SignedMaskCovers();
    AgreeWiden(d, d2, TextMask(), m);
    AgreeWiden(d2, d3, Footprint([MINUS]), m);
    AgreeWiden(d3, r, FieldMask(DISPLAY_SIZE), m);
    AgreeTrans(d, d2, d3, m);
    AgreeTrans(d, d3, r, m);
  }

  /** The mask printNum may change covers its three parts. */
  lemma {:induction false} SignedMaskCovers()
    ensures var m := Union(TextMask(), Footprint([MINUS]));
            && (forall j :: 0 <= j < DATA_SIZE ==> TextMask()[j] & !m[j] == 0)
            && (forall j :: 0 <= j < DATA_SIZE ==> Footprint([MINUS])[j] & !m[j] == 0)
            && (forall j :: 0 <= j < DATA_SIZE ==> FieldMask(DISPLAY_SIZE)[j] & !m[j] == 0)
  {
    var m := Union(TextMask(), Footprint([MINUS]));
    UnionContains(TextMask(), Footprint([MINUS]));
    UnionContains(DotMask(PRECISION_MAX_POSITIVE), FieldMask(DISPLAY_SIZE));
    forall j | 0 <= j < DATA_SIZE
      ensures FieldMask(DISPLAY_SIZE)[j] & !m[j] == 0
    {
      KeepWiden(0, FieldMask(DISPLAY_SIZE)[j], TextMask()[j], m[j]);
    }
  }


  /** Precisions that name a decimal point. */
  predicate DotInRange(p: int) { PRECISION_MIN <= p <= PRECISION_MAX_POSITIVE }

  /** decimalSeparator(dpPosition): all points cleared, then point
      `dpPosition` lit when it is 1 .. 5; only dot bits change. */
  function WithDecimalDot(d: seq<bv8>, p: uint8): (r: seq<bv8>)
    requires |d| == DATA_SIZE
    ensures |r| == DATA_SIZE
    ensures forall k :: 1 <= k <= 5 ==> Lit(r, Dot(k)) == (k == p)
    ensures Agree(d, r, DotMask(PRECISION_MAX_POSITIVE))
  {
    var c := DotsCleared(d);
    DotsClearedFacts(d);
    if DotInRange(p) then
      DotStep(d, c, p);
      SetSeg(c, Dot(p))
    else c
  }

  /** Lighting one point on top of cleared points. */
  lemma {:induction false} DotStep(d: seq<bv8>, c: seq<bv8>, p: nat)
    requires |d| == DATA_SIZE && 1 <= p <= 5
    requires Agree(d, c, DotMask(PRECISION_MAX_POSITIVE))
    ensures Agree(d, SetSeg(c, Dot(p)), DotMask(PRECISION_MAX_POSITIVE))
    ensures Lit(SetSeg(c, Dot(p)), Dot(p))
    ensures forall k :: 1 <= k <= 5 && k != p ==> Lit(SetSeg(c, Dot(p)), Dot(k)) == Lit(c, Dot(k))
  {
    var m := DotMask(PRECISION_MAX_POSITIVE);
    DotMaskAtDot(p);
    SetSegWithin(c, Dot(p), m);
    AgreeTrans(d, c, SetSeg(c, Dot(p)), m);
    forall k | 1 <= k <= 5 && k != p
      ensures Lit(SetSeg(c, Dot(p)), Dot(k)) == Lit(c, Dot(k))
    {
      SetSegOthers(c, Dot(p), Dot(k));
    }
  }

  /** dateSeparator(a, b): all points cleared, then points `a` and `b` lit,
      but only when both are 1 .. 5; only dot bits change. */
  function WithDateDots(d: seq<bv8>, a: uint8, b: uint8): (r: seq<bv8>)
    requires |d| == DATA_SIZE
    ensures |r| == DATA_SIZE
    ensures forall k :: 1 <= k <= 5 ==>
      Lit(r, Dot(k)) == (DotInRange(a) && DotInRange(b) && (k == a || k == b))
    ensures Agree(d, r, DotMask(PRECISION_MAX_POSITIVE))
  {
    var c := DotsCleared(d);
    DotsClearedFacts(d);
    if DotInRange(a) && DotInRange(b) then
      var c1 := SetSeg(c, Dot(a));
      DotStep(d, c, a);
      DotStep(d, c1, b);
      SetSeg(c1, Dot(b))
    else c
  }

  /** Decimal points are not part of any digit field. */
  lemma {:induction false} DotsKeepDigits(a: seq<bv8>, b: seq<bv8>, i: nat)
    requires |a| == DATA_SIZE && i < DISPLAY_SIZE && Agree(a, b, DotMask(PRECISION_MAX_POSITIVE))
    ensures Decode(b, i) == Decode(a, i)
  {
    var m := DotMask(PRECISION_MAX_POSITIVE);
    AgreeAt(a, b, m, 14 - i);
    AgreeAt(a, b, m, 13 - i);
    HighBitOnly(a[14 - i], b[14 - i], m[14 - i]);
    HighBitOnly(a[13 - i], b[13 - i], m[13 - i]);
    DecodeReadsOnlyFields(a[14 - i], a[13 - i], b[14 - i], b[13 - i]);
  }

  lemma {:induction false} HighBitOnly(x: bv8, y: bv8, m: bv8)
    requires x & !m == y & !m && m & 0x7F == 0
    ensures x & 0x70 == y & 0x70 && x & 0x0F == y & 0x0F
  {
  }

  /** The string the `__STDC_WANT_LIB_EXT1__ == 1` build of printNum hands
      to BufferToAscii: `snprintf_s` writes `%9li` into `str` itself, over
      the padding, and the copy loop then overwrites the last
      DecimalLength(v) characters with the still-zero bytes of `strNum`. */
  function AnnexKNumString(v: int): (s: seq<bv8>)
    requires 1 <= v <= MAX_NUM
    ensures |s| == DISPLAY_SIZE + 1
  {
    NineDigits(v);
    var k := DecimalLength(v);
    RightAligned(v)[..9 - k] + seq(k, _ => 0) + [0]
  }

  /** printNum as the `__STDC_WANT_LIB_EXT1__ == 1` build writes it. */
  function ShowNumAnnexK(d: seq<bv8>, num: int): (r: seq<bv8>)
    requires |d| == DATA_SIZE
    requires IsInt32(num) && Renderable(num)
    ensures |r| == DATA_SIZE
  {
    Rendered(Prepared(d, Clamp(num)), AnnexKNumString(Magnitude(Clamp(num))))
  }

  /** In that build the string ends right after the blanks `%9li` put in
      front of the digits, so every position is blank and the value is lost
      (only the minus segment is left); the default build shows a digit in
      the last position. */
  lemma {:induction false} AnnexKPrintNumShowsNothing(d: seq<bv8>, num: int, precision: int)
    requires |d| == DATA_SIZE
    requires IsInt32(num) && PrecisionFits(precision) && Renderable(num)
    ensures var v := Magnitude(Clamp(num));
            StrLen(AnnexKNumString(v)) == 9 - DecimalLength(v)
    ensures forall i :: 0 <= i < DISPLAY_SIZE ==> Decode(ShowNumAnnexK(d, num), i) == 0
    ensures Lit(ShowNumAnnexK(d, num), MINUS) == ShowsMinus(Clamp(num))
    ensures Decode(ShowNum(d, num, precision), DISPLAY_SIZE - 1) != 0
  {
    var c := Clamp(num);
    var v := Magnitude(c);
    var p := Prepared(d, c);
    var r := ShowNumAnnexK(d, num);
    AnnexKStringEndsEarly(v);
    PreparedFacts(d, c);
    BlanksRendered(p, AnnexKNumString(v));
    FieldMaskMisses(DISPLAY_SIZE, MINUS.pos, MINUS.mask);
    KeptLitOutside(p, r, FieldMask(DISPLAY_SIZE), MINUS);
    LastDigitShown(d, num, precision);
  }

  /** The Annex K string is NUL-terminated right after its blanks. */
  lemma {:induction false} AnnexKStringEndsEarly(v: int)
    requires 1 <= v <= MAX_NUM
    ensures DecimalLength(v) <= 9
    ensures StrLen(AnnexKNumString(v)) == 9 - DecimalLength(v)
    ensures forall i :: 0 <= i < StrLen(AnnexKNumString(v)) ==> AnnexKNumString(v)[i] == SPACE
  {
    NineDigits(v);
    var k := DecimalLength(v);
    var s := AnnexKNumString(v);
    RightAlignedBlanks(v);
    assert forall i :: 0 <= i < 9 - k ==> s[i] == SPACE;
    assert s[9 - k] == 0;
  }

  /** Rendering blanks onto blank positions leaves every position blank, and
      only the digit fields can change. */
  lemma {:induction false} BlanksRendered(p: seq<bv8>, s: seq<bv8>)
    requires |p| == DATA_SIZE
    requires forall i :: 0 <= i < DISPLAY_SIZE ==> Decode(p, i) == 0
    requires forall i :: 0 <= i < StrLen(s) ==> s[i] == SPACE
    ensures forall i :: 0 <= i < DISPLAY_SIZE ==> Decode(Rendered(p, s), i) == 0
    ensures Agree(p, Rendered(p, s), FieldMask(DISPLAY_SIZE))
  {
    var n := Shown(s);
    forall i | 0 <= i < DISPLAY_SIZE
      ensures Decode(Rendered(p, s), i) == 0
    {
      RenderedDecode(p, s, n, i);
      if i < n {
        BlankGlyph(Decode(p, i));
      }
    }
    RenderedAgree(p, s, n);
  }

  /** `%9li` puts blanks in front of the digits. */
  lemma {:induction false} RightAlignedBlanks(v: int)
    requires 1 <= v <= MAX_NUM
    ensures DecimalLength(v) <= 9
    ensures forall i :: 0 <= i < 9 - DecimalLength(v) ==> RightAligned(v)[i] == SPACE
  {
    NineDigits(v);
  }

  /** printNum shows a digit, never a blank, in its last position. */
  lemma {:induction false} LastDigitShown(d: seq<bv8>, num: int, precision: int)
    requires |d| == DATA_SIZE
    requires IsInt32(num) && PrecisionFits(precision) && Renderable(num)
    ensures Decode(ShowNum(d, num, precision), DISPLAY_SIZE - 1) != 0
  {
    var v := Magnitude(Clamp(num));
    PrintNumShows(d, num, precision);
    NineDigits(v);
    var t := NumText(v, precision);
    var ds := Digits(v);
    assert t[8] == ds[|ds| - 1];
    DigitGlyphsDiffer(t[8] - ZERO, 0);
    assert ZERO + (t[8] - ZERO) == t[8];
  }

  /** CN91C4S96printFixed(multiplied_float, multiplier). */
  function ShowFixed(d: seq<bv8>, multipliedFloat: int, multiplier: int): (r: seq<bv8>)
    requires |d| == DATA_SIZE
    requires IsInt32(multipliedFloat) && IsUint32(multiplier) && Renderable(multipliedFloat)
    ensures |r| == DATA_SIZE
  {
    var p := Precision(multiplier);
    WithDecimalDot(ShowNum(d, Clamp(multipliedFloat), p), p)
  }

  /** After printFixed the digits and the sign are those printNum shows for
      the clamped value at the precision the multiplier selects, and the
      decimal point of that precision is the only one lit: none when the
      multiplier is not 10 .. 100000. */
  lemma {:induction false} PrintFixedShows(d: seq<bv8>, multipliedFloat: int, multiplier: int)
    requires |d| == DATA_SIZE
    requires IsInt32(multipliedFloat) && IsUint32(multiplier) && Renderable(multipliedFloat)
    ensures var p := Precision(multiplier);
            var r := ShowFixed(d, multipliedFloat, multiplier);
            var n := ShowNum(d, multipliedFloat, p);
            && (forall i :: 0 <= i < DISPLAY_SIZE ==> Decode(r, i) == Decode(n, i))
            && Lit(r, MINUS) == ShowsMinus(Clamp(multipliedFloat))
            && (forall k :: 1 <= k <= 5 ==> Lit(r, Dot(k)) == (k == p))
            && Agree(d, r, Union(TextMask(), Footprint([MINUS])))
  {
    var p := Precision(multiplier);
    var c := Clamp(multipliedFloat);
    assert Clamp(c) == c;
    var n := ShowNum(d, c, p);
    var r := WithDecimalDot(n, p);
    PrintNumShows(d, multipliedFloat, p);
    forall i | 0 <= i < DISPLAY_SIZE
      ensures Decode(r, i) == Decode(n, i)
    {
      DotsKeepDigits(n, r, i);
    }
    DotMaskMisses(MINUS.pos, MINUS.mask);
    KeptLitOutside(n, r, DotMask(PRECISION_MAX_POSITIVE), MINUS);
    FixedKeepsRest(d, n, r);
  }

  /** The decimal point written after printNum stays inside printNum's own
      frame: the digit fields, the points and the minus. */
  lemma {:induction false} FixedKeepsRest(d: seq<bv8>, n: seq<bv8>, r: seq<bv8>)
    requires |d| == DATA_SIZE && |n| == DATA_SIZE
    requires Agree(d, n, Union(TextMask(), Footprint([MINUS])))
    requires Agree(n, r, DotMask(PRECISION_MAX_POSITIVE))
    ensures Agree(d, r, Union(TextMask(), Footprint([MINUS])))
  {
    var m := Union(TextMask(), Footprint([MINUS]));
    SignedMaskCovers();
    UnionContains(DotMask(PRECISION_MAX_POSITIVE), FieldMask(DISPLAY_SIZE));
    AgreeWiden(n, r, DotMask(PRECISION_MAX_POSITIVE), TextMask());
    AgreeWiden(n, r, TextMask(), m);
    AgreeTrans(d, n, r, m);
  }

  /** CN91C4S96printDate(day, mon, year): render "   DDMMYY" without
      clearing first, then dateSeparator(2, 4). */
  function ShowDate(d: seq<bv8>, day: int, mon: int, year: int): (r: seq<bv8>)
    requires |d| == DATA_SIZE
    requires DateField(day) && DateField(mon) && DateField(year)
    ensures |r| == DATA_SIZE
  {
    WithDateDots(Rendered(d, DateText(day, mon, year) + [0]), 2, 4)
  }

  /** Rendering the date text: every position or-s its character's glyph
      onto what it showed, and only the digit fields change. */
  lemma {:induction false} DateRendered(d: seq<bv8>, day: int, mon: int, year: int)
    requires |d| == DATA_SIZE
    requires DateField(day) && DateField(mon) && DateField(year)
    ensures var t := DateText(day, mon, year);
            var n := Rendered(d, t + [0]);
            && (forall i :: 0 <= i < DISPLAY_SIZE ==> Decode(n, i) == Decode(d, i) | Glyph(t[i]))
            && Agree(d, n, FieldMask(DISPLAY_SIZE))
  {
    var t := DateText(day, mon, year);
    var s := t + [0];
    DateTextRoundTrip(day, mon, year);
    AllShown(t);
    forall i | 0 <= i < DISPLAY_SIZE
      ensures Decode(Rendered(d, s), i) == Decode(d, i) | Glyph(t[i])
    {
      RenderedDecode(d, s, DISPLAY_SIZE, i);
    }
    RenderedAgree(d, s, DISPLAY_SIZE);
  }

  /** After printDate each position shows what it showed before or-ed with
      its character of "   DDMMYY": the three leading positions keep what
      was there, and a position that was blank shows its digit.  Points 2
      and 4 are the only ones lit, and nothing outside the dot bits and the
      digit fields changes. */
  lemma {:induction false} PrintDateShows(d: seq<bv8>, day: int, mon: int, year: int)
    requires |d| == DATA_SIZE
    requires DateField(day) && DateField(mon) && DateField(year)
    ensures var r := ShowDate(d, day, mon, year);
            var t := DateText(day, mon, year);
            && (forall i :: 0 <= i < DISPLAY_SIZE ==> Decode(r, i) == Decode(d, i) | Glyph(t[i]))
            && (forall i :: 0 <= i < 3 ==> Decode(r, i) == Decode(d, i))
            && (forall i :: 0 <= i < DISPLAY_SIZE && Decode(d, i) == 0 ==> Decode(r, i) == Glyph(t[i]))
            && (forall k :: 1 <= k <= 5 ==> Lit(r, Dot(k)) == (k == 2 || k == 4))
            && Agree(d, r, TextMask())
  {
    var t := DateText(day, mon, year);
    var r := ShowDate(d, day, mon, year);
    DateDigits(d, day, mon, year);
    forall i | 0 <= i < 3
      ensures Decode(r, i) == Decode(d, i)
    {
      DateLeadingBlanks(day, mon, year, i);
      BlankGlyph(Decode(d, i));
    }
    forall i | 0 <= i < DISPLAY_SIZE && Decode(d, i) == 0
      ensures Decode(r, i) == Glyph(t[i])
    {
      OrOntoBlank(Glyph(t[i]));
    }
    DateKeepsRest(d, day, mon, year);
  }

  /** The first three characters of the date text are blanks. */
  lemma {:induction false} DateLeadingBlanks(day: int, mon: int, year: int, i: nat)
    requires DateField(day) && DateField(mon) && DateField(year) && i < 3
    ensures DateText(day, mon, year)[i] == SPACE
  {
    DateTextRoundTrip(day, mon, year);
    assert DateText(day, mon, year)[i] == DateText(day, mon, year)[..3][i];
  }

  /** PrintDate ors each character's glyph onto what its position showed. */
  lemma {:induction false} DateDigits(d: seq<bv8>, day: int, mon: int, year: int)
    requires |d| == DATA_SIZE
    requires DateField(day) && DateField(mon) && DateField(year)
    ensures forall i :: 0 <= i < DISPLAY_SIZE ==>
              Decode(ShowDate(d, day, mon, year), i) == Decode(d, i) | Glyph(DateText(day, mon, year)[i])
  {
    var t := DateText(day, mon, year);
    var n := Rendered(d, t + [0]);
    var r := ShowDate(d, day, mon, year);
    DateRendered(d, day, mon, year);
    forall i | 0 <= i < DISPLAY_SIZE
      ensures Decode(r, i) == Decode(n, i)
    {
      DotsKeepDigits(n, r, i);
    }
  }

  /** PrintDate changes nothing outside the digit fields and the dots. */
  lemma {:induction false} DateKeepsRest(d: seq<bv8>, day: int, mon: int, year: int)
    requires |d| == DATA_SIZE
    requires DateField(day) && DateField(mon) && DateField(year)
    ensures Agree(d, ShowDate(d, day, mon, year), TextMask())
  {
    var n := Rendered(d, DateText(day, mon, year) + [0]);
    var r := ShowDate(d, day, mon, year);
    var m := TextMask();
    DateRendered(d, day, mon, year);
    UnionContains(DotMask(PRECISION_MAX_POSITIVE), FieldMask(DISPLAY_SIZE));
    AgreeWiden(d, n, FieldMask(DISPLAY_SIZE), m);
    AgreeWiden(n, r, DotMask(PRECISION_MAX_POSITIVE), m);
    AgreeTrans(d, n, r, m);
  }


  /** A blank or-ed onto a glyph leaves it as it is. */
  lemma {:induction false} BlankGlyph(g: bv8)
    ensures g | Glyph(SPACE) == g
  {
    assert Glyph(SPACE) == ASCII[0] == 0;
  }

  lemma {:induction false} OrOntoBlank(g: bv8)
    ensures 0 | g == g
  {
  }
}
