/** Pure description of what the encoder routines do to the 16-byte data
    view: the digit fields of the nine character positions, the five decimal
    points, and the character renderer BufferToAscii.

    Character position i (0 = leftmost) owns bits 4-6 of byte 14 - i and
    bits 0-3 of byte 13 - i, so neighbouring positions share a byte. */
module Frame {
  import opened Segments
  import opened Glyphs

  /** Bits of byte j that belong to the digit fields of positions 0 .. k-1. */
  function FieldMaskAt(k: nat, j: int): bv8
  {
    (if 6 <= j <= 14 && 14 - j < k then 0x70 else 0) |
    (if 5 <= j <= 13 && 13 - j < k then 0x0F else 0)
  }

  function FieldMask(k: nat): (m: seq<bv8>)
    ensures |m| == DATA_SIZE
  {
    seq(DATA_SIZE, j => FieldMaskAt(k, j))
  }

  /** Bits of byte j that belong to the first k decimal points (bit 7 of
      bytes 6 .. 5 + k). */
  function DotMaskAt(k: nat, j: int): bv8
  {
    if 6 <= j < 6 + k then 0x80 else 0
  }

  function DotMask(k: nat): (m: seq<bv8>)
    ensures |m| == DATA_SIZE
  {
    seq(DATA_SIZE, j => DotMaskAt(k, j))
  }

  /** The glyph that position i currently shows. */
  function Decode(d: seq<bv8>, i: nat): bv8
    requires |d| == DATA_SIZE && i < DISPLAY_SIZE
  {
    DecodeFields(d[14 - i], d[13 - i])
  }

  /** Length of a NUL-terminated string. */
  function StrLen(s: seq<bv8>): (n: nat)
    ensures n <= |s|
    ensures forall i :: 0 <= i < n ==> s[i] != 0
    ensures n < |s| ==> s[n] == 0
  {
    if s == [] || s[0] == 0 then 0 else 1 + StrLen(s[1..])
  }

  /** Number of characters BufferToAscii renders: MIN(DISPLAY_SIZE, strlen). */
  function Shown(s: seq<bv8>): (n: nat)
    ensures n <= DISPLAY_SIZE && n <= |s|
  {
    if StrLen(s) < DISPLAY_SIZE then StrLen(s) else DISPLAY_SIZE
  }

  /** Upper field of one position after rendering character c onto byte b. */
  function High(b: bv8, c: bv8): bv8
  {
    if Displayable(c) then SetBits(b, UpperBits(Glyph(c))) else ClearBits(b, 0x70)
  }

  /** Lower field of one position after rendering character c onto byte b. */
  function Low(b: bv8, c: bv8): bv8
  {
    if Displayable(c) then SetBits(b, LowerBits(Glyph(c))) else ClearBits(b, 0x0F)
  }

  /** The data view after BufferToAscii has handled positions 0 .. k-1 of s.
      Byte j first receives the lower field of position 13 - j, then the
      upper field of position 14 - j, the order in which the loop reaches
      them. */
  function RenderedUpTo(d: seq<bv8>, s: seq<bv8>, k: nat): (r: seq<bv8>)
    requires |d| == DATA_SIZE && k <= DISPLAY_SIZE && k <= |s|
    ensures |r| == DATA_SIZE
  {
    seq(DATA_SIZE, j requires 0 <= j < DATA_SIZE =>
      var lowOn := 5 <= j <= 13 && 13 - j < k;
      var highOn := 6 <= j <= 14 && 14 - j < k;
      RenderByte(d[j], lowOn, if lowOn then s[13 - j] else 0, highOn, if highOn then s[14 - j] else 0))
  }

  /** One byte after its lower field (if lowOn) and then its upper field (if
      highOn) are rendered from characters cl and ch. */
  function RenderByte(b: bv8, lowOn: bool, cl: bv8, highOn: bool, ch: bv8): bv8
  {
    var b1 := if lowOn then Low(b, cl) else b;
    if highOn then High(b1, ch) else b1
  }

  /** The data view after BufferToAscii(s). */
  function Rendered(d: seq<bv8>, s: seq<bv8>): (r: seq<bv8>)
    requires |d| == DATA_SIZE
    ensures |r| == DATA_SIZE
  {
    RenderedUpTo(d, s, Shown(s))
  }

  /** Or-ing bits inside a mask, or clearing the mask, keeps the rest. */
  lemma {:induction false} OrInside(b: bv8, x: bv8, m: bv8)
    requires x & !m == 0
    ensures (b | x) & !m == b & !m
    ensures (b | x) & m == (b & m) | x
    ensures ClearBits(b, m) & !m == b & !m && ClearBits(b, m) & m == 0
  {
  }

  /** The lower field after rendering c, and what Low keeps. */
  lemma {:induction false} LowFacts(b: bv8, c: bv8)
    ensures Low(b, c) & !0x0F == b & !0x0F
    ensures Low(b, c) & 0x0F == if Displayable(c) then (b & 0x0F) | LowerBits(Glyph(c)) else 0
  {
    var g := Glyph(c);
    SplitRoundTrip(g);
    OrInside(b, LowerBits(g), 0x0F);
  }

  /** The upper field after rendering c, and what High keeps. */
  lemma {:induction false} HighFacts(b: bv8, c: bv8)
    ensures High(b, c) & !0x70 == b & !0x70
    ensures High(b, c) & 0x70 == if Displayable(c) then (b & 0x70) | UpperBits(Glyph(c)) else 0
  {
    var g := Glyph(c);
    SplitRoundTrip(g);
    OrInside(b, UpperBits(g), 0x70);
  }

  /** Bytes b and b' hold the same bits outside mask m. */
  predicate KeptOutside(b: bv8, b': bv8, m: bv8)
  {
    b & !m == b' & !m
  }

  /** Drawing one or both fields of a byte leaves the bits outside the drawn
      fields alone. */
  lemma {:induction false} ByteKeeps(b: bv8, lowOn: bool, cl: bv8, highOn: bool, ch: bv8)
    ensures var b2 := RenderByte(b, lowOn, cl, highOn, ch);
            KeptOutside(b, b2, (if highOn then 0x70 else 0) | (if lowOn then 0x0F else 0))
  {
    var b1 := if lowOn then Low(b, cl) else b;
    var b2 := if highOn then High(b1, ch) else b1;
    var ml: bv8 := if lowOn then 0x0F else 0;
    var mh: bv8 := if highOn then 0x70 else 0;
    if lowOn {
      LowFacts(b, cl);
    }
    if highOn {
      HighFacts(b1, ch);
    }
    KeepWiden(b1, b, ml, mh | ml);
    KeepWiden(b2, b1, mh, mh | ml);
  }

  /** What the two fields of a byte hold once one or both of them are drawn. */
  lemma {:induction false} ByteFields(b: bv8, lowOn: bool, cl: bv8, highOn: bool, ch: bv8)
    ensures var b2 := RenderByte(b, lowOn, cl, highOn, ch);
            && b2 & 0x70 == (if !highOn then b & 0x70
                             else if Displayable(ch) then (b & 0x70) | UpperBits(Glyph(ch))
                             else 0)
            && b2 & 0x0F == (if !lowOn then b & 0x0F
                             else if Displayable(cl) then (b & 0x0F) | LowerBits(Glyph(cl))
                             else 0)
  {
    var b1 := if lowOn then Low(b, cl) else b;
    var b2 := if highOn then High(b1, ch) else b1;
    if lowOn {
      LowFacts(b, cl);
      KeepWiden(b1, b, 0x0F, !0x70);
    }
    if highOn {
      HighFacts(b1, ch);
      KeepWiden(b2, b1, 0x70, !0x0F);
    }
  }

  lemma {:induction false} RenderedByte(d: seq<bv8>, s: seq<bv8>, k: nat, j: nat)
    requires |d| == DATA_SIZE && k <= DISPLAY_SIZE && k <= |s| && j < DATA_SIZE
    ensures var lowOn := 5 <= j <= 13 && 13 - j < k;
            var highOn := 6 <= j <= 14 && 14 - j < k;
            RenderedUpTo(d, s, k)[j] == RenderByte(d[j], lowOn, if lowOn then s[13 - j] else 0, highOn, if highOn then s[14 - j] else 0)
  {
  }

  /** The two fields of position i after rendering. */
  lemma {:induction false} RenderedFields(d: seq<bv8>, s: seq<bv8>, k: nat, i: nat)
    requires |d| == DATA_SIZE && k <= DISPLAY_SIZE && k <= |s| && i < DISPLAY_SIZE
    ensures var r := RenderedUpTo(d, s, k);
            && r[14 - i] & 0x70 == (if i >= k then d[14 - i] & 0x70
                                    else if Displayable(s[i]) then (d[14 - i] & 0x70) | UpperBits(Glyph(s[i]))
                                    else 0)
            && r[13 - i] & 0x0F == (if i >= k then d[13 - i] & 0x0F
                                    else if Displayable(s[i]) then (d[13 - i] & 0x0F) | LowerBits(Glyph(s[i]))
                                    else 0)
  {
    var ju, jl := 14 - i, 13 - i;
    RenderedByte(d, s, k, ju);
    var lowU := 5 <= ju <= 13 && 13 - ju < k;
    ByteFields(d[ju], lowU, if lowU then s[13 - ju] else 0, i < k, if i < k then s[i] else 0);
    RenderedByte(d, s, k, jl);
    var highL := 6 <= jl && 14 - jl < k;
    ByteFields(d[jl], i < k, if i < k then s[i] else 0, highL, if highL then s[14 - jl] else 0);
  }

  /** What position i shows after rendering: a displayable character is or-ed
      onto what was there, any other character blanks the position, and the
      positions past the string are left alone. */
  lemma {:induction false} RenderedDecode(d: seq<bv8>, s: seq<bv8>, k: nat, i: nat)
    requires |d| == DATA_SIZE && k <= DISPLAY_SIZE && k <= |s| && i < DISPLAY_SIZE
    ensures Decode(RenderedUpTo(d, s, k), i) ==
      if i >= k then Decode(d, i)
      else if Displayable(s[i]) then Decode(d, i) | Glyph(s[i])
      else 0
  {
    var r := RenderedUpTo(d, s, k);
    var u, l := r[14 - i] & 0x70, r[13 - i] & 0x0F;
    RenderedFields(d, s, k, i);
    DecodeReadsOnlyFields(r[14 - i], r[13 - i], u, l);
    var du, dl := d[14 - i] & 0x70, d[13 - i] & 0x0F;
    DecodeReadsOnlyFields(d[14 - i], d[13 - i], du, dl);
    if i < k && Displayable(s[i]) {
      DecodeOfOr(du, dl, Glyph(s[i]));
    }
  }

  /** Rendering changes only the digit fields of the positions it renders. */
  lemma {:induction false} RenderedAgree(d: seq<bv8>, s: seq<bv8>, k: nat)
    requires |d| == DATA_SIZE && k <= DISPLAY_SIZE && k <= |s|
    ensures Agree(d, RenderedUpTo(d, s, k), FieldMask(k))
  {
    forall j | 0 <= j < DATA_SIZE
      ensures d[j] & !FieldMask(k)[j] == RenderedUpTo(d, s, k)[j] & !FieldMask(k)[j]
    {
      RenderedKeeps(d, s, k, j);
    }
  }

  /** One byte of RenderedAgree. */
  lemma {:induction false} RenderedKeeps(d: seq<bv8>, s: seq<bv8>, k: nat, j: nat)
    requires |d| == DATA_SIZE && k <= DISPLAY_SIZE && k <= |s| && j < DATA_SIZE
    ensures KeptOutside(d[j], RenderedUpTo(d, s, k)[j], FieldMaskAt(k, j))
  {
    var lowOn := 5 <= j <= 13 && 13 - j < k;
    var highOn := 6 <= j <= 14 && 14 - j < k;
    var cl: bv8, ch: bv8 := if lowOn then s[13 - j] else 0, if highOn then s[14 - j] else 0;
    var m: bv8 := (if highOn then 0x70 else 0) | (if lowOn then 0x0F else 0);
    assert FieldMaskAt(k, j) == m;
    RenderedByte(d, s, k, j);
    assert RenderedUpTo(d, s, k)[j] == RenderByte(d[j], lowOn, cl, highOn, ch);
    ByteKeeps(d[j], lowOn, cl, highOn, ch);
  }


  /** With every digit field cleared, every position shows blank. */
  lemma {:induction false} ClearedDecode(d: seq<bv8>, i: nat)
    requires |d| == DATA_SIZE && i < DISPLAY_SIZE
    ensures Decode(ClearMask(d, FieldMask(DISPLAY_SIZE)), i) == 0
  {
    var c := ClearMask(d, FieldMask(DISPLAY_SIZE));
    assert c[14 - i] & 0x70 == 0 && c[13 - i] & 0x0F == 0;
    DecodeReadsOnlyFields(c[14 - i], c[13 - i], 0, 0);
  }

  /** The digit fields never include bit 7, so no decimal point, minus or
      other bit-7 symbol lies in them. */
  lemma {:induction false} FieldMaskMisses(k: nat, j: nat, bits: bv8)
    requires j < DATA_SIZE && bits & 0x7F == 0
    ensures FieldMask(k)[j] & bits == 0
  {
  }

  /** The decimal points are bit 7 only. */
  lemma {:induction false} DotMaskMisses(j: nat, bits: bv8)
    requires j < DATA_SIZE && (j < 6 || j > 10 || bits & 0x80 == 0)
    ensures DotMask(5)[j] & bits == 0
  {
  }

  /** The fields of fewer positions lie inside the fields of more. */
  lemma {:induction false} FieldMaskGrows(k: nat, n: nat, j: nat)
    requires k <= n && j < DATA_SIZE
    ensures FieldMask(k)[j] & !FieldMask(n)[j] == 0
  {
  }

  /** One turn of the dotsBufferClear loop: clearing point i + 1 (byte
      6 + i, bit 7) on top of the first i points clears the first i + 1. */
  lemma {:induction false} DotsStep(d: seq<bv8>, i: nat)
    requires |d| == DATA_SIZE && i < 5
    ensures ClearSeg(ClearMask(d, DotMask(i)), Segment(6 + i, 0x80)) == ClearMask(d, DotMask(i + 1))
  {
    var a := ClearSeg(ClearMask(d, DotMask(i)), Segment(6 + i, 0x80));
    var b := ClearMask(d, DotMask(i + 1));
    forall j | 0 <= j < DATA_SIZE
      ensures a[j] == b[j]
    {
      if j == 6 + i {
        ClearTwice(d[j], 0, 0x80);
      }
    }
  }

  /** One turn of the lettersBufferClear loop: clearing the upper field of
      position i (byte 14 - i, mask 0x70) and then its lower field (byte
      13 - i, mask 0x0F) on top of the fields of positions 0 .. i - 1
      clears the fields of positions 0 .. i. */
  lemma {:induction false} LettersStep(d: seq<bv8>, i: nat)
    requires |d| == DATA_SIZE && i < DISPLAY_SIZE
    ensures ClearSeg(ClearSeg(ClearMask(d, FieldMask(i)), Segment(14 - i, 0x70)), Segment(13 - i, 0x0F))
         == ClearMask(d, FieldMask(i + 1))
  {
    var a := ClearSeg(ClearSeg(ClearMask(d, FieldMask(i)), Segment(14 - i, 0x70)), Segment(13 - i, 0x0F));
    var b := ClearMask(d, FieldMask(i + 1));
    forall j | 0 <= j < DATA_SIZE
      ensures a[j] == b[j]
    {
      if j == 14 - i {
        ClearTwice(d[j], FieldMask(i)[j], 0x70);
        assert FieldMask(i + 1)[j] == FieldMask(i)[j] | 0x70;
      } else if j == 13 - i {
        ClearTwice(d[j], FieldMask(i)[j], 0x0F);
        assert FieldMask(i)[j] == 0 && FieldMask(i + 1)[j] == 0x0F;
      } else {
        assert FieldMask(i + 1)[j] == FieldMask(i)[j];
      }
    }
  }

  /** The three SET_BITs that write glyph g at position i: its upper bits
      into byte 14 - i, then the shifted segments A-C and the masked
      segment D into byte 13 - i. */
  function PutGlyph(d: seq<bv8>, i: nat, g: bv8): (r: seq<bv8>)
    requires |d| == DATA_SIZE && i < DISPLAY_SIZE
    ensures |r| == DATA_SIZE
  {
    SetSeg(SetSeg(SetSeg(d, Segment(14 - i, 0x70 & (g << 4))),
                  Segment(13 - i, 0x0F & (g >> 4))),
           Segment(13 - i, 0x0F & g & 0x08))
  }

  /** PutGlyph sets the glyph's upper bits in byte 14 - i and its lower
      bits in byte 13 - i, and touches no other byte. */
  lemma {:induction false} PutGlyphBytes(d: seq<bv8>, i: nat, g: bv8)
    requires |d| == DATA_SIZE && i < DISPLAY_SIZE
    ensures PutGlyph(d, i, g)[14 - i] == SetBits(d[14 - i], UpperBits(g))
    ensures PutGlyph(d, i, g)[13 - i] == SetBits(d[13 - i], LowerBits(g))
    ensures forall j :: 0 <= j < DATA_SIZE && j != 14 - i && j != 13 - i ==> PutGlyph(d, i, g)[j] == d[j]
  {
    SetTwice(d[13 - i], 0x0F & (g >> 4), 0x0F & g & 0x08);
  }

  /** What one turn of the BufferToAscii loop does to position i: a
      character without a glyph clears both fields, any other character has
      its glyph put there. */
  function RenderChar(d: seq<bv8>, i: nat, c: bv8): (r: seq<bv8>)
    requires |d| == DATA_SIZE && i < DISPLAY_SIZE
    ensures |r| == DATA_SIZE
  {
    if !Displayable(c) then
      ClearSeg(ClearSeg(d, Segment(14 - i, 0x70)), Segment(13 - i, 0x0F))
    else
      PutGlyph(d, i, Glyph(c))
  }

  /** One turn of the BufferToAscii loop takes the view rendered up to
      position i to the view rendered up to position i + 1. */
  lemma {:induction false} RenderStep(d: seq<bv8>, s: seq<bv8>, i: nat)
    requires |d| == DATA_SIZE && i < DISPLAY_SIZE && i < |s|
    ensures RenderChar(RenderedUpTo(d, s, i), i, s[i]) == RenderedUpTo(d, s, i + 1)
  {
    var a := RenderChar(RenderedUpTo(d, s, i), i, s[i]);
    var b := RenderedUpTo(d, s, i + 1);
    forall j | 0 <= j < DATA_SIZE
      ensures a[j] == b[j]
    {
      RenderStepByte(d, s, i, j);
    }
  }

  lemma {:induction false} RenderStepByte(d: seq<bv8>, s: seq<bv8>, i: nat, j: nat)
    requires |d| == DATA_SIZE && i < DISPLAY_SIZE && i < |s| && j < DATA_SIZE
    ensures RenderChar(RenderedUpTo(d, s, i), i, s[i])[j] == RenderedUpTo(d, s, i + 1)[j]
  {
    if j == 13 - i {
      RenderStepLower(d, s, i);
    } else if j == 14 - i {
      RenderStepUpper(d, s, i);
    } else {
      RenderStepElsewhere(d, s, i, j);
    }
  }

  /** The lower field of position i. */
  lemma {:induction false} RenderStepLower(d: seq<bv8>, s: seq<bv8>, i: nat)
    requires |d| == DATA_SIZE && i < DISPLAY_SIZE && i < |s|
    ensures RenderChar(RenderedUpTo(d, s, i), i, s[i])[13 - i] == RenderedUpTo(d, s, i + 1)[13 - i]
  {
    var p := RenderedUpTo(d, s, i);
    var j := 13 - i;
    RenderedByte(d, s, i, j);
    RenderedByte(d, s, i + 1, j);
    RenderCharLower(p, i, s[i]);
  }

  lemma {:induction false} RenderCharLower(p: seq<bv8>, i: nat, c: bv8)
    requires |p| == DATA_SIZE && i < DISPLAY_SIZE
    ensures RenderChar(p, i, c)[13 - i] == Low(p[13 - i], c)
  {
    PutGlyphBytes(p, i, Glyph(c));
  }

  /** The upper field of position i. */
  lemma {:induction false} RenderStepUpper(d: seq<bv8>, s: seq<bv8>, i: nat)
    requires |d| == DATA_SIZE && i < DISPLAY_SIZE && i < |s|
    ensures RenderChar(RenderedUpTo(d, s, i), i, s[i])[14 - i] == RenderedUpTo(d, s, i + 1)[14 - i]
  {
    var p := RenderedUpTo(d, s, i);
    var j := 14 - i;
    RenderedByte(d, s, i, j);
    RenderedByte(d, s, i + 1, j);
    PutGlyphBytes(p, i, Glyph(s[i]));
  }

  /** Every other byte. */
  lemma {:induction false} RenderStepElsewhere(d: seq<bv8>, s: seq<bv8>, i: nat, j: nat)
    requires |d| == DATA_SIZE && i < DISPLAY_SIZE && i < |s| && j < DATA_SIZE && j != 13 - i && j != 14 - i
    ensures RenderChar(RenderedUpTo(d, s, i), i, s[i])[j] == RenderedUpTo(d, s, i + 1)[j]
  {
    var p := RenderedUpTo(d, s, i);
    RenderedByte(d, s, i, j);
    RenderedByte(d, s, i + 1, j);
    PutGlyphBytes(p, i, Glyph(s[i]));
  }
}
