/** The glyph table and the way one 7-bit glyph is split across the two
    bytes that hold a digit position.  Bits 0-2 of a glyph go to bits 4-6 of
    the digit's upper byte (segments F, G, E); bits 4-6 go to bits 0-2 of its
    lower byte and bit 3 (segment D) stays bit 3 of the lower byte. */
module Glyphs {

  const SPACE: bv8 := 0x20
  const ZERO: bv8 := 0x30

  /** Segment patterns for the characters 0x20 .. 0x7F, indexed by `c - ' '`:
      one row of sixteen per high nibble 2 .. 7, and the lower-case letters
      repeat the upper-case ones. */
  const ROW2: seq<bv8> := [0x00, 0x00, 0x00, 0x00, 0x00, 0x00, 0x00, 0x00, 0x00, 0x00, 0x00, 0x00, 0x00, 0x02, 0x00, 0x00]
  const ROW3: seq<bv8> := [0x7D, 0x60, 0x3e, 0x7a, 0x63, 0x5b, 0x5f, 0x70, 0x7f, 0x7b, 0x00, 0x00, 0x00, 0x00, 0x00, 0x00]
  const ROW4: seq<bv8> := [0x00, 0x77, 0x4f, 0x1d, 0x6e, 0x1f, 0x17, 0x5d, 0x47, 0x05, 0x68, 0x27, 0x0d, 0x54, 0x75, 0x4e]
  const ROW5: seq<bv8> := [0x37, 0x73, 0x06, 0x59, 0x0f, 0x6d, 0x23, 0x29, 0x67, 0x6b, 0x3c, 0x00, 0x00, 0x00, 0x00, 0x08]
  const ROW6: seq<bv8> := [0x00, 0x77, 0x4f, 0x1d, 0x6e, 0x1f, 0x17, 0x5d, 0x47, 0x05, 0x68, 0x27, 0x0d, 0x54, 0x75, 0x4e]
  const ROW7: seq<bv8> := [0x37, 0x73, 0x06, 0x59, 0x0f, 0x6d, 0x23, 0x29, 0x67, 0x6b, 0x3c, 0x00, 0x00, 0x00, 0x00, 0x00]
  const ASCII: seq<bv8> := ROW2 + ROW3 + ROW4 + ROW5 + ROW6 + ROW7

  /** A character has a table entry when it lies in 0x20 .. 0x7F, that is,
      when neither `c < ' '` nor `c - ' ' >= sizeof(ascii)`. */
  predicate Displayable(c: bv8)
  {
    SPACE <= c && (c - SPACE) as int < |ASCII|
  }

  /** The pattern shown for a character: entry `c - ' '` of the table, or
      blank. */
  function Glyph(c: bv8): (g: bv8)
    ensures g < 0x80
    ensures !Displayable(c) ==> g == 0
  {
    if Displayable(c) then ASCII[(c - SPACE) as int] else 0
  }

  /** Letters look the same in either case. */
  lemma {:induction false} GlyphIgnoresCase(c: bv8)
    requires 'a' as bv8 <= c <= 'z' as bv8
    ensures Displayable(c) && Displayable(c - 0x20)
    ensures Glyph(c) == Glyph(c - 0x20)
  {
    var k := (c - SPACE) as int;
    assert (c - 0x20 - SPACE) as int == k - 32;
    assert ASCII[64..91] == ASCII[32..59];
    assert ASCII[k] == ASCII[64..91][k - 64];
  }

  /** The ten digits have ten different patterns, none of them blank. */
  lemma {:induction false} DigitGlyphsDiffer(x: bv8, y: bv8)
    requires x < 10 && y < 10
    ensures Glyph(ZERO + x) != 0
    ensures x != y ==> Glyph(ZERO + x) != Glyph(ZERO + y)
  {
  }

  /** The bits a glyph contributes to its digit's upper byte (NUM1FGE field,
      mask 0x70). */
  function UpperBits(g: bv8): bv8
  {
    0x70 & (g << 4)
  }

  /** The bits a glyph contributes to its digit's lower byte (NUM1ABCD field,
      mask 0x0F): the shifted segments A-C and the separately masked D. */
  function LowerBits(g: bv8): bv8
  {
    (0x0F & (g >> 4)) | (0x0F & g & 0x08)
  }

  /** Reads a glyph back from the two field bytes of a digit. */
  function DecodeFields(upper: bv8, lower: bv8): (g: bv8)
    ensures g < 0x80
  {
    ((upper >> 4) & 7) | ((lower & 7) << 4) | (lower & 8)
  }

  /** The split stays inside the two fields, and decoding the split gives the
      glyph back: no bit of a 7-bit pattern is lost or moved. */
  lemma {:induction false} SplitRoundTrip(g: bv8)
    requires g < 0x80
    ensures UpperBits(g) & !0x70 == 0 && LowerBits(g) & !0x0F == 0
    ensures DecodeFields(UpperBits(g), LowerBits(g)) == g
  {
  }

  /** Decoding reads only the two fields; the rest of both bytes is ignored. */
  lemma {:induction false} DecodeReadsOnlyFields(u: bv8, l: bv8, u': bv8, l': bv8)
    requires u & 0x70 == u' & 0x70 && l & 0x0F == l' & 0x0F
    ensures DecodeFields(u, l) == DecodeFields(u', l')
  {
  }

  /** Or-ing a glyph's split onto two bytes ors the glyph onto what decodes
      from them. */
  lemma {:induction false} DecodeOfOr(u: bv8, l: bv8, g: bv8)
    requires g < 0x80
    ensures DecodeFields(u | UpperBits(g), l | LowerBits(g)) == DecodeFields(u, l) | g
  {
  }
}
