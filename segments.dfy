/** The segment map of the CN91C4S96 panel: buffer sizes, the two bit
    operations every routine is built from, and one (offset, mask) constant
    per named symbol.  Offsets index the 16-byte data view `Buffer`, which
    starts two bytes into the transmit buffer. */
module Segments {

  // Buffer geometry (src/CN91C4S96.h:361-364)
  const DISPLAY_SIZE: nat := 9
  const SYS_SIZE: nat := 2
  const DATA_SIZE: nat := 16
  const DISPLAY_BUFFER_SIZE: nat := DATA_SIZE + SYS_SIZE

  /** The C `uint8_t` parameters some routines take. */
  type uint8 = x: int | 0 <= x < 256

  /** SET_BIT: the bits of `m` are on afterwards, every other bit is kept. */
  function SetBits(b: bv8, m: bv8): (r: bv8)
    ensures r & m == m
    ensures r & !m == b & !m
  {
    b | m
  }

  /** CLEAR_BIT as the CMSIS headers define it: the bits of `m` are off
      afterwards, every other bit is kept. */
  function ClearBits(b: bv8, m: bv8): (r: bv8)
    ensures r & m == 0
    ensures r & !m == b & !m
  {
    b & !m
  }

  /** CLEAR_BIT as the fallback definition in the driver writes it, used
      only when the platform header does not already define CLEAR_BIT. */
  function ClearBitsFallback(b: bv8, m: bv8): (r: bv8)
    ensures r & m == m
    ensures r & !m == b & !m
  {
    b | m
  }

  /** The fallback "clear" never agrees with a real clear once the mask has
      a bit: it leaves that bit on where a clear turns it off. */
  lemma {:induction false} FallbackClearTurnsBitsOn(b: bv8, m: bv8)
    requires m != 0
    ensures ClearBitsFallback(b, m) != ClearBits(b, m)
  {
    assert ClearBits(b, m) & m == 0;
  }

  /** A lightable symbol: byte offset in the data view and its bit. */
  datatype Segment = Segment(pos: nat, mask: bv8)

  /** The segment lies in the data view and names at least one bit. */
  predicate Placed(s: Segment) { s.pos < DATA_SIZE && s.mask != 0 }

  /** Two segments share no bit. */
  predicate Apart(a: Segment, b: Segment) { a.pos != b.pos || a.mask & b.mask == 0 }

  // Decimal points: dot k sits after the k-th digit from the right
  const P1: Segment := Segment(10, 0x80)
  const P2: Segment := Segment(9, 0x80)
  const P3: Segment := Segment(8, 0x80)
  const P4: Segment := Segment(7, 0x80)
  const P5: Segment := Segment(6, 0x80)

  const MINUS: Segment := Segment(13, 0x80)

  const BAT1: Segment := Segment(3, 0x10)
  const BAT2: Segment := Segment(2, 0x01)
  const BAT3: Segment := Segment(2, 0x02)
  const BAT4: Segment := Segment(3, 0x20)

  const MIN_RU: Segment := Segment(12, 0x80)
  const MAX_RU: Segment := Segment(14, 0x08)
  const MIN_EN: Segment := Segment(11, 0x80)
  const MAX_EN: Segment := Segment(14, 0x80)

  const BURST_RU: Segment := Segment(15, 0x08)
  const BURST_EN: Segment := Segment(15, 0x40)
  const LEAK_RU: Segment := Segment(15, 0x20)
  const LEAK_EN: Segment := Segment(15, 0x04)
  const REV_RU: Segment := Segment(15, 0x02)
  const REV_EN: Segment := Segment(15, 0x01)
  const FROST: Segment := Segment(15, 0x80)
  const Q: Segment := Segment(14, 0x04)
  const VER_RU: Segment := Segment(14, 0x01)
  const VER_EN: Segment := Segment(14, 0x02)
  const POV: Segment := Segment(15, 0x10)

  const SN: Segment := Segment(0, 0x40)
  const WARN: Segment := Segment(0, 0x80)
  const MAGNET: Segment := Segment(0, 0x08)
  const LEFT: Segment := Segment(1, 0x80)
  const RIGHT: Segment := Segment(2, 0x80)
  const NOWATER: Segment := Segment(1, 0x08)
  const CRC: Segment := Segment(0, 0x20)
  const DELTA: Segment := Segment(0, 0x10)
  const T: Segment := Segment(0, 0x02)
  const T1: Segment := Segment(0, 0x04)
  const T2: Segment := Segment(1, 0x40)
  const NBFI: Segment := Segment(2, 0x08)
  const NBIOT: Segment := Segment(3, 0x80)

  const SIG1: Segment := Segment(2, 0x40)
  const SIG2: Segment := Segment(2, 0x04)
  const SIG3: Segment := Segment(3, 0x40)

  const SP_RU: Segment := Segment(4, 0x80)
  const SP_EN: Segment := Segment(3, 0x10)
  const RP_RU: Segment := Segment(4, 0x40)
  const RP_EN: Segment := Segment(3, 0x20)

  const DEGREE: Segment := Segment(1, 0x20)

  const GCAL: Segment := Segment(3, 0x02)
  const GCAL_H: Segment := Segment(4, 0x20)
  const GJ: Segment := Segment(1, 0x10)
  const GJ_H: Segment := Segment(3, 0x01)

  const KW: Segment := Segment(5, 0x10)
  const MW: Segment := Segment(5, 0x20)
  const W: Segment := Segment(4, 0x10)
  const WH: Segment := Segment(4, 0x01)

  const GAL: Segment := Segment(5, 0x40)
  const GAL_PM: Segment := Segment(4, 0x02)

  const M3: Segment := Segment(5, 0x80)
  const M3_H: Segment := Segment(4, 0x04)
  const M3_H_EN: Segment := Segment(4, 0x08)

  const FT3: Segment := Segment(1, 0x02)
  const FT3_PM: Segment := Segment(1, 0x01)

  const MMBTU: Segment := Segment(1, 0x04)

  const GALLONS: Segment := Segment(2, 0x10)
  const US: Segment := Segment(2, 0x20)

  /** Decimal point for precision k (1 <= k <= 5): byte 5 + k, bit 7. */
  function Dot(k: nat): (s: Segment)
    requires 1 <= k <= 5
    ensures s.pos == 5 + k && s.mask == 0x80
  {
    [P5, P4, P3, P2, P1][k - 1]
  }

  /** A segment is lit when its bit is on in the data view. */
  predicate Lit(d: seq<bv8>, s: Segment)
    requires s.pos < |d|
  {
    d[s.pos] & s.mask != 0
  }

  /** SET_BIT(Buffer[s.pos], s.mask) on a data view. */
  function SetSeg(d: seq<bv8>, s: Segment): (r: seq<bv8>)
    requires s.pos < |d|
    ensures |r| == |d|
  {
    d[s.pos := SetBits(d[s.pos], s.mask)]
  }

  /** CLEAR_BIT(Buffer[s.pos], s.mask) on a data view. */
  function ClearSeg(d: seq<bv8>, s: Segment): (r: seq<bv8>)
    requires s.pos < |d|
    ensures |r| == |d|
  {
    d[s.pos := ClearBits(d[s.pos], s.mask)]
  }

  /** Per-byte union of two masks. */
  function Union(m1: seq<bv8>, m2: seq<bv8>): (m: seq<bv8>)
    requires |m1| == |m2|
    ensures |m| == |m1|
    ensures forall j :: 0 <= j < |m| ==> m[j] == m1[j] | m2[j]
  {
    seq(|m1|, j requires 0 <= j < |m1| => m1[j] | m2[j])
  }

  /** The per-byte bits of the data view that one segment covers. */
  function SegMask(s: Segment): (m: seq<bv8>)
    ensures |m| == DATA_SIZE
  {
    seq(DATA_SIZE, j => if j == s.pos then s.mask else 0)
  }

  /** The per-byte bits of the data view covered by a group of segments. */
  function Footprint(segs: seq<Segment>): (m: seq<bv8>)
    ensures |m| == DATA_SIZE
  {
    if segs == [] then seq(DATA_SIZE, _ => 0) else Union(SegMask(segs[0]), Footprint(segs[1..]))
  }

  /** `a` and `b` agree on every bit outside the per-byte mask `m`. */
  predicate Agree(a: seq<bv8>, b: seq<bv8>, m: seq<bv8>)
  {
    |a| == |b| == |m| &&
    forall j :: 0 <= j < |a| ==> a[j] & !m[j] == b[j] & !m[j]
  }

  /** Every bit of `m` cleared in `d`. */
  function ClearMask(d: seq<bv8>, m: seq<bv8>): (r: seq<bv8>)
    requires |m| == |d|
    ensures |r| == |d|
  {
    seq(|d|, j requires 0 <= j < |d| => ClearBits(d[j], m[j]))
  }

  /** Agreement outside a small mask carries over to a larger one. */
  lemma {:induction false} KeepWiden(a: bv8, b: bv8, m: bv8, m': bv8)
    requires a & !m == b & !m && m & !m' == 0
    ensures a & !m' == b & !m'
  {
  }

  /** Clearing a mask changes nothing outside it. */
  lemma {:induction false} ClearMaskAgree(d: seq<bv8>, m: seq<bv8>)
    requires |m| == |d|
    ensures Agree(d, ClearMask(d, m), m)
    ensures forall j :: 0 <= j < |d| ==> ClearMask(d, m)[j] & m[j] == 0
  {
  }

  /** The mask of every segment of a group is part of the group's mask. */
  lemma {:induction false} FootprintCovers(segs: seq<Segment>, s: Segment)
    requires s in segs && s.pos < DATA_SIZE
    ensures Footprint(segs)[s.pos] & s.mask == s.mask
  {
    if segs[0] != s {
      FootprintCovers(segs[1..], s);
    }
  }

  /** A segment that shares no bit with any segment of a group lies
      outside the group's mask. */
  lemma {:induction false} FootprintMisses(segs: seq<Segment>, s: Segment)
    requires s.pos < DATA_SIZE && forall i :: 0 <= i < |segs| ==> Apart(s, segs[i])
    ensures Footprint(segs)[s.pos] & s.mask == 0
  {
    if segs != [] {
      FootprintMisses(segs[1..], s);
      var x, y := SegMask(segs[0])[s.pos], Footprint(segs[1..])[s.pos];
      assert Apart(s, segs[0]);
      assert x & s.mask == 0;
      assert Footprint(segs)[s.pos] == x | y;
    }
  }

  /** A routine confined to a group leaves every segment apart from the
      group as it was. */
  lemma {:induction false} KeptLit(a: seq<bv8>, b: seq<bv8>, segs: seq<Segment>, s: Segment)
    requires |a| == DATA_SIZE && s.pos < DATA_SIZE && Agree(a, b, Footprint(segs))
    requires forall i :: 0 <= i < |segs| ==> Apart(s, segs[i])
    ensures Lit(b, s) == Lit(a, s)
  {
    FootprintMisses(segs, s);
    KeptLitOutside(a, b, Footprint(segs), s);
  }

  /** A segment outside the mask two views agree on is lit in both or in
      neither. */
  lemma {:induction false} KeptLitOutside(a: seq<bv8>, b: seq<bv8>, m: seq<bv8>, s: Segment)
    requires s.pos < |a| && Agree(a, b, m) && m[s.pos] & s.mask == 0
    ensures Lit(b, s) == Lit(a, s)
  {
    AgreeAt(a, b, m, s.pos);
    KeptBits(a[s.pos], b[s.pos], m[s.pos], s.mask);
    LitBits(a, b, s);
  }

  lemma {:induction false} AgreeAt(a: seq<bv8>, b: seq<bv8>, m: seq<bv8>, j: nat)
    requires j < |a| && Agree(a, b, m)
    ensures a[j] & !m[j] == b[j] & !m[j]
  {
  }

  /** Whether a segment is lit depends only on its own bits. */
  lemma {:induction false} LitBits(a: seq<bv8>, b: seq<bv8>, s: Segment)
    requires s.pos < |a| && |a| == |b| && a[s.pos] & s.mask == b[s.pos] & s.mask
    ensures Lit(b, s) == Lit(a, s)
  {
  }

  lemma {:induction false} KeptBits(x: bv8, y: bv8, m: bv8, bits: bv8)
    requires x & !m == y & !m && m & bits == 0
    ensures x & bits == y & bits
  {
  }

  /** Setting or clearing one segment of a group changes nothing outside
      the group's footprint. */
  lemma {:induction false} SetSegAgrees(d: seq<bv8>, s: Segment, segs: seq<Segment>)
    requires |d| == DATA_SIZE && s.pos < DATA_SIZE && s in segs
    ensures Agree(d, SetSeg(d, s), Footprint(segs))
    ensures Agree(d, ClearSeg(d, s), Footprint(segs))
  {
    FootprintCovers(segs, s);
    SetSegWithin(d, s, Footprint(segs));
    ClearSegWithin(d, s, Footprint(segs));
  }

  /** Agreement outside a mask is transitive. */
  lemma {:induction false} AgreeTrans(a: seq<bv8>, b: seq<bv8>, c: seq<bv8>, m: seq<bv8>)
    requires Agree(a, b, m) && Agree(b, c, m)
    ensures Agree(a, c, m)
  {
  }

  /** The mask of a sub-group lies inside the mask of the group. */
  lemma {:induction false} FootprintWithin(sub: seq<Segment>, segs: seq<Segment>, j: nat)
    requires j < DATA_SIZE && forall s :: s in sub ==> s in segs && s.pos < DATA_SIZE
    ensures Footprint(sub)[j] & !Footprint(segs)[j] == 0
  {
    if sub != [] {
      FootprintWithin(sub[1..], segs, j);
      if sub[0].pos == j {
        FootprintCovers(segs, sub[0]);
      }
    }
  }

  /** Agreement outside a sub-group's footprint implies agreement outside
      the group's footprint. */
  lemma {:induction false} AgreeWithin(a: seq<bv8>, b: seq<bv8>, sub: seq<Segment>, segs: seq<Segment>)
    requires Agree(a, b, Footprint(sub))
    requires forall s :: s in sub ==> s in segs && s.pos < DATA_SIZE
    ensures Agree(a, b, Footprint(segs))
  {
    var m, m' := Footprint(sub), Footprint(segs);
    forall j | 0 <= j < DATA_SIZE
      ensures m[j] & !m'[j] == 0
    {
      FootprintWithin(sub, segs, j);
    }
    AgreeWiden(a, b, m, m');
  }

  /** CLEAR_BIT on each segment of a group, in order: the group's whole
      footprint is cleared and nothing else. */
  function ClearAll(d: seq<bv8>, segs: seq<Segment>): (r: seq<bv8>)
    requires |d| == DATA_SIZE && forall s :: s in segs ==> s.pos < DATA_SIZE
    ensures r == ClearMask(d, Footprint(segs))
    decreases |segs|
  {
    if segs == [] then
      assert ClearMask(d, Footprint(segs)) == d;
      d
    else
      ClearAll(ClearSeg(d, segs[0]), segs[1..])
  }

  /** After clearing a group's footprint none of its segments is lit. */
  lemma {:induction false} ClearedDark(d: seq<bv8>, segs: seq<Segment>)
    requires |d| == DATA_SIZE && forall s :: s in segs ==> s.pos < DATA_SIZE
    ensures forall s :: s in segs ==> !Lit(ClearMask(d, Footprint(segs)), s)
    ensures Agree(d, ClearMask(d, Footprint(segs)), Footprint(segs))
  {
    forall s | s in segs
      ensures !Lit(ClearMask(d, Footprint(segs)), s)
    {
      FootprintCovers(segs, s);
    }
  }

  /** Agreement outside a mask carries over to any mask that contains it. */
  lemma {:induction false} AgreeWiden(a: seq<bv8>, b: seq<bv8>, m: seq<bv8>, m': seq<bv8>)
    requires Agree(a, b, m) && |m'| == |m|
    requires forall j :: 0 <= j < |m| ==> m[j] & !m'[j] == 0
    ensures Agree(a, b, m')
  {
    forall j | 0 <= j < |a|
      ensures a[j] & !m'[j] == b[j] & !m'[j]
    {
      AgreeAt(a, b, m, j);
      KeepWiden(a[j], b[j], m[j], m'[j]);
    }
  }

  /** A segment whose bits are all in the cleared mask is dark. */
  lemma {:induction false} DarkUnderMask(d: seq<bv8>, m: seq<bv8>, s: Segment)
    requires |m| == |d| && s.pos < |d| && m[s.pos] & s.mask == s.mask
    ensures !Lit(ClearMask(d, m), s)
  {
    ClearedBits(d[s.pos], m[s.pos], s.mask);
  }

  lemma {:induction false} ClearedBits(x: bv8, m: bv8, bits: bv8)
    requires m & bits == bits
    ensures ClearBits(x, m) & bits == 0
  {
  }

  /** The footprint of a single segment is its own bits. */
  lemma {:induction false} SingleFootprint(s: Segment, j: nat)
    requires j < DATA_SIZE
    ensures Footprint([s])[j] == if j == s.pos then s.mask else 0
  {
    assert [s][1..] == [];
  }

  /** Setting a segment whose bits lie in `m` changes nothing outside `m`. */
  lemma {:induction false} SetSegWithin(d: seq<bv8>, s: Segment, m: seq<bv8>)
    requires |d| == DATA_SIZE && s.pos < DATA_SIZE && |m| == DATA_SIZE && m[s.pos] & s.mask == s.mask
    ensures Agree(d, SetSeg(d, s), m)
  {
  }

  /** Clearing a segment whose bits lie in `m` changes nothing outside `m`. */
  lemma {:induction false} ClearSegWithin(d: seq<bv8>, s: Segment, m: seq<bv8>)
    requires |d| == DATA_SIZE && s.pos < DATA_SIZE && |m| == DATA_SIZE && m[s.pos] & s.mask == s.mask
    ensures Agree(d, ClearSeg(d, s), m)
  {
  }

  /** Setting a segment leaves segments of other bytes as they were. */
  lemma {:induction false} SetSegOthers(d: seq<bv8>, s: Segment, t: Segment)
    requires s.pos < |d| && t.pos < |d| && t.pos != s.pos
    ensures Lit(SetSeg(d, s), t) == Lit(d, t)
  {
  }

  /** Both parts of a union lie inside it. */
  lemma {:induction false} UnionContains(m1: seq<bv8>, m2: seq<bv8>)
    requires |m1| == |m2|
    ensures forall j :: 0 <= j < |m1| ==> m1[j] & !Union(m1, m2)[j] == 0
    ensures forall j :: 0 <= j < |m1| ==> m2[j] & !Union(m1, m2)[j] == 0
  {
    forall j | 0 <= j < |m1|
      ensures m1[j] & !Union(m1, m2)[j] == 0 && m2[j] & !Union(m1, m2)[j] == 0
    {
      OrContains(m1[j], m2[j]);
    }
  }

  lemma {:induction false} OrContains(x: bv8, y: bv8)
    ensures x & !(x | y) == 0 && y & !(x | y) == 0
  {
  }

  /** Two, three or four CLEAR_BITs in a row clear the group they name. */
  lemma {:induction false} ClearTwo(d: seq<bv8>, a: Segment, b: Segment)
    requires |d| == DATA_SIZE && a.pos < DATA_SIZE && b.pos < DATA_SIZE
    ensures ClearSeg(ClearSeg(d, a), b) == ClearAll(d, [a, b])
  {
    assert [a, b][1..] == [b] && [b][1..] == [];
  }

  lemma {:induction false} ClearThree(d: seq<bv8>, a: Segment, b: Segment, c: Segment)
    requires |d| == DATA_SIZE && a.pos < DATA_SIZE && b.pos < DATA_SIZE && c.pos < DATA_SIZE
    ensures ClearSeg(ClearSeg(ClearSeg(d, a), b), c) == ClearAll(d, [a, b, c])
  {
    assert [a, b, c][1..] == [b, c];
    ClearTwo(ClearSeg(d, a), b, c);
  }

  lemma {:induction false} ClearFour(d: seq<bv8>, a: Segment, b: Segment, c: Segment, e: Segment)
    requires |d| == DATA_SIZE && a.pos < DATA_SIZE && b.pos < DATA_SIZE && c.pos < DATA_SIZE && e.pos < DATA_SIZE
    ensures ClearSeg(ClearSeg(ClearSeg(ClearSeg(d, a), b), c), e) == ClearAll(d, [a, b, c, e])
  {
    assert [a, b, c, e][1..] == [b, c, e];
    ClearThree(ClearSeg(d, a), b, c, e);
  }

  /** Clearing one mask after another clears their union. */
  lemma {:induction false} ClearTwice(x: bv8, a: bv8, b: bv8)
    ensures ClearBits(ClearBits(x, a), b) == ClearBits(x, a | b)
  {
  }

  /** Setting one mask after another sets their union. */
  lemma {:induction false} SetTwice(x: bv8, a: bv8, b: bv8)
    ensures SetBits(SetBits(x, a), b) == SetBits(x, a | b)
  {
  }
}
