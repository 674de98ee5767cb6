/** The transmit side: the 18-byte frame wrBuffer sends, the shadow copy
    of the last frame sent, and the command byte wrCmd assembles.  The I2C
    transport itself is represented only by the sequence of frames it has
    been handed. */
module Transmit {
  import opened Segments

  const MODE_CMD: bv8 := 0x01
  const MODE_DATA: bv8 := 0x00
  const ADR56_CMD: bv8 := 0xE8

  /** The one byte wrCmd sends: with the forced little-endian bit-field
      layout the 7-bit `data` field takes bits 0-6 and the 1-bit `type`
      field, set to MODE_CMD, takes bit 7. */
  function CommandByte(cmd: bv8): (b: bv8)
    ensures b >> 7 == MODE_CMD
    ensures b & 0x7F == cmd & 0x7F
  {
    (MODE_CMD << 7) | (cmd & 0x7F)
  }

  /** Two commands give the same byte exactly when they agree in their low
      seven bits: the eighth bit of a command is lost. */
  lemma {:induction false} CommandByteKeepsSevenBits(a: bv8, b: bv8)
    ensures CommandByte(a) == CommandByte(b) <==> a & 0x7F == b & 0x7F
  {
    if a & 0x7F == b & 0x7F {
      assert CommandByte(a) == (MODE_CMD << 7) | (b & 0x7F);
    }
  }

  /** The every-zero frame both buffers start as. */
  function Zeros(): (z: seq<bv8>)
    ensures |z| == DISPLAY_BUFFER_SIZE
    ensures forall i :: 0 <= i < |z| ==> z[i] == 0
  {
    seq(DISPLAY_BUFFER_SIZE, _ => 0)
  }

  /** The frame with wrBuffer's two header bytes written in. */
  function Stamped(f: seq<bv8>): (r: seq<bv8>)
    requires |f| == DISPLAY_BUFFER_SIZE
    ensures |r| == DISPLAY_BUFFER_SIZE
    ensures r[0] == ADR56_CMD && r[1] == MODE_DATA
    ensures forall i :: SYS_SIZE <= i < DISPLAY_BUFFER_SIZE ==> r[i] == f[i]
  {
    [ADR56_CMD, MODE_DATA] + f[SYS_SIZE..]
  }

  /** Stamping twice is stamping once. */
  lemma {:induction false} StampedIdempotent(f: seq<bv8>)
    requires |f| == DISPLAY_BUFFER_SIZE
    ensures Stamped(Stamped(f)) == Stamped(f)
  {
    assert Stamped(f)[SYS_SIZE..] == f[SYS_SIZE..];
  }

  /** The transmit buffer, its shadow and the frames handed to the
      transport so far, oldest first. */
  datatype Link = Link(frame: seq<bv8>, shadow: seq<bv8>, sent: seq<seq<bv8>>)

  predicate Sized(l: Link)
  {
    |l.frame| == DISPLAY_BUFFER_SIZE && |l.shadow| == DISPLAY_BUFFER_SIZE
  }

  /** What the panel last received: nothing (zeros) before the first
      write, then the last frame written. */
  function Panel(sent: seq<seq<bv8>>): seq<bv8>
  {
    if sent == [] then Zeros() else sent[|sent| - 1]
  }

  /** The shadow always holds what the panel last received, and no frame
      was ever written twice in a row. */
  predicate Consistent(l: Link)
  {
    && l.shadow == Panel(l.sent)
    && (forall i :: 0 < i < |l.sent| ==> l.sent[i] != l.sent[i - 1])
    && (|l.sent| > 0 ==> l.sent[0] != Zeros())
  }

  /** CN91C4S96DispWrite, that is wrBuffer: stamp the header, and when the
      frame differs from the shadow copy it into the shadow and write it
      once.  The data bytes are never touched and the shadow ends equal to
      the frame; the trace gains exactly one frame, the stamped one, when
      it differed from the shadow, and nothing otherwise. */
  function Flush(l: Link): (r: Link)
    requires Sized(l)
    ensures Sized(r)
    ensures r.frame == Stamped(l.frame) && r.shadow == r.frame
    ensures Stamped(l.frame) != l.shadow ==> r.sent == l.sent + [r.frame]
    ensures Stamped(l.frame) == l.shadow ==> r.sent == l.sent
  {
    var f := Stamped(l.frame);
    if f != l.shadow then Link(f, f, l.sent + [f]) else Link(f, l.shadow, l.sent)
  }

  /** A second flush with nothing changed in between writes nothing and
      leaves everything as it was. */
  lemma {:induction false} FlushIdempotent(l: Link)
    requires Sized(l)
    ensures Flush(Flush(l)) == Flush(l)
  {
    StampedIdempotent(l.frame);
  }

  /** Flushing keeps the shadow equal to what the panel holds, never
      writes a frame the panel already shows, and afterwards the panel
      shows the stamped frame. */
  lemma {:induction false} FlushKeepsConsistent(l: Link)
    requires Sized(l) && Consistent(l)
    ensures Consistent(Flush(l))
    ensures Panel(Flush(l).sent) == Stamped(l.frame)
  {
    var r := Flush(l);
    var f := Stamped(l.frame);
    if f != l.shadow {
      assert r.sent == l.sent + [f];
      assert r.sent[|r.sent| - 1] == f;
      if l.sent == [] {
        assert r.sent[0] == f;
        assert f != Zeros() by {
          assert f[0] != Zeros()[0];
        }
      } else {
        assert r.sent[0] == l.sent[0];
      }
      forall i | 0 < i < |r.sent|
        ensures r.sent[i] != r.sent[i - 1]
      {
        if i == |r.sent| - 1 {
          assert r.sent[i - 1] == Panel(l.sent);
        } else {
          assert r.sent[i] == l.sent[i] && r.sent[i - 1] == l.sent[i - 1];
        }
      }
    }
  }

  /** The trace grows exactly when the stamped frame is not what the panel
      already shows. */
  lemma {:induction false} FlushWritesIffChanged(l: Link)
    requires Sized(l) && Consistent(l)
    ensures |Flush(l).sent| == |l.sent| + 1 <==> Stamped(l.frame) != Panel(l.sent)
    ensures |Flush(l).sent| == |l.sent| <==> Stamped(l.frame) == Panel(l.sent)
    ensures Flush(l).sent[..|l.sent|] == l.sent
  {
    assert (l.sent + [Stamped(l.frame)])[..|l.sent|] == l.sent;
  }
}
