/** The driver as the C module runs it: the transmit buffer BufferSend
    (two header bytes, then the 16-byte data view Buffer) and its shadow
    BufferSendOld, updated in place by every routine.  Each routine is
    proved to leave the data view as the matching function of the Encoder
    or Icons module describes, to leave the header bytes alone, and only
    DispWrite touches the shadow or the transport. */
module Lcd {
  import opened Segments
  import opened Glyphs
  import opened Frame
  import opened Formatting
  import Icons
  import Encoder
  import Transmit

  class Display {
    /** BufferSend: the frame, whose bytes 2 .. 17 are the data view. */
    var send: array<bv8>
    /** BufferSendOld: the frame last handed to the transport. */
    var shadow: array<bv8>
    /** The frames handed to the transport so far, oldest first. */
    ghost var sent: seq<seq<bv8>>

    ghost predicate Valid()
      reads this, send, shadow
    {
      && send.Length == DISPLAY_BUFFER_SIZE
      && shadow.Length == DISPLAY_BUFFER_SIZE
      && send != shadow
      && Transmit.Consistent(Link())
    }

    /** The pair of buffers and the trace, as the Transmit module sees them. */
    ghost function Link(): (l: Transmit.Link)
      reads this, send, shadow
    {
      Transmit.Link(send[..], shadow[..], sent)
    }

    /** Buffer, the view starting two bytes into BufferSend. */
    ghost function Data(): (d: seq<bv8>)
      reads this, send
      requires send.Length == DISPLAY_BUFFER_SIZE
      ensures |d| == DATA_SIZE
    {
      send[SYS_SIZE..]
    }

    /** The two header bytes that only wrBuffer writes. */
    ghost function Header(): (h: seq<bv8>)
      reads this, send
      requires send.Length == DISPLAY_BUFFER_SIZE
    {
      send[..SYS_SIZE]
    }

    /** Both buffers start zeroed and nothing has been sent. */
    constructor ()
      ensures Valid() && fresh(send) && fresh(shadow)
      ensures send[..] == Transmit.Zeros() && shadow[..] == Transmit.Zeros() && sent == []
    {
      send := new bv8[DISPLAY_BUFFER_SIZE](_ => 0);
      shadow := new bv8[DISPLAY_BUFFER_SIZE](_ => 0);
      sent := [];
      new;
      assert shadow[..] == Transmit.Zeros();
      assert send[..] == Transmit.Zeros();
    }

    /** SET_BIT(Buffer[s.pos], s.mask). */
    method SetBit(s: Segment)
      requires Valid() && s.pos < DATA_SIZE
      modifies send
      ensures Valid() && Header() == old(Header())
      ensures Data() == SetSeg(old(Data()), s)
    {
      send[SYS_SIZE + s.pos] := SetBits(send[SYS_SIZE + s.pos], s.mask);
      assert Data() == old(Data())[s.pos := SetBits(old(Data())[s.pos], s.mask)];
    }

    /** CLEAR_BIT(Buffer[s.pos], s.mask). */
    method ClearBit(s: Segment)
      requires Valid() && s.pos < DATA_SIZE
      modifies send
      ensures Valid() && Header() == old(Header())
      ensures Data() == ClearSeg(old(Data()), s)
    {
      send[SYS_SIZE + s.pos] := ClearBits(send[SYS_SIZE + s.pos], s.mask);
      assert Data() == old(Data())[s.pos := ClearBits(old(Data())[s.pos], s.mask)];
    }

    /** LCD_SWITCH(en, pos, seg). */
    method Switch(en: bool, s: Segment)
      requires Valid() && Placed(s)
      modifies send
      ensures Valid() && Header() == old(Header())
      ensures Data() == Icons.Switch(old(Data()), en, s)
    {
      if en {
        SetBit(s);
      } else {
        ClearBit(s);
      }
    }

    /** LCD_TOGGLE(en, pos1, seg1, pos2, seg2). */
    method Toggle(en: bool, s1: Segment, s2: Segment)
      requires Valid() && Placed(s1) && Placed(s2)
      modifies send
      ensures Valid() && Header() == old(Header())
      ensures Data() == Icons.Toggle(old(Data()), en, s1, s2)
    {
      if en {
        SetBit(s1);
        ClearBit(s2);
      } else {
        SetBit(s2);
        ClearBit(s1);
      }
    }

    /** dotsBufferClear: bit 7 of Buffer[P5_POS + i] cleared for each of the
        five points. */
    method DotsBufferClear()
      requires Valid()
      modifies send
      ensures Valid() && Header() == old(Header())
      ensures Data() == Encoder.DotsCleared(old(Data()))
    {
      ghost var d0 := Data();
      var i := 0;
      while i < PRECISION_MAX_POSITIVE
        invariant 0 <= i <= PRECISION_MAX_POSITIVE
        invariant Valid() && Header() == old(Header())
        invariant Data() == ClearMask(d0, DotMask(i))
      {
        ClearBit(Segment(P5.pos + i, P5.mask));
        DotsStep(d0, i);
        i := i + 1;
      }
    }

    /** lettersBufferClear: both digit fields of each of the nine positions
        cleared. */
    method LettersBufferClear()
      requires Valid()
      modifies send
      ensures Valid() && Header() == old(Header())
      ensures Data() == Encoder.LettersCleared(old(Data()))
    {
      ghost var d0 := Data();
      var i := 0;
      while i < DISPLAY_SIZE
        invariant 0 <= i <= DISPLAY_SIZE
        invariant Valid() && Header() == old(Header())
        invariant Data() == ClearMask(d0, FieldMask(i))
      {
        ClearBit(Segment(14 - i, 0x70));
        ClearBit(Segment(13 - i, 0x0F));
        LettersStep(d0, i);
        i := i + 1;
      }
    }

    /** batteryBufferClear: BAT1 | BAT4 cleared in one byte, BAT2 | BAT3 in
        the other. */
    method BatteryBufferClear()
      requires Valid()
      modifies send
      ensures Valid() && Header() == old(Header())
      ensures Data() == ClearAll(old(Data()), Icons.BATTERY)
    {
      ghost var d0 := Data();
      ClearBit(Segment(BAT1.pos, BAT1.mask | BAT4.mask));
      ClearBit(Segment(BAT2.pos, BAT2.mask | BAT3.mask));
      Icons.BatteryClearedTogether(d0);
    }

    /** BufferToAscii(str, Buffer): positions 0 .. MIN(DISPLAY_SIZE,
        strlen(str)) - 1 rendered in turn. */
    method BufferToAscii(s: seq<bv8>)
      requires Valid()
      modifies send
      ensures Valid() && Header() == old(Header())
      ensures Data() == Rendered(old(Data()), s)
    {
      ghost var d0 := Data();
      var n := Shown(s);
      var i := 0;
      while i < n
        invariant 0 <= i <= n
        invariant Valid() && Header() == old(Header())
        invariant Data() == RenderedUpTo(d0, s, i)
      {
        var c := s[i];
        ghost var before := Data();
        if !Displayable(c) {
          ClearBit(Segment(14 - i, 0x70));
          ClearBit(Segment(13 - i, 0x0F));
          assert Data() == RenderChar(before, i, c);
        } else {
          var g := Glyph(c);
          SetBit(Segment(14 - i, 0x70 & (g << 4)));
          SetBit(Segment(13 - i, 0x0F & (g >> 4)));
          SetBit(Segment(13 - i, 0x0F & g & 0x08));
          assert Data() == PutGlyph(before, i, g);
        }
        RenderStep(d0, s, i);
        i := i + 1;
      }
    }

    /** CN91C4S96printStr(str). */
    method PrintStr(s: seq<bv8>)
      requires Valid()
      modifies send
      ensures Valid() && Header() == old(Header())
      ensures Data() == Encoder.ShowStr(old(Data()), s)
    {
      DotsBufferClear();
      LettersBufferClear();
      BufferToAscii(s);
    }

    /** showMinus(&num): returns the value the caller goes on with. */
    method ShowMinus(num: int) returns (v: int)
      requires Valid() && IsInt32(num) && (ShowsMinus(num) ==> IsInt32(-num))
      modifies send
      ensures Valid() && Header() == old(Header())
      ensures Data() == Encoder.WithSign(old(Data()), num)
      ensures v == Magnitude(num) && IsInt32(v)
    {
      if num < MIN_MINUS_NUM {
        SetBit(MINUS);
        v := -num;
      } else {
        ClearBit(MINUS);
        v := num;
      }
    }

    /** CN91C4S96printNum(num, precision). */
    method PrintNum(num: int, precision: int)
      requires Valid()
      requires IsInt32(num) && PrecisionFits(precision) && Renderable(num)
      modifies send
      ensures Valid() && Header() == old(Header())
      ensures Data() == Encoder.ShowNum(old(Data()), num, precision)
    {
      ghost var d0 := Data();
      var n := Clamp(num);
      DotsBufferClear();
      LettersBufferClear();
      n := ShowMinus(n);
      assert Data() == Encoder.Prepared(d0, Clamp(num));
      var str := BuildNumText(n, precision);
      assert str == Encoder.NumString(num, precision);
      BufferToAscii(str);
    }

    /** decimalSeparator(dpPosition). */
    method DecimalSeparator(p: uint8)
      requires Valid()
      modifies send
      ensures Valid() && Header() == old(Header())
      ensures Data() == Encoder.WithDecimalDot(old(Data()), p)
    {
      DotsBufferClear();
      if p < PRECISION_MIN || p > PRECISION_MAX_POSITIVE {
        return;
      }
      SetBit(Segment(P1.pos - PRECISION_MAX_POSITIVE + p, P1.mask));
    }

    /** dateSeparator(dpPosition, dpPosition2). */
    method DateSeparator(a: uint8, b: uint8)
      requires Valid()
      modifies send
      ensures Valid() && Header() == old(Header())
      ensures Data() == Encoder.WithDateDots(old(Data()), a, b)
    {
      DotsBufferClear();
      if a < PRECISION_MIN || a > PRECISION_MAX_POSITIVE {
        return;
      }
      if b < PRECISION_MIN || b > PRECISION_MAX_POSITIVE {
        return;
      }
      SetBit(Segment(P1.pos - PRECISION_MAX_POSITIVE + a, P1.mask));
      SetBit(Segment(P1.pos - PRECISION_MAX_POSITIVE + b, P1.mask));
    }

    /** CN91C4S96printFixed(multiplied_float, multiplier). */
    method PrintFixed(multipliedFloat: int, multiplier: int)
      requires Valid()
      requires IsInt32(multipliedFloat) && IsUint32(multiplier) && Renderable(multipliedFloat)
      modifies send
      ensures Valid() && Header() == old(Header())
      ensures Data() == Encoder.ShowFixed(old(Data()), multipliedFloat, multiplier)
    {
      var precision: uint8 := Precision(multiplier);
      var m := Clamp(multipliedFloat);
      PrintNum(m, precision);
      DecimalSeparator(precision);
    }

    /** CN91C4S96printDate(day, mon, year). */
    method PrintDate(day: int, mon: int, year: int)
      requires Valid()
      requires DateField(day) && DateField(mon) && DateField(year)
      modifies send
      ensures Valid() && Header() == old(Header())
      ensures Data() == Encoder.ShowDate(old(Data()), day, mon, year)
    {
      var str := DateText(day, mon, year) + [0];
      BufferToAscii(str);
      DateSeparator(2, 4);
    }

    /** CN91C4S96batteryLevel(percents). */
    method BatteryLevel(percents: uint8)
      requires Valid()
      modifies send
      ensures Valid() && Header() == old(Header())
      ensures Data() == Icons.Battery(old(Data()), percents)
    {
      BatteryBufferClear();
      SetBit(BAT4);
      if percents > 75 {
        SetBit(BAT1);
      }
      if percents > 50 {
        SetBit(BAT2);
      }
      if percents > 25 {
        SetBit(BAT3);
      }
    }

    /** CN91C4S96SignalLevel(percents). */
    method SignalLevel(percents: uint8)
      requires Valid()
      modifies send
      ensures Valid() && Header() == old(Header())
      ensures Data() == Icons.Signal(old(Data()), percents)
    {
      ghost var d0 := Data();
      ClearBit(SIG1);
      ClearBit(SIG2);
      ClearBit(SIG3);
      ClearThree(d0, SIG1, SIG2, SIG3);
      if percents > 60 {
        SetBit(SIG3);
      }
      if percents > 30 {
        SetBit(SIG2);
      }
      if percents > 0 {
        SetBit(SIG1);
      }
    }

    /** CN91C4S96DispMinMax(enable, mode, min). */
    method DispMinMax(enable: bool, mode: bool, min: bool)
      requires Valid()
      modifies send
      ensures Valid() && Header() == old(Header())
      ensures Data() == Icons.MinMax(old(Data()), enable, mode, min)
    {
      if enable {
        if mode {
          Toggle(min, MIN_RU, MAX_RU);
        } else {
          Toggle(min, MIN_EN, MAX_EN);
        }
      } else {
        ghost var d0 := Data();
        ClearBit(MIN_RU);
        ClearBit(MAX_RU);
        ClearBit(MIN_EN);
        ClearBit(MAX_EN);
        ClearFour(d0, MIN_RU, MAX_RU, MIN_EN, MAX_EN);
      }
    }

    /** The body shared by DispBurst, DispLeak, DispRev and DispVer. */
    method LanguagePair(enable: bool, mode: bool, ru: Segment, en: Segment)
      requires Valid() && Placed(ru) && Placed(en) && Apart(ru, en)
      modifies send
      ensures Valid() && Header() == old(Header())
      ensures Data() == Icons.LanguagePair(old(Data()), enable, mode, ru, en)
    {
      if enable {
        Toggle(mode, ru, en);
      } else {
        ghost var d0 := Data();
        ClearBit(ru);
        ClearBit(en);
        ClearTwo(d0, ru, en);
      }
    }

    /** CN91C4S96DispBurst(enable, mode). */
    method DispBurst(enable: bool, mode: bool)
      requires Valid()
      modifies send
      ensures Valid() && Header() == old(Header())
      ensures Data() == Icons.LanguagePair(old(Data()), enable, mode, BURST_RU, BURST_EN)
    {
      LanguagePair(enable, mode, BURST_RU, BURST_EN);
    }

    /** CN91C4S96DispLeak(enable, mode). */
    method DispLeak(enable: bool, mode: bool)
      requires Valid()
      modifies send
      ensures Valid() && Header() == old(Header())
      ensures Data() == Icons.LanguagePair(old(Data()), enable, mode, LEAK_RU, LEAK_EN)
    {
      LanguagePair(enable, mode, LEAK_RU, LEAK_EN);
    }

    /** CN91C4S96DispRev(enable, mode). */
    method DispRev(enable: bool, mode: bool)
      requires Valid()
      modifies send
      ensures Valid() && Header() == old(Header())
      ensures Data() == Icons.LanguagePair(old(Data()), enable, mode, REV_RU, REV_EN)
    {
      LanguagePair(enable, mode, REV_RU, REV_EN);
    }

    /** CN91C4S96DispVer(enable, mode). */
    method DispVer(enable: bool, mode: bool)
      requires Valid()
      modifies send
      ensures Valid() && Header() == old(Header())
      ensures Data() == Icons.LanguagePair(old(Data()), enable, mode, VER_RU, VER_EN)
    {
      LanguagePair(enable, mode, VER_RU, VER_EN);
    }

    /** The body shared by DispSP and DispRP. */
    method Either(enable: bool, mode: bool, ru: Segment, en: Segment)
      requires Valid() && Placed(ru) && Placed(en)
      modifies send
      ensures Valid() && Header() == old(Header())
      ensures Data() == Icons.Either(old(Data()), enable, mode, ru, en)
    {
      if enable {
        if mode {
          SetBit(ru);
        } else {
          SetBit(en);
        }
      } else {
        ghost var d0 := Data();
        ClearBit(ru);
        ClearBit(en);
        ClearTwo(d0, ru, en);
      }
    }

    /** CN91C4S96DispSP(enable, mode). */
    method DispSP(enable: bool, mode: bool)
      requires Valid()
      modifies send
      ensures Valid() && Header() == old(Header())
      ensures Data() == Icons.Either(old(Data()), enable, mode, SP_RU, SP_EN)
    {
      Either(enable, mode, SP_RU, SP_EN);
    }

    /** CN91C4S96DispRP(enable, mode). */
    method DispRP(enable: bool, mode: bool)
      requires Valid()
      modifies send
      ensures Valid() && Header() == old(Header())
      ensures Data() == Icons.Either(old(Data()), enable, mode, RP_RU, RP_EN)
    {
      Either(enable, mode, RP_RU, RP_EN);
    }

    /** The body shared by DispFlowGAL, DispFlowFT and DispGal. */
    method Qualified(enable: bool, unit: Segment, qualifier: Segment, q: bool)
      requires Valid() && Placed(unit) && Placed(qualifier) && Apart(unit, qualifier)
      modifies send
      ensures Valid() && Header() == old(Header())
      ensures Data() == Icons.Qualified(old(Data()), enable, unit, qualifier, q)
    {
      if enable {
        SetBit(unit);
        Switch(q, qualifier);
      } else {
        ghost var d0 := Data();
        ClearBit(unit);
        ClearBit(qualifier);
        ClearTwo(d0, unit, qualifier);
      }
    }

    /** CN91C4S96DispFlowGAL(enable, perH). */
    method DispFlowGAL(enable: bool, perH: bool)
      requires Valid()
      modifies send
      ensures Valid() && Header() == old(Header())
      ensures Data() == Icons.Qualified(old(Data()), enable, GAL, GAL_PM, perH)
    {
      Qualified(enable, GAL, GAL_PM, perH);
    }

    /** CN91C4S96DispFlowFT(enable, perH). */
    method DispFlowFT(enable: bool, perH: bool)
      requires Valid()
      modifies send
      ensures Valid() && Header() == old(Header())
      ensures Data() == Icons.Qualified(old(Data()), enable, FT3, FT3_PM, perH)
    {
      Qualified(enable, FT3, FT3_PM, perH);
    }

    /** CN91C4S96DispGal(enable, mode). */
    method DispGal(enable: bool, mode: bool)
      requires Valid()
      modifies send
      ensures Valid() && Header() == old(Header())
      ensures Data() == Icons.Qualified(old(Data()), enable, GALLONS, US, mode)
    {
      Qualified(enable, GALLONS, US, mode);
    }

    /** CN91C4S96DispEnergyJ(enable, mode, perH). */
    method DispEnergyJ(enable: bool, mode: bool, perH: bool)
      requires Valid()
      modifies send
      ensures Valid() && Header() == old(Header())
      ensures Data() == Icons.EnergyJ(old(Data()), enable, mode, perH)
    {
      if enable {
        if mode {
          SetBit(GCAL);
          Switch(perH, GCAL_H);
        } else {
          SetBit(GJ);
          Switch(perH, GJ_H);
        }
      } else {
        ghost var d0 := Data();
        ClearBit(GJ);
        ClearBit(GJ_H);
        ClearBit(GCAL);
        ClearBit(GCAL_H);
        ClearFour(d0, GJ, GJ_H, GCAL, GCAL_H);
      }
    }

    /** CN91C4S96DispEnergyW(enable, M, perH). */
    method DispEnergyW(enable: bool, M: bool, perH: bool)
      requires Valid()
      modifies send
      ensures Valid() && Header() == old(Header())
      ensures Data() == Icons.EnergyW(old(Data()), enable, M, perH)
    {
      if enable {
        SetBit(W);
        Toggle(M, MW, KW);
        Switch(perH, WH);
      } else {
        ghost var d0 := Data();
        ClearBit(W);
        ClearBit(KW);
        ClearBit(MW);
        ClearBit(WH);
        ClearFour(d0, W, KW, MW, WH);
      }
    }

    /** CN91C4S96DispFlowM3(enable, mode, perH). */
    method DispFlowM3(enable: bool, mode: bool, perH: bool)
      requires Valid()
      modifies send
      ensures Valid() && Header() == old(Header())
      ensures Data() == Icons.FlowM3(old(Data()), enable, mode, perH)
    {
      if enable {
        SetBit(M3);
        if perH {
          SetBit(M3_H);
          Switch(!mode, M3_H_EN);
        } else {
          ghost var d1 := Data();
          ClearBit(M3_H);
          ClearBit(M3_H_EN);
          ClearTwo(d1, M3_H, M3_H_EN);
        }
      } else {
        ghost var d0 := Data();
        ClearBit(M3);
        ClearBit(M3_H);
        ClearBit(M3_H_EN);
        ClearThree(d0, M3, M3_H, M3_H_EN);
      }
    }

    /** CN91C4S96DispPOV(enable). */
    method DispPOV(enable: bool)
      requires Valid()
      modifies send
      ensures Valid() && Header() == old(Header())
      ensures Data() == Icons.Pov(old(Data()), enable)
    {
      if enable {
        SetBit(POV);
        SetBit(VER_RU);
      } else {
        ghost var d0 := Data();
        ClearBit(POV);
        ClearBit(VER_RU);
        ClearTwo(d0, POV, VER_RU);
      }
    }

    /** CN91C4S96DispSN(enable), written out as SET_BIT / CLEAR_BIT. */
    method DispSN(enable: bool)
      requires Valid()
      modifies send
      ensures Valid() && Header() == old(Header())
      ensures Data() == Icons.Switch(old(Data()), enable, SN)
    {
      if enable {
        SetBit(SN);
      } else {
        ClearBit(SN);
      }
    }

    /** CN91C4S96DispFrost(enable): LCD_SWITCH on FROST. */
    method DispFrost(enable: bool)
      requires Valid()
      modifies send
      ensures Valid() && Header() == old(Header())
      ensures Data() == Icons.Switch(old(Data()), enable, FROST)
    {
      Switch(enable, FROST);
    }

    /** CN91C4S96DispQ(enable): LCD_SWITCH on Q. */
    method DispQ(enable: bool)
      requires Valid()
      modifies send
      ensures Valid() && Header() == old(Header())
      ensures Data() == Icons.Switch(old(Data()), enable, Q)
    {
      Switch(enable, Q);
    }

    /** CN91C4S96DispWarn(enable): LCD_SWITCH on WARN. */
    method DispWarn(enable: bool)
      requires Valid()
      modifies send
      ensures Valid() && Header() == old(Header())
      ensures Data() == Icons.Switch(old(Data()), enable, WARN)
    {
      Switch(enable, WARN);
    }

    /** CN91C4S96DispMagn(enable): LCD_SWITCH on MAGNET. */
    method DispMagn(enable: bool)
      requires Valid()
      modifies send
      ensures Valid() && Header() == old(Header())
      ensures Data() == Icons.Switch(old(Data()), enable, MAGNET)
    {
      Switch(enable, MAGNET);
    }

    /** CN91C4S96DispLeft(enable): LCD_SWITCH on LEFT. */
    method DispLeft(enable: bool)
      requires Valid()
      modifies send
      ensures Valid() && Header() == old(Header())
      ensures Data() == Icons.Switch(old(Data()), enable, LEFT)
    {
      Switch(enable, LEFT);
    }

    /** CN91C4S96DispRight(enable): LCD_SWITCH on RIGHT. */
    method DispRight(enable: bool)
      requires Valid()
      modifies send
      ensures Valid() && Header() == old(Header())
      ensures Data() == Icons.Switch(old(Data()), enable, RIGHT)
    {
      Switch(enable, RIGHT);
    }

    /** CN91C4S96DispNoWater(enable): LCD_SWITCH on NOWATER. */
    method DispNoWater(enable: bool)
      requires Valid()
      modifies send
      ensures Valid() && Header() == old(Header())
      ensures Data() == Icons.Switch(old(Data()), enable, NOWATER)
    {
      Switch(enable, NOWATER);
    }

    /** CN91C4S96DispCRC(enable): LCD_SWITCH on CRC. */
    method DispCRC(enable: bool)
      requires Valid()
      modifies send
      ensures Valid() && Header() == old(Header())
      ensures Data() == Icons.Switch(old(Data()), enable, CRC)
    {
      Switch(enable, CRC);
    }

    /** CN91C4S96DispDelta(enable): LCD_SWITCH on DELTA. */
    method DispDelta(enable: bool)
      requires Valid()
      modifies send
      ensures Valid() && Header() == old(Header())
      ensures Data() == Icons.Switch(old(Data()), enable, DELTA)
    {
      Switch(enable, DELTA);
    }

    /** CN91C4S96DispT(enable): LCD_SWITCH on T. */
    method DispT(enable: bool)
      requires Valid()
      modifies send
      ensures Valid() && Header() == old(Header())
      ensures Data() == Icons.Switch(old(Data()), enable, T)
    {
      Switch(enable, T);
    }

    /** CN91C4S96Disp1(enable): LCD_SWITCH on T1. */
    method Disp1(enable: bool)
      requires Valid()
      modifies send
      ensures Valid() && Header() == old(Header())
      ensures Data() == Icons.Switch(old(Data()), enable, T1)
    {
      Switch(enable, T1);
    }

    /** CN91C4S96DispT2(enable): LCD_SWITCH on T2. */
    method DispT2(enable: bool)
      requires Valid()
      modifies send
      ensures Valid() && Header() == old(Header())
      ensures Data() == Icons.Switch(old(Data()), enable, T2)
    {
      Switch(enable, T2);
    }

    /** CN91C4S96DispNBFi(enable): LCD_SWITCH on NBFI. */
    method DispNBFi(enable: bool)
      requires Valid()
      modifies send
      ensures Valid() && Header() == old(Header())
      ensures Data() == Icons.Switch(old(Data()), enable, NBFI)
    {
      Switch(enable, NBFI);
    }

    /** CN91C4S96DispNBIoT(enable): LCD_SWITCH on NBIOT. */
    method DispNBIoT(enable: bool)
      requires Valid()
      modifies send
      ensures Valid() && Header() == old(Header())
      ensures Data() == Icons.Switch(old(Data()), enable, NBIOT)
    {
      Switch(enable, NBIOT);
    }

    /** CN91C4S96DispDegreePoint(enable): LCD_SWITCH on DEGREE. */
    method DispDegreePoint(enable: bool)
      requires Valid()
      modifies send
      ensures Valid() && Header() == old(Header())
      ensures Data() == Icons.Switch(old(Data()), enable, DEGREE)
    {
      Switch(enable, DEGREE);
    }

    /** CN91C4S96DispMMBTU(enable): LCD_SWITCH on MMBTU. */
    method DispMMBTU(enable: bool)
      requires Valid()
      modifies send
      ensures Valid() && Header() == old(Header())
      ensures Data() == Icons.Switch(old(Data()), enable, MMBTU)
    {
      Switch(enable, MMBTU);
    }

    /** wrBuffer's first two statements: the header bytes of the frame. */
    method StampHeader()
      requires send.Length == DISPLAY_BUFFER_SIZE
      modifies send
      ensures send[..] == Transmit.Stamped(old(send[..]))
    {
      send[0] := Transmit.ADR56_CMD;
      send[1] := Transmit.MODE_DATA;
      assert send[..] == Transmit.Stamped(old(send[..])) by {
        assert send[..][SYS_SIZE..] == old(send[..])[SYS_SIZE..];
      }
    }

    /** memcpy(BufferSendOld, BufferSend, sizeof(BufferSend)). */
    method CopyToShadow()
      requires send.Length == DISPLAY_BUFFER_SIZE && shadow.Length == DISPLAY_BUFFER_SIZE && send != shadow
      modifies shadow
      ensures shadow[..] == send[..]
    {
      forall i | 0 <= i < DISPLAY_BUFFER_SIZE {
        shadow[i] := send[i];
      }
    }

    /** CN91C4S96DispWrite, that is wrBuffer: stamp the header, and when the
        frame differs from the shadow (memcmp) copy it over and hand it to
        the transport. */
    method DispWrite()
      requires Valid()
      modifies send, shadow, this`sent
      ensures Valid()
      ensures Link() == Transmit.Flush(old(Link()))
    {
      ghost var l0 := Link();
      StampHeader();
      if send[..] != shadow[..] {
        CopyToShadow();
        sent := sent + [send[..]];
      }
      Transmit.FlushKeepsConsistent(l0);
    }
  }
}
