/** The icon controller: what LCD_SWITCH, LCD_TOGGLE, the graduated
    battery and signal indicators and every CN91C4S96Disp* routine do to
    the 16-byte data view.  Each routine drives one group of segments; its
    contract says which of them are lit afterwards and that no bit outside
    the group changes. */
module Icons {
  import opened Segments

  /** LCD_SWITCH(en, pos, seg): the segment is lit exactly when `en`. */
  function Switch(d: seq<bv8>, en: bool, s: Segment): (r: seq<bv8>)
    requires |d| == DATA_SIZE && Placed(s)
    ensures |r| == DATA_SIZE
    ensures Lit(r, s) == en
    ensures Agree(d, r, Footprint([s]))
  {
    SetSegAgrees(d, s, [s]);
    if en then SetSeg(d, s) else ClearSeg(d, s)
  }

  /** LCD_TOGGLE(en, pos1, seg1, pos2, seg2): sets the first segment and
      clears the second when `en`, the other way round otherwise.  The one
      cleared last is always dark; when the two share no bit, exactly one
      of them is lit. */
  function Toggle(d: seq<bv8>, en: bool, s1: Segment, s2: Segment): (r: seq<bv8>)
    requires |d| == DATA_SIZE && Placed(s1) && Placed(s2)
    ensures |r| == DATA_SIZE
    ensures !Lit(r, if en then s2 else s1)
    ensures Apart(s1, s2) ==> Lit(r, s1) == en && Lit(r, s2) == !en
    ensures Agree(d, r, Footprint([s1, s2]))
  {
    var on, off := if en then s1 else s2, if en then s2 else s1;
    var d1 := SetSeg(d, on);
    SetSegAgrees(d, on, [s1, s2]);
    SetSegAgrees(d1, off, [s1, s2]);
    AgreeTrans(d, d1, ClearSeg(d1, off), Footprint([s1, s2]));
    ClearSeg(d1, off)
  }

  // Segment groups, in the order the disabling branches clear them
  const MIN_MAX: seq<Segment> := [MIN_RU, MAX_RU, MIN_EN, MAX_EN]

  /** CN91C4S96DispMinMax(enable, mode, min): with `enable` the pair of the
      chosen language (`mode`: Russian) shows MIN when `min` and MAX
      otherwise, and the other language's pair is left as it was; without
      `enable` all four symbols go dark. */
  function MinMax(d: seq<bv8>, enable: bool, mode: bool, min: bool): (r: seq<bv8>)
    requires |d| == DATA_SIZE
    ensures |r| == DATA_SIZE
    ensures enable && mode ==>
      Lit(r, MIN_RU) == min && Lit(r, MAX_RU) == !min && Agree(d, r, Footprint([MIN_RU, MAX_RU]))
    ensures enable && !mode ==>
      Lit(r, MIN_EN) == min && Lit(r, MAX_EN) == !min && Agree(d, r, Footprint([MIN_EN, MAX_EN]))
    ensures !enable ==> r == ClearMask(d, Footprint(MIN_MAX)) && forall s :: s in MIN_MAX ==> !Lit(r, s)
    ensures Agree(d, r, Footprint(MIN_MAX))
  {
    if enable then
      var r := if mode then Toggle(d, min, MIN_RU, MAX_RU) else Toggle(d, min, MIN_EN, MAX_EN);
      AgreeWithin(d, r, if mode then [MIN_RU, MAX_RU] else [MIN_EN, MAX_EN], MIN_MAX);
      r
    else
      ClearedDark(d, MIN_MAX);
      ClearAll(d, MIN_MAX)
  }

  /** SET_BIT on `s` when `c` holds, as one step of a routine that drives
      the group `segs`. */
  function SetIf(d: seq<bv8>, c: bool, s: Segment, segs: seq<Segment>): (r: seq<bv8>)
    requires |d| == DATA_SIZE && Placed(s) && s in segs
    ensures |r| == DATA_SIZE
    ensures c ==> Lit(r, s)
    ensures !c ==> r == d
    ensures Agree(d, r, Footprint(segs))
  {
    SetSegAgrees(d, s, segs);
    if c then SetSeg(d, s) else d
  }

  /** The shape shared by DispBurst, DispLeak, DispRev and DispVer: with
      `enable` the Russian symbol is lit exactly when `mode` and the English
      one exactly when not; without `enable` both go dark, whatever `mode`
      is. */
  function LanguagePair(d: seq<bv8>, enable: bool, mode: bool, ru: Segment, en: Segment): (r: seq<bv8>)
    requires |d| == DATA_SIZE && Placed(ru) && Placed(en) && Apart(ru, en)
    ensures |r| == DATA_SIZE
    ensures enable ==> Lit(r, ru) == mode && Lit(r, en) == !mode
    ensures !enable ==> r == ClearMask(d, Footprint([ru, en])) && !Lit(r, ru) && !Lit(r, en)
    ensures Agree(d, r, Footprint([ru, en]))
  {
    if enable then Toggle(d, mode, ru, en)
    else
      ClearedDark(d, [ru, en]);
      ClearAll(d, [ru, en])
  }

  /** The shape of DispSP and DispRP: with `enable` the symbol of the chosen
      language is lit and nothing else changes, so the other language's
      symbol keeps its state (the two are not exclusive); without `enable`
      both go dark. */
  function Either(d: seq<bv8>, enable: bool, mode: bool, ru: Segment, en: Segment): (r: seq<bv8>)
    requires |d| == DATA_SIZE && Placed(ru) && Placed(en)
    ensures |r| == DATA_SIZE
    ensures enable ==> Lit(r, if mode then ru else en) && Agree(d, r, Footprint([if mode then ru else en]))
    ensures !enable ==> r == ClearMask(d, Footprint([ru, en])) && !Lit(r, ru) && !Lit(r, en)
    ensures Agree(d, r, Footprint([ru, en]))
  {
    if enable then
      var s := if mode then ru else en;
      var r := SetIf(d, true, s, [s]);
      AgreeWithin(d, r, [s], [ru, en]);
      r
    else
      ClearedDark(d, [ru, en]);
      ClearAll(d, [ru, en])
  }

  /** The shape of DispFlowGAL, DispFlowFT and DispGal: with `enable` the
      unit symbol is lit and its qualifier (per hour, per minute, US) is lit
      exactly when `q`; without `enable` both go dark, whatever `q` is. */
  function Qualified(d: seq<bv8>, enable: bool, unit: Segment, qualifier: Segment, q: bool): (r: seq<bv8>)
    requires |d| == DATA_SIZE && Placed(unit) && Placed(qualifier) && Apart(unit, qualifier)
    ensures |r| == DATA_SIZE
    ensures enable ==> Lit(r, unit) && Lit(r, qualifier) == q
    ensures !enable ==> r == ClearMask(d, Footprint([unit, qualifier])) && !Lit(r, unit) && !Lit(r, qualifier)
    ensures Agree(d, r, Footprint([unit, qualifier]))
  {
    if enable then
      var d1 := SetIf(d, true, unit, [unit, qualifier]);
      var r := Switch(d1, q, qualifier);
      AgreeWithin(d1, r, [qualifier], [unit, qualifier]);
      AgreeTrans(d, d1, r, Footprint([unit, qualifier]));
      r
    else
      ClearedDark(d, [unit, qualifier]);
      ClearAll(d, [unit, qualifier])
  }

  const ENERGY_J: seq<Segment> := [GJ, GJ_H, GCAL, GCAL_H]

  /** CN91C4S96DispEnergyJ(enable, mode, perH): with `enable` the Gcal
      (`mode`) or GJ unit is lit, its per-hour symbol exactly when `perH`,
      and the other unit's symbols are left as they were; without `enable`
      all four go dark. */
  function EnergyJ(d: seq<bv8>, enable: bool, mode: bool, perH: bool): (r: seq<bv8>)
    requires |d| == DATA_SIZE
    ensures |r| == DATA_SIZE
    ensures enable && mode ==>
      Lit(r, GCAL) && Lit(r, GCAL_H) == perH && Agree(d, r, Footprint([GCAL, GCAL_H]))
    ensures enable && !mode ==>
      Lit(r, GJ) && Lit(r, GJ_H) == perH && Agree(d, r, Footprint([GJ, GJ_H]))
    ensures !enable ==> r == ClearMask(d, Footprint(ENERGY_J)) && forall s :: s in ENERGY_J ==> !Lit(r, s)
    ensures Agree(d, r, Footprint(ENERGY_J))
  {
    if enable then
      var unit, perHour := if mode then GCAL else GJ, if mode then GCAL_H else GJ_H;
      var r := Qualified(d, true, unit, perHour, perH);
      AgreeWithin(d, r, [unit, perHour], ENERGY_J);
      r
    else
      ClearedDark(d, ENERGY_J);
      ClearAll(d, ENERGY_J)
  }

  const ENERGY_W: seq<Segment> := [W, KW, MW, WH]

  /** CN91C4S96DispEnergyW(enable, M, perH): with `enable` W is lit, MW
      exactly when `M` and kW exactly when not, and Wh exactly when `perH`;
      without `enable` all four go dark. */
  function EnergyW(d: seq<bv8>, enable: bool, M: bool, perH: bool): (r: seq<bv8>)
    requires |d| == DATA_SIZE
    ensures |r| == DATA_SIZE
    ensures enable ==> Lit(r, W) && Lit(r, MW) == M && Lit(r, KW) == !M && Lit(r, WH) == perH
    ensures !enable ==> r == ClearMask(d, Footprint(ENERGY_W)) && forall s :: s in ENERGY_W ==> !Lit(r, s)
    ensures Agree(d, r, Footprint(ENERGY_W))
  {
    if enable then
      var d1 := SetIf(d, true, W, ENERGY_W);
      var d2 := Toggle(d1, M, MW, KW);
      var r := Switch(d2, perH, WH);
      AgreeWithin(d1, d2, [MW, KW], ENERGY_W);
      AgreeWithin(d2, r, [WH], ENERGY_W);
      AgreeTrans(d, d1, d2, Footprint(ENERGY_W));
      AgreeTrans(d, d2, r, Footprint(ENERGY_W));
      r
    else
      ClearedDark(d, ENERGY_W);
      ClearAll(d, ENERGY_W)
  }

  const FLOW_M3: seq<Segment> := [M3, M3_H, M3_H_EN]

  /** CN91C4S96DispFlowM3(enable, mode, perH): with `enable` m3 is lit;
      with `perH` also the per-hour symbol, plus the English "h" exactly
      when not `mode`; without `perH` both per-hour symbols go dark.
      Without `enable` all three go dark. */
  function FlowM3(d: seq<bv8>, enable: bool, mode: bool, perH: bool): (r: seq<bv8>)
    requires |d| == DATA_SIZE
    ensures |r| == DATA_SIZE
    ensures enable ==> Lit(r, M3)
    ensures enable && perH ==> Lit(r, M3_H) && Lit(r, M3_H_EN) == !mode
    ensures enable && !perH ==> !Lit(r, M3_H) && !Lit(r, M3_H_EN)
    ensures !enable ==> r == ClearMask(d, Footprint(FLOW_M3)) && forall s :: s in FLOW_M3 ==> !Lit(r, s)
    ensures Agree(d, r, Footprint(FLOW_M3))
  {
    if !enable then
      ClearedDark(d, FLOW_M3);
      ClearAll(d, FLOW_M3)
    else if perH then
      var d1 := SetIf(d, true, M3, FLOW_M3);
      var d2 := SetIf(d1, true, M3_H, FLOW_M3);
      var r := Switch(d2, !mode, M3_H_EN);
      AgreeWithin(d2, r, [M3_H_EN], FLOW_M3);
      AgreeTrans(d, d1, d2, Footprint(FLOW_M3));
      AgreeTrans(d, d2, r, Footprint(FLOW_M3));
      r
    else
      var d1 := SetIf(d, true, M3, FLOW_M3);
      var r := ClearAll(d1, [M3_H, M3_H_EN]);
      ClearedDark(d1, [M3_H, M3_H_EN]);
      KeptLit(d1, r, [M3_H, M3_H_EN], M3);
      AgreeWithin(d1, r, [M3_H, M3_H_EN], FLOW_M3);
      AgreeTrans(d, d1, r, Footprint(FLOW_M3));
      r
  }

  const POV_GROUP: seq<Segment> := [POV, VER_RU]

  /** CN91C4S96DispPOV(enable): POV and the bit VER_RU also uses are both
      lit with `enable` and both dark without it. */
  function Pov(d: seq<bv8>, enable: bool): (r: seq<bv8>)
    requires |d| == DATA_SIZE
    ensures |r| == DATA_SIZE
    ensures Lit(r, POV) == enable && Lit(r, VER_RU) == enable
    ensures !enable ==> r == ClearMask(d, Footprint(POV_GROUP))
    ensures Agree(d, r, Footprint(POV_GROUP))
  {
    if enable then
      var d1 := SetIf(d, true, POV, POV_GROUP);
      var r := SetIf(d1, true, VER_RU, POV_GROUP);
      AgreeTrans(d, d1, r, Footprint(POV_GROUP));
      r
    else
      ClearedDark(d, POV_GROUP);
      ClearAll(d, POV_GROUP)
  }

  const BATTERY: seq<Segment> := [BAT1, BAT4, BAT2, BAT3]

  /** CN91C4S96batteryLevel(percents): the outline BAT4 is always lit, BAT1
      above 75 %, BAT2 above 50 % and BAT3 above 25 %; nothing outside the
      battery changes. */
  function Battery(d: seq<bv8>, percents: uint8): (r: seq<bv8>)
    requires |d| == DATA_SIZE
    ensures |r| == DATA_SIZE
    ensures Lit(r, BAT4)
    ensures Lit(r, BAT1) == (percents > 75)
    ensures Lit(r, BAT2) == (percents > 50)
    ensures Lit(r, BAT3) == (percents > 25)
    ensures Agree(d, r, Footprint(BATTERY))
  {
    var d1 := ClearAll(d, BATTERY);
    ClearedDark(d, BATTERY);
    var d2 := SetIf(d1, true, BAT4, BATTERY);
    var d3 := SetIf(d2, percents > 75, BAT1, BATTERY);
    var d4 := SetIf(d3, percents > 50, BAT2, BATTERY);
    var r := SetIf(d4, percents > 25, BAT3, BATTERY);
    AgreeTrans(d, d1, d2, Footprint(BATTERY));
    AgreeTrans(d, d2, d3, Footprint(BATTERY));
    AgreeTrans(d, d3, d4, Footprint(BATTERY));
    AgreeTrans(d, d4, r, Footprint(BATTERY));
    r
  }

  const SIGNAL: seq<Segment> := [SIG1, SIG2, SIG3]

  /** CN91C4S96SignalLevel(percents): SIG3 is lit above 60 %, SIG2 above
      30 % and SIG1 above 0 %; nothing outside the signal bars changes, in
      particular no battery segment. */
  function Signal(d: seq<bv8>, percents: uint8): (r: seq<bv8>)
    requires |d| == DATA_SIZE
    ensures |r| == DATA_SIZE
    ensures Lit(r, SIG3) == (percents > 60)
    ensures Lit(r, SIG2) == (percents > 30)
    ensures Lit(r, SIG1) == (percents > 0)
    ensures Agree(d, r, Footprint(SIGNAL))
    ensures forall s :: s in BATTERY ==> Lit(r, s) == Lit(d, s)
  {
    var d1 := ClearAll(d, SIGNAL);
    ClearedDark(d, SIGNAL);
    var d2 := SetIf(d1, percents > 60, SIG3, SIGNAL);
    var d3 := SetIf(d2, percents > 30, SIG2, SIGNAL);
    var r := SetIf(d3, percents > 0, SIG1, SIGNAL);
    AgreeTrans(d, d1, d2, Footprint(SIGNAL));
    AgreeTrans(d, d2, d3, Footprint(SIGNAL));
    AgreeTrans(d, d3, r, Footprint(SIGNAL));
    forall s | s in BATTERY
      ensures Lit(r, s) == Lit(d, s)
    {
      KeptLit(d, r, SIGNAL, s);
    }
    r
  }

  /** Both gauges are monotone: every segment lit at a level stays lit at
      any higher level. */
  lemma {:induction false} LevelsMonotone(d: seq<bv8>, p: uint8, q: uint8)
    requires |d| == DATA_SIZE && p <= q
    ensures forall s :: s in BATTERY && Lit(Battery(d, p), s) ==> Lit(Battery(d, q), s)
    ensures forall s :: s in SIGNAL && Lit(Signal(d, p), s) ==> Lit(Signal(d, q), s)
  {
  }

  /** batteryBufferClear clears BAT1 | BAT4 and BAT2 | BAT3 with one
      CLEAR_BIT per byte; that is the same as clearing the four segments
      one by one. */
  lemma {:induction false} BatteryClearedTogether(d: seq<bv8>)
    requires |d| == DATA_SIZE
    ensures ClearSeg(ClearSeg(d, Segment(BAT1.pos, BAT1.mask | BAT4.mask)), Segment(BAT2.pos, BAT2.mask | BAT3.mask))
         == ClearAll(d, BATTERY)
  {
    var a1 := ClearSeg(d, Segment(BAT1.pos, BAT1.mask | BAT4.mask));
    var b2 := ClearSeg(ClearSeg(d, BAT1), BAT4);
    ClearTwice(d[BAT1.pos], BAT1.mask, BAT4.mask);
    assert a1 == b2;
    ClearTwice(a1[BAT2.pos], BAT2.mask, BAT3.mask);
    ClearFour(d, BAT1, BAT4, BAT2, BAT3);
  }
}
