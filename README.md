# CN91C4S96 segment-buffer engine in Dafny

This project models the display-buffer engine of the CN91C4S96 segment LCD
driver (`src/CN91C4S96.c`, `src/CN91C4S96.h`) and proves properties of it.

The driver keeps two buffers:

- `BufferSend`: 18 bytes. Two header bytes (address and mode) are followed
  by the 16-byte data view `Buffer`, where every lit symbol of the panel is
  one bit.
- `BufferSendOld`: a shadow copy of the frame last written to the
  controller.

Each exported routine sets or clears bit masks in `Buffer`. The routines are:

- the text routines `printStr`, `printNum`, `printFixed` and `printDate`,
  which render through the 96-entry glyph table and `BufferToAscii`;
- the decimal- and date-point routines;
- the battery and signal gauges;
- every `CN91C4S96Disp*` indicator.

`wrBuffer` stamps the header, compares the frame with the shadow and sends
it only when it changed.

The model is in layers:

| module | file | what it holds |
|---|---|---|
| `Segments` | segments.dfy | buffer sizes; `SET_BIT`/`CLEAR_BIT` on a byte; one `Segment(pos, mask)` per named symbol; agreement of two data views outside a mask |
| `Glyphs` | glyphs.dfy | the `ascii[]` table and how a 7-bit glyph splits over the two bytes of a digit position, with its decode |
| `Frame` | frame.dfy | pure description of `BufferToAscii` and the digit/dot masks on the 16-byte view |
| `Formatting` | formatting.dfy | 32-bit ranges, clamping, decimal digits, the strings `printNum` and `printDate` build, the multiplier-to-precision chain |
| `Icons` | icons.dfy | `LCD_SWITCH`, `LCD_TOGGLE`, the gauges and every indicator group as functions on the data view |
| `Encoder` | encoder.dfy | the text and point routines as functions on the data view, with what each leaves shown |
| `Transmit` | transmit.dfy | the `wrCmd` command byte and the change-detecting flush on values, with a trace of the frames sent |
| `Bytes` | bytes.dfy | `reverseBytes` as an in-place method on an array |
| `Lcd` | lcd.dfy | class `Display` with the arrays `send` and `shadow` and a ghost trace `sent`; one method per driver routine, each proved to leave the data view as its `Encoder`/`Icons` function says, the header untouched, and the trace consistent |

In the model, `Buffer[i]` is `send[i + 2]`. Character position `i` (0 is the
leftmost of nine) owns two fields:

- bits 4-6 of `Buffer[14 - i]` hold glyph bits 0-2;
- bits 0-3 of `Buffer[13 - i]` hold glyph bits 4-6 and segment D (bit 3).

`Frame.Decode` reads a position's glyph back from those two fields.

Several interactions between symbols follow from the source's constants,
and the contracts state them rather than assume them away:

- `BAT1`/`SP_EN` (bit 4 of `Buffer[3]`) and `BAT4`/`RP_EN` (bit 5 of
  `Buffer[3]`) are the same bits.
- `DispPOV` also drives the `VER_RU` bit.
- `DispEnergyJ` sets the chosen unit (GJ or Gcal) but never clears the
  other one. After `DispEnergyJ(true, false, …)` and then
  `DispEnergyJ(true, true, …)` both units are lit. `Icons.EnergyJ` states
  this as written; whether the units were meant to be exclusive cannot be
  told from the code.
- `LCD_TOGGLE` sets one segment and then clears the other, so on two
  segments that share a bit it leaves that bit off. `Icons.Toggle` states
  exactly one lit only under its `Apart` guard.

## Model

| member | source | states |
|---|---|---|
| Segments.SetBits | src/CN91C4S96.c:57-59 | after `SET_BIT` every bit of the mask is on and every other bit is as before |
| Segments.ClearBits | src/CN91C4S96.c:61-63 | after `CLEAR_BIT` (as the CMSIS headers define it) every bit of the mask is off and every other bit is as before |
| Segments.ClearBitsFallback | src/CN91C4S96.c:61-63 | the fallback `CLEAR_BIT` written with `\|=`: every bit of the mask is on afterwards and every other bit is as before |
| Segments.FallbackClearTurnsBitsOn | src/CN91C4S96.c:61-63 | for a non-zero mask the fallback `CLEAR_BIT` never gives the same byte as a clear |
| Segments.ClearAll | src/CN91C4S96.c:462-483 | clearing a group segment by segment turns off exactly the group's footprint bits and nothing else |
| Segments.ClearedDark | src/CN91C4S96.c:688-694 | after the group is cleared, no segment of it is lit |
| Segments.SetSegAgrees | src/CN91C4S96.c:70 | setting or clearing one segment of a group changes nothing outside the group's footprint |
| Segments.KeptLit | src/CN91C4S96.c:871-888 | a segment outside a footprint keeps its state when only footprint bits change |
| Segments.AgreeTrans | src/CN91C4S96.c:675-1019 | "nothing outside the mask changed" composes over a sequence of writes |
| Glyphs.Glyph | src/CN91C4S96.c:280-295 | every table entry is below 0x80 (seven segments), and a character outside `' '..0x7F` gets the blank pattern |
| Glyphs.GlyphIgnoresCase | src/CN91C4S96.c:284-294 | each lower-case letter has a table entry, and it is the same as the entry for the upper-case letter |
| Glyphs.DigitGlyphsDiffer | src/CN91C4S96.c:285 | the ten digits have ten distinct, non-blank patterns |
| Glyphs.SplitRoundTrip | src/CN91C4S96.c:512-514 | the split of a glyph stays inside masks 0x70 and 0x0F, and decoding the two fields gives the glyph back |
| Glyphs.DecodeReadsOnlyFields | src/CN91C4S96.c:512-514 | decoding depends only on the two field masks; stray bits elsewhere in the bytes are ignored |
| Glyphs.DecodeOfOr | src/CN91C4S96.c:512-514 | OR-ing a glyph's split onto two bytes ORs the glyph onto what they decode to |
| Frame.StrLen | src/CN91C4S96.c:500 | the string length is the index of the first NUL: all characters before it are non-zero |
| Frame.Shown | src/CN91C4S96.c:500 | `BufferToAscii` renders `MIN(DISPLAY_SIZE, strlen)` characters, never more than nine and never past the string |
| Frame.RenderedDecode | src/CN91C4S96.c:498-517 | after `BufferToAscii`, a rendered position reads as its old contents OR the character's glyph (0 when undisplayable: both fields cleared); unrendered positions read as before |
| Frame.RenderedAgree | src/CN91C4S96.c:498-517 | `BufferToAscii` changes no bit outside the fields of the rendered positions (minus, dots, MIN/MAX and every icon are kept) |
| Frame.RenderStep | src/CN91C4S96.c:503-516 | one loop iteration of `BufferToAscii` moves the rendered prefix on by exactly one character |
| Frame.DotsStep | src/CN91C4S96.c:468-474 | one iteration of the `dotsBufferClear` loop extends the cleared dot mask by one point |
| Frame.LettersStep | src/CN91C4S96.c:476-483 | one iteration of the `lettersBufferClear` loop extends the cleared field mask by one position |
| Formatting.Clamp | src/CN91C4S96.c:528-531 | the clamped value lies in `[MIN_NUM, MAX_NUM]`, is the input when it is in range, and is the closest value in range otherwise |
| Formatting.MinusValuesFillTheDisplay | src/CN91C4S96.c:662-673 | a value with the minus extracted (below -99,999,999) has exactly nine digits after negation, and the negation stays within `MAX_NUM` |
| Formatting.Digits | src/CN91C4S96.c:555 | `%li` of `v >= 1` is `DecimalLength(v)` characters, all digits, with no leading zero |
| Formatting.DigitsRoundTrip | src/CN91C4S96.c:555-560 | the decimal digits read back as the value |
| Formatting.NineDigits | src/CN91C4S96.c:540 | `1 + log10(v)` for `1 <= v <= 999,999,999` counts between 1 and 9 digits |
| Formatting.PaddingReadsAsNothing | src/CN91C4S96.c:541-551 | leading blanks and zeros do not change the number a row of digits reads as |
| Formatting.NumTextReadsBack | src/CN91C4S96.c:540-561 | the nine characters `printNum` builds read back as the value whatever the precision, and every one of them has a glyph |
| Formatting.BuildNumText | src/CN91C4S96.c:540-561 | the padding and copy loops produce the nine-character text plus NUL: position `i < 9-k` is `' '` before `8-precision` and `'0'` from there, and the last `k` positions are the digits of `v` |
| Formatting.DateTextRoundTrip | src/CN91C4S96.c:619-634 | for each field in `-9..99` (the values `%02i` writes in two characters), `"   DDMMYY"` starts with three blanks and each two-character field reads back, sign included, as day, month and year; every character is displayable and non-NUL |
| Formatting.Precision | src/CN91C4S96.c:595-608 | a precision `p >= 1` means the multiplier is `10^p`; precision 0 means the multiplier is none of `10^1 .. 10^5` |
| Icons.Switch | src/CN91C4S96.c:70 | `LCD_SWITCH` leaves the segment lit exactly when enabled and changes no other bit |
| Icons.Toggle | src/CN91C4S96.c:71-83 | `LCD_TOGGLE` leaves the segment written last dark; for disjoint segments exactly one is lit (the first when enabled); nothing else changes |
| Icons.MinMax | src/CN91C4S96.c:675-695 | enabled: the chosen language pair is toggled and the other pair is untouched; disabled: all four MIN/MAX symbols are cleared whatever the other flags |
| Icons.LanguagePair | src/CN91C4S96.c:697-757 | enabled: the Russian symbol is lit iff `mode` and the English one iff not; disabled: both cleared; nothing else changes |
| Icons.Either | src/CN91C4S96.c:796-834 | enabled: the selected symbol is lit and the other one is left as it was (they are not exclusive); disabled: both cleared |
| Icons.Qualified | src/CN91C4S96.c:960-1005 | enabled: the unit is lit and its qualifier follows the flag; disabled: both cleared |
| Icons.EnergyJ | src/CN91C4S96.c:895-917 | enabled: GJ or Gcal by `mode` is lit and its `/h` follows `perH`; the other unit and its `/h` are left as they were (the units are not exclusive); disabled: all four cleared |
| Icons.EnergyW | src/CN91C4S96.c:919-934 | enabled: W lit, MW iff `M`, kW iff not, Wh iff `perH`; disabled: all four cleared |
| Icons.FlowM3 | src/CN91C4S96.c:936-958 | enabled: m3 lit, with `perH` the `/h` lit and the English `/h` iff not `mode`, without `perH` both dark; disabled: all three cleared |
| Icons.Pov | src/CN91C4S96.c:1007-1019 | the POV segment and the shared VER_RU bit both follow `enable`; disabled clears exactly them |
| Icons.Battery | src/CN91C4S96.c:444-460 | BAT4 always lit, BAT1 iff above 75 %, BAT2 iff above 50 %, BAT3 iff above 25 %; nothing outside the battery changes |
| Icons.Signal | src/CN91C4S96.c:871-888 | SIG3 iff above 60 %, SIG2 iff above 30 %, SIG1 iff above 0 %; no battery segment and nothing outside the bars changes |
| Icons.LevelsMonotone | src/CN91C4S96.h:276-281 | every gauge segment lit at one level stays lit at any higher level |
| Icons.BatteryClearedTogether | src/CN91C4S96.c:462-466 | the two combined-mask `CLEAR_BIT`s of `batteryBufferClear` clear the same bits as clearing the four battery segments one by one |
| Encoder.DotsClearedFacts | src/CN91C4S96.c:468-474 | after `dotsBufferClear` no decimal point is lit and only dot bits changed |
| Encoder.LettersClearedFacts | src/CN91C4S96.c:476-483 | after `lettersBufferClear` every position reads blank and only digit-field bits changed |
| Encoder.PrintStrShows | src/CN91C4S96.c:519-524 | after `printStr` position `i` shows the glyph of `s[i]` (blank if undisplayable) for `i < MIN(9, strlen)` and blank after; no dot is lit; nothing outside the text mask changes |
| Encoder.WithSign | src/CN91C4S96.c:662-673 | after `showMinus` the minus segment is lit exactly when the value is below -99,999,999; only the minus bit changes |
| Encoder.LastDigitShown | src/CN91C4S96.c:538-561 | in the default build, `printNum` always shows a non-blank glyph in the last position (the value's last digit) |
| Encoder.AnnexKPrintNumShowsNothing | src/CN91C4S96.c:552-553 | in the `__STDC_WANT_LIB_EXT1__ == 1` build, the string ends after the `9 - k` blanks of `%9li`, every position is blank, and only the minus follows the value; the default build shows a digit in the last position |
| Encoder.PrintNumShows | src/CN91C4S96.c:526-562 | after `printNum`: minus lit iff the clamped value is below -99,999,999; the rendered magnitude `v` (the negation when the sign was taken off) is in `1..MAX_NUM`; the nine positions show `NumText(v, precision)`, which reads back as `v`; no dot lit; only dots, digit fields and minus change |
| Encoder.WithDecimalDot | src/CN91C4S96.c:636-645 | after `decimalSeparator(p)` point `k` is lit exactly when `k == p`, so none for `p` outside `1..5`; only dot bits change |
| Encoder.WithDateDots | src/CN91C4S96.c:647-660 | after `dateSeparator(a, b)` point `k` is lit exactly when both `a` and `b` are in `1..5` and `k` is one of them; only dot bits change |
| Encoder.PrintFixedShows | src/CN91C4S96.c:593-617 | `printFixed` shows the digits and sign `printNum` shows at the precision chosen by the multiplier, the point of that precision is the only one lit, and nothing outside the dots, the digit fields and the minus changes |
| Encoder.PrintDateShows | src/CN91C4S96.c:619-634 | `printDate` ORs each character's glyph onto the position without clearing it first: the three leading positions keep what they showed; a blank position shows the character of the date text (a digit, or the dash of a negative field in `-9..99`); points 2 and 4 only are lit; nothing outside the text mask changes |
| Transmit.CommandByte | src/CN91C4S96.c:420-442 | the command byte has the mode bit 1 in bit 7 and the low seven bits of the command below it |
| Transmit.CommandByteKeepsSevenBits | src/CN91C4S96.c:437-438 | two commands give the same byte exactly when their low seven bits agree |
| Transmit.Stamped | src/CN91C4S96.c:410-411 | the header becomes `0xE8, 0x00` and every data byte is kept |
| Transmit.Flush | src/CN91C4S96.c:408-418 | `wrBuffer` stamps the header, leaves the shadow equal to the frame, and appends the frame to the trace exactly when it differs from the shadow |
| Transmit.FlushIdempotent | src/CN91C4S96.c:408-418 | a second flush with no change in between sends nothing and changes nothing |
| Transmit.FlushKeepsConsistent | src/CN91C4S96.c:408-418 | the shadow stays equal to the last frame sent; no frame is sent twice in a row; a zero frame is never sent first; afterwards the panel holds the stamped frame |
| Transmit.FlushWritesIffChanged | src/CN91C4S96.c:412-416 | the trace grows by one frame exactly when the stamped frame differs from what the panel shows, otherwise it is unchanged; earlier frames are kept |
| Bytes.ReverseBytes | src/CN91C4S96.c:386-399 | the byte array afterwards is the reverse of its old contents |
| Bytes.ReversedInvolution | src/CN91C4S96.c:386-399 | reversing twice gives the bytes back |
| Lcd.Display.constructor | src/CN91C4S96.c:65-68 | both 18-byte buffers start zeroed and nothing has been sent |
| Lcd.Display.DotsBufferClear | src/CN91C4S96.c:468-474 | the loop clears bit 7 of `Buffer[6..10]` and changes nothing else |
| Lcd.Display.LettersBufferClear | src/CN91C4S96.c:476-483 | the loop clears the two fields of all nine positions |
| Lcd.Display.BatteryBufferClear | src/CN91C4S96.c:462-466 | the four battery segments are cleared |
| Lcd.Display.BufferToAscii | src/CN91C4S96.c:498-517 | the loop leaves the data view as `Frame.Rendered` of the string |
| Lcd.Display.PrintStr | src/CN91C4S96.c:519-524 | the data view becomes `Encoder.ShowStr` of the string |
| Lcd.Display.ShowMinus | src/CN91C4S96.c:662-673 | lights or clears the minus segment and returns the negated value exactly when it lit it |
| Lcd.Display.PrintNum | src/CN91C4S96.c:526-562 | the data view becomes `Encoder.ShowNum` |
| Lcd.Display.PrintFixed | src/CN91C4S96.c:593-617 | the data view becomes `Encoder.ShowFixed` |
| Lcd.Display.PrintDate | src/CN91C4S96.c:619-634 | for each field in `-9..99`, the data view becomes `Encoder.ShowDate` |
| Lcd.Display.DecimalSeparator | src/CN91C4S96.c:636-645 | the data view becomes `Encoder.WithDecimalDot` |
| Lcd.Display.DateSeparator | src/CN91C4S96.c:647-660 | the data view becomes `Encoder.WithDateDots` |
| Lcd.Display.BatteryLevel | src/CN91C4S96.c:444-460 | the data view becomes `Icons.Battery` |
| Lcd.Display.SignalLevel | src/CN91C4S96.c:871-888 | the data view becomes `Icons.Signal` |
| Lcd.Display.SetBit | src/CN91C4S96.c:57-59 | `SET_BIT` on `Buffer[pos]`: the data view becomes `Segments.SetSeg` of the old one, and the header is untouched |
| Lcd.Display.ClearBit | src/CN91C4S96.c:61-63 | `CLEAR_BIT` on `Buffer[pos]` (the `&= ~` form): the data view becomes `Segments.ClearSeg` of the old one, and the header is untouched |
| Lcd.Display.Switch | src/CN91C4S96.c:70 | `LCD_SWITCH`: the data view becomes `Icons.Switch`, so the segment is lit exactly when enabled and no other bit changes |
| Lcd.Display.Toggle | src/CN91C4S96.c:71-83 | `LCD_TOGGLE`: set one segment, then clear the other; the data view becomes `Icons.Toggle` |
| Lcd.Display.LanguagePair | src/CN91C4S96.c:697-757 | the shared body of the Russian/English indicator pairs: the data view becomes `Icons.LanguagePair` |
| Lcd.Display.Either | src/CN91C4S96.c:796-834 | the shared body of `DispSP` and `DispRP`: the data view becomes `Icons.Either` |
| Lcd.Display.Qualified | src/CN91C4S96.c:960-1005 | the shared body of a unit and its qualifier: the data view becomes `Icons.Qualified` |
| Lcd.Display.CopyToShadow | src/CN91C4S96.c:415 | the `memcpy` into `BufferSendOld`: the shadow holds exactly the bytes of the send buffer |
| Lcd.Display.DispMinMax | src/CN91C4S96.c:675-695 | the data view becomes `Icons.MinMax` |
| Lcd.Display.DispBurst | src/CN91C4S96.c:697-708 | the BURST language pair, as `Icons.LanguagePair` |
| Lcd.Display.DispLeak | src/CN91C4S96.c:710-721 | the LEAK language pair, as `Icons.LanguagePair` |
| Lcd.Display.DispRev | src/CN91C4S96.c:723-734 | the REV language pair, as `Icons.LanguagePair` |
| Lcd.Display.DispVer | src/CN91C4S96.c:746-757 | the VER language pair, as `Icons.LanguagePair` |
| Lcd.Display.DispSP | src/CN91C4S96.c:796-814 | the SP pair, as `Icons.Either` |
| Lcd.Display.DispRP | src/CN91C4S96.c:816-834 | the RP pair, as `Icons.Either` |
| Lcd.Display.DispFlowGAL | src/CN91C4S96.c:960-972 | gal with its per-minute qualifier, as `Icons.Qualified` |
| Lcd.Display.DispFlowFT | src/CN91C4S96.c:974-986 | ft3 with its per-minute qualifier, as `Icons.Qualified` |
| Lcd.Display.DispGal | src/CN91C4S96.c:993-1005 | GALLONS with the US qualifier, as `Icons.Qualified` |
| Lcd.Display.DispEnergyJ | src/CN91C4S96.c:895-917 | the data view becomes `Icons.EnergyJ` |
| Lcd.Display.DispEnergyW | src/CN91C4S96.c:919-934 | the data view becomes `Icons.EnergyW` |
| Lcd.Display.DispFlowM3 | src/CN91C4S96.c:936-958 | the data view becomes `Icons.FlowM3` |
| Lcd.Display.DispPOV | src/CN91C4S96.c:1007-1019 | the data view becomes `Icons.Pov` |
| Lcd.Display.DispSN | src/CN91C4S96.c:759-769 | SN follows `enable`, as `Icons.Switch` |
| Lcd.Display.DispFrost | src/CN91C4S96.c:736-739 | FROST follows `enable`, as `Icons.Switch` |
| Lcd.Display.DispQ | src/CN91C4S96.c:741-744 | Q follows `enable` |
| Lcd.Display.DispWarn | src/CN91C4S96.c:771-774 | WARN follows `enable` |
| Lcd.Display.DispMagn | src/CN91C4S96.c:776-779 | MAGNET follows `enable` |
| Lcd.Display.DispLeft | src/CN91C4S96.c:781-784 | LEFT follows `enable` |
| Lcd.Display.DispRight | src/CN91C4S96.c:786-789 | RIGHT follows `enable` |
| Lcd.Display.DispNoWater | src/CN91C4S96.c:791-794 | NOWATER follows `enable` |
| Lcd.Display.DispCRC | src/CN91C4S96.c:836-839 | CRC follows `enable` |
| Lcd.Display.DispDelta | src/CN91C4S96.c:841-844 | DELTA follows `enable` |
| Lcd.Display.DispT | src/CN91C4S96.c:846-849 | T follows `enable` |
| Lcd.Display.Disp1 | src/CN91C4S96.c:851-854 | T1 follows `enable` |
| Lcd.Display.DispT2 | src/CN91C4S96.c:856-859 | T2 follows `enable` |
| Lcd.Display.DispNBFi | src/CN91C4S96.c:861-864 | NBFI follows `enable` |
| Lcd.Display.DispNBIoT | src/CN91C4S96.c:866-869 | NBIOT follows `enable` |
| Lcd.Display.DispDegreePoint | src/CN91C4S96.c:890-893 | the degree point follows `enable` |
| Lcd.Display.DispMMBTU | src/CN91C4S96.c:988-991 | MMBTU follows `enable` |
| Lcd.Display.StampHeader | src/CN91C4S96.c:410-411 | the first two bytes of the frame become `0xE8, 0x00` |
| Lcd.Display.DispWrite | src/CN91C4S96.c:1021-1024 | the buffers and the trace move as `Transmit.Flush` says, and the trace stays consistent |

Every `Lcd.Display` method that changes the data view also ensures that the
two header bytes are unchanged and that the class invariant `Valid()` still
holds. `Valid()` says that both arrays have 18 bytes, are distinct, and
that the shadow equals the last frame in the trace.

## Left out

- `CN91C4S96printFloat` (src/CN91C4S96.c:564-590): it uses float
  comparison and `pow` scaling, and no floating point is modelled. The
  minus bit it sets is cleared again by `showMinus` inside `printNum`.
- `AllClear` / `clear` (src/CN91C4S96.c:485-496): the loop writes
  `Buffer[2..17]`, which runs past the end of the 18-byte `BufferSend`, and
  it never clears `Buffer[1]`. It is not declared in the header. It is not
  part of this model.
- Transport: `wrBytes`, the HAL function pointers (`InitI2C`, `WriteI2C`,
  `WaitI2C`), `assert_param`, `CN91C4S96Init` and `displayOn` /
  `displayOff` / `displayData`. These are I2C plumbing. A frame handed to
  the transport is recorded in the ghost trace, and the status byte
  returned by `WriteI2C` is ignored, as the driver ignores it.
- Transmit.CommandByte: assumes the forced `LITTLE_ENDIAN` and GCC's
  bit-field order. The command is not sent: `wrCmd` passes it to `wrBytes`
  and calls `WaitI2C`, and both are left out.
- The unused union `tDataSeq` (src/CN91C4S96.c:305-325): it depends on the
  compiler's bit-field layout and nothing references it.
- Formatting.Renderable: `printNum` calls `log10` on the value left after
  the sign is taken off. For clamped values in `-99,999,999 .. 0` that
  value is not positive, and the result is undefined. `printNum` and
  `printFixed` require that their clamped value is `>= 1` or below
  `-99,999,999`. No result is invented for the other inputs.
- Encoder.PrintDateShows and Lcd.Display.PrintDate: require day, month
  and year in `-9..99`. A one-digit negative field is written as `-N`, and
  `-` has a glyph. Any other value makes `%02i` write three or more
  characters, so the field text is longer than six characters, and three
  blanks, that text and the NUL no longer fit the 10-byte `str`: `strcat`
  writes past its end (src/CN91C4S96.c:621-628). `snprintf` itself
  truncates only a field text longer than nine characters.
- Formatting.PrecisionFits: `printNum` requires `9 - precision` to be a
  32-bit value. For a precision at or below -2,147,483,639 the expression
  `DISPLAY_SIZE - precision - 1` (src/CN91C4S96.c:543) overflows `int`,
  which C leaves undefined.
- Formatting.BuildNumText, Lcd.Display.PrintNum and Lcd.Display.PrintDate
  follow the `#else` branches of the two `#if __STDC_WANT_LIB_EXT1__ == 1`
  blocks (src/CN91C4S96.c:552-556 and 623-629). That is the default build,
  since nothing defines the macro. In `printDate` the Annex K branch
  (`snprintf_s`, `strcat_s`) gives the same text on the `-9..99` domain.
  In `printNum` it does not: see "## Findings". That branch is modelled as
  written only by `Encoder.ShowNumAnnexK`.
- `strlen`, `snprintf`, `memcmp`, `memcpy` and `log10` are modelled by
  their results: `Frame.StrLen`, `Formatting.Digits`, sequence comparison,
  array copies and `Formatting.DecimalLength`.
- Bytes.ReverseBytes: the length is an unbounded `nat`, not an
  `unsigned int` counter against a `size_t` length. The array is a
  `bv8` array rather than an untyped `void *` region.
- Header comments that contradict the code are not followed:
  - "up to 6 characters" (src/CN91C4S96.h:77); the code renders 9;
  - "-99999 and 999999" (src/CN91C4S96.h:86-88); the code clamps to
    ±999,999,999;
  - "0 to 3 decimals" (src/CN91C4S96.h:95);
  - "DD-MM-YYYY" (src/CN91C4S96.h:110); the code renders `"   DDMMYY"`.
- The HAL structure of three operations (src/CN91C4S96.h:38-43) is not
  modelled beyond the trace of frames written.

## Findings

| source | as written | input that shows it | evidently intended | confidence | as-written member | corrected member |
|---|---|---|---|---|---|---|
| src/CN91C4S96.c:552-553 | the Annex K branch of `printNum` formats `%9li` into `str` instead of `strNum`; the copy loop at lines 557-560 then overwrites the digits with the zero bytes of `strNum` | `num = 123`: `str` becomes six blanks then NUL, so no digit is shown | `snprintf_s(strNum, sizeof(strNum), "%9li", num)`, as in the `#else` branch | not executed | Encoder.AnnexKPrintNumShowsNothing | Formatting.BuildNumText |
| src/CN91C4S96.c:61-63 | the fallback `CLEAR_BIT(REG, BIT)` is `((REG) \|= (BIT))`, which sets the bits | any byte `b` with mask `m != 0`: the result has every bit of `m` on, for example `b = 0x00, m = 0x80` gives `0x80` | `((REG) &= ~(BIT))`, as in the CMSIS header whose definition the guard defers to | not executed | Segments.FallbackClearTurnsBitsOn | Segments.ClearBits |

The fallback only takes effect when the platform header does not define
`CLEAR_BIT`. The rest of the model clears with `Segments.ClearBits`. The
Annex K branch only takes effect when `__STDC_WANT_LIB_EXT1__` is 1. The
rest of the model builds `printNum`'s text as the `#else` branch does
(`Formatting.BuildNumText`, whose text reads back as the value by
`Formatting.NumTextReadsBack`).
