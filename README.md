# 5x5x2 keyboard firmware core, modelled in Dafny

This project models the firmware of the 5x5x2 macro keyboard. The keyboard
has a 5 by 5 key matrix, a rotary encoder, 25 key LEDs and 8 backlight
LEDs, all 33 of them RGB LEDs driven over SPI. The model covers:

- **Matrix scan** (`matrix.dfy`): one row per call, debounced against a timer deadline, with key-up/key-down events derived from the difference between the committed row and the reported row.
- **Layers and keymap** (`layer.dfy`, `keymap.dfy`): the active layer, its one-shot and hold variants, and the three-dimensional keymap. `keymap_event` dispatches a key event to the handler its type names; `send_event_if_idle`, which the rotary encoder uses, sends it only when the matching USB endpoint is idle.
- **Rotary encoder** (`rotary.dfy`): a turn of the knob presses the event of its layer and direction, and the next call releases it.
- **Host reports** (`extrakey.dfy`, `mouse.dfy`): consumer, system, mouse and wheel keys become the HID reports handed to the USB layer.
- **LED pipeline**:
  - `palette.dfy`: the HSV palette;
  - `rgbmap.dfy`: the integer HSV-to-RGB conversion and the backlight rainbow;
  - `rgbease.dfy`: per-LED easing animations;
  - `light.dfy`: the per-layer light map and its status lights;
  - `rgbpixel.dfy` and `sk6812.dfy`: the two SPI drivers;
  - `spiencoding.dfy`: the bit-band encoding both drivers share, which turns a colour byte into the three-SPI-bit symbols the LEDs decode.
- **Serial command interpreter** (`command.dfy`): the one-letter commands with hexadecimal arguments that set colours, keymap cells, lights, rotary cells, palette entries and macros.

`config.dfy` holds the board constants of `config.h` and the column wiring.
`types.dfy` holds the shared value types. `arith.dfy` holds division facts
the other modules use.

Parts of the firmware that change state in place are classes with their
fields and arrays. Each method is proved against a specification function
of the old state. The properties the firmware promises are lemmas about
those functions. Hardware access, timers, USB and calls into modules
outside the model are handled in three ways:

- values they produce are parameters;
- calls the model makes to them are recorded in a log;
- anything else is listed under "Left out".

## Model

| member | source | states |
|---|---|---|
| Config.ColsDecode | config.h:57 | the decoded column reading is below 32; bits 0-2 stay in place and port bits 6-7 become key columns 3-4 |
| Config.ColsDecodeBijective | config.h:56-57 | on the pins COLS_BV selects, decoding is undone by the inverse wiring, and every 5-bit column pattern comes from exactly one port reading |
| Config.MasksMatchMatrixSize | config.h:48-56 | ROWS_BV selects exactly ROWS_NUM pins and COLS_BV exactly COLS_NUM pins |
| Config.LedIndexSpace | config.h:118-121 | there are 33 LEDs; indices 25 to 32 are the backlight, after the 25 key LEDs |
| SpiEncoding.StoreByte | rgbpixel.c:247-254 | one SPI byte after the bit-band stores of a colour byte; its bit positions are stated by StoreByteForm |
| SpiEncoding.StoreByteForm | rgbpixel.c:247-254 | the eight bit-band stores of one colour byte put its bits 0-2 at bits 1, 4, 7 of SPI byte 2, bits 3-4 at bits 2, 5 of byte 1 and bits 5-7 at bits 0, 3, 6 of byte 0, keeping every other bit |
| SpiEncoding.StoreKeepsFraming | rgbpixel.c:101-103 | a store changes only the data bits of the three SPI bytes, so a word with the preset framing keeps it |
| SpiEncoding.DecodeStore | rgbpixel.c:247-254 | reading the data bits of a stored word back gives the colour byte, whatever the word held |
| SpiEncoding.DecodeReadsData | rgbpixel.c:247-254 | the value read back depends only on the data bits |
| SpiEncoding.Waveform | rgbpixel.c:101-103 | on a framed word, the 24 line bits are `1 d 0` for every bit d of the colour byte, most significant first |
| SpiEncoding.PresetBufferFramed | rgbpixel.c:99-105 | a preset buffer has the framing bits of every position |
| SpiEncoding.RenderBufferFramed | rgbpixel.c:245-260 | rendering a frame into a framed buffer keeps it framed |
| SpiEncoding.RenderBufferDecodes | rgbpixel.c:245-260 | in a rendered framed buffer, the word of every LED and channel reads back as that colour byte and goes out as its symbols |
| SpiEncoding.RenderRoundTrip | rgbpixel.c:245-260 | reading a rendered buffer back gives exactly the frame, whatever the buffer held before |
| SpiEncoding.DecodeRenderedPixel | rgbpixel.c:245-260 | LED i of a rendered buffer reads back as pixel i of the frame |
| SpiEncoding.StoreColour | rgbpixel.c:247-254 | the stores change exactly the three bytes of the target word, each as StoreByte says |
| SpiEncoding.RenderPixel | rgbpixel.c:246-259 | the inner loop renders the green, red and blue bytes of LED i into its nine bytes and touches nothing else |
| SpiEncoding.RenderInto | rgbpixel.c:245-260 | the buffer becomes RenderBuffer of the frame and its old contents, other bytes are unchanged, and framing is kept |
| SpiEncoding.RenderedAreaFramed | rgbpixel.c:245-260 | rendering into one buffer at a word boundary of a framed double buffer leaves the whole area framed |
| SpiEncoding.PresetLed | rgbpixel.c:100-102 | the nine bytes of one LED receive the framing pattern by channel position, and no other byte changes |
| SpiEncoding.PresetInto | rgbpixel.c:99-105 | the buffer of n LEDs receives the framing pattern 0b10010010, 0b01001001, 0b00100100 in every word, and nothing else changes |
| SpiEncoding.StoreByteKeepsFraming | rgbpixel.c:247-254 | storing a colour byte keeps every bit outside the data mask of its SPI byte, so a framed byte stays framed |
| SpiEncoding.WaveformByte | rgbpixel.c:247-254 | each SPI byte of a stored framed word carries its three-bit symbols `1 d 0` for the colour bits it holds |
| SpiEncoding.PresetBuffer | rgbpixel.c:99-105 | a preset buffer holds nine bytes per LED |
| SpiEncoding.PresetHalvesFramed | rgbpixel.c:98-104 | a double buffer whose two halves are preset is framed |
| SpiEncoding.RenderBuffer | rgbpixel.c:245-260 | rendering keeps the length of the buffer |
| SpiEncoding.RenderedByteFramed | rgbpixel.c:247-254 | a rendered byte keeps the framing bits its position calls for |
| SpiEncoding.DecodeBuffer | rgbpixel.c:245-260 | reading a buffer back gives one pixel per nine bytes |
| RgbPixel.TransferFor | rgbpixel.c:108-147 | the pixel transfer sends the 297 bytes of the active buffer with memory increment; the reset transfer sends RESET_SPI_COUNT bytes of the zero `resetdata` without increment |
| RgbPixel.StatusAlternates | rgbpixel.c:195-201 | every interrupt changes the status, and two interrupts restore it |
| RgbPixel.StatusParity | rgbpixel.c:177-178 | starting from the reset pulse, even-numbered transfers are reset pulses and odd-numbered ones pixel arrays |
| RgbPixel.Timing | rgbpixel.c:66-68 | the reset transfer of 180 bytes of 8 bits at 444 ns lasts at least the 80 µs reset pulse; a three-bit symbol lasts 1332 ns, within the 650-1850 ns the LEDs accept; a buffer of 9 bytes per LED is 297 bytes |
| RgbPixel.PixelDriver.Init | rgbpixel.c:149-179 | after init the frame is black, both buffers are preset, buffer 0 is active and the reset pulse is in progress |
| RgbPixel.PixelDriver.Reset | rgbpixel.c:87-106 | the frame is black, both SPI buffers hold the framing pattern, and buffer 0 is active |
| RgbPixel.PixelDriver.Set | rgbpixel.c:266-274 | an index below RGB_ALL_NUM stores the colour at that LED only; a larger index changes nothing |
| RgbPixel.PixelDriver.Render | rgbpixel.c:229-264 | the inactive buffer receives the render of the frame and becomes active; the buffer being sent is untouched; the new active buffer reads back as the frame |
| RgbPixel.PixelDriver.Isr | rgbpixel.c:181-202 | the status toggles, and the transfer started is the one for the new status |
| Sk6812.Strip.Init | sk6812.c:98-121 | the static strip: black frame, both buffers preset |
| Sk6812.Strip.Reset | sk6812.c:102-121 | the frame is black and both SPI buffers hold the framing pattern |
| Sk6812.Strip.Set | sk6812.c:184-192 | an index below the strip length stores the colour at that LED only; a larger index changes nothing |
| Sk6812.Strip.Render | sk6812.c:150-182 | buffer `active_buffer ^ 1` (always buffer 1) receives the render of the frame and reads back as the frame; buffer 0 is untouched |
| RgbMap.Sextant | rgbmap.c:81-82 | the sextant `(h >> 8) % SEXTANT_MAX` is below 6 |
| RgbMap.SextantPointers | rgbmap.c:105-125 | after the swaps of every sextant, the pointers r, g and b name three different channels |
| RgbMap.Hsv2Rgb | rgbmap.c:61-148 | no channel of the converted colour exceeds the value v |
| RgbMap.BottomLevel | rgbmap.c:129-133 | the bottom channel in 16-bit arithmetic; its formula and bounds are stated by BottomLevelFormula |
| RgbMap.BottomLevelFormula | rgbmap.c:129-133 | the bottom level never overflows its 16-bit variable; it is `((x+1) + ((x+1) >> 8)) >> 8` with x = v * (255 - s), at most v, and 0 at full saturation |
| RgbMap.FractionProduct | rgbmap.c:137-143 | the 16-bit product of saturation and hue fraction (or its complement in even sextants) never wraps and is at most 0xff00 |
| RgbMap.SlopeProduct | rgbmap.c:139-142 | the 32-bit product of v and the 16-bit factor never wraps |
| RgbMap.Interpolated | rgbmap.c:135-147 | the interpolated channel with its casts written out; its formula and bound are stated by InterpolatedFormula |
| RgbMap.InterpolatedFormula | rgbmap.c:135-147 | the interpolated channel is `(slope + (slope >> 8) + v) >> 16` with the slope of its sextant's parity; no cast changes a value, and the result is at most v |
| RgbMap.SextantTable | rgbmap.c:84-125 | the pointer swaps agree with the sextant picture: v goes to R, G, G, B, B, R, the bottom level to B, B, R, R, G, G and the interpolation to G, R, B, G, R, B |
| RgbMap.Monochrome | rgbmap.c:75-79 | without saturation, the colour is grey at level v whatever the hue |
| RgbMap.SaturatedChannels | rgbmap.c:127-147 | with saturation, the sextant's top channel shows v, its bottom channel the bottom level and the third channel the interpolation |
| RgbMap.HuePeriodic | rgbmap.c:81-82 | hues 1536 apart convert to the same colour |
| RgbMap.Key2RgbRowMajor | rgbmap.c:7-14 | the key table has 5 rows of 5 LEDs, numbered 5r + c |
| RgbMap.Key2RgbBijective | rgbmap.c:7-14 | every key LED 0..24 sits behind exactly one key, at row id / 5 and column id % 5 |
| RgbMap.RainbowStep | rgbmap.c:48-49 | the hue stays below HUE_MAX and moves on by 3 modulo HUE_MAX; saturation and value are kept |
| RgbMap.RainbowStepAdvances | rgbmap.c:48-49 | a hue more than 3 below HUE_MAX just moves on by 3 |
| RgbMap.Rainbow.constructor | rgbmap.c:32 | the static hue array starts zeroed |
| RgbMap.Rainbow.Init | rgbmap.c:34-42 | every backlight hue becomes hue 0 at full saturation and value |
| RgbMap.Rainbow.StepHues | rgbmap.c:47-52 | every hue takes one RainbowStep and its frame entry shows the converted colour; other frame entries are kept |
| RgbMap.Rainbow.Advance | rgbmap.c:44-54 | the hues step, the frame shows them, and the render makes the other SPI buffer active, reading back as the frame |
| Palette.Lookup | palette.c:109-114 | the colour read is a palette slot, and a colour number inside the palette reads its own slot |
| Palette.LookupPeriodic | palette.c:112 | colour numbers one palette size apart read the same slot |
| Palette.LookupAfterStore | palette.c:117-124 | after slot c is written, reading c gives the new colour and colour numbers of other slots read what they read before |
| Palette.Table.constructor | palette.c:32-52 | the table holds the listed initial colours and zeroed slots after them |
| Palette.Table.Get | palette.c:110-114 | the colour read is always a palette entry, and a number inside the palette reads its own slot |
| Palette.Table.Set | palette.c:116-124 | a colour number past the end changes nothing; otherwise exactly that slot is written and reads back |
| RgbEase.Scale8 | rgbease.c:41-44 | `i * scale >> 8` never exceeds i and is 0 for scale 0 |
| RgbEase.Scale8Full | rgbease.c:41-44 | scaling a nonzero value by 0xff loses exactly one step |
| RgbEase.Scale8Mono | rgbease.c:41-44 | a larger scale never gives a smaller result |
| RgbEase.LowerHalf | rgbease.c:46-58 | below 0x80 the curve is twice `scale8(j, j)`, at most 126, so the shift never wraps |
| RgbEase.Ease8InOutQuad | rgbease.c:46-58 | the easing curve keeps each half: inputs below 0x80 give outputs below 0x80, and the upper half stays in the upper half |
| RgbEase.Ease8Endpoints | rgbease.c:46-58 | the easing curve runs from 0 to 0xff |
| RgbEase.Ease8Symmetric | rgbease.c:46-58 | the curve is point-symmetric about its middle |
| RgbEase.Ease8Monotone | rgbease.c:46-58 | the curve never decreases |
| RgbEase.RotateStep | rgbease.c:201-202 | the rotated hue is below HUE_MAX; saturation and value are kept |
| RgbEase.NopStays | rgbease.c:134-135 | a finished LED stays finished and never rewrites its frame entry |
| RgbEase.NextLed | rgbease.c:130-208 | one tick of the switch of `ease_advance` on one record; what a tick can do is stated by NextLedKinds and the per-mode lemmas below |
| RgbEase.NextLedKinds | rgbease.c:130-208 | a finished LED stays as it is, only rainbow and rotating LEDs change colour, only dimming, brightening and blipping LEDs finish, and only a dimming LED or a used-up rainbow starts to dim |
| RgbEase.ShowLed | rgbease.c:130-208 | the colour a tick writes to the frame: nothing exactly for a finished LED, never a value above the target's, and the target's hue except for rainbow and rotating LEDs |
| RgbEase.Holds | rgbease.c:133-206 | the modes without a case keep their record and show their target |
| RgbEase.FadeRun | rgbease.c:150-164 | during a dim or brighten from step 0, tick k leaves the step at k in the same mode |
| RgbEase.DimFinishes | rgbease.c:150-157 | a dim from step 0 lasts exactly 255 ticks, never shows more than the target's value, ends by showing value 0 and finishes the LED |
| RgbEase.BrightenFinishes | rgbease.c:158-164 | a brighten from step 0 lasts exactly 255 ticks and finishes the LED; its last tick shows one step below the target's value |
| RgbEase.BlipStep | rgbease.c:177-183 | a blip tick below the top of the curve moves the step on by 3 |
| RgbEase.BlipShow | rgbease.c:177-190 | that tick shows the value on the curve, rising in phase 0 and falling in phase 1 |
| RgbEase.BlipTurn | rgbease.c:177-195 | the tick that reaches the top starts the next phase at step 0 and shows value 0; after phase 1 the LED is finished |
| RgbEase.BlipHalf | rgbease.c:177-183 | during a blip half from step 0, tick k < 85 leaves the step at 3k |
| RgbEase.BlipRises | rgbease.c:177-187 | the first 84 ticks of a blip show the target's value scaled along the rising curve |
| RgbEase.BlipTurns | rgbease.c:177-195 | tick 85 shows value 0 and starts the falling half |
| RgbEase.BlipFalls | rgbease.c:177-183 | in the falling half the step counts up from 0 again, in phase 1 |
| RgbEase.BlipFallShown | rgbease.c:177-190 | the falling half shows the target's value scaled along the mirrored curve |
| RgbEase.BlipFinishes | rgbease.c:177-195 | a blip lasts exactly 170 ticks, ends by showing value 0 and finishes the LED in phase 2 |
| RgbEase.BlipPhaseBounded | rgbease.c:177-195 | a blip's phase never passes 2 |
| RgbEase.RainbowTickHue | rgbease.c:165-176 | a rainbow tick moves the hue on by 3 below HUE_MAX and shows it; the last step of a round takes one from the phase, and phase 0 turns the LED into a dim |
| RgbEase.RainbowMid | rgbease.c:165-169 | a rainbow tick before the last step moves the step on by 1 and the hue by 3 |
| RgbEase.RainbowRound | rgbease.c:165-169 | within a round, k ticks move the hue on by 3k modulo HUE_MAX |
| RgbEase.RainbowTurn | rgbease.c:165-176 | the last step of a round uses up one round of the phase, dimming when none is left, and the next tick starts the next round at step 0 |
| RgbEase.RainbowCycling | rgbease.c:165-176 | at every tick before the last round of `ease_rainbow(t)` ends, the LED is still in rainbow mode |
| RgbEase.RainbowRounds | rgbease.c:165-176 | `ease_rainbow(t)` keeps an LED in rainbow mode at every tick before 255 + 256 (t - 1), and at that tick it starts to dim |
| RgbEase.RotateTickHue | rgbease.c:197-205 | a rotating LED shows its target on every tick and moves its hue on by its phase every 60 ticks |
| RgbEase.RotateHue | rgbease.c:112-121 | backlight LED i starts at the start hue less 62i, clamped at 0, and never above the start hue |
| RgbEase.RotateHueStep | rgbease.c:116-120 | these hues follow the loop's rule (less the phase, or 0 below the phase): they fall strictly until they reach 0 and then stay at 0 |
| RgbEase.RotateLed | rgbease.c:112-116 | backlight LED i gets the start colour with its own hue, rotating forward from step 0 with phase 62 |
| RgbEase.RainbowGap | rgbease.c:92 | the hue gap between LEDs is HUE_MAX / RGB_ALL_NUM, and all 33 hues stay below HUE_MAX |
| RgbEase.RainbowLed | rgbease.c:85-93 | each LED of a rainbow starts in rainbow mode at step 0 with `times` rounds, with the first colour's saturation and value; from hue 0, LED i gets hue 46i, below HUE_MAX |
| RgbEase.RainbowLedStep | rgbease.c:90-92 | each LED's hue is one gap further on than the previous LED's, in 16-bit arithmetic |
| RgbEase.Ease.constructor | rgbease.c:38 | the static LED records start zeroed |
| RgbEase.Ease.Init | rgbease.c:60-63 | every LED record is zeroed |
| RgbEase.Ease.SetDirect | rgbease.c:73-82 | exactly one LED record is overwritten |
| RgbEase.Ease.Set | rgbease.c:65-71 | the LED behind the key starts the mode at step and phase 0; no other record changes |
| RgbEase.Ease.Rainbow | rgbease.c:84-94 | every LED gets RainbowLed of the first colour passed in |
| RgbEase.Ease.DimAll | rgbease.c:96-106 | every LED starts to dim from its current target |
| RgbEase.Ease.Rotate | rgbease.c:108-123 | the backlight LEDs get RotateLed of the start colour passed in, hues stepping down by the phase; the key LEDs keep their records |
| RgbEase.Ease.Step | rgbease.c:131-209 | every LED takes one NextLed tick; the frame shows each ShowLed colour, except that finished LEDs leave their entry alone |
| RgbEase.Ease.Tick | rgbease.c:131-208 | one pass of the loop: LED i takes one tick, its frame entry shows it (or is kept when it has finished), and no other LED or entry changes |
| RgbEase.Ease.Advance | rgbease.c:125-211 | one tick of every LED as Step says, then one render that makes the other SPI buffer active, reading back as the frame |
| RgbEase.Ease.Process | rgbease.c:213-219 | before the ease timer has passed, the records, the frame, the SPI bytes, the active buffer and the transfer status are all kept; after it, every LED takes one tick, each frame entry is FrameEntry of its old record, and the active buffer flips to one that decodes back to the new frame |
| Light.MuteColour | light.c:172-185 | the mute light's colour: red for both muted, magenta for the microphone alone, yellow for the output alone, green for neither |
| Light.CellCall | light.c:160-194 | a selected cell of a listed type asks for a colour-hold of its LED, and other types ask for nothing; desktop and layer cells hold a palette colour with step 0, mute and volume cells use the fast step |
| Light.CallsUpTo | light.c:145-197 | the requests of the first k cells: at most one per cell, each a colour-hold |
| Light.ScreenAfter | light.c:149-164 | the running screen counter always names a desktop slot |
| Light.ScreenRoundRobin | light.c:161-165 | the n-th selected desktop light uses slot n modulo SCREENS_NUM |
| Light.OnlyTypeTouched | light.c:152-158 | with a type given, every request comes from a cell of that type and is for the LED behind that cell's key |
| Light.SilentCells | light.c:155-160 | a cell that is not selected, or whose type has no case, adds no request |
| Light.DesktopSlotAsWritten | light.c:105-112 | the slot `light_set_desktop` writes as written; DesktopSlotUnderflow shows it can be -1 |
| Light.DesktopSlotUnderflow | light.c:105-112 | as written, a nonzero screen number that is a multiple of SCREENS_NUM writes slot -1, before the array |
| Light.DesktopSlot | light.c:103-115 | the corrected slot is always valid; screens 1..SCREENS_NUM select slots 0..SCREENS_NUM-1, and it agrees with the written slot wherever that one is valid |
| Light.Lights.constructor | light.c:39-64 | every layer starts with the static light map, and the state is zero |
| Light.Lights.Init | light.c:83-87 | the light state returns to zero; the map is kept |
| Light.Lights.Set | light.c:89-100 | an index at or past any bound changes nothing; otherwise exactly one cell of the map is written |
| Light.Lights.ApplyCell | light.c:153-194 | one inner iteration extends the requests and the screen counter to the next cell |
| Light.Lights.ApplyRow | light.c:152-196 | one outer iteration extends them over the five cells of the row |
| Light.Lights.ApplyState | light.c:144-197 | the requests are exactly CallsUpTo over the 25 cells of the current layer, in row order |
| Light.Lights.SetDesktop | light.c:102-115 | screen 0 writes the display to every slot, screen n to the corrected slot of n; then the desktop lights are re-applied |
| Light.Lights.SetLayer | light.c:117-121 | every light of the current layer is re-applied; the argument is not used |
| Light.Lights.SetMicMute | light.c:123-128 | the microphone state is stored, the rest of the state is kept, and the mute lights are re-applied |
| Light.Lights.SetMute | light.c:130-135 | the output mute state is stored, the rest of the state is kept, and the mute lights are re-applied |
| Light.Lights.SetVolume | light.c:137-142 | the volume is stored, the rest of the state is kept, and the volume lights are re-applied |
| Command.HexDigit | command.c:43-56 | a digit of either case reads as its value below 16, any other byte reads as 0, and every digit character is the character of the value it reads as |
| Command.HexDigitOfChar | command.c:43-56 | every hexadecimal digit character, upper or lower case, reads back as its value |
| Command.Hex8 | command.c:58-71 | two characters are consumed when there are two; with fewer the input is used up |
| Command.ReadHexByte | command.c:58-71 | the two digits of any byte, high digit first, read back as that byte and leave the rest of the input |
| Command.AfterLine | command.c:396-398 | skipping a line never grows the input |
| Command.SkipLineAfterNewline | command.c:396-398 | skipping drops exactly the bytes up to and including the first newline |
| Command.PixelCmd | command.c:91-113 | one LED: its override first, then a pixel write for that same LED; six characters are consumed when present |
| Command.PixelRun | command.c:84-117 | the loop emits exactly two calls per LED |
| Command.PixelRunOrder | command.c:90-115 | LED k of the loop gets its override at call 2k |
| Command.PixelRunColour | command.c:90-115 | LED k of the loop gets its pixel write right after its override, at call 2k+1 |
| Command.PixelRunConsumes | command.c:90-96 | with enough input every LED consumes exactly six characters |
| Command.PixelRunFrom | command.c:90-96 | the run from LED i is LED i's command followed by the run from LED i+1 |
| Command.PixelRunAdvance | command.c:90-96 | the same, with the calls made before prepended: the loop invariant of both colour setters |
| Command.PixelRunDecodes | command.c:84-117 | sending six digits per colour sets exactly those colours on the LEDs, in order, and leaves the rest of the input |
| Command.KeyIds | command.c:106-108 | the key LEDs of the colour setter, one per key |
| Command.KeyIdAt | command.c:106-108 | entry 5r+c of the key LED list is the LED of row r, column c |
| Command.BacklightIds | command.c:90 | the backlight setter writes eight LEDs, all of them backlight LEDs |
| Command.EventHex | command.c:380 | an event is sent as eight digits |
| Command.EventRoundTrip | command.c:174-177 | the type and three arguments of an event read back from their digits |
| Command.KeymapRoundTrip | command.c:167-182 | the keymap setter's digits come back as exactly one keymap write of that layer, row, column and event |
| Command.LightRoundTrip | command.c:185-195 | the light setter's digits come back as exactly one light-map write |
| Command.RotaryRoundTrip | command.c:251-265 | the rotary setter's digits come back as exactly one rotary-table write |
| Command.PaletteRoundTrip | command.c:237-248 | the palette setter's digits, hue high byte first, come back as exactly one palette write of that colour |
| Command.DesktopRoundTrip | command.c:119-128 | the desktop setter reads the screen and then the display |
| Command.VolumeRoundTrip | command.c:146-153 | four digits give the 16-bit volume, high byte first |
| Command.DumpCmd | command.c:298-318 | with no byte left nothing is read and nothing is dumped; otherwise exactly the selector byte is consumed, and a dump of that selector is requested if and only if it is one of the keymap, light, rotary or palette selectors |
| Command.VolumeCmd | command.c:146-153 | the volume setter never grows the input |
| Command.DisplayCmd | command.c:320-337 | the display command never grows the input |
| Command.EventArgs | command.c:174-177 | reading an event never grows the input |
| Command.KeymapCmd | command.c:166-182 | the keymap setter never grows the input |
| Command.LightCmd | command.c:184-195 | the light setter never grows the input |
| Command.RotaryCmd | command.c:250-265 | the rotary setter never grows the input |
| Command.PaletteCmd | command.c:236-248 | the palette setter never grows the input |
| Command.MacroScan | command.c:205-224 | the phrase loop sets at most one macro, of the number read, with a phrase of 1 to SERIAL_BUF_SIZEIN-1 bytes |
| Command.MacroCmd | command.c:197-225 | the macro setter never grows the input |
| Command.MacroScanStep | command.c:205-220 | a byte that is neither a line end after stored bytes nor a byte that would fill the buffer is stored and the scan goes on: the invariant of the phrase loop |
| Command.MacroScanPhrase | command.c:205-212 | a phrase of 1 to 159 bytes without line ends, ended by a newline, sets exactly that phrase and leaves the rest |
| Command.MacroRoundTrip | command.c:197-225 | a number in two digits, a phrase and a newline set exactly that macro |
| Command.MacroOverflow | command.c:216-220 | 159 bytes without a line end fill the buffer: the macro is abandoned and nothing is set |
| Command.Select | command.c:273-399 | a command never grows the input |
| Command.Interpret | command.c:268-402 | `command_process` over the whole input; its unfolding, the ignored line ends and the resynchronisation are stated by InterpretStep, EolIgnored and Resync |
| Command.InterpretStep | command.c:272-273 | the interpreter runs the command of the letter read, then continues with the input that command left |
| Command.EolIgnored | command.c:391-393 | line ends between commands have no effect |
| Command.Resync | command.c:396-398 | a byte that is no command skips the rest of its line and has no effect |
| Command.Interpreter.constructor | command.c:268-271 | the interpreter starts with the given input and no calls made |
| Command.Interpreter.ReadCh | command.c:272 | the next byte is taken from the ring, or nothing when it is empty |
| Command.Interpreter.ReadHex8 | command.c:58-71 | the byte read and the input left agree with Hex8 |
| Command.Interpreter.SkipLine | command.c:398 | the input left agrees with AfterLine |
| Command.Interpreter.SetPixel | command.c:91-95 | one LED's calls and input agree with PixelCmd |
| Command.Interpreter.SetBackcolor | command.c:83-97 | the calls and input agree with PixelRun over the backlight LEDs |
| Command.Interpreter.SetColor | command.c:99-117 | the calls and input agree with PixelRun over the key LEDs, row by row |
| Command.Interpreter.SetColorRow | command.c:107-115 | one row of the outer loop advances the run by exactly that row's five LEDs |
| Command.Interpreter.Dump | command.c:298-318 | agrees with DumpCmd |
| Command.Interpreter.SetLightVolume | command.c:146-153 | agrees with VolumeCmd |
| Command.Interpreter.SetDisplay | command.c:320-337 | agrees with DisplayCmd |
| Command.Interpreter.ReadEvent | command.c:174-177 | agrees with EventArgs |
| Command.Interpreter.SetKeymap | command.c:166-182 | agrees with KeymapCmd |
| Command.Interpreter.SetLight | command.c:184-195 | agrees with LightCmd |
| Command.Interpreter.SetRotary | command.c:250-265 | agrees with RotaryCmd |
| Command.Interpreter.SetPalette | command.c:236-248 | agrees with PaletteCmd |
| Command.Interpreter.SetMacro | command.c:197-225 | the loop over a fixed buffer agrees with MacroCmd |
| Command.Interpreter.SetNkro | command.c:227-234 | NKRO is switched to the low bit of the byte read |
| Command.Interpreter.Dispatch | command.c:273-399 | one case of the switch agrees with Select |
| Command.Interpreter.Process | command.c:267-402 | the ring is used up and the calls are exactly Interpret of the input |
| Keymap.HandlerOf | keymap.c:131-164 | a type with no case selects no handler; the key type selects the keyboard handler and only it; the system handler only for the system type |
| Keymap.KeymapEvent | keymap.c:125-165 | the LED reaction always comes first; exactly one handler call follows for a listed type, with the event and key state, and none for any other type |
| Keymap.SendEventIfIdle | keymap.c:167-220 | the result is 0 or 1; 0 makes no call; a call made is the handler of the event's type, with that event, and comes with result 1 |
| Keymap.KeyNeedsBothEndpoints | keymap.c:170-175 | a key event is sent exactly when both the keyboard and the NKRO endpoint are idle, and then as a keyboard call with the press flag |
| Keymap.SendUnlistedAndSystem | keymap.c:202-219 | types without a reporting case succeed with no call; a system event on an idle endpoint always goes out as a press |
| Keymap.SendMatchesDispatch | keymap.c:131-219 | on an idle endpoint a reporting type gets the same handler call from both dispatchers, except that a system release goes out as a press |
| Keymap.GetAsWritten | keymap.c:99-110 | the offset `keymap_get` uses as written; GetAsWrittenOverruns exhibits the positions past the table that it lets through |
| Keymap.GetAsWrittenOverruns | keymap.c:99-110 | the written check lets layer 3 through, past the 75 cells of the table, and lets column 5 alias the next row's column 0 |
| Keymap.Position | keymap.c:99-117 | the corrected check accepts exactly the positions inside the table, where it agrees with the written offset |
| Keymap.PositionsDistinct | keymap.c:99-110 | distinct positions inside the table have distinct offsets |
| Keymap.Keymap.constructor | keymap.c:51-74 | every cell holds the static table's event |
| Keymap.Keymap.Get | keymap.c:99-110 | an event is returned exactly for a position inside the table, and it is the event stored at that position |
| Keymap.Keymap.Set | keymap.c:112-123 | a position outside the table changes nothing; otherwise exactly that cell is replaced and reads back as the event |
| Layer.Advanced | layer.c:49-54 | the current layer is saved as the previous one and the next layer is always a valid layer, the one asked for when it is in range; the flags are kept |
| Layer.Press | layer.c:75-92 | the press branch keeps both layer numbers valid |
| Layer.Release | layer.c:93-113 | the release branch keeps both layer numbers valid |
| Layer.AfterEventAsWritten | layer.c:62-114 | the handler as written keeps both layer numbers valid |
| Layer.StuckAsWritten | layer.c:70-98 | as written, after one press of a MOVE, UP, DOWN or HOLD key the active flag is never cleared, and every later layer event leaves the state unchanged |
| Layer.AfterEvent | layer.c:62-114 | the corrected handler ignores presses while a layer key is active and agrees with the written one whenever none is |
| Layer.AfterUse | layer.c:116-124 | only the release of a key while the one-shot is armed changes anything: it returns to the previous layer and clears both flags |
| Layer.MoveAndRelease | layer.c:76-99 | a MOVE press and its release land on the layer asked for, modulo the number of layers, with the flag cleared |
| Layer.HoldAndRelease | layer.c:88-109 | a HOLD key switches layer while held and returns to the starting layer on release |
| Layer.NextKeyOneShot | layer.c:85-124 | NEXTKEY's press changes no layer, its release moves to the layer and arms the one-shot, and the next key's release returns to the starting layer with both flags cleared |
| Layer.UpDownEdges | layer.c:48-84 | UP wraps from the last layer to 0; DOWN from layer 0 goes through 255, which stays on layer 0 |
| Layer.Layers.constructor | layer.c:43-47 | the globals start at their static values |
| Layer.Layers.Advance | layer.c:49-54 | agrees with Advanced |
| Layer.Layers.Return | layer.c:56-60 | the current layer becomes the previous one |
| Layer.Layers.Event | layer.c:62-114 | agrees with the corrected AfterEvent |
| Layer.Layers.UseEvent | layer.c:116-124 | agrees with AfterUse |
| Rotary.Direction | rotary.c:75-79 | no direction exactly when the counter is unchanged, forward exactly when it grew; any turn names a column of the table |
| Rotary.WrapReadsAsReversal | rotary.c:75-79 | the plain comparison reads a step across the counter wrap, 0xffff to 0, as a turn backwards, and 0 to 0xffff as forwards |
| Rotary.Step | rotary.c:63-91 | the pending press always names a cell of the table, and the new reading is stored |
| Rotary.PendingReleaseFirst | rotary.c:70-90 | while a press is pending only its release is tried, and the press is forgotten exactly when the release was sent |
| Rotary.TurnPresses | rotary.c:74-90 | without a pending press, no turn makes no call; a turn sends the press of its cell on the current layer, which becomes pending exactly when it was sent |
| Rotary.PressThenRelease | rotary.c:63-91 | with an idle endpoint a turn presses the event of its cell, and the next call releases that same event whatever the knob did meanwhile, leaving nothing pending |
| Rotary.SetAcceptsAsWritten | rotary.c:96-97 | the bounds check of `rotary_set` as written; SetAcceptsLayerPastEnd shows it lets layer 3 through |
| Rotary.SetAcceptsLayerPastEnd | rotary.c:96-97 | as written, layer 3, one past the last row of the table, passes the check |
| Rotary.SetAccepts | rotary.c:96-97 | the corrected check accepts exactly the cells of the table, all of which the written check accepts too |
| Rotary.Encoder.Contents | rotary.c:43-46 | the table read as rows of two cells |
| Rotary.Encoder.constructor | rotary.c:40-60 | layer 0 holds the volume-down and volume-up events and the rest is zero; nothing is pending and the counter's first reading is stored |
| Rotary.Encoder.Process | rotary.c:63-91 | agrees with Step on the table |
| Rotary.Encoder.Set | rotary.c:93-103 | a cell outside the table changes nothing; otherwise exactly that cell is replaced |
| Matrix.ScanRow | matrix.c:140-150 | the snapshot becomes the reading, and a settled row stays settled |
| Matrix.ScanRowDebounces | matrix.c:140-150 | a reading that differs from the snapshot becomes the snapshot with the timer restarted; the row is committed only once the timer has passed, and only to the snapshot |
| Matrix.BounceIgnored | matrix.c:140-150 | a bounce that returns to the settled reading before the timer passes leaves the committed row as it was |
| Matrix.NextRow | matrix.c:153-154 | the rows are scanned in turn, wrapping from the last to row 0 |
| Matrix.ColBitIsShift | matrix.c:183 | the column masks are the shifts `1 << c` |
| Matrix.DownIsBit | matrix.c:184-185 | the mask test is bit c of the row |
| Matrix.DownXor | matrix.c:180-184 | a column of the xor is set exactly when the two rows differ there |
| Matrix.EventsStep | matrix.c:182-188 | one more column adds its event, if it changed, after those of the columns before it |
| Matrix.RowEvents | matrix.c:180-188 | every key event of the column loop is for the row processed and one of its five columns |
| Matrix.EventsOrdered | matrix.c:182-188 | every event is for the row processed and a column of the loop, in strictly increasing column order |
| Matrix.NoEventsFrom | matrix.c:182-188 | the events of the first n columns are only for columns below n |
| Matrix.EventsExactlyChanged | matrix.c:180-188 | there is an event for a column exactly when its key changed, and it reports the new state; none reports the old one |
| Matrix.RowEventsExact | matrix.c:180-189 | for a whole row: an event for column c exactly when bit c changed, carrying the new bit |
| Matrix.EventsCountChanges | matrix.c:180-189 | as many events as changed keys |
| Matrix.UnchangedRowSilent | matrix.c:181 | an unchanged row emits nothing |
| Matrix.Flipped | matrix.c:182-188 | the row `matrix_previous.row[r]` after the loop; its properties are stated by FlippedStep, FlippedPrefix and FlippedReachesRow |
| Matrix.FlippedStep | matrix.c:184-186 | one more column is flipped in the reported row exactly when it changed |
| Matrix.FlippedPrefix | matrix.c:182-188 | after n columns exactly the changed bits below column n have been flipped |
| Matrix.FlippedReachesRow | matrix.c:180-189 | after the loop the reported row equals the committed row |
| Matrix.KeyMatrix.constructor | matrix.c:48-53 | every row, snapshot, reported row and timer starts at zero with no update pending |
| Matrix.KeyMatrix.Init | matrix.c:98-122 | the three matrices, the timers and the row counter are zeroed; the update flags are left alone |
| Matrix.KeyMatrix.Scan | matrix.c:135-156 | only the current row's debounce state changes, as ScanRow says, on the decoded port reading; the scan moves to the next row and the reported rows are untouched |
| Matrix.KeyMatrix.Process | matrix.c:164-190 | the scan, then the events of RowEvents for the row scanned; that row's reported state becomes its committed state and nothing else of the reported matrix changes |
| Matrix.KeyMatrix.Report | matrix.c:180-189 | the events for one row are RowEvents, and only that row of the reported matrix changes, to the committed row |
| Matrix.ColumnLoop | matrix.c:182-188 | the column loop emits RowEvents and flips the reported row exactly as Flipped says |
| Extrakey.Split | extrakey.c:56-57 | the low and high byte put together give the code back; the high byte is zero exactly for codes below 256 |
| Extrakey.After | extrakey.c:51-77 | the report carries the event's id, and the code it reads back as is the event's code on a press and 0 on a release |
| Extrakey.CodeDetermines | extrakey.c:56-59 | two reports with the same id and the same code are the same report |
| Extrakey.PressThenRelease | extrakey.c:55-77 | a press and its release send the code and then 0 |
| Extrakey.Extrakey.constructor | extrakey.c:40 | the report starts zeroed and nothing has been sent |
| Extrakey.Extrakey.Update | extrakey.c:51-62 | the report becomes After of the event, and it is handed to USB exactly once |
| Extrakey.Extrakey.ConsumerEvent | extrakey.c:48-63 | the same under the consumer report id |
| Extrakey.Extrakey.SystemEvent | extrakey.c:65-80 | the same under the system report id |
| Mouse.AfterMotion | mouse.c:46-56 | a press writes the button and the movement and clears the wheel; a release keeps the report; a report never both moves and scrolls |
| Mouse.AfterScroll | mouse.c:58-68 | a press writes the button and the wheel and clears the movement; a release keeps the report; a report never both moves and scrolls |
| Mouse.PressForgetsPrevious | mouse.c:49-65 | a press does not depend on the report before it |
| Mouse.Mouse.constructor | mouse.c:38 | the report starts zeroed and nothing has been sent |
| Mouse.Mouse.MotionEvent | mouse.c:46-56 | the report becomes AfterMotion, and exactly one report is sent per press and none per release |
| Mouse.Mouse.ScrollEvent | mouse.c:58-68 | the report becomes AfterScroll, and exactly one report is sent per press and none per release |

## Left out

- Hardware bring-up and register traffic are not modelled: clocks, GPIO modes, the SPI and DMA programming, `rgbpixel_init`, `sk6812_init`, the busy-waits in the interrupt handler, and `rotary_init`'s timer set-up. The values this hardware produces are parameters: the column port reading, the encoder counter, transfer completion.
- Timers are parameters. `timer_set` becomes the deadline it would return. `timer_passed` becomes a boolean.
- The tick and the DMA interrupt run sequentially in the model. The race on the volatile `active_buffer` and `status` is not modelled.
- Bit-band addresses (`BBADDR`, `BBOFFSET`) are not modelled, only the bit-to-bit mapping they achieve.
- The serial ring is the sequence of its unread bytes. `ring.c` is not part of this model. `ring_skip_line` is taken to drop everything up to and including the next newline, or the whole input when there is none.
- Calls into modules outside the model are recorded in logs with their arguments, in order, but their effects are not modelled. These are:
  - `usb_update_*`, `keyboard_event`, `automouse_event`, `macro_event`, `rgbease_event`;
  - `macro_set_phrase`, `macro_init`;
  - flash load, save and clear;
  - the `*_dump` printers, `command_identify` and the help text.
- `elog` and `printfnl` output is not modelled.
- Constants and tables the firmware defines outside these files are parameters with no invented values. These are:
  - the `CMD_*` letters, `DUMP_*` selectors, `KMT_*` type codes and `LAYER_*` action codes;
  - `REPORTID_*`, `PALETTE_NUM`, `SCREENS_NUM`, `BACKLIGHT_LEDS_NUM`, `STEP_FAST`, `LIGHT_VOLUME_TO_HUE`;
  - the `HSV()` colours, among them the start colours of `ease_rainbow` and `ease_rotate`: `HSV()` takes its hue in degrees and its definition is not part of this model;
  - `key2led`, and the key codes of the static keymap and rotary tables.
- `ROTARY_BACKWARD`, `ROTARY_FORWARD` and `ROTARY_NONE` are taken as 0, 1 and 2. This follows the order of the rotary table's initializer.
- The header that defines `rgbpixel_t` is not part of this model. Its channel order is taken as green, red, blue, as in `sk6812.c`.
- The layout of the `event_t` argument union is not part of this model. The extrakey code, the mouse button and movement, and the wheel fields are passed in as values. Mouse movement and wheel fields are signed on the wire and kept as bit patterns.
- `keymap.c` calls `layer_event` with four arguments, but `layer.c` defines it with two. The model follows `layer.c` and passes the action and number of the event. `keymap.c` is modelled only as far as recording that the layer handler is called.
- `rgbease.c` uses names its header does not define. These become further modes (`EaseQuadIn`, `EaseQuadOut`, `Blip`, `RotateForward`), and `LAST_STEP` is taken as 0xff.
- Modes with no case in `ease_advance` are not modelled beyond what that loop does with them. These are `F_COLOR_FLASH`, `F_COLOR_HOLD` and `F_BACKLIGHT`: the loop keeps their record and shows their target. The group broadcast `ease_event` and the override mode have no body in these files.
- Matrix.KeyMatrix.Report: the C loop flips `matrix_previous.row[r]` one column at a time. The model flips a local copy and stores it once after the loop, which gives the same result because nothing in the loop reads the row.
- Layer.Layers.Event models the corrected handler. The handler as written is the function Layer.AfterEventAsWritten (see Findings).
- Keymap.Keymap.Get, Rotary.Encoder.Set and Light.Lights.SetDesktop use the corrected bounds and slots. The code as written is modelled beside them (see Findings).
- `(read_hex_8() << 8) | read_hex_8()` in `command_set_light_volume` and `command_set_palette`: C leaves the order of the two reads unspecified. The model reads the high byte first. Command.VolumeCmd, Command.PaletteCmd and their round trips state that order.
- The daemon under `config/` (PulseAudio, udev, sockets) is not part of this model.

## Findings

| source | as written | input that shows it | evidently intended | confidence | as-written member | corrected member |
|---|---|---|---|---|---|---|
| light.c:105-112 | the slot written is `ascreen % SCREENS_NUM - 1` | any nonzero `ascreen` that is a multiple of `SCREENS_NUM` writes `desktop[-1]`, before the array | screens counted from 1, wrapping round to a valid slot | high; not executed | Light.DesktopSlotUnderflow | Light.DesktopSlot |
| keymap.c:102-104 | indices are rejected only when strictly greater than their bound | layer 3 reads entry 75 of a 75-entry table; column 5 of row 0 reads row 1, column 0 | reject any index equal to or above its bound, as `keymap_set` does | high; not executed | Keymap.GetAsWrittenOverruns | Keymap.Position |
| rotary.c:96 | the layer is rejected only when `l > LAYERS_NUM` | `rotary_set(3, 0, e)` writes past the last row of the table | reject `l >= LAYERS_NUM` | high; not executed | Rotary.SetAcceptsLayerPastEnd | Rotary.SetAccepts |
| layer.c:70-73 | while `layer_active` is set, every layer event returns early, releases included | a MOVE, UP, DOWN or HOLD press sets the flag, and its own release is then ignored: no layer event ever changes the state again, and a HOLD layer is never left | ignore new presses while a layer key is held, but handle the releases that the release branches are written for | medium; not executed | Layer.StuckAsWritten | Layer.AfterEvent |
