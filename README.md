# AnnePro2-Shine lighting profiles, modelled in Dafny

This project models the lighting profiles of the AnnePro2-Shine LED firmware
(`source/profiles.c`). Each profile paints a grid of NUM_ROW x NUM_COLUMN
RGB cells and keeps its own state from one frame to the next:

- **reactive fade** (`animatedPressedBuf`): a keypress sets a cell to level
  100 and paints it red. Every tick lowers each live level by 5 and paints
  the cell `hsv2rgb(100 - level, 255, 225)`. A cell whose level drops to 0
  is blanked once.
- **reactive pulse** (`pulseBuf`): a keypress sets its row's level to 80.
  Every tick lowers each live level by 16. While the level is in (16, 80],
  the row is painted blue 175 + level. When it reaches 0 the row is
  blanked.
- **typewriter** (`termPos`, `termAnim`, `rowBlink`): a cursor on row 0.
  Keypresses move it one column, and column 13 wraps to -14. Negative
  positions are a two-wide sweep-in that moves two columns per tick. The
  glyph's red brightness pulses with a phase counter in [0, 140]. A one-shot
  green flash marks the row of the last key typed. Every write goes through
  the bounds-checked `lazyMark`.
- **free-running animations**, which ignore keypresses:
  - the scrolled vertical rainbow (`colAnimOffset`);
  - the flow and waterfall hue counters, which jump over the hues 182 to
    242;
  - the breathing, spectrum and wave counters, which bounce between two
    turning points;
  - the static colour-bleed test pattern and the two static rainbows.

Each stateful profile is a class:

- its persistent buffers are `array` fields, and its scalars are `var`
  fields;
- its `Tick`, `Keypress` and `Init` methods modify those fields and the
  caller's grid `array<Rgb>`, cell by cell, as the C code does;
- each method's contract ties the new state and the new grid to pure
  specification functions of the old state (`Fade.Step`, `Pulse.Step`,
  `Typewriter.Advance`/`Press`/`FrameCell`, `Animated.Bounce`/`HueStep`).

The timelines, range invariants and one-shot properties are proved as lemmas
about those functions.

Files:

- `led.dfy` (module `Led`):
  - the cell and colour types, and the grid geometry;
  - the foreign colour conversions, which are parameters;
  - the grid-writing primitives the profiles call.
- `fade.dfy`, `pulse.dfy`, `typewriter.dfy`: the three reactive profiles.
- `patterns.dfy`: the colour-bleed pattern and the static rainbows.
- `animated.dfy`: the free-running animations.

## Model

| member | source | states |
|---|---|---|
| Led.Index | source/profiles.c:190 | row * NUM_COLUMN + col lies in the grid and maps back to exactly (row, col) |
| Led.SetAllKeysToBlank | source/profiles.c:205 | every cell of the grid becomes (0,0,0) |
| Led.SetAllKeysColorHsv | source/profiles.c:136 | every cell becomes the converted colour hsv(h, s, v) |
| Led.PaintRow | source/profiles.c:217-229 | the loop over a row's columns: every cell of that row gets the colour, no other cell changes |
| Led.PaintColumn | source/profiles.c:98-104 | the loop over a column's rows: every cell of that column gets the colour, no other cell changes |
| Led.SetRowColorHsv | source/profiles.c:125 | the cells of one row get hsv(h, s, v), all other cells are unchanged |
| Led.SetColumnColorHsv | source/profiles.c:168 | the cells of one column get hsv(h, s, v), all other cells are unchanged |
| Patterns.BleedColour | source/profiles.c:30-55 | the colour-bleed pattern uses only pure red, pure green and pure blue |
| Patterns.BleedNeighboursDiffer | source/profiles.c:44-55 | off the border row and column, each key differs in colour from its right-hand and lower neighbours |
| Patterns.ColorBleed | source/profiles.c:26-58 | after the column-major double loop, every cell holds its BleedColour |
| Patterns.RainbowHorizontal | source/profiles.c:79-86 | every cell of row r holds palette colour r, dimmed |
| Patterns.RainbowVertical | source/profiles.c:88-95 | every cell of column c holds palette colour c mod 8, dimmed |
| Fade.InitLevel | source/profiles.c:202 | each row's initial level 15*row + 25 is a positive multiple of 5, at most 100 |
| Fade.Step | source/profiles.c:177-185 | per level v: above 5 it drops by 5 and the cell gets hue 100 - (v - 5); in (0, 5] it becomes 0 with the cell blank; at 0 nothing changes; a level never rises and hits 0 exactly when v <= 5 |
| Fade.After | source/profiles.c:175-187 | repeated ticks never raise a level |
| Fade.IdleStaysIdle | source/profiles.c:177-185 | a cell at level 0 is never written again by ticks |
| Fade.Fading | source/profiles.c:177-179 | from a multiple-of-5 level, k ticks lower it by 5k and paint hue 100 - (level - 5k), while it stays positive |
| Fade.Settles | source/profiles.c:180-185 | a positive multiple-of-5 level is 0 with the cell blank after level/5 ticks or more |
| Fade.PressTimeline | source/profiles.c:175-195 | a pressed cell paints hue 5k on ticks k = 1..19 and is blank at level 0 from tick 20 on |
| Fade.InitSettles | source/profiles.c:197-206 | twenty ticks after init with no keypress every cell is at 0 and blank |
| Fade.Engine.constructor | source/profiles.c:173 | the buffer starts all zero |
| Fade.Engine.Tick | source/profiles.c:175-187 | every (entry, cell) pair takes exactly one Step, and entries stay multiples of 5 and at most 100, so Fading and Settles apply to every reachable entry |
| Fade.Engine.Keypress | source/profiles.c:189-195 | the entry at row*14+col becomes 100 and that cell becomes (0xFF,0,0); all other entries and cells are unchanged |
| Fade.Engine.Init | source/profiles.c:197-206 | every entry of row r becomes 15r + 25, and the grid is blank |
| Pulse.Glow | source/profiles.c:217-221 | the row colour for level v in (16, 80] is red = green = 0 and blue = 175 + v, within [192, 255], so the byte never overflows |
| Pulse.InitLevel | source/profiles.c:243 | the staggered initial levels lie in [80, 100] |
| Pulse.Step | source/profiles.c:214-230 | the four branches: above 80 the level drops by 16 and the colour is kept; in (16, 80] the row gets Glow(v) and the level drops by 16; in (0, 16] the level becomes 0 and the row is blank; at 0 nothing changes; every level above 16 drops by exactly 16, and the level hits 0 exactly when it was at most 16 |
| Pulse.After | source/profiles.c:210-232 | repeated ticks never raise a row's level |
| Pulse.IdleStaysIdle | source/profiles.c:213-231 | a row at level 0 is never written again by ticks |
| Pulse.Glowing | source/profiles.c:216-222 | from a level at most 80, tick k paints the blue of the pre-decrement level and leaves level - 16k |
| Pulse.Settles | source/profiles.c:223-230 | any positive level is 0 with the row blank after ceil(level/16) ticks or more |
| Pulse.PressTimeline | source/profiles.c:234-239 | after a keypress the row paints blue 255, 239, 223, 207 on ticks 1 to 4 and is blank at 0 from tick 5 on |
| Pulse.InitSettles | source/profiles.c:241-246 | seven ticks after init with no keypress every row is at 0 and blank |
| Pulse.Engine.constructor | source/profiles.c:208 | the buffer starts all zero |
| Pulse.Engine.Tick | source/profiles.c:210-232 | each row's level takes one Step, and each cell pairs with its row's level as one Step of (old level, old colour) |
| Pulse.Engine.Keypress | source/profiles.c:234-239 | only pulseBuf[row] changes, to 80; the grid is not in the frame |
| Pulse.Engine.Init | source/profiles.c:241-246 | row r's level becomes 80 + 5r and the grid is blank |
| Typewriter.ToInt8 | source/profiles.c:322 | storing a uint8_t row into the int8_t rowBlink gives the value congruent mod 256 in [-128, 128) |
| Typewriter.LazyMark | source/profiles.c:253-259 | writes exactly cell (row, col) when 0 <= row < 5 and 0 <= col < 14, and leaves the grid unchanged otherwise |
| Typewriter.NextPhase | source/profiles.c:291-293 | the phase advances modulo 141 |
| Typewriter.Brightness | source/profiles.c:294-305 | the glyph brightness lies in [0, 255] |
| Typewriter.BrightnessShape | source/profiles.c:294-305 | brightness is 0 exactly at phase 0 and from phase 75 on, and 255 exactly for phases 5 to 70 |
| Typewriter.Press | source/profiles.c:312-324 | a keypress moves a non-negative cursor one column and 12 wraps to -14; a negative cursor is kept; the phase becomes 0; rowBlink becomes the row; the state stays valid |
| Typewriter.Advance | source/profiles.c:265-310 | a tick moves a negative cursor by 2 and changes nothing else; otherwise the phase advances modulo 141 and rowBlink is disarmed; the state stays valid (cursor in [-14, 12], even when negative, phase in [0, 140]) |
| Typewriter.GlyphColour | source/profiles.c:294-308 | the glyph is red at the brightness of the advanced phase, dimmed; with no row armed its blue is 0, and after a flash it keeps the dimmed green's blue channel |
| Typewriter.FrameCell | source/profiles.c:265-310 | the frame drawn from a state: only row 0 and the armed row can be lit; during the sweep-in the row-0 cells at columns -pos and -pos + 1 hold the dimmed red (255, 0, 0) of :271-274; while typing the glyph cell holds GlyphColour, drawn over the flash, every other cell of the armed row holds the dimmed green (0, 255, 0) of :280-285, and every cell off the glyph and off the armed row is blank |
| Typewriter.AdvanceN | source/profiles.c:265-310 | any number of ticks keeps the state valid |
| Typewriter.PressAll | source/profiles.c:312-324 | any number of keypresses keeps the state valid |
| Typewriter.SweepIn | source/profiles.c:270-276 | during the sweep-in each tick adds 2 to termPos and leaves termAnim and rowBlink alone |
| Typewriter.SweepInTakesSevenTicks | source/profiles.c:270-276 | from -14 the cursor is still sweeping after 0 to 6 ticks and is on column 0 after exactly 7 |
| Typewriter.Typing | source/profiles.c:315-320 | keypresses during typing advance the cursor one column each |
| Typewriter.PressAllSplit | source/profiles.c:312-324 | pressing the keys of a + b is pressing those of a, then those of b |
| Typewriter.TypingCycle | source/profiles.c:312-324 | from column 0, 12 presses reach column 12, the 13th wraps to -14 (:315-320), and 7 sweep-in ticks (:270-276) return the cursor to column 0 |
| Typewriter.FlashOnce | source/profiles.c:279-288 | on the first tick after a keypress that leaves the cursor on a column, the key's row is green except for the glyph; on the next tick nothing but the glyph is lit |
| Typewriter.SweepFrame | source/profiles.c:270-276 | during a sweep-in only the row-0 cells at columns -pos and -pos + 1 that lie in the grid are lit |
| Typewriter.Engine.constructor | source/profiles.c:261-263 | the globals start as termPos = 0, termAnim = 0, rowBlink = -1 |
| Typewriter.Engine.Tick | source/profiles.c:265-310 | the state takes one Advance and every cell holds FrameCell of the old state: the whole frame is repainted from scratch |
| Typewriter.Engine.Keypress | source/profiles.c:312-324 | the state takes one Press and the grid is blank |
| Typewriter.Engine.Init | source/profiles.c:326-330 | termPos and termAnim become 0, rowBlink keeps its value, and the grid is blank |
| Animated.HueStep | source/profiles.c:114-117 | a hue in [179, 240) becomes 243, any other hue gains 3 modulo 256, and no result lies in the gap 182..242 |
| Animated.Bounce | source/profiles.c:137-142 | one update of a bouncing counter: at or above the high mark the direction becomes -step; at or below the low mark it becomes +step; in between it is kept; the new value is the old one plus the direction modulo 256 (the same turn-then-add update is at :149-154 and :163-169) |
| Animated.BounceNSplit | source/profiles.c:137-142 | a + b bounce updates are a updates followed by b |
| Animated.Rising | source/profiles.c:137-142 | strictly between the turning points a rising counter climbs by its step per update, without wrapping |
| Animated.Falling | source/profiles.c:137-142 | strictly between the turning points a falling counter drops by its step per update, without wrapping |
| Animated.BreathingStep | source/profiles.c:137-142 | the breathing turn: from 180 or above the direction becomes -2, from 2 or below +2, otherwise it is kept, and the value moves by it modulo 256 |
| Animated.BreathingStaysInRange | source/profiles.c:133-143 | the breathing value stays even and in [2, 180] with direction +-2, and the uint8_t add never wraps |
| Animated.BreathingDescent | source/profiles.c:133-143 | from 180 the breathing value reaches 2 after 89 updates, whatever its first direction |
| Animated.BreathingAscent | source/profiles.c:133-143 | from 2, falling, the breathing value is back at 180 after 89 updates |
| Animated.BreathingPeriod | source/profiles.c:133-143 | one breath lasts 178 updates: from 180 the counter returns to 180 |
| Animated.SpectrumStep | source/profiles.c:149-154 | the spectrum turn: from 177 or above the direction becomes -3, from 2 or below +3, otherwise it is kept, and the hue moves by it modulo 256 |
| Animated.SpectrumStaysInRange | source/profiles.c:145-155 | the spectrum hue stays 2 mod 3 and in [2, 179] with direction +-3, and never wraps |
| Animated.SpectrumAscent | source/profiles.c:145-155 | from 2 the hue reaches 179 after 59 updates, whatever its first direction |
| Animated.SpectrumDescent | source/profiles.c:145-155 | from 179, rising, the hue is back at 2 after 59 updates |
| Animated.SpectrumPeriod | source/profiles.c:145-155 | one sweep lasts 118 updates: from 2 the hue returns to 2 |
| Animated.WaveStep | source/profiles.c:163-169 | the wave turn: from 140 or above the direction becomes -3, from 10 or below +3, otherwise it is kept, and the value moves by it modulo 256 |
| Animated.WaveStaysInRange | source/profiles.c:161-171 | every wave value stays in [0, 142] with direction +-3, so no uint8_t wrap occurs |
| Animated.WaveStartInRange | source/profiles.c:157-160 | every column's initial wave value and direction satisfy that range invariant |
| Animated.RainbowVertical.constructor | source/profiles.c:97 | colAnimOffset starts at 0 |
| Animated.RainbowVertical.Tick | source/profiles.c:98-107 | column c is painted palette colour (c + offset) mod 8, dimmed, and the offset advances modulo 8, so it stays in [0, 8) |
| Animated.RainbowFlow.constructor | source/profiles.c:109-110 | the flow hues start at 0, 11, ..., 143, outside the gap |
| Animated.RainbowFlow.Tick | source/profiles.c:111-119 | column c is painted hsv(old hue, 255, 255), its hue takes one HueStep, and no hue enters the gap |
| Animated.RainbowWaterfall.constructor | source/profiles.c:121-122 | the waterfall hues start at 0, 10, ..., 130, outside the gap |
| Animated.RainbowWaterfall.Tick | source/profiles.c:123-131 | row r is painted hsv(old hue, 255, 125) and its hue takes one HueStep; only the first NUM_ROW entries change |
| Animated.Breathing.constructor | source/profiles.c:133-134 | the counter starts at value 180 with direction -1 |
| Animated.Breathing.Tick | source/profiles.c:135-143 | the grid is painted hsv(85, 255, old value), the counter takes one breathing bounce, and the range invariant holds |
| Animated.Spectrum.constructor | source/profiles.c:145-146 | the counter starts at hue 2 with direction 1 |
| Animated.Spectrum.Tick | source/profiles.c:147-155 | the grid is painted hsv(old hue, 255, 125), the counter takes one spectrum bounce, and the range invariant holds |
| Animated.Wave.constructor | source/profiles.c:157-160 | the wave values start as in the source's initialiser, every direction is 3, and the invariant holds |
| Animated.Wave.Tick | source/profiles.c:161-171 | each column turns (at 140 or above down, at 10 or below up), is painted hsv(190, 255, old value), and then moves; every column stays in range |

## Left out

- The colour conversions `hsv2rgb`, `naiveDimRGB` and `naiveDimLed` are
  defined in miniFastLED, which is not part of this model. They appear as
  function-valued parameters (`HsvToRgb`, `Dimmer`), and the model proves
  nothing about their results. `setAllKeysColorHSV`, `setRowColorHSV` and
  `setColumnColorHSV` are given loop bodies built on such a parameter.
  `setKeyColor` (lines 82, 91, 101) is modelled as a plain store of the
  whole cell, inside `Led.PaintRow` and `Led.PaintColumn`.
- The geometry of `matrix.h` is not part of this model. NUM_ROW = 5 and
  NUM_COLUMN = 14 are constants, and ROWCOL2IDX is taken to be
  `row * NUM_COLUMN + col`, as the explicit index arithmetic at lines 190 and
  202 computes it. 14 matches the 14-entry initialisers, and 5 rows fit the
  8-entry palette.
- The solid-colour profiles `red`, `green`, `blue`, `white` and
  `miamiNights` (lines 13-23, 60-77) are left out. Each is a single call to a
  foreign colour primitive, with nothing else to model.
- The `led_t` union is modelled as its three channels only. A cell is an
  `Rgb` triple, `color.rgb = 0` is `Blank`, and packed literals read as
  0xRRGGBB. The channel-by-channel stores at lines 181-183, 192-194 and
  218-228 are modelled as one whole-cell write, because no other code runs
  between those stores.
- The scheduler, timer interrupts and any interleaving of ticks with
  keypresses are left out. Tick, keypress and init are sequential method
  calls on one object.
- Typewriter.LazyMark: its row and column parameters are int8_t in the
  source. The model requires the caller's values to lie in [-128, 128)
  instead of converting them, because every caller passes a value in that
  range.
- Typewriter.Engine: termPos is taken as an unbounded integer. The int8_t
  range is never exceeded, because Valid keeps termPos in [-14, 12].
  termAnim is taken the same way, and Valid keeps it in [0, 140].
- Fade.Engine.Keypress: the source computes the index without a bounds
  check. The model requires (row, col) to lie in the grid, because an
  out-of-range keypress would write outside the buffer.
- Pulse.Engine.Keypress: `row < NUM_ROW` is required for the same reason.
  The grid parameter, which the source ignores, is kept in the signature.
- The hue of a fading cell runs 5, 10, ..., 95, as `100 - level` computes
  it; `100 - level` never yields hue 0.
- Three quirks of the C code are kept as written:
  - `reactiveTermInit` does not reset rowBlink.
  - The glyph, always on row 0, is drawn after the flashed row. So when the
    flashed row is row 0, the glyph overwrites that row's cell at the cursor
    column.
  - A keypress during the sweep-in arms rowBlink without moving the cursor.
- Typewriter.GlyphColour: the glyph colour is built in the local that
  held the dimmed green of the flash. It therefore keeps that colour's
  blue channel, whatever the dimmer did to it.
