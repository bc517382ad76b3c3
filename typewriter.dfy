/** The typewriter profile: a cursor on row 0 whose glyph pulses red, a
    two-wide sweep-in that runs before typing starts, and a one-shot green
    flash of the row of the last key typed. */
module Typewriter {
  import opened Led

  /** rowBlink's "nothing armed" value. */
  const NoBlink: int := -1

  /** Phase counter bound: termAnim runs 0, 1, ..., 140, 0, ... */
  const LastPhase: nat := 140

  /** Column the cursor wraps from, and the position it wraps to. */
  const WrapColumn: int := 13
  const SweepStart: int := -14

  /** The conversion of a uint8_t to an int8_t (two's complement). */
  function ToInt8(x: byte): (r: int)
    ensures -128 <= r < 128
    ensures (r - x) % 256 == 0
  {
    if x < 128 then x else x - 256
  }

  /** lazyMark: writes cell (row, col) when it lies in the grid and does
      nothing otherwise. The parameters are int8_t. */
  method LazyMark(grid: array<Rgb>, row: int, col: int, colour: Rgb)
    requires grid.Length == NumCells
    requires -128 <= row < 128 && -128 <= col < 128
    modifies grid
    ensures InGrid(row, col) ==> grid[..] == old(grid[..])[Index(row, col) := colour]
    ensures !InGrid(row, col) ==> grid[..] == old(grid[..])
  {
    if row >= NumRows || col >= NumColumns {
      return;
    }
    if row < 0 || col < 0 {
      return;
    }
    grid[Index(row, col)] := colour;
  }

  /** The profile's state: termPos, termAnim and rowBlink. */
  datatype Cursor = Cursor(pos: int, anim: int, blink: int)

  /** What the profile keeps true: the cursor lies in [-14, 12] and is even
      while sweeping in, the phase lies in [0, 140], and rowBlink is an int8_t. */
  predicate Valid(s: Cursor) {
    && SweepStart <= s.pos < WrapColumn
    && (s.pos < 0 ==> s.pos % 2 == 0)
    && 0 <= s.anim <= LastPhase
    && -128 <= s.blink < 128
  }

  /** The phase after one typing tick. */
  function NextPhase(anim: int): (a: int)
    requires 0 <= anim <= LastPhase
    ensures a == (anim + 1) % (LastPhase + 1)
  {
    if anim + 1 > LastPhase then 0 else anim + 1
  }

  /** The red level of the glyph at phase a: a ramp up by 51 per tick to
      255, held, then a ramp down by 51 per tick from phase 70. */
  function Brightness(a: int): (b: int)
    requires 0 <= a <= LastPhase
    ensures 0 <= b <= 255
  {
    if a < 70 then
      if a * 51 > 255 then 255 else a * 51
    else
      if 255 - (a - 70) * 51 < 0 then 0 else 255 - (a - 70) * 51
  }

  /** The glyph is dark exactly at phase 0 and from phase 75 on, and at
      full brightness exactly for phases 5 to 70. */
  lemma BrightnessShape(a: int)
    requires 0 <= a <= LastPhase
    ensures Brightness(a) == 0 <==> a == 0 || a >= 75
    ensures Brightness(a) == 255 <==> 5 <= a <= 70
  {
  }

  /** reactiveTermKeypress on the state: the cursor advances one column
      (13 wraps to -14) unless it is sweeping in, the phase restarts, and the
      key's row is armed. */
  function Press(s: Cursor, row: byte): (t: Cursor)
    requires Valid(s)
    ensures Valid(t)
    ensures s.pos < 0 ==> t.pos == s.pos
    ensures 0 <= s.pos < WrapColumn - 1 ==> t.pos == s.pos + 1
    ensures s.pos == WrapColumn - 1 ==> t.pos == SweepStart
    ensures t.anim == 0 && t.blink == ToInt8(row)
  {
    var pos := if s.pos >= 0 then (if s.pos + 1 == WrapColumn then SweepStart else s.pos + 1) else s.pos;
    Cursor(pos, 0, ToInt8(row))
  }

  /** reactiveTerm on the state: a sweep-in moves two columns and touches
      nothing else; otherwise the phase advances modulo 141 and any armed
      row is consumed. */
  function Advance(s: Cursor): (t: Cursor)
    requires Valid(s)
    ensures Valid(t)
    ensures s.pos < 0 ==> t == s.(pos := s.pos + 2)
    ensures s.pos >= 0 ==> t == Cursor(s.pos, (s.anim + 1) % (LastPhase + 1), NoBlink)
  {
    if s.pos < 0 then s.(pos := s.pos + 2)
    else Cursor(s.pos, NextPhase(s.anim), NoBlink)
  }

  /** The colours of the sweep-in marker and of the flashed row before they
      are dimmed. */
  const SweepBase := Rgb(255, 0, 0)
  const BlinkBase := Rgb(0, 255, 0)

  /** The glyph's colour on the tick that starts in state s (s.pos >= 0):
      red at the phase's brightness. The colour is built in the variable that
      held the flash colour, so it keeps that colour's blue channel when a
      row was flashed on the same tick. */
  function GlyphColour(s: Cursor, dim: Dimmer): (c: Rgb)
    requires Valid(s)
    ensures s.blink == NoBlink ==> c == dim(Rgb(Brightness(NextPhase(s.anim)), 0, 0))
    ensures s.blink != NoBlink ==> c == dim(Rgb(Brightness(NextPhase(s.anim)), 0, dim(BlinkBase).blue))
  {
    var base := if s.blink != NoBlink then dim(BlinkBase) else Blank;
    dim(Rgb(Brightness(NextPhase(s.anim)), 0, base.blue))
  }

  /** Cell i of the frame that reactiveTerm draws from state s: every tick
      repaints the whole grid from the state. Only row 0 and the armed row
      can be lit, and once typing the glyph is drawn over the flashed row. */
  function FrameCell(s: Cursor, i: nat, dim: Dimmer): (c: Rgb)
    requires Valid(s) && i < NumCells
    ensures c != Blank ==> RowOf(i) == 0 || (s.pos >= 0 && RowOf(i) == s.blink)
    ensures s.pos < 0 && RowOf(i) == 0 && (ColumnOf(i) == -s.pos || ColumnOf(i) == -s.pos + 1) ==>
      c == dim(SweepBase)
    ensures s.pos >= 0 && i != Index(0, s.pos) && RowOf(i) != s.blink ==> c == Blank
    ensures s.pos >= 0 && i == Index(0, s.pos) ==> c == GlyphColour(s, dim)
    ensures s.pos >= 0 && s.blink != NoBlink && RowOf(i) == s.blink && i != Index(0, s.pos) ==>
      c == dim(BlinkBase)
  {
    if s.pos < 0 then
      if RowOf(i) == 0 && (ColumnOf(i) == -s.pos || ColumnOf(i) == -s.pos + 1) then dim(SweepBase) else Blank
    else if RowOf(i) == 0 && ColumnOf(i) == s.pos then GlyphColour(s, dim)
    else if s.blink != NoBlink && RowOf(i) == s.blink then dim(BlinkBase)
    else Blank
  }

  /** The state after n ticks with no keypress. */
  function AdvanceN(s: Cursor, n: nat): (t: Cursor)
    requires Valid(s)
    ensures Valid(t)
    decreases n
  {
    if n == 0 then s else AdvanceN(Advance(s), n - 1)
  }

  /** The state after one keypress per row in rows, with no tick between. */
  function PressAll(s: Cursor, rows: seq<byte>): (t: Cursor)
    requires Valid(s)
    ensures Valid(t)
    decreases |rows|
  {
    if rows == [] then s else PressAll(Press(s, rows[0]), rows[1..])
  }

  /** A sweep-in moves the cursor two columns per tick and leaves the phase
      and the armed row alone until it reaches column 0. */
  lemma {:induction false} SweepIn(s: Cursor, k: nat)
    requires Valid(s) && s.pos + 2 * k <= 0
    ensures AdvanceN(s, k) == s.(pos := s.pos + 2 * k)
    decreases k
  {
    if k > 0 {
      SweepIn(Advance(s), k - 1);
    }
  }

  /** From the wrap position -14 the cursor is back on column 0 after
      exactly seven ticks, and not before. */
  lemma SweepInTakesSevenTicks(s: Cursor, k: nat)
    requires Valid(s) && s.pos == SweepStart
    ensures k < 7 ==> AdvanceN(s, k).pos < 0
    ensures AdvanceN(s, 7) == s.(pos := 0)
  {
    SweepIn(s, 7);
    if k < 7 {
      SweepIn(s, k);
    }
  }

  /** Keypresses while typing move the cursor one column each. */
  lemma {:induction false} Typing(s: Cursor, rows: seq<byte>)
    requires Valid(s) && 0 <= s.pos && s.pos + |rows| < WrapColumn
    ensures PressAll(s, rows).pos == s.pos + |rows|
    decreases |rows|
  {
    if rows != [] {
      Typing(Press(s, rows[0]), rows[1..]);
    }
  }

  /** A full line: from column 0, twelve keypresses reach column 12, the
      thirteenth wraps to the sweep-in, and seven ticks bring the cursor back
      to column 0. */
  lemma {:induction false} TypingCycle(s: Cursor, rows: seq<byte>)
    requires Valid(s) && s.pos == 0 && |rows| == 13
    ensures PressAll(s, rows[..12]).pos == 12
    ensures PressAll(s, rows).pos == SweepStart
    ensures AdvanceN(PressAll(s, rows), 7).pos == 0
  {
    Typing(s, rows[..12]);
    PressAllSplit(s, rows[..12], rows[12..]);
    assert rows[..12] + rows[12..] == rows;
    var t := PressAll(s, rows);
    SweepInTakesSevenTicks(t, 7);
  }

  /** Pressing the keys of a + b is pressing those of a, then those of b. */
  lemma {:induction false} PressAllSplit(s: Cursor, a: seq<byte>, b: seq<byte>)
    requires Valid(s)
    ensures PressAll(s, a + b) == PressAll(PressAll(s, a), b)
    decreases |a|
  {
    if a == [] {
      assert a + b == b;
    } else {
      assert (a + b)[0] == a[0] && (a + b)[1..] == a[1..] + b;
      calc {
        PressAll(s, a + b);
        PressAll(Press(s, a[0]), a[1..] + b);
        { PressAllSplit(Press(s, a[0]), a[1..], b); }
        PressAll(PressAll(Press(s, a[0]), a[1..]), b);
        PressAll(PressAll(s, a), b);
      }
    }
  }

  /** The flash fires once: on the first tick after a keypress that leaves
      the cursor on a column, every cell of the key's row except the glyph is
      green, and on the tick after that no cell but the glyph is lit. */
  lemma FlashOnce(s: Cursor, row: byte, dim: Dimmer)
    requires Valid(s) && row < NumRows && Press(s, row).pos >= 0
    ensures forall i :: 0 <= i < NumCells && RowOf(i) == row && i != Index(0, Press(s, row).pos) ==>
      FrameCell(Press(s, row), i, dim) == dim(BlinkBase)
    ensures Advance(Press(s, row)).blink == NoBlink
    ensures forall i :: 0 <= i < NumCells && i != Index(0, Press(s, row).pos) ==>
      FrameCell(Advance(Press(s, row)), i, dim) == Blank
  {
  }

  /** During a sweep-in only the row-0 cells at columns -pos and -pos + 1
      that lie in the grid are lit. */
  lemma SweepFrame(s: Cursor, dim: Dimmer, i: nat)
    requires Valid(s) && s.pos < 0 && i < NumCells
    ensures FrameCell(s, i, dim) != Blank ==>
      RowOf(i) == 0 && (i == Index(0, -s.pos) || (-s.pos + 1 < NumColumns && i == Index(0, -s.pos + 1)))
  {
  }

  class Engine {
    var termPos: int
    var termAnim: int
    var rowBlink: int

    function State(): Cursor
      reads this
    {
      Cursor(termPos, termAnim, rowBlink)
    }

    /** The globals start as termPos = 0, termAnim = 0, rowBlink = -1. */
    constructor ()
      ensures State() == Cursor(0, 0, NoBlink) && Valid(State())
    {
      termPos, termAnim, rowBlink := 0, 0, -1;
    }

    /** reactiveTerm: the state takes one Advance and the grid holds the
        frame drawn from the old state. */
    method Tick(grid: array<Rgb>, dim: Dimmer)
      requires Valid(State()) && grid.Length == NumCells
      modifies this, grid
      ensures Valid(State()) && State() == Advance(old(State()))
      ensures forall i :: 0 <= i < NumCells ==> grid[i] == FrameCell(old(State()), i, dim)
    {
      var colour := Blank;
      SetAllKeysToBlank(grid);

      if termPos < 0 {
        colour := colour.(red := 255);
        colour := dim(colour);
        LazyMark(grid, 0, -termPos, colour);
        LazyMark(grid, 0, -termPos + 1, colour);
        termPos := termPos + 2;
        forall i | 0 <= i < NumCells
          ensures grid[i] == FrameCell(old(State()), i, dim)
        {
          IndexOfPosition(i);
        }
        return;
      }

      ghost var s := State();
      if rowBlink != -1 {
        colour := colour.(red := 0);
        colour := colour.(green := 255);
        colour := dim(colour);
        for col := 0 to NumColumns
          modifies grid
          invariant forall i :: 0 <= i < NumCells ==>
            grid[i] == if RowOf(i) == rowBlink && ColumnOf(i) < col then colour else Blank
        {
          LazyMark(grid, rowBlink, col, colour);
        }
        rowBlink := -1;
      }

      termAnim := termAnim + 1;
      if termAnim > 140 {
        termAnim := 0;
      }
      var brightness := Brightness(termAnim);
      colour := colour.(green := 0);
      colour := colour.(red := brightness);
      colour := dim(colour);
      LazyMark(grid, 0, termPos, colour);
      forall i | 0 <= i < NumCells
        ensures grid[i] == FrameCell(s, i, dim)
      {
        IndexOfPosition(i);
      }
    }

    /** reactiveTermKeypress: the state takes one Press and the grid is
        blank. */
    method Keypress(grid: array<Rgb>, row: byte, col: byte)
      requires Valid(State())
      modifies this, grid
      ensures Valid(State()) && State() == Press(old(State()), row)
      ensures forall i :: 0 <= i < grid.Length ==> grid[i] == Blank
    {
      if termPos >= 0 {
        termPos := termPos + 1;
        if termPos == 13 {
          termPos := -14;
        }
      }
      termAnim := 0;
      rowBlink := ToInt8(row);
      SetAllKeysToBlank(grid);
    }

    /** reactiveTermInit: cursor and phase restart at 0 and the grid is
        blank; rowBlink is left as it was. */
    method Init(grid: array<Rgb>)
      requires Valid(State())
      modifies this, grid
      ensures Valid(State()) && State() == Cursor(0, 0, old(rowBlink))
      ensures forall i :: 0 <= i < grid.Length ==> grid[i] == Blank
    {
      termPos := 0;
      termAnim := 0;
      SetAllKeysToBlank(grid);
    }
  }
}
