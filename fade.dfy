/** The reactive fade profile: a per-cell level buffer (animatedPressedBuf)
    that a keypress sets to 100 and every tick lowers by 5, painting the cell
    with a hue that moves away from red as the level falls. */
module Fade {
  import opened Led

  /** Level a keypress stores, and the level's upper bound. */
  const Pressed: byte := 100

  /** The immediate marker a keypress paints: full red. */
  const PressColour := Rgb(0xFF, 0, 0)

  /** Level reactiveFadeInit gives every cell of a row. */
  function InitLevel(row: nat): (l: byte)
    requires row < NumRows
    ensures l % 5 == 0 && 0 < l <= Pressed
  {
    row * 15 + 25
  }

  /** One tick of one cell. */
  function Step(c: Cell, hsv: HsvToRgb): (d: Cell)
    requires c.level <= Pressed
    ensures d.level <= c.level
    ensures d.level == 0 <==> c.level <= 5
    ensures c.level > 5 ==> d.level == c.level - 5 && d.colour == hsv(Pressed - d.level, 255, 225)
    ensures 0 < c.level <= 5 ==> d.colour == Blank
    ensures c.level == 0 ==> d == c
  {
    if c.level > 5 then
      var level := c.level - 5;
      Cell(level, hsv(Pressed - level, 255, 225))
    else if c.level > 0 then
      Cell(0, Blank)
    else
      c
  }

  /** The cell after n ticks with no keypress in between. */
  function After(c: Cell, n: nat, hsv: HsvToRgb): (d: Cell)
    requires c.level <= Pressed
    ensures d.level <= c.level
    decreases n
  {
    if n == 0 then c else After(Step(c, hsv), n - 1, hsv)
  }

  /** A cell whose level is 0 is never touched again. */
  lemma {:induction false} IdleStaysIdle(c: Cell, n: nat, hsv: HsvToRgb)
    requires c.level == 0
    ensures After(c, n, hsv) == c
  {
    if n > 0 {
      IdleStaysIdle(Step(c, hsv), n - 1, hsv);
    }
  }

  /** While a level that is a multiple of 5 decays, tick k leaves it 5*k
      lower and paints the hue 100 - level. */
  lemma {:induction false} Fading(c: Cell, k: nat, hsv: HsvToRgb)
    requires c.level <= Pressed && c.level % 5 == 0
    requires 0 < k && 5 * k < c.level
    ensures After(c, k, hsv) == Cell(c.level - 5 * k, hsv(Pressed - (c.level - 5 * k), 255, 225))
    decreases k
  {
    var d := Step(c, hsv);
    if k > 1 {
      Fading(d, k - 1, hsv);
    }
  }

  /** A level that is a multiple of 5 is blank and 0 after level/5 ticks,
      and stays so. */
  lemma {:induction false} Settles(c: Cell, k: nat, hsv: HsvToRgb)
    requires c.level <= Pressed && c.level % 5 == 0 && c.level > 0
    requires 5 * k >= c.level
    ensures After(c, k, hsv) == Cell(0, Blank)
    decreases k
  {
    var d := Step(c, hsv);
    if c.level == 5 {
      IdleStaysIdle(d, k - 1, hsv);
    } else {
      Settles(d, k - 1, hsv);
    }
  }

  /** A pressed cell paints hue 5, 10, ..., 95 on ticks 1 to 19 and is
      blanked, for good, from tick 20 on. */
  lemma PressTimeline(colour: Rgb, k: nat, hsv: HsvToRgb)
    ensures 1 <= k <= 19 ==> After(Cell(Pressed, colour), k, hsv) == Cell(Pressed - 5 * k, hsv(5 * k, 255, 225))
    ensures k >= 20 ==> After(Cell(Pressed, colour), k, hsv) == Cell(0, Blank)
  {
    if 1 <= k <= 19 {
      Fading(Cell(Pressed, colour), k, hsv);
    } else if k >= 20 {
      Settles(Cell(Pressed, colour), k, hsv);
    }
  }

  /** Twenty ticks after reactiveFadeInit, with no keypress, every cell is
      blank with level 0. */
  lemma InitSettles(row: nat, hsv: HsvToRgb)
    requires row < NumRows
    ensures After(Cell(InitLevel(row), Blank), 20, hsv) == Cell(0, Blank)
  {
    Settles(Cell(InitLevel(row), Blank), 20, hsv);
  }

  /** The profile's state: animatedPressedBuf. */
  class Engine {
    const pressed: array<byte>

    ghost predicate Valid()
      reads this, pressed
    {
      pressed.Length == NumCells &&
      forall i :: 0 <= i < NumCells ==> pressed[i] <= Pressed && pressed[i] % 5 == 0
    }

    /** The buffer is zero-initialised. */
    constructor ()
      ensures Valid() && fresh(pressed)
      ensures forall i :: 0 <= i < NumCells ==> pressed[i] == 0
    {
      pressed := new byte[NumCells](_ => 0);
    }

    /** reactiveFade: every cell takes one Step. */
    method Tick(grid: array<Rgb>, hsv: HsvToRgb)
      requires Valid() && grid.Length == NumCells
      modifies pressed, grid
      ensures Valid()
      ensures forall i :: 0 <= i < NumCells ==>
        Cell(pressed[i], grid[i]) == Step(Cell(old(pressed[i]), old(grid[i])), hsv)
    {
      for i := 0 to NumCells
        invariant Valid()
        invariant forall k :: 0 <= k < i ==>
          Cell(pressed[k], grid[k]) == Step(Cell(old(pressed[k]), old(grid[k])), hsv)
        invariant forall k :: i <= k < NumCells ==>
          pressed[k] == old(pressed[k]) && grid[k] == old(grid[k])
      {
        if pressed[i] > 5 {
          pressed[i] := pressed[i] - 5;
          grid[i] := hsv(Pressed - pressed[i], 255, 225);
        } else if pressed[i] > 0 {
          grid[i] := Blank;
          pressed[i] := 0;
        }
      }
    }

    /** reactiveFadeKeypress: the pressed cell gets level 100 and turns red;
        nothing else changes. */
    method Keypress(grid: array<Rgb>, row: byte, col: byte)
      requires Valid() && grid.Length == NumCells
      requires InGrid(row, col)
      modifies pressed, grid
      ensures Valid()
      ensures pressed[..] == old(pressed[..])[Index(row, col) := Pressed]
      ensures grid[..] == old(grid[..])[Index(row, col) := PressColour]
    {
      var i := row * NumColumns + col;
      pressed[i] := Pressed;
      grid[i] := PressColour;
    }

    /** reactiveFadeInit: row r gets level 15*r + 25 and the grid is blank. */
    method Init(grid: array<Rgb>)
      requires Valid() && grid.Length == NumCells
      modifies pressed, grid
      ensures Valid()
      ensures forall i :: 0 <= i < NumCells ==> pressed[i] == InitLevel(RowOf(i))
      ensures forall i :: 0 <= i < NumCells ==> grid[i] == Blank
    {
      for r := 0 to NumRows
        invariant Valid()
        invariant forall i :: 0 <= i < r * NumColumns ==> pressed[i] == InitLevel(RowOf(i))
      {
        for c := 0 to NumColumns
          invariant Valid()
          invariant forall i :: 0 <= i < r * NumColumns + c ==> pressed[i] == InitLevel(RowOf(i))
        {
          pressed[r * NumColumns + c] := r * 15 + 25;
        }
      }
      SetAllKeysToBlank(grid);
    }
  }
}
