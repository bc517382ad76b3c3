/** The reactive pulse profile: a per-row level buffer (pulseBuf) that a
    keypress sets to 80 and every tick lowers by 16, painting the whole row a
    blue that dims as the level falls. */
module Pulse {
  import opened Led

  /** pulseSpeed: how much a row's level drops per tick. */
  const Speed: byte := 16

  /** Level a keypress stores; levels above it only count down. */
  const Pressed: byte := 80

  /** The colour a row with level v is painted while it decays. */
  function Glow(v: byte): (c: Rgb)
    requires Speed < v <= Pressed
    ensures c.red == 0 && c.green == 0 && 192 <= c.blue <= 255
    ensures c.blue - 175 == v
  {
    Rgb(0, 0, 175 + v)
  }

  /** Level reactivePulseInit gives row r. */
  function InitLevel(row: nat): (l: byte)
    requires row < NumRows
    ensures Pressed <= l <= Pressed + 5 * (NumRows - 1)
  {
    Pressed + row * 5
  }

  /** One tick of one cell of a row whose level is c.level. */
  function Step(c: Cell): (d: Cell)
    ensures d.level <= c.level && (c.level > 0 ==> d.level < c.level)
    ensures d.level == 0 <==> c.level <= Speed
    ensures c.level > Speed ==> d.level == c.level - Speed
    ensures c.level > Pressed || c.level == 0 ==> d.colour == c.colour
    ensures Speed < c.level <= Pressed ==> d.colour == Glow(c.level)
    ensures 0 < c.level <= Speed ==> d.colour == Blank
  {
    if c.level > Pressed then
      Cell(c.level - Speed, c.colour)
    else if c.level > Speed then
      Cell(c.level - Speed, Glow(c.level))
    else if c.level > 0 then
      Cell(0, Blank)
    else
      c
  }

  /** The cell after n ticks with no keypress on its row. */
  function After(c: Cell, n: nat): (d: Cell)
    ensures d.level <= c.level
    decreases n
  {
    if n == 0 then c else After(Step(c), n - 1)
  }

  /** A row whose level is 0 is never written again. */
  lemma {:induction false} IdleStaysIdle(c: Cell, n: nat)
    requires c.level == 0
    ensures After(c, n) == c
  {
    if n > 0 {
      IdleStaysIdle(Step(c), n - 1);
    }
  }

  /** From a level at most 80, tick k paints the blue of the level the row
      had before that tick, for as long as the level stays positive. */
  lemma {:induction false} Glowing(c: Cell, k: nat)
    requires c.level <= Pressed
    requires 0 < k && Speed * k < c.level
    ensures After(c, k) == Cell(c.level - Speed * k, Glow(c.level - Speed * (k - 1)))
    decreases k
  {
    if k > 1 {
      Glowing(Step(c), k - 1);
    }
  }

  /** Any positive level is 0, with the row blank, after ceil(level/16)
      ticks, and stays so. */
  lemma {:induction false} Settles(c: Cell, k: nat)
    requires c.level > 0
    requires Speed * k >= c.level
    ensures After(c, k) == Cell(0, Blank)
    decreases k
  {
    if c.level <= Speed {
      IdleStaysIdle(Step(c), k - 1);
    } else {
      Settles(Step(c), k - 1);
    }
  }

  /** A row pressed to 80 paints blue 255, 239, 223, 207 on ticks 1 to 4
      and is blank, for good, from tick 5 on. */
  lemma PressTimeline(colour: Rgb, k: nat)
    ensures 1 <= k <= 4 ==> After(Cell(Pressed, colour), k) == Cell(Pressed - Speed * k, Rgb(0, 0, 271 - Speed * k))
    ensures k >= 5 ==> After(Cell(Pressed, colour), k) == Cell(0, Blank)
  {
    if 1 <= k <= 4 {
      Glowing(Cell(Pressed, colour), k);
    } else if k >= 5 {
      Settles(Cell(Pressed, colour), k);
    }
  }

  /** Seven ticks after reactivePulseInit, with no keypress, every row is
      blank with level 0. */
  lemma InitSettles(row: nat, colour: Rgb)
    requires row < NumRows
    ensures After(Cell(InitLevel(row), colour), 7) == Cell(0, Blank)
  {
    Settles(Cell(InitLevel(row), colour), 7);
  }

  /** The profile's state: pulseBuf. */
  class Engine {
    const levels: array<byte>

    ghost predicate Valid()
      reads this
    {
      levels.Length == NumRows
    }

    /** The buffer is zero-initialised. */
    constructor ()
      ensures Valid() && fresh(levels)
      ensures forall r :: 0 <= r < NumRows ==> levels[r] == 0
    {
      levels := new byte[NumRows](_ => 0);
    }

    /** reactivePulse: every cell of row r takes one Step with the row's
        level, and the row's level follows. */
    method Tick(grid: array<Rgb>)
      requires Valid() && grid.Length == NumCells
      modifies levels, grid
      ensures Valid()
      ensures forall r :: 0 <= r < NumRows ==> levels[r] == Step(Cell(old(levels[r]), Blank)).level
      ensures forall i :: 0 <= i < NumCells ==>
        Cell(levels[RowOf(i)], grid[i]) == Step(Cell(old(levels[RowOf(i)]), old(grid[i])))
    {
      for r := 0 to NumRows
        invariant forall rr :: 0 <= rr < r ==> levels[rr] == Step(Cell(old(levels[rr]), Blank)).level
        invariant forall rr :: r <= rr < NumRows ==> levels[rr] == old(levels[rr])
        invariant forall i :: 0 <= i < NumCells && RowOf(i) < r ==>
          Cell(levels[RowOf(i)], grid[i]) == Step(Cell(old(levels[RowOf(i)]), old(grid[i])))
        invariant forall i :: 0 <= i < NumCells && RowOf(i) >= r ==> grid[i] == old(grid[i])
      {
        if levels[r] > Pressed {
          levels[r] := levels[r] - Speed;
        } else if levels[r] > Speed {
          PaintRow(grid, r, Rgb(0, 0, 175 + levels[r]));
          levels[r] := levels[r] - Speed;
        } else if levels[r] > 0 {
          levels[r] := 0;
          PaintRow(grid, r, Blank);
        }
      }
    }

    /** reactivePulseKeypress: row `row` gets level 80; the grid and the
        other rows are untouched. */
    method Keypress(grid: array<Rgb>, row: byte, col: byte)
      requires Valid() && row < NumRows
      modifies levels
      ensures Valid()
      ensures levels[..] == old(levels[..])[row := Pressed]
    {
      levels[row] := Pressed;
    }

    /** reactivePulseInit: row r gets level 80 + 5*r and the grid is blank. */
    method Init(grid: array<Rgb>)
      requires Valid()
      modifies levels, grid
      ensures Valid()
      ensures forall r :: 0 <= r < NumRows ==> levels[r] == InitLevel(r)
      ensures forall i :: 0 <= i < grid.Length ==> grid[i] == Blank
    {
      for r := 0 to NumRows
        invariant forall rr :: 0 <= rr < r ==> levels[rr] == InitLevel(rr)
      {
        levels[r] := Pressed + r * 5;
      }
      SetAllKeysToBlank(grid);
    }
  }
}
