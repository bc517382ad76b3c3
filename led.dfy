/** The LED grid the lighting profiles write into, and the collaborators they
    consume: the grid geometry (matrix.h), whole-grid and per-row/column write
    primitives and the colour conversions (miniFastLED.h). */
module Led {

  /** An unsigned 8-bit quantity (uint8_t). */
  type byte = x: int | 0 <= x < 256

  /** One LED cell: three 8-bit channels. A packed literal 0xRRGGBB is read
      as Rgb(0xRR, 0xGG, 0xBB). */
  datatype Rgb = Rgb(red: byte, green: byte, blue: byte)

  /** The "off" value, `color.rgb = 0`. */
  const Blank := Rgb(0, 0, 0)

  /** Conversion from hue/saturation/value to a cell colour (hsv2rgb and the
      set*ColorHSV primitives). Its definition is not part of this model. */
  type HsvToRgb = (byte, byte, byte) -> Rgb

  /** The brightness compensation naiveDimRGB / naiveDimLed. */
  type Dimmer = Rgb -> Rgb

  /** A decay level paired with the colour of the cell it drives: the state
      one tick of the reactive profiles acts on. */
  datatype Cell = Cell(level: byte, colour: Rgb)

  // Grid geometry: NUM_ROW, NUM_COLUMN and ROWCOL2IDX.
  const NumRows: nat := 5
  const NumColumns: nat := 14
  const NumCells: nat := NumRows * NumColumns

  predicate InGrid(row: int, col: int) {
    0 <= row < NumRows && 0 <= col < NumColumns
  }

  function RowOf(i: nat): nat { i / NumColumns }

  function ColumnOf(i: nat): nat { i % NumColumns }

  /** Row-major position of a cell in the grid. */
  function Index(row: int, col: int): (i: nat)
    requires InGrid(row, col)
    ensures i < NumCells
    ensures RowOf(i) == row && ColumnOf(i) == col
  {
    row * NumColumns + col
  }

  /** Every position of the grid is the index of exactly the cell
      (RowOf(i), ColumnOf(i)). */
  lemma IndexOfPosition(i: nat)
    requires i < NumCells
    ensures InGrid(RowOf(i), ColumnOf(i)) && Index(RowOf(i), ColumnOf(i)) == i
  {
  }

  /** setAllKeysToBlank: every cell becomes (0,0,0). */
  method SetAllKeysToBlank(grid: array<Rgb>)
    modifies grid
    ensures forall i :: 0 <= i < grid.Length ==> grid[i] == Blank
  {
    for i := 0 to grid.Length
      invariant forall k :: 0 <= k < i ==> grid[k] == Blank
    {
      grid[i] := Blank;
    }
  }

  /** setAllKeysColorHSV: every cell gets the converted colour. */
  method SetAllKeysColorHsv(grid: array<Rgb>, hsv: HsvToRgb, h: byte, s: byte, v: byte)
    modifies grid
    ensures forall i :: 0 <= i < grid.Length ==> grid[i] == hsv(h, s, v)
  {
    var colour := hsv(h, s, v);
    for i := 0 to grid.Length
      invariant forall k :: 0 <= k < i ==> grid[k] == colour
    {
      grid[i] := colour;
    }
  }

  /** One pass of the inner loop over a row: every cell of `row` gets
      `colour`, the rest of the grid is unchanged. */
  method PaintRow(grid: array<Rgb>, row: nat, colour: Rgb)
    requires grid.Length == NumCells && row < NumRows
    modifies grid
    ensures forall i :: 0 <= i < NumCells ==>
      grid[i] == if RowOf(i) == row then colour else old(grid[i])
  {
    for col := 0 to NumColumns
      invariant forall i :: 0 <= i < NumCells ==>
        grid[i] == if RowOf(i) == row && ColumnOf(i) < col then colour else old(grid[i])
    {
      grid[Index(row, col)] := colour;
    }
  }

  /** One pass of the inner loop down a column: every cell of `col` gets
      `colour`, the rest of the grid is unchanged. */
  method PaintColumn(grid: array<Rgb>, col: nat, colour: Rgb)
    requires grid.Length == NumCells && col < NumColumns
    modifies grid
    ensures forall i :: 0 <= i < NumCells ==>
      grid[i] == if ColumnOf(i) == col then colour else old(grid[i])
  {
    for row := 0 to NumRows
      invariant forall i :: 0 <= i < NumCells ==>
        grid[i] == if ColumnOf(i) == col && RowOf(i) < row then colour else old(grid[i])
    {
      grid[Index(row, col)] := colour;
    }
  }

  /** setRowColorHSV: the cells of one row get the converted colour, the
      rest of the grid is unchanged. */
  method SetRowColorHsv(grid: array<Rgb>, row: nat, hsv: HsvToRgb, h: byte, s: byte, v: byte)
    requires grid.Length == NumCells && row < NumRows
    modifies grid
    ensures forall i :: 0 <= i < NumCells ==>
      grid[i] == if RowOf(i) == row then hsv(h, s, v) else old(grid[i])
  {
    PaintRow(grid, row, hsv(h, s, v));
  }

  /** setColumnColorHSV: the cells of one column get the converted colour,
      the rest of the grid is unchanged. */
  method SetColumnColorHsv(grid: array<Rgb>, col: nat, hsv: HsvToRgb, h: byte, s: byte, v: byte)
    requires grid.Length == NumCells && col < NumColumns
    modifies grid
    ensures forall i :: 0 <= i < NumCells ==>
      grid[i] == if ColumnOf(i) == col then hsv(h, s, v) else old(grid[i])
  {
    PaintColumn(grid, col, hsv(h, s, v));
  }
}
