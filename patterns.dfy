/** The stateless layouts: the colour-bleed test pattern and the two static
    rainbows built from the eight-colour palette. */
module Patterns {
  import opened Led

  const PureRed := Rgb(0xFF, 0, 0)
  const PureGreen := Rgb(0, 0xFF, 0)
  const PureBlue := Rgb(0, 0, 0xFF)

  /** colorPalette, read as 0xRRGGBB. */
  const Palette: seq<Rgb> := [
    Rgb(0xcc, 0x00, 0x00), Rgb(0xcc, 0xcc, 0x00), Rgb(0x5f, 0xcc, 0x00), Rgb(0x00, 0xc7, 0xcc),
    Rgb(0x00, 0x6e, 0xcc), Rgb(0x00, 0x33, 0xff), Rgb(0x69, 0x00, 0xcc), Rgb(0xcc, 0x00, 0xbf)
  ]

  /** Palette colour k, the palette repeating every eight colours. */
  function PaletteColour(k: nat): Rgb
  {
    Palette[k % |Palette|]
  }

  /** The colour colorBleed gives cell (row, col): column 0 is blue on rows
      0 to 3 and red below, row 0 is blue up to column 10 and red after, and
      every other cell cycles blue, green, red with its index. */
  function BleedColour(row: int, col: int): (c: Rgb)
    requires InGrid(row, col)
    ensures c == PureRed || c == PureGreen || c == PureBlue
  {
    if col == 0 then
      if row <= 3 then PureBlue else PureRed
    else if row == 0 then
      if col <= 10 then PureBlue else PureRed
    else
      var i := col + NumColumns * row;
      if i % 3 == 0 then PureBlue
      else if i % 3 == 1 then PureGreen
      else PureRed
  }

  /** Away from the border row and column, every key differs in colour from
      its right-hand and its lower neighbour, so any bleed between adjacent
      LEDs shows. */
  lemma BleedNeighboursDiffer(row: int, col: int)
    requires InGrid(row, col) && row > 0 && col > 0
    ensures col + 1 < NumColumns ==> BleedColour(row, col) != BleedColour(row, col + 1)
    ensures row + 1 < NumRows ==> BleedColour(row, col) != BleedColour(row + 1, col)
  {
  }

  /** colorBleed: every cell gets its BleedColour. */
  method ColorBleed(grid: array<Rgb>)
    requires grid.Length == NumCells
    modifies grid
    ensures forall i :: 0 <= i < NumCells ==> grid[i] == BleedColour(RowOf(i), ColumnOf(i))
  {
    for c := 0 to NumColumns
      invariant forall i :: 0 <= i < NumCells && ColumnOf(i) < c ==> grid[i] == BleedColour(RowOf(i), ColumnOf(i))
    {
      for r := 0 to NumRows
        invariant forall i :: 0 <= i < NumCells && (ColumnOf(i) < c || (ColumnOf(i) == c && RowOf(i) < r)) ==>
          grid[i] == BleedColour(RowOf(i), ColumnOf(i))
      {
        var i := c + NumColumns * r;
        if c == 0 {
          if r <= 3 {
            grid[i] := PureBlue;
          } else {
            grid[i] := PureRed;
          }
          continue;
        }
        if r == 0 {
          if c <= 10 {
            grid[i] := PureBlue;
          } else {
            grid[i] := PureRed;
          }
          continue;
        }
        match i % 3
        case 0 => grid[i] := PureBlue;
        case 1 => grid[i] := PureGreen;
        case 2 => grid[i] := PureRed;
      }
    }
  }

  /** rainbowHorizontal: row r is palette colour r, dimmed. */
  method RainbowHorizontal(grid: array<Rgb>, dim: Dimmer)
    requires grid.Length == NumCells
    modifies grid
    ensures forall i :: 0 <= i < NumCells ==> grid[i] == dim(Palette[RowOf(i)])
  {
    for r := 0 to NumRows
      invariant forall i :: 0 <= i < NumCells && RowOf(i) < r ==> grid[i] == dim(Palette[RowOf(i)])
    {
      PaintRow(grid, r, dim(Palette[r]));
    }
  }

  /** rainbowVertical: column c is palette colour c mod 8, dimmed. */
  method RainbowVertical(grid: array<Rgb>, dim: Dimmer)
    requires grid.Length == NumCells
    modifies grid
    ensures forall i :: 0 <= i < NumCells ==> grid[i] == dim(PaletteColour(ColumnOf(i)))
  {
    for c := 0 to NumColumns
      invariant forall i :: 0 <= i < NumCells && ColumnOf(i) < c ==> grid[i] == dim(PaletteColour(ColumnOf(i)))
    {
      PaintColumn(grid, c, dim(PaletteColour(c)));
    }
  }
}
