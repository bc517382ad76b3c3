/** The free-running animated profiles: each keeps a counter (or one per
    column) that advances on every tick with no regard to keypresses. */
module Animated {
  import opened Led
  import Patterns

  // ---------------------------------------------------------------------
  // Hue steps of the flow and waterfall rainbows

  /** The hues a flow or waterfall counter never takes: 182 to 242. */
  predicate InHueGap(v: int) { 182 <= v < 243 }

  /** One step of a flow or waterfall hue: values in [179, 240) jump to 240,
      then 3 is added in uint8_t. */
  function HueStep(v: byte): (r: byte)
    ensures !InHueGap(r)
    ensures 179 <= v < 240 ==> r == 243
    ensures !(179 <= v < 240) ==> (r - v) % 256 == 3
  {
    var w := if 179 <= v < 240 then 240 else v;
    (w + 3) % 256
  }

  // ---------------------------------------------------------------------
  // Bouncing counters: breathing, spectrum and wave

  /** A counter and the signed step it moves by. */
  datatype Oscillator = Oscillator(value: byte, direction: int)

  /** One update of a bouncing counter: at or above `high` the direction
      becomes -step, at or below `low` it becomes +step, and then the
      direction is added to the uint8_t value. */
  function Bounce(o: Oscillator, low: int, high: int, step: int): (r: Oscillator)
    ensures o.value >= high ==> r.direction == -step
    ensures o.value < high && o.value <= low ==> r.direction == step
    ensures low < o.value < high ==> r.direction == o.direction
    ensures (r.value - o.value - r.direction) % 256 == 0
  {
    var d := if o.value >= high then -step else if o.value <= low then step else o.direction;
    Oscillator((o.value + d) % 256, d)
  }

  /** The counter after n updates. */
  function BounceN(o: Oscillator, n: nat, low: int, high: int, step: int): Oscillator
    decreases n
  {
    if n == 0 then o else BounceN(Bounce(o, low, high, step), n - 1, low, high, step)
  }

  /** Proof helper: unfolds BounceN by one update. */
  lemma BounceNFirst(o: Oscillator, n: nat, low: int, high: int, step: int)
    ensures BounceN(o, n + 1, low, high, step) == BounceN(Bounce(o, low, high, step), n, low, high, step)
  {
  }

  lemma {:induction false} BounceNSplit(o: Oscillator, a: nat, b: nat, low: int, high: int, step: int)
    ensures BounceN(o, a + b, low, high, step) == BounceN(BounceN(o, a, low, high, step), b, low, high, step)
    decreases a
  {
    if a > 0 {
      BounceNSplit(Bounce(o, low, high, step), a - 1, b, low, high, step);
    }
  }

  /** Strictly between the turning points a rising counter climbs by step
      per update without wrapping. */
  lemma {:induction false} Rising(o: Oscillator, k: nat, low: int, high: int, step: int)
    requires step > 0 && o.direction == step && low < o.value
    requires k > 0 ==> o.value + step * (k - 1) < high && o.value + step * k < 256
    ensures BounceN(o, k, low, high, step) == Oscillator(o.value + step * k, step)
    decreases k
  {
    if k > 0 {
      var m := step * (k - 1);
      assert step * k == m + step;
      assert o.value + step <= o.value + step * k < 256;
      var p := Oscillator(o.value + step, step);
      assert Bounce(o, low, high, step) == p by {
        assert o.value < high;
        assert (o.value + step) % 256 == o.value + step;
      }
      if k > 1 {
        assert step * (k - 2) == m - step;
      }
      Rising(p, k - 1, low, high, step);
    }
  }

  /** Strictly between the turning points a falling counter drops by step
      per update without wrapping. */
  lemma {:induction false} Falling(o: Oscillator, k: nat, low: int, high: int, step: int)
    requires step > 0 && o.direction == -step && o.value < high
    requires k > 0 ==> o.value - step * (k - 1) > low && o.value - step * k >= 0
    ensures BounceN(o, k, low, high, step) == Oscillator(o.value - step * k, -step)
    decreases k
  {
    if k > 0 {
      var m := step * (k - 1);
      assert step * k == m + step;
      assert o.value - step >= o.value - step * k >= 0;
      var p := Oscillator(o.value - step, -step);
      assert Bounce(o, low, high, step) == p by {
        assert o.value > low;
        assert (o.value - step) % 256 == o.value - step;
      }
      if k > 1 {
        assert step * (k - 2) == m - step;
      }
      Falling(p, k - 1, low, high, step);
    }
  }

  /** animatedBreathing's bounce: turns at 180 and 2, step 2. */
  function BreathingStep(o: Oscillator): (r: Oscillator)
    ensures o.value >= 180 ==> r.direction == -2
    ensures o.value <= 2 ==> r.direction == 2
    ensures 2 < o.value < 180 ==> r.direction == o.direction
    ensures (r.value - o.value - r.direction) % 256 == 0
  {
    Bounce(o, 2, 180, 2)
  }

  /** From its start value 180 the breathing counter is even and in
      [2, 180]; it moves by +-2 except on the very first update. */
  predicate BreathingInRange(o: Oscillator) {
    && o.value % 2 == 0 && 2 <= o.value <= 180
    && (o.direction == 2 || o.direction == -2 || o.value == 180)
  }

  lemma BreathingStaysInRange(o: Oscillator)
    requires BreathingInRange(o)
    ensures BreathingInRange(BreathingStep(o))
    ensures BreathingStep(o).value == o.value + BreathingStep(o).direction
  {
  }

  // The half-period lemmas below fix their count k by a requires instead of
  // writing the number in the ensures: a literal count makes the verifier
  // unfold BounceN that many times. They are statements about one count
  // only, not general ones.

  /** The breathing counter's descent: from 180, whatever its direction,
      it reaches 2 after 1 + k updates with k = 88, still falling. */
  lemma BreathingDescent(o: Oscillator, k: nat)
    requires o.value == 180 && k == 88
    ensures BounceN(o, k + 1, 2, 180, 2) == Oscillator(2, -2)
  {
    var top := Bounce(o, 2, 180, 2);
    assert top == Oscillator(178, -2);
    BounceNFirst(o, k, 2, 180, 2);
    Falling(top, k, 2, 180, 2);
  }

  /** The breathing counter's ascent: from 2, falling, it climbs back to
      180 after 1 + k updates with k = 88. */
  lemma BreathingAscent(o: Oscillator, k: nat)
    requires o == Oscillator(2, -2) && k == 88
    ensures BounceN(o, k + 1, 2, 180, 2) == Oscillator(180, 2)
  {
    var bottom := Bounce(o, 2, 180, 2);
    assert bottom == Oscillator(4, 2);
    BounceNFirst(o, k, 2, 180, 2);
    Rising(bottom, k, 2, 180, 2);
  }

  /** One breath: from 180 the counter is back at 180, rising, after
      2 * (k + 1) = 178 updates, whatever its first direction. */
  lemma BreathingPeriod(o: Oscillator, k: nat)
    requires o.value == 180 && k == 88
    ensures BounceN(o, 2 * (k + 1), 2, 180, 2) == Oscillator(180, 2)
  {
    BounceNSplit(o, k + 1, k + 1, 2, 180, 2);
    BreathingDescent(o, k);
    BreathingAscent(BounceN(o, k + 1, 2, 180, 2), k);
  }

  /** animatedSpectrum's bounce: turns at 177 and 2, step 3. */
  function SpectrumStep(o: Oscillator): (r: Oscillator)
    ensures o.value >= 177 ==> r.direction == -3
    ensures o.value <= 2 ==> r.direction == 3
    ensures 2 < o.value < 177 ==> r.direction == o.direction
    ensures (r.value - o.value - r.direction) % 256 == 0
  {
    Bounce(o, 2, 177, 3)
  }

  /** From its start value 2 the spectrum counter is 2 mod 3 and in
      [2, 179]; it moves by +-3 except on the very first update. */
  predicate SpectrumInRange(o: Oscillator) {
    && o.value % 3 == 2 && 2 <= o.value <= 179
    && (o.direction == 3 || o.direction == -3 || o.value == 2)
  }

  lemma SpectrumStaysInRange(o: Oscillator)
    requires SpectrumInRange(o)
    ensures SpectrumInRange(SpectrumStep(o))
    ensures SpectrumStep(o).value == o.value + SpectrumStep(o).direction
  {
  }

  /** The spectrum hue's ascent: from 2, whatever its direction, it reaches
      179 after 1 + k updates with k = 58, still rising. */
  lemma SpectrumAscent(o: Oscillator, k: nat)
    requires o.value == 2 && k == 58
    ensures BounceN(o, k + 1, 2, 177, 3) == Oscillator(179, 3)
  {
    var bottom := Bounce(o, 2, 177, 3);
    assert bottom == Oscillator(5, 3);
    BounceNFirst(o, k, 2, 177, 3);
    Rising(bottom, k, 2, 177, 3);
  }

  /** The spectrum hue's descent: from 179, rising, it falls back to 2
      after 1 + k updates with k = 58. */
  lemma SpectrumDescent(o: Oscillator, k: nat)
    requires o == Oscillator(179, 3) && k == 58
    ensures BounceN(o, k + 1, 2, 177, 3) == Oscillator(2, -3)
  {
    var top := Bounce(o, 2, 177, 3);
    assert top == Oscillator(176, -3);
    BounceNFirst(o, k, 2, 177, 3);
    Falling(top, k, 2, 177, 3);
  }

  /** One sweep of the spectrum: from 2 the hue is back at 2, falling,
      after 2 * (k + 1) = 118 updates, whatever its first direction. */
  lemma SpectrumPeriod(o: Oscillator, k: nat)
    requires o.value == 2 && k == 58
    ensures BounceN(o, 2 * (k + 1), 2, 177, 3) == Oscillator(2, -3)
  {
    BounceNSplit(o, k + 1, k + 1, 2, 177, 3);
    SpectrumAscent(o, k);
    SpectrumDescent(BounceN(o, k + 1, 2, 177, 3), k);
  }

  /** animatedWave's per-column bounce: turns at 140 and 10, step 3. */
  function WaveStep(o: Oscillator): (r: Oscillator)
    ensures o.value >= 140 ==> r.direction == -3
    ensures o.value <= 10 ==> r.direction == 3
    ensures 10 < o.value < 140 ==> r.direction == o.direction
    ensures (r.value - o.value - r.direction) % 256 == 0
  {
    Bounce(o, 10, 140, 3)
  }

  /** Every wave counter stays in [0, 142] with direction +-3. */
  predicate WaveInRange(o: Oscillator) {
    0 <= o.value <= 142 && (o.direction == 3 || o.direction == -3)
  }

  lemma WaveStaysInRange(o: Oscillator)
    requires WaveInRange(o)
    ensures WaveInRange(WaveStep(o))
    ensures WaveStep(o).value == o.value + WaveStep(o).direction
  {
  }

  /** waveValue's initial contents. */
  const WaveStart: seq<byte> := [0, 0, 0, 10, 15, 20, 25, 40, 55, 75, 100, 115, 135, 140]

  /** Every column starts in range, so WaveStaysInRange applies from the
      first tick on. */
  lemma WaveStartInRange()
    ensures |WaveStart| == NumColumns
    ensures forall c :: 0 <= c < NumColumns ==> WaveInRange(Oscillator(WaveStart[c], 3))
  {
  }

  // ---------------------------------------------------------------------
  // The profiles

  /** animatedRainbowVertical: the vertical rainbow scrolled by
      colAnimOffset columns. */
  class RainbowVertical {
    var offset: byte

    ghost predicate Valid()
      reads this
    {
      offset < |Patterns.Palette|
    }

    constructor ()
      ensures Valid() && offset == 0
    {
      offset := 0;
    }

    method Tick(grid: array<Rgb>, dim: Dimmer)
      requires Valid() && grid.Length == NumCells
      modifies this, grid
      ensures Valid() && offset == (old(offset) + 1) % |Patterns.Palette|
      ensures forall i :: 0 <= i < NumCells ==>
        grid[i] == dim(Patterns.PaletteColour(ColumnOf(i) + old(offset)))
    {
      for c := 0 to NumColumns
        modifies grid
        invariant forall i :: 0 <= i < NumCells && ColumnOf(i) < c ==>
          grid[i] == dim(Patterns.PaletteColour(ColumnOf(i) + offset))
      {
        PaintColumn(grid, c, dim(Patterns.PaletteColour(c + offset)));
      }
      offset := (offset + 1) % |Patterns.Palette|;
    }
  }

  /** animatedRainbowFlow: column c shows hue flowValue[c], which then
      takes a HueStep. */
  class RainbowFlow {
    const hues: array<byte>

    ghost predicate Valid()
      reads this, hues
    {
      hues.Length == NumColumns && forall c :: 0 <= c < NumColumns ==> !InHueGap(hues[c])
    }

    constructor ()
      ensures Valid() && fresh(hues)
      ensures hues[..] == [0, 11, 22, 33, 44, 55, 66, 77, 88, 99, 110, 121, 132, 143]
    {
      hues := new byte[] [0, 11, 22, 33, 44, 55, 66, 77, 88, 99, 110, 121, 132, 143];
    }

    method Tick(grid: array<Rgb>, hsv: HsvToRgb)
      requires Valid() && grid.Length == NumCells
      modifies hues, grid
      ensures Valid()
      ensures forall c :: 0 <= c < NumColumns ==> hues[c] == HueStep(old(hues[c]))
      ensures forall i :: 0 <= i < NumCells ==> grid[i] == hsv(old(hues[ColumnOf(i)]), 255, 255)
    {
      for c := 0 to NumColumns
        invariant Valid()
        invariant forall k :: 0 <= k < c ==> hues[k] == HueStep(old(hues[k]))
        invariant forall k :: c <= k < NumColumns ==> hues[k] == old(hues[k])
        invariant forall i :: 0 <= i < NumCells ==>
          grid[i] == if ColumnOf(i) < c then hsv(old(hues[ColumnOf(i)]), 255, 255) else old(grid[i])
      {
        SetColumnColorHsv(grid, c, hsv, hues[c], 255, 255);
        if hues[c] >= 179 && hues[c] < 240 {
          hues[c] := 240;
        }
        hues[c] := (hues[c] as int + 3) % 256;
      }
    }
  }

  /** animatedRainbowWaterfall: row r shows hue waterfallValue[r], which
      then takes a HueStep. The buffer has one entry per column; only the
      first NumRows are used. */
  class RainbowWaterfall {
    const hues: array<byte>

    ghost predicate Valid()
      reads this, hues
    {
      hues.Length == NumColumns && forall c :: 0 <= c < NumColumns ==> !InHueGap(hues[c])
    }

    constructor ()
      ensures Valid() && fresh(hues)
      ensures hues[..] == [0, 10, 20, 30, 40, 50, 60, 70, 80, 90, 100, 110, 120, 130]
    {
      hues := new byte[] [0, 10, 20, 30, 40, 50, 60, 70, 80, 90, 100, 110, 120, 130];
    }

    method Tick(grid: array<Rgb>, hsv: HsvToRgb)
      requires Valid() && grid.Length == NumCells
      modifies hues, grid
      ensures Valid()
      ensures forall r :: 0 <= r < NumRows ==> hues[r] == HueStep(old(hues[r]))
      ensures forall k :: NumRows <= k < NumColumns ==> hues[k] == old(hues[k])
      ensures forall i :: 0 <= i < NumCells ==> grid[i] == hsv(old(hues[RowOf(i)]), 255, 125)
    {
      for r := 0 to NumRows
        invariant Valid()
        invariant forall k :: 0 <= k < r ==> hues[k] == HueStep(old(hues[k]))
        invariant forall k :: r <= k < NumColumns ==> hues[k] == old(hues[k])
        invariant forall i :: 0 <= i < NumCells ==>
          grid[i] == if RowOf(i) < r then hsv(old(hues[RowOf(i)]), 255, 125) else old(grid[i])
      {
        SetRowColorHsv(grid, r, hsv, hues[r], 255, 125);
        if hues[r] >= 179 && hues[r] < 240 {
          hues[r] := 240;
        }
        hues[r] := (hues[r] as int + 3) % 256;
      }
    }
  }

  /** animatedBreathing: the whole grid at value breathingValue of a fixed
      hue; the value then takes a BreathingStep. */
  class Breathing {
    var level: byte
    var direction: int

    function State(): Oscillator
      reads this
    {
      Oscillator(level, direction)
    }

    ghost predicate Valid()
      reads this
    {
      BreathingInRange(State())
    }

    constructor ()
      ensures Valid() && State() == Oscillator(180, -1)
    {
      level, direction := 180, -1;
    }

    method Tick(grid: array<Rgb>, hsv: HsvToRgb)
      requires Valid()
      modifies this, grid
      ensures Valid() && State() == BreathingStep(old(State()))
      ensures forall i :: 0 <= i < grid.Length ==> grid[i] == hsv(85, 255, old(level))
    {
      SetAllKeysColorHsv(grid, hsv, 85, 255, level);
      if level >= 180 {
        direction := -2;
      } else if level <= 2 {
        direction := 2;
      }
      level := (level + direction) % 256;
      BreathingStaysInRange(old(State()));
    }
  }

  /** animatedSpectrum: the whole grid at hue spectrumValue; the hue then
      takes a SpectrumStep. */
  class Spectrum {
    var hue: byte
    var direction: int

    function State(): Oscillator
      reads this
    {
      Oscillator(hue, direction)
    }

    ghost predicate Valid()
      reads this
    {
      SpectrumInRange(State())
    }

    constructor ()
      ensures Valid() && State() == Oscillator(2, 1)
    {
      hue, direction := 2, 1;
    }

    method Tick(grid: array<Rgb>, hsv: HsvToRgb)
      requires Valid()
      modifies this, grid
      ensures Valid() && State() == SpectrumStep(old(State()))
      ensures forall i :: 0 <= i < grid.Length ==> grid[i] == hsv(old(hue), 255, 125)
    {
      SetAllKeysColorHsv(grid, hsv, hue, 255, 125);
      if hue >= 177 {
        direction := -3;
      } else if hue <= 2 {
        direction := 3;
      }
      hue := (hue + direction) % 256;
      SpectrumStaysInRange(old(State()));
    }
  }

  /** animatedWave: column c at value waveValue[c] of a fixed hue; each
      column's counter takes a WaveStep, the direction being updated before
      the column is painted and the value after. */
  class Wave {
    const levels: array<byte>
    const directions: array<int>

    ghost predicate Valid()
      reads this, levels, directions
    {
      && levels.Length == NumColumns && directions.Length == NumColumns
      && forall c :: 0 <= c < NumColumns ==> WaveInRange(Oscillator(levels[c], directions[c]))
    }

    constructor ()
      ensures Valid() && fresh(levels) && fresh(directions)
      ensures levels[..] == WaveStart
      ensures forall c :: 0 <= c < NumColumns ==> directions[c] == 3
    {
      levels := new byte[] [0, 0, 0, 10, 15, 20, 25, 40, 55, 75, 100, 115, 135, 140];
      directions := new int[NumColumns](_ => 3);
      new;
      assert levels[..] == WaveStart;
      WaveStartInRange();
    }

    method Tick(grid: array<Rgb>, hsv: HsvToRgb)
      requires Valid() && grid.Length == NumCells
      modifies levels, directions, grid
      ensures Valid()
      ensures forall c :: 0 <= c < NumColumns ==>
        Oscillator(levels[c], directions[c]) == WaveStep(Oscillator(old(levels[c]), old(directions[c])))
      ensures forall i :: 0 <= i < NumCells ==> grid[i] == hsv(190, 255, old(levels[ColumnOf(i)]))
    {
      for c := 0 to NumColumns
        invariant Valid()
        invariant forall k :: 0 <= k < c ==>
          Oscillator(levels[k], directions[k]) == WaveStep(Oscillator(old(levels[k]), old(directions[k])))
        invariant forall k :: c <= k < NumColumns ==> levels[k] == old(levels[k]) && directions[k] == old(directions[k])
        invariant forall i :: 0 <= i < NumCells ==>
          grid[i] == if ColumnOf(i) < c then hsv(190, 255, old(levels[ColumnOf(i)])) else old(grid[i])
      {
        if levels[c] >= 140 {
          directions[c] := -3;
        } else if levels[c] <= 10 {
          directions[c] := 3;
        }
        SetColumnColorHsv(grid, c, hsv, 190, 255, levels[c]);
        WaveStaysInRange(Oscillator(old(levels[c]), old(directions[c])));
        levels[c] := (levels[c] + directions[c]) % 256;
      }
    }
  }
}
