/** The contribution graph: a 52-week by 7-day grid of generated counts,
    each bucketed into an intensity level from 0 to 4 and coloured from one
    of two palettes. The random draws are a parameter: `rolls[i]` is the
    count drawn for the i-th cell in generation order. */
module ContributionGraph {

  const Weeks := 52
  const DaysPerWeek := 7
  const CellCount := Weeks * DaysPerWeek

  /** `Math.floor(Math.random() * 11)`: every draw lies in 0..10. */
  const MaxCount := 10

  /** The level of a count, by the conditional chain in
      `generateContributionData`: zero is level 0, up to 3 is level 1, up to
      6 is level 2, up to 9 is level 3, and anything larger is level 4. A
      negative count (which the generator never draws) falls into level 1
      through the `count <= 3` test. */
  function Level(count: int): (level: nat)
    ensures level <= 4
    ensures level == 0 <==> count == 0
    ensures level == 1 <==> count != 0 && count <= 3
    ensures level == 2 <==> 4 <= count <= 6
    ensures level == 3 <==> 7 <= count <= 9
    ensures level == 4 <==> count >= 10
  {
    if count == 0 then 0
    else if count <= 3 then 1
    else if count <= 6 then 2
    else if count <= 9 then 3
    else 4
  }

  /** More contributions never give a lower level, for the counts that can
      occur. */
  lemma LevelMonotone(a: int, b: int)
    requires 0 <= a <= b
    ensures Level(a) <= Level(b)
  {
  }

  /** With the generator's range, the top level is reached only by the top
      draw. */
  lemma TopLevelOnlyAtMax(count: int)
    requires 0 <= count <= MaxCount
    ensures Level(count) == 4 <==> count == MaxCount
  {
  }

  /** One generated cell: the count, its level, and the day of January of
      `selectedYear` its date is built from (`week * 7 + day + 1`; the
      `Date` constructor rolls days past the end of January over). */
  datatype Cell = Cell(dayOfYear: nat, count: nat, level: nat)

  function MakeCell(week: nat, day: nat, count: nat): (c: Cell)
    ensures c.count == count && c.level == Level(count)
    ensures c.dayOfYear == DayOf(week, day)
  {
    Cell(DayOf(week, day), count, Level(count))
  }

  /** `generateContributionData()`: 52 weeks of 7 cells, drawn week by week
      and day by day. */
  function Generate(rolls: seq<nat>): (grid: seq<seq<Cell>>)
    requires |rolls| == CellCount
    ensures |grid| == Weeks
    ensures forall w :: 0 <= w < Weeks ==> |grid[w]| == DaysPerWeek
    ensures forall w, d :: 0 <= w < Weeks && 0 <= d < DaysPerWeek ==>
      grid[w][d].count == rolls[w * DaysPerWeek + d] && grid[w][d].level == Level(grid[w][d].count)
    ensures forall w, d :: 0 <= w < Weeks && 0 <= d < DaysPerWeek ==> grid[w][d].dayOfYear == DayOf(w, d)
  {
    seq(Weeks, w requires 0 <= w < Weeks =>
      seq(DaysPerWeek, d requires 0 <= d < DaysPerWeek => MakeCell(w, d, rolls[w * DaysPerWeek + d])))
  }

  /** Every cell of a generated grid has a level in 0..4. */
  lemma GridLevelsInRange(rolls: seq<nat>, w: nat, d: nat)
    requires |rolls| == CellCount && w < Weeks && d < DaysPerWeek
    ensures Generate(rolls)[w][d].level <= 4
    ensures Generate(rolls)[w][d].level == 0 <==> rolls[w * DaysPerWeek + d] == 0
  {
  }

  /** With every draw in 0..10, a generated cell has the top level exactly
      when its draw is the top draw. */
  lemma GridTopLevelIffMax(rolls: seq<nat>, w: nat, d: nat)
    requires |rolls| == CellCount && w < Weeks && d < DaysPerWeek
    requires forall i :: 0 <= i < |rolls| ==> rolls[i] <= MaxCount
    ensures Generate(rolls)[w][d].level == 4 <==> rolls[w * DaysPerWeek + d] == MaxCount
  {
    assert w * DaysPerWeek + d < CellCount;
    TopLevelOnlyAtMax(rolls[w * DaysPerWeek + d]);
  }

  /** The cell at (week, day) lands on the day `week * 7 + day + 1`. */
  function DayOf(w: nat, d: nat): nat {
    w * DaysPerWeek + d + 1
  }

  /** The grid covers days 1 to 364 of the year, each exactly once: the
      position of a day is recovered by dividing its offset by seven, and two
      cells never share a day. */
  lemma DaysCoverYearOnce(n: nat, w1: nat, d1: nat, w2: nat, d2: nat)
    requires 1 <= n <= CellCount
    requires d1 < DaysPerWeek && d2 < DaysPerWeek
    ensures (n - 1) / DaysPerWeek < Weeks && DayOf((n - 1) / DaysPerWeek, (n - 1) % DaysPerWeek) == n
    ensures DayOf(w1, d1) == DayOf(w2, d2) ==> w1 == w2 && d1 == d2
  {
  }

  /** The palette used on a light page (`getLevelColor`). */
  const DarkCells: map<int, string> := map[0 := "#161b22", 1 := "#0e4429", 2 := "#006d32", 3 := "#26a641", 4 := "#39d353"]

  /** The palette used when the document root has the `dark` class
      (`getLevelColorLight`). */
  const LightCells: map<int, string> := map[0 := "#ebedf0", 1 := "#9be9a8", 2 := "#40c463", 3 := "#30a14e", 4 := "#216e39"]

  /** `colors[level] || colors[0]`: a level outside 0..4 gets the level 0
      colour. */
  function PaletteColor(palette: map<int, string>, level: int): (c: string)
    requires 0 in palette
    ensures level in palette && palette[level] != "" ==> c == palette[level]
    ensures level !in palette ==> c == palette[0]
  {
    if level in palette && palette[level] != "" then palette[level] else palette[0]
  }

  /** A cell's colour: note that the palette named for light backgrounds is
      the one chosen when the page is dark. */
  function CellColor(level: int, rootDark: bool): (c: string)
    ensures rootDark ==> c == PaletteColor(LightCells, level)
    ensures !rootDark ==> c == PaletteColor(DarkCells, level)
  {
    if rootDark then PaletteColor(LightCells, level) else PaletteColor(DarkCells, level)
  }

  /** Within one mode the colour tells the level apart: the five levels get
      five different colours, and any other level looks like level 0. */
  lemma ColorsDistinguishLevels(a: int, b: int, rootDark: bool)
    requires 0 <= a <= 4 && 0 <= b <= 4
    ensures CellColor(a, rootDark) == CellColor(b, rootDark) <==> a == b
  {
  }

  lemma OutOfRangeLooksEmpty(level: int, rootDark: bool)
    requires level < 0 || level > 4
    ensures CellColor(level, rootDark) == CellColor(0, rootDark)
  {
  }

  /** The two modes never share a colour for any level. */
  lemma ModesDiffer(a: int, b: int)
    ensures CellColor(a, true) != CellColor(b, false)
  {
  }

  /** The legend: the five level colours from "Less" to "More". */
  function Legend(rootDark: bool): (colors: seq<string>)
    ensures |colors| == 5
    ensures forall i :: 0 <= i < 5 ==> colors[i] == CellColor(i, rootDark)
  {
    seq(5, i requires 0 <= i < 5 => CellColor(i, rootDark))
  }

  /** Every cell of a generated grid is drawn in one of the legend's
      colours, the one at its level's position. */
  lemma CellsUseLegend(rolls: seq<nat>, w: nat, d: nat, rootDark: bool)
    requires |rolls| == CellCount && w < Weeks && d < DaysPerWeek
    ensures CellColor(Generate(rolls)[w][d].level, rootDark) == Legend(rootDark)[Generate(rolls)[w][d].level]
  {
  }
}
