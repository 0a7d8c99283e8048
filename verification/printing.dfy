/**
 * printing: a grid of paper rolls ('@') is padded with a ring of empty cells,
 * every roll is replaced by the number of rolls among its eight neighbours
 * (a 3x3 convolution), and rolls with fewer than four neighbours are removed
 * round after round. Grids are values (`seq<seq<int>>`); the source updates
 * its grid in place, which the removal method models by returning the new grid.
 */
module Printing {
  import opened Strings

  type Grid = seq<seq<int>>
  type Coord = (int, int)
  type CanRemoveMap = map<Coord, int>

  /** kNeighborsKernel: every neighbour counts once, the centre not at all. */
  const NeighborsKernel: Grid := [[1, 1, 1], [1, 0, 1], [1, 1, 1]]
  /** kMaxIterations and kMinNeighborsToKeep. */
  const MaxIterations: int := 1000
  const MinNeighborsToKeep: int := 4

  // ---------------------------------------------------------------------
  // Padding and conversion
  // ---------------------------------------------------------------------

  /**
   * pad_lines: a row of dots above and below, as wide as the first line plus
   * two, and a dot on either side of every line. The source reads lines[0],
   * so it needs at least one line.
   */
  function PadLines(lines: seq<string>): (padded: seq<string>)
    requires |lines| > 0
    ensures |padded| == |lines| + 2
    ensures padded[0] == Repeat('.', |lines[0]| + 2)
    ensures padded[|padded| - 1] == Repeat('.', |lines[0]| + 2)
    ensures forall k | 0 <= k < |lines| :: padded[k + 1] == "." + lines[k] + "."
  {
    var dots := Repeat('.', |lines[0]| + 2);
    [dots] + seq(|lines|, k requires 0 <= k < |lines| => "." + lines[k] + ".") + [dots]
  }

  /** The inverse of padding: drop the first and last row and the first and last column. */
  function Unpad(padded: seq<string>): seq<string>
    requires |padded| >= 2
    requires forall k | 0 < k < |padded| - 1 :: |padded[k]| >= 2
  {
    seq(|padded| - 2, k requires 0 <= k < |padded| - 2 => padded[k + 1][1..|padded[k + 1]| - 1])
  }

  /** Padding loses nothing: unpadding gives the lines back. */
  lemma PadLinesRoundTrip(lines: seq<string>)
    requires |lines| > 0
    ensures Unpad(PadLines(lines)) == lines
  {
    var padded := PadLines(lines);
    forall k | 0 <= k < |lines|
      ensures |padded[k + 1]| >= 2 && padded[k + 1][1..|padded[k + 1]| - 1] == lines[k]
    {
      DotsAround(lines[k]);
    }
    var unpadded := Unpad(padded);
    assert |unpadded| == |lines|;
    forall k | 0 <= k < |lines|
      ensures unpadded[k] == lines[k]
    {
    }
  }

  /** A line between two dots comes back whole when the first and last characters are dropped. */
  lemma DotsAround(line: string)
    ensures var row := "." + line + "."; |row| >= 2 && row[1..|row| - 1] == line
  {
    var row := "." + line + ".";
    assert row[1..|row| - 1] == line;
  }

  /** Lines of one width pad to rows of one width, two wider. */
  lemma PadLinesRectangular(lines: seq<string>)
    requires |lines| > 0
    requires forall k | 0 <= k < |lines| :: |lines[k]| == |lines[0]|
    ensures forall k | 0 <= k < |PadLines(lines)| :: |PadLines(lines)[k]| == |lines[0]| + 2
  {
  }

  /** line_to_row: one cell per character, 1 for a roll and 0 for anything else. */
  function LineToRow(line: string): (row: seq<int>)
    ensures |row| == |line|
    ensures forall k | 0 <= k < |line| :: 0 <= row[k] <= 1 && (row[k] == 1 <==> line[k] == '@')
  {
    seq(|line|, k requires 0 <= k < |line| => if line[k] == '@' then 1 else 0)
  }

  /** lines_to_grid: one row per line, of the same shape. */
  function LinesToGrid(lines: seq<string>): (g: Grid)
    ensures |g| == |lines|
    ensures forall i | 0 <= i < |lines| :: g[i] == LineToRow(lines[i])
  {
    seq(|lines|, i requires 0 <= i < |lines| => LineToRow(lines[i]))
  }

  /** A grid of the padded lines holds only zeros and ones, a one exactly where a roll is. */
  lemma LinesToGridCells(lines: seq<string>, i: int, j: int)
    requires 0 <= i < |lines| && 0 <= j < |lines[i]|
    ensures 0 <= LinesToGrid(lines)[i][j] <= 1
    ensures LinesToGrid(lines)[i][j] == 1 <==> lines[i][j] == '@'
  {
  }

  // ---------------------------------------------------------------------
  // Convolution
  // ---------------------------------------------------------------------

  /** is_valid_grid: at least one row, and the first row is not empty. */
  predicate IsValidGrid(g: Grid)
  {
    |g| > 0 && |g[0]| > 0
  }

  predicate Rectangular(g: Grid)
  {
    forall i | 0 <= i < |g| :: |g[i]| == |g[0]|
  }

  /** std::max(0, v): negative cells contribute nothing. */
  function Clip(v: int): int
  {
    if v < 0 then 0 else v
  }

  /**
   * The kernel, laid with its top-left entry on (i - 1, j - 1), stays inside
   * the grid: every cell convolve_cell_clipped reads exists.
   */
  predicate KernelFits(g: Grid, i: int, j: int, kernel: Grid)
  {
    1 <= i && 1 <= j && i + |kernel| - 2 < |g| &&
    forall k | 0 <= k < |kernel| :: j + |kernel[k]| - 2 < |g[i + k - 1]|
  }

  /** The clipped products of the first l entries of kernel row k. */
  function RowSum(g: Grid, i: int, j: int, kernel: Grid, k: int, l: nat): int
    requires KernelFits(g, i, j, kernel) && 0 <= k < |kernel| && l <= |kernel[k]|
  {
    if l == 0 then 0
    else RowSum(g, i, j, kernel, k, l - 1) + Clip(g[i + k - 1][j + l - 2]) * kernel[k][l - 1]
  }

  /** The clipped products of the first k kernel rows. */
  function KernelSum(g: Grid, i: int, j: int, kernel: Grid, k: nat): int
    requires KernelFits(g, i, j, kernel) && k <= |kernel|
  {
    if k == 0 then 0
    else KernelSum(g, i, j, kernel, k - 1) + RowSum(g, i, j, kernel, k - 1, |kernel[k - 1]|)
  }

  /** The 3x3 neighbourhood sum with negatives clipped to 0, the centre left out. */
  function NeighborSum(g: Grid, i: int, j: int): int
    requires 1 <= i < |g| - 1 && 1 <= j
    requires j + 1 < |g[i - 1]| && j + 1 < |g[i]| && j + 1 < |g[i + 1]|
  {
    Clip(g[i - 1][j - 1]) + Clip(g[i - 1][j]) + Clip(g[i - 1][j + 1]) +
    Clip(g[i][j - 1]) + Clip(g[i][j + 1]) +
    Clip(g[i + 1][j - 1]) + Clip(g[i + 1][j]) + Clip(g[i + 1][j + 1])
  }

  /**
   * convolve_cell_clipped: the kernel-weighted sum around (i, j) with
   * negative cells counted as 0, accumulated row by row.
   */
  method ConvolveCellClipped(g: Grid, i: int, j: int, kernel: Grid) returns (sum: int)
    requires KernelFits(g, i, j, kernel)
    ensures sum == KernelSum(g, i, j, kernel, |kernel|)
  {
    sum := 0;
    var k := 0;
    while k < |kernel|
      invariant 0 <= k <= |kernel|
      invariant sum == KernelSum(g, i, j, kernel, k)
    {
      var l := 0;
      var rowStart := sum;
      while l < |kernel[k]|
        invariant 0 <= l <= |kernel[k]|
        invariant sum == rowStart + RowSum(g, i, j, kernel, k, l)
      {
        sum := sum + Clip(g[i + k - 1][j + l - 1]) * kernel[k][l];
        l := l + 1;
      }
      k := k + 1;
    }
  }

  /** A kernel row of three entries weighs the three cells under it. */
  lemma RowSumThree(g: Grid, i: int, j: int, kernel: Grid, k: int)
    requires KernelFits(g, i, j, kernel) && 0 <= k < |kernel| && |kernel[k]| == 3
    ensures RowSum(g, i, j, kernel, k, 3) ==
      Clip(g[i + k - 1][j - 1]) * kernel[k][0] + Clip(g[i + k - 1][j]) * kernel[k][1] +
      Clip(g[i + k - 1][j + 1]) * kernel[k][2]
  {
    assert RowSum(g, i, j, kernel, k, 1) == Clip(g[i + k - 1][j - 1]) * kernel[k][0];
    assert RowSum(g, i, j, kernel, k, 2) == RowSum(g, i, j, kernel, k, 1) + Clip(g[i + k - 1][j]) * kernel[k][1];
  }

  /** With the neighbours kernel the convolution is the sum of the eight neighbours. */
  lemma NeighborsKernelIsNeighborSum(g: Grid, i: int, j: int)
    requires KernelFits(g, i, j, NeighborsKernel)
    ensures i < |g| - 1 && j + 1 < |g[i - 1]| && j + 1 < |g[i]| && j + 1 < |g[i + 1]|
    ensures KernelSum(g, i, j, NeighborsKernel, 3) == NeighborSum(g, i, j)
  {
    var K := NeighborsKernel;
    assert |K[0]| == 3 && |K[1]| == 3 && |K[2]| == 3;
    RowSumThree(g, i, j, K, 0);
    RowSumThree(g, i, j, K, 1);
    RowSumThree(g, i, j, K, 2);
    assert KernelSum(g, i, j, K, 1) == RowSum(g, i, j, K, 0, 3);
    assert KernelSum(g, i, j, K, 2) == KernelSum(g, i, j, K, 1) + RowSum(g, i, j, K, 1, 3);
  }

  /** A kernel the padded grid can hold: at most three rows of at most three entries. */
  predicate SmallKernel(kernel: Grid)
  {
    |kernel| <= 3 && forall k | 0 <= k < |kernel| :: |kernel[k]| <= 3
  }

  lemma NeighborsKernelShape()
    ensures SmallKernel(NeighborsKernel) && IsValidGrid(NeighborsKernel)
    ensures |NeighborsKernel| == 3 && |NeighborsKernel[0]| == 3
  {
    var K := NeighborsKernel;
    assert |K[0]| == 3 && |K[1]| == 3 && |K[2]| == 3;
  }

  /** Number of interior positions along a side of length n. */
  function Inner(n: int): nat
  {
    if n >= 2 then n - 2 else 0
  }

  function FilledRow(n: nat, v: int): (row: seq<int>)
    ensures |row| == n && forall k | 0 <= k < n :: row[k] == v
  {
    seq(n, _ => v)
  }

  lemma KernelFitsInterior(g: Grid, kernel: Grid, i: int, j: int)
    requires Rectangular(g) && SmallKernel(kernel)
    requires 1 <= i < |g| - 1 && 1 <= j < |g[i]| - 1
    ensures KernelFits(g, i, j, kernel)
  {
  }

  /** An interior cell of the result: -1 over an empty cell, the clipped sum otherwise. */
  function ConvolvedCell(g: Grid, kernel: Grid, i: int, j: int): int
    requires Rectangular(g) && SmallKernel(kernel)
    requires 1 <= i < |g| - 1 && 1 <= j < |g[i]| - 1
  {
    KernelFitsInterior(g, kernel, i, j);
    if g[i][j] == 0 then -1 else KernelSum(g, i, j, kernel, |kernel|)
  }

  function ConvolvedRow(g: Grid, kernel: Grid, i: int): seq<int>
    requires Rectangular(g) && SmallKernel(kernel)
    requires 1 <= i < |g| - 1
  {
    [-1] + seq(Inner(|g[i]|), j requires 0 <= j < Inner(|g[i]|) => ConvolvedCell(g, kernel, i, j + 1)) + [-1]
  }

  /**
   * The result of grid_convolve_padding_assumed. The source indexes rows
   * around each interior cell, so it needs rows of one width and a kernel no
   * larger than 3x3 to stay inside the grid.
   */
  function Convolved(g: Grid, kernel: Grid): Grid
    requires Rectangular(g) && SmallKernel(kernel)
  {
    if !IsValidGrid(g) || !IsValidGrid(kernel) then []
    else if |g| < |kernel| || |g[0]| < |kernel[0]| then []
    else
      var border := FilledRow(|g[0]|, -1);
      [border] + seq(Inner(|g|), i requires 0 <= i < Inner(|g|) => ConvolvedRow(g, kernel, i + 1)) + [border]
  }

  /**
   * grid_convolve_padding_assumed: a row of -1 on top, then every interior
   * row framed by -1, then a row of -1 at the bottom.
   */
  method GridConvolvePaddingAssumed(g: Grid, kernel: Grid) returns (r: Grid)
    requires Rectangular(g) && SmallKernel(kernel)
    ensures r == Convolved(g, kernel)
  {
    if !IsValidGrid(g) || !IsValidGrid(kernel) {
      return [];
    }
    if |g| < |kernel| || |g[0]| < |kernel[0]| {
      return [];
    }
    var border := FilledRow(|g[0]|, -1);
    r := [border];
    var i := 1;
    while i < |g| - 1
      invariant 1 <= i && (i == 1 || i <= |g| - 1)
      invariant |r| == i && r[0] == border
      invariant forall i' | 1 <= i' < i && i' < |g| - 1 :: r[i'] == ConvolvedRow(g, kernel, i')
    {
      var row := ConvolveRow(g, kernel, i);
      r := r + [row];
      i := i + 1;
    }
    r := r + [border];
    var middle := seq(Inner(|g|), i requires 0 <= i < Inner(|g|) => ConvolvedRow(g, kernel, i + 1));
    assert r == [border] + middle + [border] by {
      assert |r| == |middle| + 2;
      forall k | 1 <= k < |r| - 1
        ensures r[k] == middle[k - 1]
      {
      }
    }
  }

  /** One interior row of grid_convolve_padding_assumed, cell by cell. */
  method ConvolveRow(g: Grid, kernel: Grid, i: int) returns (row: seq<int>)
    requires Rectangular(g) && SmallKernel(kernel)
    requires 1 <= i < |g| - 1
    ensures row == ConvolvedRow(g, kernel, i)
  {
    row := [-1];
    var j := 1;
    while j < |g[i]| - 1
      invariant 1 <= j && (j == 1 || j <= |g[i]| - 1)
      invariant |row| == j && row[0] == -1
      invariant forall j' | 1 <= j' < j && j' < |g[i]| - 1 :: row[j'] == ConvolvedCell(g, kernel, i, j')
    {
      if g[i][j] == 0 {
        row := row + [-1];
      } else {
        KernelFitsInterior(g, kernel, i, j);
        var s := ConvolveCellClipped(g, i, j, kernel);
        row := row + [s];
      }
      j := j + 1;
    }
    row := row + [-1];
    var cells := seq(Inner(|g[i]|), j requires 0 <= j < Inner(|g[i]|) => ConvolvedCell(g, kernel, i, j + 1));
    assert row == [-1] + cells + [-1] by {
      assert |row| == |cells| + 2;
      forall k | 1 <= k < |row| - 1
        ensures row[k] == cells[k - 1]
      {
      }
    }
  }

  // ---------------------------------------------------------------------
  // What the convolution means for a grid of rolls
  // ---------------------------------------------------------------------

  predicate SameWidth(lines: seq<string>)
  {
    forall k | 0 <= k < |lines| :: |lines[k]| == |lines[0]|
  }

  /** 1 when (i, j) lies inside the lines and holds a roll, 0 otherwise. */
  function Roll(lines: seq<string>, i: int, j: int): int
  {
    if 0 <= i < |lines| && 0 <= j < |lines[i]| && lines[i][j] == '@' then 1 else 0
  }

  /** The number of rolls among the eight neighbours of (i, j). */
  function RollsAround(lines: seq<string>, i: int, j: int): int
  {
    Roll(lines, i - 1, j - 1) + Roll(lines, i - 1, j) + Roll(lines, i - 1, j + 1) +
    Roll(lines, i, j - 1) + Roll(lines, i, j + 1) +
    Roll(lines, i + 1, j - 1) + Roll(lines, i + 1, j) + Roll(lines, i + 1, j + 1)
  }

  /** The grid of the padded lines, on which the convolution runs. */
  function PaddedGrid(lines: seq<string>): (g: Grid)
    requires |lines| > 0 && SameWidth(lines)
    ensures |g| == |lines| + 2 && Rectangular(g) && |g[0]| == |lines[0]| + 2
  {
    PadLinesRectangular(lines);
    LinesToGrid(PadLines(lines))
  }

  /** Every cell of the padded grid, the ring included, is the roll indicator of the lines. */
  lemma PaddedGridCell(lines: seq<string>, i: int, j: int)
    requires |lines| > 0 && SameWidth(lines)
    requires -1 <= i <= |lines| && -1 <= j <= |lines[0]|
    ensures PaddedGrid(lines)[i + 1][j + 1] == Roll(lines, i, j)
    ensures Clip(PaddedGrid(lines)[i + 1][j + 1]) == Roll(lines, i, j)
  {
    var row := PadLines(lines)[i + 1];
    assert PaddedGrid(lines)[i + 1] == LineToRow(row);
    if 0 <= i < |lines| {
      PaddedLineChar(lines[i], j);
    } else {
      assert row == Repeat('.', |lines[0]| + 2);
    }
  }

  /** A padded line holds the line's characters one place to the right, and dots at both ends. */
  lemma PaddedLineChar(line: string, j: int)
    requires -1 <= j <= |line|
    ensures ("." + line + ".")[j + 1] == if 0 <= j < |line| then line[j] else '.'
  {
  }

  /** The neighbours grid: padded, then convolved with the neighbours kernel. */
  function NeighborGrid(lines: seq<string>): Grid
    requires |lines| > 0 && SameWidth(lines)
  {
    Convolved(PaddedGrid(lines), NeighborsKernel)
  }

  /**
   * For lines at least one column wide (narrower lines pad to a grid smaller
   * than the kernel, and the convolution is empty), the neighbours grid
   * keeps the padded shape, is -1 on its ring and on every
   * empty cell, and holds the number of neighbouring rolls on every roll.
   */
  lemma NeighborGridCounts(lines: seq<string>)
    requires |lines| > 0 && SameWidth(lines) && |lines[0]| > 0
    ensures var r := NeighborGrid(lines);
      |r| == |lines| + 2 && Rectangular(r) && |r[0]| == |lines[0]| + 2 &&
      Framed(r) &&
      forall i, j | 0 <= i < |lines| && 0 <= j < |lines[0]| ::
        r[i + 1][j + 1] == if lines[i][j] == '@' then RollsAround(lines, i, j) else -1
  {
    var g := PaddedGrid(lines);
    var r := NeighborGrid(lines);
    NeighborsKernelShape();
    ConvolvedFrame(g, NeighborsKernel);
    forall i, j | 0 <= i < |lines| && 0 <= j < |lines[0]|
      ensures r[i + 1][j + 1] == if lines[i][j] == '@' then RollsAround(lines, i, j) else -1
    {
      NeighborGridCell(lines, i, j);
    }
  }

  /** One interior cell of the neighbours grid. */
  lemma NeighborGridCell(lines: seq<string>, i: int, j: int)
    requires |lines| > 0 && SameWidth(lines) && |lines[0]| > 0
    requires 0 <= i < |lines| && 0 <= j < |lines[0]|
    ensures |NeighborGrid(lines)| == |lines| + 2 && |NeighborGrid(lines)[i + 1]| == |lines[0]| + 2
    ensures NeighborGrid(lines)[i + 1][j + 1] == if lines[i][j] == '@' then RollsAround(lines, i, j) else -1
  {
    var g := PaddedGrid(lines);
    NeighborsKernelShape();
    ConvolvedCellAt(g, NeighborsKernel, i + 1, j + 1);
    PaddedConvolvedCell(lines, i, j);
  }

  /** The convolved value of an interior cell of the padded grid. */
  lemma PaddedConvolvedCell(lines: seq<string>, i: int, j: int)
    requires |lines| > 0 && SameWidth(lines)
    requires 0 <= i < |lines| && 0 <= j < |lines[0]|
    ensures var g := PaddedGrid(lines);
      1 <= i + 1 < |g| - 1 && 1 <= j + 1 < |g[i + 1]| - 1 && SmallKernel(NeighborsKernel) &&
      ConvolvedCell(g, NeighborsKernel, i + 1, j + 1) ==
        if lines[i][j] == '@' then RollsAround(lines, i, j) else -1
  {
    var g := PaddedGrid(lines);
    PaddedGridCell(lines, i, j);
    PaddedNeighborSum(lines, i, j);
    ConvolvedCellOfRolls(g, lines, i, j);
  }

  /**
   * On a grid one larger on each side than the lines, holding the roll
   * indicator at (i + 1, j + 1) and summing the rolls around it, the
   * convolved cell is -1 off a roll and the roll count on one.
   */
  lemma ConvolvedCellOfRolls(g: Grid, lines: seq<string>, i: int, j: int)
    requires |lines| > 0 && SameWidth(lines)
    requires 0 <= i < |lines| && 0 <= j < |lines[0]|
    requires |g| == |lines| + 2 && Rectangular(g) && |g[0]| == |lines[0]| + 2
    requires g[i + 1][j + 1] == Roll(lines, i, j)
    requires NeighborSum(g, i + 1, j + 1) == RollsAround(lines, i, j)
    ensures 1 <= i + 1 < |g| - 1 && 1 <= j + 1 < |g[i + 1]| - 1 && SmallKernel(NeighborsKernel)
    ensures ConvolvedCell(g, NeighborsKernel, i + 1, j + 1) ==
      if lines[i][j] == '@' then RollsAround(lines, i, j) else -1
  {
    NeighborsKernelShape();
    NeighborsKernelIsNeighborSum(g, i + 1, j + 1);
  }

  /** On the padded grid, the neighbour sum counts the rolls around the cell. */
  lemma PaddedNeighborSum(lines: seq<string>, i: int, j: int)
    requires |lines| > 0 && SameWidth(lines)
    requires 0 <= i < |lines| && 0 <= j < |lines[0]|
    ensures NeighborSum(PaddedGrid(lines), i + 1, j + 1) == RollsAround(lines, i, j)
  {
    var g := PaddedGrid(lines);
    forall r, c | -1 <= r <= |lines| && -1 <= c <= |lines[0]|
      ensures Clip(g[r + 1][c + 1]) == Roll(lines, r, c)
    {
      PaddedGridCell(lines, r, c);
    }
    NeighborSumOfRolls(g, lines, i, j);
  }

  /** A grid holding the roll indicators, shifted by one, sums them around each cell. */
  lemma NeighborSumOfRolls(g: Grid, lines: seq<string>, i: int, j: int)
    requires |lines| > 0 && 0 <= i < |lines| && 0 <= j < |lines[0]|
    requires |g| == |lines| + 2 && forall r | 0 <= r < |g| :: |g[r]| == |lines[0]| + 2
    requires forall r, c | -1 <= r <= |lines| && -1 <= c <= |lines[0]| :: Clip(g[r + 1][c + 1]) == Roll(lines, r, c)
    ensures NeighborSum(g, i + 1, j + 1) == RollsAround(lines, i, j)
  {
    assert Clip(g[i][j]) == Roll(lines, i - 1, j - 1);
    assert Clip(g[i][j + 1]) == Roll(lines, i - 1, j);
    assert Clip(g[i][j + 2]) == Roll(lines, i - 1, j + 1);
    assert Clip(g[i + 1][j]) == Roll(lines, i, j - 1);
    assert Clip(g[i + 1][j + 2]) == Roll(lines, i, j + 1);
    assert Clip(g[i + 2][j]) == Roll(lines, i + 1, j - 1);
    assert Clip(g[i + 2][j + 1]) == Roll(lines, i + 1, j);
    assert Clip(g[i + 2][j + 2]) == Roll(lines, i + 1, j + 1);
  }

  /** The neighbours grid is framed, including when it is empty. */
  lemma NeighborGridFramed(lines: seq<string>)
    requires |lines| > 0 && SameWidth(lines)
    ensures Framed(NeighborGrid(lines))
  {
    if |lines[0]| > 0 {
      NeighborGridCounts(lines);
    } else {
      NeighborsKernelShape();
      assert NeighborGrid(lines) == [];
    }
  }

  /**
   * Border cells: the first and last row and column. The result of the
   * convolution has -1 on all of them, so every non-negative cell is interior.
   */
  predicate OnBorder(g: Grid, i: int, j: int)
  {
    i == 0 || i == |g| - 1 || j == 0 || (0 <= i < |g| && j == |g[i]| - 1)
  }

  /** Rows of one width, and no roll on the border. */
  predicate Framed(g: Grid)
  {
    Rectangular(g) &&
    forall i, j | 0 <= i < |g| && 0 <= j < |g[i]| && OnBorder(g, i, j) :: g[i][j] < 0
  }

  /**
   * The convolution of a grid at least as large as the kernel, and at least
   * 2x2, has the grid's shape and -1 on its border.
   */
  lemma ConvolvedFrame(g: Grid, kernel: Grid)
    requires Rectangular(g) && SmallKernel(kernel)
    requires IsValidGrid(kernel) && |g| >= |kernel| && |g| >= 2 && |g[0]| >= |kernel[0]| && |g[0]| >= 2
    ensures var r := Convolved(g, kernel);
      |r| == |g| && Rectangular(r) && |r[0]| == |g[0]| && Framed(r) &&
      forall i, j | 1 <= i < |g| - 1 && 1 <= j < |g[i]| - 1 :: r[i][j] == ConvolvedCell(g, kernel, i, j)
  {
    var r := Convolved(g, kernel);
    forall i | 1 <= i < |g| - 1
      ensures r[i] == ConvolvedRow(g, kernel, i)
    {
    }
    forall i, j | 0 <= i < |r| && 0 <= j < |r[i]| && OnBorder(r, i, j)
      ensures r[i][j] < 0
    {
      if 1 <= i < |g| - 1 {
        assert |r[i]| == |g[i]|;
      }
    }
  }

  /** One interior cell of the convolution, with the shape around it. */
  lemma ConvolvedCellAt(g: Grid, kernel: Grid, i: int, j: int)
    requires Rectangular(g) && SmallKernel(kernel)
    requires IsValidGrid(kernel) && |g| >= |kernel| && |g[0]| >= |kernel[0]|
    requires 1 <= i < |g| - 1 && 1 <= j < |g[i]| - 1
    ensures var r := Convolved(g, kernel);
      |r| == |g| && |r[i]| == |g[i]| && r[i][j] == ConvolvedCell(g, kernel, i, j)
  {
    var r := Convolved(g, kernel);
    assert r[i] == ConvolvedRow(g, kernel, i);
  }

  /** The convolution is empty exactly when the grid or kernel is invalid or the grid is too small. */
  lemma ConvolvedEmpty(g: Grid, kernel: Grid)
    requires Rectangular(g) && SmallKernel(kernel)
    ensures Convolved(g, kernel) == [] <==>
      !IsValidGrid(g) || !IsValidGrid(kernel) || |g| < |kernel| || |g[0]| < |kernel[0]|
  {
  }

  // ---------------------------------------------------------------------
  // Removal
  // ---------------------------------------------------------------------

  /** can_remove: a roll (a non-negative count) with fewer than four neighbours. */
  predicate CanRemove(value: int)
  {
    0 <= value < MinNeighborsToKeep
  }

  predicate InGrid(g: Grid, c: Coord)
  {
    0 <= c.0 < |g| && 0 <= c.1 < |g[c.0]|
  }

  /** The map build_can_remove_map returns: every removable cell, with its count. */
  function RemovableMap(g: Grid): (m: CanRemoveMap)
  {
    map c | c in NonNegCells(g) && CanRemove(g[c.0][c.1]) :: g[c.0][c.1]
  }

  /** The keys are exactly the removable cells, each mapped to its count. */
  lemma RemovableMapKeys(g: Grid)
    ensures forall c :: c in RemovableMap(g) <==> InGrid(g, c) && CanRemove(g[c.0][c.1])
    ensures forall c | c in RemovableMap(g) :: RemovableMap(g)[c] == g[c.0][c.1]
  {
    var m := RemovableMap(g);
    forall c | InGrid(g, c) && CanRemove(g[c.0][c.1])
      ensures c in m
    {
      var (i, j) := c;
      assert (i, j) in m;
    }
  }

  /** build_can_remove_map: scans row by row and records every removable cell. */
  method BuildCanRemoveMap(g: Grid) returns (m: CanRemoveMap)
    ensures m == RemovableMap(g)
  {
    m := map[];
    var i := 0;
    while i < |g|
      invariant 0 <= i <= |g|
      invariant forall c :: c in m <==> InGrid(g, c) && c.0 < i && CanRemove(g[c.0][c.1])
      invariant forall c | c in m :: m[c] == g[c.0][c.1]
    {
      var j := 0;
      while j < |g[i]|
        invariant 0 <= j <= |g[i]|
        invariant forall c :: c in m <==> InGrid(g, c) && (c.0 < i || (c.0 == i && c.1 < j)) && CanRemove(g[c.0][c.1])
        invariant forall c | c in m :: m[c] == g[c.0][c.1]
      {
        if CanRemove(g[i][j]) {
          m := m[(i, j) := g[i][j]];
        }
        j := j + 1;
      }
      i := i + 1;
    }
    RemovableMapKeys(g);
    assert m.Keys == RemovableMap(g).Keys;
  }

  /** Two different cells at most one row and one column apart. */
  predicate IsNeighbor(a: Coord, b: Coord)
  {
    a != b && -1 <= a.0 - b.0 <= 1 && -1 <= a.1 - b.1 <= 1
  }

  /** The removed cells next to c. */
  function RemovedAround(removed: set<Coord>, c: Coord): set<Coord>
  {
    set d | d in removed && IsNeighbor(d, c)
  }

  /** One decrement of a neighbour: a negative cell is skipped, a roll loses one, never below -1. */
  function Decrement(v: int): int
  {
    if v < 0 then v else if v - 1 < -1 then -1 else v - 1
  }

  /**
   * A cell after the cells of `removed` are taken away, in any order: a
   * removed cell is -1, a negative cell is untouched, and a roll loses one per
   * removed neighbour but stops at -1.
   */
  function RemovedCell(g: Grid, removed: set<Coord>, i: int, j: int): int
    requires 0 <= i < |g| && 0 <= j < |g[i]|
  {
    if (i, j) in removed then -1
    else if g[i][j] < 0 then g[i][j]
    else
      var left := g[i][j] - |RemovedAround(removed, (i, j))|;
      if left < -1 then -1 else left
  }

  function AfterRemoval(g: Grid, removed: set<Coord>): (h: Grid)
    ensures |h| == |g| && forall i | 0 <= i < |g| :: |h[i]| == |g[i]|
  {
    seq(|g|, i requires 0 <= i < |g| =>
      seq(|g[i]|, j requires 0 <= j < |g[i]| => RemovedCell(g, removed, i, j)))
  }

  /** One cell c taken away: its neighbours are decremented and it becomes -1. */
  function RemoveOne(g: Grid, c: Coord): (h: Grid)
    ensures |h| == |g| && forall i | 0 <= i < |g| :: |h[i]| == |g[i]|
  {
    seq(|g|, i requires 0 <= i < |g| =>
      seq(|g[i]|, j requires 0 <= j < |g[i]| =>
        if (i, j) == c then -1 else if IsNeighbor((i, j), c) then Decrement(g[i][j]) else g[i][j]))
  }

  /** The 3x3 block around c lies inside the grid: every cell the removal touches exists. */
  predicate BlockInside(g: Grid, c: Coord)
  {
    1 <= c.0 < |g| - 1 && 1 <= c.1 &&
    c.1 + 1 < |g[c.0 - 1]| && c.1 + 1 < |g[c.0]| && c.1 + 1 < |g[c.0 + 1]|
  }

  /** The neighbours of c visited before (i, j) in row-major order over c's block. */
  predicate Swept(r: int, s: int, c: Coord, i: int, j: int)
  {
    IsNeighbor((r, s), c) && (r < i || (r == i && s < j))
  }

  /**
   * The inner loops of remove_and_update_map for one cell c: every
   * non-negative neighbour loses one (never below -1), then c becomes -1.
   */
  method RemoveCell(g: Grid, c: Coord) returns (h: Grid)
    requires BlockInside(g, c)
    ensures h == RemoveOne(g, c)
  {
    h := g;
    var i := c.0 - 1;
    while i <= c.0 + 1
      invariant c.0 - 1 <= i <= c.0 + 2
      invariant |h| == |g| && forall r | 0 <= r < |g| :: |h[r]| == |g[r]|
      invariant forall r, s | 0 <= r < |g| && 0 <= s < |g[r]| ::
        h[r][s] == if Swept(r, s, c, i, c.1 - 1) then Decrement(g[r][s]) else g[r][s]
    {
      var j := c.1 - 1;
      while j <= c.1 + 1
        invariant c.1 - 1 <= j <= c.1 + 2
        invariant |h| == |g| && forall r | 0 <= r < |g| :: |h[r]| == |g[r]|
        invariant forall r, s | 0 <= r < |g| && 0 <= s < |g[r]| ::
          h[r][s] == if Swept(r, s, c, i, j) then Decrement(g[r][s]) else g[r][s]
      {
        if !((i, j) == c || h[i][j] < 0) {
          h := h[i := h[i][j := if h[i][j] - 1 < -1 then -1 else h[i][j] - 1]];
        }
        j := j + 1;
      }
      i := i + 1;
    }
    SweptBlockIsRemoveOne(g, c, h);
    h := h[c.0 := h[c.0][c.1 := -1]];
  }

  /** Once the whole block is swept, setting c to -1 gives RemoveOne. */
  lemma SweptBlockIsRemoveOne(g: Grid, c: Coord, h: Grid)
    requires BlockInside(g, c)
    requires |h| == |g| && forall r | 0 <= r < |g| :: |h[r]| == |g[r]|
    requires forall r, s | 0 <= r < |g| && 0 <= s < |g[r]| ::
      h[r][s] == if Swept(r, s, c, c.0 + 2, c.1 - 1) then Decrement(g[r][s]) else g[r][s]
    ensures h[c.0 := h[c.0][c.1 := -1]] == RemoveOne(g, c)
  {
    var done := h[c.0 := h[c.0][c.1 := -1]];
    var spec := RemoveOne(g, c);
    forall r | 0 <= r < |g|
      ensures done[r] == spec[r]
    {
      assert |done[r]| == |spec[r]| == |g[r]|;
      forall s | 0 <= s < |g[r]|
        ensures done[r][s] == spec[r][s]
      {
        if (r, s) != c {
          assert done[r][s] == h[r][s];
          assert Swept(r, s, c, c.0 + 2, c.1 - 1) == IsNeighbor((r, s), c);
        }
      }
    }
  }

  /** One more removed cell adds one to the count of every cell next to it. */
  lemma RemovedAroundAdd(removed: set<Coord>, c: Coord, x: Coord)
    requires c !in removed
    ensures |RemovedAround(removed + {c}, x)| ==
      |RemovedAround(removed, x)| + if IsNeighbor(c, x) then 1 else 0
  {
    if IsNeighbor(c, x) {
      assert RemovedAround(removed + {c}, x) == RemovedAround(removed, x) + {c};
    } else {
      assert RemovedAround(removed + {c}, x) == RemovedAround(removed, x);
    }
  }

  /** Removal keeps the shape, so a block inside the grid stays inside. */
  lemma AfterRemovalBlock(g: Grid, removed: set<Coord>, c: Coord)
    requires BlockInside(g, c)
    ensures BlockInside(AfterRemoval(g, removed), c)
  {
  }

  /** Removing no cell changes nothing. */
  lemma AfterRemovalNone(g: Grid)
    ensures AfterRemoval(g, {}) == g
  {
    forall i | 0 <= i < |g|
      ensures AfterRemoval(g, {})[i] == g[i]
    {
    }
  }

  /** Removing the cells one at a time, in any order, reaches AfterRemoval. */
  lemma RemovalStep(g: Grid, removed: set<Coord>, c: Coord)
    requires c !in removed
    ensures AfterRemoval(g, removed + {c}) == RemoveOne(AfterRemoval(g, removed), c)
  {
    var before := AfterRemoval(g, removed);
    var lhs := AfterRemoval(g, removed + {c});
    var rhs := RemoveOne(before, c);
    forall i, j | 0 <= i < |g| && 0 <= j < |g[i]|
      ensures lhs[i][j] == rhs[i][j]
    {
      RemovedAroundAdd(removed, c, (i, j));
    }
    forall i | 0 <= i < |g|
      ensures lhs[i] == rhs[i]
    {
    }
  }

  /**
   * remove_and_update_map: every cell of the map is taken away and the map is
   * rebuilt from the new grid. The source visits the cells in the map's
   * (row, column) order; the model takes them in an arbitrary order and the
   * result is the same, since it depends only on the set of cells.
   */
  method RemoveAndUpdateMap(g: Grid, m: CanRemoveMap) returns (next: Grid, nextMap: CanRemoveMap)
    requires forall c | c in m :: BlockInside(g, c)
    ensures next == AfterRemoval(g, m.Keys)
    ensures nextMap == RemovableMap(next)
  {
    next := RemoveAll(g, m.Keys);
    nextMap := BuildCanRemoveMap(next);
  }

  /** The outer loop of remove_and_update_map: the cells are taken away one at a time. */
  method RemoveAll(g: Grid, cells: set<Coord>) returns (next: Grid)
    requires forall c | c in cells :: BlockInside(g, c)
    ensures next == AfterRemoval(g, cells)
  {
    next := g;
    var todo := cells;
    ghost var done: set<Coord> := {};
    AfterRemovalNone(g);
    while todo != {}
      invariant todo + done == cells && todo !! done
      invariant next == AfterRemoval(g, done)
      decreases todo
    {
      var c :| c in todo;
      AfterRemovalBlock(g, done, c);
      RemovalStep(g, done, c);
      next := RemoveCell(next, c);
      todo := todo - {c};
      done := done + {c};
    }
  }

  // ---------------------------------------------------------------------
  // What a removal round does
  // ---------------------------------------------------------------------

  /** The cells holding a roll. */
  function NonNegCells(g: Grid): set<Coord>
  {
    set c | c in Cells(g) && g[c.0][c.1] >= 0
  }

  function Cells(g: Grid): (cells: set<Coord>)
    ensures forall c :: c in cells <==> InGrid(g, c)
  {
    set i, j | 0 <= i < |g| && 0 <= j < |g[i]| :: (i, j)
  }

  /**
   * After a removal, every removed cell is -1, no negative cell changes, and
   * every other cell only goes down, to no less than -1.
   */
  lemma AfterRemovalCells(g: Grid, removed: set<Coord>, i: int, j: int)
    requires 0 <= i < |g| && 0 <= j < |g[i]|
    ensures (i, j) in removed ==> AfterRemoval(g, removed)[i][j] == -1
    ensures (i, j) !in removed && g[i][j] < 0 ==> AfterRemoval(g, removed)[i][j] == g[i][j]
    ensures g[i][j] >= 0 ==> -1 <= AfterRemoval(g, removed)[i][j] <= g[i][j]
    ensures (i, j) !in removed && RemovedAround(removed, (i, j)) == {} ==>
      AfterRemoval(g, removed)[i][j] == g[i][j]
  {
  }

  /** Removal only removes rolls: the rolls left are the old ones minus those taken away. */
  lemma AfterRemovalShrinks(g: Grid, removed: set<Coord>)
    ensures NonNegCells(AfterRemoval(g, removed)) <= NonNegCells(g) - removed
  {
    var h := AfterRemoval(g, removed);
    forall c | c in NonNegCells(h)
      ensures c in NonNegCells(g) - removed
    {
      var (i, j) := c;
      AfterRemovalCells(g, removed, i, j);
    }
  }

  /** Removal keeps the frame: a negative border stays negative. */
  lemma AfterRemovalFramed(g: Grid, removed: set<Coord>)
    requires Framed(g)
    ensures Framed(AfterRemoval(g, removed))
  {
    var h := AfterRemoval(g, removed);
    forall i, j | 0 <= i < |h| && 0 <= j < |h[i]| && OnBorder(h, i, j)
      ensures h[i][j] < 0
    {
      AfterRemovalCells(g, removed, i, j);
    }
  }

  /** In a framed grid every removable cell has its whole block inside the grid. */
  lemma FramedBlocksInside(g: Grid)
    requires Framed(g)
    ensures forall c | c in RemovableMap(g) :: BlockInside(g, c)
  {
    RemovableMapKeys(g);
    forall c | c in RemovableMap(g)
      ensures BlockInside(g, c)
    {
      assert !OnBorder(g, c.0, c.1);
    }
  }

  lemma {:induction false} SubsetCard(a: set<Coord>, b: set<Coord>)
    requires a <= b
    ensures |a| <= |b|
    decreases |a|
  {
    if a != {} {
      var x :| x in a;
      SubsetCard(a - {x}, b - {x});
    }
  }

  lemma RemovableAreRolls(g: Grid)
    ensures RemovableMap(g).Keys <= NonNegCells(g)
  {
    RemovableMapKeys(g);
    forall c | c in RemovableMap(g).Keys
      ensures c in NonNegCells(g)
    {
      var (i, j) := c;
      assert (i, j) in NonNegCells(g);
    }
  }

  // ---------------------------------------------------------------------
  // Repeated rounds
  // ---------------------------------------------------------------------

  /** One round of total_can_remove: every cell of the grid's map is removed. */
  function Round(g: Grid): Grid
  {
    AfterRemoval(g, RemovableMap(g).Keys)
  }

  /** The size of the map built from a grid. */
  function MapSize(g: Grid): nat
  {
    |RemovableMap(g)|
  }

  /** The number of rolls left in a grid. */
  function RollCount(g: Grid): nat
  {
    |NonNegCells(g)|
  }

  /**
   * The counts after each further step, for at most `rounds` steps, stopping
   * as soon as the count is zero.
   */
  function Rounds<T>(x: T, rounds: nat, step: T -> T, count: T -> nat): nat
    decreases rounds
  {
    if count(x) == 0 || rounds == 0 then 0
    else count(step(x)) + Rounds(step(x), rounds - 1, step, count)
  }

  function RoundLimit(maxIterations: int): nat
  {
    if maxIterations > 0 then maxIterations else 0
  }

  /**
   * The value of total_can_remove: the size of the first map plus the size
   * of the map after each of at most max_iterations rounds.
   */
  function TotalCanRemoveSpec(lines: seq<string>, maxIterations: int): nat
    requires |lines| > 0 && SameWidth(lines)
  {
    var g := NeighborGrid(lines);
    MapSize(g) + Rounds(g, RoundLimit(maxIterations), Round, MapSize)
  }

  /**
   * When every step removes at least what it counts from a size, and the
   * count never exceeds the size, all the counts together stay within the
   * starting size.
   */
  lemma {:induction false} RoundsBound<T>(x: T, rounds: nat, step: T -> T, count: T -> nat, size: T -> nat)
    requires forall y :: count(y) <= size(y)
    requires forall y :: size(step(y)) <= size(y) - count(y)
    ensures count(x) + Rounds(x, rounds, step, count) <= size(x)
    decreases rounds
  {
    if count(x) != 0 && rounds != 0 {
      RoundsBound(step(x), rounds - 1, step, count, size);
    }
  }

  /** No more cells are removable than there are rolls. */
  lemma RemovableCount(g: Grid)
    ensures |RemovableMap(g)| <= |NonNegCells(g)|
  {
    RemovableAreRolls(g);
    SubsetCard(RemovableMap(g).Keys, NonNegCells(g));
  }

  /** A round leaves at most the rolls that were not removed. */
  lemma RoundShrinks(g: Grid)
    ensures |NonNegCells(AfterRemoval(g, RemovableMap(g).Keys))| <= |NonNegCells(g)| - |RemovableMap(g)|
  {
    var m := RemovableMap(g);
    RemovableAreRolls(g);
    AfterRemovalShrinks(g, m.Keys);
    CardShrink(NonNegCells(AfterRemoval(g, m.Keys)), NonNegCells(g), m.Keys);
  }

  /** A subset of b with s taken out has at most |b| - |s| elements. */
  lemma CardShrink(a: set<Coord>, b: set<Coord>, s: set<Coord>)
    requires s <= b && a <= b - s
    ensures |a| <= |b| - |s|
  {
    SubsetCard(a, b - s);
    assert b == (b - s) + s;
  }

  /** The rolls of the neighbours grid sit exactly on the rolls of the lines, shifted by the ring. */
  lemma NeighborGridRolls(lines: seq<string>)
    requires |lines| > 0 && SameWidth(lines)
    ensures forall c :: c in NonNegCells(NeighborGrid(lines)) <==>
      1 <= c.0 <= |lines| && 1 <= c.1 <= |lines[0]| && lines[c.0 - 1][c.1 - 1] == '@'
  {
    var r := NeighborGrid(lines);
    if |lines[0]| == 0 {
      NeighborsKernelShape();
      assert r == [];
      return;
    }
    NeighborGridCounts(lines);
    FramedRolls(r, lines);
  }

  /**
   * In a framed grid whose interior cell (i + 1, j + 1) is non-negative
   * exactly where line i has '@' at j, the non-negative cells are the
   * shifted rolls.
   */
  lemma FramedRolls(r: Grid, lines: seq<string>)
    requires |lines| > 0 && SameWidth(lines)
    requires |r| == |lines| + 2 && Rectangular(r) && |r[0]| == |lines[0]| + 2 && Framed(r)
    requires forall i, j | 0 <= i < |lines| && 0 <= j < |lines[0]| ::
      r[i + 1][j + 1] == if lines[i][j] == '@' then RollsAround(lines, i, j) else -1
    ensures forall c :: c in NonNegCells(r) <==>
      1 <= c.0 <= |lines| && 1 <= c.1 <= |lines[0]| && lines[c.0 - 1][c.1 - 1] == '@'
  {
    forall c | c in NonNegCells(r)
      ensures 1 <= c.0 <= |lines| && 1 <= c.1 <= |lines[0]| && lines[c.0 - 1][c.1 - 1] == '@'
    {
      var (i, j) := c;
      assert !OnBorder(r, i, j);
      assert r[(i - 1) + 1][(j - 1) + 1] >= 0;
    }
    forall c: Coord | 1 <= c.0 <= |lines| && 1 <= c.1 <= |lines[0]| && lines[c.0 - 1][c.1 - 1] == '@'
      ensures c in NonNegCells(r)
    {
      var (i, j) := c;
      assert r[(i - 1) + 1][(j - 1) + 1] == RollsAround(lines, i - 1, j - 1) >= 0;
      assert (i, j) in NonNegCells(r);
    }
  }

  /** total_can_remove never counts more cells than there are rolls. */
  lemma TotalCanRemoveBound(lines: seq<string>, maxIterations: int)
    requires |lines| > 0 && SameWidth(lines)
    ensures TotalCanRemoveSpec(lines, maxIterations) <= RollCount(NeighborGrid(lines))
  {
    forall g: Grid
      ensures MapSize(g) <= RollCount(g)
    {
      RemovableCount(g);
    }
    forall g: Grid
      ensures RollCount(Round(g)) <= RollCount(g) - MapSize(g)
    {
      RoundShrinks(g);
    }
    RoundsBound(NeighborGrid(lines), RoundLimit(maxIterations), Round, MapSize, RollCount);
  }

  /** The first three steps of total_can_remove: pad, convert and convolve. */
  method NeighborGridOf(lines: seq<string>) returns (grid: Grid)
    requires |lines| > 0 && SameWidth(lines)
    ensures grid == NeighborGrid(lines) && Framed(grid)
  {
    var padded := PadLines(lines);
    var paddedGrid := LinesToGrid(padded);
    assert paddedGrid == PaddedGrid(lines);
    grid := GridConvolvePaddingAssumed(paddedGrid, NeighborsKernel);
    NeighborGridFramed(lines);
  }

  /** One round of the loop of total_can_remove, on a framed grid. */
  method RoundOf(grid: Grid, m: CanRemoveMap) returns (next: Grid, nextMap: CanRemoveMap)
    requires Framed(grid) && m == RemovableMap(grid)
    ensures next == Round(grid) && Framed(next) && nextMap == RemovableMap(next)
    ensures |nextMap| == MapSize(next)
  {
    FramedBlocksInside(grid);
    next, nextMap := RemoveAndUpdateMap(grid, m);
    AfterRemovalFramed(grid, m.Keys);
  }

  /**
   * total_can_remove: builds the neighbour grid and its map, then counts
   * removals round by round. The source reads lines[0] and indexes
   * neighbouring rows, so it needs at least one line and lines of one width.
   */
  method TotalCanRemove(lines: seq<string>, maxIterations: int) returns (total: int)
    requires |lines| > 0 && SameWidth(lines)
    ensures total == TotalCanRemoveSpec(lines, maxIterations)
  {
    var grid := NeighborGridOf(lines);
    var m := BuildCanRemoveMap(grid);
    total := CountRemovals(grid, m, maxIterations);
  }

  /**
   * The counting loop of total_can_remove: counts the first map, then
   * removes and counts again until the map is empty or max_iterations rounds
   * have run.
   */
  method CountRemovals(grid: Grid, m: CanRemoveMap, maxIterations: int) returns (total: int)
    requires Framed(grid) && m == RemovableMap(grid)
    ensures total == MapSize(grid) + Rounds(grid, RoundLimit(maxIterations), Round, MapSize)
  {
    var g, current := grid, m;
    total := |current|;
    assert total == MapSize(grid);
    var iterations := 0;
    while |current| > 0 && iterations < maxIterations
      invariant 0 <= iterations && (maxIterations >= 0 ==> iterations <= maxIterations)
      invariant Framed(g) && current == RemovableMap(g) && |current| == MapSize(g)
      invariant total + Rounds(g, RoundLimit(maxIterations - iterations), Round, MapSize) ==
        MapSize(grid) + Rounds(grid, RoundLimit(maxIterations), Round, MapSize)
      decreases maxIterations - iterations
    {
      g, current := RoundOf(g, current);
      total := total + |current|;
      iterations := iterations + 1;
    }
  }
}
