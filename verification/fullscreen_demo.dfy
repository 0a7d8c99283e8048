/**
 * The frames the fullscreen demo commands build: a screen of "----" or
 * "++++", a solid or checkerboard screen of '#', and Pascal's triangle grown
 * one row per half second, each row centred. The clock is an input (the
 * elapsed milliseconds); the terminal size is the cached size.
 */
module FullscreenDemo {
  import opened Strings

  // ---------------------------------------------------------------------------
  // Pascal's triangle

  /** The entries of Pascal's triangle, by the rule that builds it: each is the sum of the two above. */
  function Binomial(n: nat, k: nat): nat
  {
    if k == 0 then 1
    else if n == 0 then 0
    else Binomial(n - 1, k - 1) + Binomial(n - 1, k)
  }

  /** Every row ends in 1, and has nothing past its end. */
  lemma {:induction false} BinomialEdges(n: nat, k: nat)
    ensures Binomial(n, n) == 1
    ensures k > n ==> Binomial(n, k) == 0
  {
    if n > 0 {
      BinomialEdges(n - 1, n - 1);
      BinomialEdges(n - 1, n);
      if k > n {
        BinomialEdges(n - 1, k - 1);
        BinomialEdges(n - 1, k);
      }
    }
  }

  lemma AbsorptionArith(n: int, k: int, a: int, b: int, c1: int, c2: int, ck: int)
    requires c1 == a + b && ck == c1 + c2
    requires k * c2 == (n - 1) * b && (k - 1) * c1 == (n - 1) * a
    ensures k * ck == n * c1
  {
    assert k * ck == k * c1 + k * c2;
    assert k * c1 == (k - 1) * c1 + c1;
    assert (n - 1) * a + (n - 1) * b == (n - 1) * c1;
  }

  /** k * C(n, k) == n * C(n - 1, k - 1). */
  lemma {:induction false} Absorption(n: nat, k: nat)
    requires n >= 1 && k >= 1
    ensures k * Binomial(n, k) == n * Binomial(n - 1, k - 1)
  {
    if n == 1 {
      BinomialEdges(0, k);
      BinomialEdges(0, k - 1);
      BinomialEdges(1, k);
    } else if k == 1 {
      Absorption(n - 1, 1);
      assert Binomial(n, 1) == 1 + Binomial(n - 1, 1);
    } else {
      Absorption(n - 1, k);
      Absorption(n - 1, k - 1);
      AbsorptionArith(n, k, Binomial(n - 2, k - 2), Binomial(n - 2, k - 1),
                      Binomial(n - 1, k - 1), Binomial(n - 1, k), Binomial(n, k));
    }
  }

  lemma AbsorptionLeftArith(n: int, j: int, c: int, p: int, q: int)
    requires c == p + q && j * c == n * p
    ensures (n - j) * c == n * q
  {
    assert n * c == n * p + n * q;
    assert (n - j) * c == n * c - j * c;
  }

  /** (n - j) * C(n, j) == n * C(n - 1, j). */
  lemma AbsorptionLeft(n: nat, j: nat)
    requires 1 <= n && j <= n
    ensures (n - j) * Binomial(n, j) == n * Binomial(n - 1, j)
  {
    if j >= 1 {
      Absorption(n, j);
      AbsorptionLeftArith(n, j, Binomial(n, j), Binomial(n - 1, j - 1), Binomial(n - 1, j));
    }
  }

  lemma MulAtLeast(k: int, d: int)
    requires k > 0
    ensures d >= 1 ==> k * d >= k
    ensures d <= -1 ==> k * d <= -k
  {
  }

  lemma DivExact(k: int, c: int)
    requires k > 0
    ensures k * c / k == c
  {
    var q, r := k * c / k, k * c % k;
    assert k * c == k * q + r && 0 <= r < k;
    assert k * (c - q) == r;
    MulAtLeast(k, c - q);
  }

  /** The step of compute_pascal_row: C(n, k - 1) * (n - k + 1) is k * C(n, k), so the division is exact. */
  lemma PascalStep(n: nat, k: nat)
    requires 1 <= k <= n
    ensures Binomial(n, k - 1) * (n - k + 1) == k * Binomial(n, k)
    ensures Binomial(n, k - 1) * (n - k + 1) / k == Binomial(n, k)
  {
    Absorption(n, k);
    AbsorptionLeft(n, k - 1);
    PascalStepArith(n, k, Binomial(n, k - 1), Binomial(n, k), Binomial(n - 1, k - 1));
  }

  lemma PascalStepArith(n: int, k: int, left: int, right: int, mid: int)
    requires k > 0 && k * right == n * mid && (n - (k - 1)) * left == n * mid
    ensures left * (n - k + 1) == k * right
    ensures left * (n - k + 1) / k == right
  {
    assert left * (n - k + 1) == (n - (k - 1)) * left;
    DivExact(k, right);
  }

  /** Each row of the triangle reads the same from both ends. */
  lemma {:induction false} BinomialSymmetric(n: nat, k: nat)
    requires k <= n
    ensures Binomial(n, k) == Binomial(n, n - k)
  {
    if k == 0 || k == n {
      BinomialEdges(n, n);
    } else {
      BinomialSymmetric(n - 1, k - 1);
      BinomialSymmetric(n - 1, k);
      assert Binomial(n, n - k) == Binomial(n - 1, n - k - 1) + Binomial(n - 1, n - k);
    }
  }

  /**
   * compute_pascal_row: n + 1 entries starting with 1, each the previous one
   * times (n - k + 1) / k; they are row n of Pascal's triangle.
   */
  method ComputePascalRow(n: nat) returns (result: seq<int>)
    ensures |result| == n + 1 && result[0] == 1
    ensures forall k :: 0 <= k <= n ==> result[k] == Binomial(n, k)
    ensures result == PascalRow(n)
  {
    result := [1];
    for k := 1 to n + 1
      invariant |result| == k
      invariant forall i :: 0 <= i < k ==> result[i] == Binomial(n, i)
    {
      PascalStep(n, k);
      var value := result[k - 1] * (n - k + 1) / k;
      result := result + [value];
    }
  }

  /** Row n of the triangle. */
  function PascalRow(n: nat): (row: seq<int>)
    ensures |row| == n + 1 && forall k :: 0 <= k <= n ==> row[k] == Binomial(n, k)
  {
    seq(n + 1, k requires 0 <= k <= n => Binomial(n, k) as int)
  }

  // ---------------------------------------------------------------------------
  // Formatting a row

  /** std::to_string of each entry. */
  function Renderings(row: seq<int>): (r: seq<string>)
    ensures |r| == |row| && forall k :: 0 <= k < |row| ==> r[k] == IntToString(row[k])
  {
    seq(|row|, k requires 0 <= k < |row| => IntToString(row[k]))
  }

  /** Joining one more part adds the separator and the part. */
  lemma {:induction false} JoinSnoc(parts: seq<string>, p: string, sep: string)
    ensures Join(parts + [p], sep) == if |parts| == 0 then p else Join(parts, sep) + sep + p
  {
    if |parts| >= 2 {
      assert (parts + [p])[1..] == parts[1..] + [p];
      JoinSnoc(parts[1..], p, sep);
    } else if |parts| == 1 {
      assert (parts + [p])[1..] == [p];
    }
  }

  /** Appending the next entry, after two spaces unless it is the first, extends the join by one rendering. */
  lemma FormatRowStep(row: seq<int>, i: nat)
    requires i < |row|
    ensures Join(Renderings(row[..i + 1]), "  ") ==
      (if i > 0 then Join(Renderings(row[..i]), "  ") + "  " else Join(Renderings(row[..i]), "  ")) + IntToString(row[i])
  {
    assert Renderings(row[..i + 1]) == Renderings(row[..i]) + [IntToString(row[i])];
    JoinSnoc(Renderings(row[..i]), IntToString(row[i]), "  ");
  }

  /** format_row: the entries in decimal with two spaces between neighbours. */
  method FormatRow(row: seq<int>) returns (result: string)
    ensures result == Join(Renderings(row), "  ")
  {
    result := "";
    for i := 0 to |row|
      invariant result == Join(Renderings(row[..i]), "  ")
    {
      FormatRowStep(row, i);
      if i > 0 {
        result := result + "  ";
      }
      result := result + IntToString(row[i]);
    }
    assert row[..|row|] == row;
  }

  /** Splitting at spaces a join with two spaces gives the parts back. */
  lemma {:induction false} SplitDoubleSpaced(parts: seq<string>)
    requires forall k :: 0 <= k < |parts| ==> |parts[k]| > 0 && ' ' !in parts[k]
    ensures SplitNonEmpty(Join(parts, "  "), ' ') == parts
  {
    if |parts| == 1 {
      assert IndexOf(parts[0], ' ').None?;
    } else if |parts| > 1 {
      var rest := Join(parts[1..], "  ");
      assert Join(parts, "  ") == parts[0] + [' '] + ([' '] + rest);
      SplitAfterPart(parts[0], ' ', [' '] + rest);
      SplitSkipsDelimiter(' ', rest);
      assert parts == [parts[0]] + parts[1..];
      SplitDoubleSpaced(parts[1..]);
    }
  }

  /** A formatted row splits at its spaces into the renderings of its entries, in order. */
  lemma FormatRowSplits(row: seq<int>)
    ensures SplitNonEmpty(Join(Renderings(row), "  "), ' ') == Renderings(row)
  {
    forall k | 0 <= k < |row|
      ensures |Renderings(row)[k]| > 0 && ' ' !in Renderings(row)[k]
    {
      IntToStringHasNo(row[k], ' ');
    }
    SplitDoubleSpaced(Renderings(row));
  }

  // ---------------------------------------------------------------------------
  // The pattern and blocks screens

  /** The pattern of the pattern screen. */
  function PatternOf(showDashes: bool): (p: string)
    ensures |p| == 4
  {
    if showDashes then "----" else "++++"
  }

  /**
   * The pattern line: the pattern appended until the line is at least `cols`
   * long, then cut to exactly `cols` characters, so all '-' while dashes are
   * shown and all '+' otherwise.
   */
  method PatternLine(showDashes: bool, cols: nat) returns (line: string)
    ensures line == Repeat(if showDashes then '-' else '+', cols)
  {
    var pattern := PatternOf(showDashes);
    var c := if showDashes then '-' else '+';
    line := "";
    while |line| < cols
      invariant |line| < cols + |pattern|
      invariant forall k :: 0 <= k < |line| ==> line[k] == c
      decreases cols - |line|
    {
      line := line + pattern;
    }
    if |line| > cols {
      line := line[..cols];
    }
  }

  /** The pattern screen: `rows` lines of exactly `cols` characters. */
  method PatternContent(showDashes: bool, size: (nat, nat)) returns (content: seq<string>)
    ensures |content| == size.0
    ensures forall r :: 0 <= r < size.0 ==> content[r] == Repeat(if showDashes then '-' else '+', size.1)
  {
    content := [];
    for row := 0 to size.0
      invariant |content| == row
      invariant forall r :: 0 <= r < row ==> content[r] == Repeat(if showDashes then '-' else '+', size.1)
    {
      var line := PatternLine(showDashes, size.1);
      content := content + [line];
    }
  }

  /** A checkerboard row: '#' where row + column is even, ' ' where it is odd. */
  function CheckerLine(row: nat, cols: nat): (line: string)
    ensures |line| == cols
  {
    seq(cols, c requires 0 <= c < cols => if (row + c) % 2 == 0 then '#' else ' ')
  }

  /**
   * Neighbouring checkerboard rows are each other's negative, and the
   * pattern repeats every two rows.
   */
  lemma CheckerAlternates(row: nat, cols: nat)
    ensures forall c :: 0 <= c < cols ==> (CheckerLine(row, cols)[c] == '#' <==> CheckerLine(row + 1, cols)[c] == ' ')
    ensures CheckerLine(row + 2, cols) == CheckerLine(row, cols)
  {
  }

  /** The checkerboard row built one character at a time. */
  method CheckerRow(row: nat, cols: nat) returns (line: string)
    ensures line == CheckerLine(row, cols)
    ensures forall c :: 0 <= c < cols ==> (line[c] == '#' <==> (row + c) % 2 == 0)
  {
    line := "";
    for col := 0 to cols
      invariant line == CheckerLine(row, col)
    {
      if (row + col) % 2 == 0 {
        line := line + "#";
      } else {
        line := line + " ";
      }
    }
  }

  /**
   * The blocks screen: `rows` lines of `cols` characters, solid '#' or the
   * checkerboard.
   */
  method BlocksContent(showSolid: bool, size: (nat, nat)) returns (content: seq<string>)
    ensures |content| == size.0
    ensures forall r :: 0 <= r < size.0 ==>
              content[r] == if showSolid then Repeat('#', size.1) else CheckerLine(r, size.1)
  {
    content := [];
    for row := 0 to size.0
      invariant |content| == row
      invariant forall r :: 0 <= r < row ==>
                  content[r] == if showSolid then Repeat('#', size.1) else CheckerLine(r, size.1)
    {
      var line;
      if showSolid {
        line := Repeat('#', size.1);
      } else {
        line := CheckerRow(row, size.1);
      }
      content := content + [line];
    }
  }

  // ---------------------------------------------------------------------------
  // The Pascal screen

  /** The milliseconds between two new rows. */
  const RowAddIntervalMs: nat := 500

  /** The row the clock asks for, capped at the last row the screen can show, as written: rows - 5. */
  function DisplayedRow(elapsedMs: nat, rows: nat): (r: int)
    ensures r <= elapsedMs / RowAddIntervalMs && r <= rows - 5
    ensures r == elapsedMs / RowAddIntervalMs || r == rows - 5
  {
    var target := elapsedMs / RowAddIntervalMs;
    if target > rows - 5 then rows - 5 else target
  }

  /** The cap that leaves room for the header and footer: rows - 6. */
  function DisplayedRowFitting(elapsedMs: nat, rows: nat): (r: int)
    ensures r <= elapsedMs / RowAddIntervalMs && r <= rows - 6
    ensures r == elapsedMs / RowAddIntervalMs || r == rows - 6
  {
    var target := elapsedMs / RowAddIntervalMs;
    if target > rows - 6 then rows - 6 else target
  }

  /** The leading spaces that centre a line: half the room left, none when there is none. */
  function Padding(len: nat, cols: nat): (p: nat)
    ensures cols >= len ==> 2 * p <= cols - len <= 2 * p + 1
    ensures cols < len ==> p == 0
  {
    if cols >= len then (cols - len) / 2 else 0
  }

  /** A line with its centring spaces in front. */
  function Centre(line: string, cols: nat): (r: string)
    ensures |r| == Padding(|line|, cols) + |line|
    ensures r[Padding(|line|, cols)..] == line
    ensures forall k :: 0 <= k < Padding(|line|, cols) ==> r[k] == ' '
  {
    Repeat(' ', Padding(|line|, cols)) + line
  }

  /** A centred line that fits is centred to within one column, and never wider than the screen. */
  lemma CentreFits(line: string, cols: nat)
    requires |line| <= cols
    ensures |Centre(line, cols)| <= cols
    ensures Padding(|line|, cols) <= cols - |Centre(line, cols)| <= Padding(|line|, cols) + 1
  {
  }

  /** Row r of the triangle as format_row writes it. */
  function TriangleText(r: nat): string
  {
    Join(Renderings(PascalRow(r)), "  ")
  }

  /** Row r of the triangle, formatted and centred. */
  function TriangleLine(r: nat, cols: nat): string
  {
    Centre(TriangleText(r), cols)
  }

  /** The number of triangle rows shown for a last row: rows 0 to lastRow. */
  function TriangleCount(lastRow: int): (n: nat)
    ensures lastRow >= 0 ==> n == lastRow + 1
    ensures lastRow < 0 ==> n == 0
  {
    if lastRow < 0 then 0 else lastRow + 1
  }

  /** The triangle rows 0 to lastRow, each computed and formatted. */
  method BuildTriangle(lastRow: int) returns (triangle: seq<string>)
    ensures |triangle| == TriangleCount(lastRow)
    ensures forall i :: 0 <= i < |triangle| ==> triangle[i] == TriangleText(i)
  {
    triangle := [];
    var r := 0;
    while r <= lastRow
      invariant 0 <= r <= TriangleCount(lastRow) && |triangle| == r
      invariant forall i :: 0 <= i < r ==> triangle[i] == TriangleText(i)
    {
      var rowData := ComputePascalRow(r);
      var rowText := FormatRow(rowData);
      triangle := triangle + [rowText];
      r := r + 1;
    }
  }

  const PascalTitle := "Pascal's Triangle"
  const ExitHint := "Press 'q' or Ctrl-C to exit"

  /**
   * The Pascal screen for a last row: a two-line header, the triangle rows 0
   * to lastRow centred, and a three-line footer naming the row.
   */
  function PascalScreen(lastRow: int, cols: nat): (content: seq<string>)
    ensures |content| == 5 + TriangleCount(lastRow)
    ensures content[0] == PascalTitle && content[1] == ""
    ensures forall r :: 0 <= r < TriangleCount(lastRow) ==> content[2 + r] == TriangleLine(r, cols)
    ensures content[|content| - 3] == "" && content[|content| - 2] == "Row: " + IntToString(lastRow)
    ensures content[|content| - 1] == ExitHint
  {
    [PascalTitle, ""] + TriangleLines(TriangleCount(lastRow), cols) + ["", "Row: " + IntToString(lastRow), ExitHint]
  }

  /** The first n triangle rows, centred. */
  function TriangleLines(n: nat, cols: nat): (lines: seq<string>)
    ensures |lines| == n && forall r :: 0 <= r < n ==> lines[r] == TriangleLine(r, cols)
  {
    if n == 0 then [] else TriangleLines(n - 1, cols) + [TriangleLine(n - 1, cols)]
  }

  /** The loop of the update callback that fills the screen, header first. */
  method PascalContent(lastRow: int, cols: nat) returns (content: seq<string>)
    ensures content == PascalScreen(lastRow, cols)
  {
    var triangle := BuildTriangle(lastRow);
    content := [PascalTitle, ""];
    for i := 0 to |triangle|
      invariant content == [PascalTitle, ""] + TriangleLines(i, cols)
    {
      content := content + [Centre(triangle[i], cols)];
    }
    content := content + ["", "Row: " + IntToString(lastRow), ExitHint];
  }

  /**
   * As written, once the clock reaches the cap the screen gets rows + 1
   * lines, one more than it has, so set_content drops the last footer line.
   */
  lemma PascalOverflowsAtCap(elapsedMs: nat, rows: nat)
    requires rows >= 5 && elapsedMs >= RowAddIntervalMs * (rows - 5)
    ensures 5 + TriangleCount(DisplayedRow(elapsedMs, rows)) == rows + 1
  {
    var q := elapsedMs / 500;
    assert elapsedMs == 500 * q + elapsedMs % 500;
  }

  /** With the cap at rows - 6 the whole screen fits whenever the header and footer do. */
  lemma PascalFitsWithCorrectedCap(elapsedMs: nat, rows: nat)
    requires rows >= 5
    ensures 5 + TriangleCount(DisplayedRowFitting(elapsedMs, rows)) <= rows
  {
  }
}
