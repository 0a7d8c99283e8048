/**
 * tachyon-manifold: a grid of cells through which a beam travels downwards,
 * one row per update. A beam that meets a splitter in the row below becomes
 * two beams, one on each side of it, and per-column timeline counts follow
 * the beams. The grid is parsed from text lines; an unknown character makes
 * the constructor throw, modelled as None.
 */
module Tachyon {
  import opened Wrappers
  import opened Strings

  datatype Cell = Dot | Beam | Start | Splitter

  type Row = seq<Cell>

  /** cell_to_char. */
  function CellToChar(cell: Cell): (c: char)
    ensures c in ".|S^"
  {
    match cell
    case Dot => '.'
    case Beam => '|'
    case Start => 'S'
    case Splitter => '^'
  }

  /** char_to_cell: the four known characters, anything else rejected (std::invalid_argument). */
  function CharToCell(c: char): (r: Option<Cell>)
    ensures r.Some? <==> c in ".|S^"
  {
    match c
    case '.' => Some(Dot)
    case '|' => Some(Beam)
    case 'S' => Some(Start)
    case '^' => Some(Splitter)
    case _ => None
  }

  /** The two conversions are inverse to each other on the four known characters. */
  lemma CellCharRoundTrip(cell: Cell, c: char)
    ensures CharToCell(CellToChar(cell)) == Some(cell)
    ensures CharToCell(c).Some? ==> CellToChar(CharToCell(c).value) == c
  {
  }

  /** string_to_row: every character converted, failing at the first unknown one. */
  function StringToRow(s: string): (r: Option<Row>)
    ensures r.Some? <==> forall k :: 0 <= k < |s| ==> s[k] in ".|S^"
    ensures r.Some? ==> |r.value| == |s| &&
                        forall k :: 0 <= k < |s| ==> Some(r.value[k]) == CharToCell(s[k])
  {
    if |s| == 0 then Some([])
    else
      match CharToCell(s[0])
      case None => None
      case Some(cell) =>
        match StringToRow(s[1..])
        case None => None
        case Some(rest) => Some([cell] + rest)
  }

  /** row_to_string: every cell rendered as its character. */
  function RowToString(row: Row): (s: string)
    ensures |s| == |row| && forall k :: 0 <= k < |row| ==> s[k] == CellToChar(row[k])
  {
    if |row| == 0 then "" else [CellToChar(row[0])] + RowToString(row[1..])
  }

  /** Rendering a row and parsing it again gives the row back. */
  lemma {:induction false} RowRoundTrip(row: Row)
    ensures StringToRow(RowToString(row)) == Some(row)
  {
    var s := RowToString(row);
    assert forall k :: 0 <= k < |s| ==> s[k] in ".|S^";
    var r := StringToRow(s).value;
    forall k | 0 <= k < |row|
      ensures r[k] == row[k]
    {
      CellCharRoundTrip(row[k], s[k]);
    }
    assert r == row;
  }

  /** Parsing a line that parses and rendering it again gives the line back. */
  lemma {:induction false} StringRoundTrip(s: string)
    requires StringToRow(s).Some?
    ensures RowToString(StringToRow(s).value) == s
  {
    var row := StringToRow(s).value;
    forall k | 0 <= k < |s|
      ensures RowToString(row)[k] == s[k]
    {
      CellCharRoundTrip(row[k], s[k]);
    }
  }

  /** lines_to_manifold: every line converted, failing if any line fails. */
  function LinesToManifold(lines: seq<string>): (r: Option<seq<Row>>)
    ensures r.Some? <==> forall k :: 0 <= k < |lines| ==> StringToRow(lines[k]).Some?
    ensures r.Some? ==> |r.value| == |lines| &&
                        forall k :: 0 <= k < |lines| ==> Some(r.value[k]) == StringToRow(lines[k])
  {
    if |lines| == 0 then Some([])
    else
      match StringToRow(lines[0])
      case None => None
      case Some(row) =>
        match LinesToManifold(lines[1..])
        case None => None
        case Some(rest) => Some([row] + rest)
  }

  /**
   * manifold_to_string: each rendered row followed by a newline, then the
   * final newline removed.
   */
  function ManifoldToString(manifold: seq<Row>): (s: string)
  {
    var all := RenderedRows(manifold);
    if |all| > 0 && all[|all| - 1] == '\n' then all[..|all| - 1] else all
  }

  function RenderedRows(manifold: seq<Row>): string
  {
    if |manifold| == 0 then "" else RowToString(manifold[0]) + "\n" + RenderedRows(manifold[1..])
  }

  /** The rendering is the rows joined with newlines. */
  lemma ManifoldToStringIsJoin(manifold: seq<Row>)
    ensures ManifoldToString(manifold) == Join(RowStrings(manifold), "\n")
  {
    if |manifold| > 0 {
      RenderedRowsIsJoin(manifold);
      var all := RenderedRows(manifold);
      assert all == Join(RowStrings(manifold), "\n") + "\n";
      assert all[..|all| - 1] == Join(RowStrings(manifold), "\n");
    }
  }

  function RowStrings(manifold: seq<Row>): (r: seq<string>)
    ensures |r| == |manifold| && forall k :: 0 <= k < |manifold| ==> r[k] == RowToString(manifold[k])
  {
    seq(|manifold|, k requires 0 <= k < |manifold| => RowToString(manifold[k]))
  }

  lemma {:induction false} RenderedRowsIsJoin(manifold: seq<Row>)
    requires |manifold| > 0
    ensures RenderedRows(manifold) == Join(RowStrings(manifold), "\n") + "\n"
    decreases |manifold|
  {
    if |manifold| > 1 {
      RenderedRowsIsJoin(manifold[1..]);
      assert RowStrings(manifold)[1..] == RowStrings(manifold[1..]);
    }
  }

  predicate Rectangular(manifold: seq<Row>)
  {
    forall k :: 0 <= k < |manifold| ==> |manifold[k]| == |manifold[0]|
  }

  // ---------------------------------------------------------------------------
  // One row of update_manifold

  /** What the per-column loop of update_manifold has built so far. */
  datatype RowState = RowState(next: Row, counts: seq<int>, splits: nat)

  predicate Lit(cell: Cell)
  {
    cell == Start || cell == Beam
  }

  /**
   * Column i of the loop: a start puts a beam below with one timeline; a beam
   * over a splitter puts beams on the in-range sides, hands the timelines on
   * and counts a split; any other beam continues straight down. `prev` holds
   * the timeline counts from before the row.
   */
  function CellStep(cur: Row, prev: seq<int>, s: RowState, i: nat): (r: RowState)
    requires i < |cur| && |s.next| == |cur| && |s.counts| == |cur| && |prev| == |cur|
    ensures |r.next| == |cur| && |r.counts| == |cur|
  {
    match cur[i]
    case Start => RowState(s.next[i := Beam], s.counts[i := 1], s.splits)
    case Beam =>
      if s.next[i] == Splitter then Split(prev, s, i)
      else RowState(s.next[i := Beam], s.counts, s.splits)
    case _ => s
  }

  /** A beam in column i meeting a splitter below: beams on the in-range sides and one more split. */
  function Split(prev: seq<int>, s: RowState, i: nat): (r: RowState)
    requires i < |s.next| && |s.counts| == |s.next| && |prev| == |s.next|
    ensures |r.next| == |s.next| && |r.counts| == |s.next|
  {
    var left := if i > 0 then
      RowState(s.next[i - 1 := Beam], s.counts[i - 1 := s.counts[i - 1] + prev[i] + prev[i - 1]][i := 0], s.splits)
    else s;
    var right := if i < |s.next| - 1 then
      RowState(left.next[i + 1 := Beam], left.counts[i + 1 := left.counts[i + 1] + prev[i] + prev[i + 1]][i := 0], left.splits)
    else left;
    RowState(right.next, right.counts, right.splits + 1)
  }

  /** The first n columns of the loop, starting from the next row and the old counts. */
  function RowStep(cur: Row, next: Row, prev: seq<int>, n: nat): (r: RowState)
    requires n <= |cur| && |next| == |cur| && |prev| == |cur|
    ensures |r.next| == |cur| && |r.counts| == |cur|
  {
    if n == 0 then RowState(next, prev, 0)
    else CellStep(cur, prev, RowStep(cur, next, prev, n - 1), n - 1)
  }

  /** The number of beams in a row. */
  function BeamCount(row: Row): nat
  {
    if |row| == 0 then 0 else BeamCount(row[..|row| - 1]) + (if row[|row| - 1] == Beam then 1 else 0)
  }

  /**
   * The loop only ever writes beams: every cell of the next row is what it
   * was or a beam, and the columns beyond n + 1 are not touched at all. It
   * counts at most one split per beam of the current row.
   */
  lemma {:induction false} RowStepWritesBeams(cur: Row, next: Row, prev: seq<int>, n: nat)
    requires n <= |cur| && |next| == |cur| && |prev| == |cur|
    ensures var r := RowStep(cur, next, prev, n);
      (forall k :: 0 <= k < |cur| ==> r.next[k] == next[k] || r.next[k] == Beam) &&
      (forall k :: n + 1 <= k < |cur| ==> r.next[k] == next[k] && r.counts[k] == prev[k]) &&
      r.splits <= BeamCount(cur[..n])
  {
    if n > 0 {
      RowStepWritesBeams(cur, next, prev, n - 1);
      assert cur[..n][..n - 1] == cur[..n - 1];
    }
  }

  /**
   * A start or beam in column k has lit the cell below it, or that cell is a
   * splitter and the cells beside it are lit.
   */
  predicate LitAt(cur: Row, below: Row, k: nat)
    requires k < |cur| == |below|
  {
    Lit(cur[k]) ==>
      below[k] == Beam ||
      (below[k] == Splitter && (k > 0 ==> below[k - 1] == Beam) && (k < |cur| - 1 ==> below[k + 1] == Beam))
  }

  predicate LitBelow(cur: Row, below: Row, n: nat)
    requires n <= |cur| == |below|
  {
    forall k :: 0 <= k < n ==> LitAt(cur, below, k)
  }

  /** After the first n columns of the loop, they have all lit the row below. */
  lemma {:induction false} RowStepLights(cur: Row, next: Row, prev: seq<int>, n: nat)
    requires n <= |cur| && |next| == |cur| && |prev| == |cur|
    ensures LitBelow(cur, RowStep(cur, next, prev, n).next, n)
  {
    if n > 0 {
      RowStepLights(cur, next, prev, n - 1);
      var s := RowStep(cur, next, prev, n - 1);
      var r := CellStep(cur, prev, s, n - 1);
      var i := n - 1;
      assert r == RowStep(cur, next, prev, n);
      CellStepWrites(cur, prev, s, i);
      forall k | 0 <= k < n
        ensures LitAt(cur, r.next, k)
      {
        if k == i {
          CellStepLights(cur, prev, s, i);
        } else {
          assert LitAt(cur, s.next, k);
        }
      }
    }
  }

  /** One column of the loop writes only beams, and a beam or start that was written stays. */
  lemma CellStepWrites(cur: Row, prev: seq<int>, s: RowState, i: nat)
    requires i < |cur| && |s.next| == |cur| && |s.counts| == |cur| && |prev| == |cur|
    ensures var r := CellStep(cur, prev, s, i);
      forall k :: 0 <= k < |cur| ==> r.next[k] == s.next[k] || r.next[k] == Beam
  {
  }

  /**
   * A split hands the timelines on: each in-range neighbour gets the beam's
   * count and its own old count on top of what the next row already had,
   * the split column drops to 0 when a neighbour exists, and nothing beyond
   * the neighbours changes.
   */
  lemma SplitCounts(prev: seq<int>, s: RowState, i: nat)
    requires i < |s.next| && |s.counts| == |s.next| && |prev| == |s.next|
    ensures var r := Split(prev, s, i);
      (i > 0 ==> r.next[i - 1] == Beam && r.counts[i - 1] == s.counts[i - 1] + prev[i] + prev[i - 1]) &&
      (i + 1 < |s.next| ==> r.next[i + 1] == Beam && r.counts[i + 1] == s.counts[i + 1] + prev[i] + prev[i + 1]) &&
      r.counts[i] == (if i > 0 || i + 1 < |s.next| then 0 else s.counts[i]) &&
      r.next[i] == s.next[i] && r.splits == s.splits + 1 &&
      forall k :: 0 <= k < |s.next| && (k + 1 < i || i + 1 < k) ==> r.next[k] == s.next[k] && r.counts[k] == s.counts[k]
  {
  }

  /** The column itself: its start or beam lights the cell below, or the cells beside a splitter. */
  lemma CellStepLights(cur: Row, prev: seq<int>, s: RowState, i: nat)
    requires i < |cur| && |s.next| == |cur| && |s.counts| == |cur| && |prev| == |cur|
    ensures LitAt(cur, CellStep(cur, prev, s, i).next, i)
  {
  }

  /**
   * A cell of the next row with no start or beam above it or beside that
   * keeps its cell and its timeline count.
   */
  lemma {:induction false} RowStepUntouched(cur: Row, next: Row, prev: seq<int>, n: nat, k: nat)
    requires n <= |cur| && |next| == |cur| && |prev| == |cur| && k < |cur|
    requires forall d :: k - 1 <= d <= k + 1 && 0 <= d < |cur| ==> !Lit(cur[d])
    ensures RowStep(cur, next, prev, n).next[k] == next[k]
    ensures RowStep(cur, next, prev, n).counts[k] == prev[k]
  {
    if n > 0 {
      RowStepUntouched(cur, next, prev, n - 1, k);
    }
  }

  // ---------------------------------------------------------------------------
  // The whole state

  /** The fields of a TachyonManifold, as a value. */
  datatype State = State(manifold: seq<Row>, rowsCompleted: nat, splits: nat, counts: seq<int>)

  /**
   * What update_manifold needs: rows of one width (it indexes the next row
   * and the counts by the current row's columns), counts as wide as the
   * first row and a current row that exists when there is any row.
   */
  predicate Ready(s: State)
  {
    Rectangular(s.manifold) &&
    (|s.manifold| > 0 ==> |s.counts| == |s.manifold[0]| && s.rowsCompleted < |s.manifold|)
  }

  /** has_more_rows. */
  predicate HasMoreRows(s: State)
  {
    s.rowsCompleted < |s.manifold| - 1
  }

  /** update_manifold as a function of the state: nothing without a next row, otherwise one row. */
  function Update(s: State): (r: State)
    requires Ready(s)
    ensures Ready(r)
  {
    if s.rowsCompleted + 1 >= |s.manifold| then s
    else
      var i := s.rowsCompleted;
      var cur := s.manifold[i];
      var st := RowStep(cur, s.manifold[i + 1], s.counts, |cur|);
      State(s.manifold[i + 1 := st.next], i + 1, s.splits + st.splits, st.counts)
  }

  /**
   * An update with no next row changes nothing; otherwise it completes
   * exactly one more row, never lowers the split count, keeps the number and
   * width of the rows and writes only the row below the current one.
   */
  lemma UpdateAdvances(s: State)
    requires Ready(s)
    ensures !HasMoreRows(s) ==> Update(s) == s
    ensures HasMoreRows(s) ==>
      var r := Update(s);
      r.rowsCompleted == s.rowsCompleted + 1 && r.splits >= s.splits &&
      |r.manifold| == |s.manifold| && |r.counts| == |s.counts| &&
      forall k :: 0 <= k < |s.manifold| && k != s.rowsCompleted + 1 ==> r.manifold[k] == s.manifold[k]
  {
  }

  /** An update splits at most once per beam of the current row. */
  lemma UpdateSplitsBound(s: State)
    requires Ready(s) && HasMoreRows(s)
    ensures Update(s).splits <= s.splits + BeamCount(s.manifold[s.rowsCompleted])
  {
    var cur := s.manifold[s.rowsCompleted];
    RowStepWritesBeams(cur, s.manifold[s.rowsCompleted + 1], s.counts, |cur|);
    assert cur[..|cur|] == cur;
  }

  /** The loop of solve: updates until there is no next row. */
  function RunToEnd(s: State): (r: State)
    requires Ready(s)
    ensures Ready(r)
    decreases |s.manifold| - s.rowsCompleted
  {
    if HasMoreRows(s) then RunToEnd(Update(s)) else s
  }

  /**
   * solve stops on the last row (or at once on an empty manifold), with the
   * split count never below where it started and the rows kept.
   */
  lemma {:induction false} RunToEndFinishes(s: State)
    requires Ready(s)
    ensures var r := RunToEnd(s);
      !HasMoreRows(r) && r.splits >= s.splits && |r.manifold| == |s.manifold| &&
      (|s.manifold| > 0 ==> r.rowsCompleted == |s.manifold| - 1) &&
      (forall k :: 0 <= k <= s.rowsCompleted && k < |s.manifold| ==> r.manifold[k] == s.manifold[k])
    decreases |s.manifold| - s.rowsCompleted
  {
    if HasMoreRows(s) {
      UpdateAdvances(s);
      RunToEndFinishes(Update(s));
    }
  }

  /** std::accumulate of the counts, from 0. */
  function Sum(counts: seq<int>): int
  {
    if |counts| == 0 then 0 else Sum(counts[..|counts| - 1]) + counts[|counts| - 1]
  }

  class TachyonManifold {
    var lines: seq<string>
    var manifold: seq<Row>
    var rowsCompleted: nat
    var beamSplits: nat
    var timelines: seq<int>

    function Snapshot(): State
      reads this
    {
      State(manifold, rowsCompleted, beamSplits, timelines)
    }

    /**
     * The constructor after a successful parse: no row completed, no split
     * and a zero count for each column of the first row.
     */
    constructor(lines: seq<string>, manifold: seq<Row>)
      ensures this.lines == lines && this.manifold == manifold
      ensures rowsCompleted == 0 && beamSplits == 0
      ensures timelines == if |manifold| == 0 then [] else seq(|manifold[0]|, _ => 0)
    {
      this.lines := lines;
      this.manifold := manifold;
      rowsCompleted := 0;
      beamSplits := 0;
      timelines := if |manifold| == 0 then [] else seq(|manifold[0]|, _ => 0);
    }

    /** The constructor from text lines: None when a line holds an unknown character. */
    static method FromLines(lines: seq<string>) returns (r: Option<TachyonManifold>)
      ensures r.None? <==> LinesToManifold(lines).None?
      ensures r.Some? ==>
                fresh(r.value) && r.value.lines == lines &&
                        r.value.Snapshot() == State(LinesToManifold(lines).value, 0, 0,
                  if |lines| == 0 then [] else seq(|LinesToManifold(lines).value[0]|, _ => 0))
    {
      match LinesToManifold(lines)
      case None => return None;
      case Some(manifold) =>
        var m := new TachyonManifold(lines, manifold);
        return Some(m);
    }

    /** has_more_rows. */
    predicate HasMore()
      reads this
    {
      HasMoreRows(Snapshot())
    }

    /** get_current_row_as_string: the current row rendered; it indexes the current row, so some row must exist. */
    function CurrentRowAsString(): (s: string)
      reads this
      requires rowsCompleted < |manifold|
      ensures StringToRow(s) == Some(manifold[rowsCompleted])
    {
      RowRoundTrip(manifold[rowsCompleted]);
      RowToString(manifold[rowsCompleted])
    }

    /** update_manifold: the per-column loop writes the next row in place and then moves on by one row. */
    method UpdateManifold()
      requires Ready(Snapshot())
      modifies this
      ensures Snapshot() == Update(old(Snapshot())) && lines == old(lines)
    {
      if rowsCompleted + 1 >= |manifold| {
        return;
      }
      var r := rowsCompleted;
      var cur := manifold[r];
      ghost var next0 := manifold[r + 1];
      ghost var splits0 := beamSplits;
      var nextCounts := timelines;
      var i := 0;
      while i < |cur|
        invariant 0 <= i <= |cur|
        invariant rowsCompleted == r && lines == old(lines) && timelines == old(timelines)
        invariant var st := RowStep(cur, next0, timelines, i);
          manifold == old(manifold)[r + 1 := st.next] && nextCounts == st.counts &&
          beamSplits == splits0 + st.splits
      {
        var next := manifold[r + 1];
        match cur[i] {
          case Start =>
            manifold := manifold[r + 1 := next[i := Beam]];
            nextCounts := nextCounts[i := 1];
          case Beam =>
            if next[i] == Splitter {
              nextCounts := SplitBeam(r + 1, i, nextCounts);
            } else {
              manifold := manifold[r + 1 := next[i := Beam]];
            }
          case _ =>
        }
        i := i + 1;
      }
      timelines := nextCounts;
      rowsCompleted := rowsCompleted + 1;
    }

    /**
     * The splitter case of the loop: writes beams beside column i of row
     * `below`, hands the timelines on and counts the split.
     */
    method SplitBeam(below: nat, i: nat, counts: seq<int>) returns (nextCounts: seq<int>)
      requires below < |manifold| && i < |manifold[below]| && |counts| == |manifold[below]| == |timelines|
      modifies this
      ensures var st := Split(old(timelines), RowState(old(manifold)[below], counts, old(beamSplits)), i);
        manifold == old(manifold)[below := st.next] && nextCounts == st.counts && beamSplits == st.splits
      ensures lines == old(lines) && rowsCompleted == old(rowsCompleted) && timelines == old(timelines)
    {
      nextCounts := counts;
      if i > 0 {
        manifold := manifold[below := manifold[below][i - 1 := Beam]];
        nextCounts := nextCounts[i - 1 := nextCounts[i - 1] + timelines[i] + timelines[i - 1]];
        nextCounts := nextCounts[i := 0];
      }
      if i < |manifold[below]| - 1 {
        manifold := manifold[below := manifold[below][i + 1 := Beam]];
        nextCounts := nextCounts[i + 1 := nextCounts[i + 1] + timelines[i] + timelines[i + 1]];
        nextCounts := nextCounts[i := 0];
      }
      beamSplits := beamSplits + 1;
    }

    /** solve: updates while there are more rows, then reports the splits and the sum of the counts. */
    method Solve() returns (splits: nat, total: int)
      requires Ready(Snapshot())
      modifies this
      ensures Snapshot() == RunToEnd(old(Snapshot())) && lines == old(lines)
      ensures splits == beamSplits && total == Sum(timelines)
    {
      while HasMore()
        invariant Ready(Snapshot()) && lines == old(lines)
        invariant RunToEnd(Snapshot()) == RunToEnd(old(Snapshot()))
        decreases |manifold| - rowsCompleted
      {
        UpdateManifold();
      }
      splits := beamSplits;
      total := Sum(timelines);
    }

    /** get_manifold_lines: the rows up to and including the current one, rendered. */
    method ManifoldLines() returns (result: seq<string>)
      ensures |result| == Min(rowsCompleted + 1, |manifold|)
      ensures forall k :: 0 <= k < |result| ==> StringToRow(result[k]) == Some(manifold[k])
    {
      result := [];
      var i := 0;
      while i <= rowsCompleted && i < |manifold|
        invariant 0 <= i <= Min(rowsCompleted + 1, |manifold|) && |result| == i
        invariant forall k :: 0 <= k < i ==> result[k] == RowToString(manifold[k])
      {
        result := result + [RowToString(manifold[i])];
        i := i + 1;
      }
      forall k | 0 <= k < |result|
        ensures StringToRow(result[k]) == Some(manifold[k])
      {
        RowRoundTrip(manifold[k]);
      }
    }
  }

  function Min(a: nat, b: nat): nat
  {
    if a <= b then a else b
  }
}
