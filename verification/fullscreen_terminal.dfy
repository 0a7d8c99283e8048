/**
 * The frame-buffer bookkeeping of the fullscreen terminal: what is on the
 * screen (the current buffer), what should be (the pending buffer), and the
 * rows written to bring the first up to the second. The terminal size
 * reported by the system and the resize signal are inputs; each row write
 * is recorded in `output` as the pair (row, text).
 */
module Fullscreen {
  import opened Wrappers

  /** The cached terminal size. */
  datatype Size = Size(rows: nat, cols: nat)

  /** The size used when the system does not report one. */
  const DefaultSize := Size(24, 80)

  /** update_terminal_size: the reported size, or 24 rows of 80 columns when there is none. */
  function SizeOf(reported: Option<Size>): (s: Size)
    ensures reported.Some? ==> s == reported.value
    ensures reported.None? ==> s.rows == 24 && s.cols == 80
  {
    match reported
    case Some(size) => size
    case None => DefaultSize
  }

  /** std::vector::resize on lines: cut to `n` lines, or filled up with empty lines. */
  function Resize(lines: seq<string>, n: nat): (r: seq<string>)
    ensures |r| == n
    ensures forall k :: 0 <= k < n && k < |lines| ==> r[k] == lines[k]
    ensures forall k :: |lines| <= k < n ==> r[k] == ""
  {
    seq(n, k requires 0 <= k < n => if k < |lines| then lines[k] else "")
  }

  /** Resizing to a size and then to a smaller one is resizing to the smaller one at once. */
  lemma ResizeTwice(lines: seq<string>, m: nat, n: nat)
    requires n <= m
    ensures Resize(Resize(lines, m), n) == Resize(lines, n)
  {
  }

  /** Resizing to the present length changes nothing. */
  lemma ResizeSame(lines: seq<string>)
    ensures Resize(lines, |lines|) == lines
  {
  }

  /** `n` empty lines. */
  function Blank(n: nat): (r: seq<string>)
    ensures |r| == n && forall k :: 0 <= k < n ==> r[k] == ""
  {
    Resize([], n)
  }

  /** A line cut to at most `cols` characters. */
  function Truncate(line: string, cols: nat): (r: string)
    ensures |r| <= cols && r <= line
    ensures |line| <= cols ==> r == line
  {
    if |line| > cols then line[..cols] else line
  }

  /** The pending buffer set_content makes of `content` for a size of rows by cols. */
  function Fit(content: seq<string>, size: Size): (r: seq<string>)
    ensures |r| == size.rows
  {
    seq(size.rows, k requires 0 <= k < size.rows => Truncate(if k < |content| then content[k] else "", size.cols))
  }

  /**
   * What set_content promises: exactly `rows` lines, each the supplied line
   * cut to `cols` characters, and empty lines past the end of the content.
   */
  lemma FitShape(content: seq<string>, size: Size)
    ensures |Fit(content, size)| == size.rows
    ensures forall k :: 0 <= k < size.rows ==>
              |Fit(content, size)[k]| <= size.cols &&
              (k < |content| ==> Fit(content, size)[k] <= content[k] &&
                                 (|content[k]| <= size.cols ==> Fit(content, size)[k] == content[k])) &&
              (k >= |content| ==> Fit(content, size)[k] == "")
  {
    forall k | 0 <= k < size.rows
      ensures |Fit(content, size)[k]| <= size.cols
      ensures k < |content| ==> Fit(content, size)[k] <= content[k] &&
                                (|content[k]| <= size.cols ==> Fit(content, size)[k] == content[k])
      ensures k >= |content| ==> Fit(content, size)[k] == ""
    {
      var line := if k < |content| then content[k] else "";
      assert Fit(content, size)[k] == Truncate(line, size.cols);
    }
  }

  /** Content that already fits is kept as it is, so set_content is idempotent. */
  lemma FitIdempotent(content: seq<string>, size: Size)
    ensures Fit(Fit(content, size), size) == Fit(content, size)
  {
    var once := Fit(content, size);
    FitShape(content, size);
    forall k | 0 <= k < size.rows
      ensures Fit(once, size)[k] == once[k]
    {
      assert Fit(once, size)[k] == Truncate(once[k], size.cols);
    }
  }

  /** Row r must be written: the screen has no such row, or shows something else on it. */
  predicate Changed(current: seq<string>, pending: seq<string>, r: nat)
    requires r < |pending|
  {
    r >= |current| || current[r] != pending[r]
  }

  /** The writes update_screen_diff makes for the first `n` rows. */
  function DiffWrites(current: seq<string>, pending: seq<string>, n: nat): seq<(nat, string)>
    requires n <= |pending|
  {
    if n == 0 then []
    else
      DiffWrites(current, pending, n - 1) +
      (if Changed(current, pending, n - 1) then [(n - 1, pending[n - 1])] else [])
  }

  /** The current buffer after update_screen_diff has scanned the first `n` rows. */
  function AfterDiff(current: seq<string>, pending: seq<string>, n: nat): (r: seq<string>)
    requires n <= |pending|
    ensures |r| == |current|
  {
    seq(|current|, k requires 0 <= k < |current| => if k < n then pending[k] else current[k])
  }

  /** The number of rows update_screen_diff scans. */
  function Scanned(pending: seq<string>, rows: nat): (n: nat)
    ensures n <= |pending| && n <= rows
    ensures n == |pending| || n == rows
  {
    if rows < |pending| then rows else |pending|
  }

  /** Scanning one more row copies it into the current buffer when the screen has it. */
  lemma AfterDiffStep(current: seq<string>, pending: seq<string>, n: nat)
    requires n < |pending|
    ensures n < |current| ==> AfterDiff(current, pending, n + 1) == AfterDiff(current, pending, n)[n := pending[n]]
    ensures n >= |current| ==> AfterDiff(current, pending, n + 1) == AfterDiff(current, pending, n)
  {
  }

  /**
   * The rows are written in increasing order, each with its pending text,
   * and a row is written exactly when it is among the first `n` and changed.
   */
  lemma {:induction false} DiffWritesExact(current: seq<string>, pending: seq<string>, n: nat)
    requires n <= |pending|
    ensures forall i, j :: 0 <= i < j < |DiffWrites(current, pending, n)| ==>
              DiffWrites(current, pending, n)[i].0 < DiffWrites(current, pending, n)[j].0
    ensures forall w :: w in DiffWrites(current, pending, n) ==>
              w.0 < n && Changed(current, pending, w.0) && w.1 == pending[w.0]
    ensures forall r :: 0 <= r < n && Changed(current, pending, r) ==>
              (r, pending[r]) in DiffWrites(current, pending, n)
  {
    if n > 0 {
      DiffWritesExact(current, pending, n - 1);
    }
  }

  /** Once the scanned rows show their pending text, scanning them again writes nothing. */
  lemma {:induction false} DiffWritesNothing(current: seq<string>, pending: seq<string>, n: nat)
    requires n <= |pending| && n <= |current|
    requires forall r :: 0 <= r < n ==> current[r] == pending[r]
    ensures DiffWrites(current, pending, n) == []
  {
    if n > 0 {
      DiffWritesNothing(current, pending, n - 1);
    }
  }

  /**
   * After one update the rows it scanned show their pending text, so an
   * update straight after it writes nothing when the screen has those rows.
   */
  lemma SecondDiffWritesNothing(current: seq<string>, pending: seq<string>, n: nat)
    requires n <= |pending| && n <= |current|
    ensures DiffWrites(AfterDiff(current, pending, n), pending, n) == []
  {
    DiffWritesNothing(AfterDiff(current, pending, n), pending, n);
  }

  /** After a forced redraw every non-empty pending row among the scanned ones is written. */
  lemma RedrawWritesNonEmpty(pending: seq<string>, n: nat)
    requires n <= |pending|
    ensures forall r :: 0 <= r < n ==> ((r, pending[r]) in DiffWrites(Blank(n), pending, n) <==> pending[r] != "")
  {
    DiffWritesExact(Blank(n), pending, n);
  }

  class FullscreenTerminal {
    var inFullscreen: bool
    var shouldQuit: bool
    var forceRedraw: bool
    var size: Size
    /** What is on the screen. */
    var currentBuffer: seq<string>
    /** What should be on the screen. */
    var pendingBuffer: seq<string>
    /** The SIGWINCH flag the signal handler raises. */
    var resizeFlag: bool
    /** The rows written to the terminal so far, as (row, text). */
    var output: seq<(nat, string)>

    /** The constructor: not fullscreen, no redraw pending, size as reported. */
    constructor(reported: Option<Size>)
      ensures !inFullscreen && !shouldQuit && !forceRedraw && !resizeFlag
      ensures size == SizeOf(reported)
      ensures currentBuffer == [] && pendingBuffer == [] && output == []
    {
      inFullscreen := false;
      shouldQuit := false;
      forceRedraw := false;
      size := SizeOf(reported);
      currentBuffer := [];
      pendingBuffer := [];
      resizeFlag := false;
      output := [];
    }

    /** enter: nothing when already fullscreen; else both buffers become `rows` empty lines. */
    method Enter(reported: Option<Size>)
      modifies this
      ensures old(inFullscreen) ==> unchanged(this)
      ensures !old(inFullscreen) ==>
                inFullscreen && !shouldQuit && size == SizeOf(reported) &&
                currentBuffer == Blank(size.rows) && pendingBuffer == Blank(size.rows) &&
                forceRedraw == old(forceRedraw) && resizeFlag == old(resizeFlag) && output == old(output)
    {
      if inFullscreen {
        return;
      }
      size := SizeOf(reported);
      currentBuffer := Resize([], size.rows);
      pendingBuffer := Resize([], size.rows);
      inFullscreen := true;
      shouldQuit := false;
    }

    /** exit: nothing when not fullscreen; else leaves fullscreen and keeps the buffers. */
    method Exit()
      modifies this
      ensures !old(inFullscreen) ==> unchanged(this)
      ensures !inFullscreen
      ensures shouldQuit == old(shouldQuit) && forceRedraw == old(forceRedraw) && size == old(size)
      ensures currentBuffer == old(currentBuffer) && pendingBuffer == old(pendingBuffer)
      ensures resizeFlag == old(resizeFlag) && output == old(output)
    {
      if !inFullscreen {
        return;
      }
      inFullscreen := false;
    }

    /** get_size. */
    function GetSize(): (s: Size)
      reads this
      ensures s == size
    {
      size
    }

    /** set_content: the pending buffer becomes the content fitted to the cached size. */
    method SetContent(content: seq<string>)
      modifies this
      ensures pendingBuffer == Fit(content, size)
      ensures inFullscreen == old(inFullscreen) && shouldQuit == old(shouldQuit)
      ensures forceRedraw == old(forceRedraw) && size == old(size)
      ensures currentBuffer == old(currentBuffer) && resizeFlag == old(resizeFlag) && output == old(output)
    {
      var lines := Resize(content, size.rows);
      var k := 0;
      while k < |lines|
        invariant 0 <= k <= |lines| == size.rows
        invariant forall i :: 0 <= i < k ==> lines[i] == Fit(content, size)[i]
        invariant forall i :: k <= i < |lines| ==> lines[i] == (if i < |content| then content[i] else "")
      {
        assert Fit(content, size)[k] == Truncate(lines[k], size.cols);
        if |lines[k]| > size.cols {
          lines := lines[k := lines[k][..size.cols]];
        }
        k := k + 1;
      }
      pendingBuffer := lines;
    }

    /** clear: the pending buffer becomes `rows` empty lines. */
    method Clear()
      modifies this
      ensures pendingBuffer == Blank(size.rows)
      ensures inFullscreen == old(inFullscreen) && shouldQuit == old(shouldQuit)
      ensures forceRedraw == old(forceRedraw) && size == old(size)
      ensures currentBuffer == old(currentBuffer) && resizeFlag == old(resizeFlag) && output == old(output)
    {
      pendingBuffer := Resize([], size.rows);
    }

    /** force_redraw: the next flush redraws every row. */
    method ForceRedraw()
      modifies this
      ensures forceRedraw
      ensures inFullscreen == old(inFullscreen) && shouldQuit == old(shouldQuit) && size == old(size)
      ensures currentBuffer == old(currentBuffer) && pendingBuffer == old(pendingBuffer)
      ensures resizeFlag == old(resizeFlag) && output == old(output)
    {
      forceRedraw := true;
    }

    /** quit: the main loop stops at its next turn. */
    method Quit()
      modifies this
      ensures shouldQuit
      ensures inFullscreen == old(inFullscreen) && forceRedraw == old(forceRedraw) && size == old(size)
      ensures currentBuffer == old(currentBuffer) && pendingBuffer == old(pendingBuffer)
      ensures resizeFlag == old(resizeFlag) && output == old(output)
    {
      shouldQuit := true;
    }

    /** The SIGWINCH branch of signal_handler: a resize is pending. */
    method SignalResize()
      modifies this
      ensures resizeFlag
      ensures inFullscreen == old(inFullscreen) && shouldQuit == old(shouldQuit)
      ensures forceRedraw == old(forceRedraw) && size == old(size)
      ensures currentBuffer == old(currentBuffer) && pendingBuffer == old(pendingBuffer) && output == old(output)
    {
      resizeFlag := true;
    }

    /**
     * update_screen_diff: for each of the first `rows` rows the pending buffer
     * has, a row that is missing from the screen or differs is written and,
     * when the screen has that row, copied into the current buffer.
     */
    method UpdateScreenDiff()
      modifies this
      ensures output == old(output) + DiffWrites(old(currentBuffer), pendingBuffer, Scanned(pendingBuffer, size.rows))
      ensures currentBuffer == AfterDiff(old(currentBuffer), pendingBuffer, Scanned(pendingBuffer, size.rows))
      ensures inFullscreen == old(inFullscreen) && shouldQuit == old(shouldQuit)
      ensures forceRedraw == old(forceRedraw) && size == old(size)
      ensures pendingBuffer == old(pendingBuffer) && resizeFlag == old(resizeFlag)
    {
      var row := 0;
      while row < size.rows
        invariant 0 <= row <= size.rows && row <= |pendingBuffer|
        invariant output == old(output) + DiffWrites(old(currentBuffer), pendingBuffer, row)
        invariant currentBuffer == AfterDiff(old(currentBuffer), pendingBuffer, row)
        invariant inFullscreen == old(inFullscreen) && shouldQuit == old(shouldQuit)
        invariant forceRedraw == old(forceRedraw) && size == old(size)
        invariant pendingBuffer == old(pendingBuffer) && resizeFlag == old(resizeFlag)
      {
        if row >= |pendingBuffer| {
          break;
        }
        AfterDiffStep(old(currentBuffer), pendingBuffer, row);
        if row >= |currentBuffer| || currentBuffer[row] != pendingBuffer[row] {
          output := output + [(row, pendingBuffer[row])];
          if row < |currentBuffer| {
            currentBuffer := currentBuffer[row := pendingBuffer[row]];
          }
        }
        row := row + 1;
      }
    }

    /**
     * flush: nothing when not fullscreen. Otherwise a pending resize is
     * consumed (new size, both buffers resized, redraw forced), a forced
     * redraw empties the current buffer, and the changed rows are written.
     */
    method Flush(reported: Option<Size>)
      modifies this
      ensures !old(inFullscreen) ==> unchanged(this)
      ensures old(inFullscreen) ==>
                var newSize := if old(resizeFlag) then SizeOf(reported) else old(size);
                var pending := if old(resizeFlag) then Resize(old(pendingBuffer), newSize.rows) else old(pendingBuffer);
                var before := if old(resizeFlag) || old(forceRedraw) then Blank(newSize.rows) else old(currentBuffer);
                var n := Scanned(pending, newSize.rows);
                size == newSize && pendingBuffer == pending && !resizeFlag && !forceRedraw &&
                output == old(output) + DiffWrites(before, pending, n) &&
                currentBuffer == AfterDiff(before, pending, n) &&
                inFullscreen && shouldQuit == old(shouldQuit)
    {
      if !inFullscreen {
        return;
      }
      if resizeFlag {
        resizeFlag := false;
        size := SizeOf(reported);
        currentBuffer := Resize(currentBuffer, size.rows);
        pendingBuffer := Resize(pendingBuffer, size.rows);
        forceRedraw := true;
      }
      if forceRedraw {
        currentBuffer := Resize([], size.rows);
        forceRedraw := false;
      }
      UpdateScreenDiff();
    }
  }

  /**
   * After a flush in fullscreen the screen shows the pending buffer on every
   * row both buffers have among the first `rows`, and a second flush with no
   * resize or redraw in between writes nothing.
   */
  lemma FlushSettles(before: seq<string>, pending: seq<string>, rows: nat)
    requires Scanned(pending, rows) <= |before|
    ensures forall r :: 0 <= r < Scanned(pending, rows) ==>
              AfterDiff(before, pending, Scanned(pending, rows))[r] == pending[r]
    ensures DiffWrites(AfterDiff(before, pending, Scanned(pending, rows)), pending, Scanned(pending, rows)) == []
  {
    SecondDiffWritesNothing(before, pending, Scanned(pending, rows));
  }
}
