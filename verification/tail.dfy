/**
 * tail: the last n lines of a list of lines, and the bounded buffer tail_file
 * keeps while it reads a file line by line. A file is abstracted as the
 * sequence of lines std::getline would produce, or None when it cannot be
 * opened.
 */
module Tail {
  import opened Wrappers

  datatype TailResult = TailResult(success: bool, errorMessage: string, lines: seq<string>)

  function Min(a: nat, b: nat): nat
  {
    if a <= b then a else b
  }

  /**
   * last_n_lines: the whole input when n reaches its size, otherwise the last
   * n lines in their original order.
   */
  function LastNLines(all: seq<string>, n: nat): (r: seq<string>)
    ensures |r| == Min(n, |all|)
    ensures r == all[|all| - |r|..]
    ensures n >= |all| ==> r == all
  {
    if n >= |all| then all else all[|all| - n..]
  }

  /** Appending one line to the input drops at most the oldest of the kept lines. */
  lemma LastNLinesSnoc(all: seq<string>, line: string, n: nat)
    ensures var kept := LastNLines(all, n) + [line];
      LastNLines(all + [line], n) == if |kept| > n then kept[1..] else kept
  {
    var kept := LastNLines(all, n) + [line];
    var full := all + [line];
    if |kept| > n {
      assert kept[1..] == full[|full| - n..];
    } else {
      assert kept == full;
    }
  }

  /** Taking the last n lines twice changes nothing more. */
  lemma LastNLinesIdempotent(all: seq<string>, n: nat)
    ensures LastNLines(LastNLines(all, n), n) == LastNLines(all, n)
  {
  }

  /** Keeping the last m lines of the last n lines is keeping the last min(m, n) lines. */
  lemma LastNLinesNested(all: seq<string>, n: nat, m: nat)
    ensures LastNLines(LastNLines(all, n), m) == LastNLines(all, Min(m, n))
  {
    var inner := LastNLines(all, n);
    var r := LastNLines(inner, m);
    assert r == all[|all| - |r|..];
  }

  /** tail_lines: always succeeds, with the last n lines of the input. */
  function TailLines(input: seq<string>, n: nat): (r: TailResult)
    ensures r.success && r.errorMessage == ""
    ensures |r.lines| == Min(n, |input|) && r.lines == input[|input| - |r.lines|..]
  {
    TailResult(true, "", LastNLines(input, n))
  }

  /**
   * tail_file: a file that cannot be opened fails with "Cannot open file: "
   * and the name; otherwise every line is pushed into a buffer whose oldest
   * line is dropped whenever it holds more than n, and the buffer is the result.
   */
  method TailFile(filename: string, file: Option<seq<string>>, n: nat) returns (r: TailResult)
    ensures file.None? ==> r == TailResult(false, "Cannot open file: " + filename, [])
    ensures file.Some? ==> r == TailLines(file.value, n)
  {
    if file.None? {
      return TailResult(false, "Cannot open file: " + filename, []);
    }
    var lines := file.value;
    var buffer: seq<string> := [];
    var i := 0;
    while i < |lines|
      invariant 0 <= i <= |lines|
      invariant |buffer| == Min(n, i)
      invariant buffer == lines[i - |buffer|..i]
    {
      assert lines[i - |buffer|..i] + [lines[i]] == lines[i - |buffer|..i + 1];
      buffer := buffer + [lines[i]];
      if |buffer| > n {
        buffer := buffer[1..];
      }
      i := i + 1;
    }
    r := TailResult(true, "", buffer);
  }
}
