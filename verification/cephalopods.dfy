/**
 * cephalopods: homework written in columns. Every line but the last holds
 * numbers and the last line holds one operator, '+' or '*', per problem.
 *
 * In the naive reading the numbers of a line are separated by white space
 * and problem i adds or multiplies column i of the number rows. In the true
 * reading every character is a cell (its digit, or 0 for anything else); a
 * problem spans the columns from its operator up to the column before the
 * next operator, and each column is one number whose digits are read top to
 * bottom, blank cells (and '0' digits, which read as 0 too) being skipped.
 */
module Cephalopods {
  import opened Wrappers
  import opened Strings

  datatype HomeworkType = True | Naive

  datatype Operator = Add | Multiply

  /** An operator and the index of its character in the operator line. */
  datatype Positioned = Positioned(op: Operator, position: nat)

  function OperatorChar(op: Operator): char
  {
    match op
    case Add => '+'
    case Multiply => '*'
  }

  /** The operator a character stands for: '+' and '*', nothing else. */
  function CharOperator(c: char): (r: Option<Operator>)
    ensures r.Some? <==> c == '+' || c == '*'
    ensures r.Some? ==> OperatorChar(r.value) == c
  {
    if c == '+' then Some(Add) else if c == '*' then Some(Multiply) else None
  }

  // ---------------------------------------------------------------------------
  // Sums and products (std::accumulate from 0 and from 1)

  function Sum(xs: seq<int>): int
  {
    if |xs| == 0 then 0 else Sum(xs[..|xs| - 1]) + xs[|xs| - 1]
  }

  function Product(xs: seq<int>): int
  {
    if |xs| == 0 then 1 else Product(xs[..|xs| - 1]) * xs[|xs| - 1]
  }

  /** A product is 0 exactly when one of its factors is. */
  lemma {:induction false} ProductZero(xs: seq<int>)
    ensures Product(xs) == 0 <==> 0 in xs
  {
    if |xs| > 0 {
      var init := xs[..|xs| - 1];
      ProductZero(init);
      assert xs == init + [xs[|xs| - 1]];
    }
  }

  // ---------------------------------------------------------------------------
  // The naive reading: streams of numbers and of operators

  /**
   * A stream extraction that, when it succeeds, leaves a strictly shorter
   * unread rest of the line.
   */
  ghost predicate Shrinks<T>(read: string -> Option<(T, string)>)
  {
    forall s :: read(s).Some? ==> |read(s).value.1| < |s|
  }

  /** The values read one after another from a line until an extraction fails. */
  function ReadAll<T>(line: string, read: string -> Option<(T, string)>): seq<T>
    requires Shrinks(read)
    decreases |line|
  {
    var next := read(line);
    if next.None? then [] else [next.value.0] + ReadAll(next.value.1, read)
  }

  /** The `while (iss >> x) result.emplace_back(x);` loop of both line parsers. */
  method ReadLoop<T>(line: string, read: string -> Option<(T, string)>) returns (result: seq<T>)
    requires Shrinks(read)
    ensures result == ReadAll(line, read)
  {
    result := [];
    var rest := line;
    while true
      invariant result + ReadAll(rest, read) == ReadAll(line, read)
      decreases |rest|
    {
      var next := read(rest);
      if next.None? {
        return;
      }
      result := result + [next.value.0];
      rest := next.value.1;
    }
  }

  /**
   * One `>> long long` extraction: white space is skipped, then an optional
   * sign and at least one digit are read. None when no number starts there
   * (the stream fails); otherwise the value and the unread rest of the line.
   */
  function ReadNumber(s: string): (r: Option<(int, string)>)
    ensures r.Some? ==> |r.value.1| < |s|
  {
    ReadSigned(DropSpaces(s))
  }

  /** The number at the very start of `t`: an optional sign, then digits. */
  function ReadSigned(t: string): (r: Option<(int, string)>)
    ensures r.Some? ==> |r.value.1| < |t|
  {
    if |t| > 0 && (t[0] == '-' || t[0] == '+') then ReadDigits(t[0] == '-', t[1..])
    else ReadDigits(false, t)
  }

  /** The digits at the very start of `u`, negated when a minus sign came before them. */
  function ReadDigits(negative: bool, u: string): (r: Option<(int, string)>)
    ensures r.Some? ==> |r.value.1| < |u|
  {
    var digits := LeadingDigits(u);
    if |digits| == 0 then None
    else Some((SignedValue(negative, digits), u[|digits|..]))
  }

  function IntsFromLine(line: string): seq<int>
  {
    ReadAll(line, ReadNumber)
  }

  /** get_ints_from_line: every number of the line up to the first extraction that fails. */
  method GetIntsFromLine(line: string) returns (result: seq<int>)
    ensures result == IntsFromLine(line)
  {
    result := ReadLoop(line, ReadNumber);
  }

  /** The decimal renderings of the numbers. */
  function IntStrings(xs: seq<int>): seq<string>
  {
    seq(|xs|, k requires 0 <= k < |xs| => IntToString(xs[k]))
  }

  /** Digits followed by anything but a digit are read whole. */
  lemma ReadDigitsOf(negative: bool, ds: string, rest: string)
    requires |ds| > 0 && AllDigits(ds)
    requires |rest| > 0 ==> !IsDigit(rest[0])
    ensures ReadDigits(negative, ds + rest) == Some((SignedValue(negative, ds), rest))
  {
    LeadingDigitsOfDigits(ds, rest);
    assert (ds + rest)[|ds|..] == rest;
  }

  /** A number written in decimal and followed by anything but a digit is read back whole. */
  lemma ReadNumberOfInt(x: int, rest: string)
    requires |rest| > 0 ==> !IsDigit(rest[0])
    ensures ReadNumber(IntToString(x) + rest) == Some((x, rest))
  {
    var s := IntToString(x) + rest;
    DropSpacesNoSpace(s);
    if x < 0 {
      var ds := NatToString(-x);
      assert s == "-" + (ds + rest);
      assert s[1..] == ds + rest;
      ReadDigitsOf(true, ds, rest);
    } else {
      var ds := NatToString(x);
      assert s == ds + rest;
      ReadDigitsOf(false, ds, rest);
    }
  }

  /** A leading space does not change what the next extraction reads. */
  lemma ReadNumberAfterSpace(w: string)
    ensures ReadNumber(" " + w) == ReadNumber(w)
  {
    assert (" " + w)[1..] == w;
    assert DropSpaces(" " + w) == DropSpaces(w);
  }

  /** Reading from a line that starts with a value that `read` accepts. */
  lemma ReadAllStep<T>(line: string, read: string -> Option<(T, string)>, v: T, rest: string)
    requires Shrinks(read) && read(line) == Some((v, rest))
    ensures ReadAll(line, read) == [v] + ReadAll(rest, read)
  {
  }

  /** Two lines on which the first extraction agrees are read alike. */
  lemma ReadAllSame<T>(a: string, b: string, read: string -> Option<(T, string)>)
    requires Shrinks(read) && read(a) == read(b)
    ensures ReadAll(a, read) == ReadAll(b, read)
  {
  }

  /**
   * `read` takes nothing from `rest`, skips a leading space, and reads each
   * rendering in `parts` back as the matching value in `vs`, whole, before
   * `rest` or before a space.
   */
  ghost predicate ReadsBack<T>(read: string -> Option<(T, string)>, parts: seq<string>, vs: seq<T>, rest: string)
  {
    && Shrinks(read) && |parts| == |vs| && read(rest).None?
    && (forall k, after {:trigger read(parts[k] + after)} | 0 <= k < |parts| && (after == rest || (|after| > 0 && after[0] == ' ')) ::
          read(parts[k] + after) == Some((vs[k], after)))
    && (forall w :: read(" " + w) == read(w))
  }

  /**
   * Values written with single spaces between them, and followed by `rest`,
   * are read back one by one when each rendering is read back whole before
   * `rest` or a space, a leading space is skipped, and nothing is read from
   * `rest`.
   */
  lemma {:induction false} ReadAllOfJoined<T>(read: string -> Option<(T, string)>, parts: seq<string>, vs: seq<T>, rest: string)
    requires ReadsBack(read, parts, vs, rest)
    ensures ReadAll(Join(parts, " ") + rest, read) == vs
  {
    SpacedIsJoin(parts, rest, 0);
    ReadAllOfSpaced(read, parts, vs, rest, 0);
    assert parts[0..] == parts && vs[0..] == vs;
  }

  /** parts[from..] with single spaces between them, then `rest`. */
  function Spaced(parts: seq<string>, rest: string, from: nat): string
    requires from <= |parts|
    decreases |parts| - from
  {
    if from == |parts| then rest
    else if from + 1 == |parts| then parts[from] + rest
    else parts[from] + (" " + Spaced(parts, rest, from + 1))
  }

  lemma {:induction false} SpacedIsJoin(parts: seq<string>, rest: string, from: nat)
    requires from <= |parts|
    ensures Spaced(parts, rest, from) == Join(parts[from..], " ") + rest
    decreases |parts| - from
  {
    if from + 1 < |parts| {
      SpacedIsJoin(parts, rest, from + 1);
      assert parts[from..][1..] == parts[from + 1..];
    } else if from + 1 == |parts| {
      assert parts[from..] == [parts[from]];
    }
  }

  lemma {:induction false} ReadAllOfSpaced<T>(read: string -> Option<(T, string)>, parts: seq<string>, vs: seq<T>, rest: string, from: nat)
    requires ReadsBack(read, parts, vs, rest) && from <= |parts|
    ensures ReadAll(Spaced(parts, rest, from), read) == vs[from..]
    decreases |parts| - from
  {
    if from < |parts| {
      SpacedHead(read, parts, vs, rest, from);
      ReadAllOfSpaced(read, parts, vs, rest, from + 1);
      assert vs[from..] == [vs[from]] + vs[from + 1..];
    }
  }

  /** The first value of parts[from..] is read, and reading goes on with the values after it. */
  lemma SpacedHead<T>(read: string -> Option<(T, string)>, parts: seq<string>, vs: seq<T>, rest: string, from: nat)
    requires ReadsBack(read, parts, vs, rest) && from < |parts|
    ensures ReadAll(Spaced(parts, rest, from), read) == [vs[from]] + ReadAll(Spaced(parts, rest, from + 1), read)
  {
    var after := if from + 1 == |parts| then rest else " " + Spaced(parts, rest, from + 1);
    assert Spaced(parts, rest, from) == parts[from] + after;
    assert read(parts[from] + after) == Some((vs[from], after));
    ReadAllStep(parts[from] + after, read, vs[from], after);
    if from + 1 < |parts| {
      ReadAllSame(after, Spaced(parts, rest, from + 1), read);
    }
  }

  lemma NoTrailer(line: string)
    ensures line + "" == line
  {
  }

  /** Each decimal rendering is read back whole by one number extraction. */
  lemma NumbersReadBack(xs: seq<int>)
    ensures ReadsBack(ReadNumber, IntStrings(xs), xs, "")
  {
    var parts := IntStrings(xs);
    var read: string -> Option<(int, string)> := ReadNumber;
    forall k, after {:trigger read(parts[k] + after)} | 0 <= k < |parts| && (after == "" || (|after| > 0 && after[0] == ' '))
      ensures read(parts[k] + after) == Some((xs[k], after))
    {
      ReadNumberOfInt(xs[k], after);
    }
    forall w
      ensures read(" " + w) == read(w)
    {
      ReadNumberAfterSpace(w);
    }
    assert read("").None?;
  }

  /** Numbers written with single spaces between them are read back by get_ints_from_line. */
  lemma IntsFromLineRoundTrip(xs: seq<int>)
    ensures IntsFromLine(Join(IntStrings(xs), " ")) == xs
  {
    NoTrailer(Join(IntStrings(xs), " "));
    NumbersReadBack(xs);
    ReadAllOfJoined(ReadNumber, IntStrings(xs), xs, "");
  }

  /**
   * One `>> HomeworkOperator` extraction: white space is skipped and one
   * character is read, which must be '+' or '*'; anything else, or the end
   * of the line, fails the stream.
   */
  function ReadOperator(s: string): (r: Option<(Operator, string)>)
    ensures r.Some? ==> |r.value.1| < |s|
  {
    var t := DropSpaces(s);
    if |t| == 0 then None
    else
      match CharOperator(t[0])
      case None => None
      case Some(op) => Some((op, t[1..]))
  }

  function OperatorsFromLine(line: string): seq<Operator>
  {
    ReadAll(line, ReadOperator)
  }

  /** get_operators_from_line: every operator of the line up to the first extraction that fails. */
  method GetOperatorsFromLine(line: string) returns (result: seq<Operator>)
    ensures result == OperatorsFromLine(line)
  {
    result := ReadLoop(line, ReadOperator);
  }

  /** The operator characters, one string each. */
  function OperatorStrings(ops: seq<Operator>): seq<string>
  {
    seq(|ops|, k requires 0 <= k < |ops| => [OperatorChar(ops[k])])
  }

  /** A leading space does not change what the next operator extraction reads. */
  lemma ReadOperatorAfterSpace(w: string)
    ensures ReadOperator(" " + w) == ReadOperator(w)
  {
    assert (" " + w)[1..] == w;
    assert DropSpaces(" " + w) == DropSpaces(w);
  }

  /** An operator character, followed by anything, is read as that operator. */
  lemma ReadOperatorOf(op: Operator, after: string)
    ensures ReadOperator([OperatorChar(op)] + after) == Some((op, after))
  {
    var c := OperatorChar(op);
    assert CharOperator(c) == Some(op) by {
      match op
      case Add =>
      case Multiply =>
    }
    var s := [c] + after;
    assert !IsSpace(s[0]);
    DropSpacesNoSpace(s);
    assert s[1..] == after;
  }

  /**
   * Operators written with single spaces between them are read back by
   * get_operators_from_line, and reading stops there when what follows does
   * not start (after white space) with another operator.
   */
  lemma OperatorsFromLineRoundTrip(ops: seq<Operator>, rest: string)
    requires ReadOperator(rest).None?
    ensures OperatorsFromLine(Join(OperatorStrings(ops), " ") + rest) == ops
  {
    OperatorsReadBack(ops, rest);
    ReadAllOfJoined(ReadOperator, OperatorStrings(ops), ops, rest);
  }

  /** Each operator character is read back by one operator extraction. */
  lemma OperatorsReadBack(ops: seq<Operator>, rest: string)
    requires ReadOperator(rest).None?
    ensures ReadsBack(ReadOperator, OperatorStrings(ops), ops, rest)
  {
    var parts := OperatorStrings(ops);
    var read: string -> Option<(Operator, string)> := ReadOperator;
    forall k, after {:trigger read(parts[k] + after)} | 0 <= k < |parts| && (after == rest || (|after| > 0 && after[0] == ' '))
      ensures read(parts[k] + after) == Some((ops[k], after))
    {
      ReadOperatorOf(ops[k], after);
    }
    forall w
      ensures read(" " + w) == read(w)
    {
      ReadOperatorAfterSpace(w);
    }
  }

  // ---------------------------------------------------------------------------
  // The true reading: operators with their positions, cells of digits

  /** Every '+' and '*' of line[from..] with its index in the line, left to right. */
  function PositionsFrom(line: string, from: nat): seq<Positioned>
    requires from <= |line|
    decreases |line| - from
  {
    if from == |line| then []
    else
      var here := match CharOperator(line[from])
        case None => []
        case Some(op) => [Positioned(op, from)];
      here + PositionsFrom(line, from + 1)
  }

  /** Each entry of `r` is a '+' or '*' of line[from..] at its position. */
  predicate PointsAtOperators(line: string, from: nat, r: seq<Positioned>)
  {
    forall k :: 0 <= k < |r| ==>
      from <= r[k].position < |line| && CharOperator(line[r[k].position]) == Some(r[k].op)
  }

  /** The positions in `r` strictly increase. */
  predicate Increasing(r: seq<Positioned>)
  {
    forall j, k :: 0 <= j < k < |r| ==> r[j].position < r[k].position
  }

  /** Every '+' and '*' of line[from..] is in `r` with its position. */
  predicate ListsEveryOperator(line: string, from: nat, r: seq<Positioned>)
  {
    forall p :: from <= p < |line| && CharOperator(line[p]).Some? ==>
      Positioned(CharOperator(line[p]).value, p) in r
  }

  /** The positioned operators point at '+' and '*' characters of the line, in strictly increasing order. */
  lemma {:induction false} PositionsFromSound(line: string, from: nat)
    requires from <= |line|
    ensures PointsAtOperators(line, from, PositionsFrom(line, from))
    ensures Increasing(PositionsFrom(line, from))
    decreases |line| - from
  {
    if from < |line| {
      PositionsFromSound(line, from + 1);
      var rest := PositionsFrom(line, from + 1);
      var r := PositionsFrom(line, from);
      if CharOperator(line[from]).Some? {
        var here := Positioned(CharOperator(line[from]).value, from);
        assert r == [here] + rest;
        ConsSound(line, from, here, rest);
      } else {
        assert r == rest;
      }
    }
  }

  /** An operator at `from` put in front of sound positions after it keeps them sound. */
  lemma ConsSound(line: string, from: nat, here: Positioned, rest: seq<Positioned>)
    requires from < |line| && here.position == from && CharOperator(line[from]) == Some(here.op)
    requires PointsAtOperators(line, from + 1, rest) && Increasing(rest)
    ensures PointsAtOperators(line, from, [here] + rest) && Increasing([here] + rest)
  {
    var r := [here] + rest;
    forall k | 0 < k < |r|
      ensures r[k] == rest[k - 1] && from < r[k].position
    {
    }
    forall j, k | 0 <= j < k < |r|
      ensures r[j].position < r[k].position
    {
      if j > 0 {
        assert r[j] == rest[j - 1];
      }
    }
  }

  /** Every '+' and '*' character of the line is listed with its position. */
  lemma {:induction false} PositionsFromComplete(line: string, from: nat)
    requires from <= |line|
    ensures ListsEveryOperator(line, from, PositionsFrom(line, from))
    decreases |line| - from
  {
    if from < |line| {
      PositionsFromComplete(line, from + 1);
      var rest := PositionsFrom(line, from + 1);
      var r := PositionsFrom(line, from);
      if CharOperator(line[from]).Some? {
        assert r == [Positioned(CharOperator(line[from]).value, from)] + rest;
      } else {
        assert r == rest;
      }
    }
  }

  function OperatorPositions(line: string): seq<Positioned>
  {
    PositionsFrom(line, 0)
  }

  /**
   * get_operators_with_positions: `iss >> c` skips white space and reads one
   * character; a '+' or '*' is recorded at tellg() - 1, the index of the
   * character just read, and any other character is passed over.
   */
  method GetOperatorsWithPositions(line: string) returns (result: seq<Positioned>)
    ensures result == OperatorPositions(line)
  {
    result := [];
    var i := 0;
    while true
      invariant i <= |line|
      invariant result + PositionsFrom(line, i) == OperatorPositions(line)
      decreases |line| - i
    {
      while i < |line| && IsSpace(line[i])
        invariant i <= |line|
        invariant result + PositionsFrom(line, i) == OperatorPositions(line)
      {
        PositionsFromSkip(line, i);
        i := i + 1;
      }
      if i == |line| {
        return;
      }
      var c := line[i];
      i := i + 1;
      match CharOperator(c) {
        case None =>
          PositionsFromSkip(line, i - 1);
        case Some(op) =>
          PositionsFromHit(line, i - 1, op);
          result := result + [Positioned(op, i - 1)];
      }
    }
  }

  lemma PositionsFromSkip(line: string, i: nat)
    requires i < |line| && CharOperator(line[i]).None?
    ensures PositionsFrom(line, i) == PositionsFrom(line, i + 1)
  {
  }

  lemma PositionsFromHit(line: string, i: nat, op: Operator)
    requires i < |line| && CharOperator(line[i]) == Some(op)
    ensures PositionsFrom(line, i) == [Positioned(op, i)] + PositionsFrom(line, i + 1)
  {
  }

  /** The cell value of a character: std::stoi of it for a digit, 0 for anything else. */
  function CellValue(c: char): (v: int)
    ensures 0 <= v <= 9
    ensures v != 0 <==> IsDigit(c) && c != '0'
    ensures v != 0 ==> v == DigitValue(c)
  {
    match ReadChar(c)
    case None => 0
    case Some(d) => d
  }

  function RowTrue(line: string): seq<int>
  {
    seq(|line|, k requires 0 <= k < |line| => CellValue(line[k]))
  }

  /** get_ints_from_line_true: one entry per character, its digit or 0. */
  method GetIntsFromLineTrue(line: string) returns (result: seq<int>)
    ensures |result| == |line|
    ensures forall k :: 0 <= k < |line| ==> result[k] == (if IsDigit(line[k]) then DigitValue(line[k]) else 0)
    ensures result == RowTrue(line)
  {
    result := [];
    for k := 0 to |line|
      invariant result == RowTrue(line[..k])
    {
      assert line[..k + 1][..k] == line[..k];
      result := result + [CellValue(line[k])];
    }
    assert line[..|line|] == line;
  }

  /** The rows of the true reading: every line but the last. */
  function TrueRows(lines: seq<string>): seq<seq<int>>
    requires |lines| > 0
  {
    seq(|lines| - 1, r requires 0 <= r < |lines| - 1 => RowTrue(lines[r]))
  }

  /** get_inputs_true: the loop over every line but the last (which the source requires to exist). */
  method GetInputsTrue(lines: seq<string>) returns (result: seq<seq<int>>)
    requires |lines| > 0
    ensures result == TrueRows(lines)
  {
    result := [];
    var i := 0;
    while i < |lines| - 1
      invariant i <= |lines| - 1
      invariant |result| == i && forall r :: 0 <= r < i ==> result[r] == RowTrue(lines[r])
    {
      var row := GetIntsFromLineTrue(lines[i]);
      result := result + [row];
      i := i + 1;
    }
  }

  /** The rows of the naive reading: every line but the last. */
  function NaiveRows(lines: seq<string>): seq<seq<int>>
    requires |lines| > 0
  {
    seq(|lines| - 1, r requires 0 <= r < |lines| - 1 => IntsFromLine(lines[r]))
  }

  /**
   * A grid of numbers written row by row with single spaces, followed by the
   * operators written the same way, is read back by the naive reading.
   */
  lemma NaiveReadsRendered(grid: seq<seq<int>>, ops: seq<Operator>)
    ensures var lines := seq(|grid|, r requires 0 <= r < |grid| => Join(IntStrings(grid[r]), " "))
                         + [Join(OperatorStrings(ops), " ")];
            NaiveRows(lines) == grid && OperatorsFromLine(lines[|lines| - 1]) == ops
  {
    var lines := seq(|grid|, r requires 0 <= r < |grid| => Join(IntStrings(grid[r]), " "))
                 + [Join(OperatorStrings(ops), " ")];
    forall r | 0 <= r < |grid|
      ensures NaiveRows(lines)[r] == grid[r]
    {
      IntsFromLineRoundTrip(grid[r]);
    }
    assert ReadOperator("") == None;
    OperatorsFromLineRoundTrip(ops, "");
    assert Join(OperatorStrings(ops), " ") + "" == Join(OperatorStrings(ops), " ");
  }

  // ---------------------------------------------------------------------------
  // Columns

  /** Every row has at least `end` entries, so columns below `end` can be read. */
  predicate ColumnsBelow(inputs: seq<seq<int>>, end: int)
  {
    forall r :: 0 <= r < |inputs| ==> end <= |inputs[r]|
  }

  lemma ColumnsBelowMonotone(inputs: seq<seq<int>>, end: int, end': int)
    requires ColumnsBelow(inputs, end) && end' <= end
    ensures ColumnsBelow(inputs, end')
  {
  }

  /** AddColumn: the entries of the column summed row by row from 0. */
  function AddColumn(inputs: seq<seq<int>>, column: nat): int
    requires ColumnsBelow(inputs, column + 1)
  {
    if |inputs| == 0 then 0
    else AddColumn(inputs[..|inputs| - 1], column) + inputs[|inputs| - 1][column]
  }

  /** MultiplyColumn: the entries of the column multiplied row by row from 1. */
  function MultiplyColumn(inputs: seq<seq<int>>, column: nat): int
    requires ColumnsBelow(inputs, column + 1)
  {
    if |inputs| == 0 then 1
    else MultiplyColumn(inputs[..|inputs| - 1], column) * inputs[|inputs| - 1][column]
  }

  /** The entries of one column, top to bottom. */
  function Column(inputs: seq<seq<int>>, column: nat): (col: seq<int>)
    requires ColumnsBelow(inputs, column + 1)
  {
    seq(|inputs|, r requires 0 <= r < |inputs| && ColumnsBelow(inputs, column + 1) => inputs[r][column])
  }

  /**
   * AddColumn and MultiplyColumn are the sum and the product of the column,
   * so a Multiply problem is 0 exactly when one of its entries is.
   */
  lemma {:induction false} ColumnFolds(inputs: seq<seq<int>>, column: nat)
    requires ColumnsBelow(inputs, column + 1)
    ensures AddColumn(inputs, column) == Sum(Column(inputs, column))
    ensures MultiplyColumn(inputs, column) == Product(Column(inputs, column))
    ensures MultiplyColumn(inputs, column) == 0 <==> 0 in Column(inputs, column)
  {
    if |inputs| > 0 {
      var init := inputs[..|inputs| - 1];
      ColumnFolds(init, column);
      assert Column(inputs, column)[..|inputs| - 1] == Column(init, column);
    }
    ProductZero(Column(inputs, column));
  }

  /** The number whose decimal digits, most significant first, are `ds`. */
  function StackedValue(ds: seq<int>): int
  {
    if |ds| == 0 then 0 else StackedValue(ds[..|ds| - 1]) * 10 + ds[|ds| - 1]
  }

  function Pow10(n: nat): nat
  {
    if n == 0 then 1 else 10 * Pow10(n - 1)
  }

  /** The non-zero entries of a column, top to bottom. */
  function NonZeroColumn(inputs: seq<seq<int>>, column: nat): seq<int>
    requires ColumnsBelow(inputs, column + 1)
  {
    if |inputs| == 0 then []
    else
      var v := inputs[|inputs| - 1][column];
      NonZeroColumn(inputs[..|inputs| - 1], column) + (if v != 0 then [v] else [])
  }

  /** The number a column stands for in the true reading. */
  function ColumnValue(inputs: seq<seq<int>>, column: nat): int
    requires ColumnsBelow(inputs, column + 1)
  {
    StackedValue(NonZeroColumn(inputs, column))
  }

  /** Popping the bottom-most remaining digit, worth `p`, moves it into the result. */
  lemma PopDigit(ds: seq<int>, i: nat)
    requires |ds| > 0
    ensures StackedValue(ds) * Pow10(i) == StackedValue(ds[..|ds| - 1]) * Pow10(i + 1) + ds[|ds| - 1] * Pow10(i)
  {
    var front := StackedValue(ds[..|ds| - 1]);
    var last := ds[|ds| - 1];
    var p := Pow10(i);
    calc {
      StackedValue(ds) * p;
      (front * 10 + last) * p;
      front * (p * 10) + last * p;
    }
    assert Pow10(i + 1) == p * 10;
  }

  /** The values of a string of digits, one per character. */
  function DigitValues(s: string): (vs: seq<int>)
    requires AllDigits(s)
    ensures |vs| == |s| && forall k :: 0 <= k < |s| ==> vs[k] == DigitValue(s[k])
  {
    if |s| == 0 then [] else DigitValues(s[..|s| - 1]) + [DigitValue(s[|s| - 1])]
  }

  /** Stacking the digits of a decimal string gives its value. */
  lemma {:induction false} StackedDigits(s: string)
    requires AllDigits(s)
    ensures StackedValue(DigitValues(s)) == DecimalValue(s)
  {
    if |s| > 0 {
      var init := s[..|s| - 1];
      StackedDigits(init);
      assert DigitValues(s)[..|s| - 1] == DigitValues(init);
    }
  }

  /** The characters in column c of the lines that are digits other than '0', top to bottom. */
  function ColumnDigits(ls: seq<string>, c: nat): (ds: string)
    requires forall r :: 0 <= r < |ls| ==> c < |ls[r]|
    ensures AllDigits(ds) && '0' !in ds
  {
    if |ls| == 0 then ""
    else
      var ch := ls[|ls| - 1][c];
      ColumnDigits(ls[..|ls| - 1], c) + (if IsDigit(ch) && ch != '0' then [ch] else "")
  }

  lemma {:induction false} NonZeroColumnOfRows(rows: seq<seq<int>>, ls: seq<string>, c: nat)
    requires |rows| == |ls|
    requires forall r :: 0 <= r < |ls| ==> c < |ls[r]| && rows[r] == RowTrue(ls[r])
    ensures ColumnsBelow(rows, c + 1) && NonZeroColumn(rows, c) == DigitValues(ColumnDigits(ls, c))
  {
    if |ls| > 0 {
      var n := |ls| - 1;
      NonZeroColumnOfRows(rows[..n], ls[..n], c);
      var ch := ls[n][c];
      assert rows[n][c] == CellValue(ch);
      var front := ColumnDigits(ls[..n], c);
      var ds := ColumnDigits(ls, c);
      if IsDigit(ch) && ch != '0' {
        assert ds == front + [ch];
        assert ds[..|ds| - 1] == front;
      } else {
        assert ds == front;
      }
    }
  }

  /**
   * In the true reading a column is the decimal number formed by its digits
   * other than '0', read top to bottom; blank cells are skipped.
   */
  lemma ColumnIsDecimal(lines: seq<string>, c: nat)
    requires |lines| > 0 && forall r :: 0 <= r < |lines| - 1 ==> c < |lines[r]|
    ensures ColumnsBelow(TrueRows(lines), c + 1)
    ensures ColumnValue(TrueRows(lines), c) == DecimalValue(ColumnDigits(lines[..|lines| - 1], c))
  {
    var ls := lines[..|lines| - 1];
    NonZeroColumnOfRows(TrueRows(lines), ls, c);
    StackedDigits(ColumnDigits(ls, c));
  }

  /** Column 0 of the example homework: 1, 4 and 6 read top to bottom. */
  lemma ColumnExample()
    ensures ColumnValue([[1, 2, 3], [4, 5, 0], [6, 0, 0]], 0) == 146
    ensures ColumnValue([[1, 2, 3], [4, 5, 0], [6, 0, 0]], 2) == 3
  {
    var rows: seq<seq<int>> := [[1, 2, 3], [4, 5, 0], [6, 0, 0]];
    var none: seq<int> := [];
    assert rows[..2] == [[1, 2, 3], [4, 5, 0]];
    assert rows[..2][..1] == [[1, 2, 3]];
    assert rows[..2][..1][..0] == [];
    assert NonZeroColumn(rows[..2][..1], 0) == [1];
    assert NonZeroColumn(rows[..2], 0) == [1, 4];
    assert NonZeroColumn(rows, 0) == [1, 4, 6];
    assert NonZeroColumn(rows[..2][..1], 2) == [3];
    assert NonZeroColumn(rows[..2], 2) == [3];
    assert NonZeroColumn(rows, 2) == [3];
    assert [1, 4, 6][..2] == [1, 4] && [1, 4][..1] == [1] && [1][..0] == none;
    assert [3][..0] == none;
  }

  // ---------------------------------------------------------------------------
  // Problems

  /** Every row has an entry for every operator of the naive reading. */
  predicate NaiveWellFormed(inputs: seq<seq<int>>, ops: seq<Operator>)
  {
    ColumnsBelow(inputs, |ops|)
  }

  /** The answer to naive problem `column`. */
  function NaiveProblem(inputs: seq<seq<int>>, op: Operator, column: nat): int
    requires ColumnsBelow(inputs, column + 1)
  {
    match op
    case Add => AddColumn(inputs, column)
    case Multiply => MultiplyColumn(inputs, column)
  }

  /** The answers to the first n naive problems, added up. */
  function SolveNaive(inputs: seq<seq<int>>, ops: seq<Operator>, n: nat): int
    requires n <= |ops| && NaiveWellFormed(inputs, ops)
  {
    if n == 0 then 0 else SolveNaive(inputs, ops, n - 1) + NaiveProblem(inputs, ops[n - 1], n - 1)
  }

  /** On two rows a column's sum and product are those of its two entries. */
  lemma ColumnOfTwoRows(rows: seq<seq<int>>, column: nat)
    requires |rows| == 2 && ColumnsBelow(rows, column + 1)
    ensures AddColumn(rows, column) == rows[0][column] + rows[1][column]
    ensures MultiplyColumn(rows, column) == rows[0][column] * rows[1][column]
  {
    var first := rows[..1];
    assert first[..0] == [] && first[0] == rows[0];
    assert AddColumn(first, column) == rows[0][column];
    assert MultiplyColumn(first, column) == rows[0][column];
  }

  /** Three naive problems add up to the sum of their three answers. */
  lemma SolveNaiveOfThree(inputs: seq<seq<int>>, ops: seq<Operator>)
    requires |ops| == 3 && NaiveWellFormed(inputs, ops)
    ensures SolveNaive(inputs, ops, 3) ==
      NaiveProblem(inputs, ops[0], 0) + NaiveProblem(inputs, ops[1], 1) + NaiveProblem(inputs, ops[2], 2)
  {
    assert SolveNaive(inputs, ops, 1) == NaiveProblem(inputs, ops[0], 0);
  }

  /** The two small naive examples: column sums 5, 7 and 9, column products 4, 10 and 18. */
  lemma NaiveExamples()
    ensures SolveNaive([[1, 2, 3], [4, 5, 6]], [Add, Add, Add], 3) == 21
    ensures SolveNaive([[1, 2, 3], [4, 5, 6]], [Multiply, Multiply, Multiply], 3) == 32
  {
    var rows: seq<seq<int>> := [[1, 2, 3], [4, 5, 6]];
    ColumnOfTwoRows(rows, 0);
    ColumnOfTwoRows(rows, 1);
    ColumnOfTwoRows(rows, 2);
    SolveNaiveOfThree(rows, [Add, Add, Add]);
    SolveNaiveOfThree(rows, [Multiply, Multiply, Multiply]);
  }

  /** The columns a problem of the true reading spans, from `position` on. */
  function ProblemInputs(inputs: seq<seq<int>>, position: nat, width: int): seq<int>
    requires width <= 0 || ColumnsBelow(inputs, position + width)
  {
    seq(if width > 0 then width else 0,
        j requires 0 <= j < width && ColumnsBelow(inputs, position + width) => ColumnValue(inputs, position + j))
  }

  /**
   * The number of columns problem k spans: up to the column before the next
   * operator, or for the last operator up to the end of the first row. The
   * source computes the last one in size_t; for every position it can hold
   * the value passed on as an int is the one computed here.
   */
  function ProblemWidth(inputs: seq<seq<int>>, ows: seq<Positioned>, k: nat): int
    requires k < |ows| && |inputs| > 0
  {
    var position := ows[k].position;
    var width := if k + 1 < |ows| then ows[k + 1].position - position else |inputs[0]| - position + 1;
    width - 1
  }

  /** Every column that a problem spans exists in every row. */
  predicate TrueWellFormed(inputs: seq<seq<int>>, ows: seq<Positioned>)
  {
    (|ows| > 0 ==> |inputs| > 0) &&
    forall k :: 0 <= k < |ows| ==>
      ProblemWidth(inputs, ows, k) <= 0 || ColumnsBelow(inputs, ows[k].position + ProblemWidth(inputs, ows, k))
  }

  /** The answer to problem k of the true reading: the sum or the product of its column values. */
  function TrueProblem(inputs: seq<seq<int>>, ows: seq<Positioned>, k: nat): int
    requires k < |ows| && TrueWellFormed(inputs, ows)
  {
    var problem := ProblemInputs(inputs, ows[k].position, ProblemWidth(inputs, ows, k));
    match ows[k].op
    case Add => Sum(problem)
    case Multiply => Product(problem)
  }

  /** The answers to the first n problems of the true reading, added up. */
  function SolveTrueSpec(inputs: seq<seq<int>>, ows: seq<Positioned>, n: nat): int
    requires n <= |ows| && TrueWellFormed(inputs, ows)
  {
    if n == 0 then 0 else SolveTrueSpec(inputs, ows, n - 1) + TrueProblem(inputs, ows, n - 1)
  }

  /**
   * Homework whose lines all have the same length, with at least one line
   * of numbers, can be solved in the true reading: every problem ends before
   * the next operator and the last one at the end of the rows.
   */
  lemma RectangularIsWellFormed(lines: seq<string>)
    requires |lines| >= 2 && forall r :: 0 <= r < |lines| ==> |lines[r]| == |lines[0]|
    ensures TrueWellFormed(TrueRows(lines), OperatorPositions(lines[|lines| - 1]))
  {
    var inputs := TrueRows(lines);
    var ows := OperatorPositions(lines[|lines| - 1]);
    PositionsFromSound(lines[|lines| - 1], 0);
    assert ows == PositionsFrom(lines[|lines| - 1], 0);
    assert |inputs[0]| == |lines[0]|;
    forall k | 0 <= k < |ows|
      ensures ProblemWidth(inputs, ows, k) <= 0 || ColumnsBelow(inputs, ows[k].position + ProblemWidth(inputs, ows, k))
    {
      forall r | 0 <= r < |inputs|
        ensures ows[k].position + ProblemWidth(inputs, ows, k) <= |inputs[r]|
      {
        assert |inputs[r]| == |lines[r]| == |lines[0]|;
        if k + 1 < |ows| {
          assert ows[k + 1].position < |lines[|lines| - 1]|;
        }
      }
    }
  }

  // ---------------------------------------------------------------------------
  // The homework object

  class Homework {
    var inputs: seq<seq<int>>
    var operators: seq<Operator>
    var operatorsWithPositions: seq<Positioned>

    /**
     * The constructor: the true reading fills the cells and the positioned
     * operators, the naive reading the numbers and the operators. The source
     * reads the last line, so it must exist.
     */
    constructor(lines: seq<string>, kind: HomeworkType)
      requires |lines| > 0
      ensures kind == True ==>
                inputs == TrueRows(lines) && operators == [] &&
                operatorsWithPositions == OperatorPositions(lines[|lines| - 1])
      ensures kind == Naive ==>
                inputs == NaiveRows(lines) && operatorsWithPositions == [] &&
                operators == OperatorsFromLine(lines[|lines| - 1])
    {
      match kind {
        case True =>
          var positioned := GetOperatorsWithPositions(lines[|lines| - 1]);
          var rows := GetInputsTrue(lines);
          inputs := rows;
          operators := [];
          operatorsWithPositions := positioned;
        case Naive =>
          var rows := [];
          var i := 0;
          while i < |lines| - 1
            invariant i <= |lines| - 1
            invariant |rows| == i && forall r :: 0 <= r < i ==> rows[r] == IntsFromLine(lines[r])
          {
            var row := GetIntsFromLine(lines[i]);
            rows := rows + [row];
            i := i + 1;
          }
          var ops := GetOperatorsFromLine(lines[|lines| - 1]);
          inputs := rows;
          operators := ops;
          operatorsWithPositions := [];
      }
    }

    /** solve: the naive answers of every operator, added up. */
    method Solve() returns (result: int)
      requires NaiveWellFormed(inputs, operators)
      ensures result == SolveNaive(inputs, operators, |operators|)
    {
      result := 0;
      for i := 0 to |operators|
        invariant result == SolveNaive(inputs, operators, i)
      {
        match operators[i] {
          case Add => result := result + AddColumn(inputs, i);
          case Multiply => result := result + MultiplyColumn(inputs, i);
        }
      }
    }

    /**
     * get_column: the non-zero entries of the column are pushed top to
     * bottom, then popped with increasing powers of ten, so the bottom one
     * is the units digit.
     */
    method GetColumn(column: nat) returns (result: int)
      requires ColumnsBelow(inputs, column + 1)
      ensures result == ColumnValue(inputs, column)
    {
      var stack: seq<int> := [];
      for i := 0 to |inputs|
        invariant stack == NonZeroColumn(inputs[..i], column)
      {
        assert inputs[..i + 1][..i] == inputs[..i];
        if inputs[i][column] != 0 {
          stack := stack + [inputs[i][column]];
        }
      }
      assert inputs[..|inputs|] == inputs;
      result := 0;
      var iteration: nat := 0;
      while |stack| > 0
        invariant result + StackedValue(stack) * Pow10(iteration) == ColumnValue(inputs, column)
      {
        PopDigit(stack, iteration);
        result := result + stack[|stack| - 1] * Pow10(iteration);
        stack := stack[..|stack| - 1];
        iteration := iteration + 1;
      }
    }

    /** get_problem_inputs: the values of `width` columns from `position` on. */
    method GetProblemInputs(position: nat, width: int) returns (result: seq<int>)
      requires width <= 0 || ColumnsBelow(inputs, position + width)
      ensures result == ProblemInputs(inputs, position, width)
    {
      result := [];
      var i := position;
      while i < position + width
        invariant position <= i <= position + (if width > 0 then width else 0)
        invariant |result| == i - position
        invariant i > position ==> ColumnsBelow(inputs, i)
        invariant forall j :: 0 <= j < |result| ==> result[j] == ColumnValue(inputs, position + j)
      {
        ColumnsBelowMonotone(inputs, position + width, position + |result| + 1);
        var value := GetColumn(position + |result|);
        result := result + [value];
        i := i + 1;
      }
      assert forall j :: 0 <= j < |result| ==> result[j] == ProblemInputs(inputs, position, width)[j];
    }

    /** solve_true: the answers of every positioned operator, added up. */
    method SolveTrue() returns (result: int)
      requires TrueWellFormed(inputs, operatorsWithPositions)
      ensures result == SolveTrueSpec(inputs, operatorsWithPositions, |operatorsWithPositions|)
    {
      result := 0;
      for i := 0 to |operatorsWithPositions|
        invariant result == SolveTrueSpec(inputs, operatorsWithPositions, i)
      {
        var position := operatorsWithPositions[i].position;
        var width := if i + 1 < |operatorsWithPositions|
                     then operatorsWithPositions[i + 1].position - position
                     else |inputs[0]| - position + 1;
        var problemInputs := GetProblemInputs(position, width - 1);
        match operatorsWithPositions[i].op {
          case Add => result := result + Sum(problemInputs);
          case Multiply => result := result + Product(problemInputs);
        }
      }
    }
  }

  /** do_homework: None for no lines, otherwise the naive answer. */
  method DoHomework(lines: seq<string>) returns (r: Option<int>)
    requires |lines| > 0 ==> NaiveWellFormed(NaiveRows(lines), OperatorsFromLine(lines[|lines| - 1]))
    ensures |lines| == 0 ==> r.None?
    ensures |lines| > 0 ==>
              var ops := OperatorsFromLine(lines[|lines| - 1]);
              r == Some(SolveNaive(NaiveRows(lines), ops, |ops|))
  {
    if |lines| == 0 {
      return None;
    }
    var homework := new Homework(lines, Naive);
    var result := homework.Solve();
    return Some(result);
  }

  /** do_homework_true: None for no lines, otherwise the answer of the true reading. */
  method DoHomeworkTrue(lines: seq<string>) returns (r: Option<int>)
    requires |lines| > 0 ==> TrueWellFormed(TrueRows(lines), OperatorPositions(lines[|lines| - 1]))
    ensures |lines| == 0 ==> r.None?
    ensures |lines| > 0 ==>
              var ows := OperatorPositions(lines[|lines| - 1]);
              r == Some(SolveTrueSpec(TrueRows(lines), ows, |ows|))
  {
    if |lines| == 0 {
      return None;
    }
    var homework := new Homework(lines, True);
    var result := homework.SolveTrue();
    return Some(result);
  }
}
