/**
 * maxjoltage: the largest two-digit number that can be read from a line of
 * digits by picking one digit and then a later one. Each character is read
 * with std::stoi, so a character that is not a digit makes the call fail
 * (std::invalid_argument), modelled as None.
 */
module MaxJoltage {
  import opened Wrappers
  import opened Strings

  /** line_to_vector: one entry per character, the value std::stoi reads from it. */
  function LineToVector(line: string): (r: Option<seq<int>>)
    ensures r.Some? <==> AllDigits(line)
    ensures r.Some? ==> |r.value| == |line| &&
                        forall k :: 0 <= k < |line| ==> r.value[k] == DigitValue(line[k])
  {
    if |line| == 0 then Some([])
    else
      var init := line[..|line| - 1];
      match LineToVector(init)
      case None => None
      case Some(front) =>
        match ReadChar(line[|line| - 1])
        case None => None
        case Some(d) => Some(front + [d])
  }

  /** std::max_element, read through the iterator: the largest entry. */
  function MaxOf(s: seq<int>): (m: int)
    requires |s| > 0
    ensures m in s && forall k :: 0 <= k < |s| ==> s[k] <= m
  {
    if |s| == 1 then s[0]
    else
      var rest := MaxOf(s[1..]);
      if s[0] >= rest then s[0] else rest
  }

  /** std::find: the leftmost index holding `v`. */
  function Find(s: seq<int>, v: int): (i: nat)
    requires v in s
    ensures i < |s| && s[i] == v && v !in s[..i]
  {
    if s[0] == v then 0
    else
      var i := 1 + Find(s[1..], v);
      assert s[..i] == [s[0]] + s[1..][..i - 1];
      i
  }

  /**
   * maximum_joltage_line_width_2: 0 for an empty line, the digit itself for
   * a one-character line, otherwise ten times the largest digit before the
   * last position plus the largest digit after its leftmost occurrence.
   */
  function MaximumJoltage(line: string): (r: Option<int>)
    ensures |line| == 0 ==> r == Some(0)
    ensures |line| > 0 ==> (r.Some? <==> AllDigits(line))
    ensures |line| == 1 && r.Some? ==> r.value == DigitValue(line[0])
  {
    if |line| == 0 then Some(0)
    else if |line| == 1 then
      assert line == [line[0]];
      ReadChar(line[0])
    else
      match LineToVector(line)
      case None => None
      case Some(v) => Some(BestPairOf(v))
  }

  /** The value of the pair of digits at a and then b. */
  function PairValue(line: string, a: nat, b: nat): int
    requires a < b < |line| && AllDigits(line)
  {
    10 * DigitValue(line[a]) + DigitValue(line[b])
  }

  /** The index of the first digit chosen: the leftmost maximum before the last entry. */
  function FirstAt(v: seq<int>): (a: nat)
    requires |v| >= 2
    ensures a < |v| - 1
  {
    var front := v[..|v| - 1];
    Find(front, MaxOf(front))
  }

  /** The index of the second digit chosen: the leftmost maximum after the first. */
  function SecondAt(v: seq<int>): (b: nat)
    requires |v| >= 2
    ensures FirstAt(v) < b < |v|
  {
    var tail := v[FirstAt(v) + 1..];
    FirstAt(v) + 1 + Find(tail, MaxOf(tail))
  }

  /** The search of maximum_joltage_line_width_2 on a vector of at least two entries. */
  function BestPairOf(v: seq<int>): int
    requires |v| >= 2
  {
    var front := v[..|v| - 1];
    var max := MaxOf(front);
    var at := Find(front, max);
    10 * max + MaxOf(v[at + 1..])
  }

  /**
   * On entries from 0 to 9 the search finds the largest 10 * v[a] + v[b]
   * with a before b, and the pair it picks reaches it.
   */
  lemma BestPairOfIsBest(v: seq<int>)
    requires |v| >= 2 && forall k :: 0 <= k < |v| ==> 0 <= v[k] <= 9
    ensures forall a, b :: 0 <= a < b < |v| ==> 10 * v[a] + v[b] <= BestPairOf(v)
    ensures 10 * v[FirstAt(v)] + v[SecondAt(v)] == BestPairOf(v)
  {
    var front := v[..|v| - 1];
    var at := Find(front, MaxOf(front));
    var tail := v[at + 1..];
    forall a, b | 0 <= a < b < |v|
      ensures 10 * v[a] + v[b] <= BestPairOf(v)
    {
      PairBelowBest(v, front, at, tail, a, b);
    }
    assert FirstAt(v) == at;
    var j := Find(tail, MaxOf(tail));
    assert SecondAt(v) == at + 1 + j;
    assert v[at + 1 + j] == tail[j];
  }

  /** One pair against the search: a smaller first digit loses outright, an equal one is at or after the pick. */
  lemma PairBelowBest(v: seq<int>, front: seq<int>, at: nat, tail: seq<int>, a: nat, b: nat)
    requires |v| >= 2 && forall k :: 0 <= k < |v| ==> 0 <= v[k] <= 9
    requires front == v[..|v| - 1] && at == Find(front, MaxOf(front)) && tail == v[at + 1..]
    requires a < b < |v|
    ensures 10 * v[a] + v[b] <= BestPairOf(v)
  {
    var max := MaxOf(front);
    assert v[a] == front[a] <= max;
    assert 0 <= tail[0] <= MaxOf(tail);
    if v[a] == max {
      assert tail[b - at - 1] == v[b];
    }
  }

  /** On a line of at least two digits the search runs on its vector of digits. */
  lemma MaximumJoltageLong(line: string)
    requires |line| >= 2 && AllDigits(line)
    ensures LineToVector(line).Some? && |LineToVector(line).value| == |line|
    ensures MaximumJoltage(line) == Some(BestPairOf(LineToVector(line).value))
  {
  }

  /** The search on the digits of a line, read as pairs of the line's digits. */
  lemma PairsOfDigits(line: string, v: seq<int>)
    requires |line| >= 2 && AllDigits(line)
    requires |v| == |line| && forall k :: 0 <= k < |line| ==> v[k] == DigitValue(line[k])
    ensures forall a, b :: 0 <= a < b < |line| ==> PairValue(line, a, b) <= BestPairOf(v)
    ensures PairValue(line, FirstAt(v), SecondAt(v)) == BestPairOf(v)
  {
    BestPairOfIsBest(v);
  }

  /**
   * On a line of at least two digits the result is the largest value of a
   * digit followed by a later digit, and some such pair reaches it.
   */
  lemma MaximumJoltageIsBestPair(line: string)
    requires |line| >= 2 && AllDigits(line)
    ensures MaximumJoltage(line).Some?
    ensures forall a, b :: 0 <= a < b < |line| ==> PairValue(line, a, b) <= MaximumJoltage(line).value
    ensures exists a, b :: 0 <= a < b < |line| && PairValue(line, a, b) == MaximumJoltage(line).value
  {
    var v := LineToVector(line).value;
    MaximumJoltageLong(line);
    PairsOfDigits(line, v);
    var first, second := FirstAt(v), SecondAt(v);
    assert PairValue(line, first, second) == BestPairOf(v);
  }
}
