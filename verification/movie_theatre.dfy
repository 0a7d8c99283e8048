/**
 * movie-theatre: corner candidates read from "x,y" lines, ordered by x and
 * then by y, and the Manhattan distance between two of them. The
 * maximisation itself is a stub that answers 0.
 */
module MovieTheatre {
  import opened Wrappers
  import opened Strings

  /** A corner candidate (x, y). */
  type Position = (int, int)

  /**
   * parse_line: the text before the first comma and the text after it are
   * each read with std::stoi; no comma, or a side std::stoi rejects, gives None.
   */
  function ParseLine(line: string): (r: Option<Position>)
    ensures ',' !in line ==> r.None?
    ensures r.Some? ==> IntMin <= r.value.0 <= IntMax && IntMin <= r.value.1 <= IntMax
  {
    match IndexOf(line, ',')
    case None => None
    case Some(k) => ParseSides(line[..k], line[k + 1..])
  }

  /** Both sides of the comma read with std::stoi; None when either is rejected. */
  function ParseSides(before: string, after: string): (r: Option<Position>)
    ensures r.Some? <==> Stoi(before).Some? && Stoi(after).Some?
    ensures r.Some? ==> r.value == (Stoi(before).value, Stoi(after).value)
  {
    match (Stoi(before), Stoi(after))
    case (Some(x), Some(y)) => Some((x, y))
    case _ => None
  }

  /** The first comma of "x,y" is the one just after the rendering of x. */
  lemma CommaAfterFirst(sx: string, sy: string)
    requires ',' !in sx
    ensures IndexOf(sx + "," + sy, ',') == Some(|sx|)
  {
    var line := sx + "," + sy;
    assert line[|sx|] == ',';
  }

  /** A point written as "x,y" in decimal is read back by parse_line. */
  lemma ParseLineRoundTrip(x: int, y: int)
    requires IntMin <= x <= IntMax && IntMin <= y <= IntMax
    ensures ParseLine(IntToString(x) + "," + IntToString(y)) == Some((x, y))
  {
    var sx, sy := IntToString(x), IntToString(y);
    var line := sx + "," + sy;
    IntToStringHasNo(x, ',');
    CommaAfterFirst(sx, sy);
    assert line[..|sx|] == sx + "";
    assert line[|sx| + 1..] == sy + "";
    StoiOfIntToString(x, "");
    StoiOfIntToString(y, "");
  }

  /** The images under `f` of the entries it accepts, in order. */
  function FilterMap<A, B>(xs: seq<A>, f: A -> Option<B>): seq<B>
  {
    if |xs| == 0 then []
    else
      var front := FilterMap(xs[..|xs| - 1], f);
      match f(xs[|xs| - 1])
      case None => front
      case Some(y) => front + [y]
  }

  lemma {:induction false} FilterMapAppend<A, B>(a: seq<A>, b: seq<A>, f: A -> Option<B>)
    ensures FilterMap(a + b, f) == FilterMap(a, f) + FilterMap(b, f)
    decreases |b|
  {
    if |b| == 0 {
      assert a + b == a;
    } else {
      var init := b[..|b| - 1];
      FilterMapAppend(a, init, f);
      assert (a + b)[..|a + b| - 1] == a + init;
    }
  }

  lemma {:induction false} FilterMapAtMost<A, B>(xs: seq<A>, f: A -> Option<B>)
    ensures |FilterMap(xs, f)| <= |xs|
  {
    if |xs| > 0 {
      FilterMapAtMost(xs[..|xs| - 1], f);
    }
  }

  lemma {:induction false} FilterMapAll<A, B>(xs: seq<A>, f: A -> Option<B>)
    requires forall k :: 0 <= k < |xs| ==> f(xs[k]).Some?
    ensures |FilterMap(xs, f)| == |xs|
    ensures forall k :: 0 <= k < |xs| ==> FilterMap(xs, f)[k] == f(xs[k]).value
  {
    if |xs| > 0 {
      FilterMapAll(xs[..|xs| - 1], f);
    }
  }

  lemma {:induction false} FilterMapNone<A, B>(xs: seq<A>, f: A -> Option<B>)
    requires forall k :: 0 <= k < |xs| ==> f(xs[k]).None?
    ensures FilterMap(xs, f) == []
  {
    if |xs| > 0 {
      FilterMapNone(xs[..|xs| - 1], f);
    }
  }

  /** The parsed lines, in input order, with the lines parse_line rejects left out. */
  function ParseAll(lines: seq<string>): seq<Position>
  {
    FilterMap(lines, ParseLine)
  }

  /** Parsing the lines of two blocks one after the other keeps their order. */
  lemma ParseAllAppend(a: seq<string>, b: seq<string>)
    ensures ParseAll(a + b) == ParseAll(a) + ParseAll(b)
  {
    FilterMapAppend(a, b, ParseLine);
  }

  /** Every candidate comes from a line of the input: there are never more candidates than lines. */
  lemma ParseAllAtMost(lines: seq<string>)
    ensures |ParseAll(lines)| <= |lines|
  {
    FilterMapAtMost(lines, ParseLine);
  }

  /** When parse_line accepts every line, the candidates are the lines' points, in order. */
  lemma ParseAllKeepsAccepted(lines: seq<string>)
    requires forall k :: 0 <= k < |lines| ==> ParseLine(lines[k]).Some?
    ensures |ParseAll(lines)| == |lines|
    ensures forall k :: 0 <= k < |lines| ==> ParseAll(lines)[k] == ParseLine(lines[k]).value
  {
    FilterMapAll(lines, ParseLine);
  }

  /** When parse_line rejects every line, there are no candidates. */
  lemma ParseAllDropsRejected(lines: seq<string>)
    requires forall k :: 0 <= k < |lines| ==> ParseLine(lines[k]).None?
    ensures ParseAll(lines) == []
  {
    FilterMapNone(lines, ParseLine);
  }

  /** parse_input_data: the loop that keeps the parsed lines and skips the others. */
  method ParseInputData(lines: seq<string>) returns (result: seq<Position>)
    ensures result == ParseAll(lines)
  {
    result := [];
    for i := 0 to |lines|
      invariant result == ParseAll(lines[..i])
    {
      assert lines[..i + 1][..i] == lines[..i];
      var parsed := ParseLine(lines[i]);
      if parsed.Some? {
        result := result + [parsed.value];
      }
    }
    assert lines[..|lines|] == lines;
  }

  /** The comparison of sort_by_x_then_y: by x, then by y. */
  predicate Before(p: Position, q: Position)
  {
    p.0 < q.0 || (p.0 == q.0 && p.1 < q.1)
  }

  /** Ordered by x and then by y, equal points side by side. */
  predicate SortedByXThenY(s: seq<Position>)
  {
    forall i, j :: 0 <= i < j < |s| ==> !Before(s[j], s[i])
  }

  /** The last entry of a sorted sequence comes before none of its entries. */
  lemma LastIsLargest(s: seq<Position>, x: Position)
    requires SortedByXThenY(s) && x in multiset(s)
    ensures !Before(s[|s| - 1], x)
  {
    var i :| 0 <= i < |s| && s[i] == x;
    if i < |s| - 1 {
      assert !Before(s[|s| - 1], s[i]);
    }
  }

  lemma SortedInit(s: seq<Position>)
    requires |s| > 0 && SortedByXThenY(s)
    ensures SortedByXThenY(s[..|s| - 1])
  {
  }

  lemma MultisetDropLast(s: seq<Position>, t: seq<Position>)
    requires |s| > 0 && |t| > 0 && multiset(s) == multiset(t) && s[|s| - 1] == t[|t| - 1]
    ensures multiset(s[..|s| - 1]) == multiset(t[..|t| - 1])
  {
    MultisetOfInit(s);
    MultisetOfInit(t);
  }

  lemma MultisetOfInit(s: seq<Position>)
    requires |s| > 0
    ensures multiset(s[..|s| - 1]) == multiset(s) - multiset{s[|s| - 1]}
  {
    assert s == s[..|s| - 1] + [s[|s| - 1]];
  }

  /** Two orderings of the same points that are both sorted are the same sequence. */
  lemma {:induction false} SortedUnique(s: seq<Position>, t: seq<Position>)
    requires SortedByXThenY(s) && SortedByXThenY(t) && multiset(s) == multiset(t)
    ensures s == t
    decreases |s|
  {
    assert |t| == |multiset(t)| == |multiset(s)| == |s|;
    if |s| > 0 {
      var m, n := s[|s| - 1], t[|t| - 1];
      LastIsLargest(s, n);
      LastIsLargest(t, m);
      assert m == n;
      MultisetDropLast(s, t);
      SortedInit(s);
      SortedInit(t);
      SortedUnique(s[..|s| - 1], t[..|t| - 1]);
      assert s == s[..|s| - 1] + [m] && t == t[..|t| - 1] + [m];
    }
  }

  class MovieTheatreState {
    const inputData: seq<string>
    const cornerCandidates: seq<Position>

    /** The constructor: keeps the lines and parses the corner candidates from them. */
    constructor(inputData: seq<string>)
      ensures this.inputData == inputData && cornerCandidates == ParseAll(inputData)
    {
      this.inputData := inputData;
      var candidates := ParseInputData(inputData);
      cornerCandidates := candidates;
    }

    /** maximise: a stub that answers 0 whatever the input. */
    function Maximise(verbose: bool): (r: int)
      ensures r == 0
    {
      0
    }

    /** validate_input: the input has at least one line. */
    predicate ValidateInput()
    {
      |inputData| > 0
    }

    /** Input that fails validation has no corner candidates. */
    lemma InvalidHasNoCandidates()
      requires cornerCandidates == ParseAll(inputData)
      ensures !ValidateInput() ==> cornerCandidates == []
    {
    }

    /**
     * sort_by_x_then_y: the candidates end sorted by x and then by y, as a
     * permutation of what they were. The source uses std::sort; an insertion
     * sort stands for it here, and as the order is total on distinct points
     * (SortedUnique) every sort gives the same result.
     */
    static method SortByXThenY(a: array<Position>)
      modifies a
      ensures SortedByXThenY(a[..])
      ensures multiset(a[..]) == multiset(old(a[..]))
    {
      var i := 0;
      while i < a.Length
        invariant 0 <= i <= a.Length
        invariant SortedByXThenY(a[..i])
        invariant multiset(a[..]) == multiset(old(a[..]))
      {
        InsertAt(a, i);
        i := i + 1;
      }
      assert a[..a.Length] == a[..];
    }

    /** Moves a[i] left into the sorted prefix a[..i], so that a[..i + 1] is sorted. */
    static method InsertAt(a: array<Position>, i: nat)
      requires i < a.Length && SortedByXThenY(a[..i])
      modifies a
      ensures SortedByXThenY(a[..i + 1])
      ensures multiset(a[..]) == multiset(old(a[..]))
    {
      var j := i;
      while j > 0 && Before(a[j], a[j - 1])
        invariant 0 <= j <= i
        invariant forall p, q :: 0 <= p < q <= i && p != j && q != j ==> !Before(a[q], a[p])
        invariant forall q :: j < q <= i ==> Before(a[j], a[q])
        invariant multiset(a[..]) == multiset(old(a[..]))
      {
        a[j - 1], a[j] := a[j], a[j - 1];
        j := j - 1;
      }
    }

    /** distance: the Manhattan distance |x1 - x2| + |y1 - y2|. */
    static function Distance(p: Position, q: Position): (d: int)
      ensures d >= 0
      ensures d == 0 <==> p == q
    {
      Abs(p.0 - q.0) + Abs(p.1 - q.1)
    }
  }

  function Abs(v: int): (r: int)
    ensures r >= 0 && (r == v || r == -v)
  {
    if v < 0 then -v else v
  }

  /** Manhattan distance is symmetric and satisfies the triangle inequality. */
  lemma DistanceMetric(p: Position, q: Position, r: Position)
    ensures MovieTheatreState.Distance(p, q) == MovieTheatreState.Distance(q, p)
    ensures MovieTheatreState.Distance(p, r) <= MovieTheatreState.Distance(p, q) + MovieTheatreState.Distance(q, r)
  {
  }

  /** The order the sort test expects is sorted by x and then by y. */
  lemma SortExample()
    ensures SortedByXThenY([(2, 1), (2, 3), (2, 5), (7, 1), (7, 3), (9, 5), (9, 7), (11, 1), (11, 7)])
  {
  }

  /** One more entry adds its image when `f` accepts it. */
  lemma FilterMapSnoc<A, B>(xs: seq<A>, x: A, f: A -> Option<B>)
    ensures FilterMap(xs + [x], f) == FilterMap(xs, f) + (if f(x).Some? then [f(x).value] else [])
  {
    assert (xs + [x])[..|xs|] == xs;
  }

  lemma FilterMapSkipsMiddle<A, B>(a: A, b: A, c: A, f: A -> Option<B>)
    requires f(a).Some? && f(b).None? && f(c).Some?
    ensures FilterMap([a, b, c], f) == [f(a).value, f(c).value]
  {
    assert [a, b, c] == [a, b] + [c];
    assert [a, b] == [a] + [b];
    assert [a] == [] + [a];
    FilterMapSnoc([], a, f);
    FilterMapSnoc([a], b, f);
    FilterMapSnoc([a, b], c, f);
  }

  /**
   * The shape of the parsing test with an invalid line: two points written
   * "x,y" around a line without a comma ("10,10", "not a number", "15,15")
   * give the two points, in order.
   */
  lemma SkipsLineWithoutComma(p: Position, words: string, q: Position)
    requires IntMin <= p.0 <= IntMax && IntMin <= p.1 <= IntMax
    requires IntMin <= q.0 <= IntMax && IntMin <= q.1 <= IntMax
    requires ',' !in words
    ensures ParseAll([IntToString(p.0) + "," + IntToString(p.1), words,
                      IntToString(q.0) + "," + IntToString(q.1)]) == [p, q]
  {
    ParseLineRoundTrip(p.0, p.1);
    ParseLineRoundTrip(q.0, q.1);
    FilterMapSkipsMiddle(IntToString(p.0) + "," + IntToString(p.1), words,
                         IntToString(q.0) + "," + IntToString(q.1), ParseLine);
  }
}
