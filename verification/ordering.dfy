/**
 * The order in which a std::map<std::string, …> visits its keys: byte-wise
 * lexicographic order on strings, and the sorted listing of a finite set of
 * keys that the help screens iterate over.
 */
module Ordering {

  /** std::string comparison: the first differing character decides, a proper prefix comes first. */
  predicate Less(a: string, b: string)
  {
    if |a| == 0 then |b| > 0
    else if |b| == 0 then false
    else if a[0] < b[0] then true
    else if a[0] > b[0] then false
    else Less(a[1..], b[1..])
  }

  lemma {:induction false} LessTotal(a: string, b: string)
    ensures a == b || Less(a, b) || Less(b, a)
  {
    if |a| > 0 && |b| > 0 && a[0] == b[0] {
      LessTotal(a[1..], b[1..]);
      if a[1..] == b[1..] {
        assert a == [a[0]] + a[1..];
        assert b == [b[0]] + b[1..];
      }
    }
  }

  lemma {:induction false} LessAsym(a: string, b: string)
    ensures !(Less(a, b) && Less(b, a))
  {
    if |a| > 0 && |b| > 0 && a[0] == b[0] {
      LessAsym(a[1..], b[1..]);
    }
  }

  lemma {:induction false} LessTrans(a: string, b: string, c: string)
    requires Less(a, b) && Less(b, c)
    ensures Less(a, c)
  {
    if |a| > 0 && |b| > 0 && |c| > 0 && a[0] == b[0] && b[0] == c[0] {
      LessTrans(a[1..], b[1..], c[1..]);
    }
  }

  /** `m` is the least element of `s`. */
  predicate IsLeast(m: string, s: set<string>)
  {
    m in s && forall x | x in s :: x != m ==> Less(m, x)
  }

  lemma LeastExists(s: set<string>)
    requires s != {}
    ensures exists m :: IsLeast(m, s)
  {
    var x :| x in s;
    if s == {x} {
      assert IsLeast(x, s);
    } else {
      LeastExists(s - {x});
      var m :| IsLeast(m, s - {x});
      LessTotal(m, x);
      if Less(m, x) {
        assert IsLeast(m, s);
      } else {
        forall y | y in s && y != x
          ensures Less(x, y)
        {
          if y != m { LessTrans(x, m, y); }
        }
        assert IsLeast(x, s);
      }
    }
  }

  lemma LeastUnique(s: set<string>)
    ensures forall a, b :: IsLeast(a, s) && IsLeast(b, s) ==> a == b
  {
    forall a, b | IsLeast(a, s) && IsLeast(b, s)
      ensures a == b
    {
      if a != b { LessAsym(a, b); }
    }
  }

  /** The elements of `s` in increasing order, each exactly once: the iteration order of a std::map. */
  function SortedKeys(s: set<string>): (r: seq<string>)
    ensures |r| == |s|
    ensures forall k :: 0 <= k < |r| ==> r[k] in s
    ensures forall x | x in s :: x in r
    ensures forall j, k :: 0 <= j < k < |r| ==> Less(r[j], r[k])
    decreases |s|
  {
    if s == {} then []
    else
      LeastExists(s);
      LeastUnique(s);
      var m :| IsLeast(m, s);
      [m] + SortedKeys(s - {m})
  }
}
