/**
 * Character and string helpers that the C++ code gets from <string>, <cctype>,
 * <sstream> and std::stoi / std::to_string, stated over `string` (= seq<char>).
 */
module Strings {
  import opened Wrappers

  /** `s` begins with `prefix` (the helper `starts_with` of the CLI library). */
  predicate StartsWith(s: string, prefix: string)
  {
    |s| >= |prefix| && s[..|prefix|] == prefix
  }

  /** Appending keeps a prefix. */
  lemma StartsWithExtend(s: string, prefix: string, more: string)
    requires StartsWith(s, prefix)
    ensures StartsWith(s + more, prefix)
  {
    assert (s + more)[..|prefix|] == s[..|prefix|];
  }

  /** std::isdigit in the "C" locale. */
  predicate IsDigit(c: char)
  {
    '0' <= c <= '9'
  }

  /** std::isspace in the "C" locale. */
  predicate IsSpace(c: char)
  {
    c == ' ' || c == '\t' || c == '\n' || c == '\r' || c == '\U{B}' || c == '\U{C}'
  }

  /** The blanks that the flag-name trimming removes: space and tab. */
  predicate IsBlank(c: char)
  {
    c == ' ' || c == '\t'
  }

  function DigitValue(c: char): (d: nat)
    requires IsDigit(c)
    ensures d < 10
  {
    (c - '0') as nat
  }

  function DigitChar(d: nat): (c: char)
    requires d < 10
    ensures IsDigit(c) && DigitValue(c) == d
  {
    (d + '0' as nat) as char
  }

  // ---------------------------------------------------------------------------
  // Searching

  /** std::string::find for one character: the first index holding `c`. */
  function IndexOf(s: string, c: char): (r: Option<nat>)
    ensures r.Some? ==> r.value < |s| && s[r.value] == c && c !in s[..r.value]
    ensures r.None? <==> c !in s
  {
    if |s| == 0 then None
    else if s[0] == c then Some(0)
    else
      match IndexOf(s[1..], c)
      case None => None
      case Some(k) =>
        assert s[..k + 1] == [s[0]] + s[1..][..k];
        Some(k + 1)
  }

  /** `needle` occurs somewhere inside `hay`. */
  ghost predicate Contains(hay: string, needle: string)
  {
    exists i, j :: 0 <= i <= j <= |hay| && hay[i..j] == needle
  }

  lemma ContainsConcat(a: string, b: string, c: string, needle: string)
    requires Contains(b, needle)
    ensures Contains(a + b + c, needle)
  {
    var i, j :| 0 <= i <= j <= |b| && b[i..j] == needle;
    assert (a + b + c)[|a| + i..|a| + j] == needle;
  }

  lemma ContainsPrefix(s: string, p: string, rest: string)
    requires s == p + rest
    ensures Contains(s, p)
  {
    assert s[0..|p|] == p;
  }

  lemma ContainsLeft(a: string, b: string, needle: string)
    requires Contains(a, needle)
    ensures Contains(a + b, needle)
  {
    var i, j :| 0 <= i <= j <= |a| && a[i..j] == needle;
    assert (a + b)[i..j] == needle;
  }

  lemma ContainsRight(a: string, b: string, needle: string)
    requires Contains(b, needle)
    ensures Contains(a + b, needle)
  {
    var i, j :| 0 <= i <= j <= |b| && b[i..j] == needle;
    assert (a + b)[|a| + i..|a| + j] == needle;
  }

  lemma ContainsSelf(s: string)
    ensures Contains(s, s)
    ensures Contains(s, "")
  {
    assert s[0..|s|] == s;
    assert s[0..0] == "";
  }

  // ---------------------------------------------------------------------------
  // Splitting and joining

  /**
   * The pieces of `s` between occurrences of `d`, with the empty pieces
   * dropped: a std::getline(ss, part, d) loop that keeps only non-empty parts.
   */
  function SplitNonEmpty(s: string, d: char): (parts: seq<string>)
    ensures forall k :: 0 <= k < |parts| ==> |parts[k]| > 0 && d !in parts[k]
    decreases |s|
  {
    match IndexOf(s, d)
    case None => if |s| == 0 then [] else [s]
    case Some(k) => (if k == 0 then [] else [s[..k]]) + SplitNonEmpty(s[k + 1..], d)
  }

  /** The parts written one after another with `sep` between neighbours. */
  function Join(parts: seq<string>, sep: string): string
  {
    if |parts| == 0 then ""
    else if |parts| == 1 then parts[0]
    else parts[0] + sep + Join(parts[1..], sep)
  }

  /** Joining non-empty, delimiter-free parts with the delimiter and splitting again gives the parts back. */
  lemma {:induction false} SplitJoinRoundTrip(parts: seq<string>, d: char)
    requires forall k :: 0 <= k < |parts| ==> |parts[k]| > 0 && d !in parts[k]
    ensures SplitNonEmpty(Join(parts, [d]), d) == parts
  {
    if |parts| == 1 {
      SplitWhole(parts[0], d);
    } else if |parts| > 1 {
      var p, rest := parts[0], parts[1..];
      JoinCons(parts, [d]);
      SplitAfterPart(p, d, Join(rest, [d]));
      SplitJoinRoundTrip(rest, d);
      assert parts == [p] + rest;
    }
  }

  lemma SplitWhole(p: string, d: char)
    requires |p| > 0 && d !in p
    ensures SplitNonEmpty(p, d) == [p]
  {
    assert IndexOf(p, d).None?;
  }

  lemma JoinCons(parts: seq<string>, sep: string)
    requires |parts| > 1
    ensures Join(parts, sep) == parts[0] + sep + Join(parts[1..], sep)
  {
  }

  /** A non-empty part without the delimiter, then the delimiter, splits off as the first part. */
  lemma SplitAfterPart(p: string, d: char, after: string)
    requires |p| > 0 && d !in p
    ensures SplitNonEmpty(p + [d] + after, d) == [p] + SplitNonEmpty(after, d)
  {
    var s := p + [d] + after;
    assert s[..|p|] == p;
    assert s[|p|] == d;
    IndexOfAt(s, d, |p|);
    assert s[|p| + 1..] == after;
  }

  /** A delimiter at the start yields no part. */
  lemma SplitSkipsDelimiter(d: char, after: string)
    ensures SplitNonEmpty([d] + after, d) == SplitNonEmpty(after, d)
  {
    var s := [d] + after;
    IndexOfAt(s, d, 0);
    assert s[1..] == after;
  }

  lemma {:induction false} IndexOfAt(s: string, c: char, k: nat)
    requires k < |s| && s[k] == c && c !in s[..k]
    ensures IndexOf(s, c) == Some(k)
    decreases k
  {
    if k > 0 {
      assert s[0] == s[..k][0];
      assert s[1..][..k - 1] == s[..k][1..];
      IndexOfAt(s[1..], c, k - 1);
    }
  }

  // ---------------------------------------------------------------------------
  // Trimming (the `trim` lambda of the flag-name parser: spaces and tabs only)

  function TrimLeft(s: string): (r: string)
    ensures |r| <= |s|
    ensures |r| > 0 ==> !IsBlank(r[0])
    ensures forall k :: 0 <= k < |s| - |r| ==> IsBlank(s[k])
  {
    if |s| > 0 && IsBlank(s[0]) then TrimLeft(s[1..]) else s
  }

  function TrimRight(s: string): (r: string)
    ensures |r| <= |s| && r == s[..|r|]
    ensures |r| > 0 ==> !IsBlank(r[|r| - 1])
    ensures forall k :: |r| <= k < |s| ==> IsBlank(s[k])
  {
    if |s| > 0 && IsBlank(s[|s| - 1]) then TrimRight(s[..|s| - 1]) else s
  }

  /** The string without its leading and trailing spaces and tabs. */
  function Trim(s: string): (r: string)
    ensures Trimmed(r)
  {
    TrimRight(TrimLeft(s))
  }

  /** No blank at either end. */
  predicate Trimmed(s: string)
  {
    |s| > 0 ==> !IsBlank(s[0]) && !IsBlank(s[|s| - 1])
  }

  predicate AllBlank(s: string)
  {
    forall k :: 0 <= k < |s| ==> IsBlank(s[k])
  }

  /** Blanks around a word that neither starts nor ends with a blank are exactly what Trim removes. */
  lemma {:induction false} TrimPadded(pre: string, word: string, post: string)
    requires AllBlank(pre) && AllBlank(post)
    requires |word| > 0 && !IsBlank(word[0]) && !IsBlank(word[|word| - 1])
    ensures Trim(pre + word + post) == word
  {
    assert pre + word + post == pre + (word + post);
    TrimLeftPadded(pre, word + post);
    assert TrimLeft(pre + word + post) == word + post;
    TrimRightPadded(word, post);
    assert Trim(pre + word + post) == TrimRight(word + post);
  }

  lemma {:induction false} TrimLeftPadded(pre: string, rest: string)
    requires AllBlank(pre)
    requires |rest| > 0 ==> !IsBlank(rest[0])
    ensures TrimLeft(pre + rest) == rest
    decreases |pre|
  {
    if |pre| > 0 {
      assert (pre + rest)[1..] == pre[1..] + rest;
      TrimLeftPadded(pre[1..], rest);
    } else {
      assert pre + rest == rest;
    }
  }

  lemma {:induction false} TrimRightPadded(word: string, post: string)
    requires AllBlank(post)
    requires |word| > 0 ==> !IsBlank(word[|word| - 1])
    ensures TrimRight(word + post) == word
    decreases |post|
  {
    if |post| > 0 {
      var s := word + post;
      assert s[..|s| - 1] == word + post[..|post| - 1];
      TrimRightPadded(word, post[..|post| - 1]);
    } else {
      assert word + post == word;
    }
  }

  // ---------------------------------------------------------------------------
  // Decimal numbers

  predicate AllDigits(s: string)
  {
    forall k :: 0 <= k < |s| ==> IsDigit(s[k])
  }

  /** The value of a string of decimal digits, most significant first. */
  function DecimalValue(s: string): (v: nat)
    requires AllDigits(s)
  {
    if |s| == 0 then 0 else DecimalValue(s[..|s| - 1]) * 10 + DigitValue(s[|s| - 1])
  }

  /** std::to_string / "%d" of a non-negative number: decimal digits, no leading zero. */
  function NatToString(n: nat): (s: string)
    ensures |s| > 0 && AllDigits(s)
    ensures |s| > 1 ==> s[0] != '0'
    ensures DecimalValue(s) == n
  {
    if n < 10 then [DigitChar(n)]
    else
      var s := NatToString(n / 10) + [DigitChar(n % 10)];
      assert s[..|s| - 1] == NatToString(n / 10);
      s
  }

  /** std::to_string / "%d" of any integer: a minus sign before the digits of a negative number. */
  function IntToString(i: int): (s: string)
    ensures |s| > 0
    ensures i < 0 <==> s[0] == '-'
  {
    if i < 0 then "-" + NatToString(-i) else NatToString(i)
  }

  /** A decimal rendering holds only digits and perhaps a leading '-'. */
  lemma IntToStringHasNo(i: int, c: char)
    requires !IsDigit(c) && c != '-'
    ensures c !in IntToString(i)
  {
    var s := IntToString(i);
    var ds := NatToString(if i < 0 then -i else i);
    forall k | 0 <= k < |s|
      ensures s[k] != c
    {
      if i < 0 {
        assert s == "-" + ds;
        if k > 0 {
          assert s[k] == ds[k - 1];
        }
      } else {
        assert s == ds;
      }
    }
  }

  /** The longest prefix of `s` made of digits. */
  function LeadingDigits(s: string): (r: string)
    ensures |r| <= |s| && AllDigits(r) && r == s[..|r|]
    ensures |r| < |s| ==> !IsDigit(s[|r|])
  {
    if |s| > 0 && IsDigit(s[0]) then
      var t := [s[0]] + LeadingDigits(s[1..]);
      assert s[..|t|] == [s[0]] + s[1..][..|t| - 1];
      t
    else []
  }

  function DropSpaces(s: string): (r: string)
    ensures |r| <= |s|
    ensures |r| > 0 ==> !IsSpace(r[0])
  {
    if |s| > 0 && IsSpace(s[0]) then DropSpaces(s[1..]) else s
  }

  const IntMin: int := -0x8000_0000
  const IntMax: int := 0x7FFF_FFFF

  /**
   * std::stoi: leading white space is skipped, an optional sign and at least
   * one digit are read and anything after the digits is ignored. No digits
   * (std::invalid_argument) or a value outside the 32-bit int range
   * (std::out_of_range) gives None.
   */
  function Stoi(s: string): (r: Option<int>)
    ensures r.Some? ==> IntMin <= r.value <= IntMax
  {
    var t := DropSpaces(s);
    var negative := |t| > 0 && t[0] == '-';
    var digits := LeadingDigits(Unsigned(t));
    if |digits| == 0 then None
    else
      var v := SignedValue(negative, digits);
      if IntMin <= v <= IntMax then Some(v) else None
  }

  /** What follows an optional leading sign. */
  function Unsigned(t: string): (u: string)
    ensures |t| > 0 && (t[0] == '-' || t[0] == '+') ==> u == t[1..]
    ensures !(|t| > 0 && (t[0] == '-' || t[0] == '+')) ==> u == t
  {
    if |t| > 0 && (t[0] == '-' || t[0] == '+') then t[1..] else t
  }

  /** Without digits after the optional sign std::stoi fails. */
  lemma StoiNoDigits(s: string)
    requires LeadingDigits(Unsigned(DropSpaces(s))) == []
    ensures Stoi(s) == None
  {
  }

  lemma LeadingDigitsOfDigits(ds: string, rest: string)
    requires AllDigits(ds)
    requires |rest| > 0 ==> !IsDigit(rest[0])
    ensures LeadingDigits(ds + rest) == ds
    decreases |ds|
  {
    if |ds| > 0 {
      assert (ds + rest)[1..] == ds[1..] + rest;
      LeadingDigitsOfDigits(ds[1..], rest);
      assert ds == [ds[0]] + ds[1..];
    } else {
      assert ds + rest == rest;
    }
  }

  /** The signed value that std::stoi reads from a sign flag and a digit string. */
  function SignedValue(negative: bool, ds: string): int
    requires AllDigits(ds)
  {
    var magnitude: int := DecimalValue(ds);
    if negative then -magnitude else magnitude
  }

  lemma DropSpacesNoSpace(s: string)
    requires |s| > 0 && !IsSpace(s[0])
    ensures DropSpaces(s) == s
  {
  }

  /** std::stoi of an optional minus sign, digits and then anything that is not a digit reads exactly those digits. */
  lemma StoiOfSignedDigits(negative: bool, ds: string, rest: string)
    requires |ds| > 0 && AllDigits(ds)
    requires |rest| > 0 ==> !IsDigit(rest[0])
    requires IntMin <= SignedValue(negative, ds) <= IntMax
    ensures Stoi((if negative then "-" else "") + ds + rest) == Some(SignedValue(negative, ds))
  {
    var s := (if negative then "-" else "") + ds + rest;
    assert Unsigned(s) == ds + rest by {
      if negative {
        assert s[1..] == ds + rest;
      } else {
        assert s[0] == ds[0];
      }
    }
    DropSpacesNoSpace(s);
    LeadingDigitsOfDigits(ds, rest);
  }

  /** Reading back the decimal rendering of an int, followed by anything that is not a digit, gives the int. */
  lemma StoiOfIntToString(i: int, rest: string)
    requires IntMin <= i <= IntMax
    requires |rest| > 0 ==> !IsDigit(rest[0])
    ensures Stoi(IntToString(i) + rest) == Some(i)
  {
    var negative := i < 0;
    var ds := NatToString(if negative then -i else i);
    assert SignedValue(negative, ds) == i;
    assert IntToString(i) + rest == (if negative then "-" else "") + ds + rest;
    StoiOfSignedDigits(negative, ds, rest);
  }

  /**
   * The value std::stoi reads from a string of one character: the digit, or
   * None (std::invalid_argument) for anything else.
   */
  function ReadChar(c: char): (r: Option<int>)
    ensures r.Some? <==> IsDigit(c)
    ensures r.Some? ==> r.value == DigitValue(c)
  {
    if IsDigit(c) then Some(DigitValue(c)) else None
  }

  /** ReadChar agrees with the model of std::stoi on every character. */
  lemma ReadCharIsStoi(c: char)
    ensures ReadChar(c) == Stoi([c])
  {
    if IsDigit(c) {
      assert DecimalValue([c]) == DecimalValue([]) * 10 + DigitValue(c);
      assert SignedValue(false, [c]) == DigitValue(c);
      StoiOfSignedDigits(false, [c], "");
      Unpadded([c]);
    } else {
      StoiOfNonDigit(c);
    }
  }

  lemma Unpadded(s: string)
    ensures "" + s + "" == s
  {
  }

  lemma StoiOfNonDigit(c: char)
    requires !IsDigit(c)
    ensures Stoi([c]) == None
  {
    var u := Unsigned(DropSpaces([c]));
    OnlyCharAfterSign(c);
    NoLeadingDigits(u);
    StoiNoDigits([c]);
  }

  /** Of a one-character string, at most that character is left after spaces and a sign. */
  lemma OnlyCharAfterSign(c: char)
    ensures var u := Unsigned(DropSpaces([c])); |u| == 0 || u[0] == c
  {
    DropSpacesOne(c);
    var t := DropSpaces([c]);
    assert |t| == 0 || (|t| == 1 && t[0] == c);
  }

  lemma DropSpacesOne(c: char)
    ensures DropSpaces([c]) == if IsSpace(c) then [] else [c]
  {
    if IsSpace(c) {
      assert [c][1..] == [];
    }
  }

  lemma NoLeadingDigits(u: string)
    requires |u| == 0 || !IsDigit(u[0])
    ensures LeadingDigits(u) == []
  {
  }

  /** `n` copies of `c` (std::string(n, c)). */
  function Repeat(c: char, n: nat): (s: string)
    ensures |s| == n && forall k :: 0 <= k < n ==> s[k] == c
  {
    if n == 0 then [] else Repeat(c, n - 1) + [c]
  }
}
