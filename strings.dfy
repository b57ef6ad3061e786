/** Character-level helpers standing in for the C and C++ library calls the
    core relies on: std::string::find, the piece-by-piece splitting loops built
    on it, and the C-string view of a NUL-padded buffer. */
module Strings {

  /** Index of the first `c` in `s`, or -1 when there is none. */
  function FirstIndex(s: string, c: char): (i: int)
    ensures -1 <= i < |s|
    ensures i >= 0 ==> s[i] == c && c !in s[..i]
    ensures i < 0 ==> c !in s
  {
    if |s| == 0 then -1
    else if s[0] == c then 0
    else
      var j := FirstIndex(s[1..], c);
      assert s[1..][..if j < 0 then 0 else j] == s[1..if j < 0 then 1 else j + 1];
      if j < 0 then -1 else j + 1
  }

  /** std::string::find(c, start), with string::npos written as -1. */
  function Find(s: string, c: char, start: nat): (i: int)
    ensures i == -1 || start <= i < |s|
    ensures i >= 0 ==> s[i] == c && c !in s[start..i]
    ensures i < 0 ==> start >= |s| || c !in s[start..]
  {
    if start >= |s| then -1
    else
      var j := FirstIndex(s[start..], c);
      if j < 0 then -1
      else
        assert s[start..][..j] == s[start..start + j];
        start + j
  }

  /** Number of occurrences of `c` in `s`. */
  function Count(s: string, c: char): nat {
    if |s| == 0 then 0 else (if s[0] == c then 1 else 0) + Count(s[1..], c)
  }

  /** The pieces of `s` between occurrences of `sep`: every separator ends one
      piece, and whatever follows the last separator is the final piece. */
  function Split(s: string, sep: char): (parts: seq<string>)
    ensures |parts| >= 1
    decreases |s|
  {
    var i := FirstIndex(s, sep);
    if i < 0 then [s] else [s[..i]] + Split(s[i + 1..], sep)
  }

  /** The pieces glued back together with `sep` between neighbours. */
  function Join(parts: seq<string>, sep: char): string {
    if |parts| == 0 then ""
    else if |parts| == 1 then parts[0]
    else parts[0] + [sep] + Join(parts[1..], sep)
  }

  /** The C-string view of a character buffer: everything before the first NUL. */
  function UntilNul(s: string): (r: string)
    ensures r <= s && '\0' !in r
    ensures '\0' in s ==> |r| < |s| && s[|r|] == '\0'
    ensures '\0' !in s ==> r == s
  {
    var i := FirstIndex(s, '\0');
    if i < 0 then s else s[..i]
  }

  /** A prefix free of NUL that the buffer follows with a NUL is its C-string view. */
  lemma UntilNulAt(s: string, r: string)
    requires r <= s && '\0' !in r && |r| < |s| && s[|r|] == '\0'
    ensures UntilNul(s) == r
  {
    var u := UntilNul(s);
    assert forall k :: 0 <= k < |u| ==> s[k] == u[k] && s[k] != '\0';
    assert forall k :: 0 <= k < |r| ==> s[k] == r[k] && s[k] != '\0';
    assert u == s[..|u|] && r == s[..|r|];
  }

  lemma CountAppend(a: string, b: string, c: char)
    ensures Count(a + b, c) == Count(a, c) + Count(b, c)
  {
    if |a| > 0 {
      assert (a + b)[1..] == a[1..] + b;
      CountAppend(a[1..], b, c);
    } else {
      assert a + b == b;
    }
  }

  lemma CountAbsent(s: string, c: char)
    requires c !in s
    ensures Count(s, c) == 0
  {
    if |s| > 0 {
      assert c !in s[1..];
      CountAbsent(s[1..], c);
    }
  }

  /** Splitting at an occurrence of the separator that `Find` reports. */
  lemma SplitAtFound(s: string, sep: char, start: nat, e: nat)
    requires start <= e < |s| && Find(s, sep, start) == e
    ensures Split(s[start..], sep) == [s[start..e]] + Split(s[e + 1..], sep)
  {
    var t := s[start..];
    assert FirstIndex(t, sep) == e - start;
    assert t[..e - start] == s[start..e];
    assert t[e - start + 1..] == s[e + 1..];
  }

  /** When `Find` reports no further separator, the rest is one last piece. */
  lemma SplitAtEnd(s: string, sep: char, start: nat)
    requires start <= |s| && Find(s, sep, start) == -1
    ensures Split(s[start..], sep) == [s[start..]]
  {
    assert sep !in s[start..];
    assert FirstIndex(s[start..], sep) == -1;
  }

  /** Splitting yields one piece more than there are separators. */
  lemma {:induction false} SplitCount(s: string, sep: char)
    ensures |Split(s, sep)| == Count(s, sep) + 1
    decreases |s|
  {
    var i := FirstIndex(s, sep);
    if i < 0 {
      CountAbsent(s, sep);
    } else {
      SplitCount(s[i + 1..], sep);
      assert s == s[..i] + [sep] + s[i + 1..];
      CountAppend(s[..i] + [sep], s[i + 1..], sep);
      CountAppend(s[..i], [sep], sep);
      CountAbsent(s[..i], sep);
    }
  }

  /** No piece contains the separator. */
  lemma {:induction false} SplitPiecesFree(s: string, sep: char)
    ensures forall k :: 0 <= k < |Split(s, sep)| ==> sep !in Split(s, sep)[k]
    decreases |s|
  {
    var i := FirstIndex(s, sep);
    if i >= 0 {
      SplitPiecesFree(s[i + 1..], sep);
    }
  }

  /** Joining the pieces with the separator gives back the input. */
  lemma {:induction false} JoinSplit(s: string, sep: char)
    ensures Join(Split(s, sep), sep) == s
    decreases |s|
  {
    var i := FirstIndex(s, sep);
    if i >= 0 {
      var rest := Split(s[i + 1..], sep);
      JoinSplit(s[i + 1..], sep);
      assert Split(s, sep) == [s[..i]] + rest;
      JoinCons(s[..i], rest, sep);
      assert s == s[..i] + [sep] + s[i + 1..];
    }
  }

  lemma JoinCons(p: string, rest: seq<string>, sep: char)
    requires |rest| >= 1
    ensures Join([p] + rest, sep) == p + [sep] + Join(rest, sep)
  {
    var parts := [p] + rest;
    assert parts[0] == p && parts[1..] == rest;
  }

  /** Conversely, separator-free pieces are recovered by splitting their join. */
  lemma {:induction false} SplitJoin(parts: seq<string>, sep: char)
    requires |parts| >= 1
    requires forall k :: 0 <= k < |parts| ==> sep !in parts[k]
    ensures Split(Join(parts, sep), sep) == parts
  {
    if |parts| == 1 {
      assert FirstIndex(parts[0], sep) == -1;
    } else {
      SplitJoin(parts[1..], sep);
      SplitCons(parts[0], Join(parts[1..], sep), sep);
      assert parts == [parts[0]] + parts[1..];
    }
  }

  /** A separator-free first piece is split off whole. */
  lemma SplitCons(a: string, rest: string, sep: char)
    requires sep !in a
    ensures Split(a + [sep] + rest, sep) == [a] + Split(rest, sep)
  {
    var s := a + [sep] + rest;
    assert forall k :: 0 <= k < |a| ==> s[k] == a[k] && s[k] != sep;
    assert s[|a|] == sep;
    var i := FirstIndex(s, sep);
    assert i >= 0 ==> s[..i + 1][|a|] == sep || i <= |a|;
    assert i == |a|;
    assert s[..i] == a && s[i + 1..] == rest;
  }
}
