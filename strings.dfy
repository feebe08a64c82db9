/** The few string primitives of Go's standard library that the parser and its
    helpers call (strings.Index, strings.LastIndex, strings.Split), stated over
    strings as sequences of characters, together with the "cut at the first
    delimiter" step that the parser repeats for every component. */
module Strings {

  /** strings.Index with a one-character separator: the first position of `c`, or -1. */
  function Index(s: string, c: char): (i: int)
    ensures -1 <= i < |s|
    ensures i == -1 <==> c !in s
    ensures 0 <= i ==> s[i] == c && c !in s[..i]
  {
    if s == [] then -1
    else if s[0] == c then 0
    else
      var j := Index(s[1..], c);
      if j == -1 then -1
      else
        assert s[..j + 1] == [s[0]] + s[1..][..j];
        j + 1
  }

  /** strings.LastIndex with a one-character separator: the last position of `c`, or -1. */
  function LastIndex(s: string, c: char): (i: int)
    ensures -1 <= i < |s|
    ensures i == -1 <==> c !in s
    ensures 0 <= i ==> s[i] == c && c !in s[i + 1..]
  {
    if s == [] then -1
    else if s[|s| - 1] == c then |s| - 1
    else
      var j := LastIndex(s[..|s| - 1], c);
      assert s == s[..|s| - 1] + [s[|s| - 1]];
      if j == -1 then -1
      else
        assert s[j + 1..] == s[..|s| - 1][j + 1..] + [s[|s| - 1]];
        j
  }

  /** The outcome of cutting a string at the first occurrence of a delimiter:
      the text before it, the text after it, and whether it was there at all.
      When the delimiter is absent, `before` is the whole string. */
  datatype Cut = Cut(before: string, after: string, found: bool)

  /** Cut at the first `c`; the delimiter itself belongs to neither side. */
  function CutFirst(s: string, c: char): (r: Cut)
    ensures r.found <==> c in s
    ensures c !in r.before
    ensures r.found ==> s == r.before + [c] + r.after
    ensures !r.found ==> s == r.before && r.after == []
  {
    var i := Index(s, c);
    if i == -1 then Cut(s, [], false)
    else
      assert s == s[..i] + [c] + s[i + 1..];
      Cut(s[..i], s[i + 1..], true)
  }

  /** The cut string is the part before, then the delimiter and the part
      after when it was found. */
  lemma CutFirstRejoin(s: string, c: char)
    ensures var r := CutFirst(s, c);
      s == r.before + (if r.found then [c] + r.after else [])
  {
    var r := CutFirst(s, c);
    if r.found { AppendAssoc(r.before, [c], r.after); }
  }

  /** The string cut before its first delimiter is the part before, then the
      part after. */
  lemma CutBeforeRejoin(s: string, c: char)
    ensures s == CutBefore(s, c).before + CutBefore(s, c).after
  {
  }

  /** The results of CutFirst are the only ones with its properties. */
  lemma CutFirstUnique(s: string, c: char, r: Cut)
    requires c !in r.before
    requires r.found ==> s == r.before + [c] + r.after
    requires !r.found ==> s == r.before && r.after == []
    ensures r == CutFirst(s, c)
  {
    var i := Index(s, c);
    if r.found {
      var n := |r.before|;
      assert s[n] == c;
      assert s[..n] == r.before;
      assert i == n;
      assert s[n + 1..] == r.after;
    } else {
      assert s == r.before;
    }
  }

  /** Cut just before the first `c`, which then starts the part after. */
  function CutBefore(s: string, c: char): (r: Cut)
    ensures r.found <==> c in s
    ensures c !in r.before
    ensures r.found ==> s == r.before + r.after && r.after != [] && r.after[0] == c
    ensures !r.found ==> s == r.before && r.after == []
  {
    var i := Index(s, c);
    if i == -1 then Cut(s, [], false)
    else
      assert s == s[..i] + s[i..];
      Cut(s[..i], s[i..], true)
  }

  /** Cutting just before the first delimiter, when there is one. */
  lemma CutBeforeAt(a: string, b: string, c: char)
    requires c !in a && b != [] && b[0] == c
    ensures CutBefore(a + b, c) == Cut(a, b, true)
  {
    var s := a + b;
    assert s[|a|] == c;
    assert s[..|a|] == a;
    var i := Index(s, c);
    assert i == |a|;
    assert s[|a|..] == b;
  }

  /** Cutting just before the first delimiter, when there is none. */
  lemma CutBeforeAbsent(s: string, c: char)
    requires c !in s
    ensures CutBefore(s, c) == Cut(s, [], false)
  {
  }

  /** Cutting where the delimiter first occurs. */
  lemma CutFirstAt(a: string, b: string, c: char)
    requires c !in a
    ensures CutFirst(a + [c] + b, c) == Cut(a, b, true)
  {
    CutFirstUnique(a + [c] + b, c, Cut(a, b, true));
  }

  /** Cutting where the delimiter does not occur. */
  lemma CutFirstAbsent(s: string, c: char)
    requires c !in s
    ensures CutFirst(s, c) == Cut(s, [], false)
  {
    CutFirstUnique(s, c, Cut(s, [], false));
  }

  /** The cut at the first delimiter in terms of the position Index reports. */
  lemma FirstCutByIndex(s: string, c: char)
    ensures var i := Index(s, c);
      CutFirst(s, c) == if i == -1 then Cut(s, [], false) else Cut(s[..i], s[i + 1..], true)
  {
  }

  /** The cut just before the first delimiter in terms of the position Index
      reports. */
  lemma BeforeCutByIndex(s: string, c: char)
    ensures var i := Index(s, c);
      CutBefore(s, c) == if i == -1 then Cut(s, [], false) else Cut(s[..i], s[i..], true)
  {
  }

  /** The strings.Split pieces joined back with the separator. */
  function Join(parts: seq<string>, c: char): (s: string)
    requires |parts| >= 1
  {
    if |parts| == 1 then parts[0] else parts[0] + [c] + Join(parts[1..], c)
  }

  /** strings.Split with a one-character separator: the maximal pieces between
      separators, in order; the empty string splits into one empty piece. */
  function Split(s: string, c: char): (parts: seq<string>)
    ensures |parts| >= 1
    decreases |s|
  {
    var i := Index(s, c);
    if i == -1 then [s] else [s[..i]] + Split(s[i + 1..], c)
  }

  /** Joining the pieces with the separator gives back the string. */
  lemma {:induction false} SplitJoin(s: string, c: char)
    ensures Join(Split(s, c), c) == s
    decreases |s|
  {
    var i := Index(s, c);
    if i != -1 {
      var rest := Split(s[i + 1..], c);
      assert Split(s, c) == [s[..i]] + rest;
      SplitJoin(s[i + 1..], c);
      JoinCons(s[..i], rest, c);
      RejoinAt(s, i);
    }
  }

  /** A sequence is the part before a position, the element there and the
      part after. */
  lemma RejoinAt<T>(s: seq<T>, i: int)
    requires 0 <= i < |s|
    ensures s == s[..i] + [s[i]] + s[i + 1..]
  {
  }

  /** Joining a piece in front of further pieces puts the separator between. */
  lemma JoinCons(p: string, rest: seq<string>, c: char)
    requires |rest| >= 1
    ensures Join([p] + rest, c) == p + [c] + Join(rest, c)
  {
    assert ([p] + rest)[1..] == rest;
  }

  /** No piece contains the separator. */
  lemma {:induction false} SplitPieces(s: string, c: char)
    ensures forall k :: 0 <= k < |Split(s, c)| ==> c !in Split(s, c)[k]
    decreases |s|
  {
    var i := Index(s, c);
    if i != -1 {
      SplitPieces(s[i + 1..], c);
      var rest := Split(s[i + 1..], c);
      assert Split(s, c) == [s[..i]] + rest;
    }
  }

  /** A string without the separator is a single piece. */
  lemma SplitAbsent(s: string, c: char)
    requires c !in s
    ensures Split(s, c) == [s]
  {
  }

  /** The first separator of `a + [c] + b` is the one after `a` when `a` has none. */
  lemma IndexAfter(a: string, b: string, c: char)
    requires c !in a
    ensures Index(a + [c] + b, c) == |a|
  {
    var s := a + [c] + b;
    assert s[|a|] == c;
    assert s[..|a|] == a;
  }

  /** Splitting at the first separator: the first piece, then the pieces of the rest. */
  lemma SplitFirst(a: string, b: string, c: char)
    requires c !in a
    ensures Split(a + [c] + b, c) == [a] + Split(b, c)
  {
    var s := a + [c] + b;
    IndexAfter(a, b, c);
    assert s[..|a|] == a;
    assert s[|a| + 1..] == b;
  }

  /** Three pieces joined by two separators split back into those pieces. */
  lemma SplitThree(a: string, b: string, d: string, c: char)
    requires c !in a && c !in b && c !in d
    ensures Split(a + [c] + b + [c] + d, c) == [a, b, d]
  {
    var rest := b + [c] + d;
    AppendAssoc(a + [c] + b, [c], d);
    AppendAssoc(a + [c], b, [c] + d);
    AppendAssoc(b, [c], d);
    assert a + [c] + b + [c] + d == a + [c] + rest;
    SplitFirst(a, rest, c);
    SplitFirst(b, d, c);
    SplitAbsent(d, c);
    ThreeItems(a, b, d);
  }

  /** Sequence displays of up to three items, built one item at a time. */
  lemma ThreeItems<T>(x: T, y: T, z: T)
    ensures [x] + ([y] + [z]) == [x, y, z]
    ensures [] + [x] == [x] && [x] + [y] == [x, y] && [x, y] + [z] == [x, y, z]
  {
  }

  lemma AppendAssoc<T>(p: seq<T>, q: seq<T>, r: seq<T>)
    ensures p + (q + r) == (p + q) + r
  {
  }

  /** Splitting a joined string splits it at the joint. */
  lemma {:induction false} SplitAppend(a: string, b: string, c: char)
    ensures Split(a + [c] + b, c) == Split(a, c) + Split(b, c)
    decreases |a|
  {
    var i := Index(a, c);
    if i == -1 {
      SplitFirst(a, b, c);
    } else {
      var head, tail := a[..i], a[i + 1..];
      assert a == head + [c] + tail;
      assert a + [c] + b == head + [c] + (tail + [c] + b);
      SplitFirst(head, tail + [c] + b, c);
      SplitFirst(head, tail, c);
      SplitAppend(tail, b, c);
      AppendAssoc([head], Split(tail, c), Split(b, c));
    }
  }
}
