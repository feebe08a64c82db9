/** The raw URL record and its parser: the input is cut, in a fixed order and
    each time at the first occurrence of a delimiter, into scheme, fragment,
    query, path and host. Nothing is decoded or normalised. */
module Url {
  import opened Strings

  /** A URL as the parser leaves it: the input itself and the five pieces. */
  datatype URL = URL(
    original: string,
    scheme: string,
    host: string,
    path: string,
    query: string,
    fragment: string)

  const SchemeSeparator: string := "://"

  /** The string form of a URL is the input it was parsed from. */
  function String(u: URL): (s: string) {
    u.original
  }

  /** "://" starts at position `i` of `s`. */
  predicate SeparatorAt(s: string, i: int) {
    0 <= i && i + 3 <= |s| && s[i] == ':' && s[i + 1] == '/' && s[i + 2] == '/'
  }

  /** `s` contains "://" somewhere. */
  predicate HasSeparator(s: string) {
    exists i :: 0 <= i < |s| && SeparatorAt(s, i)
  }

  /** strings.Index(s, "://") searching from position `k` on. */
  function SeparatorIndexFrom(s: string, k: nat): (i: int)
    requires k <= |s|
    ensures i == -1 || (k <= i && SeparatorAt(s, i))
    ensures i == -1 ==> forall j :: k <= j < |s| ==> !SeparatorAt(s, j)
    ensures i != -1 ==> forall j :: k <= j < i ==> !SeparatorAt(s, j)
    decreases |s| - k
  {
    if k == |s| then -1
    else if SeparatorAt(s, k) then k
    else SeparatorIndexFrom(s, k + 1)
  }

  /** strings.Index(s, "://"): the first position of the separator, or -1. */
  function SeparatorIndex(s: string): (i: int)
    ensures i == -1 <==> !HasSeparator(s)
    ensures i != -1 ==> SeparatorAt(s, i) && forall j :: 0 <= j < i ==> !SeparatorAt(s, j)
  {
    SeparatorIndexFrom(s, 0)
  }

  /** Cut at the first "://"; the separator belongs to neither side. */
  function CutScheme(s: string): (r: Cut)
    ensures r.found <==> HasSeparator(s)
    ensures !HasSeparator(r.before)
    ensures r.found ==> s == r.before + SchemeSeparator + r.after
    ensures r.found ==> SeparatorAt(s, |r.before|) && forall j :: 0 <= j < |r.before| ==> !SeparatorAt(s, j)
    ensures !r.found ==> s == r.before && r.after == []
  {
    var i := SeparatorIndex(s);
    if i == -1 then Cut(s, [], false)
    else
      assert s == s[..i] + SchemeSeparator + s[i + 3..] by {
        assert s[i..i + 3] == SchemeSeparator;
        assert s == s[..i] + s[i..i + 3] + s[i + 3..];
      }
      assert forall j :: 0 <= j < i && SeparatorAt(s[..i], j) ==> SeparatorAt(s, j);
      Cut(s[..i], s[i + 3..], true)
  }

  /** Which of the delimiters the cuts found: "://", '#' and '?'. The parsed
      record does not keep these; they are what tells an empty component from
      a missing one. */
  datatype Delimiters = Delimiters(scheme: bool, fragment: bool, query: bool)

  datatype Parsed = Parsed(url: URL, found: Delimiters)

  /** What every parse result looks like: the scheme holds no "://"; host,
      path and query hold no '#'; host and path hold no '?'; the host holds no
      '/'; the path is empty or starts with '/'; and a component whose
      delimiter was not found is empty. The fragment is unconstrained. */
  predicate WellShaped(u: URL, d: Delimiters) {
    && !HasSeparator(u.scheme)
    && (!d.scheme ==> u.scheme == [])
    && (!d.fragment ==> u.fragment == [])
    && (!d.query ==> u.query == [])
    && PlainHost(u.host) && PlainPath(u.path) && '#' !in u.query
  }

  /** A host as the parser leaves it: no '#', '?' or '/'. */
  predicate PlainHost(h: string) {
    '#' !in h && '?' !in h && '/' !in h
  }

  /** A path as the parser leaves it: no '#' or '?', and empty or led by '/'. */
  predicate PlainPath(p: string) {
    '#' !in p && '?' !in p && (p == [] || p[0] == '/')
  }

  /** The five cuts, in the parser's order. */
  function Decompose(raw: string): (r: Parsed)
    ensures r.url.original == raw
    ensures r.found.scheme <==> HasSeparator(raw)
    ensures WellShaped(r.url, r.found)
  {
    var s := CutScheme(raw);
    var rest := if s.found then s.after else raw;
    var f := CutFirst(rest, '#');
    var q := CutFirst(f.before, '?');
    var p := CutBefore(q.before, '/');
    Parsed(
      URL(raw, if s.found then s.before else [], p.before, p.after, q.after, f.after),
      Delimiters(s.found, f.found, q.found))
  }

  /** The specification of RawURLParse. */
  function Parse(raw: string): (u: URL) {
    Decompose(raw).url
  }

  /** The input rebuilt from the pieces, each delimiter put back exactly when
      it was found. */
  function Assemble(u: URL, d: Delimiters): (s: string) {
    (if d.scheme then u.scheme + SchemeSeparator else [])
    + u.host + u.path
    + (if d.query then ['?'] + u.query else [])
    + (if d.fragment then ['#'] + u.fragment else [])
  }

  /** RawURLParse (url.go): fills the record one field at a time, cutting
      `remaining` down after each delimiter search. */
  method RawURLParse(rawURL: string) returns (result: URL)
    ensures result == Parse(rawURL)
  {
    result := URL(rawURL, [], [], [], [], []);
    var remaining := rawURL;
    var part: string;

    ghost var s := CutScheme(rawURL);
    part, remaining := TakeScheme(remaining);
    result := result.(scheme := part);

    ghost var f := CutFirst(remaining, '#');
    part, remaining := TakeAfter(remaining, '#');
    result := result.(fragment := part);

    ghost var q := CutFirst(remaining, '?');
    part, remaining := TakeAfter(remaining, '?');
    result := result.(query := part);

    ghost var p := CutBefore(remaining, '/');
    part, remaining := TakeFrom(remaining, '/');
    result := result.(path := part);

    result := result.(host := remaining);
    DecomposeByCuts(rawURL, s, f, q, p);
  }

  /** The scheme step of RawURLParse: the text before the first "://" and the
      text after it, or nothing and the whole input when there is none. */
  method TakeScheme(remaining: string) returns (scheme: string, rest: string)
    ensures var s := CutScheme(remaining);
      scheme == (if s.found then s.before else []) && rest == (if s.found then s.after else remaining)
  {
    scheme, rest := [], remaining;
    var idx := SeparatorIndex(remaining);
    SchemeCutByIndex(remaining);
    if idx != -1 {
      scheme := remaining[..idx];
      rest := remaining[idx + 3..];
    }
  }

  /** The fragment and query steps of RawURLParse: the text after the first
      `c` becomes the component, the text before it what remains. */
  method TakeAfter(remaining: string, c: char) returns (part: string, rest: string)
    ensures part == CutFirst(remaining, c).after && rest == CutFirst(remaining, c).before
  {
    part, rest := [], remaining;
    var idx := Index(remaining, c);
    FirstCutByIndex(remaining, c);
    if idx != -1 {
      part := remaining[idx + 1..];
      rest := remaining[..idx];
    }
  }

  /** The path step of RawURLParse: the text from the first `c` on becomes
      the path, the text before it the host. */
  method TakeFrom(remaining: string, c: char) returns (part: string, rest: string)
    ensures part == CutBefore(remaining, c).after && rest == CutBefore(remaining, c).before
  {
    part, rest := [], remaining;
    var idx := Index(remaining, c);
    BeforeCutByIndex(remaining, c);
    if idx != -1 {
      part := remaining[idx..];
      rest := remaining[..idx];
    }
  }

  /** The scheme cut in terms of the position SeparatorIndex reports. */
  lemma SchemeCutByIndex(s: string)
    ensures var i := SeparatorIndex(s);
      && (i == -1 || (0 <= i && i + 3 <= |s|))
      && CutScheme(s) == if i == -1 then Cut(s, [], false) else Cut(s[..i], s[i + 3..], true)
  {
  }

  /** Decompose spelled out cut by cut. */
  lemma DecomposeByCuts(raw: string, s: Cut, f: Cut, q: Cut, p: Cut)
    requires s == CutScheme(raw)
    requires f == CutFirst(if s.found then s.after else raw, '#')
    requires q == CutFirst(f.before, '?')
    requires p == CutBefore(q.before, '/')
    ensures Decompose(raw) == Parsed(
      URL(raw, if s.found then s.before else [], p.before, p.after, q.after, f.after),
      Delimiters(s.found, f.found, q.found))
  {
  }

  /** Five nested splits of a string, read back left to right. */
  lemma ConcatFive(raw: string, ss: string, rest: string, fb: string, fs: string,
                   qb: string, qs: string, host: string, path: string)
    requires raw == ss + rest && rest == fb + fs && fb == qb + qs && qb == host + path
    ensures raw == ss + host + path + qs + fs
  {
  }

  /** Putting back the delimiters that were found gives the input again. */
  lemma ParseReassembles(raw: string)
    ensures Assemble(Parse(raw), Decompose(raw).found) == raw
  {
    var s := CutScheme(raw);
    var rest := if s.found then s.after else raw;
    var f := CutFirst(rest, '#');
    var q := CutFirst(f.before, '?');
    var p := CutBefore(q.before, '/');
    DecomposeByCuts(raw, s, f, q, p);
    var ss := if s.found then s.before + SchemeSeparator else [];
    var fs := if f.found then ['#'] + f.after else [];
    var qs := if q.found then ['?'] + q.after else [];
    assert raw == ss + rest;
    CutFirstRejoin(rest, '#');
    assert rest == f.before + fs;
    CutFirstRejoin(f.before, '?');
    assert f.before == q.before + qs;
    CutBeforeRejoin(q.before, '/');
    ConcatFive(raw, ss, rest, f.before, fs, q.before, qs, p.before, p.after);
  }

  /** The first "://" of `a + "://" + b` is the one after `a` when `a` holds
      none: no occurrence can straddle the end of `a`, since the separator
      starts with ':' and continues with '/'. */
  lemma CutSchemeAt(a: string, b: string)
    requires !HasSeparator(a)
    ensures CutScheme(a + SchemeSeparator + b) == Cut(a, b, true)
  {
    var s := a + SchemeSeparator + b;
    var n := |a|;
    assert SeparatorAt(s, n);
    forall j | 0 <= j < n ensures !SeparatorAt(s, j) {
      if j + 3 <= n {
        assert !SeparatorAt(a, j);
      }
    }
    assert SeparatorIndex(s) == n;
    assert s[..n] == a;
    assert s[n + 3..] == b;
  }

  /** The assembled string is the scheme part followed by the rest. */
  lemma AssembleAfterScheme(u: URL, d: Delimiters, hp: string, hpq: string, rest: string)
    requires hp == u.host + u.path
    requires hpq == hp + (if d.query then ['?'] + u.query else [])
    requires rest == hpq + (if d.fragment then ['#'] + u.fragment else [])
    ensures Assemble(u, d) == (if d.scheme then u.scheme + SchemeSeparator else []) + rest
  {
    var ss := if d.scheme then u.scheme + SchemeSeparator else [];
    var qs := if d.query then ['?'] + u.query else [];
    var fs := if d.fragment then ['#'] + u.fragment else [];
    AppendAssoc(ss, u.host, u.path);
    AppendAssoc(ss, hp, qs);
    AppendAssoc(ss, hpq, fs);
  }

  /** The fragment cut of what follows the scheme. */
  lemma FragmentCutOf(u: URL, d: Delimiters, hpq: string, rest: string)
    requires WellShaped(u, d)
    requires hpq == u.host + u.path + (if d.query then ['?'] + u.query else [])
    requires rest == hpq + (if d.fragment then ['#'] + u.fragment else [])
    ensures CutFirst(rest, '#') == Cut(hpq, u.fragment, d.fragment)
  {
    assert '#' !in hpq;
    if d.fragment {
      AppendAssoc(hpq, ['#'], u.fragment);
      CutFirstAt(hpq, u.fragment, '#');
    } else {
      assert rest == hpq;
      CutFirstAbsent(rest, '#');
    }
  }

  /** The query cut of what precedes the fragment. */
  lemma QueryCutOf(u: URL, d: Delimiters, hp: string, hpq: string)
    requires WellShaped(u, d)
    requires hp == u.host + u.path
    requires hpq == hp + (if d.query then ['?'] + u.query else [])
    ensures CutFirst(hpq, '?') == Cut(hp, u.query, d.query)
  {
    assert '?' !in hp;
    if d.query {
      AppendAssoc(hp, ['?'], u.query);
      CutFirstAt(hp, u.query, '?');
    } else {
      assert hpq == hp;
      CutFirstAbsent(hpq, '?');
    }
  }

  /** The path cut of what precedes the query. */
  lemma PathCutOf(u: URL, d: Delimiters, hp: string)
    requires WellShaped(u, d)
    requires hp == u.host + u.path
    ensures CutBefore(hp, '/') == Cut(u.host, u.path, u.path != [])
  {
    if u.path == [] {
      assert hp == u.host;
      CutBeforeAbsent(hp, '/');
    } else {
      CutBeforeAt(u.host, u.path, '/');
    }
  }

  /** Parsing the assembled string gives back the very pieces and delimiter
      flags it was assembled from, for every well-shaped record whose
      assembled form has no "://" in it unless a scheme was put there. */
  lemma DecomposeAssembled(u: URL, d: Delimiters)
    requires WellShaped(u, d)
    requires !d.scheme ==> !HasSeparator(Assemble(u, d))
    ensures Decompose(Assemble(u, d)) == Parsed(u.(original := Assemble(u, d)), d)
  {
    var raw := Assemble(u, d);
    var hp := u.host + u.path;
    var hpq := hp + (if d.query then ['?'] + u.query else []);
    var rest := hpq + (if d.fragment then ['#'] + u.fragment else []);
    AssembleAfterScheme(u, d, hp, hpq, rest);
    var s := CutScheme(raw);
    if d.scheme {
      AppendAssoc(u.scheme, SchemeSeparator, rest);
      CutSchemeAt(u.scheme, rest);
      assert s == Cut(u.scheme, rest, true);
    } else {
      assert raw == rest;
      assert s == Cut(rest, [], false);
    }
    var f := CutFirst(rest, '#');
    FragmentCutOf(u, d, hpq, rest);
    var q := CutFirst(hpq, '?');
    QueryCutOf(u, d, hp, hpq);
    var p := CutBefore(hp, '/');
    PathCutOf(u, d, hp);
    DecomposeByCuts(raw, s, f, q, p);
  }

  /** A string without ':' holds no "://". */
  lemma NoColonNoSeparator(s: string)
    requires ':' !in s
    ensures !HasSeparator(s)
  {
    forall i | 0 <= i < |s| ensures !SeparatorAt(s, i) {
      assert s[i] in s;
    }
  }

  /** A string without '/' holds no "://". */
  lemma NoSlashNoSeparator(s: string)
    requires '/' !in s
    ensures !HasSeparator(s)
  {
    forall i | 0 <= i < |s| ensures !SeparatorAt(s, i) {
      if i + 1 < |s| {
        assert s[i + 1] in s;
      }
    }
  }

  /** The scheme is the text before the first "://" of the input. */
  lemma SchemeBeforeFirstSeparator(raw: string)
    requires HasSeparator(raw)
    ensures var n := |Parse(raw).scheme|;
      && n + 3 <= |raw| && raw[..n] == Parse(raw).scheme && SeparatorAt(raw, n)
      && forall j :: 0 <= j < n ==> !SeparatorAt(raw, j)
  {
    var s := CutScheme(raw);
    assert raw[..|s.before|] == s.before;
  }

  /** String() returns exactly what was parsed. */
  lemma StringIsInput(raw: string)
    ensures String(Parse(raw)) == raw
  {
  }
}
