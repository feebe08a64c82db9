/** How the parser (url.go) and the reassembler (helpers.go) fit together:
    the parsed components, carried over into a RawURL without userinfo and
    written out by FullString. */
module RoundTrip {
  import opened Strings
  import opened Url
  import opened Helpers

  /** The parsed components as a RawURL; the parser never produces userinfo. */
  function FromParsed(u: URL): (v: RawURL)
    ensures v.user == None
  {
    RawURL(u.scheme, None, u.host, u.path, u.query, u.fragment)
  }

  /** The delimiters FullString writes: exactly those whose component is
      not empty. */
  function WrittenDelimiters(u: URL): (d: Delimiters) {
    Delimiters(u.scheme != [], u.fragment != [], u.query != [])
  }

  /** FullString of a parse result puts back the delimiters of the non-empty
      components. */
  lemma ComposeIsAssemble(u: URL)
    ensures Compose(FromParsed(u)) == Assemble(u, WrittenDelimiters(u))
  {
    var v := FromParsed(u);
    assert SchemePart(v) + UserPart(v.user) == SchemePart(v);
  }

  /** The parser found a delimiter with nothing behind it: "://" at the very
      start, a '?' with an empty query or a '#' with an empty fragment. */
  predicate LosesDelimiter(p: Parsed) {
    || (p.found.scheme && p.url.scheme == [])
    || (p.found.query && p.url.query == [])
    || (p.found.fragment && p.url.fragment == [])
  }

  /** FullString of the parsed components gives back the input exactly when
      no delimiter the parser found has an empty component; otherwise the
      result is strictly shorter. */
  lemma FullStringOfParse(s: string)
    ensures Compose(FromParsed(Parse(s))) == s <==> !LosesDelimiter(Decompose(s))
    ensures LosesDelimiter(Decompose(s)) ==> |Compose(FromParsed(Parse(s)))| < |s|
  {
    var p := Decompose(s);
    var u := p.url;
    ParseReassembles(s);
    ComposeIsAssemble(u);
    AssembleLength(u, p.found);
    AssembleLength(u, WrittenDelimiters(u));
    if !LosesDelimiter(p) {
      assert WrittenDelimiters(u) == p.found;
    }
  }

  /** The length of an assembled text: the pieces, and one or three
      characters per delimiter put back. */
  lemma AssembleLength(u: URL, d: Delimiters)
    ensures |Assemble(u, d)| == (if d.scheme then |u.scheme| + 3 else 0) + |u.host| + |u.path|
      + (if d.query then 1 + |u.query| else 0) + (if d.fragment then 1 + |u.fragment| else 0)
  {
  }

  /** What FullString rebuilds from a parse result it can parse back: the
      record's fields, in the shapes the parser produces, and no "://" in
      the rebuilt text unless a scheme comes first. */
  predicate Reparsable(v: RawURL) {
    && v.user == None
    && WellShaped(ToParsed(v, []), WrittenDelimiters(ToParsed(v, [])))
    && (v.scheme == [] ==> !HasSeparator(Compose(v)))
  }

  /** The record as the parser's URL, with the given original text. */
  function ToParsed(v: RawURL, original: string): (u: URL)
    ensures FromParsed(u) == v.(user := None)
  {
    URL(original, v.scheme, v.host, v.path, v.query, v.fragment)
  }

  /** Parsing what FullString writes gives back the record, for every record
      of the shape the parser produces. */
  lemma ParseOfFullString(v: RawURL)
    requires Reparsable(v)
    ensures FromParsed(Parse(Compose(v))) == v
  {
    var u := ToParsed(v, []);
    var d := WrittenDelimiters(u);
    ComposeIsAssemble(u);
    assert FromParsed(u) == v;
    DecomposeAssembled(u, d);
  }

  /** The text after the host: the path, then the query and the fragment
      with their delimiters. */
  function AfterAuthority(p: Parsed): (s: string) {
    p.url.path
    + (if p.found.query then ['?'] + p.url.query else [])
    + (if p.found.fragment then ['#'] + p.url.fragment else [])
  }

  /** Five pieces, regrouped after the second. */
  lemma Regroup<T>(a: seq<T>, b: seq<T>, c: seq<T>, d: seq<T>, e: seq<T>)
    ensures a + b + c + d + e == a + b + (c + d + e)
  {
  }

  /** The assembled text is the scheme part, the host, and what follows. */
  lemma AssembleAtHost(p: Parsed)
    ensures Assemble(p.url, p.found)
      == (if p.found.scheme then p.url.scheme + SchemeSeparator else []) + p.url.host + AfterAuthority(p)
  {
    Regroup(if p.found.scheme then p.url.scheme + SchemeSeparator else [], p.url.host, p.url.path,
      if p.found.query then ['?'] + p.url.query else [],
      if p.found.fragment then ['#'] + p.url.fragment else []);
  }

  /** What follows the host of a parse result is empty or starts with a
      delimiter. */
  lemma AfterAuthorityStart(p: Parsed)
    requires WellShaped(p.url, p.found)
    ensures var t := AfterAuthority(p);
      t == [] || t[0] == '/' || t[0] == '?' || t[0] == '#'
  {
  }

  /** The authority GetRawAuthority reports for a parsed URL is the text
      after the first "://" (or from the start, when there is none) up to the
      first '/', '?' or '#' after it, or to the end. */
  lemma AuthorityOfParse(s: string)
    ensures var p := Decompose(s);
      var a := GetRawAuthority(FromParsed(p.url));
      var tail := AfterAuthority(p);
      && s == (if p.found.scheme then p.url.scheme + SchemeSeparator else []) + a + tail
      && '/' !in a && '?' !in a && '#' !in a
      && (tail == [] || tail[0] == '/' || tail[0] == '?' || tail[0] == '#')
  {
    var p := Decompose(s);
    ParseReassembles(s);
    AssembleAtHost(p);
    AfterAuthorityStart(p);
  }

  /** "://a/b://c": the leading "://" leaves the scheme empty. */
  lemma LeadingSeparatorParse()
    ensures var u := Parse("://" + "a" + "/b://c");
      u.scheme == "" && u.host == "a" && u.path == "/b://c" && u.query == "" && u.fragment == ""
  {
    var u := URL("", "", "a", "/b://c", "", "");
    var d := Delimiters(true, false, false);
    NoColonNoSeparator(u.scheme);
    assert WellShaped(u, d);
    assert Assemble(u, d) == "://" + "a" + "/b://c";
    DecomposeAssembled(u, d);
  }

  /** "a/b://c": the first "://" comes after the slash. */
  lemma InnerSeparatorParse()
    ensures var u := Parse("a/b" + "://" + "c");
      u.scheme == "a/b" && u.host == "c" && u.path == ""
  {
    var u := URL("", "a/b", "c", "", "", "");
    var d := Delimiters(true, false, false);
    NoColonNoSeparator(u.scheme);
    assert WellShaped(u, d);
    assert Assemble(u, d) == "a/b" + "://" + "c";
    DecomposeAssembled(u, d);
  }

  /** Rebuilding can change how the text parses: "://a/b://c" has an empty
      scheme, host "a" and path "/b://c"; FullString drops the leading "://",
      and the result "a/b://c" parses with scheme "a/b" and host "c". */
  lemma RebuildCanReparseDifferently()
    ensures var u := Parse("://" + "a" + "/b://c");
      var t := Compose(FromParsed(u));
      && t == "a/b" + "://" + "c"
      && Parse(t).scheme == "a/b" && Parse(t).host == "c"
      && Parse(t).host != u.host
  {
    LeadingSeparatorParse();
    InnerSeparatorParse();
    RebuiltText(Parse("://" + "a" + "/b://c"));
  }

  /** The text FullString writes for host "a" and path "/b://c". */
  lemma RebuiltText(u: URL)
    requires u.scheme == "" && u.host == "a" && u.path == "/b://c" && u.query == "" && u.fragment == ""
    ensures Compose(FromParsed(u)) == "a/b" + "://" + "c"
  {
    ComposeIsAssemble(u);
  }
}
