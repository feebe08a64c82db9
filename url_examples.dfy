/** The parser's behaviour on the inputs of its own test table and usage
    example, and on inputs whose forms it does not single out. Each input is
    written as the concatenation of its pieces. */
module UrlExamples {
  import opened Strings
  import opened Url

  /** The components of an example, each checked on its own, make a parse
      result. */
  lemma ShapeOf(u: URL, d: Delimiters)
    requires ':' !in u.scheme && (!d.scheme ==> u.scheme == [])
    requires PlainHost(u.host) && PlainPath(u.path) && '#' !in u.query
    requires (!d.fragment ==> u.fragment == []) && (!d.query ==> u.query == [])
    ensures WellShaped(u, d)
  {
    NoColonNoSeparator(u.scheme);
  }

  lemma ExampleHost()
    ensures PlainHost("example.com")
  {
  }

  /** "https://example.com/path": no query and no fragment. */
  lemma BasicUrl()
    ensures var u := Parse("https" + "://" + "example.com" + "/path");
      u.scheme == "https" && u.host == "example.com" && u.path == "/path"
      && u.query == "" && u.fragment == ""
  {
    var u := URL("", "https", "example.com", "/path", "", "");
    var d := Delimiters(true, false, false);
    ExampleHost();
    ShapeOf(u, d);
    assert Assemble(u, d) == "https" + "://" + "example.com" + "/path";
    DecomposeAssembled(u, d);
  }

  lemma EverythingPath()
    ensures PlainPath("/path1/path2%2f;/")
  {
  }

  /** "https://example.com/path1/path2%2f;/?q=1#f": every component, the
      encoded slash and the ';' left in the path as written. */
  lemma UrlWithEverything()
    ensures var u := Parse("https" + "://" + "example.com" + "/path1/path2%2f;/" + "?" + "q=1" + "#" + "f");
      u.scheme == "https" && u.host == "example.com" && u.path == "/path1/path2%2f;/"
      && u.query == "q=1" && u.fragment == "f"
  {
    var u := URL("", "https", "example.com", "/path1/path2%2f;/", "q=1", "f");
    var d := Delimiters(true, true, true);
    ExampleHost();
    EverythingPath();
    ShapeOf(u, d);
    assert Assemble(u, d) == "https" + "://" + "example.com" + "/path1/path2%2f;/" + "?" + "q=1" + "#" + "f" by {
      AppendAssoc(u.scheme + SchemeSeparator + u.host + u.path, "?", u.query);
      AppendAssoc(u.scheme + SchemeSeparator + u.host + u.path + "?" + u.query, "#", u.fragment);
    }
    DecomposeAssembled(u, d);
  }

  lemma TraversalPath()
    ensures PlainPath("/path1/..%2f/")
  {
  }

  /** "http://example.com/path1/..%2f/": the traversal stays in the path. */
  lemma PathTraversalRaw()
    ensures var u := Parse("http" + "://" + "example.com" + "/path1/..%2f/");
      u.scheme == "http" && u.host == "example.com" && u.path == "/path1/..%2f/"
      && u.query == "" && u.fragment == ""
  {
    var u := URL("", "http", "example.com", "/path1/..%2f/", "", "");
    var d := Delimiters(true, false, false);
    ExampleHost();
    TraversalPath();
    ShapeOf(u, d);
    assert Assemble(u, d) == "http" + "://" + "example.com" + "/path1/..%2f/";
    DecomposeAssembled(u, d);
  }

  lemma EncodedTraversalPath()
    ensures PlainPath("/path1%2f..%2f/path2")
  {
  }

  /** "https://example.com/path1%2f..%2f/path2#fragment?query=1": the '?'
      after the '#' is part of the fragment, and there is no query. */
  lemma QueryInsideFragment()
    ensures var u := Parse("https" + "://" + "example.com" + "/path1%2f..%2f/path2" + "#" + "fragment?query=1");
      u.scheme == "https" && u.host == "example.com" && u.path == "/path1%2f..%2f/path2"
      && u.query == "" && u.fragment == "fragment?query=1"
  {
    var u := URL("", "https", "example.com", "/path1%2f..%2f/path2", "", "fragment?query=1");
    var d := Delimiters(true, true, false);
    ExampleHost();
    EncodedTraversalPath();
    ShapeOf(u, d);
    assert Assemble(u, d) == "https" + "://" + "example.com" + "/path1%2f..%2f/path2" + "#" + "fragment?query=1" by {
      AppendAssoc(u.scheme + SchemeSeparator + u.host + u.path, "#", u.fragment);
    }
    DecomposeAssembled(u, d);
  }

  /** "https://example.com/a?b=1#c?d=2": the fragment is cut off before the
      query is looked for. */
  lemma FragmentBeforeQuery()
    ensures var u := Parse("https" + "://" + "example.com" + "/a" + "?" + "b=1" + "#" + "c?d=2");
      u.query == "b=1" && u.fragment == "c?d=2"
  {
    var u := URL("", "https", "example.com", "/a", "b=1", "c?d=2");
    var d := Delimiters(true, true, true);
    ExampleHost();
    ShapeOf(u, d);
    assert Assemble(u, d) == "https" + "://" + "example.com" + "/a" + "?" + "b=1" + "#" + "c?d=2" by {
      AppendAssoc(u.scheme + SchemeSeparator + u.host + u.path, "?", u.query);
      AppendAssoc(u.scheme + SchemeSeparator + u.host + u.path + "?" + u.query, "#", u.fragment);
    }
    DecomposeAssembled(u, d);
  }

  /** A string with no delimiter at all assembles to itself. */
  lemma HostOnly(h: string)
    ensures Assemble(URL("", "", h, "", "", ""), Delimiters(false, false, false)) == h
  {
  }

  lemma MailtoHost()
    ensures PlainHost("mailto:" + "user@" + "example.com")
  {
    ExampleHost();
  }

  /** "mailto:user@example.com": without "://" there is no scheme; the whole
      input is the host. The parser has no opaque form. */
  lemma NoOpaqueForm()
    ensures var u := Parse("mailto:" + "user@" + "example.com");
      u.scheme == "" && u.host == "mailto:" + "user@" + "example.com" && u.path == ""
      && u.query == "" && u.fragment == ""
  {
    var u := URL("", "", "mailto:" + "user@" + "example.com", "", "", "");
    var d := Delimiters(false, false, false);
    MailtoHost();
    ShapeOf(u, d);
    HostOnly(u.host);
    NoSlashNoSeparator(u.host);
    DecomposeAssembled(u, d);
  }

  /** "http://user:@h/x": userinfo is not split off; it stays in the host. */
  lemma UserinfoStaysInHost()
    ensures var u := Parse("http" + "://" + "user:@h" + "/x");
      u.scheme == "http" && u.host == "user:@h" && u.path == "/x"
  {
    var u := URL("", "http", "user:@h", "/x", "", "");
    var d := Delimiters(true, false, false);
    ShapeOf(u, d);
    assert Assemble(u, d) == "http" + "://" + "user:@h" + "/x";
    DecomposeAssembled(u, d);
  }
}
