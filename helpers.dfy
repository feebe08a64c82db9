/** The helpers over a RawURL record: rebuilding the URL text, the
    authority, host name and port accessors, the query multimap, the search
    for the last occurrence of a rune, the hex formatting of runes and the
    rune set. */
module Helpers {
  import opened Strings
  import opened Encoding

  datatype Option<T> = None | Some(value: T)

  /** The user part of an authority. `passwordSet` tells an empty password
      ("user:@") from an absent one ("user@"). */
  datatype Userinfo = Userinfo(username: string, password: string, passwordSet: bool)

  /** The record the helpers read: the parsed components and optional userinfo. */
  datatype RawURL = RawURL(
    scheme: string,
    user: Option<Userinfo>,
    host: string,
    path: string,
    query: string,
    fragment: string)

  // ---------------------------------------------------------------------
  // FullString

  /** The scheme and "://", when there is a scheme. */
  function SchemePart(u: RawURL): (s: string) {
    if u.scheme != [] then u.scheme + "://" else []
  }

  /** The username, then ':' and the password when one is set, then '@'. */
  function UserinfoText(ui: Userinfo): (s: string) {
    ui.username + (if ui.passwordSet then ":" + ui.password else []) + "@"
  }

  function UserPart(user: Option<Userinfo>): (s: string) {
    match user
    case None => []
    case Some(ui) => UserinfoText(ui)
  }

  /** '?' and the query, when the query is not empty. */
  function QueryPart(u: RawURL): (s: string) {
    if u.query != [] then "?" + u.query else []
  }

  /** '#' and the fragment, when the fragment is not empty. */
  function FragmentPart(u: RawURL): (s: string) {
    if u.fragment != [] then "#" + u.fragment else []
  }

  /** The text FullString writes, piece after piece. */
  function Compose(u: RawURL): (s: string) {
    SchemePart(u) + UserPart(u.user) + u.host + u.path + QueryPart(u) + FragmentPart(u)
  }

  /** FullString (helpers.go): appends the pieces to a buffer in order. */
  method FullString(u: RawURL) returns (s: string)
    ensures s == Compose(u)
  {
    var buf: string := [];

    if u.scheme != [] {
      buf := buf + u.scheme;
      buf := buf + "://";
    }
    assert buf == SchemePart(u);

    if u.user.Some? {
      ghost var before := buf;
      var ui := u.user.value;
      buf := buf + ui.username;
      if ui.passwordSet {
        buf := buf + [':'];
        buf := buf + ui.password;
        AppendAssoc(before + ui.username, [':'], ui.password);
        AppendAssoc(before, ui.username, ":" + ui.password);
      }
      buf := buf + ['@'];
      AppendAssoc(before, ui.username + (if ui.passwordSet then ":" + ui.password else []), "@");
    }
    assert buf == SchemePart(u) + UserPart(u.user);

    buf := buf + u.host;
    buf := buf + u.path;

    if u.query != [] {
      ghost var before := buf;
      buf := buf + ['?'];
      buf := buf + u.query;
      AppendAssoc(before, ['?'], u.query);
    }
    if u.fragment != [] {
      ghost var before := buf;
      buf := buf + ['#'];
      buf := buf + u.fragment;
      AppendAssoc(before, ['#'], u.fragment);
    }
    s := buf;
  }

  /** The userinfo text of a username free of ':' and '@' determines the
      username, whether a password was set and, if so, the password: in
      particular "user@" and "user:@" are told apart. */
  lemma UserinfoTextInjective(a: Userinfo, b: Userinfo)
    requires ':' !in a.username && '@' !in a.username
    requires ':' !in b.username && '@' !in b.username
    requires UserinfoText(a) == UserinfoText(b)
    ensures a.username == b.username && a.passwordSet == b.passwordSet
    ensures a.passwordSet ==> a.password == b.password
  {
    var t := UserinfoText(a);
    UserinfoTextAt(a);
    UserinfoTextAt(b);
    var n := |a.username|;
    assert a.username == t[..n] == b.username;
    if a.passwordSet {
      assert a.password == t[n + 1..|t| - 1] == b.password;
    }
  }

  /** Where the pieces of a userinfo text sit. */
  lemma UserinfoTextAt(ui: Userinfo)
    ensures var t := UserinfoText(ui); var n := |ui.username|;
      && n < |t| && t[..n] == ui.username && t[|t| - 1] == '@'
      && (t[n] == ':' <==> ui.passwordSet)
      && (ui.passwordSet ==> t[n + 1..|t| - 1] == ui.password)
  {
    var n := |ui.username|;
    var t := UserinfoText(ui);
    if ui.passwordSet {
      assert t == ui.username + ([':'] + ui.password) + ['@'];
    } else {
      assert t == ui.username + ['@'];
    }
  }

  /** The absent and the empty password appear as "user@" and "user:@". */
  lemma EmptyPasswordKept(name: string)
    ensures UserinfoText(Userinfo(name, "", false)) == name + "@"
    ensures UserinfoText(Userinfo(name, "", true)) == name + ":@"
  {
  }

  // ---------------------------------------------------------------------
  // Authority, host name and port

  /** GetRawAuthority (helpers.go): the host field, userinfo not included. */
  function GetRawAuthority(u: RawURL): (a: string)
    ensures a == u.host
  {
    u.host
  }

  /** GetRawHostname (helpers.go): the host up to its last ':', or the whole
      host when it has none. */
  function GetRawHostname(u: RawURL): (h: string)
    ensures |h| <= |u.host| && h == u.host[..|h|]
    ensures ':' !in u.host ==> h == u.host
    ensures ':' in u.host ==> |h| < |u.host| && u.host[|h|] == ':' && ':' !in u.host[|h| + 1..]
  {
    var i := LastIndex(u.host, ':');
    if i != -1 then u.host[..i] else u.host
  }

  /** GetRawPort (helpers.go): the host after its last ':', or "" when it has
      none. Nothing checks that the port is made of digits. */
  function GetRawPort(u: RawURL): (p: string)
    ensures ':' !in p
    ensures ':' !in u.host ==> p == []
    ensures ':' in u.host ==>
      |p| < |u.host| && p == u.host[|u.host| - |p|..] && u.host[|u.host| - |p| - 1] == ':'
  {
    var i := LastIndex(u.host, ':');
    if i != -1 then u.host[i + 1..] else []
  }

  /** Host name, ':' and port put back together give the host. */
  lemma HostnamePortJoin(u: RawURL)
    requires ':' in u.host
    ensures GetRawHostname(u) + ":" + GetRawPort(u) == u.host
  {
    var i := LastIndex(u.host, ':');
    assert u.host == u.host[..i] + [':'] + u.host[i + 1..];
  }

  /** The split is the one at the last ':': any other split into a host name,
      ':' and a colon-free port is this one. */
  lemma HostnamePortUnique(u: RawURL, h: string, p: string)
    requires u.host == h + ":" + p && ':' !in p
    ensures GetRawHostname(u) == h && GetRawPort(u) == p
  {
    var s := u.host;
    var i := LastIndex(s, ':');
    assert s[|h|] == ':';
    assert s[|h| + 1..] == p;
    assert s[..|h|] == h;
  }

  /** "host:abc": the text after the colon is the port, digits or not. */
  lemma PortNotChecked()
    ensures var u := RawURL("", None, "host:abc", "", "", "");
      GetRawHostname(u) == "host" && GetRawPort(u) == "abc"
  {
    HostnamePortUnique(RawURL("", None, "host:abc", "", "", ""), "host", "abc");
  }

  /** "[2001:db8::1]:8443": the brackets stay in the host name. */
  lemma BracketedHostWithPort()
    ensures var u := RawURL("", None, "[2001:db8::1]" + ":" + "8443", "", "", "");
      GetRawHostname(u) == "[2001:db8::1]" && GetRawPort(u) == "8443"
  {
    HostnamePortUnique(RawURL("", None, "[2001:db8::1]" + ":" + "8443", "", "", ""), "[2001:db8::1]", "8443");
  }

  /** "[::1]" without a port: the last ':' inside the brackets is taken. */
  lemma BracketedHostWithoutPort()
    ensures var u := RawURL("", None, "[::1]", "", "", "");
      GetRawHostname(u) == "[:" && GetRawPort(u) == "1]"
  {
    HostnamePortUnique(RawURL("", None, "[::1]", "", "", ""), "[:", "1]");
  }

  // ---------------------------------------------------------------------
  // Query values

  /** The key of a query piece: the text before its first '='. */
  function PairKey(pair: string): (k: string)
    ensures '=' !in k
  {
    CutFirst(pair, '=').before
  }

  /** The value of a query piece: the text after its first '=', or "" when
      the piece has none. */
  function PairValue(pair: string): (v: string)
    ensures '=' !in pair ==> v == []
    ensures '=' in pair ==> pair == PairKey(pair) + "=" + v
  {
    CutFirstRejoin(pair, '=');
    CutFirst(pair, '=').after
  }

  /** A piece splits at its first '=': later ones belong to the value. */
  lemma PairAtFirstEquals(k: string, v: string)
    requires '=' !in k
    ensures PairKey(k + "=" + v) == k && PairValue(k + "=" + v) == v
  {
    CutFirstAt(k, v, '=');
  }

  /** A piece with no '=' is a key with the empty value. */
  lemma PairWithoutEquals(k: string)
    requires '=' !in k
    ensures PairKey(k) == k && PairValue(k) == ""
  {
    CutFirstAbsent(k, '=');
  }

  /** `v` appended to the values of `k`. */
  function Append(m: map<string, seq<string>>, k: string, v: string): (m': map<string, seq<string>>) {
    m[k := (if k in m then m[k] else []) + [v]]
  }

  /** The map the loop of GetRawQueryValues has built after the given pieces. */
  function Collect(pairs: seq<string>): (m: map<string, seq<string>>)
    decreases |pairs|
  {
    if pairs == [] then map[]
    else
      var m := Collect(pairs[..|pairs| - 1]);
      var pair := pairs[|pairs| - 1];
      if pair == [] then m else Append(m, PairKey(pair), PairValue(pair))
  }

  /** The values of the non-empty pieces whose key is `k`, in order. */
  function ValuesFor(pairs: seq<string>, k: string): (vs: seq<string>)
    decreases |pairs|
  {
    if pairs == [] then []
    else
      var head := pairs[0];
      (if head != [] && PairKey(head) == k then [PairValue(head)] else [])
      + ValuesFor(pairs[1..], k)
  }

  /** The values for a key over two runs of pieces are those of the first
      run, then those of the second. */
  lemma {:induction false} ValuesForAppend(p: seq<string>, q: seq<string>, k: string)
    ensures ValuesFor(p + q, k) == ValuesFor(p, k) + ValuesFor(q, k)
    decreases |p|
  {
    if p == [] {
      assert p + q == q;
    } else {
      var h := if p[0] != [] && PairKey(p[0]) == k then [PairValue(p[0])] else [];
      assert (p + q)[0] == p[0] && (p + q)[1..] == p[1..] + q;
      assert ValuesFor(p + q, k) == h + ValuesFor(p[1..] + q, k);
      ValuesForAppend(p[1..], q, k);
      assert ValuesFor(p, k) == h + ValuesFor(p[1..], k);
      AppendAssoc(h, ValuesFor(p[1..], k), ValuesFor(q, k));
    }
  }

  /** The values for a key after one more piece. */
  lemma ValuesForSnoc(p: seq<string>, pair: string, k: string)
    ensures ValuesFor(p + [pair], k)
      == ValuesFor(p, k) + (if pair != [] && PairKey(pair) == k then [PairValue(pair)] else [])
  {
    ValuesForAppend(p, [pair], k);
    assert [pair][1..] == [];
  }

  /** The map the loop builds holds a key exactly when some non-empty piece
      has it, and then maps it to all that key's values in order. */
  lemma {:induction false} CollectIsValuesFor(pairs: seq<string>, k: string)
    ensures k in Collect(pairs) <==> ValuesFor(pairs, k) != []
    ensures k in Collect(pairs) ==> Collect(pairs)[k] == ValuesFor(pairs, k)
    decreases |pairs|
  {
    if pairs != [] {
      var init := pairs[..|pairs| - 1];
      var pair := pairs[|pairs| - 1];
      assert pairs == init + [pair];
      CollectIsValuesFor(init, k);
      ValuesForSnoc(init, pair, k);
    }
  }

  /** One more piece at the end adds its value under its key. */
  lemma CollectSnoc(pairs: seq<string>, pair: string)
    ensures Collect(pairs + [pair]) == if pair == [] then Collect(pairs)
      else Append(Collect(pairs), PairKey(pair), PairValue(pair))
  {
    assert (pairs + [pair])[..|pairs|] == pairs;
  }

  /** One more piece taken by the loop. */
  lemma CollectStep(pairs: seq<string>, i: nat)
    requires i < |pairs|
    ensures Collect(pairs[..i + 1]) == if pairs[i] == [] then Collect(pairs[..i])
      else Append(Collect(pairs[..i]), PairKey(pairs[i]), PairValue(pairs[i]))
  {
    assert pairs[..i + 1][..i] == pairs[..i];
  }

  /** The values GetRawQueryValues returns for a query. */
  function QueryValues(query: string): (m: map<string, seq<string>>) {
    Collect(Split(query, '&'))
  }

  /** GetRawQueryValues (helpers.go): one pass over the '&'-pieces, skipping
      empty ones and appending each value to its key's list. */
  method GetRawQueryValues(u: RawURL) returns (values: map<string, seq<string>>)
    ensures values == QueryValues(u.query)
  {
    values := map[];
    var pairs := Split(u.query, '&');
    var i := 0;
    while i < |pairs|
      invariant 0 <= i <= |pairs|
      invariant values == Collect(pairs[..i])
    {
      var pair := pairs[i];
      CollectStep(pairs, i);
      if pair != [] {
        var key := PairKey(pair);
        var value := PairValue(pair);
        var old_values := if key in values then values[key] else [];
        values := values[key := old_values + [value]];
      }
      i := i + 1;
    }
    assert pairs[..i] == pairs;
  }

  /** QueryValues of two queries joined by '&' lists, for every key, the
      values of the first query then those of the second. */
  lemma QueryValuesJoin(a: string, b: string, k: string)
    ensures ValuesFor(Split(a + "&" + b, '&'), k)
      == ValuesFor(Split(a, '&'), k) + ValuesFor(Split(b, '&'), k)
  {
    SplitAppend(a, b, '&');
    ValuesForAppend(Split(a, '&'), Split(b, '&'), k);
  }

  /** No key holds '=' or '&', and no value holds '&'. */
  lemma {:induction false} QueryValuesSeparators(query: string, k: string)
    requires k in QueryValues(query)
    ensures '=' !in k && '&' !in k
    ensures forall v :: v in QueryValues(query)[k] ==> '&' !in v
  {
    var pairs := Split(query, '&');
    SplitPieces(query, '&');
    CollectIsValuesFor(pairs, k);
    ValuesForPieces(pairs, k);
  }

  /** Values and keys drawn from pieces free of '&' are free of it too. */
  lemma {:induction false} ValuesForPieces(pairs: seq<string>, k: string)
    requires forall j :: 0 <= j < |pairs| ==> '&' !in pairs[j]
    ensures ValuesFor(pairs, k) != [] ==> '&' !in k && '=' !in k
    ensures forall v :: v in ValuesFor(pairs, k) ==> '&' !in v
    decreases |pairs|
  {
    if pairs != [] {
      var head := pairs[0];
      ValuesForPieces(pairs[1..], k);
      if head != [] && PairKey(head) == k {
        CutFirstRejoin(head, '=');
      }
    }
  }

  /** "a=1&a=2&b": repeated keys keep their values in order, and a piece
      without '=' gets the empty value. */
  lemma QueryValuesExample()
    ensures var m := QueryValues("a" + "=" + "1" + "&" + "a" + "=" + "2" + "&" + "b");
      m.Keys == {"a", "b"} && m["a"] == ["1", "2"] && m["b"] == [""]
  {
    QueryValuesOfThree("a", "1", "2", "b");
  }

  /** A query of two values for one key and then a bare second key. */
  lemma QueryValuesOfThree(k: string, v1: string, v2: string, k2: string)
    requires '=' !in k && '=' !in k2 && k != k2 && k2 != []
    requires '&' !in k && '&' !in v1 && '&' !in v2 && '&' !in k2
    ensures var m := QueryValues(k + "=" + v1 + "&" + k + "=" + v2 + "&" + k2);
      m.Keys == {k, k2} && m[k] == [v1, v2] && m[k2] == [""]
  {
    var p1 := k + "=" + v1;
    var p2 := k + "=" + v2;
    assert '&' !in p1 && '&' !in p2;
    AppendAssoc(p1 + "&" + k, "=", v2);
    AppendAssoc(p1 + "&", k, "=");
    AppendAssoc(p1 + "&", k + "=", v2);
    SplitThree(p1, p2, k2, '&');
    CollectOfThree(k, v1, v2, k2);
  }

  /** The loop's map after the pieces k=v1, k=v2 and k2. */
  lemma CollectOfThree(k: string, v1: string, v2: string, k2: string)
    requires '=' !in k && '=' !in k2 && k != k2 && k2 != []
    ensures var m := Collect([k + "=" + v1, k + "=" + v2, k2]);
      m.Keys == {k, k2} && m[k] == [v1, v2] && m[k2] == [""]
  {
    var p1 := k + "=" + v1;
    var p2 := k + "=" + v2;
    PairAtFirstEquals(k, v1);
    PairAtFirstEquals(k, v2);
    PairWithoutEquals(k2);
    assert |p1| > 0 && |p2| > 0;
    ThreeItems(p1, p2, k2);
    CollectSnoc([], p1);
    var m1 := Collect([p1]);
    assert m1 == map[][k := [] + [v1]];
    assert m1.Keys == {k} && m1[k] == [v1];
    CollectSnoc([p1], p2);
    var m2 := Collect([p1, p2]);
    assert m2 == m1[k := [v1] + [v2]];
    assert m2.Keys == {k} && m2[k] == [v1, v2];
    CollectSnoc([p1, p2], k2);
    assert Collect([p1, p2, k2]) == m2[k2 := [] + [""]];
  }

  /** "a=b=c": the key is "a" and the value "b=c". */
  lemma QueryValueKeepsLaterEquals()
    ensures var m := QueryValues("a" + "=" + "b=c");
      m.Keys == {"a"} && m["a"] == ["b=c"]
  {
    PairAtFirstEquals("a", "b=c");
    SplitAbsent("a" + "=" + "b=c", '&');
    CollectStep(["a" + "=" + "b=c"], 0);
    assert ["a" + "=" + "b=c"][..0] == [] && ["a" + "=" + "b=c"][..1] == ["a" + "=" + "b=c"];
  }

  // ---------------------------------------------------------------------
  // lastIndexRune

  /** The rune a search for `r` looks for: string(r) of a negative rune is
      U+FFFD, and a character matches the rune holding its code point. */
  predicate Matches(c: char, r: Rune) {
    c as int == (if r < 0 then RuneError else r)
  }

  /** lastIndexRune (helpers.go): for a rune below 0x80 (any negative one
      included) the last occurrence of string(r); for others a backward
      scan. Positions count characters. */
  method LastIndexRune(s: string, r: Rune) returns (i: int)
    ensures -1 <= i < |s|
    ensures i == -1 <==> forall j :: 0 <= j < |s| ==> !Matches(s[j], r)
    ensures 0 <= i ==> Matches(s[i], r) && forall j :: i < j < |s| ==> !Matches(s[j], r)
  {
    if r < 0x80 {
      var c := if r < 0 then '\U{FFFD}' else r as char;
      i := LastIndex(s, c);
      if i != -1 {
        forall j | i < j < |s| ensures !Matches(s[j], r) {
          assert s[j] in s[i + 1..];
        }
      } else {
        forall j | 0 <= j < |s| ensures !Matches(s[j], r) {
          assert s[j] in s;
        }
      }
      return;
    }
    var k := |s|;
    while k > 0
      invariant 0 <= k <= |s|
      invariant forall j :: k <= j < |s| ==> !Matches(s[j], r)
    {
      if s[k - 1] as int == r {
        return k - 1;
      }
      k := k - 1;
    }
    return -1;
  }

  // ---------------------------------------------------------------------
  // GetAsciiHex

  /** A one-digit result gets a leading '0'. */
  function Pad(val: string): (s: string) {
    if |val| == 1 then "0" + val else val
  }

  /** GetAsciiHex (helpers.go): FormatInt in base 16, padded to two
      characters, upper-cased. */
  function GetAsciiHex(r: Rune): (s: string)
    ensures 2 <= |s|
    ensures r < 0 <==> s[0] == '-'
    ensures forall i :: 0 <= i < |s| && !(i == 0 && r < 0) ==> IsUpperHex(s[i])
    ensures s[if r < 0 then 1 else 0] == '0' ==> 0 <= r < 16
  {
    var val := FormatHex(r);
    var n: nat := if r < 0 then -(r as int) else r as int;
    HexDigitsUpper(n);
    HexDigitsLength(n);
    ToUpper(Pad(val))
  }

  /** The digits of a number, upper-cased, are upper-case hex digits. */
  lemma HexDigitsUpper(n: nat)
    ensures forall i :: 0 <= i < |HexDigits(n)| ==> IsUpperHex(UpperChar(HexDigits(n)[i]))
    ensures forall i :: 0 <= i < |Pad(HexDigits(n))| ==> IsUpperHex(UpperChar(Pad(HexDigits(n))[i]))
  {
    var d := HexDigits(n);
    forall i | 0 <= i < |d| ensures IsUpperHex(UpperChar(d[i])) {
      DigitValueUpper(d[i]);
    }
    var p := Pad(d);
    forall i | 0 <= i < |p| ensures IsUpperHex(UpperChar(p[i])) {
      if |d| == 1 && i == 1 {
        DigitValueUpper(d[0]);
      } else if |d| != 1 {
        DigitValueUpper(d[i]);
      }
    }
  }

  /** GetAsciiHex reads back as the rune: the hex value of its digits is r,
      after the '-' for a negative rune. A rune below 256 takes exactly two
      digits. */
  lemma AsciiHexReadsBack(r: Rune)
    ensures 0 <= r ==> HexValue(GetAsciiHex(r)) == r
    ensures r < 0 ==> HexValue(GetAsciiHex(r)[1..]) == -(r as int)
    ensures 0 <= r < 256 ==> |GetAsciiHex(r)| == 2
  {
    var n: nat := if r < 0 then -(r as int) else r as int;
    var d := HexDigits(n);
    HexValueOfDigits(n);
    HexDigitsLength(n);
    HexValueUpper(Pad(d));
    if r < 0 {
      var s := ToUpper("-" + d);
      assert s[1..] == ToUpper(d);
      HexValueUpper(d);
    } else if |d| == 1 {
      assert HexValue(Pad(d)) == HexValue(d) by {
        assert Pad(d)[..1] == "0" && Pad(d)[..1][..0] == [];
        assert d[..0] == [];
      }
    }
  }

  // ---------------------------------------------------------------------
  // GetUTF8Hex

  /** GetUTF8Hex (helpers.go): the lower-case hex of the UTF-8 bytes of
      string(r), with '%' written before every even position but the first. */
  method GetUTF8Hex(r: Rune) returns (s: string)
    ensures var b := Utf8Encode(r);
      && |s| == 3 * |b| - 1
      && (forall j :: 0 <= j < |b| ==> s[3 * j] == HexByte(b[j])[0] && s[3 * j + 1] == HexByte(b[j])[1])
      && (forall j :: 0 <= j < |b| - 1 ==> s[3 * j + 2] == '%')
  {
    var hex := HexEncode(Utf8Encode(r));
    var buff: string := [];
    var k := 0;
    while k < |hex|
      invariant 0 <= k <= |hex|
      invariant |buff| == k + (if k == 0 then 0 else (k - 1) / 2)
      invariant forall j :: 0 <= j && 2 * j < k ==> buff[3 * j] == hex[2 * j]
      invariant forall j :: 0 <= j && 2 * j + 1 < k ==> buff[3 * j + 1] == hex[2 * j + 1]
      invariant forall j :: 0 <= j && 3 * j + 2 < |buff| ==> buff[3 * j + 2] == '%'
    {
      ghost var prev := buff;
      if k != 0 && k % 2 == 0 {
        buff := buff + ['%'];
      }
      buff := buff + [hex[k]];
      PercentStep(prev, buff, hex, k);
      k := k + 1;
    }
    s := buff;
  }

  /** One character of the hex string written, after a '%' at an even
      position other than the first: the layout facts of the loop carry over. */
  lemma PercentStep(prev: string, buff: string, hex: string, k: nat)
    requires k < |hex|
    requires buff == prev + (if k != 0 && k % 2 == 0 then "%" else []) + [hex[k]]
    requires |prev| == k + (if k == 0 then 0 else (k - 1) / 2)
    requires forall j :: 0 <= j && 2 * j < k ==> prev[3 * j] == hex[2 * j]
    requires forall j :: 0 <= j && 2 * j + 1 < k ==> prev[3 * j + 1] == hex[2 * j + 1]
    requires forall j :: 0 <= j && 3 * j + 2 < |prev| ==> prev[3 * j + 2] == '%'
    ensures |buff| == k + 1 + k / 2
    ensures forall j :: 0 <= j && 2 * j < k + 1 ==> buff[3 * j] == hex[2 * j]
    ensures forall j :: 0 <= j && 2 * j + 1 < k + 1 ==> buff[3 * j + 1] == hex[2 * j + 1]
    ensures forall j :: 0 <= j && 3 * j + 2 < |buff| ==> buff[3 * j + 2] == '%'
  {
    assert forall i :: 0 <= i < |prev| ==> buff[i] == prev[i];
    assert buff[|buff| - 1] == hex[k];
    assert k != 0 && k % 2 == 0 ==> buff[|prev|] == '%';
    forall j | 0 <= j && 2 * j < k + 1 ensures buff[3 * j] == hex[2 * j] {
      if 2 * j < k {
        assert (k - 1) / 2 >= j;
      }
    }
    forall j | 0 <= j && 2 * j + 1 < k + 1 ensures buff[3 * j + 1] == hex[2 * j + 1] {
      if 2 * j + 1 < k {
        assert (k - 1) / 2 >= j;
      }
    }
  }

  // ---------------------------------------------------------------------
  // GetRuneMap

  /** GetRuneMap (helpers.go): the set of the given runes, as map keys. */
  method GetRuneMap(runes: seq<Rune>) returns (m: map<Rune, ()>)
    ensures m.Keys == set r | r in runes
    ensures |m| <= |runes|
  {
    m := map[];
    var i := 0;
    while i < |runes|
      invariant 0 <= i <= |runes|
      invariant m.Keys == set r | r in runes[..i]
      invariant |m| <= i
    {
      assert runes[..i + 1] == runes[..i] + [runes[i]];
      m := m[runes[i] := ()];
      i := i + 1;
    }
    assert runes[..i] == runes;
  }
}
