# go-rawurlparser in Dafny

go-rawurlparser splits a URL string into its pieces without decoding or
normalising anything, and rebuilds strings from those pieces. This project
models its core and proves what the code does.

- **The parser** (url.go). `RawURLParse` keeps the input as `Original`. It then
  cuts the rest of the text in a fixed order, each time at the first
  occurrence of a delimiter:
  1. the scheme, before `"://"`;
  2. the fragment, after `#`;
  3. the query, after `?`;
  4. the path, from `/`;
  5. the host, whatever remains.

  `String()` returns `Original`.
- **The helpers** (helpers.go) work on a `RawURL` record, which can also carry
  userinfo:
  - `FullString` writes the record back out.
  - `GetRawAuthority`, `GetRawHostname` and `GetRawPort` read the host and
    split it at its last `:`.
  - `GetRawQueryValues` turns the query into an ordered multimap.
  - `lastIndexRune` finds the last occurrence of a rune.
  - `GetAsciiHex` and `GetUTF8Hex` format a rune in hex.
  - `GetRuneMap` collects a set of runes.

## Files

| file | module | what it holds |
|---|---|---|
| `strings.dfy` | `Strings` | The calls into Go's `strings` package that the core makes: `Index`, `LastIndex` and `Split`. Also the cut at the first delimiter that each parser step uses. |
| `url.dfy` | `Url` | The `URL` record, `String`, and the specification `Decompose`/`Parse`. The method `RawURLParse`, proved equal to `Parse`. The inverse `Assemble` and the proofs relating it to the parser. |
| `url_examples.dfy` | `UrlExamples` | The inputs of the test table and the usage example, plus a few forms the parser does not single out. |
| `encoding.dfy` | `Encoding` | `strconv.FormatInt` in base 16, `strings.ToUpper` on hex digits, `string(r)` as UTF-8 bytes, and `hex.EncodeToString`. Each comes with a function that reads back what it produced. |
| `helpers.dfy` | `Helpers` | The `RawURL` and `Userinfo` records and every helper named above. |
| `roundtrip.dfy` | `RoundTrip` | How parsing and `FullString` fit together. |

**Modelling notes.**
- The parser and the helpers use two record types, as the source does:
  - url.go declares `URL`.
  - helpers.go reads a `RawURL` that no shown file declares. Its fields are
    those helpers.go reads.
  - The two files also name their packages differently (url.go:19,
    helpers.go:1).
- `RoundTrip.FromParsed` carries a parse result over into a `RawURL` with no
  userinfo, since the parser never splits userinfo off.
- `Decompose` records whether each delimiter was found (`Delimiters`). That
  flag is what tells an empty query from a missing one. `Parse` keeps only
  the record.

**Where the code does less than its documentation suggests.** The model
follows the code:
- The parser has no userinfo splitting: `user@` stays in the host.
- It has no IPv6 bracket handling, no opaque form (`mailto:x` is all host),
  no port digit check and no error result.
- There is no fallback scheme and no normalisation of an empty path.
- `FullString` writes `"://"` only when there is a scheme. It writes `?` and
  `#` only before a non-empty query or fragment. So it is an inverse of
  parsing only on inputs where no found delimiter is followed by empty
  text (`RoundTrip.FullStringOfParse`).
- Rebuilding can change how a string parses:
  `RoundTrip.RebuildCanReparseDifferently` shows `"://a/b://c"` rebuilt to
  `"a/b://c"`, whose host is different.
- The host name accessor keeps IPv6 brackets. On `[::1]` it splits inside
  the brackets.

## Model

| member | source | states |
|---|---|---|
| `Url.StringIsInput` | url.go:34-36 | `String()` of a parse result is exactly the parsed input (`Original`). |
| `Url.String` | url.go:34-36 | `String()` returns the `Original` field; `Url.StringIsInput` ties it to the parsed input. |
| `Url.SeparatorIndex` | url.go:47 | `strings.Index(s, "://")` is -1 exactly when `s` has no `"://"`. Otherwise it is a position where `"://"` starts, with none before it. |
| `Url.CutScheme` | url.go:47-50 | The cut at `"://"`. `found` holds exactly when the input has `"://"`. The scheme never holds `"://"`. When found, input = scheme + `"://"` + rest at the first occurrence. When not found, the whole input goes on. |
| `Url.SchemeBeforeFirstSeparator` | url.go:47-50 | When the input has `"://"`, the scheme is the input's prefix that ends where the first `"://"` starts. |
| `Url.TakeScheme` | url.go:47-50 | The scheme step yields the scheme and the rest that `CutScheme` describes. It yields the empty scheme and the whole input when there is no `"://"`. |
| `Url.TakeAfter` | url.go:53-62 | The fragment and query steps: the component is the text after the first delimiter, and what remains is the text before it. |
| `Url.TakeFrom` | url.go:65-71 | The path step: the path runs from the first `/` on, and the host is the text before it. |
| `Url.Decompose` | url.go:39-74 | `Original` is the input, and the `"://"` flag is set exactly when the input holds `"://"`. The result is well shaped: the scheme has no `"://"`; host, path and query have no `#`; host and path have no `?`; the host has no `/`; the path is empty or starts with `/`; a component whose delimiter was not found is empty. |
| `Url.RawURLParse` | url.go:39-74 | The step-by-step method returns exactly `Parse(rawURL)`. |
| `Url.ParseReassembles` | url.go:44-71 | Reassembly gives back the input. The pieces are: scheme + `"://"` if found, then host, path, `?` + query if found, and `#` + fragment if found. |
| `Url.DecomposeAssembled` | url.go:39-74 | The converse: parsing the assembled text of any well-shaped record returns that record and its flags. This holds when `"://"` is absent from the text or the scheme flag is set. |
| `UrlExamples.BasicUrl` | url_test.go:22-30 | `https://example.com/path` gives scheme `https`, host `example.com`, path `/path`, and an empty query and fragment. |
| `UrlExamples.UrlWithEverything` | url_test.go:31-39 | `https://example.com/path1/path2%2f;/?q=1#f` gives the five components of the test table. |
| `UrlExamples.PathTraversalRaw` | url_test.go:40-48 | `http://example.com/path1/..%2f/` keeps its path exactly as written. |
| `UrlExamples.QueryInsideFragment` | url_test.go:79 | In `...path2#fragment?query=1` the `?query=1` is part of the fragment, and the query is empty. |
| `UrlExamples.FragmentBeforeQuery` | url.go:53-62 | The fragment is cut off first, so a `?` after `#` never starts the query. |
| `UrlExamples.NoOpaqueForm` | url.go:47-50 | `mailto:user@example.com` has no `"://"`, so the scheme is empty and the whole input is the host. |
| `UrlExamples.UserinfoStaysInHost` | url.go:65-71 | `http://user:@h/x` keeps `user:@h` as the host. |
| `Strings.Index` | url.go:53 | `strings.Index` with one character is -1 exactly when the character is absent. Otherwise it is a position of the character with none before it. |
| `Strings.LastIndex` | helpers.go:154 | `strings.LastIndex` with one character is -1 exactly when the character is absent. Otherwise it is a position of the character with none after it. |
| `Strings.CutFirst` | url.go:53-56 | `found` holds exactly when the delimiter occurs. The part before holds no delimiter. Input = before + delimiter + after when found; otherwise before = input. |
| `Strings.CutBefore` | url.go:65-68 | As `CutFirst`, but the delimiter begins the part after. |
| `Strings.Split` | helpers.go:105 | `strings.Split` with one separator character gives at least one piece; `Strings.SplitJoin` and `Strings.SplitPieces` pin the pieces down. |
| `Strings.SplitJoin` | helpers.go:105 | Joining the pieces of `strings.Split` with the separator gives back the string. |
| `Strings.SplitPieces` | helpers.go:105 | No piece of `strings.Split` contains the separator. |
| `Strings.SplitAppend` | helpers.go:105 | Splitting `a + sep + b` gives the pieces of `a` followed by the pieces of `b`. |
| `Helpers.FullString` | helpers.go:14-45 | The buffer ends as these pieces, in order: scheme + `"://"` when the scheme is non-empty; username, `:` + password when `passwordSet`, then `@`, when there is userinfo; host; path; `?` + query when the query is non-empty; `#` + fragment when the fragment is non-empty. |
| `Helpers.UserinfoTextInjective` | helpers.go:22-29 | For usernames free of `:` and `@`, the userinfo text determines the username, the `passwordSet` flag and the password. |
| `Helpers.EmptyPasswordKept` | helpers.go:22-29 | An absent password gives `user@`; a set empty one gives `user:@`. |
| `Helpers.GetRawAuthority` | helpers.go:61-63 | The authority is the host field. |
| `Helpers.GetRawHostname` | helpers.go:66-71 | The host name is a prefix of the host. With no `:` it is the whole host. Otherwise a `:` follows it and no `:` comes after that one. |
| `Helpers.GetRawPort` | helpers.go:74-79 | The port has no `:`. It is empty when the host has none. Otherwise it is the suffix of the host after a `:`. |
| `Helpers.HostnamePortJoin` | helpers.go:66-79 | With a `:` in the host, host name + `:` + port = host. |
| `Helpers.HostnamePortUnique` | helpers.go:66-79 | The split is at the last `:`. Any split into name, `:` and a colon-free port is this one. |
| `Helpers.PortNotChecked` | helpers.go:74-79 | `host:abc` gives the port `abc`: no digit check. |
| `Helpers.BracketedHostWithPort` | helpers.go:66-79 | `[2001:db8::1]:8443` gives `[2001:db8::1]` and `8443`; the brackets stay. |
| `Helpers.BracketedHostWithoutPort` | helpers.go:66-79 | `[::1]` is split inside the brackets, into `[:` and `1]`. |
| `Helpers.PairKey` | helpers.go:109-110 | The key of a piece holds no `=`. |
| `Helpers.PairValue` | helpers.go:109-114 | A piece with no `=` has the empty value. Otherwise the piece is its key, `=` and its value. |
| `Helpers.PairAtFirstEquals` | helpers.go:109-114 | A piece splits at its first `=`; later `=` belong to the value. |
| `Helpers.PairWithoutEquals` | helpers.go:109-114 | A piece without `=` is a key with the empty value. |
| `Helpers.GetRawQueryValues` | helpers.go:103-118 | The loop returns `Collect` of the `&`-pieces: empty pieces are skipped, and each value is appended to its key's list. |
| `Helpers.CollectIsValuesFor` | helpers.go:103-118 | The map holds a key exactly when a non-empty piece has that key. It then maps the key to all its values in input order, compared against a separate per-key definition. |
| `Helpers.QueryValuesJoin` | helpers.go:105-115 | For `a & b`, each key's values are those of `a` followed by those of `b`. |
| `Helpers.QueryValuesSeparators` | helpers.go:105-115 | No key holds `=` or `&`, and no value holds `&`. |
| `Helpers.QueryValuesExample` | helpers.go:103-118 | `a=1&a=2&b` gives keys `{a, b}`, with `a` mapped to `["1","2"]` and `b` to `[""]`. |
| `Helpers.QueryValueKeepsLaterEquals` | helpers.go:109-114 | `a=b=c` gives key `a` with value `b=c`. |
| `Helpers.LastIndexRune` | helpers.go:151-166 | The result is -1 exactly when no character matches the rune. Otherwise it is a matching position with no match after it. A negative rune matches U+FFFD, as `string(r)` makes it. |
| `Helpers.GetAsciiHex` | helpers.go:169-176 | The result is at least two characters long. It starts with `-` exactly for a negative rune, and every other character is an upper-case hex digit. The first digit is `0` only for the padded runes 0 to 15, so no larger rune gets a leading zero. |
| `Helpers.AsciiHexReadsBack` | helpers.go:169-176 | The digits read back as the rune, after the `-` for a negative one. A rune below 256 gives exactly two digits, zero-padded. |
| `Helpers.GetUTF8Hex` | helpers.go:179-193 | The buffer holds, for each UTF-8 byte of `string(r)`, its two lower-case hex digits. Consecutive bytes are separated by `%`, with no `%` before the first. The length is 3·bytes − 1. |
| `Helpers.GetRuneMap` | helpers.go:196-202 | The key set is exactly the set of input runes; duplicates collapse. |
| `Encoding.HexDigits` | helpers.go:170 | Base-16 formatting gives lower-case digits with no leading zero. |
| `Encoding.HexValueOfDigits` | helpers.go:170 | Base-16 formatting of `n` reads back as `n`. |
| `Encoding.HexDigitsLength` | helpers.go:171-174 | One digit exactly for values below 16, at most two below 256. This is the case the padding handles. |
| `Encoding.FormatHex` | helpers.go:170 | A negative value, and only a negative value, gets a leading `-`. |
| `Encoding.ToUpper` | helpers.go:175 | Upper-casing keeps the length and maps each character on its own. |
| `Encoding.HexValueUpper` | helpers.go:175 | Upper-casing lower-case hex digits keeps their value. |
| `Encoding.Utf8Encode` | helpers.go:184-185 | `[]byte(string(r))` is one to four bytes in UTF-8 form. The lead byte is below `0x80` for one byte, `0xC2`–`0xDF` for two, `0xE0`–`0xEF` for three and `0xF0`–`0xF4` for four. Every later byte is a continuation byte `0x80`–`0xBF`. With this shape, `Encoding.Utf8RoundTrip` fixes the bytes: they decode to `r`, or to U+FFFD for an invalid code point. |
| `Encoding.Utf8RoundTrip` | helpers.go:184-185 | Decoding the UTF-8 bytes of `string(r)` gives `r` for a valid code point and U+FFFD otherwise. The byte count follows the code point's size. |
| `Encoding.HexByteReadsBack` | helpers.go:185 | The two hex digits of a byte read back as the byte. |
| `Encoding.HexEncode` | helpers.go:185 | `hex.EncodeToString` writes two lower-case digits per byte, in order. |
| `RoundTrip.ComposeIsAssemble` | helpers.go:14-45 | `FullString` of a parse result is the reassembly with the delimiters of the non-empty components. |
| `RoundTrip.FullStringOfParse` | helpers.go:14-45 | `FullString` of the parsed fields gives back the input exactly when no found delimiter has an empty component after it. With a lost delimiter the result is strictly shorter. |
| `RoundTrip.ParseOfFullString` | helpers.go:14-45 | Parsing what `FullString` writes gives back every record of the shape the parser produces. |
| `RoundTrip.AuthorityOfParse` | helpers.go:61-63 | The authority of a parsed URL is the text after the first `"://"` (or from the start) up to the first `/`, `?` or `#`. |
| `RoundTrip.RebuildCanReparseDifferently` | helpers.go:17-20 | `"://a/b://c"` loses its leading `"://"` when rebuilt, and the rebuilt `"a/b://c"` parses with scheme `a/b` and host `c`. |

## Left out

- The demo programs under examples/ and tests/ only print and compare against Go's `net/url`. The test harness of url_test.go and its `Example*` functions only log. The test table is used as lemma instances.
- The unfinished stubs of helpers.go (lines 48-58, 81-100 and 131-148) have no bodies to model: `GetRawSche`, `GetRawUserInfo`, `GetRawPath`, `GetRawPathUnsafe`, `GetRawQuery`, `GetRawFragment`, `GetFullRawURL`, `GetFullRawURI`, `GetRawRelativeURI` and `GetRawURIPath`.
- Userinfo splitting, IPv6 handling, opaque schemes, port validation, error results and a fallback scheme are left out because no shown file implements them.
- Strings are sequences of Unicode characters, so slicing and indexing count characters where Go counts bytes. `strings.Builder` and `bytes.Buffer` are modelled as strings that grow by concatenation.
- Helpers.LastIndexRune: positions are character positions, not byte offsets. A string that is not valid UTF-8 (which Go decodes to U+FFFD byte by byte) is not modelled.
- Encoding.ToUpper: covers ASCII only, which is all `GetAsciiHex` passes to it.
- Helpers.GetRuneMap: the `struct{}` values are modelled as `()`.
- Helpers.GetRawAuthority: it returns the host field only, as the code does, so userinfo is never part of it. The port is, because the host field holds it.
- Pointers, nil receivers and Go's `rune`/`int64` conversions are left out. A rune is a 32-bit signed integer, and `int64(r)` cannot overflow, so the conversion adds nothing.
