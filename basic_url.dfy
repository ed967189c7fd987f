/** A stand-in for the URL parser and serializer of the WHATWG URL Standard
    (sections 4.4 and 4.5) for http and https URLs of the shape
      scheme "://" host [":" port] [path] ["?" query] ["#" fragment]
    Within that shape it does what the standard does: the scheme and the host are
    lower-cased, a port is read as a number, rejected above 65535 and dropped when
    it is the scheme's default, an empty path becomes "/", and the query and the
    fragment are percent-encoded with their encode sets. Every input outside the
    shape is refused (None). */
module BasicUrl {
  import opened Results
  import opened Strings
  import opened Digits
  import Utf8

  /** A parsed URL, its fields as the URL record of the standard holds them. */
  datatype Url = Url(
    scheme: string,
    host: string,
    port: Option<nat>,
    path: string,
    query: Option<string>,
    fragment: Option<string>)

  /** The text of a URL cut at its delimiters, before any piece is interpreted. */
  datatype Pieces = Pieces(
    scheme: string,
    authority: string,
    path: string,
    query: Option<string>,
    fragment: Option<string>)

  // ---------------------------------------------------------------------------
  // Cutting a URL into pieces

  /** Cuts `scheme "://" authority [path]`; the path starts at the first `/` after
      the authority and is empty when there is none. */
  function SplitHierarchical(s: string): Option<(string, string, string)>
  {
    var (scheme, afterScheme) := SplitFirst(s, ':');
    match afterScheme
    case None => None
    case Some(rest) =>
      if !StartsWith(rest, "//") then None
      else
        var (authority, pathRest) := SplitFirst(rest[2..], '/');
        Some((scheme, authority, match pathRest case None => "" case Some(p) => "/" + p))
  }

  /** The fragment follows the first `#`, the query the first `?` before it. */
  function Split(s: string): Option<Pieces>
  {
    var (beforeFragment, fragment) := SplitFirst(s, '#');
    var (beforeQuery, query) := SplitFirst(beforeFragment, '?');
    match SplitHierarchical(beforeQuery)
    case None => None
    case Some((scheme, authority, path)) => Some(Pieces(scheme, authority, path, query, fragment))
  }

  function OptionalText(delimiter: char, text: Option<string>): string
  {
    match text
    case None => ""
    case Some(t) => [delimiter] + t
  }

  /** The text that `Split` cuts into `p`. */
  function Join(p: Pieces): string
  {
    JoinHierarchical(p.scheme, p.authority, p.path) + OptionalText('?', p.query) + OptionalText('#', p.fragment)
  }

  /** The pieces `Split` can produce: no piece holds a delimiter that ends it. */
  predicate PiecesOk(p: Pieces)
  {
    && ':' !in p.scheme && '?' !in p.scheme && '#' !in p.scheme
    && '/' !in p.authority && '?' !in p.authority && '#' !in p.authority
    && (p.path == "" || p.path[0] == '/') && '?' !in p.path && '#' !in p.path
    && (p.query.Some? ==> '#' !in p.query.value)
  }

  function JoinHierarchical(scheme: string, authority: string, path: string): string
  {
    scheme + "://" + authority + path
  }

  lemma SplitHierarchicalThenJoin(s: string)
    requires SplitHierarchical(s).Some?
    ensures var (scheme, authority, path) := SplitHierarchical(s).value;
      && ':' !in scheme && '/' !in authority && (path == "" || path[0] == '/')
      && JoinHierarchical(scheme, authority, path) == s
  {
    var (scheme, afterScheme) := SplitFirst(s, ':');
    var rest := afterScheme.value;
    AfterSlashes(rest);
    var (authority, pathRest) := SplitFirst(rest[2..], '/');
    var path := match pathRest case None => "" case Some(p) => "/" + p;
    HierarchicalText(scheme, authority, path);
  }

  /** After `//` come the authority, up to the first `/`, and the path. */
  lemma AfterSlashes(rest: string)
    requires StartsWith(rest, "//")
    ensures var (authority, pathRest) := SplitFirst(rest[2..], '/');
      var path := match pathRest case None => "" case Some(p) => "/" + p;
      '/' !in authority && (path == "" || path[0] == '/') && rest == "//" + (authority + path)
  {
    assert rest == rest[..2] + rest[2..];
  }

  lemma HierarchicalText(scheme: string, authority: string, path: string)
    ensures JoinHierarchical(scheme, authority, path) == scheme + [':'] + ("//" + (authority + path))
  {
  }

  lemma JoinHierarchicalThenSplit(scheme: string, authority: string, path: string)
    requires ':' !in scheme && '/' !in authority && (path == "" || path[0] == '/')
    ensures SplitHierarchical(JoinHierarchical(scheme, authority, path)) == Some((scheme, authority, path))
  {
    var rest := "//" + authority + path;
    assert JoinHierarchical(scheme, authority, path) == scheme + [':'] + rest;
    SplitFirstAt(scheme, ':', rest);
    assert StartsWith(rest, "//");
    assert rest[2..] == authority + path;
    if path == "" {
      assert rest[2..] == authority;
      SplitFirstAbsent(authority, '/');
    } else {
      assert authority + path == authority + ['/'] + path[1..];
      SplitFirstAt(authority, '/', path[1..]);
      assert "/" + path[1..] == path;
    }
  }

  /** Whatever `Split` cuts, joining the pieces gives the input back. */
  lemma SplitThenJoin(s: string)
    requires Split(s).Some?
    ensures PiecesOk(Split(s).value) && Join(Split(s).value) == s
  {
    var (beforeFragment, fragment) := SplitFirst(s, '#');
    var (beforeQuery, query) := SplitFirst(beforeFragment, '?');
    SplitHierarchicalThenJoin(beforeQuery);
    var p := Split(s).value;
    var hier := JoinHierarchical(p.scheme, p.authority, p.path);
    assert beforeQuery == hier;
    assert beforeFragment == hier + OptionalText('?', p.query);
    assert s == beforeFragment + OptionalText('#', p.fragment);
  }

  /** Pieces without misplaced delimiters are cut back out of their join. */
  lemma JoinThenSplit(p: Pieces)
    requires PiecesOk(p)
    ensures Split(Join(p)) == Some(p)
  {
    var hier := JoinHierarchical(p.scheme, p.authority, p.path);
    var beforeFragment := hier + OptionalText('?', p.query);
    assert Join(p) == beforeFragment + OptionalText('#', p.fragment);
    assert '#' !in hier;
    assert '#' !in beforeFragment;
    match p.fragment {
      case None =>
        assert Join(p) == beforeFragment;
        SplitFirstAbsent(beforeFragment, '#');
      case Some(f) =>
        assert Join(p) == beforeFragment + ['#'] + f;
        SplitFirstAt(beforeFragment, '#', f);
    }
    assert SplitFirst(Join(p), '#') == (beforeFragment, p.fragment);
    assert '?' !in hier;
    match p.query {
      case None =>
        assert beforeFragment == hier;
        SplitFirstAbsent(hier, '?');
      case Some(q) =>
        assert beforeFragment == hier + ['?'] + q;
        SplitFirstAt(hier, '?', q);
    }
    assert SplitFirst(beforeFragment, '?') == (hier, p.query);
    JoinHierarchicalThenSplit(p.scheme, p.authority, p.path);
  }

  // ---------------------------------------------------------------------------
  // Characters

  /** The input may not hold a space or a control character: the standard strips
      or encodes them, which this stand-in does not model. */
  predicate NoSpaceOrControl(s: string)
  {
    forall i :: 0 <= i < |s| ==> s[i] > ' '
  }

  lemma NoSpaceOrControlConcat(a: string, b: string)
    requires NoSpaceOrControl(a) && NoSpaceOrControl(b)
    ensures NoSpaceOrControl(a + b)
  {
  }

  function LowerChar(c: char): (d: char)
    ensures !('A' <= d <= 'Z')
    ensures !('A' <= c <= 'Z') ==> d == c
  {
    if 'A' <= c <= 'Z' then (c as int + 32) as char else c
  }

  /** ASCII lower-casing. */
  function Lower(s: string): (r: string)
    ensures |r| == |s|
    ensures forall i :: 0 <= i < |s| ==> r[i] == LowerChar(s[i])
  {
    if s == [] then [] else [LowerChar(s[0])] + Lower(s[1..])
  }

  lemma LowerUnchanged(s: string)
    requires forall i :: 0 <= i < |s| ==> !('A' <= s[i] <= 'Z')
    ensures Lower(s) == s
  {
  }

  // ---------------------------------------------------------------------------
  // Host

  /** Host characters this stand-in accepts: ASCII letters, digits, `-`, `.`, `_`.
      The standard maps each of them to itself (after lower-casing). */
  predicate IsHostChar(c: char)
  {
    'a' <= c <= 'z' || 'A' <= c <= 'Z' || IsDigit(c) || c == '-' || c == '.' || c == '_'
  }

  predicate AllHexDigits(s: string)
  {
    forall i :: 0 <= i < |s| ==> IsHexDigit(s[i])
  }

  /** The "ends in a number checker" of section 3.5 of the standard: the last label
      (a trailing empty label aside) is all digits or a `0x` hexadecimal number. */
  predicate EndsInNumber(host: string)
  {
    var labels := SplitAll(host, '.');
    var kept := if |labels| > 1 && labels[|labels| - 1] == [] then labels[..|labels| - 1] else labels;
    var last := kept[|kept| - 1];
    (last != [] && AllDigits(last)) || (StartsWith(last, "0x") && AllHexDigits(last[2..]))
  }

  /** A decimal number 0–255 written without leading zeros. */
  predicate IsOctet(part: string)
  {
    part != [] && AllDigits(part) && (part[0] == '0' ==> |part| == 1) && ValueOf(part) <= 255
  }

  /** An IPv4 address in the form the IPv4 serializer writes it, which the IPv4
      parser leaves unchanged. */
  predicate IsDottedQuad(host: string)
  {
    var labels := SplitAll(host, '.');
    |labels| == 4 && forall i :: 0 <= i < 4 ==> IsOctet(labels[i])
  }

  predicate HasAceLabel(host: string)
  {
    var labels := SplitAll(host, '.');
    exists i :: 0 <= i < |labels| && StartsWith(labels[i], "xn--")
  }

  /** The host parser on the accepted hosts: a non-empty name of host characters,
      lower-cased. Refused: other characters (percent-escapes, IPv6 literals,
      non-ASCII names), labels in ACE form, and hosts ending in a number that are
      not already a dotted-quad IPv4 address. */
  function ParseHost(text: string): (r: Option<string>)
    ensures r.Some? ==> text != [] && r.value == Lower(text)
    ensures r.Some? ==> forall i :: 0 <= i < |text| ==> IsHostChar(text[i])
  {
    if text == [] || exists i :: 0 <= i < |text| && !IsHostChar(text[i]) then None
    else
      var host := Lower(text);
      if HasAceLabel(host) || (EndsInNumber(host) && !IsDottedQuad(host)) then None
      else Some(host)
  }

  /** A parsed host parses to itself. */
  lemma ParseHostIdempotent(text: string)
    requires ParseHost(text).Some?
    ensures ParseHost(ParseHost(text).value) == ParseHost(text)
  {
    var host := Lower(text);
    LowerUnchanged(host);
    assert forall i :: 0 <= i < |host| ==> IsHostChar(host[i]) by {
      forall i | 0 <= i < |host| ensures IsHostChar(host[i]) {
        assert IsHostChar(text[i]);
      }
    }
  }

  // ---------------------------------------------------------------------------
  // Port

  function DefaultPort(scheme: string): nat
  {
    if scheme == "https" then 443 else 80
  }

  /** The port state of the parser: the digits after `:`, if any. None: failure;
      Some(None): no port; Some(Some(n)): port n. */
  function ParsePort(scheme: string, text: Option<string>): (r: Option<Option<nat>>)
    ensures r.Some? && r.value.Some? ==> r.value.value <= 65535 && r.value.value != DefaultPort(scheme)
  {
    match text
    case None => Some(None)
    case Some(digits) =>
      if !AllDigits(digits) then None
      else if digits == [] then Some(None)
      else if ValueOf(digits) > 65535 then None
      else if ValueOf(digits) == DefaultPort(scheme) then Some(None)
      else Some(Some(ValueOf(digits)))
  }

  // ---------------------------------------------------------------------------
  // Path

  /** Path characters this stand-in accepts: printable ASCII other than the path
      percent-encode set and `\`, so the standard keeps each of them as it is. */
  predicate IsPathChar(c: char)
  {
    '!' <= c <= '~' && c != '"' && c != '#' && c != '<' && c != '>' && c != '?'
    && c != '\\' && c != '^' && c != '`' && c != '{' && c != '}'
  }

  /** A segment the standard would remove or resolve (`.`, `..` and their
      percent-encoded spellings). */
  predicate IsDotSegment(segment: string)
  {
    var s := Lower(segment);
    s == "." || s == "%2e" || s == ".." || s == ".%2e" || s == "%2e." || s == "%2e%2e"
  }

  predicate PathOk(path: string)
  {
    && |path| >= 1 && path[0] == '/'
    && (forall i :: 0 <= i < |path| ==> IsPathChar(path[i]))
    && var segments := SplitAll(path[1..], '/');
       forall i :: 0 <= i < |segments| ==> !IsDotSegment(segments[i])
  }

  // ---------------------------------------------------------------------------
  // Query and fragment

  /** `%XX` for each byte, with upper-case hexadecimal digits. */
  function PercentEscapes(bs: seq<Utf8.byte>): (s: string)
    ensures forall i :: 0 <= i < |s| ==> s[i] == '%' || ('0' <= s[i] <= '9' || 'A' <= s[i] <= 'F')
  {
    if bs == [] then []
    else ['%', HexDigitUpper(bs[0] / 16), HexDigitUpper(bs[0] % 16)] + PercentEscapes(bs[1..])
  }

  /** The special-query percent-encode set, for the characters the input can hold. */
  predicate InQueryEncodeSet(c: char)
  {
    c <= ' ' || c > '~' || c == '"' || c == '#' || c == '<' || c == '>' || c == '\''
  }

  /** The fragment percent-encode set. */
  predicate InFragmentEncodeSet(c: char)
  {
    c <= ' ' || c > '~' || c == '"' || c == '<' || c == '>' || c == '`'
  }

  predicate QueryOk(q: string)
  {
    forall i :: 0 <= i < |q| ==> !InQueryEncodeSet(q[i])
  }

  predicate FragmentOk(f: string)
  {
    forall i :: 0 <= i < |f| ==> !InFragmentEncodeSet(f[i])
  }

  /** The query as the parser stores it: every character of the encode set replaced
      by the escapes of its UTF-8 bytes. */
  function QueryEncode(s: string): (r: string)
    ensures QueryOk(r)
    ensures QueryOk(s) ==> r == s
  {
    if s == [] then []
    else (if InQueryEncodeSet(s[0]) then PercentEscapes(Utf8.EncodeChar(s[0])) else [s[0]]) + QueryEncode(s[1..])
  }

  function FragmentEncode(s: string): (r: string)
    ensures FragmentOk(r)
    ensures FragmentOk(s) ==> r == s
  {
    if s == [] then []
    else (if InFragmentEncodeSet(s[0]) then PercentEscapes(Utf8.EncodeChar(s[0])) else [s[0]]) + FragmentEncode(s[1..])
  }

  // ---------------------------------------------------------------------------
  // Parser and serializer

  /** Reads the pieces of a URL; None when a piece is outside the accepted shape. */
  function Interpret(p: Pieces): Option<Url>
  {
    var scheme := Lower(p.scheme);
    var path := if p.path == "" then "/" else p.path;
    var (hostText, portText) := SplitFirst(p.authority, ':');
    if !(scheme == "http" || scheme == "https") || !PathOk(path) then None
    else
      match (ParseHost(hostText), ParsePort(scheme, portText))
      case (Some(host), Some(port)) =>
        Some(Url(scheme, host, port, path, MapOption(p.query, QueryEncode), MapOption(p.fragment, FragmentEncode)))
      case _ => None
  }

  /** `new URL(s)`: None where the URL constructor would throw, and also on the
      inputs outside the accepted shape. */
  function Parse(s: string): (r: Option<Url>)
    ensures r.Some? ==> NoSpaceOrControl(s) && Split(s).Some?
    ensures r.Some? ==> WellFormed(r.value)
  {
    if !NoSpaceOrControl(s) then None
    else
      match Split(s)
      case None => None
      case Some(p) => InterpretWellFormed(p); Interpret(p)
  }

  /** Whatever the interpreter accepts is well formed. */
  lemma InterpretWellFormed(p: Pieces)
    ensures Interpret(p).Some? ==> WellFormed(Interpret(p).value)
  {
    var (hostText, portText) := SplitFirst(p.authority, ':');
    if ParseHost(hostText).Some? {
      ParseHostIdempotent(hostText);
    }
  }

  function PortText(port: Option<nat>): string
  {
    match port
    case None => ""
    case Some(n) => ":" + FromNat(n)
  }

  function Unparse(u: Url): Pieces
  {
    Pieces(u.scheme, u.host + PortText(u.port), u.path, u.query, u.fragment)
  }

  /** The URL serializer (`url.toString()`): scheme, `://`, host, `:` and the port
      when there is one, path, then `?` and the query and `#` and the fragment when
      present. */
  function Serialize(u: Url): (r: string)
    ensures r == u.scheme + "://" + u.host + PortText(u.port) + u.path
                 + OptionalText('?', u.query) + OptionalText('#', u.fragment)
  {
    Join(Unparse(u))
  }

  /** What `Parse` produces. */
  predicate WellFormed(u: Url)
  {
    && (u.scheme == "http" || u.scheme == "https")
    && ParseHost(u.host) == Some(u.host)
    && (u.port.Some? ==> u.port.value <= 65535 && u.port.value != DefaultPort(u.scheme))
    && PathOk(u.path)
    && (u.query.Some? ==> QueryOk(u.query.value))
    && (u.fragment.Some? ==> FragmentOk(u.fragment.value))
  }

  lemma UnparsePiecesOk(u: Url)
    requires WellFormed(u)
    ensures PiecesOk(Unparse(u))
  {
    var host := u.host;
    assert forall i :: 0 <= i < |host| ==> IsHostChar(host[i]);
    assert ':' !in host && '/' !in host && '?' !in host && '#' !in host;
    assert '/' !in PortText(u.port) && '?' !in PortText(u.port) && '#' !in PortText(u.port);
  }

  lemma SerializeNoSpaceOrControl(u: Url)
    requires u.scheme == "http" || u.scheme == "https"
    requires forall i :: 0 <= i < |u.host| ==> IsHostChar(u.host[i])
    requires forall i :: 0 <= i < |u.path| ==> IsPathChar(u.path[i])
    requires u.query.Some? ==> QueryOk(u.query.value)
    requires u.fragment.Some? ==> FragmentOk(u.fragment.value)
    ensures NoSpaceOrControl(Serialize(u))
  {
    var authority := u.host + PortText(u.port);
    assert NoSpaceOrControl(authority);
    var hier := JoinHierarchical(u.scheme, authority, u.path);
    assert NoSpaceOrControl(hier);
    var q, f := OptionalText('?', u.query), OptionalText('#', u.fragment);
    assert NoSpaceOrControl(q);
    assert NoSpaceOrControl(f);
    NoSpaceOrControlConcat(hier, q);
    NoSpaceOrControlConcat(hier + q, f);
  }

  /** The serialized port is read back as the same port. */
  lemma PortTextParses(scheme: string, host: string, port: Option<nat>)
    requires ':' !in host
    requires port.Some? ==> port.value <= 65535 && port.value != DefaultPort(scheme)
    ensures var (hostText, portText) := SplitFirst(host + PortText(port), ':');
      hostText == host && ParsePort(scheme, portText) == Some(port)
  {
    match port {
      case None =>
        assert host + PortText(port) == host;
        SplitFirstAbsent(host, ':');
      case Some(n) =>
        assert host + PortText(port) == host + [':'] + FromNat(n);
        SplitFirstAt(host, ':', FromNat(n));
    }
  }

  lemma InterpretUnparse(u: Url)
    requires WellFormed(u)
    ensures Interpret(Unparse(u)) == Some(u)
  {
    LowerUnchanged(u.scheme);
    var host := u.host;
    assert forall i :: 0 <= i < |host| ==> IsHostChar(host[i]);
    PortTextParses(u.scheme, host, u.port);
  }

  /** Serializing a well-formed URL and parsing the result gives the same URL. */
  lemma ParseSerialize(u: Url)
    requires WellFormed(u)
    ensures Parse(Serialize(u)) == Some(u)
  {
    UnparsePiecesOk(u);
    JoinThenSplit(Unparse(u));
    assert forall i :: 0 <= i < |u.host| ==> IsHostChar(u.host[i]);
    SerializeNoSpaceOrControl(u);
    InterpretUnparse(u);
  }

  /** A query and a fragment after a URL without them leave its other pieces as
      they were. */
  lemma SplitWithQueryAndFragment(a: string, query: Option<string>, fragment: Option<string>)
    requires '?' !in a && '#' !in a
    requires query.Some? ==> '#' !in query.value
    ensures Split(a + OptionalText('?', query) + OptionalText('#', fragment))
         == MapOption(Split(a), (p: Pieces) => p.(query := query, fragment := fragment))
  {
    var beforeFragment := a + OptionalText('?', query);
    assert '#' !in OptionalText('?', query);
    assert '#' !in beforeFragment;
    SplitOffOptional(beforeFragment, '#', fragment);
    SplitOffOptional(a, '?', query);
    SplitFirstAbsent(a, '#');
    SplitFirstAbsent(a, '?');
  }

  /** An optional `c`-delimited tail after text without `c` is split off again. */
  lemma SplitOffOptional(a: string, c: char, text: Option<string>)
    requires c !in a
    ensures SplitFirst(a + OptionalText(c, text), c) == (a, text)
  {
    match text {
      case None =>
        assert a + OptionalText(c, text) == a;
        SplitFirstAbsent(a, c);
      case Some(t) =>
        assert a + OptionalText(c, text) == a + [c] + t;
        SplitFirstAt(a, c, t);
    }
  }

  /** The scheme is the text before the first `:`. */
  lemma SchemeBeforeColon(s: string)
    requires Split(s).Some?
    ensures SplitFirst(s, ':').0 == Split(s).value.scheme
  {
    var p := Split(s).value;
    SplitThenJoin(s);
    JoinAfterScheme(p);
    SplitFirstAt(p.scheme, ':', "//" + p.authority + p.path + OptionalText('?', p.query) + OptionalText('#', p.fragment));
  }

  lemma JoinAfterScheme(p: Pieces)
    ensures Join(p) == p.scheme + [':'] + ("//" + p.authority + p.path + OptionalText('?', p.query) + OptionalText('#', p.fragment))
  {
  }

  lemma ParseOfPieces(s: string, p: Pieces)
    requires NoSpaceOrControl(s) && Split(s) == Some(p)
    ensures Parse(s) == Interpret(p)
  {
  }

  /** A text without `:` has no scheme, so it does not parse. */
  lemma NoSchemeRefused(s: string)
    requires ':' !in s
    ensures Parse(s).None?
  {
    var (beforeFragment, fragment) := SplitFirst(s, '#');
    assert forall i :: 0 <= i < |beforeFragment| ==> beforeFragment[i] == s[i];
    var (beforeQuery, query) := SplitFirst(beforeFragment, '?');
    assert forall i :: 0 <= i < |beforeQuery| ==> beforeQuery[i] == beforeFragment[i];
    assert ':' !in beforeQuery;
    SplitFirstAbsent(beforeQuery, ':');
  }

  predicate IsLowerLetter(c: char)
  {
    'a' <= c <= 'z'
  }

  predicate Letters(s: string)
  {
    forall i :: 0 <= i < |s| ==> IsLowerLetter(s[i])
  }

  /** A host name of lower-case letters and dots is accepted as it is written: it
      does not end in a number and has no label in ACE form. */
  lemma ParseHostLetters(text: string)
    requires text != []
    requires forall i :: 0 <= i < |text| ==> IsLowerLetter(text[i]) || text[i] == '.'
    ensures ParseHost(text) == Some(text)
  {
    assert forall i :: 0 <= i < |text| ==> IsHostChar(text[i]);
    LowerUnchanged(text);
    LabelsOfLetters(text);
    NoAceLabel(text);
    NotEndsInNumber(text);
  }

  lemma LabelsOfLetters(text: string)
    requires forall i :: 0 <= i < |text| ==> IsLowerLetter(text[i]) || text[i] == '.'
    ensures forall k :: 0 <= k < |SplitAll(text, '.')| ==> Letters(SplitAll(text, '.')[k])
  {
    var labels := SplitAll(text, '.');
    var isNameChar := (c: char) => IsLowerLetter(c) || c == '.';
    SplitAllKeeps(text, '.', isNameChar);
    forall k | 0 <= k < |labels| ensures Letters(labels[k]) {
      forall j | 0 <= j < |labels[k]| ensures IsLowerLetter(labels[k][j]) {
        assert isNameChar(labels[k][j]);
        assert labels[k][j] in labels[k];
      }
    }
  }

  lemma NoAceLabel(text: string)
    requires forall k :: 0 <= k < |SplitAll(text, '.')| ==> Letters(SplitAll(text, '.')[k])
    ensures !HasAceLabel(text)
  {
    var labels := SplitAll(text, '.');
    forall k | 0 <= k < |labels| ensures !StartsWith(labels[k], "xn--") {
      assert Letters(labels[k]);
      assert |labels[k]| < 3 || labels[k][2] != '-';
    }
  }

  lemma NotEndsInNumber(text: string)
    requires forall k :: 0 <= k < |SplitAll(text, '.')| ==> Letters(SplitAll(text, '.')[k])
    ensures !EndsInNumber(text)
  {
    var labels := SplitAll(text, '.');
    var kept := if |labels| > 1 && labels[|labels| - 1] == [] then labels[..|labels| - 1] else labels;
    var last := kept[|kept| - 1];
    assert last == labels[|kept| - 1];
    if last != [] {
      assert Letters(last);
      assert IsLowerLetter(last[0]);
    }
  }

  /** A path of lower-case letters, digits, `@` and slashes is accepted: it has
      no dot segments. */
  lemma PathOkPlain(path: string)
    requires |path| >= 1 && path[0] == '/'
    requires forall i :: 0 <= i < |path| ==>
      IsLowerLetter(path[i]) || IsDigit(path[i]) || path[i] == '@' || path[i] == '/'
    ensures PathOk(path)
  {
    var rest := path[1..];
    assert forall i :: 0 <= i < |rest| ==> rest[i] == path[i + 1];
    var segments := SplitAll(rest, '/');
    SplitAllKeeps(rest, '/', (c: char) => IsLowerLetter(c) || IsDigit(c) || c == '@' || c == '/');
    forall k | 0 <= k < |segments| ensures !IsDotSegment(segments[k]) {
      var seg := segments[k];
      if seg != [] {
        assert seg[0] in seg;
        assert IsLowerLetter(seg[0]) || IsDigit(seg[0]) || seg[0] == '@';
        assert Lower(seg)[0] == seg[0];
      }
    }
  }
}
