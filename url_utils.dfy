/** The redirect-URL codec of src/utils/url.ts: a redirect URL taken apart into
    URLParts, and URLParts appended as query parameters to a base URL. */
module UrlUtils {
  import opened Results
  import opened Strings
  import opened Digits
  import Form = FormUrlencoded
  import opened BasicUrl

  /** URLParts; an optional field that the source leaves out is None. */
  datatype URLParts = URLParts(
    prefix: string,
    host: string,
    port: Option<string>,
    resources: Option<string>)

  function InvalidUrl(url: string): string
  {
    "Invalid URL: " + url
  }

  function InvalidBaseUrl(baseUrl: string): string
  {
    "Invalid base URL: " + baseUrl
  }

  /** The guard `url.match(/^(https?:\/\/)/)`. */
  predicate HasHttpPrefix(url: string)
  {
    StartsWith(url, "http://") || StartsWith(url, "https://")
  }

  /** An optional JavaScript string is truthy when present and not empty. */
  predicate Truthy(s: Option<string>)
  {
    s.Some? && s.value != ""
  }

  /** `urlObject.port`: the port in decimal, or "" when the URL has none. */
  function PortString(u: Url): string
  {
    match u.port
    case None => ""
    case Some(n) => FromNat(n)
  }

  /** The path without its leading `/` and with every `/` turned into `.`;
      nothing for the root path. */
  function Resources(u: Url): Option<string>
  {
    if u.path != "/" then Some(ReplaceAll(if u.path == [] then [] else u.path[1..], '/', '.')) else None
  }

  /** The object parseURL builds from a parsed URL: the scheme as `prefix`, the
      host, and `port` and `resources` only when they are truthy. */
  function PartsOf(u: Url): (r: URLParts)
    ensures ':' !in u.scheme ==> r.prefix == u.scheme
    ensures r.host == u.host
    ensures r.port.Some? <==> u.port.Some?
    ensures u.port.Some? ==> r.port == Some(FromNat(u.port.value))
    ensures r.resources.Some? <==> |u.path| > 1
    ensures r.resources.Some? ==> r.resources.value == ReplaceAll(u.path[1..], '/', '.')
    ensures r.port != Some("") && r.resources != Some("")
  {
    assert ':' !in u.scheme ==> RemoveFirst(u.scheme + ":", ':') == u.scheme by {
      if ':' !in u.scheme {
        PrefixOfScheme(u.scheme);
      }
    }
    var prefix := RemoveFirst(u.scheme + ":", ':');
    var port := PortString(u);
    var resources := Resources(u);
    URLParts(prefix, u.host, if port != "" then Some(port) else None,
             if Truthy(resources) then resources else None)
  }

  /** parseURL: throws "Invalid URL: " + url when the URL does not start with
      http:// or https://, or when it does not parse. */
  function ParseURL(url: string): (r: Result<URLParts>)
    ensures !HasHttpPrefix(url) ==> r == Err(InvalidUrl(url))
    ensures r.Err? ==> r == Err(InvalidUrl(url))
    ensures r.Ok? <==> HasHttpPrefix(url) && Parse(url).Some?
  {
    if !HasHttpPrefix(url) then Err(InvalidUrl(url))
    else
      match Parse(url)
      case None => Err(InvalidUrl(url))
      case Some(u) => Ok(PartsOf(u))
  }

  /** The text of a URL in the accepted shape, built from its pieces. */
  function UrlText(scheme: string, hostText: string, portText: Option<string>, path: string,
                        query: Option<string>, fragment: Option<string>): string
  {
    Join(Pieces(scheme, hostText + OptionalText(':', portText), path, query, fragment))
  }

  /** What parseURL returns for `scheme://host[:port][path][?query][#fragment]`:
      the scheme as prefix and the lower-cased host; a port only when digits are
      given and they do not name the scheme's default port, written without leading
      zeros; and resources, the path after its first `/` with `/` turned into `.`,
      only when the path is neither empty nor `/`. */
  lemma ParseURLComponents(scheme: string, hostText: string, portText: Option<string>, path: string,
                           query: Option<string>, fragment: Option<string>)
    requires scheme == "http" || scheme == "https"
    requires ParseHost(hostText).Some? && ParsePort(scheme, portText).Some?
    requires path == "" || PathOk(path)
    requires query.Some? ==> '#' !in query.value
    requires query.Some? ==> NoSpaceOrControl(query.value)
    requires fragment.Some? ==> NoSpaceOrControl(fragment.value)
    ensures var r := ParseURL(UrlText(scheme, hostText, portText, path, query, fragment));
      && r.Ok?
      && r.value.prefix == scheme
      && r.value.host == Lower(hostText)
      && (portText.None? || portText.value == "" ==> r.value.port.None?)
      && (portText.Some? && portText.value != "" ==>
            (r.value.port.Some? <==> ValueOf(portText.value) != DefaultPort(scheme))
            && (r.value.port.Some? ==> r.value.port.value == FromNat(ValueOf(portText.value))))
      && r.value.resources == (if path == "" || path == "/" then None else Some(ReplaceAll(path[1..], '/', '.')))
  {
    var url := UrlText(scheme, hostText, portText, path, query, fragment);
    RedirectNoSpaceOrControl(scheme, hostText, portText, path, query, fragment);
    var u := RedirectParses(scheme, hostText, portText, path, query, fragment);
    assert ParseURL(url) == Ok(PartsOf(u));
    PartsOfRedirect(u, scheme, hostText, portText, path);
  }

  /** The URLParts of the parsed redirect URL, read off its scheme, host, port and path. */
  lemma PartsOfRedirect(u: Url, scheme: string, hostText: string, portText: Option<string>, path: string)
    requires scheme == "http" || scheme == "https"
    requires ParsePort(scheme, portText).Some?
    requires path == "" || PathOk(path)
    requires u.scheme == scheme && u.host == Lower(hostText) && u.port == ParsePort(scheme, portText).value
    requires u.path == (if path == "" then "/" else path)
    ensures var parts := PartsOf(u);
      && parts.prefix == scheme
      && parts.host == Lower(hostText)
      && (portText.None? || portText.value == "" ==> parts.port.None?)
      && (portText.Some? && portText.value != "" ==>
            (parts.port.Some? <==> ValueOf(portText.value) != DefaultPort(scheme))
            && (parts.port.Some? ==> parts.port.value == FromNat(ValueOf(portText.value))))
      && parts.resources == (if path == "" || path == "/" then None else Some(ReplaceAll(path[1..], '/', '.')))
  {
    PrefixOfScheme(scheme);
    if path != "" && path != "/" {
      ResourcesNotEmpty(path);
    }
  }

  /** The redirect URL text holds no space or control character when its query and
      fragment hold none. */
  lemma RedirectNoSpaceOrControl(scheme: string, hostText: string, portText: Option<string>, path: string,
                                 query: Option<string>, fragment: Option<string>)
    requires scheme == "http" || scheme == "https"
    requires ParseHost(hostText).Some? && ParsePort(scheme, portText).Some?
    requires path == "" || PathOk(path)
    requires query.Some? ==> NoSpaceOrControl(query.value)
    requires fragment.Some? ==> NoSpaceOrControl(fragment.value)
    ensures NoSpaceOrControl(UrlText(scheme, hostText, portText, path, query, fragment))
  {
    assert NoSpaceOrControl(hostText) by {
      assert forall i :: 0 <= i < |hostText| ==> IsHostChar(hostText[i]);
    }
    var port := OptionalText(':', portText);
    assert NoSpaceOrControl(port) by {
      if portText.Some? {
        assert forall i :: 0 <= i < |portText.value| ==> IsDigit(portText.value[i]);
        assert forall i :: 1 <= i < |port| ==> port[i] == portText.value[i - 1];
      }
    }
    var q, f := OptionalText('?', query), OptionalText('#', fragment);
    assert NoSpaceOrControl(q) by {
      if query.Some? {
        assert forall i :: 1 <= i < |q| ==> q[i] == query.value[i - 1];
      }
    }
    assert NoSpaceOrControl(f) by {
      if fragment.Some? {
        assert forall i :: 1 <= i < |f| ==> f[i] == fragment.value[i - 1];
      }
    }
    assert NoSpaceOrControl(path);
    assert NoSpaceOrControl(scheme + "://");
    NoSpaceOrControlConcat(scheme + "://", hostText);
    NoSpaceOrControlConcat(scheme + "://" + hostText, port);
    NoSpaceOrControlConcat(scheme + "://" + hostText + port, path);
    NoSpaceOrControlConcat(scheme + "://" + hostText + port + path, q);
    NoSpaceOrControlConcat(scheme + "://" + hostText + port + path + q, f);
    UrlTextIs(scheme, hostText, port, path, q, f, query, fragment, portText);
  }

  lemma UrlTextIs(scheme: string, hostText: string, port: string, path: string, q: string, f: string,
                       query: Option<string>, fragment: Option<string>, portText: Option<string>)
    requires port == OptionalText(':', portText)
    requires q == OptionalText('?', query) && f == OptionalText('#', fragment)
    ensures UrlText(scheme, hostText, portText, path, query, fragment)
         == scheme + "://" + hostText + port + path + q + f
  {
  }

  /** A non-root path has something after its leading `/`. */
  lemma ResourcesNotEmpty(path: string)
    requires PathOk(path) && path != "/"
    ensures ReplaceAll(path[1..], '/', '.') != ""
  {
  }

  /** The redirect URL text passes the guard and parses to its pieces. */
  lemma RedirectParses(scheme: string, hostText: string, portText: Option<string>, path: string,
                       query: Option<string>, fragment: Option<string>) returns (u: Url)
    requires scheme == "http" || scheme == "https"
    requires ParseHost(hostText).Some? && ParsePort(scheme, portText).Some?
    requires path == "" || PathOk(path)
    requires query.Some? ==> '#' !in query.value
    requires NoSpaceOrControl(UrlText(scheme, hostText, portText, path, query, fragment))
    ensures HasHttpPrefix(UrlText(scheme, hostText, portText, path, query, fragment))
    ensures Parse(UrlText(scheme, hostText, portText, path, query, fragment)) == Some(u)
    ensures u.scheme == scheme && u.host == Lower(hostText) && u.port == ParsePort(scheme, portText).value
    ensures u.path == (if path == "" then "/" else path)
    ensures u.query == MapOption(query, QueryEncode) && u.fragment == MapOption(fragment, FragmentEncode)
  {
    var p := Pieces(scheme, hostText + OptionalText(':', portText), path, query, fragment);
    RedirectPiecesOk(scheme, hostText, portText, path, query, fragment);
    JoinThenSplit(p);
    RedirectHasHttpPrefix(p);
    u := InterpretRedirect(scheme, hostText, portText, path, query, fragment);
    ParseOfPieces(Join(p), p);
  }

  lemma RedirectPiecesOk(scheme: string, hostText: string, portText: Option<string>, path: string,
                         query: Option<string>, fragment: Option<string>)
    requires scheme == "http" || scheme == "https"
    requires ParseHost(hostText).Some? && ParsePort(scheme, portText).Some?
    requires path == "" || PathOk(path)
    requires query.Some? ==> '#' !in query.value
    ensures PiecesOk(Pieces(scheme, hostText + OptionalText(':', portText), path, query, fragment))
  {
    AuthorityHasNoDelimiter(scheme, hostText, portText);
  }

  lemma AuthorityHasNoDelimiter(scheme: string, hostText: string, portText: Option<string>)
    requires ParseHost(hostText).Some? && ParsePort(scheme, portText).Some?
    ensures var authority := hostText + OptionalText(':', portText);
      '/' !in authority && '?' !in authority && '#' !in authority
  {
    assert forall i :: 0 <= i < |hostText| ==> IsHostChar(hostText[i]);
    if portText.Some? {
      assert forall i :: 0 <= i < |portText.value| ==> IsDigit(portText.value[i]);
    }
  }

  lemma RedirectHasHttpPrefix(p: Pieces)
    requires p.scheme == "http" || p.scheme == "https"
    ensures HasHttpPrefix(Join(p))
  {
    JoinAfterScheme(p);
    assert Join(p)[..|p.scheme| + 3] == p.scheme + "://";
  }

  /** The pieces of the redirect URL are read as its scheme, host, port and path. */
  lemma InterpretRedirect(scheme: string, hostText: string, portText: Option<string>, path: string,
                          query: Option<string>, fragment: Option<string>) returns (u: Url)
    requires scheme == "http" || scheme == "https"
    requires ParseHost(hostText).Some? && ParsePort(scheme, portText).Some?
    requires path == "" || PathOk(path)
    ensures Interpret(Pieces(scheme, hostText + OptionalText(':', portText), path, query, fragment)) == Some(u)
    ensures u.scheme == scheme && u.host == Lower(hostText) && u.port == ParsePort(scheme, portText).value
    ensures u.path == (if path == "" then "/" else path)
    ensures u.query == MapOption(query, QueryEncode) && u.fragment == MapOption(fragment, FragmentEncode)
  {
    HostHasNoColon(hostText);
    AuthoritySplits(hostText, portText);
    SchemeIsLower(scheme);
    RootPathOk();
    u := Interpret(Pieces(scheme, hostText + OptionalText(':', portText), path, query, fragment)).value;
  }

  lemma HostHasNoColon(hostText: string)
    requires ParseHost(hostText).Some?
    ensures ':' !in hostText
  {
    assert forall i :: 0 <= i < |hostText| ==> IsHostChar(hostText[i]);
  }

  lemma SchemeIsLower(scheme: string)
    requires scheme == "http" || scheme == "https"
    ensures Lower(scheme) == scheme
  {
    LowerUnchanged(scheme);
  }

  lemma AuthoritySplits(hostText: string, portText: Option<string>)
    requires ':' !in hostText
    ensures SplitFirst(hostText + OptionalText(':', portText), ':') == (hostText, portText)
  {
    match portText {
      case None =>
        assert hostText + OptionalText(':', portText) == hostText;
        SplitFirstAbsent(hostText, ':');
      case Some(d) =>
        assert hostText + OptionalText(':', portText) == hostText + [':'] + d;
        SplitFirstAt(hostText, ':', d);
    }
  }

  lemma RootPathOk()
    ensures PathOk("/")
  {
    assert "/"[1..] == "";
  }

  /** A port given without leading zeros and other than the scheme's default is
      returned exactly as written. */
  lemma ParseURLCanonicalPort(scheme: string, hostText: string, digits: string, path: string,
                              query: Option<string>, fragment: Option<string>)
    requires scheme == "http" || scheme == "https"
    requires ParseHost(hostText).Some?
    requires |digits| >= 1 && AllDigits(digits) && (digits[0] == '0' ==> digits == "0")
    requires ValueOf(digits) <= 65535 && ValueOf(digits) != DefaultPort(scheme)
    requires path == "" || PathOk(path)
    requires query.Some? ==> '#' !in query.value && NoSpaceOrControl(query.value)
    requires fragment.Some? ==> NoSpaceOrControl(fragment.value)
    ensures var r := ParseURL(UrlText(scheme, hostText, Some(digits), path, query, fragment));
      r.Ok? && r.value.port == Some(digits)
  {
    assert ParsePort(scheme, Some(digits)) == Some(Some(ValueOf(digits)));
    ParseURLComponents(scheme, hostText, Some(digits), path, query, fragment);
    FromNatValueOf(digits);
  }

  /** A port or resources that parseURL returns is never the empty string. */
  lemma ParseURLNoEmptyFields(url: string)
    requires ParseURL(url).Ok?
    ensures ParseURL(url).value.port != Some("") && ParseURL(url).value.resources != Some("")
    ensures ParseURL(url).value.resources.Some? ==> Parse(url).value.path != "/"
  {
  }

  /** parseURL returns `http` or `https` as prefix, as the URL is written. */
  lemma ParseURLPrefix(url: string)
    requires ParseURL(url).Ok?
    ensures ParseURL(url).value.prefix == (if StartsWith(url, "https://") then "https" else "http")
  {
    var scheme := if StartsWith(url, "https://") then "https" else "http";
    SchemeOfHttpPrefix(url);
    LowerUnchanged(scheme);
    assert Parse(url) == Interpret(Split(url).value);
    assert Parse(url).value.scheme == scheme;
    PrefixOfScheme(scheme);
  }

  /** The scheme the splitter reads from a URL that passes the guard. */
  lemma SchemeOfHttpPrefix(url: string)
    requires HasHttpPrefix(url) && Split(url).Some?
    ensures Split(url).value.scheme == (if StartsWith(url, "https://") then "https" else "http")
  {
    SchemeBeforeColon(url);
    FirstColonOfHttp(url);
  }

  lemma FirstColonOfHttp(url: string)
    requires HasHttpPrefix(url)
    ensures SplitFirst(url, ':').0 == (if StartsWith(url, "https://") then "https" else "http")
  {
    if StartsWith(url, "https://") {
      ColonAfterScheme(url, "https");
      SplitFirstAt("https", ':', url[6..]);
    } else {
      ColonAfterScheme(url, "http");
      SplitFirstAt("http", ':', url[5..]);
    }
  }

  /** A URL starting with `scheme://` is the scheme, `:` and the rest. */
  lemma ColonAfterScheme(url: string, scheme: string)
    requires scheme == "http" || scheme == "https"
    requires StartsWith(url, scheme + "://")
    ensures ':' !in scheme
    ensures url == scheme + [':'] + url[|scheme| + 1..]
  {
    var k := |scheme|;
    assert url[..k] == scheme && url[k] == ':' by {
      assert url[..k + 3][..k] == url[..k];
    }
    assert url == url[..k] + [url[k]] + url[k + 1..];
  }

  /** `protocol.replace(":", "")` gives back the scheme. */
  lemma PrefixOfScheme(scheme: string)
    requires ':' !in scheme
    ensures RemoveFirst(scheme + ":", ':') == scheme
  {
    RemoveFirstAt(scheme, ':', []);
    assert scheme + ":" == scheme + [':'] + [];
  }

  /** The guard sees only the first eight characters, which a query or fragment
      after a URL without `?` or `#` cannot reach into. */
  lemma HasHttpPrefixIgnoresTail(a: string, tail: string)
    requires '?' !in a && '#' !in a
    requires tail == [] || tail[0] == '?' || tail[0] == '#'
    ensures HasHttpPrefix(a + tail) == HasHttpPrefix(a)
  {
    var s := a + tail;
    if tail != [] {
      assert s[|a|] == tail[0];
    }
    if StartsWith(s, "http://") {
      assert |a| >= 7;
      assert a[..7] == s[..7];
    }
    if StartsWith(s, "https://") {
      assert |a| >= 8;
      assert a[..8] == s[..8];
    }
    if StartsWith(a, "http://") {
      assert s[..7] == a[..7];
    }
    if StartsWith(a, "https://") {
      assert s[..8] == a[..8];
    }
  }

  /** The query string and the fragment of the redirect URL never change what
      parseURL returns, nor whether it throws. */
  lemma ParseURLIgnoresQueryAndFragment(a: string, query: Option<string>, fragment: Option<string>)
    requires '?' !in a && '#' !in a
    requires query.Some? ==> '#' !in query.value && NoSpaceOrControl(query.value)
    requires fragment.Some? ==> NoSpaceOrControl(fragment.value)
    ensures var r := ParseURL(a + OptionalText('?', query) + OptionalText('#', fragment));
      (r.Ok? <==> ParseURL(a).Ok?) && (r.Ok? ==> r.value == ParseURL(a).value)
  {
    var tail := OptionalText('?', query) + OptionalText('#', fragment);
    var s := a + OptionalText('?', query) + OptionalText('#', fragment);
    assert s == a + tail;
    HasHttpPrefixIgnoresTail(a, tail);
    ParseIgnoresQueryAndFragment(a, query, fragment);
    if HasHttpPrefix(a) && Parse(a).Some? {
      assert ParseURL(s) == Ok(PartsOf(Parse(s).value));
      assert ParseURL(a) == Ok(PartsOf(Parse(a).value));
    }
  }

  lemma ParseIgnoresQueryAndFragment(a: string, query: Option<string>, fragment: Option<string>)
    requires '?' !in a && '#' !in a
    requires query.Some? ==> '#' !in query.value && NoSpaceOrControl(query.value)
    requires fragment.Some? ==> NoSpaceOrControl(fragment.value)
    ensures var r := Parse(a + OptionalText('?', query) + OptionalText('#', fragment));
      (r.Some? <==> Parse(a).Some?) && (r.Some? ==> PartsOf(r.value) == PartsOf(Parse(a).value))
  {
    var tail := OptionalText('?', query) + OptionalText('#', fragment);
    var s := a + OptionalText('?', query) + OptionalText('#', fragment);
    assert s == a + tail;
    NoSpaceOrControlTail(a, tail);
    SplitWithQueryAndFragment(a, query, fragment);
    if !NoSpaceOrControl(a) {
      assert Parse(a).None? && Parse(s).None?;
    } else if Split(a).None? {
      assert Split(s).None?;
    } else {
      var p := Split(a).value;
      var p' := p.(query := query, fragment := fragment);
      assert Split(s) == Some(p');
      assert Parse(a) == Interpret(p);
      assert Parse(s) == Interpret(p');
      InterpretIgnoresQueryAndFragment(p, query, fragment);
    }
  }

  lemma NoSpaceOrControlTail(a: string, tail: string)
    requires NoSpaceOrControl(tail)
    ensures NoSpaceOrControl(a + tail) <==> NoSpaceOrControl(a)
  {
    if NoSpaceOrControl(a) {
      NoSpaceOrControlConcat(a, tail);
    }
    assert forall i :: 0 <= i < |a| ==> (a + tail)[i] == a[i];
  }

  /** Interpreting the pieces reads the query and the fragment only into the
      URL's own query and fragment. */
  lemma InterpretIgnoresQueryAndFragment(p: Pieces, query: Option<string>, fragment: Option<string>)
    ensures var q := Interpret(p.(query := query, fragment := fragment));
      && (q.Some? <==> Interpret(p).Some?)
      && (q.Some? ==> PartsOf(q.value) == PartsOf(Interpret(p).value))
  {
  }

  // ---------------------------------------------------------------------------
  // constructURLWithQueryParams

  /** `searchParams` of a parsed URL: its query read as name-value pairs. */
  function SearchParams(u: Url): (r: seq<Form.Pair>)
    ensures u.query.None? || u.query == Some("") ==> r == []
    ensures u.query.Some? && '&' !in u.query.value && u.query.value != "" ==> |r| == 1
  {
    match u.query
    case None => []
    case Some(q) => Form.Parse(q)
  }

  /** The URL after its `searchParams` changed to `pairs`: the update steps store
      the serialized pairs as its query (no query when they serialize to ""). */
  function WithSearchParams(u: Url, pairs: seq<Form.Pair>): (r: Url)
    ensures r.scheme == u.scheme && r.host == u.host && r.port == u.port
    ensures r.path == u.path && r.fragment == u.fragment
    ensures r.query.None? <==> pairs == []
    ensures r.query.Some? ==> r.query.value == Form.Serialize(pairs)
  {
    var q := Form.Serialize(pairs);
    u.(query := if q == "" then None else Some(q))
  }

  /** The pairs constructURLWithQueryParams appends, in order: prefix and host
      always, then port and resources when truthy. */
  function AppendedPairs(parts: URLParts): (r: seq<Form.Pair>)
    ensures |r| == 2 + (if Truthy(parts.port) then 1 else 0) + (if Truthy(parts.resources) then 1 else 0)
    ensures r[0] == ("prefix", parts.prefix) && r[1] == ("host", parts.host)
  {
    [("prefix", parts.prefix), ("host", parts.host)]
    + (if Truthy(parts.port) then [("port", parts.port.value)] else [])
    + (if Truthy(parts.resources) then [("resources", parts.resources.value)] else [])
  }

  /** The string constructURLWithQueryParams returns, or its error. */
  function QueryParamsURL(baseUrl: string, parts: URLParts): (r: Result<string>)
    ensures r.Err? <==> Parse(baseUrl).None?
    ensures r.Err? ==> r.message == InvalidBaseUrl(baseUrl)
  {
    match Parse(baseUrl)
    case None => Err(InvalidBaseUrl(baseUrl))
    case Some(u) => Ok(Serialize(WithSearchParams(u, SearchParams(u) + AppendedPairs(parts))))
  }

  /** The appends of constructURLWithQueryParams on the list of query parameters:
      prefix and host, then port and resources when they are truthy. */
  method AppendURLParts(searchParams: seq<Form.Pair>, urlParts: URLParts) returns (r: seq<Form.Pair>)
    ensures r == searchParams + AppendedPairs(urlParts)
  {
    r := searchParams + [("prefix", urlParts.prefix)];
    r := r + [("host", urlParts.host)];
    if Truthy(urlParts.port) {
      r := r + [("port", urlParts.port.value)];
    }
    if Truthy(urlParts.resources) {
      r := r + [("resources", urlParts.resources.value)];
    }
  }

  /** constructURLWithQueryParams: parse the base URL, append the parameters to
      its searchParams, store them as its query, serialize. */
  method ConstructURLWithQueryParams(baseUrl: string, urlParts: URLParts) returns (r: Result<string>)
    ensures r == QueryParamsURL(baseUrl, urlParts)
  {
    var parsed := Parse(baseUrl);
    if parsed.None? {
      return Err(InvalidBaseUrl(baseUrl));
    }
    var url := parsed.value;
    var searchParams := AppendURLParts(SearchParams(url), urlParts);
    url := WithSearchParams(url, searchParams);
    r := Ok(Serialize(url));
  }

  /** Text made only of characters the form serializer keeps: ASCII alphanumerics
      and `*-._`. */
  predicate Plain(s: string)
  {
    forall i :: 0 <= i < |s| ==> Form.IsUnreservedChar(s[i])
  }

  /** With plain parts the appended query reads `prefix=…&host=…`, then `&port=…`
      and `&resources=…` when those are truthy. */
  lemma AppendedQueryText(parts: URLParts)
    requires Plain(parts.prefix) && Plain(parts.host)
    requires parts.port.Some? ==> Plain(parts.port.value)
    requires parts.resources.Some? ==> Plain(parts.resources.value)
    ensures Form.Serialize(AppendedPairs(parts))
         == "prefix=" + parts.prefix + "&host=" + parts.host
            + (if Truthy(parts.port) then "&port=" + parts.port.value else "")
            + (if Truthy(parts.resources) then "&resources=" + parts.resources.value else "")
  {
    NamesPlain();
    var first := [("prefix", parts.prefix)];
    Form.SerializePlainPair("prefix", parts.prefix);
    assert Form.Serialize(first) == "prefix" + "=" + parts.prefix;
    var pairs, text := SerializeStep(first, "prefix" + "=" + parts.prefix, "host", parts.host);
    var pairs2, text2 := SerializeOptional(pairs, text, "port", parts.port);
    var pairs3, text3 := SerializeOptional(pairs2, text2, "resources", parts.resources);
    AppendedPairsShape(parts);
    QueryTextShape(parts.prefix, parts.host, parts.port, parts.resources);
  }

  lemma AppendedPairsShape(parts: URLParts)
    ensures AppendedPairs(parts)
         == [("prefix", parts.prefix)] + [("host", parts.host)]
            + (if Truthy(parts.port) then [("port", parts.port.value)] else [])
            + (if Truthy(parts.resources) then [("resources", parts.resources.value)] else [])
  {
    assert [("prefix", parts.prefix)] + [("host", parts.host)] == [("prefix", parts.prefix), ("host", parts.host)];
  }

  lemma QueryTextShape(prefix: string, host: string, port: Option<string>, resources: Option<string>)
    ensures "prefix" + "=" + prefix + ("&" + "host" + "=" + host)
            + (if Truthy(port) then "&" + "port" + "=" + port.value else "")
            + (if Truthy(resources) then "&" + "resources" + "=" + resources.value else "")
         == "prefix=" + prefix + "&host=" + host
            + (if Truthy(port) then "&port=" + port.value else "")
            + (if Truthy(resources) then "&resources=" + resources.value else "")
  {
    assert "prefix" + "=" + prefix == "prefix=" + prefix;
    assert "&" + "host" + "=" + host == "&host=" + host;
    if Truthy(port) {
      assert "&" + "port" + "=" + port.value == "&port=" + port.value;
    }
    if Truthy(resources) {
      assert "&" + "resources" + "=" + resources.value == "&resources=" + resources.value;
    }
  }

  lemma NamesPlain()
    ensures Plain("prefix") && Plain("host") && Plain("port") && Plain("resources")
  {
  }

  lemma SerializeOptional(pairs: seq<Form.Pair>, text: string, name: string, value: Option<string>)
    returns (pairs': seq<Form.Pair>, text': string)
    requires |pairs| > 0 && Form.Serialize(pairs) == text
    requires Plain(name) && (value.Some? ==> Plain(value.value))
    ensures pairs' == pairs + (if Truthy(value) then [(name, value.value)] else [])
    ensures text' == text + (if Truthy(value) then "&" + name + "=" + value.value else "")
    ensures |pairs'| > 0 && Form.Serialize(pairs') == text'
  {
    if Truthy(value) {
      pairs', text' := SerializeStep(pairs, text, name, value.value);
    } else {
      pairs', text' := pairs, text;
      assert pairs + [] == pairs;
      assert text + "" == text;
    }
  }

  lemma SerializeStep(pairs: seq<Form.Pair>, text: string, name: string, value: string)
    returns (pairs': seq<Form.Pair>, text': string)
    requires |pairs| > 0 && Form.Serialize(pairs) == text
    requires Plain(name) && Plain(value)
    ensures pairs' == pairs + [(name, value)]
    ensures text' == text + ("&" + name + "=" + value)
    ensures |pairs'| > 0 && Form.Serialize(pairs') == text'
  {
    pairs' := pairs + [(name, value)];
    text' := text + ("&" + name + "=" + value);
    Form.SerializePlainPair(name, value);
    Form.SerializeAppend(pairs, (name, value));
    PairTextConcat(text, name, value);
  }

  lemma PairTextConcat(text: string, name: string, value: string)
    ensures text + "&" + (name + "=" + value) == text + ("&" + name + "=" + value)
  {
  }

  /** The names of the appended pairs: prefix and host always, port and resources
      exactly when they are truthy. */
  lemma AppendedNames(parts: URLParts, name: string)
    ensures Form.Has(AppendedPairs(parts), name) <==>
      name == "prefix" || name == "host"
      || (name == "port" && Truthy(parts.port))
      || (name == "resources" && Truthy(parts.resources))
  {
    var ps := AppendedPairs(parts);
    if name == "port" && Truthy(parts.port) {
      assert ps[2].0 == "port";
    }
    if name == "resources" && Truthy(parts.resources) {
      assert ps[|ps| - 1].0 == "resources";
    }
  }

  /** The string returned is the base URL up to its query, then `?` and all pairs
      serialized (those of the base query first), then the base's fragment. */
  lemma QueryParamsURLText(baseUrl: string, parts: URLParts)
    requires Parse(baseUrl).Some?
    ensures var u := Parse(baseUrl).value;
      QueryParamsURL(baseUrl, parts).value
        == JoinHierarchical(u.scheme, u.host + PortText(u.port), u.path)
           + "?" + Form.Serialize(SearchParams(u) + AppendedPairs(parts))
           + OptionalText('#', u.fragment)
  {
    var u := Parse(baseUrl).value;
    WithSearchParamsText(u, SearchParams(u) + AppendedPairs(parts));
  }

  /** On a base URL without query or fragment the result is the base, `?` and the
      appended pairs. */
  lemma QueryParamsOnBareBase(baseUrl: string, parts: URLParts)
    requires Parse(baseUrl).Some? && Parse(baseUrl).value.query.None? && Parse(baseUrl).value.fragment.None?
    ensures var u := Parse(baseUrl).value;
      QueryParamsURL(baseUrl, parts)
        == Ok(JoinHierarchical(u.scheme, u.host + PortText(u.port), u.path) + "?" + Form.Serialize(AppendedPairs(parts)))
  {
    var u := Parse(baseUrl).value;
    QueryParamsURLText(baseUrl, parts);
    assert SearchParams(u) + AppendedPairs(parts) == AppendedPairs(parts);
    var before := JoinHierarchical(u.scheme, u.host + PortText(u.port), u.path);
    assert before + "?" + Form.Serialize(AppendedPairs(parts)) + OptionalText('#', None)
        == before + "?" + Form.Serialize(AppendedPairs(parts));
  }

  lemma WithSearchParamsText(u: Url, pairs: seq<Form.Pair>)
    requires |pairs| > 0
    ensures Serialize(WithSearchParams(u, pairs))
         == JoinHierarchical(u.scheme, u.host + PortText(u.port), u.path)
            + "?" + Form.Serialize(pairs) + OptionalText('#', u.fragment)
  {
    var q := Form.Serialize(pairs);
    assert q != "";
    var before := JoinHierarchical(u.scheme, u.host + PortText(u.port), u.path);
    var after := OptionalText('#', u.fragment);
    assert Serialize(WithSearchParams(u, pairs)) == before + OptionalText('?', Some(q)) + after;
    QueryTextConcat(before, q, after);
  }

  lemma QueryTextConcat(before: string, q: string, after: string)
    ensures before + OptionalText('?', Some(q)) + after == before + "?" + q + after
  {
  }

  /** Reading the constructed URL again gives the base URL with the same scheme,
      host, port, path (trailing slash included) and fragment, and as its
      query parameters the base URL's own, followed by the appended ones. */
  lemma QueryParamsURLRoundTrip(baseUrl: string, parts: URLParts)
    requires Parse(baseUrl).Some?
    ensures var u := Parse(baseUrl).value;
      && QueryParamsURL(baseUrl, parts).Ok?
      && Parse(QueryParamsURL(baseUrl, parts).value).Some?
      && var v := Parse(QueryParamsURL(baseUrl, parts).value).value;
      && v.scheme == u.scheme && v.host == u.host && v.port == u.port
      && v.path == u.path && v.fragment == u.fragment
      && SearchParams(v) == SearchParams(u) + AppendedPairs(parts)
  {
    var u := Parse(baseUrl).value;
    WithSearchParamsRoundTrip(u, SearchParams(u) + AppendedPairs(parts));
  }

  /** A well-formed URL with its query parameters replaced serializes to a URL
      that reads back with exactly those parameters. */
  lemma WithSearchParamsRoundTrip(u: Url, pairs: seq<Form.Pair>)
    requires WellFormed(u)
    ensures Parse(Serialize(WithSearchParams(u, pairs))) == Some(WithSearchParams(u, pairs))
    ensures SearchParams(WithSearchParams(u, pairs)) == pairs
  {
    WithSearchParamsWellFormed(u, pairs);
    ParseSerialize(WithSearchParams(u, pairs));
    WithSearchParamsReads(u, pairs);
  }

  lemma WithSearchParamsWellFormed(u: Url, pairs: seq<Form.Pair>)
    requires WellFormed(u)
    ensures WellFormed(WithSearchParams(u, pairs))
  {
    SerializedQueryOk(pairs);
  }

  lemma SerializedQueryOk(pairs: seq<Form.Pair>)
    ensures QueryOk(Form.Serialize(pairs))
  {
    var q := Form.Serialize(pairs);
    assert forall i :: 0 <= i < |q| ==> Form.IsSerializedChar(q[i]);
  }

  lemma WithSearchParamsReads(u: Url, pairs: seq<Form.Pair>)
    ensures SearchParams(WithSearchParams(u, pairs)) == pairs
  {
    Form.ParseSerialize(pairs);
    if Form.Serialize(pairs) == "" {
      assert pairs == [];
    }
  }

  // ---------------------------------------------------------------------------
  // hasQueryParameter

  /** hasQueryParameter: whether some query parameter of `url` is named
      `parameter`; "Invalid URL: " + url when `url` does not parse. */
  function HasQueryParameter(url: string, parameter: string): (r: Result<bool>)
    ensures r.Err? <==> Parse(url).None?
    ensures r.Err? ==> r.message == InvalidUrl(url)
    ensures r.Ok? ==> var pairs := SearchParams(Parse(url).value);
      (r.value <==> exists i :: 0 <= i < |pairs| && pairs[i].0 == parameter)
  {
    match Parse(url)
    case None => Err(InvalidUrl(url))
    case Some(u) => Ok(Form.Has(SearchParams(u), parameter))
  }

  /** On a URL that constructURLWithQueryParams returned, hasQueryParameter finds
      the base URL's own parameters, prefix and host, and port and resources
      exactly when they were truthy. */
  lemma HasQueryParameterAfterConstruct(baseUrl: string, parts: URLParts, name: string)
    requires Parse(baseUrl).Some?
    ensures QueryParamsURL(baseUrl, parts).Ok?
    ensures HasQueryParameter(QueryParamsURL(baseUrl, parts).value, name)
         == Ok(Form.Has(SearchParams(Parse(baseUrl).value), name)
               || name == "prefix" || name == "host"
               || (name == "port" && Truthy(parts.port))
               || (name == "resources" && Truthy(parts.resources)))
  {
    QueryParamsURLRoundTrip(baseUrl, parts);
    var before := SearchParams(Parse(baseUrl).value);
    var appended := AppendedPairs(parts);
    AppendedNames(parts, name);
    HasConcat(before, appended, name);
  }

  lemma HasConcat(a: seq<Form.Pair>, b: seq<Form.Pair>, name: string)
    ensures Form.Has(a + b, name) <==> Form.Has(a, name) || Form.Has(b, name)
  {
    if Form.Has(a + b, name) {
      var i :| 0 <= i < |a + b| && (a + b)[i].0 == name;
      if i >= |a| {
        assert b[i - |a|].0 == name;
      }
    }
    if Form.Has(a, name) {
      var i :| 0 <= i < |a| && a[i].0 == name;
      assert (a + b)[i].0 == name;
    }
    if Form.Has(b, name) {
      var i :| 0 <= i < |b| && b[i].0 == name;
      assert (a + b)[|a| + i].0 == name;
    }
  }
}
