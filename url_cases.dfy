/** The URLs of the unit tests of src/utils/url.ts, worked through the model:
    what parseURL returns for each, and what constructURLWithQueryParams builds.
    Expected texts are written one piece at a time. */
module UrlCases {
  import opened Results
  import opened Strings
  import opened Digits
  import Form = FormUrlencoded
  import opened BasicUrl
  import opened UrlUtils
  import opened UrlService

  // ---------------------------------------------------------------------------
  // Hosts, ports and paths of the tests

  lemma ExampleHost()
    ensures ParseHost("example.com") == Some("example.com") && Lower("example.com") == "example.com"
  {
    ParseHostLetters("example.com");
    LowerUnchanged("example.com");
  }

  lemma WwwHost()
    ensures ParseHost("www.example.com") == Some("www.example.com") && Lower("www.example.com") == "www.example.com"
  {
    ParseHostLetters("www.example.com");
    LowerUnchanged("www.example.com");
  }

  lemma Port3000()
    ensures ValueOf("3000") == 3000 && FromNat(ValueOf("3000")) == "3000"
    ensures ParsePort("http", Some("3000")) == Some(Some(3000))
  {
    assert FromNat(3000) == "3000";
  }

  /** Two path segments joined by `/` come out joined by `.`. */
  lemma DotsForSlashes(a: string, b: string)
    requires '/' !in a
    ensures ReplaceAll(a + ['/'] + b, '/', '.') == a + ['.'] + ReplaceAll(b, '/', '.')
  {
    ReplaceAllConcat(a + ['/'], b, '/', '.');
    ReplaceAllConcat(a, ['/'], '/', '.');
    ReplaceAllAbsent(a, '/', '.');
    assert ReplaceAll(['/'], '/', '.') == ['.'];
  }

  lemma TestAuthPath()
    ensures PathOk("/test/auth")
    ensures ReplaceAll("/test/auth"[1..], '/', '.') == "test.auth"
  {
    PathOkPlain("/test/auth");
    TestAuthSegments();
    DotsForSlashes("test", "auth");
    ReplaceAllAbsent("auth", '/', '.');
  }

  lemma TestAuthSegments()
    ensures "/test/auth"[1..] == "test" + ['/'] + "auth"
    ensures "test" + ['.'] + "auth" == "test.auth"
    ensures '/' !in "test" && '/' !in "auth"
  {
  }

  lemma TestPath()
    ensures PathOk("/test")
    ensures ReplaceAll("/test"[1..], '/', '.') == "test"
  {
    PathOkPlain("/test");
    assert "/test"[1..] == "test";
    ReplaceAllAbsent("test", '/', '.');
  }

  lemma ABCPath()
    ensures PathOk("/a/b/c")
    ensures ReplaceAll("/a/b/c"[1..], '/', '.') == "a.b.c"
  {
    PathOkPlain("/a/b/c");
    ABCSegments();
    DotsForSlashes("a", "b/c");
    DotsForSlashes("b", "c");
    ReplaceAllAbsent("c", '/', '.');
  }

  lemma ABCSegments()
    ensures "/a/b/c"[1..] == "a" + ['/'] + ("b" + ['/'] + "c")
    ensures "a" + ['.'] + ("b" + ['.'] + "c") == "a.b.c"
    ensures '/' !in "a" && '/' !in "b" && '/' !in "c"
  {
  }

  // ---------------------------------------------------------------------------
  // parseURL

  /** Only prefix, host and port: the root path gives no resources. */
  lemma ParseLocalRoot()
    ensures ParseURL("http://localhost:3000/") == Ok(URLParts("http", "localhost", Some("3000"), None))
  {
    LocalHost();
    Port3000();
    RootPathOk();
    LocalRootText();
    ParseURLComponents("http", "localhost", Some("3000"), "/", None, None);
  }

  lemma LocalRootText()
    ensures UrlText("http", "localhost", Some("3000"), "/", None, None) == "http://localhost:3000/"
  {
  }

  /** All four parts. */
  lemma ParseLocalTestAuth()
    ensures ParseURL("http://localhost:3000/test/auth")
         == Ok(URLParts("http", "localhost", Some("3000"), Some("test.auth")))
  {
    LocalHost();
    Port3000();
    TestAuthPath();
    LocalTestAuthText();
    ParseURLComponents("http", "localhost", Some("3000"), "/test/auth", None, None);
  }

  lemma LocalTestAuthText()
    ensures UrlText("http", "localhost", Some("3000"), "/test/auth", None, None)
         == "http://localhost:3000/test/auth"
  {
  }

  /** The query is not part of the resources. */
  lemma ParseIgnoresQuery()
    ensures ParseURL("http://localhost:3000/test/auth?key=value")
         == Ok(URLParts("http", "localhost", Some("3000"), Some("test.auth")))
  {
    LocalHost();
    Port3000();
    TestAuthPath();
    KeyValue();
    LocalQueryText();
    ParseURLComponents("http", "localhost", Some("3000"), "/test/auth", Some("key=value"), None);
  }

  lemma KeyValue()
    ensures '#' !in "key=value" && NoSpaceOrControl("key=value")
  {
  }

  lemma LocalQueryText()
    ensures UrlText("http", "localhost", Some("3000"), "/test/auth", Some("key=value"), None)
         == "http://localhost:3000/test/auth?key=value"
  {
    LocalTestAuthText();
    TextWithQuery("http", "localhost", Some("3000"), "/test/auth", "key=value");
    KeyValueLiteral();
  }

  lemma KeyValueLiteral()
    ensures "http://localhost:3000/test/auth" + ['?'] + "key=value" == "http://localhost:3000/test/auth?key=value"
  {
  }

  /** A query after a URL without one: the URL, `?` and the query. */
  lemma TextWithQuery(scheme: string, hostText: string, portText: Option<string>, path: string, q: string)
    ensures UrlText(scheme, hostText, portText, path, Some(q), None)
         == UrlText(scheme, hostText, portText, path, None, None) + ['?'] + q
  {
  }

  /** The fragment is not part of the resources. */
  lemma ParseIgnoresFragment()
    ensures ParseURL("http://localhost:3000/test/auth#section")
         == Ok(URLParts("http", "localhost", Some("3000"), Some("test.auth")))
  {
    LocalHost();
    Port3000();
    TestAuthPath();
    Section();
    LocalFragmentText();
    ParseURLComponents("http", "localhost", Some("3000"), "/test/auth", None, Some("section"));
  }

  lemma Section()
    ensures NoSpaceOrControl("section")
  {
  }

  lemma LocalFragmentText()
    ensures UrlText("http", "localhost", Some("3000"), "/test/auth", None, Some("section"))
         == "http://localhost:3000/test/auth#section"
  {
  }

  /** Query and fragment together are both stripped. */
  lemma ParseStripsQueryAndFragment()
    ensures ParseURL("https://example.com/test/auth?x=1#frag")
         == Ok(URLParts("https", "example.com", None, Some("test.auth")))
  {
    ExampleHost();
    TestAuthPath();
    QueryAndFragmentChars();
    QueryAndFragmentText();
    ParseURLComponents("https", "example.com", None, "/test/auth", Some("x=1"), Some("frag"));
  }

  lemma QueryAndFragmentChars()
    ensures '#' !in "x=1" && NoSpaceOrControl("x=1") && NoSpaceOrControl("frag")
  {
  }

  lemma QueryAndFragmentText()
    ensures UrlText("https", "example.com", None, "/test/auth", Some("x=1"), Some("frag"))
         == "https://example.com/test/auth?x=1#frag"
  {
  }

  /** No port: prefix, host and resources. */
  lemma ParseSecureTestAuth()
    ensures ParseURL("https://example.com/test/auth")
         == Ok(URLParts("https", "example.com", None, Some("test.auth")))
  {
    ExampleHost();
    TestAuthPath();
    SecureTestAuthText();
    ParseURLComponents("https", "example.com", None, "/test/auth", None, None);
  }

  lemma SecureTestAuthText()
    ensures UrlText("https", "example.com", None, "/test/auth", None, None) == "https://example.com/test/auth"
  {
  }

  /** No path at all: only prefix and host. */
  lemma ParseWithoutPath()
    ensures ParseURL("https://www.example.com") == Ok(URLParts("https", "www.example.com", None, None))
  {
    WwwHost();
    WithoutPathText();
    ParseURLComponents("https", "www.example.com", None, "", None, None);
  }

  lemma WithoutPathText()
    ensures UrlText("https", "www.example.com", None, "", None, None) == "https://www.example.com"
  {
  }

  /** Port 8080 is not the default port of http, so it is kept. */
  lemma ParseUnusualPath()
    ensures ParseURL("http://localhost:8080/a/b/c") == Ok(URLParts("http", "localhost", Some("8080"), Some("a.b.c")))
  {
    LocalHost();
    Port8080();
    ABCPath();
    UnusualPathText();
    ParseURLComponents("http", "localhost", Some("8080"), "/a/b/c", None, None);
  }

  lemma UnusualPathText()
    ensures UrlText("http", "localhost", Some("8080"), "/a/b/c", None, None) == "http://localhost:8080/a/b/c"
  {
  }

  /** The root path of a host without a port. */
  lemma ParseExampleRoot()
    ensures ParseURL("http://example.com/") == Ok(URLParts("http", "example.com", None, None))
  {
    ExampleHost();
    RootPathOk();
    ExampleRootText();
    ParseURLComponents("http", "example.com", None, "/", None, None);
  }

  lemma ExampleRootText()
    ensures UrlText("http", "example.com", None, "/", None, None) == "http://example.com/"
  {
  }

  /** One segment gives resources without a dot. */
  lemma ParseOneSegment()
    ensures ParseURL("http://example.com/test") == Ok(URLParts("http", "example.com", None, Some("test")))
  {
    ExampleHost();
    TestPath();
    OneSegmentText();
    ParseURLComponents("http", "example.com", None, "/test", None, None);
  }

  lemma OneSegmentText()
    ensures UrlText("http", "example.com", None, "/test", None, None) == "http://example.com/test"
  {
  }

  /** Characters other than `/` are kept in the resources as they are. */
  lemma ParseSpecialCharacter()
    ensures ParseURL("http://example.com/test/auth@") == Ok(URLParts("http", "example.com", None, Some("test.auth@")))
  {
    ExampleHost();
    AtPath();
    SpecialCharacterText();
    ParseURLComponents("http", "example.com", None, "/test/auth@", None, None);
  }

  lemma AtPath()
    ensures PathOk("/test/auth@")
    ensures ReplaceAll("/test/auth@"[1..], '/', '.') == "test.auth@"
  {
    PathOkPlain("/test/auth@");
    AtSegments();
    DotsForSlashes("test", "auth@");
    ReplaceAllAbsent("auth@", '/', '.');
  }

  lemma AtSegments()
    ensures "/test/auth@"[1..] == "test" + ['/'] + "auth@"
    ensures "test" + ['.'] + "auth@" == "test.auth@"
    ensures '/' !in "test" && '/' !in "auth@"
  {
  }

  lemma SpecialCharacterText()
    ensures UrlText("http", "example.com", None, "/test/auth@", None, None) == "http://example.com/test/auth@"
  {
  }

  /** Without a protocol the guard refuses the URL. */
  lemma ParseWithoutProtocol()
    ensures ParseURL("localhost:3000/test/auth") == Err("Invalid URL: localhost:3000/test/auth")
  {
    WithoutProtocolGuard();
    WithoutProtocolMessage();
  }

  lemma WithoutProtocolGuard()
    ensures !HasHttpPrefix("localhost:3000/test/auth")
  {
    assert "localhost:3000/test/auth"[..7][0] == 'l';
    assert "localhost:3000/test/auth"[..8][0] == 'l';
  }

  lemma WithoutProtocolMessage()
    ensures InvalidUrl("localhost:3000/test/auth") == "Invalid URL: localhost:3000/test/auth"
  {
  }

  /** A single slash after the scheme fails the guard too, although the URL
      standard itself would read it as a host. */
  lemma ParseSingleSlash()
    ensures ParseURL("http:/invalid-url") == Err("Invalid URL: http:/invalid-url")
  {
    SingleSlashGuard();
    SingleSlashMessage();
  }

  lemma SingleSlashGuard()
    ensures !HasHttpPrefix("http:/invalid-url")
  {
    assert "http:/invalid-url"[..7][6] == 'i';
    assert "http:/invalid-url"[..8][4] == ':';
  }

  lemma SingleSlashMessage()
    ensures InvalidUrl("http:/invalid-url") == "Invalid URL: http:/invalid-url"
  {
  }

  // ---------------------------------------------------------------------------
  // constructURLWithQueryParams

  /** On a base URL without port, query or fragment the result is the base, `?`
      and the appended pairs. */
  lemma QueryParamsOnPlainBase(baseUrl: string, scheme: string, host: string, path: string, parts: URLParts)
    requires Parse(baseUrl) == Some(Url(scheme, host, None, path, None, None))
    ensures QueryParamsURL(baseUrl, parts)
         == Ok(JoinHierarchical(scheme, host, path) + "?" + Form.Serialize(AppendedPairs(parts)))
  {
    QueryParamsOnBareBase(baseUrl, parts);
    assert host + PortText(None) == host;
  }

  /** A base URL parses to its scheme, host and path. */
  lemma ParseBase(scheme: string, hostText: string, path: string)
    requires scheme == "http" || scheme == "https"
    requires ParseHost(hostText).Some?
    requires PathOk(path)
    ensures Parse(UrlText(scheme, hostText, None, path, None, None))
         == Some(Url(scheme, Lower(hostText), None, path, None, None))
  {
    RedirectNoSpaceOrControl(scheme, hostText, None, path, None, None);
    var u := RedirectParses(scheme, hostText, None, path, None, None);
  }

  lemma ApiPaths()
    ensures PathOk("/api/") && PathOk("/api")
  {
    PathOkPlain("/api/");
    PathOkPlain("/api");
  }

  lemma PlainWords()
    ensures Plain("http") && Plain("https") && Plain("localhost") && Plain("www.example.com")
    ensures Plain("example.com") && Plain("3000") && Plain("test.auth") && Plain("path.to.resource")
  {
  }

  /** All four parts after a base whose path ends in `/`. */
  lemma ConstructAllParts()
    ensures QueryParamsURL("http://example.com/api/", URLParts("http", "localhost", Some("3000"), Some("test.auth")))
         == Ok("http://example.com/api/?" + ("prefix=http" + "&host=localhost" + "&port=3000" + "&resources=test.auth"))
  {
    var parts := URLParts("http", "localhost", Some("3000"), Some("test.auth"));
    ApiSlashParses();
    QueryParamsOnPlainBase("http://example.com/api/", "http", "example.com", "/api/", parts);
    AllPartsQuery();
    ApiSlashText();
  }

  lemma ApiSlashParses()
    ensures Parse("http://example.com/api/") == Some(Url("http", "example.com", None, "/api/", None, None))
  {
    ExampleHost();
    ApiPaths();
    ApiSlashText();
    ParseBase("http", "example.com", "/api/");
  }

  lemma AllPartsQuery()
    ensures Form.Serialize(AppendedPairs(URLParts("http", "localhost", Some("3000"), Some("test.auth"))))
         == "prefix=http" + "&host=localhost" + "&port=3000" + "&resources=test.auth"
  {
    PlainWords();
    AppendedQueryText(URLParts("http", "localhost", Some("3000"), Some("test.auth")));
    AllPartsText();
  }

  lemma ApiSlashText()
    ensures UrlText("http", "example.com", None, "/api/", None, None) == "http://example.com/api/"
    ensures JoinHierarchical("http", "example.com", "/api/") + "?" == "http://example.com/api/?"
  {
  }

  lemma AllPartsText()
    ensures "prefix=" + "http" + "&host=" + "localhost" + ("&port=" + "3000") + ("&resources=" + "test.auth")
         == "prefix=http" + "&host=localhost" + "&port=3000" + "&resources=test.auth"
  {
    assert "prefix=" + "http" + "&host=" + "localhost" == "prefix=http" + "&host=localhost";
    assert "&port=" + "3000" == "&port=3000";
    assert "&resources=" + "test.auth" == "&resources=test.auth";
  }

  /** Without the optional parts only prefix and host are appended, right after
      a path that does not end in `/`. */
  lemma ConstructWithoutOptional()
    ensures QueryParamsURL("http://example.com/api", URLParts("https", "www.example.com", None, None))
         == Ok("http://example.com/api?" + ("prefix=https" + "&host=www.example.com"))
  {
    var parts := URLParts("https", "www.example.com", None, None);
    ApiParses();
    QueryParamsOnPlainBase("http://example.com/api", "http", "example.com", "/api", parts);
    PrefixHostQuery();
    ApiText();
  }

  lemma ApiParses()
    ensures Parse("http://example.com/api") == Some(Url("http", "example.com", None, "/api", None, None))
  {
    ExampleHost();
    ApiPaths();
    ApiText();
    ParseBase("http", "example.com", "/api");
  }

  lemma PrefixHostQuery()
    ensures Form.Serialize(AppendedPairs(URLParts("https", "www.example.com", None, None)))
         == "prefix=https" + "&host=www.example.com"
  {
    PlainWords();
    AppendedQueryText(URLParts("https", "www.example.com", None, None));
    PrefixHostText();
  }

  lemma ApiText()
    ensures UrlText("http", "example.com", None, "/api", None, None) == "http://example.com/api"
    ensures JoinHierarchical("http", "example.com", "/api") + "?" == "http://example.com/api?"
  {
  }

  lemma PrefixHostText()
    ensures "prefix=" + "https" + "&host=" + "www.example.com" + "" + "" == "prefix=https" + "&host=www.example.com"
  {
  }

  /** A base URL without a scheme is refused with its own text in the message. */
  lemma ConstructInvalidBase()
    ensures QueryParamsURL("invalid-url", URLParts("https", "www.example.com", None, None))
         == Err("Invalid base URL: invalid-url")
  {
    NoColon();
    NoSchemeRefused("invalid-url");
  }

  lemma NoColon()
    ensures ':' !in "invalid-url"
    ensures InvalidBaseUrl("invalid-url") == "Invalid base URL: invalid-url"
  {
  }
}
