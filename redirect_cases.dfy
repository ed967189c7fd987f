/** The redirect URLs of the unit tests of src/urlService.ts, worked through the
    model: what parseURL returns for each, and the base, login and register links
    built from it. Expected links are written one query parameter at a time. */
module RedirectCases {
  import opened Results
  import opened Strings
  import opened Digits
  import Form = FormUrlencoded
  import opened BasicUrl
  import opened UrlUtils
  import opened UrlService
  import opened UrlCases

  const RESOURCE_URL: string := "http://example.com:3000/path/to/resource"
  const SECURE_RESOURCE_URL: string := "https://example.com/path/to/resource"
  const SECURE_ROOT_URL: string := "https://example.com/"
  const NOT_A_URL: string := "invalid-url"

  const RESOURCE_QUERY: string := "prefix=http" + "&host=example.com" + "&port=3000" + "&resources=path.to.resource"
  const SECURE_RESOURCE_QUERY: string := "prefix=https" + "&host=example.com" + "&resources=path.to.resource"
  const SECURE_ROOT_QUERY: string := "prefix=https" + "&host=example.com"

  // ---------------------------------------------------------------------------
  // parseURL

  /** Scheme, host, a port other than the default and a three-segment path give
      all four parts, the path's slashes turned into dots. */
  lemma ParseResourceURL()
    ensures ParseURL(RESOURCE_URL)
         == Ok(URLParts("http", "example.com", Some("3000"), Some("path.to.resource")))
  {
    ExampleHost();
    Port3000();
    ResourcePathOk();
    ResourcesOfPath();
    ResourceText();
    ParseURLComponents("http", "example.com", Some("3000"), "/path/to/resource", None, None);
  }

  lemma ResourceText()
    ensures UrlText("http", "example.com", Some("3000"), "/path/to/resource", None, None) == RESOURCE_URL
  {
  }

  /** Without a port there is no port part. */
  lemma ParseSecureResourceURL()
    ensures ParseURL(SECURE_RESOURCE_URL)
         == Ok(URLParts("https", "example.com", None, Some("path.to.resource")))
  {
    ExampleHost();
    ResourcePathOk();
    ResourcesOfPath();
    SecureResourceText();
    ParseURLComponents("https", "example.com", None, "/path/to/resource", None, None);
  }

  lemma SecureResourceText()
    ensures UrlText("https", "example.com", None, "/path/to/resource", None, None) == SECURE_RESOURCE_URL
  {
  }

  /** The root path gives no resources part. */
  lemma ParseSecureRootURL()
    ensures ParseURL(SECURE_ROOT_URL) == Ok(URLParts("https", "example.com", None, None))
  {
    ExampleHost();
    RootPathOk();
    SecureRootText();
    ParseURLComponents("https", "example.com", None, "/", None, None);
  }

  lemma SecureRootText()
    ensures UrlText("https", "example.com", None, "/", None, None) == SECURE_ROOT_URL
  {
  }

  /** A text without a scheme is refused with its own text in the message. */
  lemma ParseNotAURL()
    ensures ParseURL(NOT_A_URL) == Err("Invalid URL: invalid-url")
  {
    NotAURLHasNoScheme();
    NotAURLMessage();
  }

  lemma NotAURLHasNoScheme()
    ensures !HasHttpPrefix(NOT_A_URL)
  {
    assert NOT_A_URL[..7][0] == 'i';
    assert NOT_A_URL[..8][0] == 'i';
  }

  lemma NotAURLMessage()
    ensures InvalidUrl(NOT_A_URL) == "Invalid URL: invalid-url"
  {
  }

  lemma ResourcePathOk()
    ensures PathOk("/path/to/resource")
  {
    PathOkPlain("/path/to/resource");
  }

  lemma ResourcesOfPath()
    ensures ReplaceAll("/path/to/resource"[1..], '/', '.') == "path.to.resource"
  {
    var a: string, b: string, c: string := "path", "to", "resource";
    ResourceSegments();
    ReplaceAllConcat(a + ['/'] + b + ['/'], c, '/', '.');
    ReplaceAllConcat(a + ['/'] + b, ['/'], '/', '.');
    ReplaceAllConcat(a + ['/'], b, '/', '.');
    ReplaceAllConcat(a, ['/'], '/', '.');
    ReplaceAllAbsent(a, '/', '.');
    ReplaceAllAbsent(b, '/', '.');
    ReplaceAllAbsent(c, '/', '.');
    assert ReplaceAll(['/'], '/', '.') == ['.'];
  }

  lemma ResourceSegments()
    ensures "/path/to/resource"[1..] == "path" + ['/'] + "to" + ['/'] + "resource"
    ensures "path" + ['.'] + "to" + ['.'] + "resource" == "path.to.resource"
    ensures '/' !in "path" && '/' !in "to" && '/' !in "resource"
  {
    assert "/path/to/resource"[1..] == "path/to/resource";
  }

  // ---------------------------------------------------------------------------
  // The query parameters

  lemma ResourceQuery()
    ensures Form.Serialize(AppendedPairs(URLParts("http", "example.com", Some("3000"), Some("path.to.resource"))))
         == RESOURCE_QUERY
  {
    PlainWords();
    AppendedQueryText(URLParts("http", "example.com", Some("3000"), Some("path.to.resource")));
    ResourceQueryText();
  }

  lemma ResourceQueryText()
    ensures "prefix=" + "http" + "&host=" + "example.com" + ("&port=" + "3000") + ("&resources=" + "path.to.resource")
         == RESOURCE_QUERY
  {
    assert "prefix=" + "http" + "&host=" + "example.com" == "prefix=http" + "&host=example.com";
    assert "&port=" + "3000" == "&port=3000";
    assert "&resources=" + "path.to.resource" == "&resources=path.to.resource";
  }

  lemma SecureResourceQuery()
    ensures Form.Serialize(AppendedPairs(URLParts("https", "example.com", None, Some("path.to.resource"))))
         == SECURE_RESOURCE_QUERY
  {
    PlainWords();
    AppendedQueryText(URLParts("https", "example.com", None, Some("path.to.resource")));
    SecureResourceQueryText();
  }

  lemma SecureResourceQueryText()
    ensures "prefix=" + "https" + "&host=" + "example.com" + "" + ("&resources=" + "path.to.resource")
         == SECURE_RESOURCE_QUERY
  {
    assert "prefix=" + "https" + "&host=" + "example.com" + "" == "prefix=https" + "&host=example.com";
    assert "&resources=" + "path.to.resource" == "&resources=path.to.resource";
  }

  lemma SecureRootQuery()
    ensures Form.Serialize(AppendedPairs(URLParts("https", "example.com", None, None))) == SECURE_ROOT_QUERY
  {
    PlainWords();
    AppendedQueryText(URLParts("https", "example.com", None, None));
    SecureRootQueryText();
  }

  lemma SecureRootQueryText()
    ensures "prefix=" + "https" + "&host=" + "example.com" + "" + "" == SECURE_ROOT_QUERY
  {
  }

  // ---------------------------------------------------------------------------
  // generateURL on the base URL

  lemma RootOfBase()
    ensures BASE_URL + "" == BASE_URL && BASE_URL + "/" + "?" == BASE_URL + "/?"
  {
  }

  lemma GenerateResourceURL()
    ensures GenerateURL(BASE_URL, RESOURCE_URL) == Ok(BASE_URL + "/?" + RESOURCE_QUERY)
  {
    ParseResourceURL();
    ResourceQuery();
    RootOfBase();
    GenerateLocalURL("", RESOURCE_URL);
  }

  lemma GenerateSecureResourceURL()
    ensures GenerateURL(BASE_URL, SECURE_RESOURCE_URL) == Ok(BASE_URL + "/?" + SECURE_RESOURCE_QUERY)
  {
    ParseSecureResourceURL();
    SecureResourceQuery();
    RootOfBase();
    GenerateLocalURL("", SECURE_RESOURCE_URL);
  }

  lemma GenerateSecureRootURL()
    ensures GenerateURL(BASE_URL, SECURE_ROOT_URL) == Ok(BASE_URL + "/?" + SECURE_ROOT_QUERY)
  {
    ParseSecureRootURL();
    SecureRootQuery();
    RootOfBase();
    GenerateLocalURL("", SECURE_ROOT_URL);
  }

  lemma GenerateNotAURL()
    ensures GenerateURL(BASE_URL, NOT_A_URL) == Err("Invalid URL: invalid-url")
  {
    ParseNotAURL();
  }

  // ---------------------------------------------------------------------------
  // generateLoginURL and generateRegisterURL

  lemma LoginResourceURL()
    ensures GenerateLoginURL(RESOURCE_URL) == Ok(LOGIN_URL + "?" + RESOURCE_QUERY)
  {
    ParseResourceURL();
    ResourceQuery();
  }

  lemma LoginSecureResourceURL()
    ensures GenerateLoginURL(SECURE_RESOURCE_URL) == Ok(LOGIN_URL + "?" + SECURE_RESOURCE_QUERY)
  {
    ParseSecureResourceURL();
    SecureResourceQuery();
  }

  lemma LoginSecureRootURL()
    ensures GenerateLoginURL(SECURE_ROOT_URL) == Ok(LOGIN_URL + "?" + SECURE_ROOT_QUERY)
  {
    ParseSecureRootURL();
    SecureRootQuery();
  }

  lemma LoginNotAURL()
    ensures GenerateLoginURL(NOT_A_URL) == Err("Invalid URL: invalid-url")
  {
    ParseNotAURL();
  }

  lemma RegisterResourceURL()
    ensures GenerateRegisterURL(RESOURCE_URL) == Ok(REGISTER_URL + "?" + RESOURCE_QUERY)
  {
    ParseResourceURL();
    ResourceQuery();
  }

  lemma RegisterSecureResourceURL()
    ensures GenerateRegisterURL(SECURE_RESOURCE_URL) == Ok(REGISTER_URL + "?" + SECURE_RESOURCE_QUERY)
  {
    ParseSecureResourceURL();
    SecureResourceQuery();
  }

  lemma RegisterSecureRootURL()
    ensures GenerateRegisterURL(SECURE_ROOT_URL) == Ok(REGISTER_URL + "?" + SECURE_ROOT_QUERY)
  {
    ParseSecureRootURL();
    SecureRootQuery();
  }

  lemma RegisterNotAURL()
    ensures GenerateRegisterURL(NOT_A_URL) == Err("Invalid URL: invalid-url")
  {
    ParseNotAURL();
  }

  // ---------------------------------------------------------------------------
  // The redirect URL of the end-to-end tests

  const DASHBOARD_URL: string := "http://localhost:3000/dashboard"

  lemma ParseDashboardURL()
    ensures ParseURL(DASHBOARD_URL) == Ok(URLParts("http", "localhost", Some("3000"), Some("dashboard")))
  {
    LocalHost();
    Port3000();
    DashboardPath();
    DashboardText();
    ParseURLComponents("http", "localhost", Some("3000"), "/dashboard", None, None);
  }

  lemma DashboardPath()
    ensures PathOk("/dashboard")
    ensures ReplaceAll("/dashboard"[1..], '/', '.') == "dashboard"
  {
    PathOkPlain("/dashboard");
    assert "/dashboard"[1..] == "dashboard";
    ReplaceAllAbsent("dashboard", '/', '.');
  }

  lemma DashboardText()
    ensures UrlText("http", "localhost", Some("3000"), "/dashboard", None, None) == DASHBOARD_URL
  {
  }

  /** Its login and register links carry prefix, host, port and resources. */
  lemma DashboardLinksHaveAllNames(name: string)
    requires name == "prefix" || name == "host" || name == "port" || name == "resources"
    ensures GenerateLoginURL(DASHBOARD_URL).Ok? && HasQueryParameter(GenerateLoginURL(DASHBOARD_URL).value, name) == Ok(true)
    ensures GenerateRegisterURL(DASHBOARD_URL).Ok? && HasQueryParameter(GenerateRegisterURL(DASHBOARD_URL).value, name) == Ok(true)
  {
    ParseDashboardURL();
    AllFourNames(DASHBOARD_URL, name);
  }
}
