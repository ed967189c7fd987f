/** src/urlService.ts: login and register links that carry a redirect URL,
    taken apart by parseURL, as query parameters. */
module UrlService {
  import opened Results
  import opened Strings
  import opened Digits
  import Form = FormUrlencoded
  import opened BasicUrl
  import opened UrlUtils

  /** The authentication service of the test and development environments. */
  const BASE_URL: string := "http://localhost:8080"
  const LOGIN_URL: string := BASE_URL + "/auth/login/"
  const REGISTER_URL: string := BASE_URL + "/auth/register/"

  /** generateURL: parseURL on the redirect URL, then constructURLWithQueryParams on
      the base. A redirect URL that parseURL refuses gives its error whatever the
      base; otherwise an unparseable base gives the base URL error. */
  function GenerateURL(baseUrl: string, redirectURL: string): (r: Result<string>)
    ensures ParseURL(redirectURL).Err? ==> r == Err(InvalidUrl(redirectURL))
    ensures ParseURL(redirectURL).Ok? && Parse(baseUrl).None? ==> r == Err(InvalidBaseUrl(baseUrl))
    ensures r.Ok? <==> ParseURL(redirectURL).Ok? && Parse(baseUrl).Some?
  {
    match ParseURL(redirectURL)
    case Err(message) => Err(message)
    case Ok(urlParts) => QueryParamsURL(baseUrl, urlParts)
  }

  /** generateLoginURL: the login URL followed by `?` and the redirect URL's parts. */
  function GenerateLoginURL(redirectURL: string): (r: Result<string>)
    ensures r.Err? <==> ParseURL(redirectURL).Err?
    ensures r.Err? ==> r.message == InvalidUrl(redirectURL)
    ensures r.Ok? ==> r.value == LOGIN_URL + "?" + Form.Serialize(AppendedPairs(ParseURL(redirectURL).value))
  {
    AuthPathsOk();
    GenerateLocalURL("/auth/login/", redirectURL);
    GenerateURL(LOGIN_URL, redirectURL)
  }

  /** generateRegisterURL: the register URL followed by `?` and the redirect URL's parts. */
  function GenerateRegisterURL(redirectURL: string): (r: Result<string>)
    ensures r.Err? <==> ParseURL(redirectURL).Err?
    ensures r.Err? ==> r.message == InvalidUrl(redirectURL)
    ensures r.Ok? ==> r.value == REGISTER_URL + "?" + Form.Serialize(AppendedPairs(ParseURL(redirectURL).value))
  {
    AuthPathsOk();
    GenerateLocalURL("/auth/register/", redirectURL);
    GenerateURL(REGISTER_URL, redirectURL)
  }

  /** generateURL on a base URL of localhost port 8080: the base with its path,
      `?` and the parts of the redirect URL; or the redirect URL's error. */
  lemma GenerateLocalURL(path: string, redirectURL: string)
    requires path == "" || PathOk(path)
    ensures var r := GenerateURL(BASE_URL + path, redirectURL);
      && (r.Err? <==> ParseURL(redirectURL).Err?)
      && (r.Err? ==> r.message == InvalidUrl(redirectURL))
      && (r.Ok? ==> r.value == BASE_URL + (if path == "" then "/" else path) + "?"
                               + Form.Serialize(AppendedPairs(ParseURL(redirectURL).value)))
  {
    LocalUrlParses(path);
    if ParseURL(redirectURL).Ok? {
      LocalLink(path, ParseURL(redirectURL).value);
    }
  }

  /** constructURLWithQueryParams on a base URL of localhost port 8080. */
  lemma LocalLink(path: string, parts: URLParts)
    requires path == "" || PathOk(path)
    ensures QueryParamsURL(BASE_URL + path, parts)
         == Ok(BASE_URL + (if path == "" then "/" else path) + "?" + Form.Serialize(AppendedPairs(parts)))
  {
    LocalUrlParses(path);
    QueryParamsOnBareBase(BASE_URL + path, parts);
    LocalHierarchical(if path == "" then "/" else path);
  }

  /** A URL on port 8080 of localhost with an accepted path parses to exactly
      those parts. */
  lemma LocalUrlParses(path: string)
    requires path == "" || PathOk(path)
    ensures Parse(BASE_URL + path)
         == Some(Url("http", "localhost", Some(8080), if path == "" then "/" else path, None, None))
  {
    LocalHost();
    Port8080();
    RedirectNoSpaceOrControl("http", "localhost", Some("8080"), path, None, None);
    LocalUrlText(path);
    var u := RedirectParses("http", "localhost", Some("8080"), path, None, None);
  }

  lemma LocalHost()
    ensures ParseHost("localhost") == Some("localhost") && Lower("localhost") == "localhost"
  {
    ParseHostLetters("localhost");
    LowerUnchanged("localhost");
  }

  lemma Port8080()
    ensures ValueOf("8080") == 8080 && FromNat(ValueOf("8080")) == "8080"
    ensures ParsePort("http", Some("8080")) == Some(Some(8080)) && PortText(Some(8080)) == ":8080"
  {
    assert FromNat(8080) == "8080";
  }

  lemma LocalUrlText(path: string)
    ensures UrlText("http", "localhost", Some("8080"), path, None, None) == BASE_URL + path
  {
  }

  lemma AuthPathsOk()
    ensures PathOk("/auth/login/") && PathOk("/auth/register/")
  {
    PathOkPlain("/auth/login/");
    PathOkPlain("/auth/register/");
  }

  lemma LocalHierarchical(path: string)
    ensures JoinHierarchical("http", "localhost" + PortText(Some(8080)), path) == BASE_URL + path
  {
    Port8080();
  }

  /** hasQueryParameter on a link generated for localhost port 8080 finds prefix
      and host, and port and resources exactly when parseURL returned them. */
  lemma LocalLinkNames(path: string, redirectURL: string, name: string)
    requires path == "" || PathOk(path)
    requires ParseURL(redirectURL).Ok?
    ensures GenerateURL(BASE_URL + path, redirectURL).Ok?
    ensures HasQueryParameter(GenerateURL(BASE_URL + path, redirectURL).value, name)
         == Ok(name == "prefix" || name == "host"
               || (name == "port" && ParseURL(redirectURL).value.port.Some?)
               || (name == "resources" && ParseURL(redirectURL).value.resources.Some?))
  {
    LocalUrlParses(path);
    var parts := ParseURL(redirectURL).value;
    ParseURLNoEmptyFields(redirectURL);
    HasQueryParameterAfterConstruct(BASE_URL + path, parts, name);
    assert SearchParams(Parse(BASE_URL + path).value) == [];
    assert !Form.Has([], name);
  }

  /** The login link names the same parameters. */
  lemma LoginLinkNames(redirectURL: string, name: string)
    requires ParseURL(redirectURL).Ok?
    ensures GenerateLoginURL(redirectURL).Ok?
    ensures HasQueryParameter(GenerateLoginURL(redirectURL).value, name)
         == Ok(name == "prefix" || name == "host"
               || (name == "port" && ParseURL(redirectURL).value.port.Some?)
               || (name == "resources" && ParseURL(redirectURL).value.resources.Some?))
  {
    AuthPathsOk();
    LocalLinkNames("/auth/login/", redirectURL, name);
  }

  /** The register link names the same parameters. */
  lemma RegisterLinkNames(redirectURL: string, name: string)
    requires ParseURL(redirectURL).Ok?
    ensures GenerateRegisterURL(redirectURL).Ok?
    ensures HasQueryParameter(GenerateRegisterURL(redirectURL).value, name)
         == Ok(name == "prefix" || name == "host"
               || (name == "port" && ParseURL(redirectURL).value.port.Some?)
               || (name == "resources" && ParseURL(redirectURL).value.resources.Some?))
  {
    AuthPathsOk();
    LocalLinkNames("/auth/register/", redirectURL, name);
  }

  /** A redirect URL with a port and a path gives login and register links that
      carry all four parameter names. */
  lemma AllFourNames(redirectURL: string, name: string)
    requires ParseURL(redirectURL).Ok?
    requires ParseURL(redirectURL).value.port.Some? && ParseURL(redirectURL).value.resources.Some?
    requires name == "prefix" || name == "host" || name == "port" || name == "resources"
    ensures GenerateLoginURL(redirectURL).Ok? && HasQueryParameter(GenerateLoginURL(redirectURL).value, name) == Ok(true)
    ensures GenerateRegisterURL(redirectURL).Ok? && HasQueryParameter(GenerateRegisterURL(redirectURL).value, name) == Ok(true)
  {
    LoginLinkNames(redirectURL, name);
    RegisterLinkNames(redirectURL, name);
  }
}
