# Redirect-URL codec of lt-auth-api, in Dafny

The client library builds login and register links that carry a redirect URL.
`parseURL` (src/utils/url.ts) takes the redirect URL apart into `URLParts`:
- `prefix`: the scheme;
- `host`: the hostname;
- `port`: only when the URL names a port;
- `resources`: the path without its first `/`, with every `/` turned into `.`; left out for the root path.

`constructURLWithQueryParams` appends these parts to a base URL's query parameters and serializes the result.
`hasQueryParameter` tests whether the parsed URL has a query parameter of a given name.
`generateURL`, `generateLoginURL` and `generateRegisterURL` (src/urlService.ts) parse, then construct, on a fixed login or register base URL.

The URL parser the source gets from its runtime (`new URL`, the basic URL parser of section 4.4 of the WHATWG URL Standard) is replaced by an explicit splitter (`BasicUrl`):
- It reads `scheme "://" host [":" port] [path] ["?" query] ["#" fragment]` for the `http` and `https` schemes.
- It does what the standard does on that shape:
  - ASCII lower-casing of scheme and host;
  - port digits, with failure above 65535, the scheme's default port dropped, and leading zeros dropped;
  - an empty path read as `/`;
  - percent-encoding of the query and fragment with the standard's query and fragment percent-encode sets.
- It answers `None` for every input outside that shape.

The query is a sequence of name-value pairs read and written by the application/x-www-form-urlencoded parser and serializer (section 5 of the WHATWG URL Standard), over UTF-8 (`Utf8`, `FormUrlencoded`).

Modules:
- `Results`: Option and Result.
- `Strings`: one-character split, replace and remove, the string methods the source uses.
- `Digits`: decimal ports.
- `Utf8`.
- `FormUrlencoded`.
- `BasicUrl`: the splitter, the interpreter and the serializer.
- `UrlUtils`: src/utils/url.ts.
- `UrlService`: src/urlService.ts, with the base URL of the test and development environments.
- `UrlCases`: the inputs of the unit tests of src/utils/url.ts, and what the model says about them.
- `RedirectCases`: the same for the unit tests of src/urlService.ts and the end-to-end tests.

Errors are `Result` values carrying the source's exact messages: `"Invalid URL: " + url` and `"Invalid base URL: " + baseUrl`.

`urlObject.port` is empty when the URL names its scheme's default port, so `http://h:80/` gives no port; `UrlUtils.ParseURLComponents` states it.

## Model

| member | source | states |
|---|---|---|
| UrlUtils.ParseURL | src/utils/url.ts:9-25 | a URL not starting with `http://` or `https://` fails with exactly `"Invalid URL: " + url`; every failure carries that message; the result is Ok exactly when the prefix is there and the URL parses |
| UrlUtils.PartsOf | src/utils/url.ts:15-21 | the object built from a parsed URL: the scheme as prefix (when it has no `:`), the host, a port exactly when the URL has one and then its decimal digits, resources exactly when the path is longer than `/` and then the path after its first `/` with `/` turned into `.`; never an empty port or resources; `ParseURLComponents` reads these off every URL of the accepted shape |
| UrlUtils.ParseURLComponents | src/utils/url.ts:14-21 | for `scheme://host[:port][path][?q][#f]`: prefix is the scheme, host the lower-cased host, port absent without digits, present exactly when the digits name a non-default port and then written without leading zeros; resources absent for the empty or root path, otherwise the path after its first `/` with `/` replaced by `.` |
| UrlUtils.ParseURLCanonicalPort | src/utils/url.ts:17 | digits without leading zeros that name a non-default port come back unchanged as the port |
| UrlUtils.ParseURLNoEmptyFields | src/utils/url.ts:17-21 | a parsed URL never has an empty port or empty resources, and has resources only when its path is not `/` |
| UrlUtils.ParseURLPrefix | src/utils/url.ts:10-15 | the prefix is `https` exactly when the URL starts with `https://`, and `http` otherwise |
| UrlUtils.SchemeOfHttpPrefix | src/utils/url.ts:10-15 | a URL that passes the guard and splits has scheme `https` or `http` according to its first letters |
| UrlUtils.PrefixOfScheme | src/utils/url.ts:15 | removing the colon from `protocol` gives back the scheme |
| UrlUtils.ParseURLIgnoresQueryAndFragment | src/utils/url.ts:18-19 | adding a query or a fragment changes neither whether parseURL succeeds nor what it returns |
| UrlUtils.HasHttpPrefixIgnoresTail | src/utils/url.ts:10 | the guard does not look past the authority |
| UrlUtils.RedirectParses | src/utils/url.ts:14 | a URL of the accepted shape parses, to its scheme, lower-cased host, port, path (`/` for an empty one) and encoded query and fragment |
| UrlUtils.RedirectNoSpaceOrControl | src/utils/url.ts:14 | such a URL holds no space or control character when its query and fragment hold none |
| UrlUtils.ResourcesNotEmpty | src/utils/url.ts:18-21 | a path other than `/` gives non-empty resources |
| UrlUtils.QueryParamsURL | src/utils/url.ts:28-48 | the result fails exactly when the base URL does not parse, with `"Invalid base URL: " + baseUrl` |
| UrlUtils.SearchParams | src/utils/url.ts:53 | `url.searchParams`: no pairs for a missing or empty query, one pair for a non-empty query without `&`; `QueryParamsURLRoundTrip` and `HasQueryParameterAfterConstruct` state what it reads from a constructed URL |
| UrlUtils.WithSearchParams | src/utils/url.ts:33-44 | the URL after its `searchParams` are changed: scheme, host, port, path and fragment unchanged, no query exactly when there are no pairs, and otherwise the serialized pairs as query; `WithSearchParamsRoundTrip` proves the pairs read back exactly |
| UrlUtils.AppendedPairs | src/utils/url.ts:33-42 | two, three or four pairs, one more for each truthy optional part, starting with `prefix` and `host` carrying those parts; `AppendedNames` gives the names in full |
| UrlUtils.AppendURLParts | src/utils/url.ts:33-42 | the appends leave the given pairs, then prefix, host, and port and resources when truthy |
| UrlUtils.ConstructURLWithQueryParams | src/utils/url.ts:28-48 | the method returns the URL of its specification function, or its error |
| UrlUtils.AppendedNames | src/utils/url.ts:33-42 | the appended pairs are named prefix and host always, and port and resources exactly when those parts are truthy |
| UrlUtils.AppendedQueryText | src/utils/url.ts:33-44 | for plain parts the appended query reads `prefix=…&host=…`, then `&port=…` and `&resources=…` when truthy |
| UrlUtils.QueryParamsURLText | src/utils/url.ts:44 | the result is the base up to its query, `?`, the base's own pairs then the appended ones serialized, then the base's fragment; the path, trailing slash included, is kept |
| UrlUtils.QueryParamsURLRoundTrip | src/utils/url.ts:30-44 | the result parses again, to the base's scheme, host, port, path and fragment, with the base's pairs followed by the appended ones as its query parameters |
| UrlUtils.WithSearchParamsRoundTrip | src/utils/url.ts:44 | a parsed URL whose pairs are replaced serializes to a URL that reads back with exactly those pairs |
| UrlUtils.HasQueryParameter | src/utils/url.ts:50-57 | fails with `"Invalid URL: " + url` exactly when the URL does not parse; otherwise true exactly when some query pair has that name |
| UrlUtils.HasQueryParameterAfterConstruct | src/utils/url.ts:33-53 | on a constructed URL the names found are the base's own, prefix and host, and port and resources exactly when truthy |
| UrlUtils.HasConcat | src/utils/url.ts:53 | a name is among two lists of pairs exactly when it is among one of them |
| UrlService.GenerateURL | src/urlService.ts:12-15 | a redirect URL that parseURL refuses gives its error whatever the base; otherwise an unparseable base gives the base URL error; Ok exactly when both parse |
| UrlService.GenerateLoginURL | src/urlService.ts:4-6 | fails exactly when parseURL does, with its message; otherwise the login URL, `?` and the redirect URL's parts |
| UrlService.GenerateRegisterURL | src/urlService.ts:8-10 | fails exactly when parseURL does, with its message; otherwise the register URL, `?` and the redirect URL's parts |
| UrlService.GenerateLocalURL | src/urlService.ts:12-15 | on a base of localhost port 8080 with an accepted path: the base with its path (`/` when empty), `?` and the parts, or the redirect URL's error |
| UrlService.LocalUrlParses | src/constants.ts:3-11 | the login and register bases parse to localhost, port 8080 and their path, without query or fragment |
| UrlService.LocalLinkNames | src/urlService.ts:12-15 | a generated link has the parameters prefix and host, and port and resources exactly when parseURL returned them |
| UrlService.LoginLinkNames | src/urlService.ts:4-6 | the same for the login link |
| UrlService.RegisterLinkNames | src/urlService.ts:8-10 | the same for the register link |
| UrlService.AllFourNames | src/__tests__/e2e/session.e2e.test.ts:103-121 | a redirect URL with a port and a path gives login and register links with all four parameter names |
| BasicUrl.ParseSerialize | src/utils/url.ts:44 | a parsed URL serializes to text that parses back to it |
| BasicUrl.Parse | src/utils/url.ts:14 | `new URL(s)`: succeeds only on text without space or control characters that splits into pieces, and what it produces is well formed; `ParseSerialize` proves serializing gives text that parses back to it |
| BasicUrl.Serialize | src/utils/url.ts:44 | `url.toString()`: scheme, `://`, host, `:` and port when there is one, path, then `?` and the query and `#` and the fragment when present; `ParseSerialize` is its inverse on well-formed URLs |
| BasicUrl.SplitThenJoin | src/utils/url.ts:14 | splitting a URL and joining the pieces gives it back |
| BasicUrl.JoinThenSplit | src/utils/url.ts:44 | joining pieces without their delimiters and splitting gives them back |
| BasicUrl.InterpretUnparse | src/utils/url.ts:44 | reading the pieces of a well-formed URL gives it back |
| BasicUrl.SplitWithQueryAndFragment | src/utils/url.ts:18-19 | the query and fragment split off without changing scheme, authority or path |
| BasicUrl.NoSchemeRefused | src/utils/url.ts:30 | a text without `:` does not parse |
| BasicUrl.ParseHost | src/utils/url.ts:16 | an accepted host is non-empty, made of host characters, and lower-cased |
| BasicUrl.ParseHostIdempotent | src/utils/url.ts:16 | reading a host again changes nothing |
| BasicUrl.ParseHostLetters | src/utils/url.ts:16 | lower-case letters and dots are a host as they stand |
| BasicUrl.ParsePort | src/utils/url.ts:17 | a port that is kept is at most 65535 and not the scheme's default |
| BasicUrl.PortTextParses | src/utils/url.ts:17 | the serialized port reads back as the same port |
| BasicUrl.Lower | src/utils/url.ts:16 | lower-casing keeps the length and lower-cases each character |
| BasicUrl.LowerUnchanged | src/utils/url.ts:16 | text without upper-case letters is its own lower case |
| BasicUrl.PathOkPlain | src/utils/url.ts:18-19 | a path of lower-case letters, digits, `@` and slashes is accepted |
| BasicUrl.QueryEncode | src/utils/url.ts:14 | the encoded query is in the accepted form, and query text already in it is unchanged |
| BasicUrl.FragmentEncode | src/utils/url.ts:14 | the same for the fragment |
| BasicUrl.SerializeNoSpaceOrControl | src/utils/url.ts:44 | a serialized URL holds no space or control character |
| FormUrlencoded.Serialize | src/utils/url.ts:44 | the serialized query holds only serializer characters, and is non-empty for a non-empty list |
| FormUrlencoded.Parse | src/utils/url.ts:53 | the query as `searchParams` reads it: no pairs for an empty query and one pair for a non-empty query without `&`; `ParseSerialize` proves it undoes `Serialize` on every list of pairs |
| FormUrlencoded.ParseSerialize | src/utils/url.ts:44 | parsing the serialized pairs gives back the pairs |
| FormUrlencoded.DecodeEncode | src/utils/url.ts:33-42 | decoding an encoded name or value gives it back |
| FormUrlencoded.EncodeUnreserved | src/utils/url.ts:33-42 | ASCII alphanumerics and `*-._` are written as they are |
| FormUrlencoded.SerializeAppend | src/utils/url.ts:33-42 | appending a pair appends `&` and that pair to the serialized query |
| FormUrlencoded.SerializePlainPair | src/utils/url.ts:33-42 | a plain pair serializes to `name=value` |
| FormUrlencoded.Has | src/utils/url.ts:53 | true exactly when some pair has the name |
| Utf8.DecodeEncode | src/utils/url.ts:33-42 | UTF-8 decoding of an encoded string gives it back |
| Utf8.EncodeChar | src/utils/url.ts:33-42 | one to four bytes per character, a single byte exactly for ASCII, equal to the code point |
| Utf8.DecodeAscii | src/utils/url.ts:50-53 | ASCII bytes decode one character each |
| Digits.FromNat | src/utils/url.ts:17 | the port is written as decimal digits without leading zeros, and reads back as the same number |
| Digits.FromNatValueOf | src/utils/url.ts:17 | digits without leading zeros are the shortest notation of their value |
| Strings.ReplaceAll | src/utils/url.ts:19 | the result has the same length, with each `from` replaced and everything else kept |
| Strings.ReplaceAllConcat | src/utils/url.ts:19 | replacing commutes with concatenation |
| Strings.ReplaceAllAbsent | src/utils/url.ts:19 | text without `from` is unchanged |
| Strings.RemoveFirst | src/utils/url.ts:15 | nothing is removed when there is no `c`; otherwise the result is the text with the `c` at the first position holding one removed, and is one shorter |
| Strings.RemoveFirstAt | src/utils/url.ts:15 | removing the first `c` from `a + c + b` leaves `a + b` |
| Strings.SplitFirst | src/utils/url.ts:14 | the part before the first `c` holds no `c`, and the parts join back to the input |
| Strings.SplitAll | src/utils/url.ts:19 | the pieces hold no `c`, and text without `c` is one piece |
| Strings.SplitAllKeeps | src/utils/url.ts:19 | a property of every element carries over to every piece |
| UrlCases.ParseLocalRoot | src/__tests__/unit/utils/url.test.ts:5-13 | `http://localhost:3000/` gives prefix, host and port, no resources |
| UrlCases.ParseLocalTestAuth | src/__tests__/unit/utils/url.test.ts:15-24 | `http://localhost:3000/test/auth` gives all four parts, resources `test.auth` |
| UrlCases.ParseSecureTestAuth | src/__tests__/unit/utils/url.test.ts:26-34 | without a port there is no port part |
| UrlCases.ParseWithoutPath | src/__tests__/unit/utils/url.test.ts:36-43 | `https://www.example.com` gives only prefix and host |
| UrlCases.ParseUnusualPath | src/__tests__/unit/utils/url.test.ts:54-63 | port 8080 is kept and `/a/b/c` gives `a.b.c` |
| UrlCases.ParseWithoutProtocol | src/__tests__/unit/utils/url.test.ts:65-68 | `localhost:3000/test/auth` fails with its own text in the message |
| UrlCases.ParseSingleSlash | src/__tests__/unit/utils/url.test.ts:70-73 | `http:/invalid-url` fails the guard |
| UrlCases.ParseIgnoresQuery | src/__tests__/unit/utils/url.test.ts:75-84 | the query is not part of the resources |
| UrlCases.ParseIgnoresFragment | src/__tests__/unit/utils/url.test.ts:85-94 | the fragment is not part of the resources |
| UrlCases.ParseStripsQueryAndFragment | src/utils/url.ts:18-19 | a query and a fragment together are both stripped |
| UrlCases.ParseExampleRoot | src/__tests__/unit/utils/url.test.ts:95-102 | the root path gives no resources |
| UrlCases.ParseOneSegment | src/__tests__/unit/utils/url.test.ts:103-111 | one segment gives resources without a dot |
| UrlCases.ParseSpecialCharacter | src/__tests__/unit/utils/url.test.ts:112-120 | characters other than `/` are kept: `test.auth@` |
| UrlCases.ConstructAllParts | src/__tests__/unit/utils/url.test.ts:125-135 | all four parts after a base path ending in `/`, the slash kept |
| UrlCases.ConstructWithoutOptional | src/__tests__/unit/utils/url.test.ts:137-145 | only prefix and host, right after a path without a trailing slash |
| UrlCases.ConstructInvalidBase | src/__tests__/unit/utils/url.test.ts:147-154 | `invalid-url` as base fails with `Invalid base URL: invalid-url` |
| UrlCases.QueryParamsOnPlainBase | src/utils/url.ts:44 | on a base without port, query or fragment the result is the base, `?` and the appended pairs |
| UrlCases.DotsForSlashes | src/utils/url.ts:19 | two segments joined by `/` come out joined by `.` |
| RedirectCases.ParseResourceURL | src/__tests__/unit/urlService.test.ts:7-13 | `http://example.com:3000/path/to/resource` gives all four parts, resources `path.to.resource` |
| RedirectCases.ParseSecureResourceURL | src/__tests__/unit/urlService.test.ts:15-21 | without a port, no port part |
| RedirectCases.ParseSecureRootURL | src/__tests__/unit/urlService.test.ts:23-27 | the root path, no resources part |
| RedirectCases.ParseNotAURL | src/__tests__/unit/urlService.test.ts:29-32 | `invalid-url` fails with `Invalid URL: invalid-url` |
| RedirectCases.GenerateResourceURL | src/__tests__/unit/urlService.test.ts:7-13 | the base link is `http://localhost:8080/?prefix=http&host=example.com&port=3000&resources=path.to.resource` |
| RedirectCases.GenerateSecureResourceURL | src/__tests__/unit/urlService.test.ts:15-21 | the base link omits `port=` |
| RedirectCases.GenerateSecureRootURL | src/__tests__/unit/urlService.test.ts:23-27 | the base link has only prefix and host |
| RedirectCases.GenerateNotAURL | src/__tests__/unit/urlService.test.ts:29-32 | the parse error comes out before the base is used |
| RedirectCases.LoginResourceURL | src/__tests__/unit/urlService.test.ts:36-42 | the login link is the login URL, `?` and all four parameters |
| RedirectCases.LoginSecureResourceURL | src/__tests__/unit/urlService.test.ts:44-50 | the login link without port |
| RedirectCases.LoginSecureRootURL | src/__tests__/unit/urlService.test.ts:52-56 | the login link with only prefix and host |
| RedirectCases.LoginNotAURL | src/__tests__/unit/urlService.test.ts:58-61 | the login link fails with the parse error |
| RedirectCases.RegisterResourceURL | src/__tests__/unit/urlService.test.ts:65-71 | the register link with all four parameters |
| RedirectCases.RegisterSecureResourceURL | src/__tests__/unit/urlService.test.ts:73-79 | the register link without port |
| RedirectCases.RegisterSecureRootURL | src/__tests__/unit/urlService.test.ts:81-85 | the register link with only prefix and host |
| RedirectCases.RegisterNotAURL | src/__tests__/unit/urlService.test.ts:87-90 | the register link fails with the parse error |
| RedirectCases.ParseDashboardURL | src/__tests__/e2e/session.e2e.test.ts:103-105 | `http://localhost:3000/dashboard` gives all four parts |
| RedirectCases.DashboardLinksHaveAllNames | src/__tests__/e2e/session.e2e.test.ts:103-121 | its login and register links have all four parameter names |

## Left out

- The URL parser is a stand-in for the WHATWG basic URL parser. It returns `None`, which the model reports as an invalid URL, where the runtime parser might accept the input:
  - userinfo (`user@host`);
  - IPv6 hosts, and hosts ending in a number other than a dotted-quad IPv4 address written as the IPv4 serializer writes it;
  - IDNA, and `xn--` labels;
  - host characters outside ASCII letters, digits, `-`, `.` and `_`;
  - dot segments, and path characters the standard would percent-encode;
  - any space or control character anywhere in the input (the standard strips or removes some of them);
  - more than two slashes after the scheme (`http:///example.com`), which the standard skips before the host, so the runtime parser reads host `example.com`; the model takes the empty text before the third `/` as the host and refuses it;
  - a backslash used as a slash (`http://example.com\a`), which the standard reads as `/` in special URLs, giving host `example.com` and path `/a`; the model keeps `\` in the authority or path and refuses the URL;
  - a missing `//` after the scheme;
  - schemes other than `http` and `https`.
  The guard of parseURL already refuses the last two before the parser is reached.
- UrlUtils.ConstructURLWithQueryParams: the method appends to the pair list first and sets the URL's query once, whereas the source re-serializes the query after every `append`. Each update overwrites the previous one, so the returned string is the same.
- JavaScript strings may hold lone surrogates, Dafny strings here cannot, so the UTF-8 encoder's handling of them is not modelled.
- src/constants.ts picks the base URL from `NODE_ENV`. The model fixes it to `http://localhost:8080`, the value of the test and development environments, and leaves out the production host and `SESSIONS_URL`.
- src/api.ts and src/sessionService.ts only make HTTP calls and re-wrap their errors; network I/O is not modelled.
- Exceptions are modelled as `Result.Err` values carrying the message; which JavaScript error class is thrown is not modelled.
