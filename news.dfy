/**
  The news provider client: its base URL, the endpoint `get_news` builds,
  the request `_request` sends, and what `_request` makes of the response.
  The API key, read from the settings in the original, is a parameter, and
  so is the HTTP exchange (`transport`), which the original performs with a
  scoped aiohttp session.
 */
module News {

  datatype Option<T> = None | Some(value: T)

  const DefaultCountry: string := "Russia"
  const StatusOk: int := 200

  /** What comes between the base URL and the country. */
  const SearchPath: string := "/everything?q="
  /** What comes between the country and the API key: newest first, three articles, then the key. */
  const SearchOptions: string := "&sortBy=publishedAt" + "&pageSize=3" + "&apiKey="

  function GetBaseUrl(): string {
    "https://newsapi.org/v2"
  }

  /** The endpoint `get_news` requests; `country` is inserted as it is, without escaping. */
  function NewsEndpoint(apiKey: string, country: string := DefaultCountry): string {
    GetBaseUrl() + SearchPath + country + SearchOptions + apiKey
  }

  datatype HttpRequest = HttpRequest(url: string, headers: map<string, string>)

  datatype HttpResponse<J> = HttpResponse(status: int, body: J)

  /** The headers `_request` sends: the key under `apikey`, and nothing else. */
  function RequestHeaders(apiKey: string): (headers: map<string, string>)
    ensures headers.Keys == {"apikey"} && headers["apikey"] == apiKey
  {
    map["apikey" := apiKey]
  }

  /** `_request`'s decision: the parsed body on 200 OK, and nothing for any other status. */
  function ResponseBody<J>(response: HttpResponse<J>): (r: Option<J>)
    ensures r.Some? <==> response.status == StatusOk
    ensures r.Some? ==> r.value == response.body
  {
    if response.status == StatusOk then Some(response.body) else None
  }

  /** `_request(endpoint)`: one GET of `endpoint` carrying the key in the `apikey` header. */
  function Request<J>(endpoint: string, apiKey: string, transport: HttpRequest -> HttpResponse<J>): (r: Option<J>)
    ensures var response := transport(HttpRequest(endpoint, map["apikey" := apiKey]));
            && (r.Some? <==> response.status == StatusOk)
            && (r.Some? ==> r.value == response.body)
  {
    ResponseBody(transport(HttpRequest(endpoint, RequestHeaders(apiKey))))
  }

  function GetNews<J>(apiKey: string, transport: HttpRequest -> HttpResponse<J>,
                      country: string := DefaultCountry): Option<J> {
    Request(NewsEndpoint(apiKey, country), apiKey, transport)
  }

  // ---------------------------------------------------------------------
  // Reading an endpoint back
  // ---------------------------------------------------------------------

  datatype NewsQuery = NewsQuery(country: string, apiKey: string)

  /** The first position of `c` in `s`, or `|s|` when there is none. */
  function IndexOf(s: string, c: char): (i: nat)
    ensures i <= |s|
    ensures i < |s| ==> s[i] == c
    ensures forall j :: 0 <= j < i ==> s[j] != c
  {
    if s == [] then 0 else if s[0] == c then 0 else 1 + IndexOf(s[1..], c)
  }

  /** What follows `p` in `s`, when `s` starts with `p`. */
  function StripPrefix(s: string, p: string): (r: Option<string>)
    ensures r.Some? ==> s == p + r.value
  {
    if |s| >= |p| && s[..|p|] == p then Some(s[|p|..]) else None
  }

  lemma StripPrefixAppend(p: string, rest: string)
    ensures StripPrefix(p + rest, p) == Some(rest)
  {
    assert (p + rest)[..|p|] == p;
    assert (p + rest)[|p|..] == rest;
  }

  /**
    Reads the country and the key out of a news endpoint: the country runs
    from after "q=" to the first '&'.
   */
  function ParseNewsEndpoint(url: string): Option<NewsQuery> {
    match StripPrefix(url, GetBaseUrl() + SearchPath)
    case None => None
    case Some(rest) =>
      var i := IndexOf(rest, '&');
      match StripPrefix(rest[i..], SearchOptions)
      case None => None
      case Some(key) => Some(NewsQuery(rest[..i], key))
  }

  lemma {:induction false} IndexOfAppend(a: string, b: string, c: char)
    requires c !in a && b != [] && b[0] == c
    ensures IndexOf(a + b, c) == |a|
    decreases |a|
  {
    if a != [] {
      assert (a + b)[1..] == a[1..] + b;
      IndexOfAppend(a[1..], b, c);
    }
  }

  // ---------------------------------------------------------------------
  // Properties
  // ---------------------------------------------------------------------

  lemma AppendOptions(query: string)
    ensures query + SearchOptions == query + "&sortBy=publishedAt" + "&pageSize=3" + "&apiKey="
  {
  }

  lemma QueryRussia()
    ensures SearchPath + "Russia" + SearchOptions
            == "/everything?q=Russia&sortBy=publishedAt&pageSize=3&apiKey="
  {
    AppendOptions(SearchPath + "Russia");
    assert SearchPath + "Russia" == "/everything?q=Russia";
    assert "/everything?q=Russia" + "&sortBy=publishedAt" == "/everything?q=Russia&sortBy=publishedAt";
    assert "/everything?q=Russia&sortBy=publishedAt" + "&pageSize=3"
           == "/everything?q=Russia&sortBy=publishedAt&pageSize=3";
  }

  lemma QueryTest()
    ensures SearchPath + "test" + SearchOptions
            == "/everything?q=test&sortBy=publishedAt&pageSize=3&apiKey="
  {
    AppendOptions(SearchPath + "test");
    assert SearchPath + "test" == "/everything?q=test";
    assert "/everything?q=test" + "&sortBy=publishedAt" == "/everything?q=test&sortBy=publishedAt";
    assert "/everything?q=test&sortBy=publishedAt" + "&pageSize=3"
           == "/everything?q=test&sortBy=publishedAt&pageSize=3";
  }

  /** The endpoints the client's tests expect, for the default country and for "test". */
  lemma EndpointExamples(apiKey: string)
    ensures GetBaseUrl() == "https://newsapi.org/v2"
    ensures NewsEndpoint(apiKey)
            == GetBaseUrl() + "/everything?q=Russia&sortBy=publishedAt&pageSize=3&apiKey=" + apiKey
    ensures NewsEndpoint(apiKey, "test")
            == GetBaseUrl() + "/everything?q=test&sortBy=publishedAt&pageSize=3&apiKey=" + apiKey
  {
    QueryRussia();
    QueryTest();
    assert NewsEndpoint(apiKey) == GetBaseUrl() + (SearchPath + "Russia" + SearchOptions) + apiKey;
    assert NewsEndpoint(apiKey, "test") == GetBaseUrl() + (SearchPath + "test" + SearchOptions) + apiKey;
  }

  /** The country stands verbatim right after "q=", and the key closes the URL after "apiKey=". */
  lemma EndpointLayout(apiKey: string, country: string)
    ensures var url, start := NewsEndpoint(apiKey, country), |GetBaseUrl() + SearchPath|;
            && |url| == start + |country| + |SearchOptions| + |apiKey|
            && url[..start] == "https://newsapi.org/v2/everything?q="
            && url[start..start + |country|] == country
            && url[|url| - |apiKey| - 7..] == "apiKey=" + apiKey
  {
    var url, start := NewsEndpoint(apiKey, country), |GetBaseUrl() + SearchPath|;
    assert url == (GetBaseUrl() + SearchPath) + country + (SearchOptions + apiKey);
    assert url[|url| - |apiKey| - 7..] == (SearchOptions + apiKey)[|SearchOptions| - 7..];
  }

  /** Without '&' in the country, the endpoint gives back exactly the country and the key. */
  lemma EndpointRoundTrip(apiKey: string, country: string)
    requires '&' !in country
    ensures ParseNewsEndpoint(NewsEndpoint(apiKey, country)) == Some(NewsQuery(country, apiKey))
  {
    var prefix, tail := GetBaseUrl() + SearchPath, SearchOptions + apiKey;
    var rest := country + tail;
    assert NewsEndpoint(apiKey, country) == prefix + rest;
    StripPrefixAppend(prefix, rest);
    IndexOfAppend(country, tail, '&');
    assert rest[..|country|] == country && rest[|country|..] == tail;
    StripPrefixAppend(SearchOptions, apiKey);
  }

  /**
    With a '&' in the country, the endpoint does not give back the country
    and the key: reading stops at the country's first '&'.
   */
  lemma EndpointAmpersandNoRoundTrip(apiKey: string, country: string)
    requires '&' in country
    ensures ParseNewsEndpoint(NewsEndpoint(apiKey, country)) != Some(NewsQuery(country, apiKey))
  {
    var prefix, rest := GetBaseUrl() + SearchPath, country + (SearchOptions + apiKey);
    assert NewsEndpoint(apiKey, country) == prefix + rest;
    StripPrefixAppend(prefix, rest);
    var k :| 0 <= k < |country| && country[k] == '&';
    assert rest[k] == '&';
    assert IndexOf(rest, '&') <= k;
  }

  /** The endpoint reads back as its country and key exactly when the country holds no '&'. */
  lemma EndpointRoundTripIff(apiKey: string, country: string)
    ensures ParseNewsEndpoint(NewsEndpoint(apiKey, country)) == Some(NewsQuery(country, apiKey))
            <==> '&' !in country
  {
    if '&' in country {
      EndpointAmpersandNoRoundTrip(apiKey, country);
    } else {
      EndpointRoundTrip(apiKey, country);
    }
  }

  /**
    Because the country is not escaped, a country that itself contains the
    query options gives the same endpoint as a different (country, key)
    pair, and reading that endpoint back yields the other pair.
   */
  lemma UnescapedCountryIsAmbiguous(country: string, injected: string, apiKey: string)
    requires '&' !in country
    ensures var spoofed := country + SearchOptions + injected;
            && NewsEndpoint(apiKey, spoofed) == NewsEndpoint(injected + SearchOptions + apiKey, country)
            && ParseNewsEndpoint(NewsEndpoint(apiKey, spoofed))
               == Some(NewsQuery(country, injected + SearchOptions + apiKey))
            && spoofed != country
  {
    SpoofedEndpoint(country, injected, apiKey);
    EndpointRoundTrip(injected + SearchOptions + apiKey, country);
  }

  lemma SpoofedEndpoint(country: string, injected: string, apiKey: string)
    ensures NewsEndpoint(apiKey, country + SearchOptions + injected)
            == NewsEndpoint(injected + SearchOptions + apiKey, country)
  {
    var prefix := GetBaseUrl() + SearchPath;
    var spoofed := country + SearchOptions + injected;
    assert NewsEndpoint(apiKey, spoofed) == prefix + spoofed + SearchOptions + apiKey;
    assert prefix + spoofed + SearchOptions + apiKey
           == prefix + country + SearchOptions + (injected + SearchOptions + apiKey);
  }

  /** The `apikey` header and the `apiKey=` query parameter carry the same key. */
  lemma HeaderKeyMatchesQueryKey(apiKey: string, country: string)
    ensures var request := HttpRequest(NewsEndpoint(apiKey, country), RequestHeaders(apiKey));
            && "apikey" in request.headers
            && var key := request.headers["apikey"];
               && |request.url| >= |key| + 7
               && request.url[|request.url| - |key| - 7..] == "apiKey=" + key
               && ('&' !in country ==> ParseNewsEndpoint(request.url) == Some(NewsQuery(country, key)))
  {
    EndpointLayout(apiKey, country);
    if '&' !in country {
      EndpointRoundTrip(apiKey, country);
    }
  }

  /**
    `get_news` sends one request for its endpoint with the key header, and
    returns the body exactly when that request is answered with 200 OK.
   */
  lemma GetNewsOutcome<J>(apiKey: string, transport: HttpRequest -> HttpResponse<J>, country: string)
    ensures var response := transport(HttpRequest(NewsEndpoint(apiKey, country), map["apikey" := apiKey]));
            && (GetNews(apiKey, transport, country).Some? <==> response.status == 200)
            && (response.status == 200 ==> GetNews(apiKey, transport, country) == Some(response.body))
  {
  }
}
