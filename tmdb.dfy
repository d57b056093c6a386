/** The movie database client: which URL a request goes to, the endpoint
    strings of the movie API, the discover parameters, and the outcome of a
    request. The request itself is a parameter (`respond`), not performed. */
module Tmdb {
  import opened Common
  import opened Text
  import opened UriEncoding

  const DefaultBaseUrl: string := "https://api.themoviedb.org/3"
  const ProxyPrefix: string := "/api/tmdb"

  /** `s.split(sep)`: the pieces between the separators. */
  function Split(s: string, sep: char): (parts: seq<string>)
    ensures |parts| >= 1
    ensures forall i | 0 <= i < |parts| :: sep !in parts[i]
    ensures Join(parts, [sep]) == s
    decreases |s|
  {
    var (head, rest) := SplitOnce(s, sep);
    if rest.None? then [head]
    else
      var tail := Split(rest.value, sep);
      assert Join([head] + tail, [sep]) == head + [sep] + Join(tail, [sep]) by {
        assert ([head] + tail)[1..] == tail;
      }
      [head] + tail
  }

  /** On the server: `(process.env.BASE_URL || DefaultBaseUrl) + endpoint`. */
  function ServerUrl(baseUrl: Option<string>, endpoint: string): string
  {
    (if baseUrl.Some? && baseUrl.value != "" then baseUrl.value else DefaultBaseUrl) + endpoint
  }

  /** In the browser: `const [path, queryString] = endpoint.split("?")`, then
      the proxy prefix, the path, and "?" with the query string when that is
      non-empty. */
  function ClientUrl(endpoint: string): string
  {
    var parts := Split(endpoint, '?');
    var queryString := if |parts| > 1 then parts[1] else "";
    ProxyPrefix + parts[0] + (if queryString != "" then "?" + queryString else "")
  }

  /** An unset or empty `BASE_URL` sends the request to the public API; any
      other base is used as given. */
  lemma ServerUrlBase(baseUrl: Option<string>, endpoint: string)
    ensures baseUrl.None? || baseUrl.value == "" ==> ServerUrl(baseUrl, endpoint) == "https://api.themoviedb.org/3" + endpoint
    ensures baseUrl.Some? && baseUrl.value != "" ==> ServerUrl(baseUrl, endpoint) == baseUrl.value + endpoint
  {
  }

  lemma SplitTwo(p: string, q: string)
    requires '?' !in p && '?' !in q
    ensures Split(p + "?" + q, '?') == [p, q]
  {
    SplitOnceAt(p, '?', q);
    SplitOnceWhole(q, '?');
  }

  /** Without "?" the endpoint is only a path and is forwarded as it is. */
  lemma ClientUrlOfPath(p: string)
    requires '?' !in p
    ensures ClientUrl(p) == ProxyPrefix + p
  {
    SplitOnceWhole(p, '?');
  }

  /** With one "?", the client URL is the proxy prefix followed by the whole
      endpoint, except that an empty query string loses its "?". */
  lemma ClientUrlOfQuery(p: string, q: string)
    requires '?' !in p && '?' !in q
    ensures q != "" ==> ClientUrl(p + "?" + q) == ProxyPrefix + p + "?" + q
    ensures q == "" ==> ClientUrl(p + "?" + q) == ProxyPrefix + p
  {
    SplitTwo(p, q);
  }

  /** A second "?" and everything after it are dropped. */
  lemma ClientUrlDropsAfterSecondMark(p: string, q: string, r: string)
    requires '?' !in p && '?' !in q && q != ""
    ensures ClientUrl(p + "?" + q + "?" + r) == ProxyPrefix + p + "?" + q
  {
    var e := p + "?" + q + "?" + r;
    assert e == p + ['?'] + (q + ['?'] + r);
    SplitOnceAt(p, '?', q + "?" + r);
    SplitOnceAt(q, '?', r);
    assert Split(q + "?" + r, '?') == [q] + Split(r, '?');
    assert Split(e, '?') == [p] + ([q] + Split(r, '?'));
  }

  /** `${page}` for a page that may be left out, defaulting to 1. */
  function PageText(page: Option<Number>): string
  {
    if page.Some? then NumberToString(page.value) else "1"
  }

  /** `getTrending(timeWindow = "day", page = 1)`: the defaults apply only to
      arguments that are left out. */
  function TrendingEndpoint(timeWindow: Option<string>, page: Option<Number>): string
  {
    var tw := if timeWindow.Some? then timeWindow.value else "day";
    "/trending/movie/" + tw + "?language=en-US&page=" + PageText(page)
  }

  lemma TrendingDefaults()
    ensures TrendingEndpoint(None, None) == "/trending/movie/day?language=en-US&page=1"
    ensures forall tw, n ::
      TrendingEndpoint(Some(tw), Some(Int(n))) == "/trending/movie/" + tw + "?language=en-US&page=" + IntToString(n)
  {
  }

  const PopularEndpoint: string := "/movie/popular?language=en-US&page=1"
  const UpcomingEndpoint: string := "/movie/upcoming?language=en-US&page=1"
  const TopRatedEndpoint: string := "/movie/top_rated?language=en-US&page=1"
  const GenresEndpoint: string := "/genre/movie/list?language=en"

  function MovieDetailsEndpoint(id: Number): string
  {
    "/movie/" + NumberToString(id) + "?language=en-US"
  }

  function MovieCreditsEndpoint(id: Number): string
  {
    "/movie/" + NumberToString(id) + "/credits?language=en-US"
  }

  function SimilarMoviesEndpoint(id: Number): string
  {
    "/movie/" + NumberToString(id) + "/similar?language=en-US&page=1"
  }

  /** The parameters of a movie search, in the order the endpoint writes
      them. */
  function SearchPairs(query: string, page: Option<Number>): seq<(string, string)>
  {
    [("language", "en-US"), ("query", query), ("page", PageText(page)), ("include_adult", "false")]
  }

  /** `searchMoviesWithPage(query, page = 1)`: the query goes through
      `encodeURIComponent`. */
  function SearchEndpoint(query: string, page: Option<Number>): string
  {
    "/search/movie?language=en-US&query=" + EncodeUriComponent(query) +
    "&page=" + PageText(page) + "&include_adult=false"
  }

  /** A page number is left as it is by either encoding. */
  lemma PageTextUnreserved(es: EncodeSet, page: Option<Number>)
    ensures forall i | 0 <= i < |PageText(page)| :: Unreserved(es, PageText(page)[i])
  {
  }

  lemma SerializeCons(es: EncodeSet, p: (string, string), rest: seq<(string, string)>)
    requires rest != []
    ensures Serialize(es, [p] + rest) == SerializePair(es, p) + "&" + Serialize(es, rest)
  {
    assert ([p] + rest)[1..] == rest;
  }

  /** The fixed names and values of the search endpoint are left as they are
      by either encoding. */
  lemma LanguageUnchanged(es: EncodeSet)
    ensures Encode(es, "language") == "language"
  {
    EncodeUnreserved(es, "language");
  }

  lemma EnUsUnchanged(es: EncodeSet)
    ensures Encode(es, "en-US") == "en-US"
  {
    EncodeUnreserved(es, "en-US");
  }

  lemma QueryUnchanged(es: EncodeSet)
    ensures Encode(es, "query") == "query"
  {
    EncodeUnreserved(es, "query");
  }

  lemma PageUnchanged(es: EncodeSet)
    ensures Encode(es, "page") == "page"
  {
    EncodeUnreserved(es, "page");
  }

  lemma IncludeAdultUnchanged(es: EncodeSet)
    ensures Encode(es, "include_adult") == "include_adult"
  {
    EncodeUnreserved(es, "include_adult");
  }

  lemma FalseUnchanged(es: EncodeSet)
    ensures Encode(es, "false") == "false"
  {
    EncodeUnreserved(es, "false");
  }

  lemma LiteralPairs()
    ensures "language" + "=" + "en-US" == "language=en-US"
    ensures "include_adult" + "=" + "false" == "include_adult=false"
  {
  }

  lemma LanguagePair(es: EncodeSet)
    ensures SerializePair(es, ("language", "en-US")) == "language=en-US"
  {
    var n, v := "language", "en-US";
    LanguageUnchanged(es);
    EnUsUnchanged(es);
    assert SerializePair(es, (n, v)) == Encode(es, n) + "=" + Encode(es, v);
    LiteralPairs();
  }

  lemma IncludeAdultPair(es: EncodeSet)
    ensures SerializePair(es, ("include_adult", "false")) == "include_adult=false"
  {
    var n, v := "include_adult", "false";
    IncludeAdultUnchanged(es);
    FalseUnchanged(es);
    assert SerializePair(es, (n, v)) == Encode(es, n) + "=" + Encode(es, v);
    LiteralPairs();
  }

  lemma PagePair(es: EncodeSet, page: Option<Number>)
    ensures SerializePair(es, ("page", PageText(page))) == "page=" + PageText(page)
  {
    PageUnchanged(es);
    PageTextUnreserved(es, page);
    EncodeUnreserved(es, PageText(page));
  }

  lemma QueryPair(es: EncodeSet, query: string)
    ensures SerializePair(es, ("query", query)) == "query=" + Encode(es, query)
  {
    QueryUnchanged(es);
  }

  lemma SearchTemplate(enc: string, pt: string)
    ensures "/search/movie?language=en-US&query=" + enc + "&page=" + pt + "&include_adult=false"
         == "/search/movie" + "?" + ("language=en-US" + "&" + ("query=" + enc + "&" + ("page=" + pt + "&" + "include_adult=false")))
  {
    SearchLiterals();
    var p, l, q, g, i := "/search/movie", "language=en-US", "query=", "page=", "include_adult=false";
    Regroup(p, l, q, enc, g, pt, i);
  }

  lemma SearchLiterals()
    ensures "/search/movie" + "?" + "language=en-US" + "&" + "query=" == "/search/movie?language=en-US&query="
    ensures "&" + "page=" == "&page="
    ensures "&" + "include_adult=false" == "&include_adult=false"
  {
  }

  lemma Regroup(p: string, l: string, q: string, enc: string, g: string, pt: string, i: string)
    ensures (p + "?" + l + "&" + q) + enc + ("&" + g) + pt + ("&" + i)
         == p + "?" + (l + "&" + (q + enc + "&" + (g + pt + "&" + i)))
  {
  }

  lemma SerializeFour(es: EncodeSet, a: (string, string), b: (string, string), c: (string, string), d: (string, string))
    ensures Serialize(es, [a, b, c, d]) ==
      SerializePair(es, a) + "&" + (SerializePair(es, b) + "&" + (SerializePair(es, c) + "&" + SerializePair(es, d)))
  {
    assert [a, b, c, d][1..] == [b, c, d];
    assert [b, c, d][1..] == [c, d];
    assert [c, d][1..] == [d];
    assert Serialize(es, [d]) == SerializePair(es, d);
    assert Serialize(es, [c, d]) == SerializePair(es, c) + "&" + SerializePair(es, d);
    assert Serialize(es, [b, c, d]) == SerializePair(es, b) + "&" + Serialize(es, [c, d]);
  }

  /** Serializing at least one pair gives a non-empty string. */
  lemma SerializeNonEmpty(es: EncodeSet, pairs: seq<(string, string)>)
    requires pairs != []
    ensures Serialize(es, pairs) != ""
  {
    SerializedPairIsSafe(es, pairs[0]);
    if |pairs| > 1 {
      assert |Serialize(es, pairs)| >= |SerializePair(es, pairs[0])|;
    }
  }

  /** The search endpoint is its parameters serialized with the
      encodeURIComponent set. */
  lemma SearchEndpointSerializes(query: string, page: Option<Number>)
    ensures SearchEndpoint(query, page) == "/search/movie" + "?" + Serialize(ComponentSet, SearchPairs(query, page))
  {
    var es := ComponentSet;
    var sp := SearchPairs(query, page);
    LanguagePair(es);
    QueryPair(es, query);
    PagePair(es, page);
    IncludeAdultPair(es);
    SerializeFour(es, sp[0], sp[1], sp[2], sp[3]);
    SearchTemplate(EncodeUriComponent(query), PageText(page));
  }

  lemma PathsHaveNoMark()
    ensures '?' !in "/search/movie" && '?' !in "/discover/movie"
  {
  }

  /** An endpoint made of a path, "?" and a non-empty query string, neither
      containing "?", is forwarded whole. */
  lemma ClientUrlForwardsWhole(e: string, path: string, q: string)
    requires e == path + "?" + q && '?' !in path && '?' !in q && q != ""
    ensures ClientUrl(e) == ProxyPrefix + e
  {
    ClientUrlOfQuery(path, q);
  }

  /** A path without "?" followed by serialized parameters is forwarded
      whole. */
  lemma SerializationForwarded(es: EncodeSet, path: string, pairs: seq<(string, string)>)
    requires '?' !in path && pairs != []
    ensures ClientUrl(path + "?" + Serialize(es, pairs)) == ProxyPrefix + (path + "?" + Serialize(es, pairs))
  {
    SerializeHasNo(es, pairs, '?');
    SerializeNonEmpty(es, pairs);
    ClientUrlForwardsWhole(path + "?" + Serialize(es, pairs), path, Serialize(es, pairs));
  }

  /** Whatever the user typed, the proxy forwards the whole search endpoint:
      the encoding leaves no "?" that could cut it. */
  lemma SearchForwarded(query: string, page: Option<Number>)
    ensures ClientUrl(SearchEndpoint(query, page)) == ProxyPrefix + SearchEndpoint(query, page)
  {
    SearchEndpointSerializes(query, page);
    PathsHaveNoMark();
    SerializationForwarded(ComponentSet, "/search/movie", SearchPairs(query, page));
  }

  /** The API reads back exactly the query that was typed: the encoding
      leaves no "&" or "=" that could split it. */
  lemma SearchQueryArrives(query: string, page: Option<Number>)
    ensures FormParse(Serialize(ComponentSet, SearchPairs(query, page))) == Some(SearchPairs(query, page))
    ensures Get(SearchPairs(query, page), "query") == Some(query)
  {
    FormParseSerialize(ComponentSet, SearchPairs(query, page));
  }

  /** `DiscoverParams`: every field may be left out. */
  datatype DiscoverParams = DiscoverParams(
    year: Option<string>, genreId: Option<string>, sortBy: Option<string>, page: Option<Number>)

  /** The four parameters a discover request always sends, with the sort
      order and the page defaulting only when they are left out. */
  function FixedDiscoverPairs(params: DiscoverParams): seq<(string, string)>
  {
    var sortBy := if params.sortBy.Some? then params.sortBy.value else "popularity.desc";
    [("language", "en-US"), ("page", PageText(params.page)), ("include_adult", "false"), ("sort_by", sortBy)]
  }

  /** `if (year)` and `if (genreId)`: a parameter that is a non-empty string. */
  function OptionalPair(name: string, value: Option<string>): seq<(string, string)>
  {
    if value.Some? && value.value != "" then [(name, value.value)] else []
  }

  /** The discover parameters in insertion order: the fixed four, then the
      release year and the genre when they are non-empty. */
  function DiscoverPairs(params: DiscoverParams): seq<(string, string)>
  {
    FixedDiscoverPairs(params) + OptionalPair("primary_release_year", params.year)
    + OptionalPair("with_genres", params.genreId)
  }

  function DiscoverEndpoint(params: DiscoverParams): string
  {
    "/discover/movie?" + UrlSearchParams(DiscoverPairs(params))
  }

  /** `discoverMovies(params)`: the parameter record is filled in step by
      step, then serialized. */
  method DiscoverMovies(params: DiscoverParams) returns (endpoint: string)
    ensures endpoint == DiscoverEndpoint(params)
  {
    var sortBy := "popularity.desc";
    if params.sortBy.Some? {
      sortBy := params.sortBy.value;
    }
    var queryParams := [("language", "en-US"), ("page", PageText(params.page)), ("include_adult", "false"), ("sort_by", sortBy)];
    assert queryParams == FixedDiscoverPairs(params);
    if params.year.Some? && params.year.value != "" {
      queryParams := queryParams + [("primary_release_year", params.year.value)];
    }
    assert queryParams == FixedDiscoverPairs(params) + OptionalPair("primary_release_year", params.year);
    if params.genreId.Some? && params.genreId.value != "" {
      queryParams := queryParams + [("with_genres", params.genreId.value)];
    }
    assert queryParams == DiscoverPairs(params);
    endpoint := "/discover/movie?" + UrlSearchParams(queryParams);
  }

  /** `URLSearchParams.get(name)`: the value of the first pair with that
      name. */
  function Get(pairs: seq<(string, string)>, name: string): (r: Option<string>)
    ensures r.Some? ==> (name, r.value) in pairs
    ensures r.None? <==> forall p | p in pairs :: p.0 != name
  {
    if pairs == [] then None
    else if pairs[0].0 == name then Some(pairs[0].1)
    else Get(pairs[1..], name)
  }

  /** Pairs with other names in front do not change what `get` finds. */
  lemma {:induction false} GetSkips(a: seq<(string, string)>, b: seq<(string, string)>, name: string)
    requires forall i | 0 <= i < |a| :: a[i].0 != name
    ensures Get(a + b, name) == Get(b, name)
  {
    if a == [] {
      assert a + b == b;
    } else {
      assert (a + b)[0] == a[0];
      assert (a + b)[1..] == a[1..] + b;
      assert forall i | 0 <= i < |a[1..]| :: a[1..][i] == a[i + 1];
      GetSkips(a[1..], b, name);
    }
  }

  /** What the API sees of a discover request: the language, the page, adult
      content off and the sort order are always sent, the sort order and the
      page defaulting only when they are left out. */
  lemma DiscoverFixedParameters(params: DiscoverParams)
    ensures Get(DiscoverPairs(params), "language") == Some("en-US")
    ensures Get(DiscoverPairs(params), "page") == Some(if params.page.None? then "1" else NumberToString(params.page.value))
    ensures Get(DiscoverPairs(params), "include_adult") == Some("false")
    ensures Get(DiscoverPairs(params), "sort_by") == Some(if params.sortBy.None? then "popularity.desc" else params.sortBy.value)
  {
    var fixed := FixedDiscoverPairs(params);
    var optional := OptionalPair("primary_release_year", params.year) + OptionalPair("with_genres", params.genreId);
    assert DiscoverPairs(params) == fixed + optional;
    FixedPairAt(params, optional, 0);
    FixedPairAt(params, optional, 1);
    FixedPairAt(params, optional, 2);
    FixedPairAt(params, optional, 3);
  }

  /** Each fixed discover parameter is found at its own position. */
  lemma FixedPairAt(params: DiscoverParams, optional: seq<(string, string)>, i: nat)
    requires i < 4
    ensures var fixed := FixedDiscoverPairs(params);
      Get(fixed + optional, fixed[i].0) == Some(fixed[i].1)
  {
    var fixed := FixedDiscoverPairs(params);
    assert |fixed[0].0| == 8 && |fixed[1].0| == 4 && |fixed[2].0| == 13 && |fixed[3].0| == 7;
    GetAt(fixed, optional, fixed[i].0, i);
  }

  /** `get` finds the first pair with the name, wherever it stands. */
  lemma GetAt(a: seq<(string, string)>, b: seq<(string, string)>, name: string, i: nat)
    requires i < |a| && a[i].0 == name
    requires forall j | 0 <= j < i :: |a[j].0| != |name|
    ensures Get(a + b, name) == Some(a[i].1)
  {
    assert a + b == a[..i] + (a[i..] + b);
    GetSkips(a[..i], a[i..] + b, name);
    assert (a[i..] + b)[0] == a[i];
  }

  /** The release year and the genre are sent exactly when they are
      non-empty. */
  lemma DiscoverOptionalParameters(params: DiscoverParams)
    ensures Get(DiscoverPairs(params), "primary_release_year") ==
      if params.year.None? || params.year.value == "" then None else params.year
    ensures Get(DiscoverPairs(params), "with_genres") ==
      if params.genreId.None? || params.genreId.value == "" then None else params.genreId
  {
    var fixed := FixedDiscoverPairs(params);
    var year := OptionalPair("primary_release_year", params.year);
    var genre := OptionalPair("with_genres", params.genreId);
    assert DiscoverPairs(params) == fixed + (year + genre);
    GetSkips(fixed, year + genre, "primary_release_year");
    assert DiscoverPairs(params) == (fixed + year) + genre;
    GetSkips(fixed + year, genre, "with_genres");
  }

  /** The proxy forwards the whole discover endpoint. */
  lemma DiscoverForwarded(params: DiscoverParams)
    ensures ClientUrl(DiscoverEndpoint(params)) == ProxyPrefix + DiscoverEndpoint(params)
  {
    DiscoverPath(UrlSearchParams(DiscoverPairs(params)));
    PathsHaveNoMark();
    SerializationForwarded(FormSet, "/discover/movie", DiscoverPairs(params));
  }

  lemma DiscoverPath(q: string)
    ensures "/discover/movie?" + q == "/discover/movie" + "?" + q
  {
  }

  /** The API parses back exactly the parameters that were meant, whatever
      the year, genre or sort order contain. */
  lemma DiscoverParsed(params: DiscoverParams)
    ensures FormParse(UrlSearchParams(DiscoverPairs(params))) == Some(DiscoverPairs(params))
  {
    FormParseSerialize(FormSet, DiscoverPairs(params));
  }

  /** The part of a `fetch` response the client looks at; the body stands for
      the decoded JSON. */
  datatype Response<T> = Response(ok: bool, status: int, statusText: string, body: T)

  datatype Result<T> = Success(value: T) | Failure(message: string)

  /** Where a request for `endpoint` goes: straight to the API on the server,
      through the proxy in the browser. */
  function RequestUrl(isServer: bool, baseUrl: Option<string>, endpoint: string): string
  {
    if isServer then ServerUrl(baseUrl, endpoint) else ClientUrl(endpoint)
  }

  /** `fetchTMDB(endpoint)`, given what the network answers for each URL. */
  function FetchTmdb<T>(isServer: bool, baseUrl: Option<string>, endpoint: string,
                        respond: string -> Response<T>): (r: Result<T>)
    ensures var resp := respond(RequestUrl(isServer, baseUrl, endpoint));
      && (r.Success? <==> resp.ok)
      && (r.Success? ==> r.value == resp.body)
      && (r.Failure? && isServer ==>
            r.message == "TMDB API error: " + IntToString(resp.status) + " " + resp.statusText)
      && (r.Failure? && !isServer ==> r.message == "API proxy error: " + IntToString(resp.status))
  {
    var resp := respond(RequestUrl(isServer, baseUrl, endpoint));
    if !resp.ok then
      if isServer then Failure("TMDB API error: " + IntToString(resp.status) + " " + resp.statusText)
      else Failure("API proxy error: " + IntToString(resp.status))
    else Success(resp.body)
  }
}
