/** The server-side parsing of the four list pages ("/discover",
    "/tv-shows", "/trending", "/search"): the query becomes the screen's
    initial props, with defaults, a whitelisted time window, an unvalidated
    `parseInt` page and a redirect for an empty search. The prefetch itself
    is a request to the API; here only which request it is, and whether it
    succeeded, are modelled. */
module ServerProps {
  import opened Common
  import opened Text
  import opened Router
  import Tmdb
  import UriEncoding
  import TvQueries
  import FilterScreens
  import TrendingScreen
  import SearchScreen

  /** What `getServerSideProps` returns: props for the page, with a flag
      telling whether the dehydrated cache holds the prefetched result, or a
      redirect. */
  datatype ServerResult<P> = Props(props: P, prefetched: bool) | Redirect(destination: string, permanent: bool)

  /** `typeof query.page === "string" ? parseInt(query.page) : 1`. */
  function PageProp(q: Query): (page: Number)
    ensures StringParam(q, "page").None? ==> page == Int(1)
    ensures StringParam(q, "page").Some? ==> page == ParseInt(StringParam(q, "page").value)
  {
    var p := StringParam(q, "page");
    if p.Some? then ParseInt(p.value) else Int(1)
  }

  /** A string parameter, or `otherwise` when it is missing or not a
      string. */
  function StringOr(q: Query, name: string, otherwise: string): (r: string)
    ensures StringParam(q, name).Some? ==> r == StringParam(q, name).value
    ensures StringParam(q, name).None? ==> r == otherwise
  {
    var p := StringParam(q, name);
    if p.Some? then p.value else otherwise
  }

  /** The props of both filter pages. */
  datatype FilterProps = FilterProps(initialYear: string, initialGenreId: string, initialSortBy: string, initialPage: Number)

  /** Lines shared by "/discover" and "/tv-shows": year and genre default to
      "", the sort order to "popularity.desc", the page to 1. */
  function ParseFilterQuery(q: Query): FilterProps
  {
    FilterProps(StringOr(q, "year", ""), StringOr(q, "genre", ""), StringOr(q, "sort_by", "popularity.desc"), PageProp(q))
  }

  /** `getServerSideProps` of "/discover": the same props whether or not the
      prefetch succeeded. */
  function DiscoverPage(q: Query, prefetchSucceeded: bool): (r: ServerResult<FilterProps>)
    ensures r == Props(ParseFilterQuery(q), prefetchSucceeded)
  {
    var props := ParseFilterQuery(q);
    if prefetchSucceeded then Props(props, true) else Props(props, false)
  }

  /** The movie request "/discover" prefetches. */
  function DiscoverPrefetch(p: FilterProps): string
  {
    Tmdb.DiscoverEndpoint(Tmdb.DiscoverParams(Some(p.initialYear), Some(p.initialGenreId), Some(p.initialSortBy), Some(p.initialPage)))
  }

  /** `getServerSideProps` of "/tv-shows". */
  function TvShowsPage(q: Query, prefetchSucceeded: bool): (r: ServerResult<FilterProps>)
    ensures r == Props(ParseFilterQuery(q), prefetchSucceeded)
  {
    var props := ParseFilterQuery(q);
    if prefetchSucceeded then Props(props, true) else Props(props, false)
  }

  /** The cache key "/tv-shows" prefetches. */
  function TvShowsPrefetchKey(p: FilterProps): TvQueries.QueryKey
  {
    TvQueries.DiscoverKey(TvQueries.TvShowsParams(Some(p.initialYear), Some(p.initialGenreId), Some(p.initialSortBy), Some(p.initialPage)))
  }

  datatype TrendingProps = TrendingProps(initialTimeWindow: string, initialPage: Number)

  /** "/trending": the time window is "day" or "week" as given, otherwise
      "day". */
  function ParseTrendingQuery(q: Query): (p: TrendingProps)
    ensures TrendingScreen.IsTimeWindow(p.initialTimeWindow)
    ensures p.initialTimeWindow != "day" <==> StringParam(q, "time") == Some("week")
    ensures p.initialPage == PageProp(q)
  {
    var time := StringParam(q, "time");
    TrendingProps(if time.Some? && TrendingScreen.IsTimeWindow(time.value) then time.value else "day", PageProp(q))
  }

  function TrendingPage(q: Query, prefetchSucceeded: bool): (r: ServerResult<TrendingProps>)
    ensures r == Props(ParseTrendingQuery(q), prefetchSucceeded)
  {
    var props := ParseTrendingQuery(q);
    if prefetchSucceeded then Props(props, true) else Props(props, false)
  }

  /** The request "/trending" prefetches: `getTrending(timeWindow, page)`. */
  function TrendingPrefetch(p: TrendingProps): string
  {
    Tmdb.TrendingEndpoint(Some(p.initialTimeWindow), Some(p.initialPage))
  }

  datatype SearchProps = SearchProps(initialQuery: string, initialPage: Number)

  /** `getServerSideProps` of "/search": a missing, non-string or empty
      query redirects to "/" before anything is prefetched. */
  function SearchPage(q: Query, prefetchSucceeded: bool): (r: ServerResult<SearchProps>)
    ensures r.Redirect? <==> StringOr(q, "query", "") == ""
    ensures r.Redirect? ==> r.destination == "/" && !r.permanent
    ensures r.Props? ==> r.props == SearchProps(StringParam(q, "query").value, PageProp(q)) && r.prefetched == prefetchSucceeded
  {
    var searchQuery := StringOr(q, "query", "");
    var page := PageProp(q);
    if searchQuery == "" then Redirect("/", false)
    else
      var props := SearchProps(searchQuery, page);
      if prefetchSucceeded then Props(props, true) else Props(props, false)
  }

  /** The request "/search" prefetches: `searchMoviesWithPage(query, page)`. */
  function SearchPrefetch(p: SearchProps): string
  {
    Tmdb.SearchEndpoint(p.initialQuery, Some(p.initialPage))
  }

  /** The page is whatever `parseInt` reads, without a range check: any
      printed integer, 0 and negative ones included, is taken as it is, and
      a parameter without digits gives `NaN`. */
  lemma PageIsUnvalidated(q: Query, n: int)
    ensures StringParam(q, "page") == Some(IntToString(n)) ==> PageProp(q) == Int(n)
    ensures StringParam(q, "page").Some? && (forall i | 0 <= i < |StringParam(q, "page").value| :: !IsDigit(StringParam(q, "page").value[i]))
      ==> PageProp(q) == NaN
  {
    ParseIntOfIntToString(n);
    if StringParam(q, "page").Some? && (forall i | 0 <= i < |StringParam(q, "page").value| :: !IsDigit(StringParam(q, "page").value[i])) {
      ParseIntWithoutDigits(StringParam(q, "page").value);
    }
  }

  /** A navigation within the same route keeps the screen mounted: the
      server recomputes the page prop from the new URL, and the resync
      effect then takes the page the URL names, or the recomputed prop when
      the URL names none, whatever page the screen was on. */
  lemma ResyncFollowsNewProps(q: Query, currentPage: Number)
    ensures var prop := PageProp(q);
      ResyncPage(StringParam(q, "page"), currentPage, prop) == if prop == NaN then currentPage else prop
  {
  }

  /** The header's "/discover", "/tv-shows" and "/trending" links, and any
      other same-route URL without a page, bring every list screen back to
      page 1 once it has received the new props. */
  lemma SameRouteNavigation(q: Query, s: FilterScreens.FilterState, t: TrendingScreen.TrendingState, u: SearchScreen.SearchState)
    ensures StringParam(q, "page").None? ==>
      && FilterScreens.ResyncFilters(s, q, ParseFilterQuery(q).initialPage).currentPage == Int(1)
      && TrendingScreen.ResyncTrending(t, q, ParseTrendingQuery(q).initialPage).currentPage == Int(1)
      && SearchScreen.ResyncSearch(u, q, PageProp(q)).currentPage == Int(1)
    ensures PageProp(q) != NaN ==>
      && FilterScreens.ResyncFilters(s, q, ParseFilterQuery(q).initialPage).currentPage == PageProp(q)
      && TrendingScreen.ResyncTrending(t, q, ParseTrendingQuery(q).initialPage).currentPage == PageProp(q)
      && SearchScreen.ResyncSearch(u, q, PageProp(q)).currentPage == PageProp(q)
  {
    ResyncFollowsNewProps(q, s.currentPage);
    ResyncFollowsNewProps(q, t.currentPage);
    ResyncFollowsNewProps(q, u.currentPage);
  }

  /** The movie request "/discover" prefetches sends exactly the parsed
      props: the year and the genre when non-empty, the sort order and the
      page as parsed. */
  lemma DiscoverPrefetchUsesProps(q: Query)
    ensures var p := ParseFilterQuery(q);
      var pairs := Tmdb.DiscoverPairs(Tmdb.DiscoverParams(Some(p.initialYear), Some(p.initialGenreId), Some(p.initialSortBy), Some(p.initialPage)));
      && DiscoverPrefetch(p) == "/discover/movie?" + UriEncoding.UrlSearchParams(pairs)
      && Tmdb.Get(pairs, "primary_release_year") == (if p.initialYear == "" then None else Some(p.initialYear))
      && Tmdb.Get(pairs, "with_genres") == (if p.initialGenreId == "" then None else Some(p.initialGenreId))
      && Tmdb.Get(pairs, "sort_by") == Some(p.initialSortBy)
      && Tmdb.Get(pairs, "page") == Some(NumberToString(p.initialPage))
  {
    var p := ParseFilterQuery(q);
    var params := Tmdb.DiscoverParams(Some(p.initialYear), Some(p.initialGenreId), Some(p.initialSortBy), Some(p.initialPage));
    Tmdb.DiscoverFixedParameters(params);
    Tmdb.DiscoverOptionalParameters(params);
  }

  /** The TV-show screen built from the props asks for exactly the key the
      server prefetched, so the first render is served from the cache. */
  lemma TvShowsPrefetchMatchesScreen(q: Query)
    ensures var p := ParseFilterQuery(q);
      var s := FilterScreens.FilterState(p.initialYear, p.initialGenreId, p.initialSortBy, p.initialPage);
      TvQueries.UseDiscoverTvShows(TvQueries.TvShowsParams(Some(s.year), Some(s.genreId), Some(s.sortBy), Some(s.currentPage))).key
        == TvShowsPrefetchKey(p)
  {
  }

  /** Right after the page loads, the resync effect of a filter screen built
      from the props of a URL changes nothing: client and server read the
      URL alike. */
  lemma FilterPropsStable(q: Query)
    ensures var p := ParseFilterQuery(q);
      var s := FilterScreens.FilterState(p.initialYear, p.initialGenreId, p.initialSortBy, p.initialPage);
      FilterScreens.ResyncFilters(s, q, p.initialPage) == s
  {
  }

  /** The same for the trending screen. */
  lemma TrendingPropsStable(q: Query)
    ensures var p := ParseTrendingQuery(q);
      var s := TrendingScreen.TrendingState(p.initialTimeWindow, p.initialPage);
      TrendingScreen.ResyncTrending(s, q, p.initialPage) == s
  {
  }

  /** The same for the search screen. */
  lemma SearchPropsStable(q: Query, prefetchSucceeded: bool)
    requires SearchPage(q, prefetchSucceeded).Props?
    ensures var p := SearchPage(q, prefetchSucceeded).props;
      var s := SearchScreen.SearchState(p.initialQuery, p.initialPage);
      SearchScreen.ResyncSearch(s, q, p.initialPage) == s
  {
  }

  /** The request "/trending" prefetches is the one its screen makes first:
      the whitelisted window and the parsed page. */
  lemma TrendingPrefetchUsesProps(q: Query)
    ensures var p := ParseTrendingQuery(q);
      TrendingPrefetch(p) == "/trending/movie/" + p.initialTimeWindow + "?language=en-US&page=" + NumberToString(p.initialPage)
  {
  }
}
