/** The request descriptions of the TV-show hooks: cache keys with their
    default substitutions, the conditions under which a request is made, and
    how long a result stays fresh. */
module TvQueries {
  import opened Common

  /** One element of a cache key: a string or a number. */
  datatype KeyPart = Text(s: string) | Num(n: int)

  /** A cache key: equal keys share one cache entry. */
  type QueryKey = seq<KeyPart>

  /** `TVShowsParams`: every field may be left out. */
  datatype TvShowsParams = TvShowsParams(
    year: Option<string>, genreId: Option<string>, sortBy: Option<string>, page: Option<Number>)

  /** `page || 1` on an optional number: missing, `NaN` and 0 are falsy. */
  function PageOr1(page: Option<Number>): (r: int)
    ensures r != 0
    ensures page.Some? && page.value.Int? && page.value.value != 0 ==> r == page.value.value
    ensures page.None? || page.value == NaN || page.value == Int(0) ==> r == 1
  {
    if page.Some? then page.value.OrElse(1) else 1
  }

  /** The prefix every TV-show key starts with. */
  const All: QueryKey := [Text("tvshows")]

  function TrendingKey(timeWindow: Option<string>, page: Option<Number>): QueryKey
  {
    All + [Text("trending"), Text(StringOrElse(timeWindow, "day")), Num(PageOr1(page))]
  }

  function PopularKey(): QueryKey { All + [Text("popular")] }

  function TopRatedKey(): QueryKey { All + [Text("top-rated")] }

  function DetailKey(id: int): QueryKey { All + [Text("detail"), Num(id)] }

  function CreditsKey(id: int): QueryKey { All + [Text("credits"), Num(id)] }

  function SimilarKey(id: int): QueryKey { All + [Text("similar"), Num(id)] }

  function SearchKey(query: string, page: Option<Number>): QueryKey
  {
    All + [Text("search"), Text(query), Num(PageOr1(page))]
  }

  function DiscoverKey(params: TvShowsParams): QueryKey
  {
    All + [Text("discover"),
           Text(StringOrElse(params.year, "all")),
           Text(StringOrElse(params.genreId, "all")),
           Text(StringOrElse(params.sortBy, "popularity.desc")),
           Num(PageOr1(params.page))]
  }

  function GenresKey(): QueryKey { All + [Text("genres")] }

  /** Every key a TV-show hook can use. */
  ghost predicate IsTvShowsKey(k: QueryKey)
  {
    (exists tw, p :: k == TrendingKey(tw, p)) || k == PopularKey() || k == TopRatedKey() ||
    (exists id :: k == DetailKey(id)) || (exists id :: k == CreditsKey(id)) ||
    (exists id :: k == SimilarKey(id)) || (exists q, p :: k == SearchKey(q, p)) ||
    (exists params :: k == DiscoverKey(params)) || k == GenresKey()
  }

  /** Every TV-show key starts with "tvshows", and its second element names
      the kind of request, so keys of two different kinds never collide. */
  lemma KeysAreNamespaced(k: QueryKey)
    requires IsTvShowsKey(k)
    ensures |k| >= 2 && k[..1] == All
    ensures k[1] in [Text("trending"), Text("popular"), Text("top-rated"), Text("detail"), Text("credits"),
                     Text("similar"), Text("search"), Text("discover"), Text("genres")]
  {
  }

  /** The normalised fields a discover key is made of. */
  function DiscoverFields(params: TvShowsParams): (string, string, string, int)
  {
    (StringOrElse(params.year, "all"), StringOrElse(params.genreId, "all"),
     StringOrElse(params.sortBy, "popularity.desc"), PageOr1(params.page))
  }

  /** Two discover requests share a cache entry exactly when their fields
      agree after the defaults are substituted. */
  lemma DiscoverKeyEquality(p: TvShowsParams, q: TvShowsParams)
    ensures DiscoverKey(p) == DiscoverKey(q) <==> DiscoverFields(p) == DiscoverFields(q)
  {
    if DiscoverKey(p) == DiscoverKey(q) {
      assert DiscoverKey(p)[2] == DiscoverKey(q)[2];
      assert DiscoverKey(p)[3] == DiscoverKey(q)[3];
      assert DiscoverKey(p)[4] == DiscoverKey(q)[4];
      assert DiscoverKey(p)[5] == DiscoverKey(q)[5];
    }
  }

  /** The defaults collide with their spelled-out values: no year, an empty
      year and the year "all" share one cache entry, and so do page 0, page
      `NaN` and page 1. */
  lemma DiscoverDefaultsCollide(genreId: Option<string>, sortBy: Option<string>)
    ensures DiscoverKey(TvShowsParams(None, genreId, sortBy, Some(Int(1))))
         == DiscoverKey(TvShowsParams(Some(""), genreId, sortBy, Some(NaN)))
    ensures DiscoverKey(TvShowsParams(Some(""), genreId, sortBy, Some(Int(0))))
         == DiscoverKey(TvShowsParams(Some("all"), genreId, sortBy, None))
    ensures DiscoverKey(TvShowsParams(Some("2020"), genreId, sortBy, None))
         != DiscoverKey(TvShowsParams(Some("2021"), genreId, sortBy, None))
  {
    DiscoverKeyEquality(TvShowsParams(Some("2020"), genreId, sortBy, None),
                        TvShowsParams(Some("2021"), genreId, sortBy, None));
  }

  /** The trending key defaults to the daily window and the first page. */
  lemma TrendingDefaults(timeWindow: Option<string>, page: Option<Number>)
    ensures TrendingKey(timeWindow, page) == TrendingKey(Some("day"), Some(Int(1)))
        <==> (timeWindow.None? || timeWindow.value in {"", "day"}) &&
             (page.None? || page.value in {NaN, Int(0), Int(1)})
  {
    var k := TrendingKey(timeWindow, page);
    if k == TrendingKey(Some("day"), Some(Int(1))) {
      assert k[2] == Text("day") && k[3] == Num(1);
    }
  }

  /** The search key keeps the query as given and defaults the page to 1. */
  lemma SearchKeyDefault(query: string, page: Option<Number>)
    ensures SearchKey(query, page)[3] == Num(1) <==> page.None? || page.value in {NaN, Int(0), Int(1)}
    ensures forall q :: SearchKey(query, page) == SearchKey(q, page) ==> q == query
  {
    forall q | SearchKey(query, page) == SearchKey(q, page) ensures q == query {
      assert SearchKey(query, page)[2] == SearchKey(q, page)[2];
    }
  }

  /** Freshness windows, in milliseconds. */
  const GenresStaleTime: nat := 1000 * 60 * 60 * 24
  const ListStaleTime: nat := 1000 * 60 * 5

  /** What a hook hands to the query library: its key, whether the request
      may run, and how long a result stays fresh (`None`: the library's
      default). */
  datatype QueryOptions = QueryOptions(key: QueryKey, enabled: bool, staleTime: Option<nat>)

  function UseTvGenres(): (o: QueryOptions)
    ensures o.enabled && o.staleTime == Some(86_400_000)
  {
    QueryOptions(GenresKey(), true, Some(GenresStaleTime))
  }

  /** `useSearchTVShows(query, page = 1)`. */
  function UseSearchTvShows(query: string, page: Option<Number>): (o: QueryOptions)
    ensures o.enabled <==> |query| >= 3
    ensures o.staleTime == Some(300_000)
    ensures o.key == SearchKey(query, Some(if page.Some? then page.value else Int(1)))
  {
    var p := if page.Some? then page.value else Int(1);
    QueryOptions(SearchKey(query, Some(p)), |query| > 2, Some(ListStaleTime))
  }

  function UseDiscoverTvShows(params: TvShowsParams): (o: QueryOptions)
    ensures o.enabled && o.staleTime == Some(300_000)
  {
    QueryOptions(DiscoverKey(params), true, Some(ListStaleTime))
  }

  /** `!!id`: an id of 0 or `NaN` is falsy. */
  predicate IdEnabled(id: Number)
  {
    id.Int? && id.value != 0
  }

  /** The key of an id that is `NaN` is written with the number 0 here: such a
      request never runs. */
  function IdOf(id: Number): int
  {
    if id.Int? then id.value else 0
  }

  function UseTvShowDetails(id: Number): (o: QueryOptions)
    ensures o.enabled <==> id != NaN && id != Int(0)
    ensures o.staleTime.None?
  {
    QueryOptions(DetailKey(IdOf(id)), IdEnabled(id), None)
  }

  function UseTvShowCredits(id: Number): (o: QueryOptions)
    ensures o.enabled <==> id != NaN && id != Int(0)
    ensures o.staleTime.None?
  {
    QueryOptions(CreditsKey(IdOf(id)), IdEnabled(id), None)
  }

  function UseSimilarTvShows(id: Number): (o: QueryOptions)
    ensures o.enabled <==> id != NaN && id != Int(0)
    ensures o.staleTime.None?
  {
    QueryOptions(SimilarKey(IdOf(id)), IdEnabled(id), None)
  }

  /** Requests that run for one show are keyed by that show: an enabled
      detail, credits or similar request for one id never shares its cache
      entry with another id's. */
  lemma IdKeysSeparate(a: Number, b: Number)
    requires IdEnabled(a) && IdEnabled(b) && a != b
    ensures UseTvShowDetails(a).key != UseTvShowDetails(b).key
    ensures UseTvShowCredits(a).key != UseTvShowCredits(b).key
    ensures UseSimilarTvShows(a).key != UseSimilarTvShows(b).key
    ensures UseTvShowDetails(a).key != UseTvShowCredits(b).key
  {
    assert UseTvShowDetails(a).key[2] != UseTvShowDetails(b).key[2];
    assert UseTvShowCredits(a).key[2] != UseTvShowCredits(b).key[2];
    assert UseSimilarTvShows(a).key[2] != UseSimilarTvShows(b).key[2];
    assert UseTvShowDetails(a).key[1] != UseTvShowCredits(b).key[1];
  }
}
