# movora in Dafny

movora is a Next.js application for browsing movies and TV shows from The
Movie Database (TMDB). Its pages render on the server and prefetch the first
request. In the browser, each screen keeps a little state (filters, page,
time window, search query) that follows the router's query string. Requests
go to TMDB directly from the server and through an `/api/tmdb` proxy from the
browser.

This project models the parts of movora that decide what is requested,
cached and shown:

- the TMDB client (`tmdb.ts`): which URL a request goes to, the endpoint
  strings, the discover parameters, and what a failed response becomes;
- the TV-show query hooks (`useTVShows.ts`): cache keys, the defaults
  substituted into them, when a request is enabled, and how long it stays
  fresh;
- the server-side props of the discover, TV-shows, trending and search pages;
- the screens' state machines: the discover and TV-shows filter screens,
  the trending screen and the search screen. Each has a state that
  re-synchronises with the router query, and handlers that push a new query;
- the pagination control's page strip, and the listing views around it;
- the two crew sections: movie crew grouped by department, and TV crew
  de-duplicated, ranked by department and sorted by job;
- the movie and TV-show hero banners, the hero carousel, the search dropdown,
  and the movie and TV-show detail screens.

JavaScript semantics the code relies on are written out rather than assumed:

- `||` falls back on every falsy value (`""`, `0`, `NaN`, a missing value).
- `{0 && x}` renders the text "0".
- A template literal with `null` in it yields "null".
- `parseInt` follows section 19.2.5 of ECMA-262 (leading white space, an
  optional sign, a `0x` prefix, the longest digit prefix, `NaN` when no digit
  is found).
- `encodeURIComponent` encodes UTF-8 and percent-escapes every byte except the
  unreserved characters.
- `URLSearchParams` serialises with the `application/x-www-form-urlencoded`
  encoder of the WHATWG URL standard.
- Numbers are `Number = NaN | Int(int)`.

Modules follow the source files. Two modules are shared:

- `Common`: the `Option` type, `Number`, the `||` fallback on strings, and
  the `Take`, `Min`, `Max` and `IndexOf` helpers.
- `Text`: number-to-string conversion, `parseInt`, lexicographic order and
  `join`.

`UriEncoding` holds UTF-8 and the two URL encodings. `Sorting` holds the sort
that `Array.prototype.sort` stands for. `Credits` holds the crew filter
shared by both crew sections. `Router` holds the router's query map and
`router.push`.

The discover, TV-shows and trending screens cap the page count at 500, the
most TMDB serves (`src/screens/DiscoverMoviesScreen.tsx:105`,
`src/screens/TVShowsScreen.tsx:111`,
`src/screens/TrendingMoviesScreen.tsx:59`). The search screen does not
(`src/screens/SearchMoviesScreen.tsx:50`). `Listing.CappedTotalPages` is the
capped count and `Listing.TotalPages` the uncapped one.

## Model

| member | source | states |
|---|---|---|
| Common.Number.OrElse | src/hooks/useTVShows.ts:16 | the logical-or fallback on a number: the number itself unless it is `NaN` or 0, which give the default |
| Common.StringOrElse | src/hooks/useTVShows.ts:15 | the logical-or fallback on a string: a non-empty string is kept, a missing or empty one gives the default |
| Common.Take | src/components/tvshow/CrewSection.tsx:60 | `slice(0, n)` is the prefix of length `min(n, s.length)` |
| Common.IndexOf | src/components/tvshow/CrewSection.tsx:46-47 | `indexOf` is -1 exactly when the element is absent; otherwise it is the first position holding it |
| Text.NatToString | src/screens/DiscoverMoviesScreen.tsx:37 | decimal text of a natural number: non-empty, all digits, one digit exactly below 10 |
| Text.IntToString | src/screens/DiscoverMoviesScreen.tsx:134 | `toString()` of an integer: non-empty, digits with at most a leading minus |
| Text.LeadingDigits | src/screens/DiscoverMoviesScreen.tsx:88 | the longest prefix of radix digits; the next character, if any, is not one |
| Text.TrimStart | src/screens/DiscoverMoviesScreen.tsx:88 | `parseInt` first drops exactly the leading white space and keeps the rest as a suffix |
| Text.NatToStringValue | src/screens/DiscoverMoviesScreen.tsx:37 | the digits written for `n` read back as `n` |
| Text.LeadingDigitsOfRun | src/screens/DiscoverMoviesScreen.tsx:88 | a digit run followed by a non-digit is exactly the prefix `parseInt` reads |
| Text.ParseIntOfDecimalStart | src/screens/DiscoverMoviesScreen.tsx:88 | text starting with a decimal digit and no hex prefix parses as its leading digit run |
| Text.ParseIntReadsLeadingNumber | src/screens/DiscoverMoviesScreen.tsx:88-89 | `parseInt` of a number's digits followed by a non-digit suffix gives that number |
| Text.ParseIntOfIntToString | src/screens/DiscoverMoviesScreen.tsx:88 | round trip: `parseInt(n.toString()) == n` for every integer |
| Text.ParseIntOfNegative | src/screens/DiscoverMoviesScreen.tsx:88 | a minus sign followed by the digits of `n` parses as `-n` |
| Text.DecimalMagnitude | src/screens/DiscoverMoviesScreen.tsx:88 | the unsigned decimal digits of `n` parse as `n` |
| Text.ParseIntWithoutDigits | src/screens/DiscoverMoviesScreen.tsx:88-89 | text containing no decimal digit parses as `NaN`, so the page is not changed |
| Text.LexLessIrreflexive | src/components/tvshow/CrewSection.tsx:56 | the string order used for `localeCompare` is irreflexive |
| Text.LexLessTransitive | src/components/tvshow/CrewSection.tsx:56 | the string order is transitive |
| Text.LexLessTotal | src/components/tvshow/CrewSection.tsx:56 | distinct strings are always ordered one way or the other |
| Text.LexLessAsymmetric | src/components/tvshow/CrewSection.tsx:56 | the string order is asymmetric |
| Text.LocaleCompareConsistent | src/components/tvshow/CrewSection.tsx:56 | `localeCompare` is 0 only for equal strings and changes sign when its arguments swap |
| Text.JoinEmpty | src/components/tvshow/TVShowHero.tsx:39-40 | `join(", ")` gives "" exactly for no names or one empty name |
| UriEncoding.Utf8 | src/utils/tmdb.ts:82 | a character takes 1 to 4 UTF-8 bytes, and one byte exactly for ASCII |
| UriEncoding.Utf8Sequence | src/utils/tmdb.ts:82 | a character's bytes are a well-formed sequence that decodes to its code point |
| UriEncoding.Utf8DecodeChar | src/utils/tmdb.ts:82 | decoding one encoded character in front of more bytes yields that character first |
| UriEncoding.Utf8RoundTrip | src/utils/tmdb.ts:82 | UTF-8 decoding undoes UTF-8 encoding for every string |
| UriEncoding.HexDigitUpper | src/utils/tmdb.ts:82 | the hex digit written for `d` reads back as `d` |
| UriEncoding.EncodeIsSafe | src/utils/tmdb.ts:82 | encoded text holds only unreserved characters, `%`, hex digits and (for forms) `+` |
| UriEncoding.PercentBytesSafe | src/utils/tmdb.ts:82 | percent-escaped bytes hold only `%` and hex digits |
| UriEncoding.EncodedHasNo | src/utils/tmdb.ts:82 | no separator such as `?`, `&` or `=` survives encoding |
| UriEncoding.EncodeUnreserved | src/utils/tmdb.ts:82 | text made of unreserved characters is left unchanged |
| UriEncoding.PercentDecodeByte | src/utils/tmdb.ts:82 | percent-decoding reads one escaped byte back |
| UriEncoding.PercentDecodeBytes | src/utils/tmdb.ts:82 | percent-decoding reads an escaped byte sequence back |
| UriEncoding.PercentDecodeChar | src/utils/tmdb.ts:82 | percent-decoding an encoded character gives its UTF-8 bytes |
| UriEncoding.PercentDecodeEncode | src/utils/tmdb.ts:82 | percent-decoding an encoded string gives its UTF-8 bytes |
| UriEncoding.EncodeRoundTrip | src/utils/tmdb.ts:82 | decoding undoes `encodeURIComponent` and the form encoder for every string |
| UriEncoding.SplitOnce | src/utils/tmdb.ts:32 | splitting at the first separator: the head has no separator, and the pieces rebuild the input |
| UriEncoding.SplitOnceAt | src/utils/tmdb.ts:32 | a separator-free head followed by the separator splits exactly there |
| UriEncoding.SplitOnceWhole | src/utils/tmdb.ts:32 | text without the separator is not split |
| UriEncoding.ParseSerializedPair | src/utils/tmdb.ts:109 | one serialised `name=value` pair parses back to the pair |
| UriEncoding.SerializedPairIsSafe | src/utils/tmdb.ts:109 | a serialised pair is non-empty and holds no `&` |
| UriEncoding.FormParseSerialize | src/utils/tmdb.ts:94-109 | round trip: parsing the serialised query string gives back exactly the pairs, in order |
| UriEncoding.ParseSerializedLast | src/utils/tmdb.ts:109 | a single serialised pair parses back to itself |
| UriEncoding.ParseSerializedCons | src/utils/tmdb.ts:109 | the first serialised pair parses in front of the rest |
| UriEncoding.FormParseLast | src/utils/tmdb.ts:109 | one `&`-free segment parses as one pair |
| UriEncoding.FormParseCons | src/utils/tmdb.ts:109 | a segment followed by `&` parses as its pair in front of the rest |
| UriEncoding.SerializeHasNo | src/utils/tmdb.ts:109-111 | a serialised query string holds no `?` |
| Sorting.Insert | src/components/tvshow/CrewSection.tsx:30-57 | inserting adds exactly one element |
| Sorting.Sort | src/components/tvshow/CrewSection.tsx:30-57 | sorting keeps the length |
| Sorting.InsertPermutes | src/components/tvshow/CrewSection.tsx:30-57 | inserting adds exactly the inserted element to the multiset |
| Sorting.InsertSorted | src/components/tvshow/CrewSection.tsx:30-57 | under a strict weak order, inserting into a sorted sequence keeps it sorted |
| Sorting.InsertFollowsHead | src/components/tvshow/CrewSection.tsx:30-57 | an element inserted after the head never sorts before it |
| Sorting.ConsSorted | src/components/tvshow/CrewSection.tsx:30-57 | a head that nothing in the sorted rest precedes gives a sorted sequence |
| Sorting.SortPermutes | src/components/tvshow/CrewSection.tsx:30-57 | the sorted sequence is a permutation of the input |
| Sorting.SortSorted | src/components/tvshow/CrewSection.tsx:30-57 | under a strict weak order, the result is sorted |
| Sorting.SortedPrefixFirst | src/components/tvshow/CrewSection.tsx:60 | under a total order, everything in a sorted prefix precedes every element left out of it |
| Credits.InDepartment | src/components/movie/CrewSection.tsx:8-15 | a department's crew is exactly the crew members of that department |
| Credits.InDepartmentEmpty | src/components/movie/CrewSection.tsx:40 | a department's crew is empty exactly when no one works in it |
| Credits.DepartmentSnoc | src/components/movie/CrewSection.tsx:8-15 | appending a person extends exactly that person's department |
| MovieCrew.GroupByDepartment | src/components/movie/CrewSection.tsx:8-15 | the map's keys are exactly the departments present, and each maps to its crew in credit order |
| MovieCrew.SelectShape | src/components/movie/CrewSection.tsx:38-56 | each shown department is listed and non-empty, and shows its first three people |
| MovieCrew.SelectOrdered | src/components/movie/CrewSection.tsx:17-23 | shown departments keep the fixed display order |
| MovieCrew.SelectShowsNonEmpty | src/components/movie/CrewSection.tsx:38-41 | a listed department is shown exactly when it has crew |
| MovieCrew.NoDeduplication | src/components/movie/CrewSection.tsx:8-15 | every credit stays in its department, as often as it occurs (no de-duplication) |
| MovieCrew.CrewSection | src/components/movie/CrewSection.tsx:7-85 | only the five listed departments are shown, in order, each exactly when present, each with its first three people |
| MovieCrew.DirectorAndWriterShown | src/components/movie/CrewSection.tsx:38-56 | a director and a writer give a Directing and a Writing column, in that order |
| TvCrew.DedupUnique | src/components/tvshow/CrewSection.tsx:19-26 | de-duplication leaves at most one entry per (id, job), keeps only input people, and keeps every (id, job) present |
| TvCrew.DedupKeepsFirsts | src/components/tvshow/CrewSection.tsx:19-26 | the kept entry of each (id, job) is its first occurrence |
| TvCrew.DepartmentsAreKeys | src/components/tvshow/CrewSection.tsx:11-17 | the map's keys, in insertion order, are the departments present, each once |
| TvCrew.GroupSnoc | src/components/tvshow/CrewSection.tsx:11-27 | one `forEach` step adds the person to their department unless the same (id, job) is already there |
| TvCrew.GroupByDepartment | src/components/tvshow/CrewSection.tsx:8-27 | the keys are the departments in first-appearance order, and each group is that department's crew de-duplicated by (id, job) |
| TvCrew.DepartmentRankingConsistent | src/components/tvshow/CrewSection.tsx:32-57 | the department comparator is 0 only on equal names, antisymmetric, total and transitive |
| TvCrew.PriorityRankingConsistent | src/components/tvshow/CrewSection.tsx:46-56 | a priority list followed by alphabetical order is a consistent comparator, whatever the list |
| TvCrew.PriorityDepartmentsFirst | src/components/tvshow/CrewSection.tsx:34-56 | listed departments come first, in list order; the others follow alphabetically |
| TvCrew.DepartmentRankingIsOrder | src/components/tvshow/CrewSection.tsx:32-57 | the department ranking is a strict weak order and total |
| TvCrew.JobOrderIsWeakOrder | src/components/tvshow/CrewSection.tsx:73 | ordering people by job is a strict weak order |
| TvCrew.DistinctPermutation | src/components/tvshow/CrewSection.tsx:30-57 | a permutation of distinct elements is distinct |
| TvCrew.RankedPrefix | src/components/tvshow/CrewSection.tsx:30-60 | the first four departments after sorting are ranked in order, and each outranks every department left out |
| TvCrew.ShownDepartments | src/components/tvshow/CrewSection.tsx:30-60 | shown departments exist, are in rank order, and outrank every department not shown |
| TvCrew.ShownGroup | src/components/tvshow/CrewSection.tsx:72-74 | a shown column holds at most six people, sorted by job, unique by (id, job) and from that department |
| TvCrew.FirstSixByJob | src/components/tvshow/CrewSection.tsx:72-74 | the first six after the job sort are sorted, unique and drawn from the group |
| TvCrew.UniqueAfterPermutation | src/components/tvshow/CrewSection.tsx:73 | the job sort keeps (id, job) uniqueness |
| TvCrew.CrewSection | src/components/tvshow/CrewSection.tsx:7-92 | shows `min(4, #departments)` columns, the best-ranked departments in rank order, each with its six first-by-job unique people |
| TvCrew.ImportantAreGroups | src/components/tvshow/CrewSection.tsx:60 | every department chosen for display has a group |
| TvCrew.SectionShown | src/components/tvshow/CrewSection.tsx:60-74 | the columns built from the chosen departments meet the crew section's contract |
| TvQueries.PageOr1 | src/hooks/useTVShows.ts:16 | the page fallback is never 0: a missing page, `NaN` and 0 become 1 |
| TvQueries.KeysAreNamespaced | src/hooks/useTVShows.ts:9-37 | every TV-show key starts with "tvshows" and names its kind second |
| TvQueries.DiscoverKeyEquality | src/hooks/useTVShows.ts:27-35 | two discover requests share a cache entry exactly when their normalised fields agree |
| TvQueries.DiscoverDefaultsCollide | src/hooks/useTVShows.ts:31-34 | a missing year, "" and "all" share one entry; page `NaN`, 0, 1 and missing share one; distinct years do not |
| TvQueries.TrendingDefaults | src/hooks/useTVShows.ts:11-17 | the trending key equals the (day, 1) key exactly for the falsy or default arguments |
| TvQueries.SearchKeyDefault | src/hooks/useTVShows.ts:25-26 | the search page defaults to 1 exactly on falsy pages; distinct queries never share a key |
| TvQueries.UseTvGenres | src/hooks/useTVShows.ts:39-45 | genres are always requested and stay fresh for 24 hours |
| TvQueries.UseSearchTvShows | src/hooks/useTVShows.ts:72-84 | a search runs only for queries longer than two characters, stays fresh 5 minutes, and defaults its page to 1 |
| TvQueries.UseDiscoverTvShows | src/hooks/useTVShows.ts:47-56 | discover always runs and stays fresh 5 minutes |
| TvQueries.UseTvShowDetails | src/hooks/useTVShows.ts:86-92 | details run only for an id that is not 0 or `NaN`, with no freshness window |
| TvQueries.UseTvShowCredits | src/hooks/useTVShows.ts:94-100 | credits run only for a truthy id, with no freshness window |
| TvQueries.UseSimilarTvShows | src/hooks/useTVShows.ts:102-108 | similar shows run only for a truthy id, with no freshness window |
| TvQueries.IdKeysSeparate | src/hooks/useTVShows.ts:20-24 | different shows, and different request kinds, never share a cache entry |
| Tmdb.Split | src/utils/tmdb.ts:32 | `split("?")` gives at least one piece, no piece holds a `?`, and joining the pieces rebuilds the input |
| Tmdb.ServerUrlBase | src/utils/tmdb.ts:12-16 | an unset or empty `BASE_URL` targets the public API; any other base is used as given |
| Tmdb.SplitTwo | src/utils/tmdb.ts:32 | a path and a query without `?` split into exactly those two |
| Tmdb.ClientUrlOfPath | src/utils/tmdb.ts:32-35 | an endpoint without `?` is forwarded under the proxy prefix unchanged |
| Tmdb.ClientUrlOfQuery | src/utils/tmdb.ts:32-35 | a non-empty query string is forwarded; an empty one loses its `?` |
| Tmdb.ClientUrlDropsAfterSecondMark | src/utils/tmdb.ts:32-35 | a second `?` and everything after it are dropped |
| Tmdb.TrendingDefaults | src/utils/tmdb.ts:52-58 | the trending endpoint defaults to the daily window and page 1, and otherwise writes its arguments as given |
| Tmdb.SerializeFour | src/utils/tmdb.ts:80-85 | four pairs serialise as four `&`-separated pairs |
| Tmdb.SearchEndpointSerializes | src/utils/tmdb.ts:80-85 | the search endpoint is its four parameters serialised with `encodeURIComponent` |
| Tmdb.ClientUrlForwardsWhole | src/utils/tmdb.ts:32-35 | a path, `?` and a non-empty `?`-free query are forwarded whole |
| Tmdb.SerializationForwarded | src/utils/tmdb.ts:32-35 | a `?`-free path with serialised parameters is forwarded whole |
| Tmdb.SearchForwarded | src/utils/tmdb.ts:32-35 | whatever the user typed, the browser proxy forwards the whole search endpoint |
| Tmdb.SearchQueryArrives | src/utils/tmdb.ts:80-85 | the API parses back exactly the typed query and the other search parameters |
| Tmdb.DiscoverMovies | src/utils/tmdb.ts:86-112 | builds the record step by step, yielding the four fixed pairs then the non-empty year and genre, serialised |
| Tmdb.Get | src/utils/tmdb.ts:109 | `get(name)` finds a value of that name when one exists, and nothing otherwise |
| Tmdb.GetSkips | src/utils/tmdb.ts:109 | pairs with other names in front do not change what `get` finds |
| Tmdb.DiscoverFixedParameters | src/utils/tmdb.ts:87-99 | language en-US, adult off, and the page and sort order (defaulting only when left out) are always sent |
| Tmdb.DiscoverOptionalParameters | src/utils/tmdb.ts:101-107 | the release year and genre are sent exactly when non-empty |
| Tmdb.DiscoverForwarded | src/utils/tmdb.ts:32-35 | the browser proxy forwards the whole discover endpoint |
| Tmdb.DiscoverParsed | src/utils/tmdb.ts:94-111 | the API parses back exactly the intended discover parameters, whatever they contain |
| Tmdb.FetchTmdb | src/utils/tmdb.ts:9-49 | success exactly on an ok response, with its body; otherwise the server or proxy error message with the status |
| Pagination.GetPageNumbers | src/components/ui/Pagination.tsx:18-52 | the loop builds exactly the page strip that `PageNumbers` describes |
| Pagination.RangeCount | src/components/ui/Pagination.tsx:39-41 | the window loop adds `max(0, end - start + 1)` page numbers |
| Pagination.JoinOrdered | src/components/ui/Pagination.tsx:24-49 | two increasing pieces on adjacent page intervals join into an increasing strip |
| Pagination.RangeMarked | src/components/ui/Pagination.tsx:39-41 | the window is consecutive pages from start to end |
| Pagination.MarkedIncreasing | src/components/ui/Pagination.tsx:24-49 | a strip whose gaps are all marked is strictly increasing |
| Pagination.AllPagesWhenFew | src/components/ui/Pagination.tsx:20-22 | with few pages, the strip is every page 1..total with no ellipsis |
| Pagination.PageNumbersOrdered | src/components/ui/Pagination.tsx:24-51 | page numbers lie in 1..total and strictly increase |
| Pagination.WindowOrdered | src/components/ui/Pagination.tsx:24-49 | first page, optional ellipsis, window, optional ellipsis and last page come in increasing order |
| Pagination.PageNumbersEnds | src/components/ui/Pagination.tsx:24-49 | the strip starts with page 1 and ends with the last page |
| Pagination.WindowMarked | src/components/ui/Pagination.tsx:35-45 | a window between marked ends keeps every gap marked |
| Pagination.PageNumbersGapsMarked | src/components/ui/Pagination.tsx:35-45 | neighbouring numbers are consecutive or separated by exactly one ellipsis |
| Pagination.PageNumbersCount | src/components/ui/Pagination.tsx:26-41 | at most `maxDisplayedPages` page numbers are shown |
| Pagination.CurrentPageListed | src/components/ui/Pagination.tsx:26-41 | with at least five slots, the current page is always listed |
| Pagination.NarrowWindowOmitsCurrent | src/components/ui/Pagination.tsx:26-41 | with four slots, page 5 of 10 is left out of its own strip |
| Pagination.DefaultControl | src/components/ui/Pagination.tsx:12-52 | with the default five slots, the control shows exactly when there are 2+ pages, listing first, last and current page |
| Pagination.NavigationButtons | src/components/ui/Pagination.tsx:59-63 | Previous and Next are disabled exactly when they have no target, and otherwise move one page within 1..total |
| Listing.ChooseView | src/screens/DiscoverMoviesScreen.tsx:232-261 | spinner, then error, then empty message, then grid: exactly one, by that precedence |
| Listing.TotalPages | src/screens/SearchMoviesScreen.tsx:50 | a missing page count is 0 |
| Listing.CappedTotalPages | src/screens/DiscoverMoviesScreen.tsx:105 | the page count is capped at 500 and is otherwise the reported count |
| Listing.CappedPagination | src/screens/DiscoverMoviesScreen.tsx:105 | pagination is mounted exactly when loading is done and pages were reported; the cap only bites above 500 |
| Listing.GridHasPagination | src/screens/DiscoverMoviesScreen.tsx:232-269 | a grid of results comes with pagination; the spinner never does |
| Router.StringParam | src/screens/DiscoverMoviesScreen.tsx:75 | a parameter counts only when present with a single string value |
| Router.Navigate | src/screens/DiscoverMoviesScreen.tsx:140-147 | after a push, each pushed parameter reads back as its rendered value, and no other parameter is present |
| Router.ResyncPageRoundTrip | src/screens/DiscoverMoviesScreen.tsx:87-94 | a page parameter written from a number sets the page to that number |
| Router.ResyncPageFallbacks | src/screens/DiscoverMoviesScreen.tsx:87-94 | a digit-less page parameter keeps the current page; a missing one restores the initial page |
| Router.ResyncPageSettles | src/screens/DiscoverMoviesScreen.tsx:67-95 | running the page re-sync twice changes nothing the second time |
| FilterScreens.CollectNonEmpty | src/screens/DiscoverMoviesScreen.tsx:133-138 | adding the optional parameters one by one equals keeping the non-empty ones |
| FilterScreens.NonEmptyAdd | src/screens/DiscoverMoviesScreen.tsx:133-138 | adding one more parameter commutes with dropping empty values |
| FilterScreens.DeleteEmpty | src/screens/DiscoverMoviesScreen.tsx:118-120 | the deletion loop removes exactly the listed keys whose values are empty |
| FilterScreens.YearOptions | src/screens/DiscoverMoviesScreen.tsx:32-41 | "All Years" first, then every year from the current one down to 1900, each labelled by itself |
| FilterScreens.FilterScreen.Discover | src/screens/DiscoverMoviesScreen.tsx:45-55 | the discover screen starts from its initial filters and page, on "/discover" |
| FilterScreens.FilterScreen.TvShows | src/screens/TVShowsScreen.tsx:51-61 | the TV-shows screen starts from its initial filters and page, on "/tv-shows" |
| FilterScreens.FilterScreen.Resync | src/screens/DiscoverMoviesScreen.tsx:67-95 | the effect moves the state to the filters and page re-synchronised against the current page prop, which it leaves as it is |
| FilterScreens.FilterScreen.ReceiveProps | src/screens/DiscoverMoviesScreen.tsx:45-55 | a same-route navigation replaces the page prop and leaves the state as it was |
| FilterScreens.FilterScreen.HandleFilterChange | src/screens/DiscoverMoviesScreen.tsx:107-130 | a filter change pushes the chosen filters, empty ones removed, with page 1 |
| FilterScreens.FilterScreen.HandlePageChange | src/screens/DiscoverMoviesScreen.tsx:132-148 | a page change pushes the page and the non-empty filters |
| FilterScreens.FilterTargetParams | src/screens/DiscoverMoviesScreen.tsx:110-129 | the pushed query has page "1" and each chosen filter exactly when it is non-empty |
| FilterScreens.PageTargetParams | src/screens/DiscoverMoviesScreen.tsx:132-147 | the pushed query has the page and each current filter exactly when it is non-empty |
| FilterScreens.NavigateNonEmpty | src/screens/DiscoverMoviesScreen.tsx:118-122 | after pushing the non-empty parameters, the router shows exactly those |
| FilterScreens.ResyncPageOne | src/screens/DiscoverMoviesScreen.tsx:87-94 | page "1" re-syncs to page 1 |
| FilterScreens.PageChangeRoundTrip | src/screens/DiscoverMoviesScreen.tsx:67-147 | after a page change and the re-sync, the state is unchanged except for the new page |
| FilterScreens.FilterChangeRoundTrip | src/screens/DiscoverMoviesScreen.tsx:67-130 | choosing a non-empty filter value and re-syncing gives the chosen filters on page 1 |
| FilterScreens.KeptField | src/screens/DiscoverMoviesScreen.tsx:75-85 | a filter follows its parameter when present, and stays as it was when absent |
| FilterScreens.StaleFilterAfterClearing | src/screens/DiscoverMoviesScreen.tsx:75-120 | clearing year "2020" with "All Years" leaves the screen's year at "2020" |
| FilterScreens.ResyncFiltersIntended | src/screens/DiscoverMoviesScreen.tsx:75-85 | the corrected re-sync resets an absent filter to its default, and re-syncs the page as before |
| FilterScreens.IntendedFilterChangeRoundTrip | src/screens/DiscoverMoviesScreen.tsx:67-130 | with the corrected re-sync, any filter change, clearing included, lands on the chosen filters (sort defaulting) on page 1 |
| FilterScreens.IntendedAgreesWhenPresent | src/screens/DiscoverMoviesScreen.tsx:75-85 | the correction changes nothing when all three filters are in the query |
| TrendingScreen.ResyncTrending | src/screens/TrendingMoviesScreen.tsx:32-51 | the time window changes only to a valid "day"/"week" parameter, and always follows one; the page re-syncs as on the other screens |
| TrendingScreen.TimeWindowTarget | src/screens/TrendingMoviesScreen.tsx:61-73 | a time-window change pushes "/trending" with that window and page 1 |
| TrendingScreen.TrendingPageTarget | src/screens/TrendingMoviesScreen.tsx:75-84 | a page change pushes "/trending" with the current window and the page |
| TrendingScreen.TimeLabel | src/screens/TrendingMoviesScreen.tsx:103-104 | the subtitle reads "today" exactly for the daily window, and "this week" otherwise |
| TrendingScreen.TrendingMoviesScreen.constructor | src/screens/TrendingMoviesScreen.tsx:24-30 | the screen starts from its initial window and page |
| TrendingScreen.TrendingMoviesScreen.Resync | src/screens/TrendingMoviesScreen.tsx:32-51 | the effect moves the state to the window and page re-synchronised against the current page prop, which it leaves as it is |
| TrendingScreen.TrendingMoviesScreen.ReceiveProps | src/screens/TrendingMoviesScreen.tsx:24-30 | a same-route navigation replaces the page prop and leaves the state as it was |
| TrendingScreen.ResyncKeepsTimeWindow | src/screens/TrendingMoviesScreen.tsx:35-41 | a valid time window stays valid whatever the query holds |
| TrendingScreen.TimeWindowChangeRoundTrip | src/screens/TrendingMoviesScreen.tsx:32-73 | after a window change the page is 1, and the window is the new one if valid, else unchanged |
| TrendingScreen.PageChangeRoundTrip | src/screens/TrendingMoviesScreen.tsx:32-84 | after a page change the state is unchanged except for the new page |
| SearchScreen.ResyncSearch | src/screens/SearchMoviesScreen.tsx:23-38 | the query follows a string query parameter, and is kept otherwise; the page re-syncs as on the other screens |
| SearchScreen.SearchPageTarget | src/screens/SearchMoviesScreen.tsx:52-61 | a page change pushes "/search" with the current query and the page |
| SearchScreen.SearchMoviesScreen.constructor | src/screens/SearchMoviesScreen.tsx:15-21 | the screen starts from its initial query and page |
| SearchScreen.SearchMoviesScreen.Resync | src/screens/SearchMoviesScreen.tsx:23-38 | the effect moves the state to the query and page re-synchronised against the current page prop, which it leaves as it is |
| SearchScreen.SearchMoviesScreen.ReceiveProps | src/screens/SearchMoviesScreen.tsx:15-21 | a same-route navigation replaces the page prop and leaves the state as it was |
| SearchScreen.PageChangeRoundTrip | src/screens/SearchMoviesScreen.tsx:23-61 | after a page change the state is unchanged except for the new page |
| ServerProps.PageProp | src/pages/discover.tsx:46-47 | the page prop is `parseInt` of a string parameter, and 1 without one |
| ServerProps.StringOr | src/pages/discover.tsx:40-45 | a filter prop is its string parameter, or the default without one |
| ServerProps.DiscoverPage | src/pages/discover.tsx:37-84 | the discover props are the parsed filters and page, whether or not the prefetch succeeded |
| ServerProps.TvShowsPage | src/pages/tv-shows.tsx:37-86 | the TV-shows props are the parsed filters and page, whether or not the prefetch succeeded |
| ServerProps.ParseTrendingQuery | src/pages/trending.tsx:34-41 | the window prop is "week" only for a "week" parameter and "day" otherwise; the page is parsed as elsewhere |
| ServerProps.TrendingPage | src/pages/trending.tsx:31-68 | the trending props are the parsed window and page, whether or not the prefetch succeeded |
| ServerProps.SearchPage | src/pages/search.tsx:31-73 | an empty or missing query redirects to "/" temporarily; otherwise the props carry the query and page |
| ServerProps.PageIsUnvalidated | src/pages/discover.tsx:46-47 | a numeric page parameter passes through as given (0 and negatives too), and a digit-less one becomes `NaN` |
| ServerProps.ResyncFollowsNewProps | src/screens/DiscoverMoviesScreen.tsx:87-95 | after a same-route navigation the page becomes the one the new URL names, or the recomputed prop without one, whatever page was shown; a digit-less page keeps it |
| ServerProps.SameRouteNavigation | src/pages/discover.tsx:46-47 | a same-route URL without a page (a header link) brings every list screen back to page 1, and one with a readable page to that page |
| ServerProps.DiscoverPrefetchUsesProps | src/pages/discover.tsx:57-61 | the prefetch requests the props' year, genre, sort order and page |
| ServerProps.TvShowsPrefetchMatchesScreen | src/pages/tv-shows.tsx:59-63 | the prefetched cache key is the key the screen asks for on its first render |
| ServerProps.FilterPropsStable | src/pages/discover.tsx:63-70 | a screen started from the props is unchanged by its first re-sync on the same query |
| ServerProps.TrendingPropsStable | src/pages/trending.tsx:51-56 | the trending screen started from the props is unchanged by its first re-sync |
| ServerProps.SearchPropsStable | src/pages/search.tsx:56-61 | the search screen started from the props is unchanged by its first re-sync |
| ServerProps.TrendingPrefetchUsesProps | src/pages/trending.tsx:46-49 | the trending prefetch requests the props' window and page |
| DetailScreens.DetailScreen | src/screens/MovieDetailScreen.tsx:31-134 | loading, then error, then not found, then content: exactly one, by that precedence, carrying the item |
| DetailScreens.LoadingFirst | src/screens/MovieDetailScreen.tsx:31-72 | both screens show only the spinner while details load, and a non-empty message on error |
| DetailScreens.ErrorFallback | src/screens/MovieDetailScreen.tsx:50-72 | an error without a message shows each screen's own title and fallback text |
| DetailScreens.SectionsGated | src/screens/MovieDetailScreen.tsx:102-134 | cast, crew and similar sections show exactly when loaded and non-empty; crew never has a spinner |
| HeroCarousel.NextIndex | src/components/hero/HeroCarousel.tsx:28-32 | the next slide is the following one, wrapping from the last to the first |
| HeroCarousel.PrevIndex | src/components/hero/HeroCarousel.tsx:34-38 | the previous slide is the one before, wrapping from the first to the last |
| HeroCarousel.Dots | src/components/hero/HeroCarousel.tsx:135-143 | one dot per slide, highlighted exactly at the current slide |
| HeroCarousel.DotLabel | src/components/hero/HeroCarousel.tsx:144 | a dot's label names its slide counting from 1, and reads back as that number |
| HeroCarousel.SlideHref | src/components/hero/HeroCarousel.tsx:73 | the link is a "/movie/" path whose last segment reads back as the slide's movie id |
| HeroCarousel.HeroMovies | src/screens/HomeScreen.tsx:23 | the first five trending movies, and the empty list while none have been fetched |
| HeroCarousel.CurrentSlide | src/components/hero/HeroCarousel.tsx:40-47 | the slide shows the movie at the index, and the render throws exactly when no movie is there |
| HeroCarousel.EmptyListCrashes | src/components/hero/HeroCarousel.tsx:40-47 | before the trending movies arrive the carousel gets the empty list and its render throws |
| HeroCarousel.IntendedSlideNeverCrashes | src/components/hero/HeroCarousel.tsx:40-47 | with a guard the slide never throws, is empty exactly without a movie, and otherwise shows the same movie |
| HeroCarousel.Carousel.constructor | src/components/hero/HeroCarousel.tsx:17 | the carousel starts on the first slide, a valid index exactly when there is at least one slide |
| HeroCarousel.Carousel.Next | src/components/hero/HeroCarousel.tsx:28-32 | Next moves to the next slide and stays in range |
| HeroCarousel.Carousel.Prev | src/components/hero/HeroCarousel.tsx:34-38 | Prev moves to the previous slide and stays in range |
| HeroCarousel.Carousel.Select | src/components/hero/HeroCarousel.tsx:138 | clicking a dot makes its slide current and highlights it |
| HeroCarousel.Carousel.Tick | src/components/hero/HeroCarousel.tsx:19-24 | each timer tick advances like Next |
| HeroCarousel.PrevUndoesNext | src/components/hero/HeroCarousel.tsx:28-38 | Prev undoes Next and Next undoes Prev |
| HeroCarousel.AdvanceWithin | src/components/hero/HeroCarousel.tsx:19-24 | `k` ticks before the end move `k` slides forward |
| HeroCarousel.AdvanceCompose | src/components/hero/HeroCarousel.tsx:19-24 | ticks compose: `a + b` ticks equal `a` ticks then `b` ticks |
| HeroCarousel.Distance | src/components/hero/HeroCarousel.tsx:19-24 | the number of ticks to reach a slide is below the slide count |
| HeroCarousel.FullRound | src/components/hero/HeroCarousel.tsx:19-24 | a full round of ticks returns to the start, and every slide is reached within one round |
| HeroCarousel.OneDotHighlighted | src/components/hero/HeroCarousel.tsx:139-143 | exactly one dot is highlighted |
| SearchResults.ResultLimit | src/components/search/SearchResults.tsx:45 | 3 results on mobile, 8 otherwise |
| SearchResults.RowsByViewport | src/hooks/useIsMobile.ts:8-24 | before the window is measured the dropdown lists up to 8 rows; afterwards up to 3 below 768 pixels and up to 8 from 768 on, with "View all" exactly when more matched |
| SearchResults.YearLabel | src/components/search/SearchResults.tsx:98-99 | the first four characters of the release date, or "Unknown year" without one |
| SearchResults.Thumbnail | src/components/search/SearchResults.tsx:79-91 | a w92 poster exactly when the poster path is non-empty |
| SearchResults.Render | src/components/search/SearchResults.tsx:43-135 | hidden, searching, no movies, or up to the limit of rows with a "view all" link exactly when results exceed the limit |
| SearchResults.SearchDropdown.constructor | src/components/search/SearchResults.tsx:21 | the dropdown starts hidden |
| SearchResults.SearchDropdown.QueryChanged | src/components/search/SearchResults.tsx:24-26 | a new query shows the dropdown exactly when it is longer than two characters |
| SearchResults.SearchDropdown.MouseDown | src/components/search/SearchResults.tsx:28-41 | a click outside hides the dropdown; a click inside leaves it as it was |
| SearchResults.ViewAllQueryArrives | src/components/search/SearchResults.tsx:122 | the "view all" link goes to "/search" and its query string parses back to exactly the typed query |
| SearchResults.SingleParameterArrives | src/components/search/SearchResults.tsx:122 | a path with one encoded parameter splits at its `?` and parses back to that parameter |
| SearchResults.YearLabelOfDate | src/components/search/SearchResults.tsx:98-99 | a date starting with a four-digit year is labelled by that year |
| MovieHero.ImageUrl | src/components/movie/MovieHero.tsx:9-15 | a non-empty path is appended to the image prefix; otherwise the placeholder is used |
| MovieHero.RuntimeText | src/components/movie/MovieHero.tsx:66-68 | the runtime is shown exactly when positive |
| MovieHero.GenreLine | src/components/movie/MovieHero.tsx:69-73 | genres are shown, comma-joined, exactly when there is at least one |
| MovieHero.TaglineLine | src/components/movie/MovieHero.tsx:76-80 | the tagline is shown exactly when non-empty |
| MovieHero.HoursMinutesReadBack | src/components/movie/MovieHero.tsx:23-27 | "Hh Mm" reads back as H hours and M minutes |
| MovieHero.RuntimeReadsBack | src/components/movie/MovieHero.tsx:23-27 | the formatted runtime reads back as whole hours and the remaining minutes below 60, which add up to the runtime |
| MovieHero.ImageFallbacks | src/components/movie/MovieHero.tsx:9-15 | a missing path gives the placeholders; a given path is recoverable from the URL |
| TvShowHero.TemplateUrl | src/components/tvshow/TVShowHero.tsx:27-29 | interpolating a missing path writes "null" after the prefix |
| TvShowHero.NullBackdropUrl | src/components/tvshow/TVShowHero.tsx:27-29 | a show without images gets URLs ending in "originalnull" and "w500null" |
| TvShowHero.BackdropUrlIntended | src/components/tvshow/TVShowHero.tsx:27 | the corrected backdrop URL uses the path when non-empty, and the placeholder otherwise |
| TvShowHero.PosterUrlIntended | src/components/tvshow/TVShowHero.tsx:29 | the corrected poster URL uses the path when non-empty, and the placeholder otherwise |
| TvShowHero.IntendedUrlsAvoidNull | src/components/tvshow/TVShowHero.tsx:27-29 | the corrected URLs end in "null" only when the path really is "null" |
| TvShowHero.Smallest | src/components/tvshow/TVShowHero.tsx:36 | `Math.min` is an element that no element is below |
| TvShowHero.Largest | src/components/tvshow/TVShowHero.tsx:36 | `Math.max` is an element that no element is above |
| TvShowHero.FormatRuntime | src/components/tvshow/TVShowHero.tsx:31-37 | "N/A" without runtimes; "m min" for one; otherwise "lo-hi min" for the least and greatest |
| TvShowHero.RuntimeRangeOrdered | src/components/tvshow/TVShowHero.tsx:36 | the range is written low to high |
| TvShowHero.Creators | src/components/tvshow/TVShowHero.tsx:39-40 | never empty: the comma-joined names, or "N/A" when they join to nothing |
| TvShowHero.CreatorsFallback | src/components/tvshow/TVShowHero.tsx:39-40 | "N/A" exactly for no creators, one unnamed creator, or names that join to "N/A" |
| TvShowHero.Overview | src/components/tvshow/TVShowHero.tsx:143 | never empty: the overview, or "No overview available." |
| TvShowHero.AirDates | src/components/tvshow/TVShowHero.tsx:74-81 | shown exactly with a first air date; a different last date is appended after " - " |
| TvShowHero.CountBadge | src/components/tvshow/TVShowHero.tsx:113-125 | a count badge for a non-zero count; a zero count renders a stray "0" |
| TvShowHero.ZeroCountRendersZero | src/components/tvshow/TVShowHero.tsx:113-125 | zero seasons or episodes put a bare "0" on the page |
| TvShowHero.CountBadgeIntended | src/components/tvshow/TVShowHero.tsx:113-125 | the corrected badge renders nothing for zero, and never stray text |
| TvShowHero.CountBadgeWording | src/components/tvshow/TVShowHero.tsx:115-116 | the badge reads back as the count, and uses the singular word exactly for 1 |
| TvShowHero.CountReadsBack | src/components/tvshow/TVShowHero.tsx:115 | a count followed by a space and a word reads back as the count |

## Left out

- Network I/O, the React Query cache itself, `dehydrate`, and the bearer header are left out. A request's answer is the parameter `respond` of `Tmdb.FetchTmdb`. The prefetch's success is a boolean parameter of the page functions.
- The `console.error` logging in `fetchTMDB` and the server pages is left out.
- Timers and DOM events are left out. The carousel's `setInterval` becomes the `Tick` method. The dropdown's `mousedown` listener becomes `MouseDown`, with "inside the dropdown" as a parameter. The window width `useIsMobile` measures is a parameter, `None` before its effect has run; the `resize` listener is not modelled beyond that.
- The clock is left out: the current year in the year options is a parameter. `formatReleaseDate` and `toLocaleDateString` are left out; they are a parameter of `TvShowHero.AirDates`.
- Floating point is left out: vote averages and `toFixed(1)`. Numbers are integers or `NaN`.
- Text.ParseIntOfIntToString: proved for every integer, but JavaScript numbers are doubles. Above 2^53 in magnitude `toString` and `parseInt` no longer agree digit for digit (`parseInt("99999999999999999999")` is 1e20), and from 1e21 on `toString` writes an exponent ("1e+21"), which `parseInt` reads as 1. The source round trip holds only for magnitudes below 2^53.
- Router.ResyncPageRoundTrip: holds in the source only for pages below 2^53 in magnitude, for the reason given for Text.ParseIntOfIntToString.
- ServerProps.PageIsUnvalidated: a page parameter passes through unchanged in the source only below 2^53 in magnitude, for the same reason.
- HeroCarousel.SlideHref: the id reads back in the source only below 2^53, for the same reason. TMDB ids are far smaller.
- FilterScreens.PageChangeRoundTrip, TrendingScreen.PageChangeRoundTrip and SearchScreen.PageChangeRoundTrip rest on Router.ResyncPageRoundTrip and share its 2^53 bound.
- UriEncoding.EncodeUriComponent: `encodeURIComponent` throws a `URIError` on a lone surrogate (`src/utils/tmdb.ts:82`, `src/components/search/SearchResults.tsx:122`). Dafny characters are Unicode scalar values, so that throwing case is not modelled.
- Text.LocaleCompare: `localeCompare` is modelled as code-point lexicographic order. Locale collation rules are not captured.
- Text.IntToString and the string lengths use Dafny characters, not UTF-16 code units. The `query.length > 2` test counts characters.
- Sorting.Sort is an insertion sort. The ordering properties proved hold for any correct sort, but the engine's own algorithm, and the order it gives equal elements, are not modelled.
- TvShowHero.CountBadge takes the count as a natural number. `null`, missing and negative counts are not modelled.
- Markup, class names, icons, the genre badges and the network and status badges of the TV hero, and image `sizes` are left out. Only what is shown, and when, is modelled.
- `useDebounce`, the header and the other components outside the core are not part of this model.
- The movie query hooks of `src/hooks/useMovies.ts` are not part of this model. The movie pages' prefetch is modelled by the endpoint it requests rather than its cache key.
- The TV endpoints of the TMDB client (`getTVGenres`, `discoverTVShows`, `getTVShowDetails`, and so on) are not in the client file modelled here.
- The API proxy route that forwards browser requests is not part of this model. Only the URL the browser sends to it is modelled.
- Detail screens take the counts of cast, crew and similar results as inputs. The sections' own rendering is not modelled.

## Findings

| source | as written | input that shows it | evidently intended | confidence | as-written member | corrected member |
|---|---|---|---|---|---|---|
| src/screens/DiscoverMoviesScreen.tsx:75-120 | choosing an empty filter deletes its parameter, and the re-sync ignores absent parameters, so the filter keeps its old value (TVShowsScreen.tsx has the same code) | year "2020", then choose "All Years" | an absent parameter resets the filter to its default | not executed | FilterScreens.StaleFilterAfterClearing | FilterScreens.IntendedFilterChangeRoundTrip |
| src/components/tvshow/TVShowHero.tsx:113-125 | `{count && badge}` renders the number 0 when the count is 0 | `number_of_seasons = 0` | nothing is rendered for a zero count | not executed | TvShowHero.ZeroCountRendersZero | TvShowHero.CountBadgeIntended |
| src/components/tvshow/TVShowHero.tsx:27-29 | a `null` image path is interpolated into the URL | `backdrop_path = null` gives ".../t/p/originalnull" | fall back to a placeholder, as the movie hero does | not executed | TvShowHero.NullBackdropUrl | TvShowHero.IntendedUrlsAvoidNull |
| src/components/hero/HeroCarousel.tsx:40-47 | `movies[currentIndex]` is `undefined` for an empty list, and reading `backdropPath` from it throws; the component ignores the `isLoading` prop its callers pass | the home page while the trending movies load: `src/screens/HomeScreen.tsx:23` passes `[]` | render nothing, or a placeholder, until there is a movie | not executed | HeroCarousel.EmptyListCrashes | HeroCarousel.IntendedSlideNeverCrashes |
