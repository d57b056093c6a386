/** The two filter screens, discover movies ("/discover") and TV shows
    ("/tv-shows"), which share their logic: the filter state follows the
    URL, a filter or page change navigates to a new URL, and the year
    selector lists the years back to 1900. */
module FilterScreens {
  import opened Common
  import opened Text
  import opened Router

  /** Which selector changed. */
  datatype FilterKind = YearFilter | GenreFilter | SortFilter

  /** The screen's state fields. */
  datatype FilterState = FilterState(year: string, genreId: string, sortBy: string, currentPage: Number)

  /** One run of the resync effect: a string year, genre or sort_by
      parameter that differs from the state replaces it, a missing one is
      left alone, and the page follows `ResyncPage`. */
  function ResyncFilters(s: FilterState, q: Query, initialPage: Number): FilterState
  {
    FilterState(
      Follow(s.year, StringParam(q, "year")),
      Follow(s.genreId, StringParam(q, "genre")),
      Follow(s.sortBy, StringParam(q, "sort_by")),
      ResyncPage(StringParam(q, "page"), s.currentPage, initialPage))
  }

  /** `if (typeof param === "string" && param !== current) set(param)`. */
  function Follow(current: string, param: Option<string>): string
  {
    if param.Some? && param.value != current then param.value else current
  }

  /** The filters after a change of `kind` to `value`, on page 1. */
  function Chosen(s: FilterState, kind: FilterKind, value: string): FilterState
  {
    FilterState(
      if kind == YearFilter then value else s.year,
      if kind == GenreFilter then value else s.genreId,
      if kind == SortFilter then value else s.sortBy,
      Int(1))
  }

  /** The parameters whose value is non-empty. */
  function NonEmpty(params: map<string, string>): map<string, PushValue>
  {
    map name | name in params && params[name] != "" :: Str(params[name])
  }

  /** `if (value) params[key] = value`. */
  function AddNonEmpty(params: map<string, PushValue>, key: string, value: string): map<string, PushValue>
  {
    if value != "" then params[key := Str(value)] else params
  }

  /** Setting a first, always non-empty parameter and then three more only
      when non-empty gives the non-empty parameters. */
  lemma CollectNonEmpty(k0: string, k1: string, k2: string, k3: string, v0: string, v1: string, v2: string, v3: string)
    requires v0 != ""
    requires k0 != k1 && k0 != k2 && k0 != k3 && k1 != k2 && k1 != k3 && k2 != k3
    ensures AddNonEmpty(AddNonEmpty(AddNonEmpty(map[k0 := Str(v0)], k1, v1), k2, v2), k3, v3)
         == NonEmpty(map[k0 := v0, k1 := v1, k2 := v2, k3 := v3])
  {
    var m0 := map[k0 := v0];
    assert NonEmpty(m0) == map[k0 := Str(v0)];
    NonEmptyAdd(m0, k1, v1);
    NonEmptyAdd(m0[k1 := v1], k2, v2);
    NonEmptyAdd(m0[k1 := v1][k2 := v2], k3, v3);
    assert map[k0 := v0, k1 := v1, k2 := v2, k3 := v3] == m0[k1 := v1][k2 := v2][k3 := v3];
  }

  /** Adding a new parameter adds it to the non-empty ones exactly when it
      is non-empty. */
  lemma NonEmptyAdd(params: map<string, string>, key: string, value: string)
    requires key !in params
    ensures NonEmpty(params[key := value]) == AddNonEmpty(NonEmpty(params), key, value)
  {
    var l, r := NonEmpty(params[key := value]), AddNonEmpty(NonEmpty(params), key, value);
    assert l.Keys == r.Keys;
  }

  /** The navigation target of a filter change: the chosen filters and page
      "1", without the empty ones. */
  function FilterTarget(pathname: string, s: FilterState, kind: FilterKind, value: string): Target
  {
    var c := Chosen(s, kind, value);
    Target(pathname, NonEmpty(map["year" := c.year, "genre" := c.genreId, "sort_by" := c.sortBy, "page" := "1"]))
  }

  /** The navigation target of a page change: the page, printed, and the
      non-empty filters. */
  function PageTarget(pathname: string, s: FilterState, page: int): Target
  {
    Target(pathname, NonEmpty(map["page" := IntToString(page), "year" := s.year, "genre" := s.genreId, "sort_by" := s.sortBy]))
  }

  /** `keys.forEach(key => { if (!params[key]) delete params[key]; })`:
      the listed parameters with an empty value are removed. */
  method DeleteEmpty(params: map<string, string>, keys: seq<string>) returns (r: map<string, string>)
    ensures r == map name | name in params && (name in keys ==> params[name] != "") :: params[name]
  {
    r := params;
    var i := 0;
    while i < |keys|
      invariant 0 <= i <= |keys|
      invariant r == map name | name in params && (name in keys[..i] ==> params[name] != "") :: params[name]
    {
      var key := keys[i];
      if key !in r || r[key] == "" {
        r := r - {key};
      }
      assert keys[..i + 1] == keys[..i] + [key];
      i := i + 1;
    }
    assert keys[..i] == keys;
  }

  /** An option of a selector. */
  datatype FilterOption = FilterOption(value: string, caption: string)

  /** The year that row `i` (from 1) of the year selector offers. */
  function YearOfRow(currentYear: int, i: int): int
  {
    currentYear - i + 1
  }

  /** The year selector: "All Years" with the empty value, then one row per
      year from the current year down to 1900. */
  method YearOptions(currentYear: int) returns (options: seq<FilterOption>)
    ensures |options| == 1 + (if currentYear >= 1900 then currentYear - 1899 else 0)
    ensures options[0] == FilterOption("", "All Years")
    ensures forall i | 1 <= i < |options| ::
      1900 <= YearOfRow(currentYear, i) <= currentYear &&
      options[i] == FilterOption(IntToString(YearOfRow(currentYear, i)), IntToString(YearOfRow(currentYear, i)))
  {
    options := [FilterOption("", "All Years")];
    var year := currentYear;
    while year >= 1900
      invariant year <= currentYear && (currentYear >= 1900 ==> year >= 1899) && (currentYear < 1900 ==> year == currentYear)
      invariant |options| == 1 + (currentYear - year)
      invariant options[0] == FilterOption("", "All Years")
      invariant forall i | 1 <= i < |options| ::
        1900 <= YearOfRow(currentYear, i) <= currentYear &&
        options[i] == FilterOption(IntToString(YearOfRow(currentYear, i)), IntToString(YearOfRow(currentYear, i)))
      decreases year
    {
      options := options + [FilterOption(IntToString(year), IntToString(year))];
      year := year - 1;
    }
  }

  /** A filter screen, with the initial values from the server-side props. */
  class FilterScreen {
    const pathname: string
    var initialPage: Number
    var year: string
    var genreId: string
    var sortBy: string
    var currentPage: Number

    function State(): FilterState
      reads this
    {
      FilterState(year, genreId, sortBy, currentPage)
    }

    /** `DiscoverMoviesScreen`. */
    constructor Discover(initialYear: string, initialGenreId: string, initialSortBy: string, initialPage: Number)
      ensures pathname == "/discover" && this.initialPage == initialPage
      ensures State() == FilterState(initialYear, initialGenreId, initialSortBy, initialPage)
    {
      pathname := "/discover";
      this.initialPage := initialPage;
      year, genreId, sortBy, currentPage := initialYear, initialGenreId, initialSortBy, initialPage;
    }

    /** `TVShowsScreen`. */
    constructor TvShows(initialYear: string, initialGenreId: string, initialSortBy: string, initialPage: Number)
      ensures pathname == "/tv-shows" && this.initialPage == initialPage
      ensures State() == FilterState(initialYear, initialGenreId, initialSortBy, initialPage)
    {
      pathname := "/tv-shows";
      this.initialPage := initialPage;
      year, genreId, sortBy, currentPage := initialYear, initialGenreId, initialSortBy, initialPage;
    }

    /** A navigation within the same route: the screen stays mounted and
      receives the page prop recomputed on the server, while the state
      keeps its values (`useState` ignores a new initial value). */
    method ReceiveProps(page: Number)
      modifies this
      ensures initialPage == page
      ensures State() == old(State())
    {
      initialPage := page;
    }

    /** The resync effect, run once against the current router query and
      the current page prop. */
    method Resync(q: Query)
      modifies this
      ensures initialPage == old(initialPage)
      ensures State() == ResyncFilters(old(State()), q, initialPage)
    {
      var yearParam := StringParam(q, "year");
      var genreParam := StringParam(q, "genre");
      var sortParam := StringParam(q, "sort_by");
      var pageParam := StringParam(q, "page");
      if yearParam.Some? && yearParam.value != year {
        year := yearParam.value;
      }
      if genreParam.Some? && genreParam.value != genreId {
        genreId := genreParam.value;
      }
      if sortParam.Some? && sortParam.value != sortBy {
        sortBy := sortParam.value;
      }
      if pageParam.Some? {
        var parsedPage := ParseInt(pageParam.value);
        if parsedPage != NaN && parsedPage != currentPage {
          currentPage := parsedPage;
        }
      } else if currentPage != initialPage {
        currentPage := initialPage;
      }
    }

    /** `handleFilterChange(kind)` with the selected `value`: the parameter
      record is built, then every key with an empty value is deleted. */
    method HandleFilterChange(kind: FilterKind, value: string) returns (t: Target)
      ensures t == FilterTarget(pathname, State(), kind, value)
    {
      var c := Chosen(State(), kind, value);
      var newParams := map["year" := c.year, "genre" := c.genreId, "sort_by" := c.sortBy, "page" := "1"];
      var kept := DeleteEmpty(newParams, ["year", "genre", "sort_by", "page"]);
      t := Target(pathname, map name | name in kept :: Str(kept[name]));
    }

    /** `handlePageChange(page)`: the page first, then each non-empty
      filter. */
    method HandlePageChange(page: int) returns (t: Target)
      ensures t == PageTarget(pathname, State(), page)
    {
      var pageText := IntToString(page);
      var queryParams: map<string, PushValue> := map["page" := Str(pageText)];
      var start := queryParams;
      if year != "" {
        queryParams := queryParams["year" := Str(year)];
      }
      assert queryParams == AddNonEmpty(start, "year", year);
      var afterYear := queryParams;
      if genreId != "" {
        queryParams := queryParams["genre" := Str(genreId)];
      }
      assert queryParams == AddNonEmpty(afterYear, "genre", genreId);
      var afterGenre := queryParams;
      if sortBy != "" {
        queryParams := queryParams["sort_by" := Str(sortBy)];
      }
      assert queryParams == AddNonEmpty(afterGenre, "sort_by", sortBy);
      CollectNonEmpty("page", "year", "genre", "sort_by", pageText, year, genreId, sortBy);
      t := Target(pathname, queryParams);
    }
  }

  /** A filter change keeps the path, sets the chosen filter, keeps the
      other two, always sends page "1", and sends exactly the non-empty
      filters. */
  lemma FilterTargetParams(pathname: string, s: FilterState, kind: FilterKind, value: string)
    ensures var t := FilterTarget(pathname, s, kind, value);
      var c := Chosen(s, kind, value);
      && t.pathname == pathname
      && t.query.Keys <= {"year", "genre", "sort_by", "page"}
      && "page" in t.query && t.query["page"] == Str("1")
      && ("year" in t.query <==> c.year != "") && ("year" in t.query ==> t.query["year"] == Str(c.year))
      && ("genre" in t.query <==> c.genreId != "") && ("genre" in t.query ==> t.query["genre"] == Str(c.genreId))
      && ("sort_by" in t.query <==> c.sortBy != "") && ("sort_by" in t.query ==> t.query["sort_by"] == Str(c.sortBy))
  {
  }

  /** A page change sends the page as a string and exactly the non-empty
      filters. */
  lemma PageTargetParams(pathname: string, s: FilterState, page: int)
    ensures var t := PageTarget(pathname, s, page);
      && t.pathname == pathname
      && t.query.Keys <= {"year", "genre", "sort_by", "page"}
      && "page" in t.query && t.query["page"] == Str(IntToString(page))
      && ("year" in t.query <==> s.year != "") && ("year" in t.query ==> t.query["year"] == Str(s.year))
      && ("genre" in t.query <==> s.genreId != "") && ("genre" in t.query ==> t.query["genre"] == Str(s.genreId))
      && ("sort_by" in t.query <==> s.sortBy != "") && ("sort_by" in t.query ==> t.query["sort_by"] == Str(s.sortBy))
  {
    IntToStringNonEmpty(page);
  }

  /** What the router reports for a parameter of a target whose empty
      parameters were dropped. */
  lemma NavigateNonEmpty(pathname: string, params: map<string, string>, name: string)
    ensures StringParam(Navigate(Target(pathname, NonEmpty(params))), name) ==
      if name in params && params[name] != "" then Some(params[name]) else None
  {
  }

  lemma IntToStringNonEmpty(n: int)
    ensures IntToString(n) != ""
  {
  }

  /** Page "1" is read back as page 1. */
  lemma ResyncPageOne(currentPage: Number, initialPage: Number)
    ensures ResyncPage(Some("1"), currentPage, initialPage) == Int(1)
  {
    ResyncPageRoundTrip(1, currentPage, initialPage);
    assert IntToString(1) == "1";
  }

  /** After a page change the screen comes back to the same filters on the
      requested page. */
  lemma PageChangeRoundTrip(pathname: string, s: FilterState, page: int, initialPage: Number)
    ensures ResyncFilters(s, Navigate(PageTarget(pathname, s, page)), initialPage) == s.(currentPage := Int(page))
  {
    var q := Navigate(PageTarget(pathname, s, page));
    PageTargetParams(pathname, s, page);
    assert StringParam(q, "page") == Some(IntToString(page));
    ResyncPageRoundTrip(page, s.currentPage, initialPage);
  }

  /** After a filter change to a non-empty value the screen shows the chosen
      filters on page 1. */
  lemma FilterChangeRoundTrip(pathname: string, s: FilterState, kind: FilterKind, value: string, initialPage: Number)
    requires value != ""
    ensures ResyncFilters(s, Navigate(FilterTarget(pathname, s, kind, value)), initialPage) == Chosen(s, kind, value)
  {
    var q := Navigate(FilterTarget(pathname, s, kind, value));
    FilterTargetParams(pathname, s, kind, value);
    assert StringParam(q, "page") == Some("1");
    ResyncPageOne(s.currentPage, initialPage);
    var c := Chosen(s, kind, value);
    KeptField(s.year, c.year, StringParam(q, "year"));
    KeptField(s.genreId, c.genreId, StringParam(q, "genre"));
    KeptField(s.sortBy, c.sortBy, StringParam(q, "sort_by"));
  }

  /** One filter field after the resync: the URL carries the chosen value
      when it is non-empty, and an empty chosen value was already the
      state's. */
  lemma KeptField(current: string, chosen: string, param: Option<string>)
    requires param == if chosen != "" then Some(chosen) else None
    requires chosen == "" ==> current == ""
    ensures Follow(current, param) == chosen
  {
  }

  /** Clearing a filter drops its parameter from the URL, and the resync
      leaves a missing parameter alone, so the screen keeps filtering by the
      year it was told to forget. */
  lemma StaleFilterAfterClearing()
    ensures var s := FilterState("2020", "", "popularity.desc", Int(3));
      var after := ResyncFilters(s, Navigate(FilterTarget("/discover", s, YearFilter, "")), Int(1));
      after.year == "2020" && Chosen(s, YearFilter, "").year == ""
  {
    var s := FilterState("2020", "", "popularity.desc", Int(3));
    var q := Navigate(FilterTarget("/discover", s, YearFilter, ""));
    FilterTargetParams("/discover", s, YearFilter, "");
    assert StringParam(q, "year") == None;
  }

  /** The resync as evidently intended: a parameter that is not a string
      resets the filter to the value the server gives it (empty year and
      genre, "popularity.desc" sort order), as the page already does. */
  function ResyncFiltersIntended(s: FilterState, q: Query, initialPage: Number): (r: FilterState)
    ensures r.currentPage == ResyncPage(StringParam(q, "page"), s.currentPage, initialPage)
  {
    var yearParam := StringParam(q, "year");
    var genreParam := StringParam(q, "genre");
    var sortParam := StringParam(q, "sort_by");
    FilterState(
      if yearParam.Some? then yearParam.value else "",
      if genreParam.Some? then genreParam.value else "",
      if sortParam.Some? then sortParam.value else "popularity.desc",
      ResyncPage(StringParam(q, "page"), s.currentPage, initialPage))
  }

  /** With the intended resync, every filter change, clearing included,
      lands on the chosen filters and page 1 (an empty sort order reads as
      the default one). */
  lemma IntendedFilterChangeRoundTrip(pathname: string, s: FilterState, kind: FilterKind, value: string, initialPage: Number)
    ensures var c := Chosen(s, kind, value);
      ResyncFiltersIntended(s, Navigate(FilterTarget(pathname, s, kind, value)), initialPage)
        == c.(sortBy := if c.sortBy == "" then "popularity.desc" else c.sortBy)
  {
    var q := Navigate(FilterTarget(pathname, s, kind, value));
    FilterTargetParams(pathname, s, kind, value);
    assert StringParam(q, "page") == Some("1");
    ResyncPageOne(s.currentPage, initialPage);
  }

  /** The intended resync agrees with the as-written one whenever every
      filter parameter is a string. */
  lemma IntendedAgreesWhenPresent(s: FilterState, q: Query, initialPage: Number)
    requires StringParam(q, "year").Some? && StringParam(q, "genre").Some? && StringParam(q, "sort_by").Some?
    ensures ResyncFiltersIntended(s, q, initialPage) == ResyncFilters(s, q, initialPage)
  {
  }
}
