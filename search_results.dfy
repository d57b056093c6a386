/** The drop-down under the header's search box: when it is open, what it
    shows, how many results it lists and its "View all" link. */
module SearchResults {
  import opened Common
  import opened Text
  import opened UriEncoding

  /** The fields of a search hit that the drop-down reads. */
  datatype SearchHit = SearchHit(id: int, title: string, releaseDate: Option<string>, posterPath: Option<string>)

  /** One listed result: its link, title, year label and thumbnail, if any. */
  datatype ResultRow = ResultRow(href: string, title: string, yearLabel: string, thumbnail: Option<string>)

  /** The "View all" entry. */
  datatype ViewAll = ViewAll(href: string, text: string)

  datatype Dropdown =
    | Closed
    | Searching
    | NoMovies(message: string)
    | Listed(rows: seq<ResultRow>, viewAll: Option<ViewAll>)

  /** The viewport width below which `useIsMobile` reports a phone. */
  const MobileBreakpoint := 768

  /** `useIsMobile()`: false until the effect has measured the window
      (`measuredWidth` is `None` on the first render), then whether the
      measured width is below the breakpoint. */
  function IsMobile(measuredWidth: Option<int>): (r: bool)
    ensures r ==> measuredWidth.Some?
  {
    measuredWidth.Some? && measuredWidth.value < MobileBreakpoint
  }

  /** How many results the drop-down lists. */
  function ResultLimit(isMobile: bool): (n: nat)
    ensures isMobile ==> n == 3
    ensures !isMobile ==> n == 8
  {
    if isMobile then 3 else 8
  }

  /** `release_date?.substring(0, 4) || "Unknown year"`. */
  function YearLabel(releaseDate: Option<string>): (r: string)
    ensures releaseDate.None? || releaseDate.value == "" ==> r == "Unknown year"
    ensures releaseDate.Some? && releaseDate.value != "" ==>
      |r| == Min(4, |releaseDate.value|) && r == releaseDate.value[..|r|]
  {
    var year := if releaseDate.Some? then Take(releaseDate.value, 4) else "";
    if year != "" then year else "Unknown year"
  }

  /** The 92-pixel poster when the hit has a non-empty poster path. */
  function Thumbnail(posterPath: Option<string>): (r: Option<string>)
    ensures r.Some? <==> posterPath.Some? && posterPath.value != ""
    ensures r.Some? ==> r.value == "https://image.tmdb.org/t/p/w92" + posterPath.value
  {
    if posterPath.Some? && posterPath.value != "" then Some("https://image.tmdb.org/t/p/w92" + posterPath.value) else None
  }

  function Row(hit: SearchHit): ResultRow
  {
    ResultRow("/movie/" + IntToString(hit.id), hit.title, YearLabel(hit.releaseDate), Thumbnail(hit.posterPath))
  }

  /** The link to the full search page for `query`. */
  function ViewAllHref(query: string): string
  {
    "/search?query=" + EncodeUriComponent(query)
  }

  /** "View all N more of M results". */
  function ViewAllText(remaining: int, total: int): string
  {
    "View all " + IntToString(remaining) + " more of " + IntToString(total) + " results"
  }

  /** What the drop-down renders: nothing when closed; otherwise a spinner
      while searching, a message when nothing matched, or the first results
      and, when more matched, the way to all of them. */
  function Render(visible: bool, isLoading: bool, results: seq<SearchHit>, query: string, isMobile: bool): (d: Dropdown)
    ensures d.Closed? <==> !visible
    ensures d.Searching? <==> visible && isLoading
    ensures d.NoMovies? <==> visible && !isLoading && |results| == 0
    ensures d.NoMovies? ==> d.message == "No movies found for \"" + query + "\""
    ensures d.Listed? <==> visible && !isLoading && |results| > 0
    ensures d.Listed? ==>
      var limit := ResultLimit(isMobile);
      && |d.rows| == Min(limit, |results|)
      && (forall i | 0 <= i < |d.rows| :: d.rows[i] == Row(results[i]))
      && (d.viewAll.Some? <==> |results| > limit)
      && (d.viewAll.Some? ==>
            d.viewAll.value == ViewAll(ViewAllHref(query), ViewAllText(|results| - limit, |results|))
            && |d.rows| + (|results| - limit) == |results|)
  {
    if !visible then Closed
    else if isLoading then Searching
    else if |results| == 0 then NoMovies("No movies found for \"" + query + "\"")
    else
      var limit := ResultLimit(isMobile);
      var shown := Take(results, limit);
      var remaining := |results| - limit;
      Listed(seq(|shown|, i requires 0 <= i < |shown| => Row(shown[i])),
             if remaining > 0 then Some(ViewAll(ViewAllHref(query), ViewAllText(remaining, |results|))) else None)
  }

  /** The number of rows follows the viewport: on the first render, before
      the window is measured, up to eight; after that up to three below 768
      pixels and up to eight from 768 on, with "View all" exactly when more
      matched than are listed. */
  lemma RowsByViewport(measuredWidth: Option<int>, results: seq<SearchHit>, query: string)
    requires |results| > 0
    ensures var d := Render(true, false, results, query, IsMobile(measuredWidth));
      var limit := if measuredWidth.Some? && measuredWidth.value < 768 then 3 else 8;
      && d.Listed?
      && |d.rows| == Min(limit, |results|)
      && (d.viewAll.Some? <==> |results| > limit)
    ensures measuredWidth.None? ==> !IsMobile(measuredWidth)
  {
  }

  /** The open-or-closed state of the drop-down. */
  class SearchDropdown {
    var visible: bool

    constructor()
      ensures !visible
    {
      visible := false;
    }

    /** The effect on a change of the query: open exactly when it is longer
        than two characters. */
    method QueryChanged(query: string)
      modifies this
      ensures visible <==> |query| > 2
    {
      visible := |query| > 2;
    }

    /** A mouse press anywhere in the document. A closed drop-down is not
        in the document, so the press changes nothing; an open one closes
        unless the press is inside it. */
    method MouseDown(insideDropdown: bool)
      modifies this
      ensures visible <==> old(visible) && insideDropdown
    {
      if visible && !insideDropdown {
        visible := false;
      }
    }
  }

  /** The "View all" link leads to the search page with exactly the typed
      query as its only parameter, whatever characters it holds. */
  lemma ViewAllQueryArrives(query: string)
    ensures var (path, search) := SplitOnce(ViewAllHref(query), '?');
      && path == "/search"
      && search == Some("query=" + EncodeUriComponent(query))
      && FormParse(search.value) == Some([("query", query)])
  {
    ViewAllLiterals();
    QueryNameUnencoded();
    var path, name := "/search", "query";
    SingleParameterArrives(path, name, query);
    assert ViewAllHref(query) == path + ['?'] + name + "=" + EncodeUriComponent(query);
  }

  lemma ViewAllLiterals()
    ensures "/search?query=" == "/search" + ['?'] + "query" + "="
    ensures "query=" == "query" + "="
    ensures '?' !in "/search"
  {
  }

  lemma QueryNameUnencoded()
    ensures Encode(ComponentSet, "query") == "query"
  {
    EncodeUnreserved(ComponentSet, "query");
  }

  /** A URL with one encoded parameter splits at its "?" into the path and
      a query string that parses back to that parameter. */
  lemma SingleParameterArrives(path: string, name: string, value: string)
    requires '?' !in path
    requires Encode(ComponentSet, name) == name
    ensures var search := name + "=" + EncodeUriComponent(value);
      && SplitOnce(path + ['?'] + name + "=" + EncodeUriComponent(value), '?') == (path, Some(search))
      && FormParse(search) == Some([(name, value)])
  {
    var pair := SerializePair(ComponentSet, (name, value));
    assert pair == name + "=" + EncodeUriComponent(value);
    assert path + ['?'] + name + "=" + EncodeUriComponent(value) == path + ['?'] + pair;
    SplitOnceAt(path, '?', pair);
    assert Serialize(ComponentSet, [(name, value)]) == pair;
    FormParseSerialize(ComponentSet, [(name, value)]);
  }

  /** The year label is never empty, and a full date gives its year. */
  lemma YearLabelOfDate(year: string, rest: string)
    requires |year| == 4
    ensures YearLabel(Some(year + rest)) == year
    ensures YearLabel(None) != ""
  {
    assert (year + rest)[..4] == year;
  }
}
