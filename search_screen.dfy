/** The search results screen ("/search"): a query and a page that follow
    the URL. */
module SearchScreen {
  import opened Common
  import opened Text
  import opened Router

  datatype SearchState = SearchState(query: string, currentPage: Number)

  /** One run of the resync effect: a string query parameter that differs
      from the state replaces it; the page follows `ResyncPage`. */
  function ResyncSearch(s: SearchState, q: Query, initialPage: Number): (r: SearchState)
    ensures StringParam(q, "query").Some? ==> r.query == StringParam(q, "query").value
    ensures StringParam(q, "query").None? ==> r.query == s.query
    ensures r.currentPage == ResyncPage(StringParam(q, "page"), s.currentPage, initialPage)
  {
    var queryParam := StringParam(q, "query");
    SearchState(
      if queryParam.Some? && queryParam.value != s.query then queryParam.value else s.query,
      ResyncPage(StringParam(q, "page"), s.currentPage, initialPage))
  }

  /** `handlePageChange(page)`: the same query on the requested page. */
  function SearchPageTarget(s: SearchState, page: int): (t: Target)
    ensures t.pathname == "/search" && t.query.Keys == {"query", "page"}
    ensures t.query["query"] == Str(s.query) && t.query["page"] == Num(page)
  {
    Target("/search", map["query" := Str(s.query), "page" := Num(page)])
  }

  /** The search screen, with the initial values from the server-side
      props. */
  class SearchMoviesScreen {
    var initialPage: Number
    var query: string
    var currentPage: Number

    function State(): SearchState
      reads this
    {
      SearchState(query, currentPage)
    }

    constructor(initialQuery: string, initialPage: Number)
      ensures this.initialPage == initialPage
      ensures State() == SearchState(initialQuery, initialPage)
    {
      this.initialPage := initialPage;
      query, currentPage := initialQuery, initialPage;
    }

    /** A navigation within the same route: the screen stays mounted and
      receives the page prop recomputed on the server, while the state
      keeps its values (`useState` ignores a new initial value). */
    method ReceiveProps(page: Number)
      modifies this
      ensures initialPage == page
      ensures State() == old(State())
    {
      initialPage := page;
    }

    /** The resync effect, run once against the current router query and
      the current page prop. */
    method Resync(q: Query)
      modifies this
      ensures initialPage == old(initialPage)
      ensures State() == ResyncSearch(old(State()), q, initialPage)
    {
      var queryParam := StringParam(q, "query");
      var pageParam := StringParam(q, "page");
      if queryParam.Some? && queryParam.value != query {
        query := queryParam.value;
      }
      if pageParam.Some? {
        var parsedPage := ParseInt(pageParam.value);
        if parsedPage != NaN && parsedPage != currentPage {
          currentPage := parsedPage;
        }
      } else if currentPage != initialPage {
        currentPage := initialPage;
      }
    }
  }

  /** A page change keeps the query, even an empty one, and lands on the
      requested page. */
  lemma PageChangeRoundTrip(s: SearchState, page: int, initialPage: Number)
    ensures ResyncSearch(s, Navigate(SearchPageTarget(s, page)), initialPage) == s.(currentPage := Int(page))
  {
    var q := Navigate(SearchPageTarget(s, page));
    assert StringParam(q, "query") == Some(s.query);
    assert StringParam(q, "page") == Some(IntToString(page));
    ResyncPageRoundTrip(page, s.currentPage, initialPage);
  }
}
