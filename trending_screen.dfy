/** The trending movies screen ("/trending"): a time window ("day" or
    "week") and a page that follow the URL. */
module TrendingScreen {
  import opened Common
  import opened Text
  import opened Router

  /** The time windows the screen accepts. */
  predicate IsTimeWindow(s: string)
  {
    s == "day" || s == "week"
  }

  datatype TrendingState = TrendingState(timeWindow: string, currentPage: Number)

  /** One run of the resync effect: a string time parameter is adopted only
      when it is "day" or "week" and differs from the state; the page
      follows `ResyncPage`. */
  function ResyncTrending(s: TrendingState, q: Query, initialPage: Number): (r: TrendingState)
    ensures r.timeWindow != s.timeWindow ==>
      StringParam(q, "time") == Some(r.timeWindow) && IsTimeWindow(r.timeWindow)
    ensures StringParam(q, "time").Some? && IsTimeWindow(StringParam(q, "time").value) ==>
      r.timeWindow == StringParam(q, "time").value
    ensures r.currentPage == ResyncPage(StringParam(q, "page"), s.currentPage, initialPage)
  {
    var timeParam := StringParam(q, "time");
    TrendingState(
      if timeParam.Some? && IsTimeWindow(timeParam.value) && timeParam.value != s.timeWindow
      then timeParam.value else s.timeWindow,
      ResyncPage(StringParam(q, "page"), s.currentPage, initialPage))
  }

  /** `handleTimeWindowChange`: the selected window on page 1. */
  function TimeWindowTarget(newTimeWindow: string): (t: Target)
    ensures t.pathname == "/trending" && t.query.Keys == {"time", "page"}
    ensures t.query["time"] == Str(newTimeWindow) && t.query["page"] == Num(1)
  {
    Target("/trending", map["time" := Str(newTimeWindow), "page" := Num(1)])
  }

  /** `handlePageChange(page)`: the current window on the requested page. */
  function TrendingPageTarget(s: TrendingState, page: int): (t: Target)
    ensures t.pathname == "/trending" && t.query.Keys == {"time", "page"}
    ensures t.query["time"] == Str(s.timeWindow) && t.query["page"] == Num(page)
  {
    Target("/trending", map["time" := Str(s.timeWindow), "page" := Num(page)])
  }

  /** The end of the subtitle. */
  function TimeLabel(timeWindow: string): (r: string)
    ensures r == "today" || r == "this week"
    ensures r == "today" <==> timeWindow == "day"
  {
    if timeWindow == "day" then "today" else "this week"
  }

  /** The subtitle: "Popular movies trending today" or "… this week". */
  function Subtitle(timeWindow: string): string
  {
    "Popular movies trending " + TimeLabel(timeWindow)
  }

  /** The trending screen, with the initial values from the server-side
      props. */
  class TrendingMoviesScreen {
    var initialPage: Number
    var timeWindow: string
    var currentPage: Number

    function State(): TrendingState
      reads this
    {
      TrendingState(timeWindow, currentPage)
    }

    constructor(initialTimeWindow: string, initialPage: Number)
      ensures this.initialPage == initialPage
      ensures State() == TrendingState(initialTimeWindow, initialPage)
    {
      this.initialPage := initialPage;
      timeWindow, currentPage := initialTimeWindow, initialPage;
    }

    /** A navigation within the same route: the screen stays mounted and
      receives the page prop recomputed on the server, while the state
      keeps its values (`useState` ignores a new initial value). */
    method ReceiveProps(page: Number)
      modifies this
      ensures initialPage == page
      ensures State() == old(State())
    {
      initialPage := page;
    }

    /** The resync effect, run once against the current router query and
      the current page prop. */
    method Resync(q: Query)
      modifies this
      ensures initialPage == old(initialPage)
      ensures State() == ResyncTrending(old(State()), q, initialPage)
    {
      var timeParam := StringParam(q, "time");
      var pageParam := StringParam(q, "page");
      if timeParam.Some? && (timeParam.value == "day" || timeParam.value == "week") && timeParam.value != timeWindow {
        timeWindow := timeParam.value;
      }
      if pageParam.Some? {
        var parsedPage := ParseInt(pageParam.value);
        if parsedPage != NaN && parsedPage != currentPage {
          currentPage := parsedPage;
        }
      } else if currentPage != initialPage {
        currentPage := initialPage;
      }
    }
  }

  /** The resync never leaves an accepted time window: once the window is
      "day" or "week", it stays one of them whatever the URL says. */
  lemma ResyncKeepsTimeWindow(s: TrendingState, q: Query, initialPage: Number)
    requires IsTimeWindow(s.timeWindow)
    ensures IsTimeWindow(ResyncTrending(s, q, initialPage).timeWindow)
  {
  }

  /** Choosing a window lands on that window and page 1; an unknown window
      in the URL is ignored. */
  lemma TimeWindowChangeRoundTrip(s: TrendingState, newTimeWindow: string, initialPage: Number)
    ensures var r := ResyncTrending(s, Navigate(TimeWindowTarget(newTimeWindow)), initialPage);
      && r.currentPage == Int(1)
      && r.timeWindow == if IsTimeWindow(newTimeWindow) then newTimeWindow else s.timeWindow
  {
    var q := Navigate(TimeWindowTarget(newTimeWindow));
    assert StringParam(q, "time") == Some(newTimeWindow);
    assert StringParam(q, "page") == Some(IntToString(1));
    ResyncPageRoundTrip(1, s.currentPage, initialPage);
  }

  /** A page change keeps the window and lands on the requested page. */
  lemma PageChangeRoundTrip(s: TrendingState, page: int, initialPage: Number)
    ensures ResyncTrending(s, Navigate(TrendingPageTarget(s, page)), initialPage) == s.(currentPage := Int(page))
  {
    var q := Navigate(TrendingPageTarget(s, page));
    assert StringParam(q, "page") == Some(IntToString(page));
    ResyncPageRoundTrip(page, s.currentPage, initialPage);
  }
}
