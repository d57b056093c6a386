/** The router as the screens see it: the parsed query of the current URL,
    the targets handed to `router.push`, and the query a pushed target
    produces. Rendering the URL itself and the navigation are left to the
    router. */
module Router {
  import opened Common
  import opened Text

  /** A query parameter occurs once (a string) or several times (an array). */
  datatype QueryValue = One(s: string) | Many(values: seq<string>)

  /** `router.query`: each parameter name with its value. */
  type Query = map<string, QueryValue>

  /** The parameter when it is a string (`typeof q[name] === "string"`). */
  function StringParam(q: Query, name: string): (r: Option<string>)
    ensures r.Some? <==> name in q && q[name].One?
    ensures r.Some? ==> q[name] == One(r.value)
  {
    if name in q && q[name].One? then Some(q[name].s) else None
  }

  /** A value in a pushed query: a string, or a number the router prints. */
  datatype PushValue = Str(s: string) | Num(n: int)

  /** The `{ pathname, query }` object passed to `router.push`. */
  datatype Target = Target(pathname: string, query: map<string, PushValue>)

  function Render(v: PushValue): string
  {
    match v
    case Str(s) => s
    case Num(n) => IntToString(n)
  }

  /** The query the router reports once it has navigated to `t`: every
      pushed parameter, printed, as a single string. */
  function Navigate(t: Target): (q: Query)
    ensures forall name :: StringParam(q, name) == if name in t.query then Some(Render(t.query[name])) else None
  {
    map name | name in t.query :: One(Render(t.query[name]))
  }

  /** The page step every list screen's resync effect performs: a page
      parameter that `parseInt` reads replaces the current page, one it
      cannot read is ignored, and a missing one restores the initial page. */
  function ResyncPage(pageParam: Option<string>, currentPage: Number, initialPage: Number): Number
  {
    if pageParam.Some? then
      var parsed := ParseInt(pageParam.value);
      if parsed != NaN && parsed != currentPage then parsed else currentPage
    else if currentPage != initialPage then initialPage
    else currentPage
  }

  /** A page the router prints is read back exactly, whatever the state. */
  lemma ResyncPageRoundTrip(n: int, currentPage: Number, initialPage: Number)
    ensures ResyncPage(Some(IntToString(n)), currentPage, initialPage) == Int(n)
  {
    ParseIntOfIntToString(n);
  }

  /** A page parameter without digits leaves the page alone, and a missing
      one restores the initial page. */
  lemma ResyncPageFallbacks(pageParam: Option<string>, currentPage: Number, initialPage: Number)
    ensures pageParam.Some? && (forall i | 0 <= i < |pageParam.value| :: !IsDigit(pageParam.value[i])) ==>
      ResyncPage(pageParam, currentPage, initialPage) == currentPage
    ensures pageParam.None? ==> ResyncPage(pageParam, currentPage, initialPage) == initialPage
  {
    if pageParam.Some? && (forall i | 0 <= i < |pageParam.value| :: !IsDigit(pageParam.value[i])) {
      ParseIntWithoutDigits(pageParam.value);
    }
  }

  /** Resynchronising twice with the same query changes nothing more: the
      effect settles after one run. */
  lemma ResyncPageSettles(pageParam: Option<string>, currentPage: Number, initialPage: Number)
    ensures var p := ResyncPage(pageParam, currentPage, initialPage);
      ResyncPage(pageParam, p, initialPage) == p
  {
  }
}
