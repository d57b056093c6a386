/** What the list screens (discover, TV shows, trending, search) decide
    from a query result: which view to render, how many pages to offer and
    whether to show the pagination. */
module Listing {
  import opened Common

  /** The four views of a result list. */
  datatype ListView = Spinner | ErrorMessage | EmptyMessage | Grid

  /** `isLoading ? … : error ? … : items.length === 0 ? … : grid`. */
  function ChooseView(isLoading: bool, hasError: bool, count: nat): (v: ListView)
    ensures v == Spinner <==> isLoading
    ensures v == ErrorMessage <==> !isLoading && hasError
    ensures v == EmptyMessage <==> !isLoading && !hasError && count == 0
    ensures v == Grid <==> !isLoading && !hasError && count > 0
  {
    if isLoading then Spinner
    else if hasError then ErrorMessage
    else if count == 0 then EmptyMessage
    else Grid
  }

  /** The page limit of the API. */
  const MaxPages: nat := 500

  /** `data?.total_pages || 0`: no data means no pages. */
  function TotalPages(totalPages: Option<nat>): (r: nat)
    ensures totalPages.None? ==> r == 0
    ensures totalPages.Some? ==> r == totalPages.value
  {
    if totalPages.Some? then totalPages.value else 0
  }

  /** `Math.min(data?.total_pages || 0, 500)`. */
  function CappedTotalPages(totalPages: Option<nat>): (r: nat)
    ensures r <= MaxPages && r <= TotalPages(totalPages)
    ensures r == TotalPages(totalPages) || r == MaxPages
  {
    Min(TotalPages(totalPages), MaxPages)
  }

  /** `!isLoading && totalPages > 0`. */
  predicate ShowPagination(isLoading: bool, totalPages: nat)
  {
    !isLoading && totalPages > 0
  }

  /** The pagination of a capped screen never offers more than 500 pages,
      offers all of them below that, and is hidden while loading or when
      there are none. */
  lemma CappedPagination(isLoading: bool, totalPages: Option<nat>)
    ensures ShowPagination(isLoading, CappedTotalPages(totalPages)) <==>
      !isLoading && totalPages.Some? && totalPages.value > 0
    ensures TotalPages(totalPages) <= MaxPages ==> CappedTotalPages(totalPages) == TotalPages(totalPages)
    ensures TotalPages(totalPages) > MaxPages ==> CappedTotalPages(totalPages) == MaxPages
  {
  }

  /** Whenever there are movies to show, the pagination is shown too: a
      grid implies at least one page, provided the count and the page
      total agree on emptiness. */
  lemma GridHasPagination(isLoading: bool, hasError: bool, count: nat, totalPages: Option<nat>)
    requires count > 0 <==> TotalPages(totalPages) > 0
    ensures ChooseView(isLoading, hasError, count) == Grid ==> ShowPagination(isLoading, CappedTotalPages(totalPages))
    ensures ChooseView(isLoading, hasError, count) == Spinner ==> !ShowPagination(isLoading, CappedTotalPages(totalPages))
  {
  }
}
