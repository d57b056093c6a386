/** The movie and TV-show detail screens: which of loading, error,
    not-found or content is rendered, the error text, and which sections of
    the content appear. */
module DetailScreens {
  import opened Common

  /** What the detail query reports: still loading, failed (with the error's
      message, if it has one), or its data, if any. */
  datatype DetailsQuery<T> = DetailsQuery(isLoading: bool, isError: bool, errorMessage: Option<string>, data: Option<T>)

  /** What the credits query reports: the number of cast and crew entries
      when data has arrived. */
  datatype CreditsQuery = CreditsQuery(isLoading: bool, counts: Option<(nat, nat)>)

  /** What the similar-titles query reports: the number of results when
      data has arrived. */
  datatype SimilarQuery = SimilarQuery(isLoading: bool, count: Option<nat>)

  /** A section of the content: not rendered, a spinner, or rendered. */
  datatype Section = Hidden | SectionSpinner | Shown

  datatype DetailView<T> =
    | Loading
    | Failed(title: string, message: string)
    | NotFound(text: string)
    | Content(item: T, cast: Section, crew: Section, similar: Section)

  /** The wording of one screen. */
  datatype Wording = Wording(errorTitle: string, fallbackMessage: string, notFound: string)

  const MovieWording := Wording("Error Loading Movie", "Failed to load movie details", "Movie not found")
  const TvShowWording := Wording("Error Loading TV Show", "Failed to load TV show details", "TV Show not found")

  /** The cast section: a spinner while the credits load, then the cast
      when there is any. */
  function CastSection(credits: CreditsQuery): Section
  {
    if credits.isLoading then SectionSpinner
    else if credits.counts.Some? && credits.counts.value.0 > 0 then Shown
    else Hidden
  }

  /** The crew section: nothing while the credits load, then the crew when
      there is any. */
  function CrewSection(credits: CreditsQuery): Section
  {
    if credits.isLoading then Hidden
    else if credits.counts.Some? && credits.counts.value.1 > 0 then Shown
    else Hidden
  }

  /** The similar section: a spinner while loading, then the results when
      there are any. */
  function SimilarSection(similar: SimilarQuery): Section
  {
    if similar.isLoading then SectionSpinner
    else if similar.count.Some? && similar.count.value > 0 then Shown
    else Hidden
  }

  /** The early returns of a detail screen, then its content. */
  function DetailScreen<T>(w: Wording, details: DetailsQuery<T>, credits: CreditsQuery, similar: SimilarQuery): (v: DetailView<T>)
    ensures v.Loading? <==> details.isLoading
    ensures v.Failed? <==> !details.isLoading && details.isError
    ensures v.NotFound? <==> !details.isLoading && !details.isError && details.data.None?
    ensures v.Content? <==> !details.isLoading && !details.isError && details.data.Some?
    ensures v.Failed? ==> v.title == w.errorTitle && v.message == StringOrElse(details.errorMessage, w.fallbackMessage)
    ensures v.NotFound? ==> v.text == w.notFound
    ensures v.Content? ==> v.item == details.data.value
  {
    if details.isLoading then Loading
    else if details.isError then Failed(w.errorTitle, StringOrElse(details.errorMessage, w.fallbackMessage))
    else if details.data.None? then NotFound(w.notFound)
    else Content(details.data.value, CastSection(credits), CrewSection(credits), SimilarSection(similar))
  }

  /** `MovieDetailScreen`. */
  function MovieDetailScreen<T>(details: DetailsQuery<T>, credits: CreditsQuery, similar: SimilarQuery): DetailView<T>
  {
    DetailScreen(MovieWording, details, credits, similar)
  }

  /** `TVShowDetailScreen`. */
  function TvShowDetailScreen<T>(details: DetailsQuery<T>, credits: CreditsQuery, similar: SimilarQuery): DetailView<T>
  {
    DetailScreen(TvShowWording, details, credits, similar)
  }

  /** Loading the details hides everything else, whatever the other queries
      report; an error comes next and is never empty-worded. */
  lemma LoadingFirst<T>(details: DetailsQuery<T>, credits: CreditsQuery, similar: SimilarQuery)
    ensures details.isLoading ==> MovieDetailScreen(details, credits, similar) == Loading
    ensures details.isLoading ==> TvShowDetailScreen(details, credits, similar) == Loading
    ensures !details.isLoading && details.isError ==>
      MovieDetailScreen(details, credits, similar).message != "" &&
      TvShowDetailScreen(details, credits, similar).message != ""
  {
  }

  /** An error without a message shows the screen's fallback text. */
  lemma ErrorFallback<T>(data: Option<T>, credits: CreditsQuery, similar: SimilarQuery)
    ensures MovieDetailScreen(DetailsQuery(false, true, None, data), credits, similar)
         == Failed("Error Loading Movie", "Failed to load movie details")
    ensures TvShowDetailScreen(DetailsQuery(false, true, Some(""), data), credits, similar)
         == Failed("Error Loading TV Show", "Failed to load TV show details")
  {
  }

  /** The sections of the content: cast and crew appear only once the
      credits are loaded and non-empty, the similar titles only once loaded
      and non-empty; only the cast and similar sections show a spinner. */
  lemma SectionsGated<T>(w: Wording, details: DetailsQuery<T>, credits: CreditsQuery, similar: SimilarQuery)
    requires DetailScreen(w, details, credits, similar).Content?
    ensures var v := DetailScreen(w, details, credits, similar);
      && (v.cast == Shown <==> !credits.isLoading && credits.counts.Some? && credits.counts.value.0 > 0)
      && (v.cast == SectionSpinner <==> credits.isLoading)
      && (v.crew == Shown <==> !credits.isLoading && credits.counts.Some? && credits.counts.value.1 > 0)
      && v.crew != SectionSpinner
      && (v.similar == Shown <==> !similar.isLoading && similar.count.Some? && similar.count.value > 0)
      && (v.similar == SectionSpinner <==> similar.isLoading)
  {
  }
}
