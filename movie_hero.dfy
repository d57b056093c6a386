/** The banner at the top of a movie's page: its images, its runtime, genres
    and tagline. */
module MovieHero {
  import opened Common
  import opened Text

  const BackdropPrefix := "https://image.tmdb.org/t/p/original"
  const PosterPrefix := "https://image.tmdb.org/t/p/w500"
  const PlaceholderBackdrop := "/images/placeholder-backdrop.jpg"
  const PlaceholderPoster := "/images/placeholder-poster.jpg"

  /** An image URL: the prefix and the path when the path is a non-empty
      string, the placeholder otherwise. */
  function ImageUrl(prefix: string, path: Option<string>, placeholder: string): (url: string)
    ensures path.Some? && path.value != "" ==> url == prefix + path.value
    ensures path.None? || path.value == "" ==> url == placeholder
  {
    if path.Some? && path.value != "" then prefix + path.value else placeholder
  }

  function BackdropUrl(backdropPath: Option<string>): string
  {
    ImageUrl(BackdropPrefix, backdropPath, PlaceholderBackdrop)
  }

  function PosterUrl(posterPath: Option<string>): string
  {
    ImageUrl(PosterPrefix, posterPath, PlaceholderPoster)
  }

  /** `formatRuntime`: whole hours and the remaining minutes, "2h 0m". */
  function FormatRuntime(minutes: nat): string
  {
    IntToString(minutes / 60) + "h " + IntToString(minutes % 60) + "m"
  }

  /** The runtime badge: only for a positive runtime. */
  function RuntimeText(runtime: int): (r: Option<string>)
    ensures r.Some? <==> runtime > 0
    ensures r.Some? ==> r.value == FormatRuntime(runtime)
  {
    if runtime > 0 then Some(FormatRuntime(runtime)) else None
  }

  /** The genre line: the names joined with ", ", only when there is at
      least one genre. */
  function GenreLine(genreNames: Option<seq<string>>): (r: Option<string>)
    ensures r.Some? <==> genreNames.Some? && |genreNames.value| > 0
    ensures r.Some? ==> r.value == Join(genreNames.value, ", ")
  {
    if genreNames.Some? && |genreNames.value| > 0 then Some(Join(genreNames.value, ", ")) else None
  }

  /** The tagline paragraph: only for a non-empty tagline. */
  function TaglineLine(tagline: Option<string>): (r: Option<string>)
    ensures r.Some? <==> tagline.Some? && tagline.value != ""
    ensures r.Some? ==> r.value == tagline.value
  {
    if tagline.Some? && tagline.value != "" then tagline else None
  }

  /** Both numbers of an "<h>h <m>m" text are read back by `parseInt`. */
  lemma HoursMinutesReadBack(hours: nat, mins: nat)
    ensures var r := IntToString(hours) + "h " + IntToString(mins) + "m";
      && ParseInt(r) == Int(hours)
      && ParseInt(r[|IntToString(hours)| + 2..]) == Int(mins)
  {
    var a, b := IntToString(hours), IntToString(mins) + "m";
    var r := a + "h " + IntToString(mins) + "m";
    assert r == a + "h " + b;
    assert r == NatToString(hours) + ("h " + b);
    ParseIntReadsLeadingNumber(hours, "h " + b);
    DropPrefix(a, "h ", b);
    ParseIntReadsLeadingNumber(mins, "m");
  }

  lemma DropPrefix(a: string, mid: string, b: string)
    ensures (a + mid + b)[|a| + |mid|..] == b
  {
  }

  /** The runtime text reads back as the runtime: the number before "h " is
      the whole hours, the number after it the minutes, and together they
      make up the runtime with fewer than sixty minutes left over. */
  lemma RuntimeReadsBack(minutes: nat)
    ensures var r := FormatRuntime(minutes);
      var hours := minutes / 60;
      && ParseInt(r) == Int(hours)
      && ParseInt(r[|IntToString(hours)| + 2..]) == Int(minutes % 60)
      && 60 * hours + minutes % 60 == minutes
      && minutes % 60 < 60
  {
    HoursMinutesReadBack(minutes / 60, minutes % 60);
  }

  /** The images fall back on their own placeholders, never on each
      other's, and a present path is used as given. */
  lemma ImageFallbacks(path: string)
    ensures BackdropUrl(None) == PlaceholderBackdrop && PosterUrl(None) == PlaceholderPoster
    ensures BackdropUrl(Some("")) != PosterUrl(Some(""))
    ensures path != "" ==> BackdropUrl(Some(path))[|BackdropPrefix|..] == path
    ensures path != "" ==> PosterUrl(Some(path))[|PosterPrefix|..] == path
  {
    assert PlaceholderBackdrop[20] != PlaceholderPoster[20];
  }
}
