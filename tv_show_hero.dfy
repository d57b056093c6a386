/** The banner at the top of a TV show's page: its images, air dates,
    episode runtime, season and episode counts, creators and overview. */
module TvShowHero {
  import opened Common
  import opened Text
  import MovieHero

  const BackdropPrefix := "https://image.tmdb.org/t/p/original"
  const PosterPrefix := "https://image.tmdb.org/t/p/w500"

  /** A template literal around a `string | null` path: a null path is
      written as "null". */
  function TemplateUrl(prefix: string, path: Option<string>): (url: string)
    ensures path.Some? ==> url == prefix + path.value
    ensures path.None? ==> url == prefix + "null"
  {
    prefix + if path.Some? then path.value else "null"
  }

  /** The backdrop as written: no fallback for a missing path. */
  function BackdropUrl(backdropPath: Option<string>): string
  {
    TemplateUrl(BackdropPrefix, backdropPath)
  }

  /** The poster as written: no fallback for a missing path. */
  function PosterUrl(posterPath: Option<string>): string
  {
    TemplateUrl(PosterPrefix, posterPath)
  }

  /** A show without a backdrop gets a URL naming a file "null". */
  lemma NullBackdropUrl()
    ensures BackdropUrl(None) == "https://image.tmdb.org/t/p/originalnull"
    ensures PosterUrl(None) == "https://image.tmdb.org/t/p/w500null"
  {
  }

  /** The images with the placeholders the movie banner uses for a missing
      path. */
  function BackdropUrlIntended(backdropPath: Option<string>): (url: string)
    ensures backdropPath.Some? && backdropPath.value != "" ==> url == BackdropUrl(backdropPath)
    ensures backdropPath.None? || backdropPath.value == "" ==> url == MovieHero.PlaceholderBackdrop
  {
    MovieHero.BackdropUrl(backdropPath)
  }

  function PosterUrlIntended(posterPath: Option<string>): (url: string)
    ensures posterPath.Some? && posterPath.value != "" ==> url == PosterUrl(posterPath)
    ensures posterPath.None? || posterPath.value == "" ==> url == MovieHero.PlaceholderPoster
  {
    MovieHero.PosterUrl(posterPath)
  }

  /** With the placeholders, no URL names a file "null" unless the path
      itself says so. */
  lemma IntendedUrlsAvoidNull(path: Option<string>)
    ensures BackdropUrlIntended(path) != BackdropPrefix + "null" || path == Some("null")
    ensures PosterUrlIntended(path) != PosterPrefix + "null" || path == Some("null")
  {
    if path.Some? && path.value != "" {
      assert (BackdropPrefix + path.value)[|BackdropPrefix|..] == path.value;
      assert (BackdropPrefix + "null")[|BackdropPrefix|..] == "null";
      assert (PosterPrefix + path.value)[|PosterPrefix|..] == path.value;
      assert (PosterPrefix + "null")[|PosterPrefix|..] == "null";
    } else {
      assert |MovieHero.PlaceholderBackdrop| != |BackdropPrefix + "null"|;
      assert |MovieHero.PlaceholderPoster| != |PosterPrefix + "null"|;
    }
  }

  /** `Math.min(...xs)`. */
  function Smallest(xs: seq<int>): (m: int)
    requires |xs| > 0
    ensures m in xs
    ensures forall i | 0 <= i < |xs| :: m <= xs[i]
  {
    if |xs| == 1 then xs[0] else Min(xs[0], Smallest(xs[1..]))
  }

  /** `Math.max(...xs)`. */
  function Largest(xs: seq<int>): (m: int)
    requires |xs| > 0
    ensures m in xs
    ensures forall i | 0 <= i < |xs| :: xs[i] <= m
  {
    if |xs| == 1 then xs[0] else Max(xs[0], Largest(xs[1..]))
  }

  /** `formatRuntime` of the episode run times: "N/A" for none, "n min" for
      one, "min-max min" for several. */
  function FormatRuntime(minutes: Option<seq<int>>): (r: string)
    ensures minutes.None? || |minutes.value| == 0 ==> r == "N/A"
    ensures minutes.Some? && |minutes.value| == 1 ==> r == IntToString(minutes.value[0]) + " min"
    ensures minutes.Some? && |minutes.value| > 1 ==>
      exists lo, hi | lo in minutes.value && hi in minutes.value ::
        && (forall i | 0 <= i < |minutes.value| :: lo <= minutes.value[i] <= hi)
        && r == IntToString(lo) + "-" + IntToString(hi) + " min"
  {
    if minutes.None? || |minutes.value| == 0 then "N/A"
    else if |minutes.value| == 1 then IntToString(minutes.value[0]) + " min"
    else IntToString(Smallest(minutes.value)) + "-" + IntToString(Largest(minutes.value)) + " min"
  }

  /** The range shows its smaller end first. */
  lemma RuntimeRangeOrdered(minutes: seq<int>)
    requires |minutes| > 1
    ensures Smallest(minutes) <= Largest(minutes)
    ensures FormatRuntime(Some(minutes)) == IntToString(Smallest(minutes)) + "-" + IntToString(Largest(minutes)) + " min"
  {
    assert Smallest(minutes) <= minutes[0] <= Largest(minutes);
  }

  /** The creators: names joined with ", ", or "N/A" when that is empty. */
  function Creators(createdBy: Option<seq<string>>): (r: string)
    ensures r != ""
    ensures createdBy.None? || createdBy.value == [] ==> r == "N/A"
    ensures createdBy.Some? && Join(createdBy.value, ", ") != "" ==> r == Join(createdBy.value, ", ")
  {
    var joined := if createdBy.Some? then Join(createdBy.value, ", ") else "";
    if joined != "" then joined else "N/A"
  }

  /** The fallback is used exactly when there are no creators or a single
      one without a name. */
  lemma CreatorsFallback(names: seq<string>)
    ensures Creators(Some(names)) == "N/A" <==> names == [] || names == [""] || Join(names, ", ") == "N/A"
  {
    JoinEmpty(names, ", ");
  }

  /** The overview, or its fallback when missing or empty. */
  function Overview(overview: Option<string>): (r: string)
    ensures r != ""
    ensures overview.Some? && overview.value != "" ==> r == overview.value
    ensures overview.None? || overview.value == "" ==> r == "No overview available."
  {
    if overview.Some? && overview.value != "" then overview.value else "No overview available."
  }

  /** The air-date badge, given the date formatter: the first air date, and
      " - " with the last one when it is present and differs. */
  function AirDates(first: Option<string>, last: Option<string>, format: string -> string): (r: Option<string>)
    ensures r.Some? <==> first.Some? && first.value != ""
    ensures r.Some? && last.Some? && last.value != "" && last.value != first.value ==>
      r.value == format(first.value) + " - " + format(last.value)
    ensures r.Some? && (last.None? || last.value == "" || last.value == first.value) ==>
      r.value == format(first.value)
  {
    if first.Some? && first.value != "" then
      Some(format(first.value) + if last.Some? && last.value != "" && last.value != first.value then " - " + format(last.value) else "")
    else None
  }

  /** What `{count && <span>…</span>}` puts into the page. */
  datatype Rendered = Nothing | StrayText(text: string) | Badge(text: string)

  /** "1 Season", "2 Seasons". */
  function CountText(count: nat, singular: string, plural: string): string
  {
    IntToString(count) + " " + if count == 1 then singular else plural
  }

  /** The season or episode badge as written: a count of 0 is falsy and
      short-circuits `&&`, and React renders that 0 as text. */
  function CountBadge(count: nat, singular: string, plural: string): (r: Rendered)
    ensures r.Badge? <==> count != 0
    ensures r.Badge? ==> r.text == CountText(count, singular, plural)
    ensures !r.Badge? ==> r == StrayText("0")
  {
    if count == 0 then StrayText(IntToString(0)) else Badge(CountText(count, singular, plural))
  }

  /** A show with no episodes yet leaves a bare "0" in the metadata row. */
  lemma ZeroCountRendersZero()
    ensures CountBadge(0, "Season", "Seasons") == StrayText("0")
    ensures CountBadge(0, "Episode", "Episodes") == StrayText("0")
  {
  }

  /** The badge with the zero case hidden. */
  function CountBadgeIntended(count: nat, singular: string, plural: string): (r: Rendered)
    ensures !r.StrayText?
    ensures r.Badge? <==> count != 0
    ensures r.Badge? ==> r.text == CountText(count, singular, plural)
  {
    if count == 0 then Nothing else Badge(CountText(count, singular, plural))
  }

  /** The label is singular exactly for a count of 1, and the badge leads
      with the count itself. */
  lemma CountBadgeWording(count: nat, singular: string, plural: string)
    requires count != 0 && singular != plural
    ensures var t := CountBadgeIntended(count, singular, plural).text;
      && ParseInt(t) == Int(count)
      && (t[|IntToString(count)|..] == " " + singular <==> count == 1)
  {
    var digits := IntToString(count);
    var word := if count == 1 then singular else plural;
    var t := digits + " " + word;
    assert t == digits + (" " + word);
    assert t[|digits|..] == " " + word;
    CountReadsBack(count, " " + word);
    if count != 1 {
      assert (" " + plural)[1..] == plural;
      assert (" " + singular)[1..] == singular;
    }
  }

  /** `parseInt` reads a count followed by a space-led label. */
  lemma CountReadsBack(count: nat, suffix: string)
    requires |suffix| > 0 && suffix[0] == ' '
    ensures ParseInt(IntToString(count) + suffix) == Int(count)
  {
    ParseIntReadsLeadingNumber(count, suffix);
  }
}
