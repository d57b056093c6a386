/** The hero carousel of the home screen: an index into its slides that the
    arrows, the dots and a five-second timer move, wrapping at both ends. */
module HeroCarousel {
  import opened Common
  import opened Text

  /** The interval between two automatic steps, in milliseconds. */
  const TickInterval := 5000

  /** `handleNext` (and the timer): from the last slide back to the first,
      otherwise one forward. */
  function NextIndex(i: int, count: nat): (j: int)
    ensures 0 <= i < count ==> 0 <= j < count
    ensures 0 <= i < count - 1 ==> j == i + 1
    ensures i == count - 1 ==> j == 0
  {
    if i == count - 1 then 0 else i + 1
  }

  /** `handlePrev`: from the first slide to the last, otherwise one back. */
  function PrevIndex(i: int, count: nat): (j: int)
    ensures 0 <= i < count ==> 0 <= j < count
    ensures 0 < i ==> j == i - 1
    ensures i == 0 ==> j == count - 1
  {
    if i == 0 then count - 1 else i - 1
  }

  /** The index after `k` steps of `NextIndex`. */
  function AdvanceBy(i: int, count: nat, k: nat): int
  {
    if k == 0 then i else NextIndex(AdvanceBy(i, count, k - 1), count)
  }

  /** For each dot, whether it is the highlighted (wide, red) one. */
  function Dots(count: nat, currentIndex: int): (dots: seq<bool>)
    ensures |dots| == count
    ensures forall index | 0 <= index < count :: dots[index] <==> index == currentIndex
  {
    seq(count, index => index == currentIndex)
  }

  /** The accessible name of the dot at `index`, counted from 1. */
  function DotLabel(index: nat): (r: string)
    ensures r == "Go to slide " + IntToString(index + 1)
    ensures ParseInt(r[|"Go to slide "|..]) == Int(index + 1)
  {
    ParseIntOfIntToString(index + 1);
    var r := "Go to slide " + IntToString(index + 1);
    assert r[|"Go to slide "|..] == IntToString(index + 1);
    r
  }

  /** The "View Details" link of a slide: the movie page, whose last
      segment reads back as the slide's movie id. */
  function SlideHref(id: int): (r: string)
    ensures |r| > |"/movie/"| && r[..|"/movie/"|] == "/movie/"
    ensures ParseInt(r[|"/movie/"|..]) == Int(id)
  {
    ParseIntOfIntToString(id);
    var r := "/movie/" + IntToString(id);
    assert r[|"/movie/"|..] == IntToString(id);
    r
  }

  /** The fields of a trending movie the carousel reads. */
  datatype HeroMovie = HeroMovie(id: int, title: string, overview: string, backdropPath: string, releaseDate: string)

  /** `trendingData?.results?.slice(0, 5) || []`: the first five trending
      movies, and the empty list while nothing has been fetched. */
  function HeroMovies(results: Option<seq<HeroMovie>>): (movies: seq<HeroMovie>)
    ensures results.None? ==> movies == []
    ensures results.Some? ==> |movies| == Min(5, |results.value|) && movies == results.value[..|movies|]
  {
    if results.Some? then Take(results.value, 5) else []
  }

  /** What the carousel's slide shows: a movie, nothing, or a render that
      throws. */
  datatype SlideView = Shown(movie: HeroMovie) | Hidden | Crashed

  /** The slide as written: `movies[currentIndex]` is `undefined` outside
      the list, and reading `backdropPath` from it throws a `TypeError`. */
  function CurrentSlide(movies: seq<HeroMovie>, currentIndex: int): (r: SlideView)
    ensures r.Crashed? <==> !(0 <= currentIndex < |movies|)
    ensures r.Shown? ==> 0 <= currentIndex < |movies| && r.movie == movies[currentIndex]
    ensures !r.Hidden?
  {
    if 0 <= currentIndex < |movies| then Shown(movies[currentIndex]) else Crashed
  }

  /** The home screens pass the empty list while the trending movies load
      (and after a failed fetch), and the carousel then throws on its first
      render. */
  lemma EmptyListCrashes(currentIndex: int)
    ensures HeroMovies(None) == []
    ensures CurrentSlide(HeroMovies(None), currentIndex) == Crashed
  {
  }

  /** The slide with a guard for a missing movie: nothing is rendered
      instead of throwing. */
  function IntendedSlide(movies: seq<HeroMovie>, currentIndex: int): SlideView
  {
    if 0 <= currentIndex < |movies| then Shown(movies[currentIndex]) else Hidden
  }

  /** The guarded slide never throws, renders nothing exactly when there is
      no movie at the index, and otherwise agrees with the slide as
      written. */
  lemma IntendedSlideNeverCrashes(movies: seq<HeroMovie>, currentIndex: int)
    ensures !IntendedSlide(movies, currentIndex).Crashed?
    ensures IntendedSlide(movies, currentIndex).Hidden? <==> !(0 <= currentIndex < |movies|)
    ensures !CurrentSlide(movies, currentIndex).Crashed? ==> IntendedSlide(movies, currentIndex) == CurrentSlide(movies, currentIndex)
    ensures |movies| == 0 ==> IntendedSlide(movies, currentIndex) == Hidden
  {
  }

  /** The carousel over `count` slides. It starts on the first slide; with
      no slides there is no valid index, and the render throws (see
      `CurrentSlide`) before any button or timer exists. */
  class Carousel {
    const count: nat
    var currentIndex: int

    predicate Valid()
      reads this
    {
      0 <= currentIndex < count
    }

    constructor(count: nat)
      ensures this.count == count && currentIndex == 0
      ensures Valid() <==> count > 0
    {
      this.count := count;
      currentIndex := 0;
    }

    method Next()
      requires Valid()
      modifies this
      ensures Valid()
      ensures currentIndex == NextIndex(old(currentIndex), count)
    {
      if currentIndex == count - 1 {
        currentIndex := 0;
      } else {
        currentIndex := currentIndex + 1;
      }
    }

    method Prev()
      requires Valid()
      modifies this
      ensures Valid()
      ensures currentIndex == PrevIndex(old(currentIndex), count)
    {
      if currentIndex == 0 {
        currentIndex := count - 1;
      } else {
        currentIndex := currentIndex - 1;
      }
    }

    /** A click on the dot at `index`; dots exist only for the slides. */
    method Select(index: nat)
      requires Valid() && index < count
      modifies this
      ensures Valid()
      ensures currentIndex == index
      ensures Dots(count, currentIndex)[index]
    {
      currentIndex := index;
    }

    /** The interval callback: the same step as `Next`. */
    method Tick()
      requires Valid()
      modifies this
      ensures Valid()
      ensures currentIndex == NextIndex(old(currentIndex), count)
    {
      Next();
    }
  }

  /** Back after forward, and forward after back, return to the start. */
  lemma PrevUndoesNext(i: int, count: nat)
    requires 0 <= i < count
    ensures PrevIndex(NextIndex(i, count), count) == i
    ensures NextIndex(PrevIndex(i, count), count) == i
  {
  }

  /** Short of the last slide, `k` steps forward add `k`. */
  lemma {:induction false} AdvanceWithin(i: int, count: nat, k: nat)
    requires 0 <= i && i + k < count
    ensures AdvanceBy(i, count, k) == i + k
  {
    if k > 0 {
      AdvanceWithin(i, count, k - 1);
    }
  }

  /** Steps forward compose: `a` steps, then `b` more, are `a + b` steps. */
  lemma {:induction false} AdvanceCompose(i: int, count: nat, a: nat, b: nat)
    ensures AdvanceBy(i, count, a + b) == AdvanceBy(AdvanceBy(i, count, a), count, b)
  {
    if b > 0 {
      AdvanceCompose(i, count, a, b - 1);
      assert AdvanceBy(i, count, a + b) == NextIndex(AdvanceBy(i, count, a + b - 1), count);
    }
  }

  /** The number of forward steps from slide `i` to slide `target`. */
  function Distance(i: int, target: int, count: nat): (k: nat)
    requires 0 <= i < count && 0 <= target < count
    ensures k < count
  {
    if i <= target then target - i else count - i + target
  }

  /** The timer comes back to the slide it started from after a full round,
      and reaches every slide within one round. */
  lemma FullRound(i: int, count: nat, target: int)
    requires 0 <= i < count && 0 <= target < count
    ensures AdvanceBy(i, count, count) == i
    ensures AdvanceBy(i, count, Distance(i, target, count)) == target
  {
    AdvanceWithin(i, count, count - i - 1);
    assert AdvanceBy(i, count, count - i) == 0;
    AdvanceCompose(i, count, count - i, i);
    AdvanceWithin(0, count, i);
    if i <= target {
      AdvanceWithin(i, count, target - i);
    } else {
      AdvanceCompose(i, count, count - i, target);
      AdvanceWithin(0, count, target);
    }
  }

  /** Exactly one dot is highlighted: the current slide's. */
  lemma OneDotHighlighted(count: nat, currentIndex: int)
    requires 0 <= currentIndex < count
    ensures Dots(count, currentIndex)[currentIndex]
    ensures forall a, b | 0 <= a < b < count :: !(Dots(count, currentIndex)[a] && Dots(count, currentIndex)[b])
  {
  }
}
