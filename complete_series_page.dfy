/**
 * The "Complete a Series" page (src/components/Challenges/CompleteSeriesPage.tsx):
 * the list of series it offers, and a simulated per-series watch progress
 * that climbs in steps of 25 up to 100 and asks for the series challenge to
 * be completed once it reaches 90.
 */
module CompleteSeriesPage {

  /** The fields of a catalog title the page's logic reads. */
  datatype VideoContent = VideoContent(id: string, title: string, genre: string)

  /** The genre that marks a title as a film rather than a series. */
  const MovieGenre: string := "MOVIE"

  /** One watch step. */
  const Step: int := 25

  /** The most a series' progress can read. */
  const FullProgress: int := 100

  /** The progress from which a series can be completed. */
  const CompletionThreshold: int := 90

  // ---------------------------------------------------------------------------
  // The listed series
  // ---------------------------------------------------------------------------

  /** Whether a title is listed: not a film, and not among the completed series. */
  predicate Listed(v: VideoContent, completedSeries: seq<string>) {
    v.genre != MovieGenre && v.id !in completedSeries
  }

  /**
   * `seriesOnly`: the available titles that are listed, in their order. A
   * title is in the result exactly when it is available and listed, and it
   * occurs there as often as in the available titles.
   */
  function SeriesOnly(available: seq<VideoContent>, completedSeries: seq<string>): (r: seq<VideoContent>)
    ensures forall v :: v in r <==> v in available && Listed(v, completedSeries)
    ensures forall v :: multiset(r)[v] == if Listed(v, completedSeries) then multiset(available)[v] else 0
    ensures |r| <= |available|
  {
    if available == [] then []
    else
      var rest := SeriesOnly(available[1..], completedSeries);
      assert available == [available[0]] + available[1..];
      assert forall v :: v in available <==> v == available[0] || v in available[1..];
      if Listed(available[0], completedSeries) then [available[0]] + rest else rest
  }

  /**
   * The filter keeps order: filtering a concatenation is the concatenation
   * of the filtered parts.
   */
  lemma {:induction false} SeriesOnlyAppend(a: seq<VideoContent>, b: seq<VideoContent>, completedSeries: seq<string>)
    ensures SeriesOnly(a + b, completedSeries) == SeriesOnly(a, completedSeries) + SeriesOnly(b, completedSeries)
  {
    if a == [] {
      assert a + b == b;
    } else {
      assert (a + b)[1..] == a[1..] + b;
      SeriesOnlyAppend(a[1..], b, completedSeries);
    }
  }

  // ---------------------------------------------------------------------------
  // Simulated progress
  // ---------------------------------------------------------------------------

  /** `simulatedProgress[id] || 0`: a series without an entry reads as 0. */
  function ProgressOf(progress: map<string, int>, id: string): int
  {
    if id in progress then progress[id] else 0
  }

  /**
   * `Math.min(current + 25, 100)`: one step further, but never past 100;
   * from 75 or more the step lands on 100.
   */
  function NextProgress(current: int): (r: int)
    ensures r <= FullProgress
    ensures current <= FullProgress - Step ==> r == current + Step
    ensures current >= FullProgress - Step ==> r == FullProgress
  {
    if current + Step < FullProgress then current + Step else FullProgress
  }

  /** A reachable stored progress: a positive multiple of 25 no greater than 100. */
  predicate IsStepValue(v: int) {
    Step <= v <= FullProgress && v % Step == 0
  }

  /** Every stored progress is reachable by watch steps. */
  ghost predicate StepsOnly(progress: map<string, int>) {
    forall id :: id in progress ==> IsStepValue(progress[id])
  }

  /** `canComplete`: the series has reached the completion threshold. */
  predicate CanComplete(progress: map<string, int>, id: string) {
    ProgressOf(progress, id) >= CompletionThreshold
  }

  /** What `getProgressText` displays: the formatted percentage is kept as a number. */
  datatype ProgressText = NotStarted | PercentComplete(percent: int) | ReadyToComplete

  /** `getProgressText`: 'Not Started' at 0, 'N% Complete' below 90, 'Ready to Complete!' from 90. */
  function GetProgressText(progress: map<string, int>, id: string): (t: ProgressText)
    ensures t == NotStarted <==> ProgressOf(progress, id) == 0
    ensures t.PercentComplete? <==> ProgressOf(progress, id) != 0 && ProgressOf(progress, id) < CompletionThreshold
    ensures t.PercentComplete? ==> t.percent == ProgressOf(progress, id)
    ensures t == ReadyToComplete <==> ProgressOf(progress, id) >= CompletionThreshold
  {
    var p := ProgressOf(progress, id);
    if p == 0 then NotStarted
    else if p < CompletionThreshold then PercentComplete(p)
    else ReadyToComplete
  }

  /** The completion button is shown exactly when the text reads 'Ready to Complete!'. */
  lemma CanCompleteIffReady(progress: map<string, int>, id: string)
    requires StepsOnly(progress)
    ensures CanComplete(progress, id) <==> GetProgressText(progress, id) == ReadyToComplete
    ensures GetProgressText(progress, id).PercentComplete? ==>
      GetProgressText(progress, id).percent in {25, 50, 75}
  {
    if id in progress {
      var v := progress[id];
      assert IsStepValue(v);
      if v < CompletionThreshold {
        assert v == 25 || v == 50 || v == 75 by {
          assert v / Step * Step == v;
          assert 1 <= v / Step <= 3;
        }
      }
    }
  }

  /** The progress of a series after `k` watch steps from no entry. */
  function ProgressAfter(k: nat): int
  {
    if k == 0 then 0 else NextProgress(ProgressAfter(k - 1))
  }

  /** `k` steps read as `min(25 * k, 100)`. */
  lemma {:induction false} ProgressAfterSteps(k: nat)
    ensures ProgressAfter(k) == if Step * k < FullProgress then Step * k else FullProgress
  {
    if k > 0 {
      ProgressAfterSteps(k - 1);
    }
  }

  /** The completion threshold is first reached on the fourth step. */
  lemma FourthStepCompletes(k: nat)
    ensures ProgressAfter(k) >= CompletionThreshold <==> k >= 4
    ensures ProgressAfter(k) <= FullProgress
  {
    ProgressAfterSteps(k);
  }

  /** The page's own state: the simulated progress of each series it has seen. */
  class SeriesProgress {
    var simulatedProgress: map<string, int>

    ghost predicate Valid()
      reads this
    {
      StepsOnly(simulatedProgress)
    }

    /** The page opens with no progress recorded. */
    constructor ()
      ensures simulatedProgress == map[]
      ensures Valid()
    {
      simulatedProgress := map[];
    }

    /**
     * `handleStartWatching(series)`: one watch step on that series alone;
     * the result says whether the series' completion is requested, which
     * happens exactly when its new progress reaches 90.
     */
    method HandleStartWatching(series: VideoContent) returns (completes: bool)
      requires Valid()
      modifies this
      ensures simulatedProgress ==
        old(simulatedProgress)[series.id := NextProgress(ProgressOf(old(simulatedProgress), series.id))]
      ensures Valid()
      ensures completes <==> CanComplete(simulatedProgress, series.id)
      ensures ProgressOf(old(simulatedProgress), series.id) < ProgressOf(simulatedProgress, series.id) <= FullProgress ||
              ProgressOf(old(simulatedProgress), series.id) == ProgressOf(simulatedProgress, series.id) == FullProgress
      ensures forall id :: id != series.id ==>
        ProgressOf(simulatedProgress, id) == ProgressOf(old(simulatedProgress), id)
    {
      var currentProgress := ProgressOf(simulatedProgress, series.id);
      var newProgress := if currentProgress + Step < FullProgress then currentProgress + Step else FullProgress;
      simulatedProgress := simulatedProgress[series.id := newProgress];
      completes := newProgress >= CompletionThreshold;
    }
  }
}
