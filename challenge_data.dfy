/**
 * The challenge records, the static catalog of five challenges and the
 * weekly trivia bank (src/types/challenges.ts, src/data/challengeData.ts).
 */
module ChallengeData {
  import opened Wrappers

  /** `type` of a challenge in the source; `kind` here because `type` is a keyword. */
  datatype ChallengeType = Trivia | Watching | List | Peek

  datatype ChallengeStatus = Available | Completed | Locked

  /**
   * One challenge. `progress` and `maxProgress` are optional in the source;
   * `weeklyReset` is optional too and an absent flag reads as false.
   */
  datatype Challenge = Challenge(
    id: string,
    title: string,
    description: string,
    points: int,
    kind: ChallengeType,
    status: ChallengeStatus,
    progress: Option<int>,
    maxProgress: Option<int>,
    weeklyReset: bool)

  datatype TriviaQuestion = TriviaQuestion(
    id: string,
    question: string,
    options: seq<string>,
    correctAnswer: int,
    explanation: Option<string>)

  const StartNewShowId: string := "start-new-show"
  const TriviaId: string := "weekly-trivia"
  const CompleteSeriesId: string := "complete-series"
  const AddToListId: string := "add-to-list"
  const TryPeekViewId: string := "try-peek-view"

  /** The point goal of a period; the engine hard-codes the same 1000. */
  const MonthlyGoal: int := 1000

  /** One week in milliseconds: 1000 * 60 * 60 * 24 * 7. */
  const WeekMs: int := 604800000

  const StartNewShow: Challenge := Challenge(StartNewShowId, "Start a New Show",
    "Finish Episode 1 of any show you haven't watched before",
    200, Watching, Available, Some(0), Some(1), false)
  const WeeklyTrivia: Challenge := Challenge(TriviaId, "Answer Weekly Trivia",
    "Test your knowledge with our weekly trivia question",
    150, Trivia, Available, None, None, true)
  const CompleteSeries: Challenge := Challenge(CompleteSeriesId, "Complete a Series",
    "Watch 90% of episodes and finish the final episode of any series",
    300, Watching, Available, Some(0), Some(1), false)
  const AddToList: Challenge := Challenge(AddToListId, "Add to My List",
    "Add any title to your \"My List\" for easy access later",
    100, List, Available, Some(0), Some(1), false)
  const TryPeekView: Challenge := Challenge(TryPeekViewId, "Try Peek View",
    "Preview content using the Peek View feature",
    250, Peek, Available, Some(0), Some(1), false)

  /** `defaultChallenges`, in the source's order. */
  const DefaultChallenges: seq<Challenge> :=
    [StartNewShow, WeeklyTrivia, CompleteSeries, AddToList, TryPeekView]

  const TriviaQuestions: seq<TriviaQuestion> := [
    TriviaQuestion("week1-2025",
      "Which Star Trek series features Captain Christopher Pike as the main character?",
      ["Star Trek: The Original Series", "Star Trek: Strange New Worlds",
       "Star Trek: Discovery", "Star Trek: The Next Generation"],
      1,
      Some("Star Trek: Strange New Worlds follows Captain Pike and his crew aboard the USS Enterprise.")),
    TriviaQuestion("week2-2025",
      "In which year was the movie \"Interstellar\" released?",
      ["2013", "2014", "2015", "2016"],
      1,
      Some("Interstellar was released in 2014 and directed by Christopher Nolan.")),
    TriviaQuestion("week3-2025",
      "What is the main character's profession in the TV series \"Dexter\"?",
      ["Police Detective", "Forensics Expert", "FBI Agent", "Crime Scene Photographer"],
      1,
      Some("Dexter Morgan works as a forensics expert specializing in blood spatter analysis."))
  ]

  /** Whether `id` is the id of one of the catalog's challenges. */
  predicate IsCatalogId(id: string)
  {
    id == StartNewShowId || id == TriviaId || id == CompleteSeriesId ||
    id == AddToListId || id == TryPeekViewId
  }

  /** Sum of the point values of a sequence of challenges. */
  function SumPoints(cs: seq<Challenge>): int
  {
    if cs == [] then 0 else cs[0].points + SumPoints(cs[1..])
  }

  /**
   * The catalog holds exactly five challenges, with pairwise distinct ids,
   * and its ids are exactly the catalog ids.
   */
  lemma CatalogIdsDistinct()
    ensures |DefaultChallenges| == 5
    ensures forall i, j :: 0 <= i < j < |DefaultChallenges| ==>
      DefaultChallenges[i].id != DefaultChallenges[j].id
    ensures forall c :: c in DefaultChallenges ==> IsCatalogId(c.id)
    ensures forall id :: IsCatalogId(id) ==> exists c :: c in DefaultChallenges && c.id == id
  {
    forall id | IsCatalogId(id) ensures exists c :: c in DefaultChallenges && c.id == id {
      if id == StartNewShowId { assert DefaultChallenges[0].id == id; }
      else if id == TriviaId { assert DefaultChallenges[1].id == id; }
      else if id == CompleteSeriesId { assert DefaultChallenges[2].id == id; }
      else if id == AddToListId { assert DefaultChallenges[3].id == id; }
      else { assert DefaultChallenges[4].id == id; }
    }
  }

  /** Completing every catalog challenge once for its full value reaches the goal exactly. */
  lemma CatalogPointsReachGoal()
    ensures SumPoints(DefaultChallenges) == MonthlyGoal
  {
    var cs := DefaultChallenges;
    assert cs[4..][1..] == [];
    assert SumPoints(cs[4..]) == 250;
    assert cs[3..][1..] == cs[4..];
    assert SumPoints(cs[3..]) == 350;
    assert cs[2..][1..] == cs[3..];
    assert SumPoints(cs[2..]) == 650;
    assert cs[1..][1..] == cs[2..];
    assert SumPoints(cs[1..]) == 800;
  }

  /** Every catalog challenge starts available and with a positive point value. */
  lemma CatalogStartsAvailable()
    ensures forall c :: c in DefaultChallenges ==> c.status == Available && c.points > 0
  {
  }

  /** Only the weekly trivia challenge is repeatable, and it alone is of type trivia. */
  lemma OnlyTriviaResetsWeekly()
    ensures forall c :: c in DefaultChallenges ==>
      (c.weeklyReset <==> c.id == TriviaId) && (c.kind == Trivia <==> c.id == TriviaId)
  {
  }

  /** Every question's correct answer indexes one of its options. */
  lemma CorrectAnswersInRange()
    ensures forall q :: q in TriviaQuestions ==> 0 <= q.correctAnswer < |q.options|
  {
  }

  /**
   * Which question of the bank is current at `now` (milliseconds since 1970):
   * the number of whole weeks since the epoch, modulo the size of the bank.
   */
  function TriviaIndex(now: nat): (i: nat)
    ensures i < |TriviaQuestions|
  {
    (now / WeekMs) % |TriviaQuestions|
  }

  /** The question of the current week. */
  function CurrentTriviaQuestion(now: nat): (q: TriviaQuestion)
    ensures q in TriviaQuestions
    ensures 0 <= q.correctAnswer < |q.options|
  {
    CorrectAnswersInRange();
    TriviaQuestions[TriviaIndex(now)]
  }

  /** Two instants in the same week since the epoch see the same question. */
  lemma SameWeekSameQuestion(now: nat, later: nat)
    requires now <= later
    requires later - now < WeekMs - now % WeekMs
    ensures CurrentTriviaQuestion(later) == CurrentTriviaQuestion(now)
  {
    var w := now / WeekMs;
    assert now == w * WeekMs + now % WeekMs;
    assert w * WeekMs <= later < (w + 1) * WeekMs;
    DivisionByWeek(later, w);
  }

  /** `k` is the week number of `t` when `t` lies within week `k`. */
  lemma DivisionByWeek(t: nat, k: int)
    requires k * WeekMs <= t < (k + 1) * WeekMs
    ensures t / WeekMs == k
  {
  }

  /** Advancing the clock by whole weeks rotates through the bank. */
  lemma {:induction false} WeeksAheadRotate(now: nat, weeks: nat)
    ensures TriviaIndex(now + weeks * WeekMs) == (TriviaIndex(now) + weeks) % |TriviaQuestions|
  {
    if weeks > 0 {
      WeeksAheadRotate(now, weeks - 1);
      var t := now + (weeks - 1) * WeekMs;
      assert t + WeekMs == now + weeks * WeekMs;
      DivisionByWeek(t, t / WeekMs);
      DivisionByWeek(t + WeekMs, t / WeekMs + 1);
    }
  }

  /** One week later the next question of the bank is current, cyclically. */
  lemma NextWeekNextQuestion(now: nat)
    ensures CurrentTriviaQuestion(now + WeekMs)
         == TriviaQuestions[(TriviaIndex(now) + 1) % |TriviaQuestions|]
  {
    WeeksAheadRotate(now, 1);
  }
}
