/**
 * Properties of whole sequences of transitions of the challenge engine
 * (src/hooks/useChallenges.ts): well-formedness, points that only grow,
 * reward statuses that only the claim, the period end and the reset can
 * move, de-duplicated content tracking, the weekly trivia reset, and
 * walk-throughs: all five challenges with rank 5, claim twice, shortfall at
 * 400 points, and peek twice.
 */
module EngineProperties {
  import opened Wrappers
  import opened ChallengeData
  import opened ProgressSpec

  /** One call into the engine, with the clock or the drawn rank it sees. */
  datatype Event =
    | Complete(id: string, points: int, now: int)
    | Track(action: string, contentId: Option<string>, now: int)
    | Evaluate(rank: int)
    | Refresh(now: int)
    | Claim
    | PeriodEnd(now: int)
    | Reset

  /** The unlock effect only ever draws a rank from 1..1200. */
  predicate Admissible(e: Event) {
    e.Evaluate? ==> ValidRank(e.rank)
  }

  predicate AllAdmissible(es: seq<Event>) {
    forall i :: 0 <= i < |es| ==> Admissible(es[i])
  }

  /** The aggregate after one call. */
  function Step(p: UserProgress, e: Event): UserProgress
    requires WellFormed(p) && Admissible(e)
  {
    match e
    case Complete(id, points, now) => CompleteChallenge(p, id, points, now)
    case Track(action, contentId, now) => TrackAction(p, action, contentId, now)
    case Evaluate(rank) => EvaluateReward(p, rank)
    case Refresh(now) => RefreshTrivia(p, now)
    case Claim => ClaimReward(p)
    case PeriodEnd(now) => SimulatePeriodEnd(p, now)
    case Reset => InitialProgress()
  }

  /** Every call keeps the aggregate well formed. */
  lemma StepKeepsWellFormed(p: UserProgress, e: Event)
    requires WellFormed(p) && Admissible(e)
    ensures WellFormed(Step(p, e))
  {
    match e
    case Complete(id, points, now) => CompleteChallengeKeepsWellFormed(p, id, points, now);
    case Track(action, contentId, now) => TrackActionKeepsWellFormed(p, action, contentId, now);
    case Evaluate(rank) => EvaluateRewardKeepsWellFormed(p, rank);
    case Refresh(now) => RefreshTriviaKeepsWellFormed(p, now);
    case Claim => ClaimAndPeriodEndKeepWellFormed(p, 0);
    case PeriodEnd(now) => ClaimAndPeriodEndKeepWellFormed(p, now);
    case Reset => InitialProgressWellFormed();
  }

  /** The aggregate after a sequence of calls, which stays well formed throughout. */
  function Run(p: UserProgress, es: seq<Event>): (q: UserProgress)
    requires WellFormed(p) && AllAdmissible(es)
    ensures WellFormed(q)
    decreases |es|
  {
    if es == [] then p
    else
      StepKeepsWellFormed(p, es[0]);
      Run(Step(p, es[0]), es[1..])
  }

  // ---------------------------------------------------------------------------
  // Points never decrease except through a reset
  // ---------------------------------------------------------------------------

  /** A call that cannot take points away: no reset, and no negative award. */
  predicate NoLoss(e: Event) {
    match e
    case Complete(_, points, _) => points >= 0
    case Reset => false
    case _ => true
  }

  lemma StepKeepsPoints(p: UserProgress, e: Event)
    requires WellFormed(p) && Admissible(e) && NoLoss(e)
    ensures Step(p, e).totalPoints >= p.totalPoints
  {
    match e
    case Complete(id, points, now) => CompleteChallengeEffect(p, id, points, now);
    case Track(action, contentId, now) => TrackActionGains(p, action, contentId, now);
    case _ =>
  }

  /** A tracked action gains either nothing or the catalog value of the matching challenge. */
  lemma TrackActionGains(p: UserProgress, action: string, contentId: Option<string>, now: int)
    ensures var gained := TrackAction(p, action, contentId, now).totalPoints - p.totalPoints;
      gained in {0, 100, 200, 250, 300}
  {
    if IsListAction(action) {
      if IsNewContent(contentId, ListFor(p, action)) {
        TrackActionRecordsNewContent(p, action, contentId.value, now);
      } else {
        TrackActionIgnoresRepeats(p, action, contentId, now);
      }
    } else if action == PeekViewAction && !p.peekViewUsed {
      TrackActionFirstPeek(p, contentId, now);
    } else {
      TrackActionIgnoresOthers(p, action, contentId, now);
    }
  }

  /** Over any run without a reset or a negative award, the total never decreases. */
  lemma {:induction false} RunNeverLosesPoints(p: UserProgress, es: seq<Event>)
    requires WellFormed(p) && AllAdmissible(es)
    requires forall i :: 0 <= i < |es| ==> NoLoss(es[i])
    ensures Run(p, es).totalPoints >= p.totalPoints
    decreases |es|
  {
    if es != [] {
      StepKeepsWellFormed(p, es[0]);
      StepKeepsPoints(p, es[0]);
      RunNeverLosesPoints(Step(p, es[0]), es[1..]);
    }
  }

  // ---------------------------------------------------------------------------
  // The reward status
  // ---------------------------------------------------------------------------

  /** A call other than a claim, a period end or a reset. */
  predicate KeepsReward(e: Event) {
    !e.Claim? && !e.PeriodEnd? && !e.Reset?
  }

  /** Once the status has left 'none', only a claim, a period end or a reset can change it. */
  lemma StepKeepsSettledStatus(p: UserProgress, e: Event)
    requires WellFormed(p) && Admissible(e) && KeepsReward(e)
    requires p.rewardStatus != NoReward
    ensures Step(p, e).rewardStatus == p.rewardStatus
  {
    match e
    case Complete(id, points, now) => CompleteChallengeEffect(p, id, points, now);
    case Track(action, contentId, now) => TrackActionKeepsStatus(p, action, contentId, now);
    case _ =>
  }

  /** Tracking an action never touches the reward status or the rank. */
  lemma TrackActionKeepsStatus(p: UserProgress, action: string, contentId: Option<string>, now: int)
    ensures TrackAction(p, action, contentId, now).rewardStatus == p.rewardStatus
    ensures TrackAction(p, action, contentId, now).userRank == p.userRank
  {
    var q := TrackAction(p, action, contentId, now);
    if action == StartShowAction && IsNewContent(contentId, p.startedShows) {
      CompleteChallengeEffect(p.(startedShows := p.startedShows + [contentId.value]), StartNewShowId, 200, now);
    } else if action == CompleteSeriesAction && IsNewContent(contentId, p.completedSeries) {
      CompleteChallengeEffect(p.(completedSeries := p.completedSeries + [contentId.value]), CompleteSeriesId, 300, now);
    } else if action == AddToListAction && IsNewContent(contentId, p.myListItems) {
      CompleteChallengeEffect(p.(myListItems := p.myListItems + [contentId.value]), AddToListId, 100, now);
    } else if action == PeekViewAction && !p.peekViewUsed {
      CompleteChallengeEffect(p.(peekViewUsed := true), TryPeekViewId, 250, now);
    }
  }

  /**
   * A status other than 'none' (in particular 'claimed', 'cap_reached' and
   * 'shortfall') survives every run without a claim, a period end or a reset.
   */
  lemma {:induction false} RunKeepsSettledStatus(p: UserProgress, es: seq<Event>)
    requires WellFormed(p) && AllAdmissible(es)
    requires forall i :: 0 <= i < |es| ==> KeepsReward(es[i])
    requires p.rewardStatus != NoReward
    ensures Run(p, es).rewardStatus == p.rewardStatus
    decreases |es|
  {
    if es != [] {
      StepKeepsWellFormed(p, es[0]);
      StepKeepsSettledStatus(p, es[0]);
      RunKeepsSettledStatus(Step(p, es[0]), es[1..]);
    }
  }

  /**
   * The period end does move a settled status: a claimed reward of a player
   * with a recorded rank within the cap reads 'unlocked' again, and one
   * without a rank reads 'cap_reached'.
   */
  lemma PeriodEndOverwritesClaim(p: UserProgress, now: int)
    requires p.rewardStatus == Claimed && p.totalPoints >= 1000
    ensures p.userRank.Some? && 1 <= p.userRank.value <= RewardCap ==>
      SimulatePeriodEnd(p, now).rewardStatus == Unlocked
    ensures p.userRank.None? ==> SimulatePeriodEnd(p, now).rewardStatus == CapReached
  {
  }

  // ---------------------------------------------------------------------------
  // De-duplicated tracking
  // ---------------------------------------------------------------------------

  /** Repeating a tracked action with the same content id changes nothing more. */
  lemma TrackActionIdempotent(p: UserProgress, action: string, contentId: Option<string>, now: int, now': int)
    ensures var q := TrackAction(p, action, contentId, now);
      TrackAction(q, action, contentId, now') == q
  {
    var q := TrackAction(p, action, contentId, now);
    if IsListAction(action) {
      if IsNewContent(contentId, ListFor(p, action)) {
        TrackActionRecordsNewContent(p, action, contentId.value, now);
        assert contentId.value in ListFor(q, action);
        TrackActionIgnoresRepeats(q, action, contentId, now');
      } else {
        TrackActionIgnoresRepeats(p, action, contentId, now);
        TrackActionIgnoresRepeats(q, action, contentId, now');
      }
    } else if action == PeekViewAction {
      if !p.peekViewUsed {
        TrackActionFirstPeek(p, contentId, now);
      }
      TrackActionIgnoresOthers(q, action, contentId, now');
    } else {
      TrackActionIgnoresOthers(p, action, contentId, now);
      TrackActionIgnoresOthers(q, action, contentId, now');
    }
  }

  /** `n` identical calls of one tracked action, all at time `now`. */
  function TrackRepeatedly(p: UserProgress, action: string, contentId: Option<string>, now: int, n: nat): UserProgress
    decreases n
  {
    if n == 0 then p else TrackAction(TrackRepeatedly(p, action, contentId, now, n - 1), action, contentId, now)
  }

  /** Any positive number of identical calls has the effect of one. */
  lemma {:induction false} TrackRepeatedlyIsOnce(p: UserProgress, action: string, contentId: Option<string>, now: int, n: nat)
    requires n >= 1
    ensures TrackRepeatedly(p, action, contentId, now, n) == TrackAction(p, action, contentId, now)
    decreases n
  {
    if n > 1 {
      TrackRepeatedlyIsOnce(p, action, contentId, now, n - 1);
      TrackActionIdempotent(p, action, contentId, now, now);
    }
  }

  /** In a list without duplicates, a member occurs exactly once. */
  lemma {:induction false} DistinctMemberOccursOnce(s: seq<string>, x: string)
    requires NoDuplicates(s) && x in s
    ensures multiset(s)[x] == 1
    decreases |s|
  {
    var init := s[..|s| - 1];
    var last := s[|s| - 1];
    assert s == init + [last];
    assert NoDuplicates(init) by {
      forall i, j | 0 <= i < j < |init| ensures init[i] != init[j] {
        assert init[i] == s[i] && init[j] == s[j];
      }
    }
    assert last !in init by {
      forall i | 0 <= i < |init| ensures init[i] != last {
        assert init[i] == s[i];
      }
    }
    if x == last {
      assert multiset(init)[x] == 0;
    } else {
      DistinctMemberOccursOnce(init, x);
    }
  }

  /**
   * Adding the same title to My List any positive number of times records it
   * exactly once and awards the add-to-list points at most once.
   */
  lemma AddToListDedup(p: UserProgress, x: string, now: int, n: nat)
    requires WellFormed(p) && n >= 1 && x != ""
    ensures var q := TrackRepeatedly(p, AddToListAction, Some(x), now, n);
      && multiset(q.myListItems)[x] == 1
      && q.totalPoints - p.totalPoints in {0, 100}
  {
    TrackRepeatedlyIsOnce(p, AddToListAction, Some(x), now, n);
    var q := TrackAction(p, AddToListAction, Some(x), now);
    TrackActionKeepsWellFormed(p, AddToListAction, Some(x), now);
    if x in p.myListItems {
      TrackActionIgnoresRepeats(p, AddToListAction, Some(x), now);
    } else {
      TrackActionRecordsNewContent(p, AddToListAction, x, now);
    }
    assert x in q.myListItems;
    DistinctMemberOccursOnce(q.myListItems, x);
  }

  // ---------------------------------------------------------------------------
  // Points from tracked actions are counted once per challenge
  // ---------------------------------------------------------------------------

  /** `points` when the challenge `id` is completed, 0 otherwise. */
  function Earned(p: UserProgress, id: string, points: int): int
  {
    if id in p.challenges && p.challenges[id].status == Completed then points else 0
  }

  /** The catalog value of the four challenges that tracked actions complete, as far as completed. */
  function TrackedValue(p: UserProgress): (v: int)
    ensures 0 <= v <= 850
  {
    Earned(p, StartNewShowId, 200) + Earned(p, CompleteSeriesId, 300) +
    Earned(p, AddToListId, 100) + Earned(p, TryPeekViewId, 250)
  }

  /** Completing one challenge changes the earned value of no other. */
  lemma CompleteChallengeEarnedElsewhere(p: UserProgress, id: string, points: int, now: int, other: string, v: int)
    requires other != id
    ensures Earned(CompleteChallenge(p, id, points, now), other, v) == Earned(p, other, v)
  {
    CompleteChallengeEffect(p, id, points, now);
  }

  /**
   * A tracked action adds to the total exactly what it adds to the value of
   * the completed tracked challenges.
   */
  lemma TrackActionAccounts(p: UserProgress, action: string, contentId: Option<string>, now: int)
    ensures var q := TrackAction(p, action, contentId, now);
      q.totalPoints - TrackedValue(q) == p.totalPoints - TrackedValue(p)
  {
    if action == StartShowAction && IsNewContent(contentId, p.startedShows) {
      var r := p.(startedShows := p.startedShows + [contentId.value]);
      assert TrackedValue(r) == TrackedValue(p);
      AwardAccounts(r, StartNewShowId, 200, now);
    } else if action == CompleteSeriesAction && IsNewContent(contentId, p.completedSeries) {
      var r := p.(completedSeries := p.completedSeries + [contentId.value]);
      assert TrackedValue(r) == TrackedValue(p);
      AwardAccounts(r, CompleteSeriesId, 300, now);
    } else if action == AddToListAction && IsNewContent(contentId, p.myListItems) {
      var r := p.(myListItems := p.myListItems + [contentId.value]);
      assert TrackedValue(r) == TrackedValue(p);
      AwardAccounts(r, AddToListId, 100, now);
    } else if action == PeekViewAction && !p.peekViewUsed {
      var r := p.(peekViewUsed := true);
      assert TrackedValue(r) == TrackedValue(p);
      AwardAccounts(r, TryPeekViewId, 250, now);
    } else {
      assert TrackAction(p, action, contentId, now) == p;
    }
  }

  /** Awarding a tracked challenge its catalog value keeps the books balanced. */
  lemma AwardAccounts(p: UserProgress, id: string, points: int, now: int)
    requires (id, points) in {(StartNewShowId, 200), (CompleteSeriesId, 300), (AddToListId, 100), (TryPeekViewId, 250)}
    ensures var q := AwardIfAvailable(p, id, points, now);
      q.totalPoints - TrackedValue(q) == p.totalPoints - TrackedValue(p)
  {
    if IsAvailable(p, id) {
      var q := CompleteChallenge(p, id, points, now);
      CompleteChallengeEffect(p, id, points, now);
      assert Earned(q, id, points) == points;
      assert Earned(p, id, points) == 0;
      forall other: string, v: int | other != id
        ensures Earned(q, other, v) == Earned(p, other, v)
      {
        CompleteChallengeEarnedElsewhere(p, id, points, now, other, v);
      }
    }
  }

  /** A sequence of tracked actions, each with its content id and clock. */
  function TrackAll(p: UserProgress, calls: seq<Event>): UserProgress
    decreases |calls|
  {
    if calls == [] then p
    else
      var q := if calls[0].Track? then TrackAction(p, calls[0].action, calls[0].contentId, calls[0].now) else p;
      TrackAll(q, calls[1..])
  }

  /**
   * From a balanced aggregate (a fresh one is, by `InitialProgressBalanced`),
   * tracked actions alone earn exactly the catalog value of the challenges
   * they completed, so at most 850 points: each challenge pays once, however
   * often its action is repeated.
   */
  lemma {:induction false} TrackedActionsPayOnce(p: UserProgress, calls: seq<Event>)
    requires p.totalPoints == TrackedValue(p)
    ensures TrackAll(p, calls).totalPoints == TrackedValue(TrackAll(p, calls))
    ensures TrackAll(p, calls).totalPoints <= 850
    decreases |calls|
  {
    if calls != [] {
      var q := if calls[0].Track? then TrackAction(p, calls[0].action, calls[0].contentId, calls[0].now) else p;
      if calls[0].Track? {
        TrackActionAccounts(p, calls[0].action, calls[0].contentId, calls[0].now);
      }
      TrackedActionsPayOnce(q, calls[1..]);
    }
  }

  /** The fresh aggregate has no points and nothing completed. */
  lemma InitialProgressBalanced()
    ensures InitialProgress().totalPoints == TrackedValue(InitialProgress()) == 0
  {
    InitialProgressFacts();
    CatalogIdsDistinct();
    assert StartNewShow in DefaultChallenges && CompleteSeries in DefaultChallenges;
    assert AddToList in DefaultChallenges && TryPeekView in DefaultChallenges;
  }

  // ---------------------------------------------------------------------------
  // The weekly trivia reset
  // ---------------------------------------------------------------------------

  const DayMs: int := 86400000

  /**
   * With the trivia completed at `t`, a reset run six days later leaves it
   * completed and one run eight days later makes it available again. This is
   * what the reset computes when run; the hook itself runs it only when the
   * completion stamp changes, never a week after it.
   */
  lemma WeeklyResetTiming(p: UserProgress, t: int)
    requires WellFormed(p)
    requires p.lastTriviaCompleted == Some(t) && p.challenges[TriviaId].status == Completed
    ensures RefreshTrivia(p, t + 6 * DayMs).challenges[TriviaId].status == Completed
    ensures RefreshTrivia(p, t + 8 * DayMs).challenges[TriviaId].status == Available
    ensures forall id :: id in p.challenges && id != TriviaId ==>
      RefreshTrivia(p, t + 8 * DayMs).challenges[id] == p.challenges[id]
  {
    assert WeeksSince(t, t + 6 * DayMs) == 0;
    assert WeeksSince(t, t + 8 * DayMs) == 1;
  }

  /** A clock that went back never resets the trivia. */
  lemma ClockSkewNeverResets(p: UserProgress, now: int)
    requires WellFormed(p) && p.lastTriviaCompleted.Some? && now < p.lastTriviaCompleted.value
    ensures RefreshTrivia(p, now) == p
  {
  }

  // ---------------------------------------------------------------------------
  // Walk-throughs
  // ---------------------------------------------------------------------------

  /** Adding to the list on a fresh aggregate: 100 points and the challenge completed. */
  lemma FirstCompletion(now: int)
    ensures var q := CompleteChallenge(InitialProgress(), AddToListId, 100, now);
      && q.totalPoints == 100
      && q.challenges[AddToListId].status == Completed
  {
    InitialProgressFacts();
    assert AddToList in DefaultChallenges;
    CompleteChallengeEffect(InitialProgress(), AddToListId, 100, now);
  }

  /** Completing one challenge leaves another available one available and adds the points when due. */
  lemma CompleteLeavesOthersAvailable(p: UserProgress, id: string, points: int, now: int, other: string)
    requires other != id && IsAvailable(p, other)
    ensures var q := CompleteChallenge(p, id, points, now);
      && IsAvailable(q, other)
      && q.totalPoints == p.totalPoints + (if IsAvailable(p, id) then points else 0)
      && q.rewardStatus == p.rewardStatus
  {
    CompleteChallengeEffect(p, id, points, now);
  }

  /** The five catalog challenges, each completed for its full value, in catalog order. */
  function CompleteAllFive(p: UserProgress, now: int): UserProgress
  {
    var p1 := CompleteChallenge(p, StartNewShowId, 200, now);
    var p2 := CompleteChallenge(p1, TriviaId, 150, now);
    var p3 := CompleteChallenge(p2, CompleteSeriesId, 300, now);
    var p4 := CompleteChallenge(p3, AddToListId, 100, now);
    CompleteChallenge(p4, TryPeekViewId, 250, now)
  }

  /**
   * Completing all five catalog challenges for their full value from a fresh
   * aggregate reaches exactly 1000 points, and the unlock effect with rank 5
   * then unlocks the reward.
   */
  lemma AllFiveUnlock(now: int)
    ensures var p := CompleteAllFive(InitialProgress(), now);
      && p.totalPoints == 1000
      && EvaluateReward(p, 5).rewardStatus == Unlocked
      && EvaluateReward(p, 5).userRank == Some(5)
  {
    var p := InitialProgress();
    InitialProgressFacts();
    assert StartNewShow in DefaultChallenges && WeeklyTrivia in DefaultChallenges;
    assert CompleteSeries in DefaultChallenges && AddToList in DefaultChallenges;
    assert TryPeekView in DefaultChallenges;
    assert IsAvailable(p, StartNewShowId) && IsAvailable(p, TriviaId) && IsAvailable(p, CompleteSeriesId);
    assert IsAvailable(p, AddToListId) && IsAvailable(p, TryPeekViewId);
    var p1 := CompleteChallenge(p, StartNewShowId, 200, now);
    CompleteLeavesOthersAvailable(p, StartNewShowId, 200, now, TriviaId);
    CompleteLeavesOthersAvailable(p, StartNewShowId, 200, now, CompleteSeriesId);
    CompleteLeavesOthersAvailable(p, StartNewShowId, 200, now, AddToListId);
    CompleteLeavesOthersAvailable(p, StartNewShowId, 200, now, TryPeekViewId);
    var p2 := CompleteChallenge(p1, TriviaId, 150, now);
    CompleteLeavesOthersAvailable(p1, TriviaId, 150, now, CompleteSeriesId);
    CompleteLeavesOthersAvailable(p1, TriviaId, 150, now, AddToListId);
    CompleteLeavesOthersAvailable(p1, TriviaId, 150, now, TryPeekViewId);
    var p3 := CompleteChallenge(p2, CompleteSeriesId, 300, now);
    CompleteLeavesOthersAvailable(p2, CompleteSeriesId, 300, now, AddToListId);
    CompleteLeavesOthersAvailable(p2, CompleteSeriesId, 300, now, TryPeekViewId);
    var p4 := CompleteChallenge(p3, AddToListId, 100, now);
    CompleteLeavesOthersAvailable(p3, AddToListId, 100, now, TryPeekViewId);
    CompleteChallengeEffect(p4, TryPeekViewId, 250, now);
    assert CompleteAllFive(p, now) == CompleteChallenge(p4, TryPeekViewId, 250, now);
  }

  /** Claiming an unlocked reward, then claiming again: 'claimed' both times. */
  lemma ClaimTwice(p: UserProgress)
    requires p.rewardStatus == Unlocked
    ensures ClaimReward(p).rewardStatus == Claimed
    ensures ClaimReward(ClaimReward(p)) == ClaimReward(p)
  {
  }

  /**
   * A period that ends at 400 points ends in 'shortfall', and later
   * completions add their points but leave the status alone, also through
   * the unlock effect.
   */
  lemma ShortfallSticks(p: UserProgress, now: int, id: string, points: int, later: int, rank: int)
    requires p.totalPoints == 400 && ValidRank(rank)
    ensures var s := SimulatePeriodEnd(p, now);
      && s.rewardStatus == Shortfall
      && CompleteChallenge(s, id, points, later).rewardStatus == Shortfall
      && EvaluateReward(CompleteChallenge(s, id, points, later), rank).rewardStatus == Shortfall
      && CompleteChallenge(s, id, points, later).totalPoints ==
         400 + (if IsAvailable(s, id) then points else 0)
  {
    var s := SimulatePeriodEnd(p, now);
    CompleteChallengeEffect(s, id, points, later);
  }

  /** Two peek views: the first awards 250 and sets the flag, the second changes nothing. */
  lemma PeekTwice(p: UserProgress, c1: Option<string>, c2: Option<string>, now: int, later: int)
    requires !p.peekViewUsed && IsAvailable(p, TryPeekViewId)
    ensures var q := TrackAction(p, PeekViewAction, c1, now);
      && q.peekViewUsed
      && q.totalPoints == p.totalPoints + 250
      && TrackAction(q, PeekViewAction, c2, later) == q
  {
    TrackActionFirstPeek(p, c1, now);
    var q := TrackAction(p, PeekViewAction, c1, now);
    TrackActionIgnoresOthers(q, PeekViewAction, c2, later);
  }
}
