/**
 * The `useChallenges` hook (src/hooks/useChallenges.ts): the hook's four
 * state slots as fields of one object, with one method per transition.
 * Each method is proved to leave the aggregate equal to the corresponding
 * function of ProgressSpec applied to the old one, and to keep it well
 * formed. The two effects of the hook are explicit methods: EvaluateReward
 * takes the drawn rank, RefreshTrivia the current time.
 */
module UseChallenges {
  import opened Wrappers
  import opened ChallengeData
  import opened ProgressSpec

  /** The `forEach` loop that stores each challenge of a catalog under its id. */
  method BuildChallengesMap(catalog: seq<Challenge>) returns (m: map<string, Challenge>)
    ensures m == InsertAll(map[], catalog)
    ensures DistinctIds(catalog) ==>
      m.Keys == (set c | c in catalog :: c.id) &&
      forall i :: 0 <= i < |catalog| ==> m[catalog[i].id] == catalog[i]
  {
    m := map[];
    var i := 0;
    while i < |catalog|
      invariant 0 <= i <= |catalog|
      invariant InsertAll(m, catalog[i..]) == InsertAll(map[], catalog)
    {
      var c := catalog[i];
      assert catalog[i..][1..] == catalog[i + 1..];
      m := m[c.id := c];
      i := i + 1;
    }
    if DistinctIds(catalog) {
      InsertAllContents(map[], catalog);
    }
  }

  /** The challenge map of `getInitialProgress` and `resetProgress`. */
  method BuildCatalogMap() returns (m: map<string, Challenge>)
    ensures m == CatalogMap()
  {
    m := BuildChallengesMap(DefaultChallenges);
    CatalogMapFacts();
  }

  /**
   * The hook's four pieces of state: the progress aggregate, the points
   * popup and its value, and the reward banner. A `setUserProgress(prev =>
   * ...)` call becomes an assignment to `userProgress` of a value computed
   * from the old one.
   */
  class ProgressStore {
    var userProgress: UserProgress
    var showPointsAnimation: bool
    var animationPoints: int
    var showRewardBanner: bool

    ghost predicate Valid()
      reads this
    {
      WellFormed(userProgress)
    }

    /** The hook's first render: `getInitialProgress`, no popup, no banner. */
    constructor ()
      ensures userProgress == InitialProgress()
      ensures Valid()
      ensures !showPointsAnimation && animationPoints == 0 && !showRewardBanner
    {
      var m := BuildCatalogMap();
      userProgress := UserProgress(0, 1000, NoReward, None, None, m, [], [], [], [], false, None);
      showPointsAnimation := false;
      animationPoints := 0;
      showRewardBanner := false;
      InitialProgressWellFormed();
    }

    /** `resetProgress`: the aggregate is rebuilt from the catalog; the signals are left alone. */
    method ResetProgress()
      modifies this
      ensures userProgress == InitialProgress()
      ensures Valid()
      ensures showPointsAnimation == old(showPointsAnimation)
      ensures animationPoints == old(animationPoints)
      ensures showRewardBanner == old(showRewardBanner)
    {
      var m := BuildCatalogMap();
      userProgress := UserProgress(0, 1000, NoReward, None, None, m, [], [], [], [], false, None);
      InitialProgressWellFormed();
    }

    /**
     * `completeChallenge(id, points)` at time `now`. The popup is raised for
     * any positive `points`, whether or not the challenge was available.
     */
    method CompleteChallenge(id: string, points: int, now: int)
      requires Valid()
      modifies this
      ensures userProgress == ProgressSpec.CompleteChallenge(old(userProgress), id, points, now)
      ensures Valid()
      ensures showPointsAnimation == (old(showPointsAnimation) || PointsSignalled(points))
      ensures animationPoints == if PointsSignalled(points) then points else old(animationPoints)
      ensures showRewardBanner == old(showRewardBanner)
    {
      var prev := userProgress;
      CompleteChallengeKeepsWellFormed(prev, id, points, now);
      if id in prev.challenges && prev.challenges[id].status == Available {
        var challenge := prev.challenges[id];
        var updatedChallenges := prev.challenges[id := challenge.(status := Completed, progress := Some(FinalProgress(challenge)))];
        var newTotalPoints := prev.totalPoints + points;
        if id == TriviaId {
          userProgress := prev.(totalPoints := newTotalPoints, challenges := updatedChallenges, lastTriviaCompleted := Some(now));
        } else {
          userProgress := prev.(totalPoints := newTotalPoints, challenges := updatedChallenges);
        }
      }
      if points > 0 {
        animationPoints := points;
        showPointsAnimation := true;
      }
    }

    /** The reward-unlock effect, given the rank it draws. */
    method EvaluateReward(rank: int)
      requires Valid() && ValidRank(rank)
      modifies this
      ensures userProgress == ProgressSpec.EvaluateReward(old(userProgress), rank)
      ensures Valid()
      ensures showRewardBanner == (old(showRewardBanner) || RewardDue(old(userProgress)))
      ensures showPointsAnimation == old(showPointsAnimation)
      ensures animationPoints == old(animationPoints)
    {
      EvaluateRewardKeepsWellFormed(userProgress, rank);
      if userProgress.totalPoints >= 1000 && userProgress.rewardStatus == NoReward {
        userProgress := userProgress.(userRank := Some(rank),
                                      rewardStatus := if rank <= 1000 then Unlocked else CapReached);
        showRewardBanner := true;
      }
    }

    /** The weekly trivia reset effect, evaluated at time `now`. */
    method RefreshTrivia(now: int)
      requires Valid()
      modifies this
      ensures userProgress == ProgressSpec.RefreshTrivia(old(userProgress), now)
      ensures Valid()
      ensures showRewardBanner == old(showRewardBanner)
      ensures showPointsAnimation == old(showPointsAnimation)
      ensures animationPoints == old(animationPoints)
    {
      RefreshTriviaKeepsWellFormed(userProgress, now);
      var lastCompleted := userProgress.lastTriviaCompleted;
      if lastCompleted.Some? {
        var weeksSinceCompleted := (now - lastCompleted.value) / WeekMs;
        if weeksSinceCompleted >= 1 {
          var prev := userProgress;
          userProgress := prev.(challenges := prev.challenges[TriviaId := prev.challenges[TriviaId].(status := Available)]);
        }
      }
    }

    /** `claimReward`: the status becomes 'claimed' unconditionally and the banner is shown. */
    method ClaimReward()
      requires Valid()
      modifies this
      ensures userProgress == ProgressSpec.ClaimReward(old(userProgress))
      ensures Valid()
      ensures showRewardBanner
      ensures showPointsAnimation == old(showPointsAnimation)
      ensures animationPoints == old(animationPoints)
    {
      ClaimAndPeriodEndKeepWellFormed(userProgress, 0);
      userProgress := userProgress.(rewardStatus := Claimed);
      showRewardBanner := true;
    }

    /** `simulateChallengePeriodEnd` at time `now`: the status is decided anew and the banner shown. */
    method SimulateChallengePeriodEnd(now: int)
      requires Valid()
      modifies this
      ensures userProgress == SimulatePeriodEnd(old(userProgress), now)
      ensures Valid()
      ensures showRewardBanner
      ensures showPointsAnimation == old(showPointsAnimation)
      ensures animationPoints == old(animationPoints)
    {
      ClaimAndPeriodEndKeepWellFormed(userProgress, now);
      var prev := userProgress;
      var rank := prev.userRank;
      userProgress := prev.(
        rewardStatus :=
          if prev.totalPoints >= 1000 then
            (if rank.Some? && rank.value != 0 && rank.value <= 1000 then Unlocked else CapReached)
          else Shortfall,
        challengeEndDate := Some(now));
      showRewardBanner := true;
    }

    /**
     * `trackAction(action, contentId)`: dispatch on the action kind; an
     * unknown kind changes nothing.
     */
    method TrackAction(action: string, contentId: Option<string>, now: int)
      requires Valid()
      modifies this
      ensures userProgress == ProgressSpec.TrackAction(old(userProgress), action, contentId, now)
      ensures Valid()
      ensures var gained := userProgress.totalPoints - old(userProgress.totalPoints);
        && showPointsAnimation == (old(showPointsAnimation) || gained != 0)
        && animationPoints == (if gained != 0 then gained else old(animationPoints))
      ensures showRewardBanner == old(showRewardBanner)
    {
      if action == StartShowAction {
        TrackStartShow(contentId, now);
      } else if action == CompleteSeriesAction {
        TrackCompleteSeries(contentId, now);
      } else if action == AddToListAction {
        TrackAddToList(contentId, now);
      } else if action == PeekViewAction {
        TrackPeekView(now);
      }
    }

    /** The 'start-show' case: record a new show, then complete 'start-new-show' for 200 if it was available. */
    method TrackStartShow(contentId: Option<string>, now: int)
      requires Valid()
      modifies this
      ensures userProgress == ProgressSpec.TrackAction(old(userProgress), StartShowAction, contentId, now)
      ensures Valid()
      ensures var gained := userProgress.totalPoints - old(userProgress.totalPoints);
        && showPointsAnimation == (old(showPointsAnimation) || gained != 0)
        && animationPoints == (if gained != 0 then gained else old(animationPoints))
      ensures showRewardBanner == old(showRewardBanner)
    {
      var seen := userProgress;
      if IsNewContent(contentId, seen.startedShows) {
        AppendUnseenKeepsDistinct(seen.startedShows, contentId.value);
        userProgress := seen.(startedShows := seen.startedShows + [contentId.value]);
        if StartNewShowId in seen.challenges && seen.challenges[StartNewShowId].status == Available {
          CompleteChallenge(StartNewShowId, 200, now);
        }
      }
    }

    /** The 'complete-series' case: record a new series, then complete 'complete-series' for 300 if it was available. */
    method TrackCompleteSeries(contentId: Option<string>, now: int)
      requires Valid()
      modifies this
      ensures userProgress == ProgressSpec.TrackAction(old(userProgress), CompleteSeriesAction, contentId, now)
      ensures Valid()
      ensures var gained := userProgress.totalPoints - old(userProgress.totalPoints);
        && showPointsAnimation == (old(showPointsAnimation) || gained != 0)
        && animationPoints == (if gained != 0 then gained else old(animationPoints))
      ensures showRewardBanner == old(showRewardBanner)
    {
      var seen := userProgress;
      if IsNewContent(contentId, seen.completedSeries) {
        AppendUnseenKeepsDistinct(seen.completedSeries, contentId.value);
        userProgress := seen.(completedSeries := seen.completedSeries + [contentId.value]);
        if CompleteSeriesId in seen.challenges && seen.challenges[CompleteSeriesId].status == Available {
          CompleteChallenge(CompleteSeriesId, 300, now);
        }
      }
    }

    /** The 'add-to-list' case: record a new list item, then complete 'add-to-list' for 100 if it was available. */
    method TrackAddToList(contentId: Option<string>, now: int)
      requires Valid()
      modifies this
      ensures userProgress == ProgressSpec.TrackAction(old(userProgress), AddToListAction, contentId, now)
      ensures Valid()
      ensures var gained := userProgress.totalPoints - old(userProgress.totalPoints);
        && showPointsAnimation == (old(showPointsAnimation) || gained != 0)
        && animationPoints == (if gained != 0 then gained else old(animationPoints))
      ensures showRewardBanner == old(showRewardBanner)
    {
      var seen := userProgress;
      if IsNewContent(contentId, seen.myListItems) {
        AppendUnseenKeepsDistinct(seen.myListItems, contentId.value);
        userProgress := seen.(myListItems := seen.myListItems + [contentId.value]);
        if AddToListId in seen.challenges && seen.challenges[AddToListId].status == Available {
          CompleteChallenge(AddToListId, 100, now);
        }
      }
    }

    /** The 'peek-view' case: the first use sets the flag, then completes 'try-peek-view' for 250 if it was available. */
    method TrackPeekView(now: int)
      requires Valid()
      modifies this
      ensures forall contentId :: userProgress == ProgressSpec.TrackAction(old(userProgress), PeekViewAction, contentId, now)
      ensures Valid()
      ensures var gained := userProgress.totalPoints - old(userProgress.totalPoints);
        && showPointsAnimation == (old(showPointsAnimation) || gained != 0)
        && animationPoints == (if gained != 0 then gained else old(animationPoints))
      ensures showRewardBanner == old(showRewardBanner)
    {
      var seen := userProgress;
      if !seen.peekViewUsed {
        userProgress := seen.(peekViewUsed := true);
        if TryPeekViewId in seen.challenges && seen.challenges[TryPeekViewId].status == Available {
          CompleteChallenge(TryPeekViewId, 250, now);
        }
      }
    }

    /** `setShowRewardBanner`, which the banner's close button calls. */
    method SetShowRewardBanner(visible: bool)
      modifies this
      ensures showRewardBanner == visible
      ensures userProgress == old(userProgress)
      ensures showPointsAnimation == old(showPointsAnimation)
      ensures animationPoints == old(animationPoints)
    {
      showRewardBanner := visible;
    }
  }

  /**
   * Walk-through on the hook itself: a fresh store that completes 'add-to-list'
   * for 100 points holds 100 points with that challenge completed, and shows
   * the points popup with the value 100.
   */
  method FirstCompletionOnStore(now: int) returns (store: ProgressStore)
    ensures store.userProgress.totalPoints == 100
    ensures AddToListId in store.userProgress.challenges
    ensures store.userProgress.challenges[AddToListId].status == Completed
    ensures store.showPointsAnimation && store.animationPoints == 100
  {
    store := new ProgressStore();
    InitialProgressFacts();
    assert AddToList in DefaultChallenges;
    store.CompleteChallenge(AddToListId, 100, now);
    CompleteChallengeEffect(InitialProgress(), AddToListId, 100, now);
  }
}
