/**
 * The `UserProgress` aggregate of src/hooks/useChallenges.ts as a value, and
 * each transition of the hook as a function from the old aggregate to the new
 * one. The class in use_challenges.dfy is proved against these functions.
 */
module ProgressSpec {
  import opened Wrappers
  import opened ChallengeData

  /** `rewardStatus`; `NoReward` is the source's 'none'. */
  datatype RewardStatus = NoReward | Unlocked | Claimed | CapReached | Shortfall

  /** Instants are milliseconds since 1970, as `Date.getTime()` gives them. */
  datatype UserProgress = UserProgress(
    totalPoints: int,
    monthlyGoal: int,
    rewardStatus: RewardStatus,
    userRank: Option<int>,
    challengeEndDate: Option<int>,
    challenges: map<string, Challenge>,
    completedActions: seq<string>,
    startedShows: seq<string>,
    completedSeries: seq<string>,
    myListItems: seq<string>,
    peekViewUsed: bool,
    lastTriviaCompleted: Option<int>)

  /** Ranks are drawn from 1..MaxRank; the first RewardCap ranks get the reward. */
  const MaxRank: int := 1200
  const RewardCap: int := 1000

  /** The action kinds `trackAction` reacts to; any other string is ignored. */
  const StartShowAction: string := "start-show"
  const CompleteSeriesAction: string := "complete-series"
  const AddToListAction: string := "add-to-list"
  const PeekViewAction: string := "peek-view"

  predicate ValidRank(rank: int) {
    1 <= rank <= MaxRank
  }

  // ---------------------------------------------------------------------------
  // The challenge map built from the catalog
  // ---------------------------------------------------------------------------

  /**
   * The map `forEach` builds: starting from `m`, each challenge of `cs` in turn
   * is stored under its id, a later one overwriting an earlier one.
   */
  function InsertAll(m: map<string, Challenge>, cs: seq<Challenge>): map<string, Challenge>
    decreases cs
  {
    if cs == [] then m else InsertAll(m[cs[0].id := cs[0]], cs[1..])
  }

  predicate DistinctIds(cs: seq<Challenge>) {
    forall i, j :: 0 <= i < j < |cs| ==> cs[i].id != cs[j].id
  }

  /**
   * With distinct ids, inserting `cs` adds exactly their ids as keys, each
   * mapped to its challenge, and keeps the other entries of `m`.
   */
  lemma {:induction false} InsertAllContents(m: map<string, Challenge>, cs: seq<Challenge>)
    requires DistinctIds(cs)
    ensures InsertAll(m, cs).Keys == m.Keys + set c | c in cs :: c.id
    ensures forall i :: 0 <= i < |cs| ==> InsertAll(m, cs)[cs[i].id] == cs[i]
    ensures forall k :: k in m && (forall c :: c in cs ==> c.id != k) ==> InsertAll(m, cs)[k] == m[k]
    decreases cs
  {
    if cs != [] {
      var m' := m[cs[0].id := cs[0]];
      var rest := cs[1..];
      assert DistinctIds(rest) by {
        forall i, j | 0 <= i < j < |rest| ensures rest[i].id != rest[j].id {
          assert rest[i] == cs[i + 1] && rest[j] == cs[j + 1];
        }
      }
      InsertAllContents(m', rest);
      assert forall c :: c in cs <==> c == cs[0] || c in rest;
      forall i | 0 <= i < |cs|
        ensures InsertAll(m, cs)[cs[i].id] == cs[i]
      {
        if i == 0 {
          forall c | c in rest ensures c.id != cs[0].id {
            var j :| 0 <= j < |rest| && rest[j] == c;
            assert cs[j + 1] == c;
          }
        } else {
          assert rest[i - 1] == cs[i];
        }
      }
    }
  }

  /** The challenge map of the catalog, entry by entry. */
  function CatalogMap(): map<string, Challenge>
  {
    map[StartNewShowId := StartNewShow, TriviaId := WeeklyTrivia,
        CompleteSeriesId := CompleteSeries, AddToListId := AddToList,
        TryPeekViewId := TryPeekView]
  }

  /** The map the `forEach` loop builds from the catalog is the catalog map. */
  lemma CatalogMapFacts()
    ensures InsertAll(map[], DefaultChallenges) == CatalogMap()
    ensures forall id :: id in CatalogMap() <==> IsCatalogId(id)
    ensures forall c :: c in DefaultChallenges ==> c.id in CatalogMap() && CatalogMap()[c.id] == c
  {
    var cs := DefaultChallenges;
    assert cs[1..] == [WeeklyTrivia, CompleteSeries, AddToList, TryPeekView];
    assert cs[1..][1..] == [CompleteSeries, AddToList, TryPeekView];
    assert cs[1..][1..][1..] == [AddToList, TryPeekView];
    assert cs[1..][1..][1..][1..] == [TryPeekView];
    var m1 := map[StartNewShowId := StartNewShow];
    var m2 := m1[TriviaId := WeeklyTrivia];
    var m3 := m2[CompleteSeriesId := CompleteSeries];
    var m4 := m3[AddToListId := AddToList];
    var m5 := m4[TryPeekViewId := TryPeekView];
    var built := InsertAll(map[], cs);
    assert built == InsertAll(m1, cs[1..]);
    assert InsertAll(m1, cs[1..]) == InsertAll(m2, cs[1..][1..]);
    assert InsertAll(m2, cs[1..][1..]) == InsertAll(m3, cs[1..][1..][1..]);
    assert InsertAll(m3, cs[1..][1..][1..]) == InsertAll(m4, cs[1..][1..][1..][1..]);
    assert InsertAll(m4, cs[1..][1..][1..][1..]) == m5;
    assert built == CatalogMap();
  }

  // ---------------------------------------------------------------------------
  // Initial state and well-formedness
  // ---------------------------------------------------------------------------

  /** `getInitialProgress` and `resetProgress` both build this value. */
  function InitialProgress(): UserProgress
  {
    UserProgress(0, MonthlyGoal, NoReward, None, None, CatalogMap(),
                 [], [], [], [], false, None)
  }

  predicate NoDuplicates(s: seq<string>) {
    forall i, j :: 0 <= i < j < |s| ==> s[i] != s[j]
  }

  /** The parts of a challenge no transition changes: everything but status and progress. */
  predicate SameDefinition(c: Challenge, d: Challenge) {
    c.id == d.id && c.title == d.title && c.description == d.description &&
    c.points == d.points && c.kind == d.kind && c.maxProgress == d.maxProgress &&
    c.weeklyReset == d.weeklyReset
  }

  /**
   * What every reachable aggregate satisfies: one entry per catalog id,
   * duplicate-free content lists, the fixed goal, and a rank (when present)
   * from the rank range.
   */
  ghost predicate WellFormed(p: UserProgress) {
    && (forall id :: id in p.challenges <==> IsCatalogId(id))
    && NoDuplicates(p.startedShows)
    && NoDuplicates(p.completedSeries)
    && NoDuplicates(p.myListItems)
    && p.monthlyGoal == MonthlyGoal
    && (p.userRank.Some? ==> ValidRank(p.userRank.value))
  }

  lemma InitialProgressWellFormed()
    ensures WellFormed(InitialProgress())
  {
    CatalogMapFacts();
  }

  /** The initial aggregate: no points, no reward, every catalog challenge available under its id. */
  lemma InitialProgressFacts()
    ensures WellFormed(InitialProgress())
    ensures forall id :: id in InitialProgress().challenges <==> IsCatalogId(id)
    ensures forall c :: c in DefaultChallenges ==>
      InitialProgress().challenges[c.id] == c && InitialProgress().challenges[c.id].status == Available
  {
    CatalogMapFacts();
    CatalogStartsAvailable();
  }

  // ---------------------------------------------------------------------------
  // completeChallenge
  // ---------------------------------------------------------------------------

  predicate IsAvailable(p: UserProgress, id: string) {
    id in p.challenges && p.challenges[id].status == Available
  }

  /** `challenge.maxProgress || 1`: an absent or zero maximum reads as 1. */
  function FinalProgress(c: Challenge): (r: int)
    ensures r != 0
    ensures c.maxProgress.Some? && c.maxProgress.value != 0 ==> r == c.maxProgress.value
    ensures c.maxProgress.None? || c.maxProgress.value == 0 ==> r == 1
  {
    match c.maxProgress
    case Some(m) => if m != 0 then m else 1
    case None => 1
  }

  /** `completeChallenge` on the aggregate. */
  function CompleteChallenge(p: UserProgress, id: string, points: int, now: int): UserProgress
  {
    if IsAvailable(p, id) then
      var c := p.challenges[id];
      var done := p.(totalPoints := p.totalPoints + points,
                     challenges := p.challenges[id := c.(status := Completed, progress := Some(FinalProgress(c)))]);
      if id == TriviaId then done.(lastTriviaCompleted := Some(now)) else done
    else
      p
  }

  /**
   * Completing an available challenge marks it completed at its final progress,
   * adds the caller's points and, for the trivia challenge only, stamps the
   * completion time; nothing else changes. Any other call leaves the aggregate
   * as it was.
   */
  lemma CompleteChallengeEffect(p: UserProgress, id: string, points: int, now: int)
    ensures var q := CompleteChallenge(p, id, points, now);
      && (!IsAvailable(p, id) ==> q == p)
      && (IsAvailable(p, id) ==>
        && q.challenges.Keys == p.challenges.Keys
        && q.challenges[id].status == Completed
        && q.challenges[id].progress == Some(FinalProgress(p.challenges[id]))
        && SameDefinition(q.challenges[id], p.challenges[id])
        && q.totalPoints == p.totalPoints + points
        && q.lastTriviaCompleted == (if id == TriviaId then Some(now) else p.lastTriviaCompleted)
        && q == p.(totalPoints := q.totalPoints, challenges := q.challenges,
                   lastTriviaCompleted := q.lastTriviaCompleted))
      && (forall k :: k in p.challenges && k != id ==> q.challenges[k] == p.challenges[k])
  {
  }

  /** A second completion of the same challenge changes nothing: points are counted once. */
  lemma CompleteChallengeIdempotent(p: UserProgress, id: string, points: int, now: int, points': int, now': int)
    ensures var q := CompleteChallenge(p, id, points, now);
      CompleteChallenge(q, id, points', now') == q
  {
  }

  /** The points-earned signal depends only on the points passed in, not on the aggregate. */
  predicate PointsSignalled(points: int) {
    points > 0
  }

  // ---------------------------------------------------------------------------
  // The reward-unlock effect
  // ---------------------------------------------------------------------------

  /** The status a freshly drawn rank earns. */
  function RankOutcome(rank: int): (s: RewardStatus)
    ensures s == Unlocked <==> rank <= RewardCap
    ensures s == CapReached <==> rank > RewardCap
  {
    if rank <= RewardCap then Unlocked else CapReached
  }

  /** The unlock effect fires on a goal-reaching aggregate whose reward status is still 'none'. */
  predicate RewardDue(p: UserProgress) {
    p.totalPoints >= 1000 && p.rewardStatus == NoReward
  }

  /**
   * The reward-unlock effect with the drawn rank: when due, record the rank and
   * set 'unlocked' within the cap and 'cap_reached' beyond it; otherwise nothing.
   */
  function EvaluateReward(p: UserProgress, rank: int): (q: UserProgress)
    requires ValidRank(rank)
    ensures !RewardDue(p) ==> q == p
    ensures RewardDue(p) ==>
      q == p.(userRank := Some(rank), rewardStatus := RankOutcome(rank))
  {
    if RewardDue(p) then
      p.(userRank := Some(rank), rewardStatus := RankOutcome(rank))
    else
      p
  }

  /** The effect never overrides a status other than 'none', and firing it twice changes nothing. */
  lemma EvaluateRewardSettles(p: UserProgress, rank: int, rank': int)
    requires ValidRank(rank) && ValidRank(rank')
    ensures p.rewardStatus != NoReward ==> EvaluateReward(p, rank) == p
    ensures EvaluateReward(EvaluateReward(p, rank), rank') == EvaluateReward(p, rank)
    ensures EvaluateReward(p, rank).rewardStatus in {NoReward, Unlocked, CapReached} ||
            EvaluateReward(p, rank).rewardStatus == p.rewardStatus
  {
  }

  // ---------------------------------------------------------------------------
  // The weekly trivia reset effect
  // ---------------------------------------------------------------------------

  /** Whole weeks from `last` to `now`, rounded down (negative when the clock went back). */
  function WeeksSince(last: int, now: int): (w: int)
    ensures w >= 1 <==> now - last >= WeekMs
  {
    (now - last) / WeekMs
  }

  predicate TriviaResetDue(p: UserProgress, now: int) {
    p.lastTriviaCompleted.Some? && WeeksSince(p.lastTriviaCompleted.value, now) >= 1
  }

  /**
   * The weekly reset effect: once a full week has passed since the trivia was
   * last completed, it becomes available again; nothing else changes.
   */
  function RefreshTrivia(p: UserProgress, now: int): (q: UserProgress)
    requires TriviaId in p.challenges
    ensures !TriviaResetDue(p, now) ==> q == p
    ensures TriviaResetDue(p, now) ==>
      q == p.(challenges := p.challenges[TriviaId := p.challenges[TriviaId].(status := Available)])
  {
    match p.lastTriviaCompleted
    case None => p
    case Some(last) =>
      if WeeksSince(last, now) >= 1 then
        p.(challenges := p.challenges[TriviaId := p.challenges[TriviaId].(status := Available)])
      else
        p
  }

  // ---------------------------------------------------------------------------
  // claimReward and simulateChallengePeriodEnd
  // ---------------------------------------------------------------------------

  /** Claiming sets 'claimed' whatever the status was before. */
  function ClaimReward(p: UserProgress): (q: UserProgress)
    ensures q.rewardStatus == Claimed
    ensures q.(rewardStatus := p.rewardStatus) == p
  {
    p.(rewardStatus := Claimed)
  }

  /**
   * The status the end of a period decides: 'shortfall' below the goal,
   * otherwise 'unlocked' for a recorded rank within the cap (a rank of 0 is
   * falsy and counts as absent) and 'cap_reached' for any other.
   */
  function PeriodEndStatus(totalPoints: int, userRank: Option<int>): (s: RewardStatus)
    ensures s == Shortfall <==> totalPoints < 1000
    ensures s == Unlocked <==>
      totalPoints >= 1000 && userRank.Some? && userRank.value != 0 && userRank.value <= RewardCap
    ensures s in {Shortfall, Unlocked, CapReached}
  {
    if totalPoints >= 1000 then
      if userRank.Some? && userRank.value != 0 && userRank.value <= RewardCap then Unlocked else CapReached
    else
      Shortfall
  }

  /** The end of a period overwrites the reward status, whatever it was, and records the end date. */
  function SimulatePeriodEnd(p: UserProgress, now: int): (q: UserProgress)
    ensures q.rewardStatus == PeriodEndStatus(p.totalPoints, p.userRank)
    ensures q.challengeEndDate == Some(now)
    ensures q.(rewardStatus := p.rewardStatus, challengeEndDate := p.challengeEndDate) == p
  {
    p.(rewardStatus := PeriodEndStatus(p.totalPoints, p.userRank), challengeEndDate := Some(now))
  }

  // ---------------------------------------------------------------------------
  // trackAction
  // ---------------------------------------------------------------------------

  /** `contentId && !list.includes(contentId)`: present, non-empty (the empty string is falsy) and unseen. */
  predicate IsNewContent(contentId: Option<string>, seen: seq<string>) {
    contentId.Some? && contentId.value != "" && contentId.value !in seen
  }

  /** Complete challenge `id` for `points` only when it is still available. */
  function AwardIfAvailable(p: UserProgress, id: string, points: int, now: int): UserProgress
  {
    if IsAvailable(p, id) then CompleteChallenge(p, id, points, now) else p
  }

  /**
   * Record a user action: a new content id is appended to the matching list
   * (the peek view sets its flag) and the matching challenge is completed for
   * its catalog value if it is still available. A repeated or missing id, a
   * used peek view and an unknown action change nothing.
   */
  function TrackAction(p: UserProgress, action: string, contentId: Option<string>, now: int): UserProgress
  {
    if action == StartShowAction then
      if IsNewContent(contentId, p.startedShows) then
        AwardIfAvailable(p.(startedShows := p.startedShows + [contentId.value]), StartNewShowId, 200, now)
      else p
    else if action == CompleteSeriesAction then
      if IsNewContent(contentId, p.completedSeries) then
        AwardIfAvailable(p.(completedSeries := p.completedSeries + [contentId.value]), CompleteSeriesId, 300, now)
      else p
    else if action == AddToListAction then
      if IsNewContent(contentId, p.myListItems) then
        AwardIfAvailable(p.(myListItems := p.myListItems + [contentId.value]), AddToListId, 100, now)
      else p
    else if action == PeekViewAction then
      if !p.peekViewUsed then
        AwardIfAvailable(p.(peekViewUsed := true), TryPeekViewId, 250, now)
      else p
    else
      p
  }

  /** The list of content ids an action kind records into (empty for the others). */
  function ListFor(p: UserProgress, action: string): seq<string>
  {
    if action == StartShowAction then p.startedShows
    else if action == CompleteSeriesAction then p.completedSeries
    else if action == AddToListAction then p.myListItems
    else []
  }

  /** The challenge an action kind completes, with the points it awards. */
  function ChallengeFor(action: string): (string, int)
  {
    if action == StartShowAction then (StartNewShowId, 200)
    else if action == CompleteSeriesAction then (CompleteSeriesId, 300)
    else if action == AddToListAction then (AddToListId, 100)
    else (TryPeekViewId, 250)
  }

  predicate IsListAction(action: string) {
    action in {StartShowAction, CompleteSeriesAction, AddToListAction}
  }

  /** A content action with a missing, empty or already-recorded id changes nothing. */
  lemma TrackActionIgnoresRepeats(p: UserProgress, action: string, contentId: Option<string>, now: int)
    requires IsListAction(action)
    requires !IsNewContent(contentId, ListFor(p, action))
    ensures TrackAction(p, action, contentId, now) == p
  {
  }

  /** A used peek view and an unknown action kind change nothing. */
  lemma TrackActionIgnoresOthers(p: UserProgress, action: string, contentId: Option<string>, now: int)
    requires (action == PeekViewAction && p.peekViewUsed) ||
             (!IsListAction(action) && action != PeekViewAction)
    ensures TrackAction(p, action, contentId, now) == p
  {
  }

  /**
   * The fields a tracked action never writes: the goal, the reward, the
   * period end, the recorded actions and the trivia stamp.
   */
  predicate SameBookkeeping(q: UserProgress, p: UserProgress) {
    q.monthlyGoal == p.monthlyGoal && q.rewardStatus == p.rewardStatus &&
    q.userRank == p.userRank && q.challengeEndDate == p.challengeEndDate &&
    q.completedActions == p.completedActions && q.lastTriviaCompleted == p.lastTriviaCompleted
  }

  /**
   * The challenges after a tracked action that awards `id`: when it was
   * available, that one challenge is completed at its final progress and
   * every other entry is kept; otherwise the map is unchanged.
   */
  predicate AwardedOnly(q: UserProgress, p: UserProgress, id: string) {
    && q.challenges.Keys == p.challenges.Keys
    && (forall k :: k in p.challenges && k != id ==> q.challenges[k] == p.challenges[k])
    && (IsAvailable(p, id) ==>
          q.challenges[id] == p.challenges[id].(status := Completed,
                                                progress := Some(FinalProgress(p.challenges[id]))))
    && (!IsAvailable(p, id) ==> q.challenges == p.challenges)
  }

  /**
   * A new content id is appended exactly once to its list and the other lists
   * are untouched; the matching challenge is completed and gains its catalog
   * points exactly when it was available, and nothing else changes.
   */
  lemma TrackActionRecordsNewContent(p: UserProgress, action: string, x: string, now: int)
    requires IsListAction(action)
    requires IsNewContent(Some(x), ListFor(p, action))
    ensures var q := TrackAction(p, action, Some(x), now);
      && ListFor(q, action) == ListFor(p, action) + [x]
      && (forall a :: IsListAction(a) && a != action ==> ListFor(q, a) == ListFor(p, a))
      && q.peekViewUsed == p.peekViewUsed
      && q.totalPoints == p.totalPoints +
           (if IsAvailable(p, ChallengeFor(action).0) then ChallengeFor(action).1 else 0)
      && (IsAvailable(p, ChallengeFor(action).0) ==> q.challenges[ChallengeFor(action).0].status == Completed)
      && AwardedOnly(q, p, ChallengeFor(action).0)
      && SameBookkeeping(q, p)
  {
  }

  /**
   * The first peek view sets the flag and, if the peek challenge is
   * available, completes it and awards 250; nothing else changes.
   */
  lemma TrackActionFirstPeek(p: UserProgress, contentId: Option<string>, now: int)
    requires !p.peekViewUsed
    ensures var q := TrackAction(p, PeekViewAction, contentId, now);
      && q.peekViewUsed
      && q.totalPoints == p.totalPoints + (if IsAvailable(p, TryPeekViewId) then 250 else 0)
      && q.startedShows == p.startedShows && q.completedSeries == p.completedSeries
      && q.myListItems == p.myListItems
      && (IsAvailable(p, TryPeekViewId) ==> q.challenges[TryPeekViewId].status == Completed)
      && AwardedOnly(q, p, TryPeekViewId)
      && SameBookkeeping(q, p)
  {
  }

  // ---------------------------------------------------------------------------
  // Every transition keeps the aggregate well formed
  // ---------------------------------------------------------------------------

  lemma CompleteChallengeKeepsWellFormed(p: UserProgress, id: string, points: int, now: int)
    requires WellFormed(p)
    ensures WellFormed(CompleteChallenge(p, id, points, now))
  {
  }

  lemma EvaluateRewardKeepsWellFormed(p: UserProgress, rank: int)
    requires WellFormed(p) && ValidRank(rank)
    ensures WellFormed(EvaluateReward(p, rank))
  {
  }

  lemma RefreshTriviaKeepsWellFormed(p: UserProgress, now: int)
    requires WellFormed(p)
    ensures TriviaId in p.challenges
    ensures WellFormed(RefreshTrivia(p, now))
  {
  }

  lemma ClaimAndPeriodEndKeepWellFormed(p: UserProgress, now: int)
    requires WellFormed(p)
    ensures WellFormed(ClaimReward(p))
    ensures WellFormed(SimulatePeriodEnd(p, now))
  {
  }

  /** Appending an unseen id keeps a list free of duplicates. */
  lemma AppendUnseenKeepsDistinct(s: seq<string>, x: string)
    requires NoDuplicates(s) && x !in s
    ensures NoDuplicates(s + [x])
  {
    var t := s + [x];
    forall i, j | 0 <= i < j < |t| ensures t[i] != t[j] {
      if j == |s| {
        assert t[i] == s[i];
      }
    }
  }

  lemma TrackActionKeepsWellFormed(p: UserProgress, action: string, contentId: Option<string>, now: int)
    requires WellFormed(p)
    ensures WellFormed(TrackAction(p, action, contentId, now))
  {
    if action == StartShowAction && IsNewContent(contentId, p.startedShows) {
      AppendUnseenKeepsDistinct(p.startedShows, contentId.value);
      var r := p.(startedShows := p.startedShows + [contentId.value]);
      assert WellFormed(r);
      CompleteChallengeKeepsWellFormed(r, StartNewShowId, 200, now);
    } else if action == CompleteSeriesAction && IsNewContent(contentId, p.completedSeries) {
      AppendUnseenKeepsDistinct(p.completedSeries, contentId.value);
      var r := p.(completedSeries := p.completedSeries + [contentId.value]);
      assert WellFormed(r);
      CompleteChallengeKeepsWellFormed(r, CompleteSeriesId, 300, now);
    } else if action == AddToListAction && IsNewContent(contentId, p.myListItems) {
      AppendUnseenKeepsDistinct(p.myListItems, contentId.value);
      var r := p.(myListItems := p.myListItems + [contentId.value]);
      assert WellFormed(r);
      CompleteChallengeKeepsWellFormed(r, AddToListId, 100, now);
    } else if action == PeekViewAction && !p.peekViewUsed {
      var r := p.(peekViewUsed := true);
      assert WellFormed(r);
      CompleteChallengeKeepsWellFormed(r, TryPeekViewId, 250, now);
    }
  }
}
