# Challenge and reward engine of the storefront prototype, in Dafny

This project models the challenge/reward progress engine of a TypeScript/React
streaming storefront prototype and proves properties of the model. The engine
has these parts:

- **The catalog** (`src/data/challengeData.ts`). It has five challenges:
  start a new show (200), weekly trivia (150), complete a series (300), add to
  My List (100) and try the peek view (250). It also has a three-question trivia
  bank, whose current question is a function of the clock.
- **The `useChallenges` hook** (`src/hooks/useChallenges.ts`). It holds one
  `UserProgress` aggregate plus three UI signals: the points popup, its value
  and the reward banner. Its transitions are:
  - complete a challenge;
  - track a user action (start a show, complete a series, add to the list,
    use the peek view);
  - claim the reward;
  - end the challenge period;
  - reset.

  Two effects act on the same state. The first unlocks the reward once 1000
  points are reached, using a randomly drawn rank in 1..1200 and a cap of 1000.
  The second makes the weekly trivia available again when it runs at least a
  week after the last trivia completion. It runs only when that completion
  stamp changes, so within one session it never sees a full week.
  (Persistence is switched off.)
- **The trivia modal** (`src/components/Challenges/TriviaModal.tsx`). It judges
  the selected answer and reports 150 points for a right answer and 0 for a
  wrong one.
- **The "Complete a Series" page** (`src/components/Challenges/CompleteSeriesPage.tsx`).
  It lists the series not yet completed and keeps a simulated per-series
  progress. Each watch step adds 25, capped at 100, and completion is
  requested from 90.

Modules:

- `Wrappers` (`wrappers.dfy`): `Option`.
- `ChallengeData` (`challenge_data.dfy`): the records, the catalog, the trivia
  bank and the current question.
- `ProgressSpec` (`progress_spec.dfy`): the aggregate as a value, with each
  transition as a function. These are the `setUserProgress(prev => ...)`
  updaters of the hook. This module also holds the well-formedness invariant
  and the lemmas about each transition.
- `UseChallenges` (`use_challenges.dfy`): the hook as a class. It has the
  hook's four state slots as fields and one method per transition. Each
  method is proved to produce the `ProgressSpec` function of the old
  aggregate and to keep it well formed. The `forEach` that builds the
  challenge map is a loop proved against a fold.
- `TriviaModal` (`trivia_modal.dfy`): the modal's state and its submit
  handler, plus lemmas that connect its reported points to the engine.
- `CompleteSeriesPage` (`complete_series_page.dfy`): the series filter, the
  progress text, and the page's progress map as a class.
- `EngineProperties` (`engine_properties.dfy`): properties of whole runs of
  calls. They cover well-formedness, points that only grow, settled reward
  statuses, de-duplicated tracking, once-only payment for tracked actions,
  and the weekly reset's timing. It also has walk-throughs: all five
  challenges with rank 5, claim twice, shortfall at 400, and peek twice.

The hook is looser than a reward state machine with terminal states:

- `claimReward` sets 'claimed' whatever the status was. It is not restricted
  to 'unlocked'.
- The period end overwrites any status, including 'claimed'. It decides
  'unlocked' or 'cap_reached' from the rank already recorded and draws no new
  one; a missing rank, or a rank of 0, gives 'cap_reached'.
  `EngineProperties.PeriodEndOverwritesClaim` shows how 'claimed' is left.
- Completing an unknown challenge id is a silent no-op, not an error.
- The weekly reset makes the trivia available whatever its status.
- The points popup is raised for any positive `points`, even when the
  completion was a no-op. The reward banner flag is the only signal of a
  status change.

## Model

| member | source | states |
|---|---|---|
| ChallengeData.CatalogIdsDistinct | src/data/challengeData.ts:3-53 | the catalog has exactly five challenges with pairwise distinct ids, and its ids are exactly the catalog ids |
| ChallengeData.CatalogPointsReachGoal | src/data/challengeData.ts:3-53 | the point values 200+150+300+100+250 sum to the monthly goal of 1000 |
| ChallengeData.CatalogStartsAvailable | src/data/challengeData.ts:3-53 | every catalog challenge starts 'available' with positive points |
| ChallengeData.OnlyTriviaResetsWeekly | src/data/challengeData.ts:14-23 | a catalog challenge carries `weeklyReset` iff it is 'weekly-trivia', and has type 'trivia' iff it is 'weekly-trivia' |
| ChallengeData.CorrectAnswersInRange | src/data/challengeData.ts:55-87 | every question's `correctAnswer` indexes one of its options |
| ChallengeData.TriviaIndex | src/data/challengeData.ts:89-93 | the week-based index into the bank is always in bounds |
| ChallengeData.CurrentTriviaQuestion | src/data/challengeData.ts:89-93 | the current question is one of the bank, and its correct answer is a valid option |
| ChallengeData.SameWeekSameQuestion | src/data/challengeData.ts:89-93 | two instants in the same week since the epoch select the same question |
| ChallengeData.WeeksAheadRotate | src/data/challengeData.ts:89-93 | advancing the clock by k whole weeks advances the index by k modulo the bank size |
| ChallengeData.NextWeekNextQuestion | src/data/challengeData.ts:89-93 | one week later the next question of the bank is selected, cyclically |
| ProgressSpec.InsertAllContents | src/hooks/useChallenges.ts:11-14 | storing challenges with distinct ids under their ids adds exactly those keys, each mapped to its challenge, and keeps every other entry |
| ProgressSpec.CatalogMapFacts | src/hooks/useChallenges.ts:11-14 | the map the `forEach` builds from the catalog has exactly the catalog ids as keys, each mapped to its catalog entry |
| ProgressSpec.InitialProgressWellFormed | src/hooks/useChallenges.ts:7-27 | the initial aggregate is well formed |
| ProgressSpec.InitialProgressFacts | src/hooks/useChallenges.ts:7-27 | the initial aggregate is well formed and holds exactly the catalog ids as keys, each mapped to its catalog entry, which is 'available' |
| ProgressSpec.FinalProgress | src/hooks/useChallenges.ts:94 | `maxProgress \|\| 1` is the maximum when that is present and non-zero, and exactly 1 when it is absent or 0 |
| ProgressSpec.CompleteChallengeEffect | src/hooks/useChallenges.ts:86-117 | on an available challenge: completed, progress at its maximum, `points` added, trivia time stamped only for 'weekly-trivia', nothing else changed; otherwise the aggregate is unchanged |
| ProgressSpec.CompleteChallengeIdempotent | src/hooks/useChallenges.ts:88-117 | a second completion of the same id changes nothing, so its points are counted once |
| ProgressSpec.RankOutcome | src/hooks/useChallenges.ts:47-51 | a rank earns 'unlocked' iff it is at most 1000 and 'cap_reached' iff above |
| ProgressSpec.EvaluateReward | src/hooks/useChallenges.ts:42-55 | the unlock fires only at 1000 points with status 'none', records the rank and sets the rank's outcome; otherwise nothing changes |
| ProgressSpec.EvaluateRewardSettles | src/hooks/useChallenges.ts:42-55 | the unlock never overrides a status other than 'none', and firing it again changes nothing |
| ProgressSpec.WeeksSince | src/hooks/useChallenges.ts:64 | at least one whole week has elapsed iff the elapsed time is at least 604800000 ms |
| ProgressSpec.RefreshTrivia | src/hooks/useChallenges.ts:58-81 | the trivia becomes 'available' iff a completion is stamped and a full week has passed; nothing else changes |
| ProgressSpec.ClaimReward | src/hooks/useChallenges.ts:128-134 | the status becomes 'claimed' whatever it was, and nothing else changes |
| ProgressSpec.PeriodEndStatus | src/hooks/useChallenges.ts:136-145 | 'shortfall' iff below 1000 points; 'unlocked' iff at least 1000 points with a truthy rank of at most 1000; 'cap_reached' otherwise |
| ProgressSpec.SimulatePeriodEnd | src/hooks/useChallenges.ts:136-145 | the period end overwrites the status with the decided one, records the end date and changes nothing else |
| ProgressSpec.TrackActionIgnoresRepeats | src/hooks/useChallenges.ts:151-185 | a content action with a missing, empty or already recorded id changes nothing |
| ProgressSpec.TrackActionIgnoresOthers | src/hooks/useChallenges.ts:147-199 | a used peek view and an unknown action kind change nothing |
| ProgressSpec.TrackActionRecordsNewContent | src/hooks/useChallenges.ts:151-185 | a new id is appended once to its own list only; iff the matching challenge was available it is completed at its final progress and its catalog points are added; no other challenge, the reward, the period end or the trivia stamp changes |
| ProgressSpec.TrackActionFirstPeek | src/hooks/useChallenges.ts:187-197 | the first peek view sets the flag; iff the peek challenge is available it is completed and 250 is added; the lists, the other challenges, the reward, the period end and the trivia stamp are kept |
| ProgressSpec.CompleteChallengeKeepsWellFormed | src/hooks/useChallenges.ts:83-126 | completing a challenge keeps the aggregate well formed |
| ProgressSpec.EvaluateRewardKeepsWellFormed | src/hooks/useChallenges.ts:42-55 | the unlock keeps the aggregate well formed, and the recorded rank lies in 1..1200 |
| ProgressSpec.RefreshTriviaKeepsWellFormed | src/hooks/useChallenges.ts:58-81 | a well-formed aggregate has the trivia entry, and the reset keeps it well formed |
| ProgressSpec.ClaimAndPeriodEndKeepWellFormed | src/hooks/useChallenges.ts:128-145 | claiming and ending the period keep the aggregate well formed |
| ProgressSpec.AppendUnseenKeepsDistinct | src/hooks/useChallenges.ts:152-156 | appending an id not yet in a list keeps it free of duplicates |
| ProgressSpec.TrackActionKeepsWellFormed | src/hooks/useChallenges.ts:147-199 | every tracked action keeps the aggregate well formed, so no content list ever holds a duplicate |
| UseChallenges.BuildChallengesMap | src/hooks/useChallenges.ts:11-14 | the loop builds the fold of the catalog into a map; for distinct ids the keys are the ids and each maps to its challenge |
| UseChallenges.BuildCatalogMap | src/hooks/useChallenges.ts:11-14 | the loop over the catalog yields the catalog map |
| UseChallenges.ProgressStore.constructor | src/hooks/useChallenges.ts:7-33 | the hook starts from the initial aggregate, well formed, with no popup and no banner |
| UseChallenges.ProgressStore.ResetProgress | src/hooks/useChallenges.ts:201-221 | reset yields exactly the initial aggregate and leaves the signals alone |
| UseChallenges.ProgressStore.CompleteChallenge | src/hooks/useChallenges.ts:83-126 | the new aggregate is the completion of the old one, still well formed; the popup is raised with `points` iff `points > 0`; the banner is untouched |
| UseChallenges.ProgressStore.EvaluateReward | src/hooks/useChallenges.ts:42-55 | the new aggregate is the unlock of the old one; the banner is raised iff the unlock was due |
| UseChallenges.ProgressStore.RefreshTrivia | src/hooks/useChallenges.ts:58-81 | the new aggregate is the weekly reset of the old one; the signals are untouched |
| UseChallenges.ProgressStore.ClaimReward | src/hooks/useChallenges.ts:128-134 | the new aggregate is the claim of the old one, and the banner is shown |
| UseChallenges.ProgressStore.SimulateChallengePeriodEnd | src/hooks/useChallenges.ts:136-145 | the new aggregate is the period end of the old one, and the banner is shown |
| UseChallenges.ProgressStore.TrackAction | src/hooks/useChallenges.ts:147-199 | the new aggregate is the tracked action applied to the old one; the popup shows the points gained iff any were gained |
| UseChallenges.ProgressStore.TrackStartShow | src/hooks/useChallenges.ts:151-161 | the 'start-show' case of the tracked action, with its popup |
| UseChallenges.ProgressStore.TrackCompleteSeries | src/hooks/useChallenges.ts:163-173 | the 'complete-series' case of the tracked action, with its popup |
| UseChallenges.ProgressStore.TrackAddToList | src/hooks/useChallenges.ts:175-185 | the 'add-to-list' case of the tracked action, with its popup |
| UseChallenges.ProgressStore.TrackPeekView | src/hooks/useChallenges.ts:187-197 | the 'peek-view' case of the tracked action, whatever the content id, with its popup |
| UseChallenges.ProgressStore.SetShowRewardBanner | src/hooks/useChallenges.ts:231 | the banner takes the given visibility and nothing else changes |
| TriviaModal.SubmitAward | src/components/Challenges/TriviaModal.tsx:17-31 | nothing is reported iff no answer is selected; 150 iff the selection is the correct answer; 0 iff it is another |
| TriviaModal.TriviaModalState.constructor | src/components/Challenges/TriviaModal.tsx:11-13 | the modal opens with no selection and no result |
| TriviaModal.TriviaModalState.SelectAnswer | src/components/Challenges/TriviaModal.tsx:71 | clicking an option selects it and changes nothing else |
| TriviaModal.TriviaModalState.HandleSubmit | src/components/Challenges/TriviaModal.tsx:15-31 | the reported points are the award for the question of the week the modal rendered in; without a selection nothing changes, otherwise the result is shown and `isCorrect` records the verdict |
| TriviaModal.SubmissionCompletesTrivia | src/components/Challenges/TriviaModal.tsx:24-30 | a reported answer completes the available trivia and stamps the time; only a right answer adds 150 and raises the popup |
| TriviaModal.ResubmissionEarnsNothing | src/components/Challenges/TriviaModal.tsx:24-30 | once the trivia is completed, further submissions change nothing until the weekly reset |
| CompleteSeriesPage.SeriesOnly | src/components/Challenges/CompleteSeriesPage.tsx:22-24 | a title is listed iff it is available, not a 'MOVIE', and not among the completed series; each listed title occurs as often as among the available ones |
| CompleteSeriesPage.SeriesOnlyAppend | src/components/Challenges/CompleteSeriesPage.tsx:22-24 | the filter keeps order: filtering a concatenation gives the concatenation of the filtered parts |
| CompleteSeriesPage.NextProgress | src/components/Challenges/CompleteSeriesPage.tsx:29 | a step never goes past 100; it adds 25 up to 75 and lands on 100 from 75 on |
| CompleteSeriesPage.GetProgressText | src/components/Challenges/CompleteSeriesPage.tsx:44-49 | 'Not Started' iff the progress is 0; 'N% Complete' with N the progress iff below 90; 'Ready to Complete!' iff 90 or more |
| CompleteSeriesPage.CanCompleteIffReady | src/components/Challenges/CompleteSeriesPage.tsx:135 | `canComplete` holds iff the text reads 'Ready to Complete!', and a percentage shown is 25, 50 or 75 |
| CompleteSeriesPage.ProgressAfterSteps | src/components/Challenges/CompleteSeriesPage.tsx:28-29 | k steps from no entry read min(25k, 100) |
| CompleteSeriesPage.FourthStepCompletes | src/components/Challenges/CompleteSeriesPage.tsx:36-40 | completion is requested iff at least four steps were taken, and the progress never exceeds 100 |
| CompleteSeriesPage.SeriesProgress.constructor | src/components/Challenges/CompleteSeriesPage.tsx:19 | the page opens with no progress recorded |
| CompleteSeriesPage.SeriesProgress.HandleStartWatching | src/components/Challenges/CompleteSeriesPage.tsx:26-42 | one step on that series alone; the progress strictly grows or stays at 100; completion is requested iff the new progress is at least 90 |
| EngineProperties.StepKeepsWellFormed | src/hooks/useChallenges.ts:42-221 | every call into the engine keeps the aggregate well formed |
| EngineProperties.Run | src/hooks/useChallenges.ts:42-221 | any sequence of calls keeps the aggregate well formed |
| EngineProperties.StepKeepsPoints | src/hooks/useChallenges.ts:83-199 | no call other than a reset or a negative award lowers the total |
| EngineProperties.TrackActionGains | src/hooks/useChallenges.ts:147-199 | a tracked action gains 0 or the catalog value of one challenge |
| EngineProperties.RunNeverLosesPoints | src/hooks/useChallenges.ts:83-221 | the total never decreases over a run without a reset or a negative award |
| EngineProperties.StepKeepsSettledStatus | src/hooks/useChallenges.ts:42-55 | once the status has left 'none', only claim, period end and reset change it |
| EngineProperties.TrackActionKeepsStatus | src/hooks/useChallenges.ts:147-199 | tracking never touches the reward status or the rank |
| EngineProperties.RunKeepsSettledStatus | src/hooks/useChallenges.ts:42-221 | 'claimed', 'cap_reached' and 'shortfall' survive every run without a claim, a period end or a reset |
| EngineProperties.PeriodEndOverwritesClaim | src/hooks/useChallenges.ts:136-145 | the period end turns 'claimed' back into 'unlocked' (rank within the cap) or 'cap_reached' (no rank) |
| EngineProperties.TrackActionIdempotent | src/hooks/useChallenges.ts:147-199 | repeating a tracked action with the same content id changes nothing more |
| EngineProperties.TrackRepeatedlyIsOnce | src/hooks/useChallenges.ts:147-199 | any positive number of identical tracked actions has the effect of one |
| EngineProperties.AddToListDedup | src/hooks/useChallenges.ts:175-185 | adding a title any number of times records it exactly once and awards 100 at most once |
| EngineProperties.TrackedValue | src/hooks/useChallenges.ts:147-199 | the completed tracked challenges are worth between 0 and 850 points |
| EngineProperties.CompleteChallengeEarnedElsewhere | src/hooks/useChallenges.ts:88-117 | completing one challenge changes no other challenge's completion |
| EngineProperties.TrackActionAccounts | src/hooks/useChallenges.ts:147-199 | a tracked action adds to the total exactly the value it adds to completed tracked challenges |
| EngineProperties.AwardAccounts | src/hooks/useChallenges.ts:158-195 | awarding a tracked challenge its catalog value if available keeps that balance |
| EngineProperties.TrackedActionsPayOnce | src/hooks/useChallenges.ts:147-199 | from a balanced aggregate, tracked actions alone earn exactly the value of the challenges they completed, at most 850 |
| EngineProperties.InitialProgressBalanced | src/hooks/useChallenges.ts:7-27 | the fresh aggregate is balanced at 0 |
| EngineProperties.WeeklyResetTiming | src/hooks/useChallenges.ts:58-81 | completed at T: a reset run at T+6 days leaves it completed, one run at T+8 days makes it available, other challenges untouched |
| EngineProperties.ClockSkewNeverResets | src/hooks/useChallenges.ts:63-65 | a clock earlier than the stamp never resets the trivia |
| EngineProperties.FirstCompletion | src/hooks/useChallenges.ts:83-126 | adding to the list on a fresh aggregate: 100 points, that challenge completed |
| EngineProperties.CompleteLeavesOthersAvailable | src/hooks/useChallenges.ts:88-117 | completing one challenge leaves the others available and the reward status unchanged |
| EngineProperties.AllFiveUnlock | src/hooks/useChallenges.ts:42-126 | completing all five catalog challenges from fresh gives exactly 1000, and rank 5 then unlocks the reward |
| EngineProperties.ClaimTwice | src/hooks/useChallenges.ts:128-134 | claiming an unlocked reward gives 'claimed', and claiming again changes nothing |
| EngineProperties.ShortfallSticks | src/hooks/useChallenges.ts:136-145 | ending at 400 points gives 'shortfall', which later completions and the unlock effect leave alone while points still add |
| UseChallenges.FirstCompletionOnStore | src/hooks/useChallenges.ts:83-126 | a fresh store completing 'add-to-list' for 100 holds 100 points with that challenge completed and shows the popup with 100 |
| EngineProperties.PeekTwice | src/hooks/useChallenges.ts:187-197 | the first peek view awards 250 and sets the flag; the second changes nothing |

## Left out

- Rendering, JSX, styling and icons are left out, and so is `getProgressColor`. `GetProgressText` returns a datatype: the number is kept and the percent string is not formatted.
- Timers are left out: the 2 s popup dismissal, the modal's 2 s delay before reporting, and the page's 1 s delay before requesting completion. The reported points and the completion request are method results instead.
- `Math.random()` is left out. The drawn rank is a parameter of `EvaluateReward`, required to lie in 1..1200 as the draw guarantees.
- `new Date()` is left out. The clock is an integer millisecond parameter, and stored dates are those integers. The trivia question takes a non-negative clock, since dates before 1970 are not modelled.
- React's scheduling is left out. The two effects are methods that can be called at any time, rather than runs triggered by a change of points, status or trivia stamp. `trackAction`'s read of the render-time state is modelled as one atomic transition on the current state.
- `console.log`, the commented-out `localStorage` persistence, and the `window.trackAction` global are left out.
- The wiring that passes the modal's points and the page's completion request to `completeChallenge` lives in ChallengeHub.tsx, which is not part of this model. `TriviaModal.SubmissionCompletesTrivia` states that link for the trivia.
- `VideoContent` keeps only `id`, `title` and `genre`, the fields the page's logic reads.
- JavaScript numbers are modelled as unbounded integers. All values involved are small integers.
- `completedActions` is carried but never written, as in the hook.
- UseChallenges.ProgressStore.RefreshTrivia: may be called at any time and with any clock. In the hook the effect runs only on mount, after a reset and right after a trivia completion. At those moments there is either no stamp or about 0 ms since it, so within one session the trivia never becomes available again. `EngineProperties.WeeklyResetTiming` is about what the trivia reset computes when it runs, not about when the hook runs it.
- ProgressSpec.RefreshTrivia: requires the trivia entry to exist. The hook would create a partial entry if it were missing, but every well-formed aggregate has it (`RefreshTriviaKeepsWellFormed`).
- TriviaModal.TriviaModalState.SelectAnswer: accepts any index. The option buttons only offer indices of the current question's options, and an index that is not the correct answer is judged wrong either way.
