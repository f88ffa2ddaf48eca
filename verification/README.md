# Gamified trading-training progression, modelled in Dafny

The application is a single-page trading tutor. A learner earns XP and climbs
levels 1–114 and six ranks. Each day the learner gets quests from a pool that
depends on their level tier. A quest is a charting exercise that needs a number
of passing attempts ("reps"). Finishing a quest records it against a trading
concept and, once every quest of a stage is done, opens the stage's
multiple-choice test. Around this core sit a daily-activity streak, a pomodoro
timer that pays XP, a daily-quest board, module tests with an emotional-state
question, and a seasonal-strength chart.

The model lifts every React state update out as a pure function from the state
before a click to the state after it. All arithmetic is on unbounded integers:
- JavaScript's `Math.round(a / b)` is read exactly as `floor(a/b + 1/2)`
  (`Common.RoundDiv`).
- The 0.8 credit of an emotional-state answer is counted in tenths.

The modules follow the source:
- `Progression`: the XP ledger, rank and tier.
- `Catalog`: quest pools, concept system and the daily window.
- `Validation`: the deterministic score of an attempt.
- `McqRunner`: the concept test.
- `ConceptProgression`: `completeQuest`'s concept update and the stage trigger.
- `Engine`: the application state and its handlers.
- `Streak`: the daily-activity streak.
- `Widgets`: the pomodoro timer, the clock text and the bias label.
- `DailyBoard`: the daily-quest page.
- `ModuleTests`: the module-test page.
- `Seasonal`: the strength chart.
- `Common` and `Text` hold the integer and decimal-text helpers.

Inputs the source draws from the outside world are parameters:
- the per-criterion verdicts of the validator;
- the random indices and quest count of the daily board;
- the 30% draw of the emotional trigger;
- the day number of the streak and of the daily window;
- the time stamp that goes into a daily quest's id.

## Model

| member | source | states |
|---|---|---|
| Common.RoundDiv | latest/app.tsx:361 | the result r is the nearest integer to a/b with halves rounded up: 2br ≤ 2a+b < 2b(r+1) |
| Progression.LevelUpsBounds | latest/app.tsx:264-270 | the cascading level-up loop never lowers the level or passes 114 from below; below 114 the remainder is less than the next level's requirement; at or above 114 nothing changes |
| Progression.AddXP | latest/app.tsx:261-270 | the level never drops; a settled ledger stays settled for a non-negative amount; at level 114 the XP keeps accumulating |
| Progression.AddXPLoop | latest/app.tsx:261-270 | the source's while loop computes the same ledger as the recursive definition |
| Progression.LevelUpsStep | latest/app.tsx:264-268 | one pass of the loop spends the current level's requirement and moves up one level |
| Progression.LevelUpsCompose | latest/app.tsx:261-270 | running the loop and then adding b more XP gives the same ledger as one run on the combined XP |
| Progression.AddXPAdditive | latest/app.tsx:261-270 | addXP(a) followed by addXP(b) equals addXP(a+b) for b ≥ 0 |
| Progression.LevelUpsConserves | latest/app.tsx:257-270 | the loop preserves the total XP, meaning the XP needed to reach the level plus the XP held |
| Progression.AddXPConserves | latest/app.tsx:257-270 | addXP raises the total XP by exactly the amount |
| Progression.AddXPCharacterised | latest/app.tsx:257-270 | for a non-negative amount, the result of addXP is the unique settled ledger with the new total |
| Progression.CumulativeStrictlyIncreasing | latest/app.tsx:257 | the XP needed to reach a higher level exceeds that of a lower one by at least the lower level's requirement |
| Progression.SettledUnique | latest/app.tsx:257-270 | two settled ledgers with the same total XP are equal |
| Progression.CumulativeClosedForm | latest/app.tsx:257 | reaching level lv takes 25(lv−1)(lv+2) XP in total |
| Progression.RankIndexBands | latest/app.tsx:236-239 | for levels 1..114 the rank index lies in 0..5, equals (level−1) div 19, and the level lies in that rank's band of 19 |
| Progression.RankIndexMonotone | latest/app.tsx:236-239 | the rank index never decreases as the level rises |
| Progression.CurrentRank | latest/app.tsx:236-239 | getCurrentRank returns one of the six rank names |
| Progression.RankAtBounds | latest/app.tsx:236-239 | level 1 is E-RANK and level 114 is S-RANK |
| Progression.LevelTierMonotone | latest/app.tsx:281-285 | the tier (≤20 beginner, ≤60 intermediate, else advanced) never decreases as the level rises |
| Streak.UpdateStreak | latest/app.tsx:562-572 | the streak date becomes today; a valid streak stays valid; a streak not already dated today has a count of at least 1 afterwards |
| Streak.UpdateStreakIdempotent | latest/app.tsx:568 | a second update on the same day changes nothing |
| Streak.ReplayCountsTrailingRun | latest/app.tsx:562-572 | replaying a chronological activity log leaves exactly the run of consecutive days ending at the last day: every day of the run is in the log and the day before it is not |
| Catalog.Pool | latest/app.tsx:9-94 | every tier's pool is non-empty and holds at most three quests |
| Catalog.PoolsInCatalog | latest/app.tsx:9-94 | every pooled quest is a catalog quest |
| Catalog.CatalogWellFormed | latest/app.tsx:9-94 | every catalog quest needs at least one rep and one criterion, its criterion names are distinct, and none is the quest structure_advanced |
| Catalog.Window | latest/app.tsx:290-294 | the daily window holds three quests of the pool |
| Catalog.DailyQuests | latest/app.tsx:287-295 | getCurrentQuests returns three quests of the learner's tier pool |
| Catalog.WindowSlides | latest/app.tsx:290-294 | slot k on day d+1 is slot k+1 on day d, for k < 2 |
| Catalog.WindowPeriodic | latest/app.tsx:290-294 | the window repeats after as many days as the pool has quests |
| Catalog.WindowSlots | latest/app.tsx:290-294 | slots 1 and 2 are the pool entries one and two places after d mod n |
| Catalog.WindowDistinct | latest/app.tsx:290-294 | over three or more distinct quests, the three slots are distinct |
| Catalog.WindowIsRotation | latest/app.tsx:290-294 | over a pool of exactly three, day d's window is the pool started at place d mod 3 |
| Catalog.RotationKeepsMultiset | latest/app.tsx:290-294 | each of the three rotations holds the same quests as the pool |
| Catalog.WindowOfThree | latest/app.tsx:290-294 | over a pool of exactly three, the window is a permutation of the pool |
| Catalog.WindowOfTwo | latest/app.tsx:290-294 | over a pool of two, the window alternates them: first and last slot agree, the middle differs |
| Catalog.DailyQuestsRepeats | latest/app.tsx:287-295 | the pools are smaller than the window: the beginner list is a rotation of its pool, the intermediate list shows its first and third quest equal and the middle one different, and the advanced list is one quest three times |
| Catalog.ConceptIdsAreKeys | latest/app.tsx:97-201 | the concept system and its question table have the same three keys |
| Catalog.ConceptsWellFormed | latest/app.tsx:97-201 | every concept has test questions and every stage asks for a test |
| Catalog.QuestsWithoutConcept | latest/app.tsx:9-201 | two pooled quests name a concept the concept system does not define; every beginner quest names a defined one |
| Validation.Recorded | latest/app.tsx:339-341 | the verdict object has exactly the quest's criterion names as keys |
| Validation.RecordedLastWins | latest/app.tsx:339-341 | the verdict stored under a name is the one given at the name's last position |
| Validation.MetCountStore | latest/app.tsx:341 | storing one verdict moves the met count by at most one, and under a new name by exactly that verdict |
| Validation.MetCountAtMost | latest/app.tsx:339-360 | the met count never exceeds the number of listed criteria |
| Validation.CountTrue | latest/app.tsx:360 | the positional count of true verdicts is at most their number; it is the full number iff all are true and zero iff none is |
| Validation.MetCountDistinct | latest/app.tsx:339-360 | with distinct criterion names the met count is the number of true verdicts |
| Validation.Validate | latest/app.tsx:359-362 | the verdicts are stored by name; the score lies in 0..100 and is round(100·met/n), with met counted over the stored verdicts and n the listed criteria; the attempt passes iff that score ≥ minAccuracy; with no criteria the score is NaN and the attempt fails |
| Validation.ValidateCatalogQuest | latest/app.tsx:339-362 | on every catalog quest the score is round(100·true verdicts/n) and the pass is the integer test on that count |
| Validation.RepeatedCriterionCollapses | latest/app.tsx:339-361 | a name listed twice counts once with its last verdict: met then unmet scores 0, met twice scores 50 |
| Validation.ValidateExtremes | latest/app.tsx:339-362 | all criteria met scores 100 when the names are distinct; none met scores 0 |
| Validation.NoneMet | latest/app.tsx:339-360 | with every verdict false no stored verdict is true |
| Validation.ValidateMonotone | latest/app.tsx:339-362 | meeting more criteria never lowers the score and never turns a pass into a fail |
| Validation.CountTrueMonotone | latest/app.tsx:360 | pointwise more verdicts true never gives a lower count |
| McqRunner.StartMcq | latest/app.tsx:486-497 | a new test starts at question 0 with no answers, on an existing question when the bank is non-empty |
| McqRunner.Choose | latest/app.tsx:923-925 | choosing an option stores it at the current index only, leaving other answers, questions and position as they were |
| McqRunner.Previous | latest/app.tsx:940-944 | Previous moves back one question, and does nothing at question 0 |
| McqRunner.Next | latest/app.tsx:950-959 | Next moves forward one question before the last, does nothing on the last, and changes nothing but the position |
| McqRunner.NextTimes | latest/app.tsx:950-959 | k presses of Next reach question min(current + k, n − 1) and change nothing but the position |
| McqRunner.CorrectBelow | latest/app.tsx:964-966 | the correct count over the first k questions is at most k |
| McqRunner.CorrectBelowCountsSet | latest/app.tsx:964-966 | the reduce total equals the number of indices whose stored answer is the correct option |
| McqRunner.CorrectCountIsCorrectSet | latest/app.tsx:964-966 | the whole-test count is the size of the set of correctly answered indices |
| McqRunner.CorrectBelowUnanswered | latest/app.tsx:964-966 | a test with no answers has no correct ones: holes count as wrong |
| McqRunner.McqPercentage | latest/app.tsx:967 | the percentage lies in 0..100 and is 100 when every answer is correct |
| McqRunner.McqPassThreshold | latest/app.tsx:967-969 | the test passes at 80 iff 200·correct ≥ 159·n |
| McqRunner.HalfRightScoresFifty | latest/app.tsx:964-969 | one of two questions right scores 50, which fails |
| ConceptProgression.RecordQuest | latest/app.tsx:432-446 | for a defined concept, the quest id is appended to that concept's list and nothing else changes; for an undefined concept the progress is unchanged |
| ConceptProgression.TriggeredStages | latest/app.tsx:470-481 | a stage fires iff all its quests are completed, it is not yet in completedStages and it has a test |
| ConceptProgression.TriggeredStagesAppend | latest/app.tsx:471-481 | the firing stages of two runs of stages placed one after the other are those of the first run followed by those of the second, so the filter keeps concept order |
| ConceptProgression.TriggeredStagesSingle | latest/app.tsx:471-481 | a single stage is kept exactly when it fires |
| ConceptProgression.SomeLastTrigger | latest/app.tsx:471-481 | when some stage fires, one of them is the last to fire in concept order |
| ConceptProgression.TriggeredStagesLast | latest/app.tsx:471-481 | the last entry of the filtered list is the last stage, in concept order, that fires |
| ConceptProgression.CheckStages | latest/app.tsx:467-483 | if no stage fires the open test is kept; otherwise the test of the last entry of the firing stages is open, fresh and on an existing question |
| ConceptProgression.CheckStagesOpensLastTrigger | latest/app.tsx:467-483 | with no stage firing the open test is kept; otherwise the open test is that of the last stage, in concept order, that fires, since each startMCQTest replaces the one before |
| ConceptProgression.StageNeedsEveryQuest | latest/app.tsx:474-476 | a stage with a missing quest does not fire |
| ConceptProgression.StageKeepsFiring | latest/app.tsx:437-481 | once a stage fires it fires again at every later completion in its concept |
| ConceptProgression.CompletedStagesStayEmpty | latest/app.tsx:437-444 | recording quests never writes completedStages |
| ConceptProgression.RecordCatalogQuest | latest/app.tsx:432-446 | recording a catalog quest keeps every listed id a catalog quest |
| ConceptProgression.AdvancedStructureNeverFires | latest/app.tsx:470-481 | while the lists hold only catalog quests, the advanced market-structure stage never fires |
| ConceptProgression.TotalQuests | latest/app.tsx:1109 | a concept without stages asks no quests |
| ConceptProgression.TotalQuestsAppend | latest/app.tsx:1109 | the reduce over stages placed one after another is the sum of the two reduces |
| ConceptProgression.TotalQuestsCountsStageQuests | latest/app.tsx:1109 | the reduce is the length of all stages' quest lists concatenated in order |
| ConceptProgression.TakeTestCountsEntries | latest/app.tsx:1108-1110 | the concept bar counts list entries: one completion of Structure Marking leaves Take Test hidden, a second one shows it while the advanced stage is still incomplete |
| Engine.SeedReps | latest/app.tsx:304 | a quest without stored progress starts at 0 reps; otherwise it starts at its stored rep count |
| Engine.StartQuestSession | latest/app.tsx:298-310 | a fresh session for the quest, seeded with the stored reps, with markings and results cleared and the rest of the state unchanged |
| Engine.AddMarking | latest/app.tsx:313-322 | the new marking goes last and nothing else changes |
| Engine.ClearMarkings | latest/app.tsx:872 | only the markings are emptied |
| Engine.ExitQuest | latest/app.tsx:728-733 | the quest screen closes while the stored progress, XP, concepts, achievements and open test are kept |
| Engine.AwardXP | latest/app.tsx:261-270 | only the ledger changes, by addXP |
| Engine.QuestMaster | latest/app.tsx:451 | the achievement title and description name the quest and its reps |
| Engine.CompleteQuest | latest/app.tsx:432-457 | the quest is recorded against a defined concept; the stage check runs; the achievement is appended; the quest screen is cleared; XP and questProgress are untouched |
| Engine.SubmitQuestAttempt | latest/app.tsx:368-418 | every attempt is counted and recorded. A fail changes only the session and the shown result. A pass stores completedReps+1 with the attempt count and awards 20 XP. It completes the quest iff completedReps+1 ≥ reps, and otherwise clears the markings for the next rep |
| Engine.SubmitValidated | latest/app.tsx:378-418 | once validated, a failing attempt has the fail outcome and a passing one the pass outcome; the quest stays the same unless it is closed |
| Engine.FailedAttempt | latest/app.tsx:378-393 | a failing attempt adds one attempt, its snapshot and its validation to the session, shows the validation, and changes nothing else |
| Engine.PassedAttempt | latest/app.tsx:378-418 | a passing attempt stores completedReps+1 and the attempt count, awards 20 XP, clears markings and result, completes the quest iff the rep count is reached, and otherwise keeps the session open with one more attempt, the attempt's snapshot and validation appended, and the next rep's counter |
| Engine.SubmitAll | latest/app.tsx:368-418 | a run of submissions keeps the state consistent |
| Engine.RepsFrozenAsWritten | latest/app.tsx:379-396 | as written, the session's rep counter never moves. The stored rep count never exceeds the starting value plus one, and a quest needing more stays open |
| Engine.TenPassesDoNotCompleteAsWritten | latest/app.tsx:379-412 | ten passing attempts of a fresh learner on Structure Marking (10 reps) leave the quest open |
| Engine.RepsCountedComplete | latest/app.tsx:396-412 | with the counter advanced on each pass, the quest completes exactly when the reps are reached, storing the full rep count |
| Engine.RestartSeedsStoredReps | latest/app.tsx:300-306 | leaving and reopening a quest after a pass resumes from one rep more |
| Engine.CompletedQuestLocked | latest/app.tsx:1047-1049 | a completed quest's Start Quest button is disabled |
| Engine.TestMaster | latest/app.tsx:971 | the achievement names the concept and the percentage |
| Engine.SubmitMcqTest | latest/app.tsx:962-975 | the test closes. At 80% or more it awards 50 XP and a Test Master achievement; otherwise nothing. The quest state is untouched |
| Engine.TakeFinalTest | latest/app.tsx:486-497 | Take Test opens the concept's final test, fresh and on its first question, and changes nothing else |
| Engine.FinalTestUnansweredAwardsNothing | latest/app.tsx:950-975 | a final test paged with Next to its last question, where Submit Test is shown, and submitted without answers closes and awards neither XP nor an achievement |
| Engine.UnansweredTestAwardsNothing | latest/app.tsx:964-975 | a test left unanswered awards neither XP nor an achievement |
| Engine.StructureMarkingOpensBasics | latest/app.tsx:432-483 | finishing Structure Marking opens the basics test of market structure, whatever test was open |
| Widgets.StartPomodoro | latest/app.tsx:575-577 | a running 1500-second work period |
| Widgets.StopPomodoro | latest/app.tsx:579-581 | an idle timer back at 1500 seconds of work |
| Widgets.Tick | latest/app.tsx:587-597 | a valid timer stays valid. XP is paid iff a running work period ends, and then it is 25 with a 300-second break started. Otherwise the timer counts down or stays idle |
| Widgets.RunTicks | latest/app.tsx:583-601 | any number of ticks keeps the timer valid |
| Widgets.IdleStaysIdle | latest/app.tsx:585 | an idle timer never moves or pays |
| Widgets.CountDown | latest/app.tsx:596 | before its last second, a period counts down one per tick |
| Widgets.RunTicksSplit | latest/app.tsx:583-601 | ticks compose, and so do the XP they pay |
| Widgets.RunOutPeriod | latest/app.tsx:587-597 | a running period ends after as many ticks as it has seconds left |
| Widgets.FullCycle | latest/app.tsx:575-601 | a full pomodoro of 1800 ticks ends idle, having paid 25 XP |
| Widgets.FormatClock | latest/app.tsx:603-607 | the clock text has at least five characters around a colon |
| Widgets.FormatClockInjective | latest/app.tsx:603-607 | different times show different clock texts |
| Widgets.FormatClockReadBack | latest/app.tsx:603-607 | the digits before the first colon read back as the minutes and those after it as the seconds within the minute |
| Widgets.FormatClockUnderAnHour | latest/app.tsx:603-607 | under an hour the text is five characters: two digits reading back as the minutes, a colon, two digits reading back as the seconds |
| Widgets.BiasLabel | latest/app.tsx:556-559 | the label starts with N iff the value is 50, with L iff above, with S iff below |
| Widgets.BiasLabelReadBack | latest/app.tsx:556-559 | the distance from 50 can be read back from a long or short label |
| Widgets.BiasLabelInjective | latest/app.tsx:556-559 | each slider value has its own label |
| DailyBoard.Pool | latest/scr/components/DailyQuestPage.tsx:7-119 | the Easy, Medium and Hard pools hold 4, 5 and 6 templates |
| DailyBoard.PoolDistinct | latest/scr/components/DailyQuestPage.tsx:7-119 | no pool lists a template twice |
| DailyBoard.RemoveAt | latest/scr/components/DailyQuestPage.tsx:132 | splice removes exactly the picked entry and keeps the others in order |
| DailyBoard.RemoveAtMultiset | latest/scr/components/DailyQuestPage.tsx:132 | the removed entry and the remainder together are the list before |
| DailyBoard.Select | latest/scr/components/DailyQuestPage.tsx:130-132 | the loop selects min(count, pool size) templates |
| DailyBoard.DrawKeepsSub | latest/scr/components/DailyQuestPage.tsx:130-132 | a draw keeps the selection inside the pool when the later draws stay inside the spliced list |
| DailyBoard.SelectSubMultiset | latest/scr/components/DailyQuestPage.tsx:127-149 | the selection is drawn without replacement from the pool |
| DailyBoard.SelectDistinct | latest/scr/components/DailyQuestPage.tsx:127-149 | from a pool of distinct templates no template is selected twice |
| DailyBoard.HardTakesWholePool | latest/scr/components/DailyQuestPage.tsx:127-149 | a Hard board, asking 6–8 quests of 6 templates, takes the whole pool |
| DailyBoard.QuestIdInjective | latest/scr/components/DailyQuestPage.tsx:138 | a quest id determines its time stamp and position |
| DailyBoard.NewQuest | latest/scr/components/DailyQuestPage.tsx:137-148 | a generated quest copies the template, starts at progress 0 and is not completed |
| DailyBoard.Generate | latest/scr/components/DailyQuestPage.tsx:127-149 | generateDailyQuests returns min(count, pool size) quests, each at progress 0, open, and of the requested difficulty |
| DailyBoard.SelectStep | latest/scr/components/DailyQuestPage.tsx:130-132 | one draw takes the picked template and continues on the spliced list with the remaining picks |
| DailyBoard.DrawKeepsSelection | latest/scr/components/DailyQuestPage.tsx:130-132 | the templates drawn so far followed by the draws still to come are always the whole selection |
| DailyBoard.GenerateLoop | latest/scr/components/DailyQuestPage.tsx:127-149 | the for loop with splice and push yields one fresh quest per selected template, in draw order, with the k-th stamp and position k |
| DailyBoard.GenerateBoard | latest/scr/components/DailyQuestPage.tsx:127-149 | running the loop on the difficulty's pool gives the board generateDailyQuests specifies |
| DailyBoard.GenerateIdsDistinct | latest/scr/components/DailyQuestPage.tsx:138 | with distinct stamps, the quests of one board have distinct ids |
| DailyBoard.Advance | latest/scr/components/DailyQuestPage.tsx:178-189 | progress is min(requested, target). A quest is completed iff progress reaches the target. Nothing else changes |
| DailyBoard.CreditXp | latest/scr/components/DailyQuestPage.tsx:181-183 | XP is credited only when a quest turns complete, and then it is the reward |
| DailyBoard.CreditCoins | latest/scr/components/DailyQuestPage.tsx:181-184 | coins are credited only when a quest turns complete, missing coins counting 0 |
| DailyBoard.TotalCredit | latest/scr/components/DailyQuestPage.tsx:176-184 | an id matching no quest credits nothing |
| DailyBoard.UpdateQuestProgress | latest/scr/components/DailyQuestPage.tsx:175-194 | the length is kept and other quests are unchanged; the matching quest is advanced; the totals grow by the credits |
| DailyBoard.TotalCreditSingle | latest/scr/components/DailyQuestPage.tsx:176-184 | with unique ids the total credit is that one quest's credit |
| DailyBoard.CreditOnlyOnCompletion | latest/scr/components/DailyQuestPage.tsx:181-184 | totals grow iff the quest goes from open to complete, by exactly its reward |
| DailyBoard.UpdateIdempotent | latest/scr/components/DailyQuestPage.tsx:175-194 | repeating the same update changes nothing and credits nothing |
| DailyBoard.LoweringReopens | latest/scr/components/DailyQuestPage.tsx:178-179 | lowering a completed quest's progress below target reopens it without debiting |
| DailyBoard.FormatDuration | latest/scr/components/DailyQuestPage.tsx:223-230 | the text ends in m; under an hour it is the minutes and m; it contains h iff the time is an hour or more |
| DailyBoard.FormatDurationMinutes | latest/scr/components/DailyQuestPage.tsx:223-230 | equal texts mean equal whole minutes |
| DailyBoard.HoursText | latest/scr/components/DailyQuestPage.tsx:223-230 | from an hour on the text is the hours, h, a space, the minutes within the hour, and m |
| ModuleTests.StartTest | latest/scr/components/ModuleTestPage.tsx:124-133 | the runner is at question 0 with no answers, not completed and scored 0; the time left is the limit, or 600 if it is missing or 0 |
| ModuleTests.HandleAnswer | latest/scr/components/ModuleTestPage.tsx:135-137 | only the given question's answer is overwritten |
| ModuleTests.Credit | latest/scr/components/ModuleTestPage.tsx:162-172 | a full question for a strictly equal multiple-choice or scenario answer; 0.8 for a truthy emotional-state answer; otherwise nothing |
| ModuleTests.CreditBelow | latest/scr/components/ModuleTestPage.tsx:161-173 | k questions earn at most k full credits |
| ModuleTests.CalculateScore | latest/scr/components/ModuleTestPage.tsx:158-176 | the score is NaN exactly for a test without questions; otherwise it lies in 0..100 and is the credit percentage rounded to the nearest integer, halves up: 2n·s ≤ 20·credit + n < 2n·(s+1) with credit in tenths |
| ModuleTests.ScorePassThreshold | latest/scr/components/ModuleTestPage.tsx:158-176 | the score reaches the passing score iff 20·credit + n ≥ 2n·passingScore |
| ModuleTests.FullCreditBelow | latest/scr/components/ModuleTestPage.tsx:161-173 | full credit on every question sums to one full credit per question |
| ModuleTests.AllCorrectScoresHundred | latest/scr/components/ModuleTestPage.tsx:158-176 | full credit everywhere scores 100 |
| ModuleTests.NextQuestion | latest/scr/components/ModuleTestPage.tsx:139-156 | a firing trigger is shown and the runner stays put. Otherwise it moves one question on before the last; on the last it completes and scores the test. The index stays in range |
| ModuleTests.ContinueAfterTrigger | latest/scr/components/ModuleTestPage.tsx:236-238 | Continue dismisses the trigger and tries nextQuestion again |
| ModuleTests.ResetTest | latest/scr/components/ModuleTestPage.tsx:178-187 | Exit Test returns to the test list with no answers |
| ModuleTests.PressNext | latest/scr/components/ModuleTestPage.tsx:139-156 | pressing Next keeps the runner on an existing question |
| ModuleTests.PressNextCompletes | latest/scr/components/ModuleTestPage.tsx:139-156 | without triggers, one press per remaining question completes the test with the score of the answers |
| ModuleTests.GuardsDifferOnlyAtZero | latest/scr/components/ModuleTestPage.tsx:406 | the written guard enables only what the corrected one enables. They differ only on option 0 |
| ModuleTests.IctUnpassableAsWritten | latest/scr/components/ModuleTestPage.tsx:406 | as written, every finish of ICT Fundamentals by button scores at most 50 and fails the pass mark of 80 |
| ModuleTests.IctPassableCorrected | latest/scr/components/ModuleTestPage.tsx:406 | with the corrected guard, both correct answers enable Finish, score 100 and pass |
| ModuleTests.PsychologyScores | latest/scr/components/ModuleTestPage.tsx:166-168 | any typed answer to the psychology question scores 80, passing at 75; no answer scores 0 |
| ModuleTests.FormatRemaining | latest/scr/components/ModuleTestPage.tsx:189-193 | the time text has a colon between minutes and seconds |
| ModuleTests.FormatRemainingReadBack | latest/scr/components/ModuleTestPage.tsx:189-193 | the digits before the colon read back as the whole minutes left and the two or more digits after it as the remaining seconds |
| ModuleTests.FormatRemainingInjective | latest/scr/components/ModuleTestPage.tsx:189-193 | different times left show different texts |
| Seasonal.StrengthText | latest/scr/components/SeasonalAnalysis.tsx:277-282 | Very Strong iff ≥ 75, Strong iff 60–74, Moderate iff 40–59, Weak iff below 40 |
| Seasonal.StrengthTextMonotone | latest/scr/components/SeasonalAnalysis.tsx:277-282 | a higher strength never gets a weaker label |
| Seasonal.BucketMatchesLabel | latest/scr/components/SeasonalAnalysis.tsx:277-282 | a month is in a chart bucket iff its label is the bucket's label |
| Seasonal.BucketsPartition | latest/scr/components/SeasonalAnalysis.tsx:173-178 | every strength falls into exactly one bucket |
| Seasonal.BucketCount | latest/scr/components/SeasonalAnalysis.tsx:173-178 | a bucket count over k months is at most k |
| Seasonal.CountsSumToMonths | latest/scr/components/SeasonalAnalysis.tsx:173-178 | the four bucket counts add up to the number of months |
| Seasonal.BucketCountIsLabelCount | latest/scr/components/SeasonalAnalysis.tsx:277-282 | a bucket's count is the number of months with its label |
| Seasonal.Distribution | latest/scr/components/SeasonalAnalysis.tsx:6-163 | the twelve months chart as 3 very strong, 6 strong, 2 moderate and 1 weak |

## Left out

- Random validation: `validateMarkings` draws each criterion's verdict at random after a delay. The verdicts are an input, one per listed criterion in order; the verdict object, the score and the pass are modelled. The feedback and suggestion texts are left out.
- Screens and side effects: canvas screenshots, sounds, alerts, the ticker iframe, and marking coordinates, ids and timestamps. Removing a single marking by id is also left out, since markings carry no id here.
- Session logging: `logAction` and the trading-session record it mutates.
- Dates and clocks: calendar days are integers, and `Date.now()` appears only as the daily-quest stamp. Time zones of the ISO date keys are not modelled.
- Unmodelled displays: `getRankColor`'s colour interpolation, the `xpProgress` bar, `startPracticalTest`, the quick-action XP buttons, the expiry time and descriptions of daily quests, and the averages and opacities of the seasonal chart.
- React specifics: state setters are modelled as applying in order, with no stale closures or lost updates. This covers `setTotalXP` inside an updater and `addXP` reading `xp` before `completeQuest`.
- Timers: the `setInterval` timers are modelled one tick at a time. The module test's auto-submit at time-out is left out. That path can finish ICT Fundamentals with option 0 chosen, which the Next guard finding does not cover.
- Floating point: scores are read as exact rationals. The float sum of 0.8 credits could round differently only at an exact half. For the concept bar, `(done / total) * 100 === 100` is read as done = total.
- NaN: scores that the source computes as NaN (no criteria, no questions) are `None`.
- The other pages: ProfilePage, SettingsPage, ICTAnalysis, Navigation, BacktestPage (random trade simulation) and the top-level App are not part of this model. Nor is backend_test.py, which makes HTTP smoke calls.
- No completion bonus: finishing a quest pays only the 20 XP of its last rep; the code has no separate bonus.
- Stage tests: `completedStages` is never written, so a stage's test reopens at every later completion in the concept (`ConceptProgression.StageKeepsFiring`).
- Empty submissions: only the disabled button stops a submission without markings (`Engine.SubmitEnabled`), so the model's handler accepts any marking list.
- Session replacement: starting a quest while another is open silently replaces the open session, and the model follows the code.
- Concept entries: each concept's `mcqQuestions` sit in a separate table, `Catalog.ConceptQuestions`, under the same keys as `Catalog.Concepts`. The questions themselves are unchanged.
- Engine.SubmitQuestAttempt: takes a `RepCounting` mode, so that one definition serves both the code as written and the corrected counter of the finding below.
- Streak.UpdateStreak: states the new date and the count bound, not the three count cases one by one. `Streak.ReplayCountsTrailingRun` states their combined effect over a log.

## Findings

| source | as written | input that shows it | evidently intended | confidence | as-written member | corrected member |
|---|---|---|---|---|---|---|
| latest/app.tsx:379-396 | the updated session copies `completedReps` but never increments it, so every pass in one session stores `completedReps + 1` again | a fresh learner passes Structure Marking (10 reps) ten times in one session: the stored count stays 1 and the quest never completes | each pass advances the session's counter, so the tenth pass completes the quest | not executed | Engine.RepsFrozenAsWritten | Engine.RepsCountedComplete |
| latest/scr/components/ModuleTestPage.tsx:406 | Next / Finish is disabled while `!answers[id]`, and option index 0 is falsy | ICT Fundamentals, question 2, choosing option A (index 0, the correct answer) leaves Finish Test disabled | any chosen option enables the button | not executed | ModuleTests.IctUnpassableAsWritten | ModuleTests.IctPassableCorrected |
