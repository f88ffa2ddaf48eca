/** The application state of latest/app.tsx that the quest session and the
    concept test act on, and the handlers that change it: starting, marking,
    submitting and leaving a quest session, completing a quest, and submitting a
    concept test. Each handler is a function from the state before the click to
    the state after it. */
module Engine {
  import opened Common
  import opened Text
  import opened Progression
  import opened Catalog
  import opened Validation
  import opened McqRunner
  import opened ConceptProgression

  /** A chart marking (type tag and label); its coordinates, id and timestamp are left out. */
  datatype Marking = Marking(kind: string, caption: string)

  /** What one attempt recorded: the markings submitted and their validation. */
  datatype Snapshot = Snapshot(markings: seq<Marking>, validation: Validation)

  /** `questSession`. */
  datatype Session = Session(
    questId: string,
    attempts: nat,
    completedReps: nat,
    snapshots: seq<Snapshot>,
    validationHistory: seq<Validation>)

  /** `questProgress[questId]`. */
  datatype QuestRecord = QuestRecord(completedReps: nat, totalAttempts: nat)

  datatype Achievement = Achievement(title: string, description: string)

  datatype App = App(
    ledger: Ledger,
    activeQuest: Option<Quest>,
    session: Option<Session>,
    questProgress: map<string, QuestRecord>,
    conceptProgress: map<string, ConceptProgress>,
    markings: seq<Marking>,
    validationResults: Option<Validation>,
    achievements: seq<Achievement>,
    currentTest: Option<McqTest>)

  /** The state of a learner who has done nothing yet. */
  const FreshApp: App := App(StartLedger, None, None, map[], map[], [], None, [], None)

  /** XP for each passing attempt. */
  const RepReward: nat := 20

  /** The states the handlers keep: a quest screen has both its quest and its
      session, for the same quest, and an open test belongs to a defined concept
      and has a current question. */
  predicate Consistent(app: App) {
    && (app.activeQuest.Some? <==> app.session.Some?)
    && (app.session.Some? ==> app.session.value.questId == app.activeQuest.value.id)
    && (app.currentTest.Some? ==> app.currentTest.value.conceptId in ConceptIds && InRange(app.currentTest.value))
  }

  /** `questProgress[id]?.completedReps || 0`. */
  function SeedReps(progress: map<string, QuestRecord>, questId: string): (n: nat)
    ensures questId !in progress ==> n == 0
    ensures questId in progress ==> n == progress[questId].completedReps
  {
    if questId in progress then progress[questId].completedReps else 0
  }

  /** The Start Quest button is disabled once the quest's reps are reached. */
  predicate CanStartQuest(app: App, q: Quest) {
    SeedReps(app.questProgress, q.id) < q.reps
  }

  /** `startQuestSession(quest)`: any session already open is replaced. */
  function StartQuestSession(app: App, q: Quest): (r: App)
    ensures r.activeQuest == Some(q)
    ensures r.session == Some(Session(q.id, 0, SeedReps(app.questProgress, q.id), [], []))
    ensures r.markings == [] && r.validationResults == None
    ensures r.ledger == app.ledger && r.questProgress == app.questProgress
    ensures r.conceptProgress == app.conceptProgress && r.achievements == app.achievements
    ensures r.currentTest == app.currentTest
    ensures Consistent(app) ==> Consistent(r)
  {
    app.(activeQuest := Some(q),
         session := Some(Session(q.id, 0, SeedReps(app.questProgress, q.id), [], [])),
         markings := [],
         validationResults := None)
  }

  /** `addMarking`: the new marking goes last. */
  function AddMarking(app: App, m: Marking): (r: App)
    ensures r.markings == app.markings + [m]
    ensures r == app.(markings := r.markings)
    ensures Consistent(app) ==> Consistent(r)
  {
    app.(markings := app.markings + [m])
  }

  /** The Clear Markings button. */
  function ClearMarkings(app: App): (r: App)
    ensures r.markings == []
    ensures r == app.(markings := [])
    ensures Consistent(app) ==> Consistent(r)
  {
    app.(markings := [])
  }

  /** The Submit Attempt button is disabled while nothing is marked. */
  predicate SubmitEnabled(app: App) {
    |app.markings| > 0
  }

  /** The Exit Quest button: the session is dropped, its progress already
      stored in `questProgress` is kept. */
  function ExitQuest(app: App): (r: App)
    ensures r.activeQuest == None && r.session == None
    ensures r.markings == [] && r.validationResults == None
    ensures r.questProgress == app.questProgress && r.ledger == app.ledger
    ensures r.conceptProgress == app.conceptProgress && r.achievements == app.achievements
    ensures r.currentTest == app.currentTest
    ensures Consistent(app) ==> Consistent(r)
  {
    app.(activeQuest := None, session := None, markings := [], validationResults := None)
  }

  /** `addXP` applied to the application's ledger. */
  function AwardXP(app: App, amount: nat): (r: App)
    ensures r.ledger == AddXP(app.ledger, amount)
    ensures r == app.(ledger := r.ledger)
  {
    app.(ledger := AddXP(app.ledger, amount))
  }

  /** `addAchievement(`Quest Master: ${title}`, `Completed ${title} with ${reps} successful attempts`)`. */
  function QuestMaster(q: Quest): (a: Achievement)
    ensures a.title == "Quest Master: " + q.title
    ensures a.description == "Completed " + q.title + " with " + NatToString(q.reps) + " successful attempts"
  {
    Achievement("Quest Master: " + q.title,
                "Completed " + q.title + " with " + NatToString(q.reps) + " successful attempts")
  }

  /** `completeQuest(quest)`: record the quest against its concept, open the
      test of any stage now complete, add the achievement, close the quest
      screen. It awards no XP of its own. */
  function CompleteQuest(app: App, q: Quest): (r: App)
    ensures r.conceptProgress == RecordQuest(app.conceptProgress, q.concept, q.id)
    ensures q.concept in Concepts ==>
      r.currentTest == CheckStages(q.concept, r.conceptProgress[q.concept], app.currentTest)
    ensures q.concept !in Concepts ==> r.currentTest == app.currentTest
    ensures r.achievements == app.achievements + [QuestMaster(q)]
    ensures r.activeQuest == None && r.session == None
    ensures r.markings == [] && r.validationResults == None
    ensures r.ledger == app.ledger && r.questProgress == app.questProgress
    ensures Consistent(app) ==> Consistent(r)
  {
    var progress := RecordQuest(app.conceptProgress, q.concept, q.id);
    var test := if q.concept in Concepts then CheckStages(q.concept, progress[q.concept], app.currentTest)
                else app.currentTest;
    App(app.ledger, None, None, app.questProgress, progress, [], None,
        app.achievements + [QuestMaster(q)], test)
  }

  /** How a passing attempt advances the session's own rep counter: as written
      it never does; `Counted` is the evidently intended behaviour. */
  datatype RepCounting = AsWritten | Counted

  /** The precondition of a submission: the validator returns one verdict per
      criterion of the active quest. */
  predicate VerdictsFit(app: App, verdicts: seq<bool>) {
    app.activeQuest.Some? ==> |verdicts| == |app.activeQuest.value.criteria|
  }

  /** `submitQuestAttempt()`, with the validator's verdict on each criterion as
      input. Every attempt is counted and recorded in the session; a passing
      attempt writes the rep count `completedReps + 1` and the attempt count
      into `questProgress`, awards 20 XP, and either completes the quest or
      clears the markings for the next rep; a failing attempt keeps the
      markings. */
  function SubmitQuestAttempt(app: App, verdicts: seq<bool>, mode: RepCounting): (r: App)
    requires VerdictsFit(app, verdicts)
    ensures app.activeQuest.None? || app.session.None? ==> r == app
    ensures r.activeQuest.Some? ==> r.activeQuest == app.activeQuest
    ensures Consistent(app) ==> Consistent(r)
    ensures app.activeQuest.Some? && app.session.Some? ==>
      SubmitOutcome(app, Validate(app.activeQuest.value, verdicts), mode, r)
  {
    if app.activeQuest.None? || app.session.None? then app
    else SubmitValidated(app, Validate(app.activeQuest.value, verdicts), mode)
  }

  /** What a submission on a quest screen does once the attempt is validated
      as `v`: the failing and the passing branch of `submitQuestAttempt`. */
  predicate SubmitOutcome(app: App, v: Validation, mode: RepCounting, r: App)
    requires app.activeQuest.Some? && app.session.Some?
  {
    && (!v.overall ==> FailOutcome(app, v, r))
    && (v.overall ==> PassOutcome(app, v, mode, r))
  }

  /** A failing attempt is counted and recorded in the session and shown;
      nothing else changes. */
  predicate FailOutcome(app: App, v: Validation, r: App)
    requires app.activeQuest.Some? && app.session.Some?
  {
    var s := app.session.value;
    && r.session == Some(s.(attempts := s.attempts + 1,
                            snapshots := s.snapshots + [Snapshot(app.markings, v)],
                            validationHistory := s.validationHistory + [v]))
    && r.validationResults == Some(v)
    && r == app.(session := r.session, validationResults := r.validationResults)
  }

  /** A passing attempt stores the rep, awards the XP and clears the markings;
      the rep that reaches the quest's count completes the quest, any other
      keeps the session open. */
  predicate PassOutcome(app: App, v: Validation, mode: RepCounting, r: App)
    requires app.activeQuest.Some? && app.session.Some?
  {
    var q := app.activeQuest.value;
    var s := app.session.value;
    && r.questProgress == app.questProgress[q.id := QuestRecord(s.completedReps + 1, s.attempts + 1)]
    && r.ledger == AddXP(app.ledger, RepReward)
    && r.markings == []
    && r.validationResults.None?
    && (r.activeQuest.None? <==> s.completedReps + 1 >= q.reps)
    && (s.completedReps + 1 >= q.reps ==> r == CompleteQuest(AwardXP(app.(questProgress := r.questProgress), RepReward), q))
    && (s.completedReps + 1 < q.reps ==>
          && r.session.Some?
          && r.session.value.attempts == s.attempts + 1
          && r.session.value.snapshots == s.snapshots + [Snapshot(app.markings, v)]
          && r.session.value.validationHistory == s.validationHistory + [v]
          && r.session.value.completedReps == (if mode == Counted then s.completedReps + 1 else s.completedReps)
          && r.achievements == app.achievements
          && r.conceptProgress == app.conceptProgress
          && r.currentTest == app.currentTest)
  }

  /** The submission on a quest screen, given the attempt's validation. */
  function SubmitValidated(app: App, v: Validation, mode: RepCounting): (r: App)
    requires app.activeQuest.Some? && app.session.Some?
    ensures r.activeQuest.Some? ==> r.activeQuest == app.activeQuest
    ensures Consistent(app) ==> Consistent(r)
    ensures SubmitOutcome(app, v, mode, r)
  {
    if !v.overall then FailedAttempt(app, v)
    else PassedAttempt(app, v, mode)
  }

  /** The session after one more attempt validated as `v`. */
  function Attempted(s: Session, markings: seq<Marking>, v: Validation): Session {
    s.(attempts := s.attempts + 1,
       snapshots := s.snapshots + [Snapshot(markings, v)],
       validationHistory := s.validationHistory + [v])
  }

  function FailedAttempt(app: App, v: Validation): (r: App)
    requires app.activeQuest.Some? && app.session.Some?
    ensures r.activeQuest == app.activeQuest
    ensures Consistent(app) ==> Consistent(r)
    ensures FailOutcome(app, v, r)
  {
    app.(session := Some(Attempted(app.session.value, app.markings, v)), validationResults := Some(v))
  }

  function PassedAttempt(app: App, v: Validation, mode: RepCounting): (r: App)
    requires app.activeQuest.Some? && app.session.Some?
    ensures r.activeQuest.Some? ==> r.activeQuest == app.activeQuest
    ensures Consistent(app) ==> Consistent(r)
    ensures PassOutcome(app, v, mode, r)
  {
    var q := app.activeQuest.value;
    var updated := Attempted(app.session.value, app.markings, v);
    var reps := updated.completedReps + 1;
    var recorded := app.(questProgress := app.questProgress[q.id := QuestRecord(reps, updated.attempts)]);
    var credited := AwardXP(recorded, RepReward);
    if reps >= q.reps then
      CompleteQuest(credited, q)
    else
      var next := if mode == Counted then updated.(completedReps := reps) else updated;
      credited.(session := Some(next), markings := [], validationResults := None)
  }

  /** A run of submissions, in order. */
  function SubmitAll(app: App, attempts: seq<seq<bool>>, mode: RepCounting): (r: App)
    requires forall i :: 0 <= i < |attempts| ==> VerdictsFit(app, attempts[i])
    ensures Consistent(app) ==> Consistent(r)
    decreases |attempts|
  {
    if |attempts| == 0 then app
    else
      var next := SubmitQuestAttempt(app, attempts[0], mode);
      assert forall i :: 0 <= i < |attempts[1..]| ==> VerdictsFit(next, attempts[1..][i]) by {
        forall i | 0 <= i < |attempts[1..]|
          ensures VerdictsFit(next, attempts[1..][i])
        {
          assert VerdictsFit(app, attempts[i + 1]);
        }
      }
      SubmitAll(next, attempts[1..], mode)
  }

  /** As written, the session's rep counter stays at the value the session
      started with, so however many attempts pass, the stored rep count never
      exceeds that value plus one and a quest needing more reps than that is
      never completed within one session. */
  lemma {:induction false} RepsFrozenAsWritten(app: App, q: Quest, attempts: seq<seq<bool>>)
    requires app.activeQuest == Some(q) && app.session.Some?
    requires app.session.value.completedReps + 1 < q.reps
    requires SeedReps(app.questProgress, q.id) <= app.session.value.completedReps + 1
    requires forall i :: 0 <= i < |attempts| ==> |attempts[i]| == |q.criteria|
    ensures SubmitAll(app, attempts, AsWritten).activeQuest == Some(q)
    ensures SubmitAll(app, attempts, AsWritten).session.Some?
    ensures SubmitAll(app, attempts, AsWritten).session.value.completedReps == app.session.value.completedReps
    ensures SeedReps(SubmitAll(app, attempts, AsWritten).questProgress, q.id) <= app.session.value.completedReps + 1
    decreases |attempts|
  {
    if |attempts| > 0 {
      var next := SubmitQuestAttempt(app, attempts[0], AsWritten);
      assert next.activeQuest == Some(q) && next.session.Some?;
      assert next.session.value.completedReps == app.session.value.completedReps;
      RepsFrozenAsWritten(next, q, attempts[1..]);
    }
  }

  /** Ten passing attempts on a fresh learner's first beginner quest leave the
      quest open: its stored rep count is 1 of 10. */
  lemma TenPassesDoNotCompleteAsWritten(attempts: seq<seq<bool>>)
    requires |attempts| == 10
    requires forall i :: 0 <= i < 10 ==> |attempts[i]| == |BeginnerPool[0].criteria|
    ensures SubmitAll(StartQuestSession(FreshApp, BeginnerPool[0]), attempts, AsWritten).activeQuest.Some?
  {
    var q := BeginnerPool[0];
    RepsFrozenAsWritten(StartQuestSession(FreshApp, q), q, attempts);
  }

  /** With the counter advanced on every pass, passing attempts complete the
      quest exactly when the session's reps reach the quest's reps. */
  lemma {:induction false} RepsCountedComplete(app: App, q: Quest, attempts: seq<seq<bool>>)
    requires app.activeQuest == Some(q) && app.session.Some?
    requires app.session.value.completedReps < q.reps
    requires app.session.value.completedReps + |attempts| <= q.reps
    requires forall i :: 0 <= i < |attempts| ==> |attempts[i]| == |q.criteria| && Validate(q, attempts[i]).overall
    ensures app.session.value.completedReps + |attempts| < q.reps ==>
      && SubmitAll(app, attempts, Counted).activeQuest == Some(q)
      && SubmitAll(app, attempts, Counted).session.Some?
      && SubmitAll(app, attempts, Counted).session.value.completedReps == app.session.value.completedReps + |attempts|
    ensures app.session.value.completedReps + |attempts| == q.reps ==>
      && SubmitAll(app, attempts, Counted).activeQuest == None
      && SeedReps(SubmitAll(app, attempts, Counted).questProgress, q.id) == q.reps
    decreases |attempts|
  {
    if |attempts| > 0 {
      var next := SubmitQuestAttempt(app, attempts[0], Counted);
      var s := app.session.value;
      if s.completedReps + 1 < q.reps {
        assert next.activeQuest == Some(q) && next.session.Some?;
        assert next.session.value.completedReps == s.completedReps + 1;
        RepsCountedComplete(next, q, attempts[1..]);
      } else {
        assert |attempts| == 1;
        assert next.activeQuest == None;
        assert q.id in next.questProgress && next.questProgress[q.id].completedReps == q.reps;
        assert SubmitAll(app, attempts, Counted) == SubmitAll(next, attempts[1..], Counted);
      }
    }
  }

  /** Leaving and reopening a quest picks up the stored rep count, so as written
      each session can move a quest on by one rep. */
  lemma RestartSeedsStoredReps(app: App, q: Quest, verdicts: seq<bool>)
    requires app.activeQuest == Some(q) && app.session.Some?
    requires |verdicts| == |q.criteria| && Validate(q, verdicts).overall
    requires app.session.value.completedReps + 1 < q.reps
    ensures StartQuestSession(ExitQuest(SubmitQuestAttempt(app, verdicts, AsWritten)), q).session.value.completedReps
            == app.session.value.completedReps + 1
  {
  }

  /** A completed quest cannot be started again: its stored rep count has
      reached its reps. */
  lemma CompletedQuestLocked(app: App, q: Quest, verdicts: seq<bool>, mode: RepCounting)
    requires app.activeQuest == Some(q) && app.session.Some?
    requires |verdicts| == |q.criteria|
    requires SubmitQuestAttempt(app, verdicts, mode).activeQuest.None?
    ensures !CanStartQuest(SubmitQuestAttempt(app, verdicts, mode), q)
  {
  }

  /** `addAchievement('Test Master', `Passed ${title} MCQ test with ${percentage}%`)`. */
  function TestMaster(conceptTitle: string, percentage: nat): (a: Achievement)
    ensures a.title == "Test Master"
    ensures a.description == "Passed " + conceptTitle + " MCQ test with " + NatToString(percentage) + "%"
  {
    Achievement("Test Master", "Passed " + conceptTitle + " MCQ test with " + NatToString(percentage) + "%")
  }

  /** The Submit Test button. The test closes either way; at 80 percent or
      more it awards 50 XP and an achievement. A test without questions scores
      `NaN` in the source, which passes nothing. */
  function SubmitMcqTest(app: App): (r: App)
    requires app.currentTest.Some? ==> app.currentTest.value.conceptId in Concepts
    ensures r.currentTest == None
    ensures r.activeQuest == app.activeQuest && r.session == app.session
    ensures r.questProgress == app.questProgress && r.conceptProgress == app.conceptProgress
    ensures r.markings == app.markings
    ensures app.currentTest.None? ==> r == app
    ensures app.currentTest.Some? ==>
      var t := app.currentTest.value;
      if |t.questions| > 0 && McqPercentage(t) >= McqPassMark then
        && r.ledger == AddXP(app.ledger, McqReward)
        && r.achievements == app.achievements + [TestMaster(Concepts[t.conceptId].title, McqPercentage(t))]
      else
        r.ledger == app.ledger && r.achievements == app.achievements
    ensures Consistent(app) ==> Consistent(r)
  {
    if app.currentTest.None? then app
    else
      var t := app.currentTest.value;
      var closed := app.(currentTest := None);
      if |t.questions| > 0 && McqPercentage(t) >= McqPassMark then
        var credited := AwardXP(closed, McqReward);
        credited.(achievements := credited.achievements +
                   [TestMaster(Concepts[t.conceptId].title, McqPercentage(t))])
      else
        closed
  }

  /** The Take Test button of a concept card: `startMCQTest(conceptId, 'final')`
      replaces any open test with the concept's final test. */
  function TakeFinalTest(app: App, conceptId: string): (r: App)
    requires conceptId in Concepts
    ensures r.currentTest.Some? && r.currentTest.value.conceptId == conceptId
    ensures r.currentTest.value.stageId == "final"
    ensures conceptId in ConceptQuestions && r.currentTest.value.questions == ConceptQuestions[conceptId]
    ensures r.currentTest.value.answers == map[] && InRange(r.currentTest.value)
    ensures r == app.(currentTest := r.currentTest)
    ensures Consistent(app) ==> Consistent(r)
  {
    ConceptsWellFormed(conceptId);
    ConceptIdsAreKeys(conceptId);
    app.(currentTest := Some(StartMcq(conceptId, "final", ConceptQuestions[conceptId])))
  }

  /** A final test paged through to its last question, where the Submit
      Test button is, and submitted without an answer awards nothing. */
  lemma FinalTestUnansweredAwardsNothing(app: App, conceptId: string, presses: nat)
    requires conceptId in Concepts
    requires presses + 1 >= |TakeFinalTest(app, conceptId).currentTest.value.questions|
    ensures var started := TakeFinalTest(app, conceptId);
      var paged := started.(currentTest := Some(NextTimes(started.currentTest.value, presses)));
      && paged.currentTest.value.current == |paged.currentTest.value.questions| - 1
      && SubmitMcqTest(paged).ledger == app.ledger
      && SubmitMcqTest(paged).achievements == app.achievements
      && SubmitMcqTest(paged).currentTest == None
  {
    var started := TakeFinalTest(app, conceptId);
    var paged := started.(currentTest := Some(NextTimes(started.currentTest.value, presses)));
    UnansweredTestAwardsNothing(paged);
  }

  /** A test the learner left unanswered scores 0 and awards nothing. */
  lemma UnansweredTestAwardsNothing(app: App)
    requires app.currentTest.Some? && app.currentTest.value.conceptId in Concepts
    requires app.currentTest.value.answers == map[]
    ensures SubmitMcqTest(app).ledger == app.ledger
    ensures SubmitMcqTest(app).achievements == app.achievements
  {
    var t := app.currentTest.value;
    if |t.questions| > 0 {
      CorrectBelowUnanswered(t, |t.questions|);
      RoundDivAtMost(0, |t.questions|, 0);
      assert McqPercentage(t) == 0;
    }
  }

  /** Finishing "Structure Marking" opens the "basics" test of market
      structure, whatever test was open before, as long as the progress holds
      only catalog quests and no completed stage of market structure. */
  lemma StructureMarkingOpensBasics(app: App)
    requires OnlyCatalogQuests(app.conceptProgress)
    requires ProgressOf(app.conceptProgress, "market_structure").completedStages == []
    ensures CompleteQuest(app, BeginnerPool[0]).currentTest.Some?
    ensures CompleteQuest(app, BeginnerPool[0]).currentTest.value.conceptId == "market_structure"
    ensures CompleteQuest(app, BeginnerPool[0]).currentTest.value.stageId == "basics"
  {
    var q := BeginnerPool[0];
    var r := CompleteQuest(app, q);
    var stages := Concepts["market_structure"].stages;
    var p := r.conceptProgress["market_structure"];
    assert q.id in p.completedQuests;
    assert Triggers(stages[0], p);
    var fired := TriggeredStages(stages, p);
    assert stages[0] in fired;
    RecordCatalogQuest(app.conceptProgress, q);
    AdvancedStructureNeverFires(r.conceptProgress);
    assert stages == [stages[0], stages[1]];
    assert forall st :: st in fired ==> st == stages[0];
    assert fired[|fired| - 1] == stages[0];
  }
}
