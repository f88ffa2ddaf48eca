/** The module test runner of latest/scr/components/ModuleTestPage.tsx: the
    three module tests, the runner's state and handlers, the credit-based score
    and the pass rule. Credit is counted in tenths of a question so that the
    0.8 given to an emotional-state answer stays an integer. */
module ModuleTests {
  import opened Common
  import opened Text

  datatype QuestionKind = MultipleChoice | ChartAnalysis | Scenario | EmotionalState

  /** An answer as the inputs deliver it: an option index, or the text typed. */
  datatype Answer = Index(index: int) | Text(text: string)

  /** `emotionalTrigger`; its description and suggested response are left out. */
  datatype Trigger = Trigger(kind: string, intensity: int)

  datatype TestQuestion = TestQuestion(
    id: string,
    kind: QuestionKind,
    correctAnswer: Option<Answer>,
    trigger: Option<Trigger>)

  datatype ModuleTest = ModuleTest(
    id: string,
    title: string,
    questions: seq<TestQuestion>,
    timeLimit: Option<int>,
    passingScore: int)

  const IctBasics: ModuleTest := ModuleTest(
    "ict-basics", "ICT Fundamentals - Multiple Choice",
    [TestQuestion("1", MultipleChoice, Some(Index(1)), None),
     TestQuestion("2", MultipleChoice, Some(Index(0)), None)],
    Some(300), 80)

  const PsychologyTest: ModuleTest := ModuleTest(
    "psychology-test", "Trading Psychology Assessment",
    [TestQuestion("1", EmotionalState, None, Some(Trigger("revenge", 8)))],
    Some(600), 75)

  const RiskManagement: ModuleTest := ModuleTest(
    "risk-management", "Risk Management Scenarios",
    [TestQuestion("1", Scenario, Some(Index(1)), None)],
    Some(450), 85)

  const ModuleTestList: seq<ModuleTest> := [IctBasics, PsychologyTest, RiskManagement]

  /** The page state. `score` is `None` where the source computes `NaN`. */
  datatype Runner = Runner(
    selected: Option<ModuleTest>,
    current: nat,
    answers: map<string, Answer>,
    timeLeft: int,
    started: bool,
    completed: bool,
    score: Option<nat>,
    showTrigger: Option<Trigger>)

  /** The page before any test is chosen, and after Exit Test. */
  const Idle: Runner := Runner(None, 0, map[], 0, false, false, Some(0), None)

  const DefaultTimeLimit: int := 600

  /** JavaScript truthiness of an answer: option 0 and the empty text are falsy. */
  predicate Truthy(a: Answer) {
    match a
    case Index(i) => i != 0
    case Text(s) => |s| > 0
  }

  /** `startTest(module)`: `timeLimit || 600`, so a missing or zero limit gives
      ten minutes. */
  function StartTest(m: ModuleTest): (r: Runner)
    ensures r.selected == Some(m) && r.current == 0 && r.answers == map[]
    ensures r.started && !r.completed && r.score == Some(0) && r.showTrigger == None
    ensures m.timeLimit.Some? && m.timeLimit.value != 0 ==> r.timeLeft == m.timeLimit.value
    ensures m.timeLimit.None? || m.timeLimit == Some(0) ==> r.timeLeft == DefaultTimeLimit
  {
    var limit := if m.timeLimit.Some? && m.timeLimit.value != 0 then m.timeLimit.value else DefaultTimeLimit;
    Runner(Some(m), 0, map[], limit, true, false, Some(0), None)
  }

  /** `handleAnswer(questionId, answer)`. */
  function HandleAnswer(r: Runner, questionId: string, a: Answer): (r': Runner)
    ensures r'.answers.Keys == r.answers.Keys + {questionId}
    ensures r'.answers[questionId] == a
    ensures forall id :: id in r.answers && id != questionId ==> r'.answers[id] == r.answers[id]
    ensures r' == r.(answers := r'.answers)
  {
    r.(answers := r.answers[questionId := a])
  }

  /** Credit for one question, in tenths: a whole question for a multiple-choice
      or scenario answer strictly equal to the correct answer, 0.8 for a truthy
      emotional-state answer, nothing otherwise. A missing answer equals a
      missing correct answer, as `undefined === undefined` does. */
  function Credit(q: TestQuestion, a: Option<Answer>): (c: nat)
    ensures c <= 10
    ensures c == 10 <==> (q.kind == MultipleChoice || q.kind == Scenario) && a == q.correctAnswer
    ensures c == 8 <==> q.kind == EmotionalState && a.Some? && Truthy(a.value)
  {
    if q.kind == MultipleChoice && a == q.correctAnswer then 10
    else if q.kind == EmotionalState && a.Some? && Truthy(a.value) then 8
    else if q.kind == Scenario && a == q.correctAnswer then 10
    else 0
  }

  function AnswerFor(answers: map<string, Answer>, id: string): Option<Answer> {
    if id in answers then Some(answers[id]) else None
  }

  /** The `forEach` total over the first `k` questions, in tenths. */
  function CreditBelow(qs: seq<TestQuestion>, answers: map<string, Answer>, k: nat): (c: nat)
    requires k <= |qs|
    ensures c <= 10 * k
    decreases k
  {
    if k == 0 then 0
    else CreditBelow(qs, answers, k - 1) + Credit(qs[k - 1], AnswerFor(answers, qs[k - 1].id))
  }

  /** `calculateScore()`: `Math.round(correct / n * 100)`, which in tenths is
      `round(10 * credit / n)`. */
  function CalculateScore(m: ModuleTest, answers: map<string, Answer>): (s: Option<nat>)
    ensures s.Some? <==> |m.questions| > 0
    ensures s.Some? ==> s.value <= 100
    ensures s.Some? ==>
      var n, credit := |m.questions|, CreditBelow(m.questions, answers, |m.questions|);
      2 * n * s.value <= 20 * credit + n < 2 * n * (s.value + 1)
  {
    var n := |m.questions|;
    if n == 0 then None
    else
      var credit := CreditBelow(m.questions, answers, n);
      RoundDivAtMost(10 * credit, n, 100);
      Some(RoundDiv(10 * credit, n))
  }

  /** The results screen shows a pass exactly when the credit, in tenths,
      reaches the passing score: `round(10 * credit / n) >= passingScore`
      is the integer test `20 * credit + n >= 2 * n * passingScore`. */
  lemma ScorePassThreshold(m: ModuleTest, answers: map<string, Answer>)
    requires |m.questions| > 0
    ensures CalculateScore(m, answers).value >= m.passingScore
            <==> 20 * CreditBelow(m.questions, answers, |m.questions|) + |m.questions| >= 2 * |m.questions| * m.passingScore
  {
    if m.passingScore > 0 {
      RoundDivAtLeast(10 * CreditBelow(m.questions, answers, |m.questions|), |m.questions|, m.passingScore);
    }
  }

  /** Full credit on every question scores 100. */
  lemma {:induction false} FullCreditBelow(qs: seq<TestQuestion>, answers: map<string, Answer>, k: nat)
    requires k <= |qs|
    requires forall i :: 0 <= i < k ==> Credit(qs[i], AnswerFor(answers, qs[i].id)) == 10
    ensures CreditBelow(qs, answers, k) == 10 * k
    decreases k
  {
    if k > 0 {
      FullCreditBelow(qs, answers, k - 1);
    }
  }

  lemma AllCorrectScoresHundred(m: ModuleTest, answers: map<string, Answer>)
    requires |m.questions| > 0
    requires forall i :: 0 <= i < |m.questions| ==> Credit(m.questions[i], AnswerFor(answers, m.questions[i].id)) == 10
    ensures CalculateScore(m, answers) == Some(100)
  {
    FullCreditBelow(m.questions, answers, |m.questions|);
    RoundDivExact(100, |m.questions|);
    assert 10 * (10 * |m.questions|) == 100 * |m.questions|;
  }

  /** `score >= passingScore` on the results screen. */
  predicate Passed(r: Runner) {
    && r.completed && r.selected.Some? && r.score.Some?
    && r.score.value >= r.selected.value.passingScore
  }

  /** The runner is on an existing question of the selected test. */
  predicate OnQuestion(r: Runner) {
    r.selected.Some? ==> r.current < |r.selected.value.questions|
  }

  /** `nextQuestion()`, with the 30% draw as the input `fires`. A question with
      a trigger whose draw fires shows the trigger and stays put; otherwise the
      runner moves to the next question, or on the last one completes the test
      and scores it. */
  function NextQuestion(r: Runner, fires: bool): (r': Runner)
    requires OnQuestion(r)
    ensures OnQuestion(r')
    ensures r.selected.None? ==> r' == r
    ensures r.selected.Some? ==>
      var m := r.selected.value;
      var q := m.questions[r.current];
      && (q.trigger.Some? && fires ==> r' == r.(showTrigger := q.trigger))
      && (!(q.trigger.Some? && fires) && r.current + 1 < |m.questions| ==>
            r' == r.(current := r.current + 1))
      && (!(q.trigger.Some? && fires) && r.current + 1 == |m.questions| ==>
            r' == r.(completed := true, score := CalculateScore(m, r.answers)))
  {
    if r.selected.None? then r
    else
      var m := r.selected.value;
      var q := m.questions[r.current];
      if q.trigger.Some? && fires then r.(showTrigger := q.trigger)
      else if r.current < |m.questions| - 1 then r.(current := r.current + 1)
      else r.(completed := true, score := CalculateScore(m, r.answers))
  }

  /** The Continue Trading button: dismiss the trigger and try again to move on
      (the draw is made afresh). */
  function ContinueAfterTrigger(r: Runner, fires: bool): (r': Runner)
    requires OnQuestion(r)
    ensures r' == NextQuestion(r.(showTrigger := None), fires)
  {
    NextQuestion(r.(showTrigger := None), fires)
  }

  /** `resetTest()`, the Exit Test button. */
  function ResetTest(): (r: Runner)
    ensures r.selected == None && !r.started && !r.completed && r.answers == map[]
  {
    Idle
  }

  /** Answering every question in order and pressing Next each time, without
      any trigger firing, completes the test after one press per question. */
  function PressNext(r: Runner, presses: nat): (r': Runner)
    requires OnQuestion(r)
    ensures OnQuestion(r')
    decreases presses
  {
    if presses == 0 then r else PressNext(NextQuestion(r, false), presses - 1)
  }

  lemma {:induction false} PressNextCompletes(r: Runner, presses: nat)
    requires OnQuestion(r) && r.selected.Some? && !r.completed
    requires r.current + presses == |r.selected.value.questions|
    ensures PressNext(r, presses).completed
    ensures PressNext(r, presses).score == CalculateScore(r.selected.value, r.answers)
    ensures PressNext(r, presses).current == |r.selected.value.questions| - 1
    decreases presses
  {
    if presses > 1 {
      PressNextCompletes(NextQuestion(r, false), presses - 1);
    } else {
      assert PressNext(r, 1) == PressNext(NextQuestion(r, false), 0);
    }
  }

  /** The Next Question / Finish Test button as written: disabled unless the
      stored answer is truthy. */
  predicate NextEnabledAsWritten(r: Runner)
    requires OnQuestion(r)
  {
    r.selected.Some? &&
    var id := r.selected.value.questions[r.current].id;
    id in r.answers && Truthy(r.answers[id])
  }

  /** The guard as evidently intended: any chosen option counts as an answer,
      and a typed answer must not be empty. */
  predicate NextEnabled(r: Runner)
    requires OnQuestion(r)
  {
    r.selected.Some? &&
    var id := r.selected.value.questions[r.current].id;
    id in r.answers && (r.answers[id].Text? ==> |r.answers[id].text| > 0)
  }

  /** The two guards agree except on option 0, which only the corrected guard
      accepts. */
  lemma GuardsDifferOnlyAtZero(r: Runner)
    requires OnQuestion(r)
    ensures NextEnabledAsWritten(r) ==> NextEnabled(r)
    ensures NextEnabled(r) && !NextEnabledAsWritten(r) ==>
      r.answers[r.selected.value.questions[r.current].id] == Index(0)
  {
  }

  /** A runner of "ICT Fundamentals" on its last question. */
  predicate OnIctLastQuestion(r: Runner) {
    r.selected == Some(IctBasics) && r.current == 1 && !r.completed
  }

  /** As written, the correct answer to the second ICT question is option 0,
      which keeps Finish Test disabled; so every state from which Finish Test
      can be pressed scores at most 50, below the pass mark of 80. */
  lemma IctUnpassableAsWritten(r: Runner)
    requires OnIctLastQuestion(r)
    requires NextEnabledAsWritten(r)
    ensures NextQuestion(r, false).completed
    ensures NextQuestion(r, false).score.value <= 50
    ensures !Passed(NextQuestion(r, false))
  {
    var qs := IctBasics.questions;
    assert r.answers["2"] != Index(0);
    assert Credit(qs[1], AnswerFor(r.answers, "2")) == 0;
    var credit := CreditBelow(qs, r.answers, 2);
    assert credit <= 10;
    RoundDivAtMost(10 * credit, 2, 50);
  }

  /** With the corrected guard, answering both ICT questions correctly lets the
      learner finish with 100 and pass. */
  lemma IctPassableCorrected(r: Runner)
    requires OnIctLastQuestion(r)
    requires AnswerFor(r.answers, "1") == Some(Index(1)) && AnswerFor(r.answers, "2") == Some(Index(0))
    ensures NextEnabled(r) && !NextEnabledAsWritten(r)
    ensures NextQuestion(r, false).score == Some(100)
    ensures Passed(NextQuestion(r, false))
  {
    AllCorrectScoresHundred(IctBasics, r.answers);
  }

  /** Any typed answer to the psychology question earns 0.8 of it, 80, which
      passes at 75; an empty one scores 0. */
  lemma PsychologyScores(answers: map<string, Answer>)
    ensures AnswerFor(answers, "1").Some? && Truthy(answers["1"]) ==>
      CalculateScore(PsychologyTest, answers) == Some(80)
    ensures AnswerFor(answers, "1").None? ==> CalculateScore(PsychologyTest, answers) == Some(0)
  {
    var qs := PsychologyTest.questions;
    assert CreditBelow(qs, answers, 1) == Credit(qs[0], AnswerFor(answers, "1"));
    if AnswerFor(answers, "1").Some? && Truthy(answers["1"]) {
      DivModUnique(2 * 80 + 1, 2, 80, 1);
    } else if AnswerFor(answers, "1").None? {
      RoundDivAtMost(0, 1, 0);
    }
  }

  /** `formatTime(seconds)` of the test timer: unpadded minutes, two-digit
      seconds. */
  function FormatRemaining(seconds: nat): (s: string)
    ensures ':' in s
  {
    var m := NatToString(seconds / 60);
    assert (m + ":" + PadTwo(seconds % 60))[|m|] == ':';
    m + ":" + PadTwo(seconds % 60)
  }

  /** The timer text reads back: the digits before the colon are the whole
      minutes left, and the two digits after it the remaining seconds. */
  lemma FormatRemainingReadBack(seconds: nat)
    ensures var s := FormatRemaining(seconds); var k := FirstNonDigit(s);
      && k < |s| && s[k] == ':'
      && AllDigits(s[..k]) && ParseNat(s[..k]) == seconds / 60
      && AllDigits(s[k + 1..]) && |s[k + 1..]| >= 2 && ParseNat(s[k + 1..]) == seconds % 60
  {
    var m := NatToString(seconds / 60);
    ReadBackAtSeparator(m, PadTwo(seconds % 60), ':');
    ParseNatToString(seconds / 60);
  }

  /** Different times left read differently. */
  lemma FormatRemainingInjective(a: nat, b: nat)
    requires FormatRemaining(a) == FormatRemaining(b)
    ensures a == b
  {
    assert !IsDigit(':');
    SplitAtSeparator(NatToString(a / 60), PadTwo(a % 60), NatToString(b / 60), PadTwo(b % 60), ':');
    NatToStringInjective(a / 60, b / 60);
    assert a % 60 == ParseNat(PadTwo(a % 60)) == ParseNat(PadTwo(b % 60)) == b % 60;
  }
}
