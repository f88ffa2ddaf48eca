/** The multiple-choice test runner of latest/app.tsx: a test opened for a
    concept stage, answers kept per question index, clamped Previous/Next
    navigation, and the rounded percentage of correct answers. */
module McqRunner {
  import opened Common
  import opened Catalog

  /** `currentTest` of type 'mcq'. `answers` is the source's sparse array: an
      index without an entry is a hole. */
  datatype McqTest = McqTest(
    conceptId: string,
    stageId: string,
    questions: seq<McqQuestion>,
    current: nat,
    answers: map<nat, nat>)

  /** A test whose current question exists and whose answers sit at indices of
      questions, the state the test screen keeps. */
  predicate InRange(t: McqTest) {
    && t.current < |t.questions|
    && forall i :: i in t.answers ==> i < |t.questions|
  }

  /** `startMCQTest(conceptId, stageId)` with the concept's question bank. */
  function StartMcq(conceptId: string, stageId: string, questions: seq<McqQuestion>): (t: McqTest)
    ensures t.current == 0 && t.answers == map[]
    ensures |questions| > 0 ==> InRange(t)
  {
    McqTest(conceptId, stageId, questions, 0, map[])
  }

  /** Clicking option `option` of the current question. */
  function Choose(t: McqTest, option: nat): (r: McqTest)
    ensures r.answers.Keys == t.answers.Keys + {t.current}
    ensures r.answers[t.current] == option
    ensures forall i :: i in t.answers && i != t.current ==> r.answers[i] == t.answers[i]
    ensures r.questions == t.questions && r.current == t.current
    ensures InRange(t) ==> InRange(r)
  {
    t.(answers := t.answers[t.current := option])
  }

  /** The Previous button: `Math.max(0, currentQuestion - 1)`. */
  function Previous(t: McqTest): (r: McqTest)
    ensures InRange(t) ==> InRange(r)
    ensures r.answers == t.answers && r.questions == t.questions
    ensures t.current > 0 ==> r.current + 1 == t.current
    ensures t.current == 0 ==> r == t
  {
    t.(current := Max(0, t.current - 1))
  }

  /** The Next button, which is shown only before the last question. */
  function Next(t: McqTest): (r: McqTest)
    ensures InRange(t) ==> InRange(r)
    ensures r.answers == t.answers && r.questions == t.questions
    ensures t.current + 1 < |t.questions| ==> r.current == t.current + 1
    ensures t.current + 1 >= |t.questions| ==> r == t
    ensures r == t.(current := r.current)
  {
    if t.current < |t.questions| - 1 then t.(current := t.current + 1) else t
  }

  /** `k` presses of the Next button. */
  function NextTimes(t: McqTest, k: nat): (r: McqTest)
    requires InRange(t)
    ensures InRange(r)
    ensures r == t.(current := r.current)
    ensures r.current == Min(t.current + k, |t.questions| - 1)
    decreases k
  {
    if k == 0 then t else NextTimes(Next(t), k - 1)
  }

  /** Index `i` holds an answer equal to the question's correct option. */
  predicate AnsweredCorrectly(t: McqTest, i: nat)
    requires i < |t.questions|
  {
    i in t.answers && t.answers[i] == t.questions[i].correct
  }

  /** The `reduce` over the answers of indices below `k`: holes are skipped, so
      unanswered questions count as wrong. */
  function CorrectBelow(t: McqTest, k: nat): (c: nat)
    requires k <= |t.questions|
    ensures c <= k
    decreases k
  {
    if k == 0 then 0
    else CorrectBelow(t, k - 1) + (if AnsweredCorrectly(t, k - 1) then 1 else 0)
  }

  function CorrectCount(t: McqTest): (c: nat)
    ensures c <= |t.questions|
  {
    CorrectBelow(t, |t.questions|)
  }

  /** The set of correctly answered question indices. */
  function CorrectSet(t: McqTest, k: nat): set<nat>
    requires k <= |t.questions|
  {
    set i: nat | i < k && AnsweredCorrectly(t, i)
  }

  /** The running count equals the number of correctly answered indices. */
  lemma {:induction false} CorrectBelowCountsSet(t: McqTest, k: nat)
    requires k <= |t.questions|
    ensures CorrectBelow(t, k) == |CorrectSet(t, k)|
    decreases k
  {
    if k > 0 {
      CorrectBelowCountsSet(t, k - 1);
      if AnsweredCorrectly(t, k - 1) {
        assert CorrectSet(t, k) == CorrectSet(t, k - 1) + {k - 1};
      } else {
        assert CorrectSet(t, k) == CorrectSet(t, k - 1);
      }
    }
  }

  lemma CorrectCountIsCorrectSet(t: McqTest)
    ensures CorrectCount(t) == |CorrectSet(t, |t.questions|)|
  {
    CorrectBelowCountsSet(t, |t.questions|);
  }

  /** No answers, no credit. */
  lemma {:induction false} CorrectBelowUnanswered(t: McqTest, k: nat)
    requires k <= |t.questions|
    requires t.answers == map[]
    ensures CorrectBelow(t, k) == 0
    decreases k
  {
    if k > 0 {
      CorrectBelowUnanswered(t, k - 1);
    }
  }

  /** `Math.round((score / questions.length) * 100)`. */
  function McqPercentage(t: McqTest): (p: nat)
    requires |t.questions| > 0
    ensures p <= 100
    ensures CorrectCount(t) == |t.questions| ==> p == 100
  {
    var n := |t.questions|;
    RoundDivAtMost(100 * CorrectCount(t), n, 100);
    RoundDivExact(100, n);
    RoundDiv(100 * CorrectCount(t), n)
  }

  const McqPassMark: nat := 80
  const McqReward: nat := 50

  /** The test is passed at 80 percent, that is when at least 159 of every 200
      questions are answered correctly. */
  lemma McqPassThreshold(t: McqTest)
    requires |t.questions| > 0
    ensures McqPercentage(t) >= McqPassMark <==> 200 * CorrectCount(t) >= 159 * |t.questions|
  {
    RoundDivAtLeast(100 * CorrectCount(t), |t.questions|, McqPassMark);
  }

  /** The scenario of a two-question test answered once right and once wrong. */
  lemma HalfRightScoresFifty(t: McqTest)
    requires |t.questions| == 2
    requires t.answers == map[0 := t.questions[0].correct, 1 := t.questions[1].correct + 1]
    ensures McqPercentage(t) == 50
    ensures McqPercentage(t) < McqPassMark
  {
    assert CorrectBelow(t, 1) == 1;
    assert !AnsweredCorrectly(t, 1);
    assert CorrectCount(t) == 1;
    DivModUnique(2 * 100 + 2, 4, 50, 2);
  }
}
