/** The static content of latest/app.tsx that the engine reads: the tiered quest
    pools, the concept system, and the rotating daily selection over the pools. */
module Catalog {
  import opened Common
  import opened Progression

  /** A practical quest: it needs `reps` passing attempts; each attempt is scored
      on `criteria` and passes at `minAccuracy` percent. */
  datatype Quest = Quest(
    id: string,
    title: string,
    reps: nat,
    criteria: seq<string>,
    minAccuracy: nat,
    timeLimit: nat,
    concept: string)

  const BeginnerPool: seq<Quest> := [
    Quest("structure_marking", "Structure Marking", 10,
          ["Higher High (HH)", "Higher Low (HL)", "Lower High (LH)", "Lower Low (LL)"], 80, 300,
          "market_structure"),
    Quest("ob_spotting", "Order Block Spotting", 10,
          ["Bullish Order Block", "Bearish Order Block", "Last candle before impulse"], 75, 240,
          "order_blocks"),
    Quest("fvg_identification", "Fair Value Gap Identification", 10,
          ["3-candle gap", "Imbalance zone", "Partial fill identification"], 85, 180,
          "fair_value_gaps")
  ]

  const IntermediatePool: seq<Quest> := [
    Quest("ob_mitigation", "OB Mitigation", 10,
          ["Mitigation point", "Reaction analysis", "Invalidation level"], 80, 360,
          "order_blocks"),
    Quest("confluence_analysis", "FVG + OB Confluence", 10,
          ["FVG identification", "OB identification", "Confluence zone"], 75, 420,
          "confluence")
  ]

  const AdvancedPool: seq<Quest> := [
    Quest("narrative_building", "Narrative Build", 10,
          ["HTF analysis", "LTF confirmation", "Bias formation"], 85, 600,
          "multi_timeframe")
  ]

  /** `questPools[tier]`. */
  function Pool(t: Tier): (p: seq<Quest>)
    ensures 0 < |p| <= 3
  {
    match t
    case Beginner => BeginnerPool
    case Intermediate => IntermediatePool
    case Advanced => AdvancedPool
  }

  /** Every quest of the catalog. */
  function AllQuests(): seq<Quest> {
    BeginnerPool + IntermediatePool + AdvancedPool
  }

  lemma PoolsInCatalog(t: Tier, q: Quest)
    requires q in Pool(t)
    ensures q in AllQuests()
  {
  }

  /** A quest the session can run: at least one rep and at least one criterion. */
  predicate WellFormed(q: Quest) {
    q.reps > 0 && |q.criteria| > 0
  }

  lemma CatalogWellFormed(q: Quest)
    requires q in AllQuests()
    ensures WellFormed(q)
    ensures Distinct(q.criteria)
    ensures q.id != "structure_advanced"
  {
  }

  /** The three-quest window `[p[d % n], p[(d+1) % n], p[(d+2) % n]]`. */
  function Window<T>(pool: seq<T>, dayIndex: nat): (w: seq<T>)
    requires |pool| > 0
    ensures |w| == 3
    ensures forall k :: 0 <= k < 3 ==> w[k] in pool
  {
    [pool[dayIndex % |pool|], pool[(dayIndex + 1) % |pool|], pool[(dayIndex + 2) % |pool|]]
  }

  /** `getCurrentQuests` for a learner at `level` on day `dayIndex`
      (`floor(Date.now() / 86400000)`). */
  function DailyQuests(level: int, dayIndex: nat): (w: seq<Quest>)
    ensures |w| == 3
    ensures forall k :: 0 <= k < 3 ==> w[k] in Pool(LevelTier(level))
  {
    Window(Pool(LevelTier(level)), dayIndex)
  }

  /** Consecutive days slide the window by one place. */
  lemma WindowSlides<T>(pool: seq<T>, dayIndex: nat, k: nat)
    requires |pool| > 0
    requires k < 2
    ensures Window(pool, dayIndex + 1)[k] == Window(pool, dayIndex)[k + 1]
  {
    assert dayIndex + 1 + k == dayIndex + (k + 1);
  }

  /** The window repeats with the pool's length. */
  lemma WindowPeriodic<T>(pool: seq<T>, dayIndex: nat)
    requires |pool| > 0
    ensures Window(pool, dayIndex + |pool|) == Window(pool, dayIndex)
  {
    var n := |pool|;
    ModAdd(dayIndex + n, 1, n);
    ModAdd(dayIndex + n, 2, n);
    ModAdd(dayIndex, 1, n);
    ModAdd(dayIndex, 2, n);
    ModAdd(dayIndex, n, n);
    ModSmall(dayIndex % n, n);
    ModWrap(dayIndex % n + n, n);
    assert dayIndex + n + 1 == dayIndex + 1 + n;
    assert dayIndex + n + 2 == dayIndex + 2 + n;
  }

  /** The slot `(d + k) % n` of the window, read from `d % n`. */
  lemma WindowSlots<T>(pool: seq<T>, dayIndex: nat)
    requires |pool| > 0
    ensures Window(pool, dayIndex)[1] == pool[(dayIndex % |pool| + 1) % |pool|]
    ensures Window(pool, dayIndex)[2] == pool[(dayIndex % |pool| + 2) % |pool|]
  {
    ModAdd(dayIndex, 1, |pool|);
    ModAdd(dayIndex, 2, |pool|);
  }

  /** With a pool of at least three distinct quests the window holds three
      distinct quests. */
  lemma WindowDistinct<T>(pool: seq<T>, dayIndex: nat)
    requires |pool| >= 3
    requires Distinct(pool)
    ensures Window(pool, dayIndex)[0] != Window(pool, dayIndex)[1]
    ensures Window(pool, dayIndex)[0] != Window(pool, dayIndex)[2]
    ensures Window(pool, dayIndex)[1] != Window(pool, dayIndex)[2]
  {
    var n := |pool|;
    var d := dayIndex % n;
    WindowSlots(pool, dayIndex);
    if d + 2 < n {
      ModSmall(d + 1, n);
      ModSmall(d + 2, n);
    } else if d + 2 == n {
      ModSmall(d + 1, n);
      ModWrap(d + 2, n);
    } else {
      ModWrap(d + 1, n);
      ModWrap(d + 2, n);
    }
  }

  /** Swapping the two halves of a sequence keeps its elements. */
  lemma SwapHalves<T>(p: seq<T>, q: seq<T>)
    ensures multiset(q + p) == multiset(p + q)
  {
  }

  /** The pool of three started at place `r`. */
  function Rotation<T>(pool: seq<T>, r: nat): seq<T>
    requires |pool| == 3 && r < 3
  {
    if r == 0 then pool
    else if r == 1 then [pool[1], pool[2], pool[0]]
    else [pool[2], pool[0], pool[1]]
  }

  lemma RotationKeepsMultiset<T>(pool: seq<T>, r: nat)
    requires |pool| == 3 && r < 3
    ensures multiset(Rotation(pool, r)) == multiset(pool)
  {
    if r == 1 {
      RotatedOnce(pool);
    } else if r == 2 {
      RotatedTwice(pool);
    }
  }

  lemma RotatedOnce<T>(pool: seq<T>)
    requires |pool| == 3
    ensures multiset(Rotation(pool, 1)) == multiset(pool)
  {
    var x, y, z := pool[0], pool[1], pool[2];
    assert pool == [x] + [y, z];
    assert Rotation(pool, 1) == [y, z] + [x];
    SwapHalves([x], [y, z]);
  }

  lemma RotatedTwice<T>(pool: seq<T>)
    requires |pool| == 3
    ensures multiset(Rotation(pool, 2)) == multiset(pool)
  {
    var x, y, z := pool[0], pool[1], pool[2];
    assert pool == [x, y] + [z];
    assert Rotation(pool, 2) == [z] + [x, y];
    SwapHalves([x, y], [z]);
  }

  /** The next two days' remainders modulo three. */
  lemma ThreeSlots(dayIndex: nat)
    ensures (dayIndex + 1) % 3 == if dayIndex % 3 == 2 then 0 else dayIndex % 3 + 1
    ensures (dayIndex + 2) % 3 == if dayIndex % 3 == 0 then 2 else dayIndex % 3 - 1
  {
    var q, r := dayIndex / 3, dayIndex % 3;
    if r == 0 {
      DivModUnique(dayIndex + 1, 3, q, 1);
      DivModUnique(dayIndex + 2, 3, q, 2);
    } else if r == 1 {
      DivModUnique(dayIndex + 1, 3, q, 2);
      DivModUnique(dayIndex + 2, 3, q + 1, 0);
    } else {
      DivModUnique(dayIndex + 1, 3, q + 1, 0);
      DivModUnique(dayIndex + 2, 3, q + 1, 1);
    }
  }

  /** Over a pool of three, the window of day `d` is the pool started at place
      `d % 3`. */
  lemma WindowIsRotation<T>(pool: seq<T>, dayIndex: nat)
    requires |pool| == 3
    ensures Window(pool, dayIndex) == Rotation(pool, dayIndex % 3)
  {
    ThreeSlots(dayIndex);
  }

  /** A window over a pool of exactly three quests is a rotation of the pool. */
  lemma WindowOfThree<T>(pool: seq<T>, dayIndex: nat)
    requires |pool| == 3
    ensures multiset(Window(pool, dayIndex)) == multiset(pool)
  {
    WindowIsRotation(pool, dayIndex);
    RotationKeepsMultiset(pool, dayIndex % 3);
  }

  /** A window over a pool of two quests alternates them. */
  lemma WindowOfTwo<T>(pool: seq<T>, dayIndex: nat)
    requires |pool| == 2 && pool[0] != pool[1]
    ensures Window(pool, dayIndex)[0] == Window(pool, dayIndex)[2] != Window(pool, dayIndex)[1]
  {
    var d := dayIndex % 2;
    WindowSlots(pool, dayIndex);
    ModWrap(2, 2);
    if d == 0 {
      ModSmall(1, 2);
    } else {
      ModWrap(3, 2);
    }
  }

  /** The pools are smaller than the window, so quests repeat within one day:
      the beginner window is a rotation of its whole pool, the intermediate
      window repeats its first quest in third place, and the advanced window is
      one quest three times. */
  lemma DailyQuestsRepeats(level: int, dayIndex: nat)
    ensures LevelTier(level) == Beginner ==>
      multiset(DailyQuests(level, dayIndex)) == multiset(BeginnerPool)
    ensures LevelTier(level) == Intermediate ==>
      DailyQuests(level, dayIndex)[0] == DailyQuests(level, dayIndex)[2] != DailyQuests(level, dayIndex)[1]
    ensures LevelTier(level) == Advanced ==>
      DailyQuests(level, dayIndex) == [AdvancedPool[0], AdvancedPool[0], AdvancedPool[0]]
  {
    match LevelTier(level)
    case Beginner =>
      WindowOfThree(BeginnerPool, dayIndex);
    case Intermediate =>
      assert IntermediatePool[0].id != IntermediatePool[1].id;
      WindowOfTwo(IntermediatePool, dayIndex);
    case Advanced =>
  }

  /** One stage of a concept: it is complete once all its quests are done. */
  datatype Stage = Stage(id: string, title: string, quests: seq<string>, mcq: bool, practical: bool)

  datatype McqQuestion = McqQuestion(question: string, options: seq<string>, correct: nat)

  datatype Concept = Concept(
    title: string,
    prerequisites: seq<string>,
    stages: seq<Stage>)

  /** The keys of `conceptSystem`. */
  const ConceptIds: set<string> := {"market_structure", "order_blocks", "fair_value_gaps"}

  /** `conceptSystem`. */
  const Concepts: map<string, Concept> := map[
    "market_structure" := Concept(
      "Market Structure", [],
      [Stage("basics", "Structure Basics", ["structure_marking"], true, true),
       Stage("advanced", "Advanced Structure", ["structure_advanced"], true, true)]),
    "order_blocks" := Concept(
      "Order Blocks", ["market_structure"],
      [Stage("identification", "OB Identification", ["ob_spotting"], true, true),
       Stage("mitigation", "OB Mitigation", ["ob_mitigation"], true, true)]),
    "fair_value_gaps" := Concept(
      "Fair Value Gaps", ["market_structure"],
      [Stage("identification", "FVG Identification", ["fvg_identification"], true, true)])
  ]

  /** The `mcqQuestions` of each entry of `conceptSystem`, kept apart from the
      rest of the entry. */
  const ConceptQuestions: map<string, seq<McqQuestion>> := map[
    "market_structure" :=
      [McqQuestion("What defines a Higher High (HH) in market structure?",
                   ["A high that is higher than the previous high",
                    "A high that is lower than the previous high",
                    "Any high point on the chart",
                    "The highest point of the day"], 0),
       McqQuestion("In a downtrend, what structure pattern do we typically see?",
                   ["Higher Highs and Higher Lows",
                    "Lower Highs and Lower Lows",
                    "Equal Highs and Lows",
                    "Random price movement"], 1)],
    "order_blocks" :=
      [McqQuestion("What is an Order Block in ICT methodology?",
                   ["Any support or resistance level",
                    "The last opposing candle before an impulsive move",
                    "A consolidation area",
                    "A moving average level"], 1)],
    "fair_value_gaps" :=
      [McqQuestion("How is a Fair Value Gap formed?",
                   ["When price moves sideways",
                    "When there is a gap between 3 consecutive candles",
                    "When volume is high",
                    "When price breaks support"], 1)]
  ]

  /** The keys of `conceptSystem` are the three concept ids. */
  lemma ConceptIdsAreKeys(id: string)
    ensures id in ConceptIds <==> id in Concepts
    ensures id in ConceptQuestions <==> id in Concepts
  {
  }

  /** Every concept has questions for its test and every stage asks for one. */
  lemma ConceptsWellFormed(id: string)
    requires id in Concepts
    ensures id in ConceptQuestions && |ConceptQuestions[id]| > 0
    ensures forall st :: st in Concepts[id].stages ==> st.mcq
  {
  }

  /** Two quests name a concept the concept system does not define, so finishing
      them advances no concept. */
  lemma QuestsWithoutConcept()
    ensures IntermediatePool[1].concept !in Concepts
    ensures AdvancedPool[0].concept !in Concepts
    ensures forall q :: q in BeginnerPool ==> q.concept in Concepts
  {
  }
}
