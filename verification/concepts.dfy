/** Concept progression of latest/app.tsx: recording a finished quest against
    its concept (`completeQuest`) and opening a stage's test once every quest of
    the stage is done (`checkConceptStageCompletion`). */
module ConceptProgression {
  import opened Common
  import opened Catalog
  import opened McqRunner

  /** Progress on one concept. `completedQuests` is a list: finishing a quest
      twice lists it twice. Nothing in the application writes `completedStages`. */
  datatype ConceptProgress = ConceptProgress(completedQuests: seq<string>, completedStages: seq<string>)

  const NoProgress: ConceptProgress := ConceptProgress([], [])

  /** `conceptProgress[id]`, with an absent entry read as empty lists. */
  function ProgressOf(progress: map<string, ConceptProgress>, conceptId: string): ConceptProgress {
    if conceptId in progress then progress[conceptId] else NoProgress
  }

  /** The concept update of `completeQuest`: append the quest id to the
      concept's list, but only for a concept the concept system defines. */
  function RecordQuest(progress: map<string, ConceptProgress>, conceptId: string, questId: string)
    : (r: map<string, ConceptProgress>)
    ensures conceptId !in Concepts ==> r == progress
    ensures conceptId in Concepts ==>
      && r.Keys == progress.Keys + {conceptId}
      && r[conceptId].completedQuests == ProgressOf(progress, conceptId).completedQuests + [questId]
      && r[conceptId].completedStages == ProgressOf(progress, conceptId).completedStages
    ensures forall c :: c in progress && c != conceptId ==> r[c] == progress[c]
  {
    if conceptId in Concepts then
      var old_ := ProgressOf(progress, conceptId);
      progress[conceptId := old_.(completedQuests := old_.completedQuests + [questId])]
    else
      progress
  }

  /** `stage.quests.every(id => completedQuests.includes(id))`. */
  predicate StageComplete(stage: Stage, p: ConceptProgress) {
    forall q :: q in stage.quests ==> q in p.completedQuests
  }

  /** The condition under which `checkConceptStageCompletion` opens a test. */
  predicate Triggers(stage: Stage, p: ConceptProgress) {
    StageComplete(stage, p) && stage.id !in p.completedStages && stage.mcq
  }

  /** The stages, in order, for which a test is opened. */
  function TriggeredStages(stages: seq<Stage>, p: ConceptProgress): (r: seq<Stage>)
    ensures forall st :: st in r <==> st in stages && Triggers(st, p)
    ensures |r| <= |stages|
    decreases |stages|
  {
    if |stages| == 0 then []
    else
      var rest := TriggeredStages(stages[..|stages| - 1], p);
      var last := stages[|stages| - 1];
      assert stages == stages[..|stages| - 1] + [last];
      if Triggers(last, p) then rest + [last] else rest
  }

  /** Filtering keeps the order of the stages: the stages of `a + b` that fire
      are those of `a` followed by those of `b`. */
  lemma {:induction false} TriggeredStagesAppend(a: seq<Stage>, b: seq<Stage>, p: ConceptProgress)
    ensures TriggeredStages(a + b, p) == TriggeredStages(a, p) + TriggeredStages(b, p)
    decreases |b|
  {
    if |b| == 0 {
      assert a + b == a;
    } else {
      var k := |b| - 1;
      assert (a + b)[..|a + b| - 1] == a + b[..k];
      TriggeredStagesAppend(a, b[..k], p);
    }
  }

  /** A single stage is kept exactly when it fires. */
  lemma TriggeredStagesSingle(st: Stage, p: ConceptProgress)
    ensures TriggeredStages([st], p) == if Triggers(st, p) then [st] else []
  {
    assert [st][..0] == [];
  }

  /** Stage `k` fires and no stage after it does. */
  predicate LastTrigger(stages: seq<Stage>, p: ConceptProgress, k: int) {
    && 0 <= k < |stages| && Triggers(stages[k], p)
    && forall j :: k < j < |stages| ==> !Triggers(stages[j], p)
  }

  /** When some stage fires, one of them is the last to fire. */
  lemma {:induction false} SomeLastTrigger(stages: seq<Stage>, p: ConceptProgress, i: int)
    requires 0 <= i < |stages| && Triggers(stages[i], p)
    ensures exists k :: LastTrigger(stages, p, k)
    decreases |stages| - i
  {
    if !LastTrigger(stages, p, i) {
      var j :| i < j < |stages| && Triggers(stages[j], p);
      SomeLastTrigger(stages, p, j);
    }
  }

  /** The last entry of the filtered list is the last stage, in concept
      order, that fires. */
  lemma {:induction false} TriggeredStagesLast(stages: seq<Stage>, p: ConceptProgress, k: int)
    requires LastTrigger(stages, p, k)
    ensures |TriggeredStages(stages, p)| > 0
    ensures TriggeredStages(stages, p)[|TriggeredStages(stages, p)| - 1] == stages[k]
    decreases |stages|
  {
    var n := |stages| - 1;
    if k < n {
      var prefix := stages[..n];
      assert !Triggers(stages[n], p);
      assert LastTrigger(prefix, p, k);
      TriggeredStagesLast(prefix, p, k);
    }
  }

  /** `checkConceptStageCompletion`: every triggering stage calls
      `startMCQTest`, each replacing the test before it, so the last triggering
      stage's test is the one left open. */
  function CheckStages(conceptId: string, p: ConceptProgress, current: Option<McqTest>)
    : (r: Option<McqTest>)
    ensures conceptId !in Concepts ==> r == current
    ensures conceptId in Concepts ==>
      var fired := TriggeredStages(Concepts[conceptId].stages, p);
      && (|fired| == 0 ==> r == current)
      && (|fired| > 0 ==> r.Some? && r.value.conceptId == conceptId
                          && r.value.stageId == fired[|fired| - 1].id
                          && InRange(r.value) && r.value.answers == map[])
  {
    if conceptId !in Concepts then current
    else
      var concept := Concepts[conceptId];
      var fired := TriggeredStages(concept.stages, p);
      if |fired| == 0 then current
      else
        ConceptsWellFormed(conceptId);
        Some(StartMcq(conceptId, fired[|fired| - 1].id, ConceptQuestions[conceptId]))
  }

  /** The test left open is that of the last stage, in concept order, whose
      quests are all done; when no stage fires the open test is untouched. */
  lemma CheckStagesOpensLastTrigger(conceptId: string, p: ConceptProgress, current: Option<McqTest>)
    requires conceptId in Concepts
    ensures (forall k :: 0 <= k < |Concepts[conceptId].stages| ==> !Triggers(Concepts[conceptId].stages[k], p))
            ==> CheckStages(conceptId, p, current) == current
    ensures forall k :: LastTrigger(Concepts[conceptId].stages, p, k) ==>
      var r := CheckStages(conceptId, p, current);
      r.Some? && r.value.conceptId == conceptId && r.value.stageId == Concepts[conceptId].stages[k].id
  {
    var stages := Concepts[conceptId].stages;
    var fired := TriggeredStages(stages, p);
    if |fired| > 0 {
      assert fired[0] in fired;
    }
    forall k | LastTrigger(stages, p, k)
      ensures CheckStages(conceptId, p, current).value.stageId == stages[k].id
    {
      TriggeredStagesLast(stages, p, k);
    }
  }

  /** A stage with quests A and B does not fire while only A is done. */
  lemma StageNeedsEveryQuest(stage: Stage, p: ConceptProgress, missing: string)
    requires missing in stage.quests && missing !in p.completedQuests
    ensures !Triggers(stage, p)
  {
  }

  /** Recording quests never makes a complete stage incomplete, and never
      writes `completedStages`, so a stage that has fired fires again at every
      later completion in its concept. */
  lemma StageKeepsFiring(progress: map<string, ConceptProgress>, conceptId: string, questId: string, stage: Stage)
    requires conceptId in Concepts
    requires Triggers(stage, ProgressOf(progress, conceptId))
    ensures Triggers(stage, RecordQuest(progress, conceptId, questId)[conceptId])
  {
  }

  /** Concept progress built only by recording quests keeps `completedStages`
      empty, so the "not yet completed" half of the trigger always holds. */
  lemma CompletedStagesStayEmpty(progress: map<string, ConceptProgress>, conceptId: string, questId: string)
    requires forall c :: c in progress ==> progress[c].completedStages == []
    ensures forall c :: c in RecordQuest(progress, conceptId, questId) ==>
      RecordQuest(progress, conceptId, questId)[c].completedStages == []
  {
  }

  /** Every id in a progress list names a catalog quest. */
  predicate OnlyCatalogQuests(progress: map<string, ConceptProgress>) {
    forall c, id :: c in progress && id in progress[c].completedQuests ==>
      exists q :: q in AllQuests() && q.id == id
  }

  lemma RecordCatalogQuest(progress: map<string, ConceptProgress>, q: Quest)
    requires OnlyCatalogQuests(progress)
    requires q in AllQuests()
    ensures OnlyCatalogQuests(RecordQuest(progress, q.concept, q.id))
  {
    var r := RecordQuest(progress, q.concept, q.id);
    forall c, id | c in r && id in r[c].completedQuests
      ensures exists q' :: q' in AllQuests() && q'.id == id
    {
      if c == q.concept && q.concept in Concepts {
        var before := ProgressOf(progress, c).completedQuests;
        assert r[c].completedQuests == before + [q.id];
        if id != q.id {
          assert id in before;
        }
      }
    }
  }

  /** The "advanced" stage of market structure asks for a quest that is in no
      pool, so while progress holds only catalog quests it never fires. */
  lemma AdvancedStructureNeverFires(progress: map<string, ConceptProgress>)
    requires OnlyCatalogQuests(progress)
    ensures !Triggers(Concepts["market_structure"].stages[1], ProgressOf(progress, "market_structure"))
  {
    var stage := Concepts["market_structure"].stages[1];
    assert "structure_advanced" in stage.quests;
    if "structure_advanced" in ProgressOf(progress, "market_structure").completedQuests {
      var q :| q in AllQuests() && q.id == "structure_advanced";
      CatalogWellFormed(q);
    }
  }

  /** `concept.stages.reduce((acc, stage) => acc + stage.quests.length, 0)`. */
  function TotalQuests(stages: seq<Stage>): (n: nat)
    ensures |stages| == 0 ==> n == 0
    decreases |stages|
  {
    if |stages| == 0 then 0
    else TotalQuests(stages[..|stages| - 1]) + |stages[|stages| - 1].quests|
  }

  /** The quest count of stages placed one after another is the sum of
      their counts. */
  lemma {:induction false} TotalQuestsAppend(a: seq<Stage>, b: seq<Stage>)
    ensures TotalQuests(a + b) == TotalQuests(a) + TotalQuests(b)
    decreases |b|
  {
    if |b| == 0 {
      assert a + b == a;
    } else {
      var k := |b| - 1;
      assert (a + b)[..|a + b| - 1] == a + b[..k];
      TotalQuestsAppend(a, b[..k]);
    }
  }

  /** Every stage's quest ids, in stage order. */
  function StageQuests(stages: seq<Stage>): seq<string>
    decreases |stages|
  {
    if |stages| == 0 then [] else stages[0].quests + StageQuests(stages[1..])
  }

  /** The reduce counts every listed quest of every stage: it is the length
      of the concatenated quest lists. */
  lemma {:induction false} TotalQuestsCountsStageQuests(stages: seq<Stage>)
    ensures TotalQuests(stages) == |StageQuests(stages)|
    decreases |stages|
  {
    if |stages| > 0 {
      assert stages == [stages[0]] + stages[1..];
      TotalQuestsAppend([stages[0]], stages[1..]);
      assert [stages[0]][..0] == [];
      TotalQuestsCountsStageQuests(stages[1..]);
    }
  }

  /** The Take Test button of a concept card is shown when the progress bar is
      full: as many entries in the completed list as the stages ask quests. */
  predicate TakeTestShown(progress: map<string, ConceptProgress>, conceptId: string)
    requires conceptId in Concepts
  {
    var total := TotalQuests(Concepts[conceptId].stages);
    total > 0 && |ProgressOf(progress, conceptId).completedQuests| == total
  }

  /** The bar counts list entries, not distinct quests: market structure asks
      two quests, so one completion leaves the button hidden and a second
      completion of the same quest shows it, although the advanced stage is
      still incomplete. */
  lemma TakeTestCountsEntries(progress: map<string, ConceptProgress>)
    requires ProgressOf(progress, "market_structure").completedQuests == []
    ensures !TakeTestShown(RecordQuest(progress, "market_structure", "structure_marking"), "market_structure")
    ensures var twice := RecordQuest(RecordQuest(progress, "market_structure", "structure_marking"),
                                     "market_structure", "structure_marking");
      && TakeTestShown(twice, "market_structure")
      && !StageComplete(Concepts["market_structure"].stages[1], twice["market_structure"])
  {
    var stages := Concepts["market_structure"].stages;
    assert stages[..1][..0] == [];
    assert TotalQuests(stages[..1]) == 1;
    assert TotalQuests(stages) == 2;
    var twice := RecordQuest(RecordQuest(progress, "market_structure", "structure_marking"),
                             "market_structure", "structure_marking");
    assert twice["market_structure"].completedQuests == ["structure_marking", "structure_marking"];
    assert "structure_advanced" in stages[1].quests;
  }
}
