/** The deterministic part of `validateMarkings` in latest/app.tsx: given the
    validator's verdict on each criterion of a quest, the verdicts recorded under
    the criterion names, the attempt's percentage score and whether it passes. */
module Validation {
  import opened Common
  import opened Catalog

  /** One validation outcome: the verdict stored under each criterion name,
      the score and the pass. `score` is `None` where the source computes `NaN`
      (a quest without criteria). */
  datatype Validation = Validation(criteria: map<string, bool>, score: Option<nat>, overall: bool)

  /** The `forEach` writing `validation.criteria[criterion] = isValid` in the
      quest's order; a name listed twice keeps the verdict written last. */
  function Recorded(names: seq<string>, verdicts: seq<bool>): (m: map<string, bool>)
    requires |verdicts| == |names|
    ensures forall c :: c in m <==> c in names
    decreases |names|
  {
    if |names| == 0 then map[]
    else
      var k := |names| - 1;
      assert names == names[..k] + [names[k]];
      Recorded(names[..k], verdicts[..k])[names[k] := verdicts[k]]
  }

  /** The verdict stored under a name is the one given at its last position. */
  lemma {:induction false} RecordedLastWins(names: seq<string>, verdicts: seq<bool>, i: nat)
    requires |verdicts| == |names|
    requires i < |names|
    requires forall j :: i < j < |names| ==> names[j] != names[i]
    ensures Recorded(names, verdicts)[names[i]] == verdicts[i]
    decreases |names|
  {
    var k := |names| - 1;
    if i < k {
      assert names[..k][i] == names[i];
      RecordedLastWins(names[..k], verdicts[..k], i);
    }
  }

  /** The names whose stored verdict is true. */
  function MetNames(m: map<string, bool>): set<string> {
    set c | c in m && m[c]
  }

  /** `Object.values(validation.criteria).filter(Boolean).length`. */
  function MetCount(m: map<string, bool>): nat {
    |MetNames(m)|
  }

  /** Storing one verdict changes the count by at most one; under a new name it
      adds exactly that verdict. */
  lemma MetCountStore(m: map<string, bool>, c: string, b: bool)
    ensures MetCount(m[c := b]) <= MetCount(m) + 1
    ensures c !in m ==> MetCount(m[c := b]) == MetCount(m) + (if b then 1 else 0)
  {
    var before, after := MetNames(m), MetNames(m[c := b]);
    if b {
      assert after == before + {c};
    } else {
      assert after == before - {c};
    }
  }

  /** At most one stored verdict per listed criterion is met. */
  lemma {:induction false} MetCountAtMost(names: seq<string>, verdicts: seq<bool>)
    requires |verdicts| == |names|
    ensures MetCount(Recorded(names, verdicts)) <= |names|
    decreases |names|
  {
    if |names| > 0 {
      var k := |names| - 1;
      MetCountAtMost(names[..k], verdicts[..k]);
      MetCountStore(Recorded(names[..k], verdicts[..k]), names[k], verdicts[k]);
    }
  }

  /** The number of `true` entries, position by position. */
  function CountTrue(bs: seq<bool>): (c: nat)
    ensures c <= |bs|
    ensures c == |bs| <==> forall i :: 0 <= i < |bs| ==> bs[i]
    ensures c == 0 <==> forall i :: 0 <= i < |bs| ==> !bs[i]
    decreases |bs|
  {
    if |bs| == 0 then 0 else (if bs[|bs| - 1] then 1 else 0) + CountTrue(bs[..|bs| - 1])
  }

  /** With distinct criterion names no verdict is overwritten, so the met
      count is the number of true verdicts. */
  lemma {:induction false} MetCountDistinct(names: seq<string>, verdicts: seq<bool>)
    requires |verdicts| == |names|
    requires Distinct(names)
    ensures MetCount(Recorded(names, verdicts)) == CountTrue(verdicts)
    decreases |names|
  {
    if |names| > 0 {
      var k := |names| - 1;
      assert Distinct(names[..k]);
      assert names[k] !in names[..k];
      MetCountDistinct(names[..k], verdicts[..k]);
      MetCountStore(Recorded(names[..k], verdicts[..k]), names[k], verdicts[k]);
    }
  }

  /** Scores an attempt on quest `q` from the verdicts the validator gives, in
      criterion order: `round(100 * met / |criteria|)` over the recorded
      verdicts, passing at `q.minAccuracy`. */
  function Validate(q: Quest, verdicts: seq<bool>): (v: Validation)
    requires |verdicts| == |q.criteria|
    ensures v.criteria == Recorded(q.criteria, verdicts)
    ensures |verdicts| == 0 ==> v.score == None && !v.overall
    ensures |verdicts| > 0 ==> v.score.Some? && v.score.value <= 100
    ensures |verdicts| > 0 ==>
      var n, met := |verdicts|, MetCount(v.criteria);
      2 * n * v.score.value <= 200 * met + n < 2 * n * (v.score.value + 1)
    ensures |verdicts| > 0 ==>
      (v.overall <==> 200 * MetCount(v.criteria) + |verdicts| >= 2 * |verdicts| * q.minAccuracy)
  {
    var n := |verdicts|;
    var recorded := Recorded(q.criteria, verdicts);
    if n == 0 then
      Validation(recorded, None, false)
    else
      var met := MetCount(recorded);
      MetCountAtMost(q.criteria, verdicts);
      var score := RoundDiv(100 * met, n);
      RoundDivAtMost(100 * met, n, 100);
      RoundDivAtLeast(100 * met, n, q.minAccuracy);
      Validation(recorded, Some(score), score >= q.minAccuracy)
  }

  /** On a quest of the catalog, whose criterion names are distinct, the score
      counts the true verdicts position by position. */
  lemma ValidateCatalogQuest(q: Quest, verdicts: seq<bool>)
    requires q in AllQuests()
    requires |verdicts| == |q.criteria|
    ensures Validate(q, verdicts).score == Some(RoundDiv(100 * CountTrue(verdicts), |verdicts|))
    ensures Validate(q, verdicts).overall
            <==> 200 * CountTrue(verdicts) + |verdicts| >= 2 * |verdicts| * q.minAccuracy
  {
    CatalogWellFormed(q);
    MetCountDistinct(q.criteria, verdicts);
  }

  /** A criterion listed twice counts once, with its last verdict, while the
      denominator counts it twice: `["A", "A"]` judged met then unmet scores 0,
      and judged met twice scores 50. */
  lemma RepeatedCriterionCollapses(q: Quest)
    requires q.criteria == ["A", "A"]
    ensures Validate(q, [true, false]).score == Some(0)
    ensures Validate(q, [true, true]).score == Some(50)
  {
    var once := Recorded(q.criteria, [true, false]);
    assert once == map["A" := false];
    assert MetNames(once) == {};
    var twice := Recorded(q.criteria, [true, true]);
    assert twice == map["A" := true];
    assert MetNames(twice) == {"A"};
  }

  /** Every criterion met scores 100 when the names are distinct; none met
      scores 0. */
  lemma ValidateExtremes(q: Quest, verdicts: seq<bool>)
    requires |verdicts| == |q.criteria| > 0
    ensures Distinct(q.criteria) && (forall i :: 0 <= i < |verdicts| ==> verdicts[i]) ==>
      Validate(q, verdicts).score == Some(100)
    ensures (forall i :: 0 <= i < |verdicts| ==> !verdicts[i]) ==> Validate(q, verdicts).score == Some(0)
  {
    var n := |verdicts|;
    var v := Validate(q, verdicts);
    assert v.score == Some(RoundDiv(100 * MetCount(v.criteria), n));
    if Distinct(q.criteria) && forall i :: 0 <= i < n ==> verdicts[i] {
      MetCountDistinct(q.criteria, verdicts);
      assert 100 * MetCount(v.criteria) == 100 * n;
      RoundDivExact(100, n);
    } else if forall i :: 0 <= i < n ==> !verdicts[i] {
      NoneMet(q.criteria, verdicts);
      assert 100 * MetCount(v.criteria) == 0;
      RoundDivAtMost(0, n, 0);
    }
  }

  /** With every verdict false no stored verdict is true. */
  lemma NoneMet(names: seq<string>, verdicts: seq<bool>)
    requires |verdicts| == |names|
    requires forall i :: 0 <= i < |verdicts| ==> !verdicts[i]
    ensures MetCount(Recorded(names, verdicts)) == 0
  {
    var m := Recorded(names, verdicts);
    forall c | c in m
      ensures !m[c]
    {
      var i := LastIndex(names, c);
      RecordedLastWins(names, verdicts, i);
    }
    assert MetNames(m) == {};
  }

  /** The last position at which `c` is listed. */
  function LastIndex(names: seq<string>, c: string): (i: nat)
    requires c in names
    ensures i < |names| && names[i] == c
    ensures forall j :: i < j < |names| ==> names[j] != c
    decreases |names|
  {
    if names[|names| - 1] == c then |names| - 1
    else
      assert c in names[..|names| - 1] by {
        var j :| 0 <= j < |names| && names[j] == c;
        assert names[..|names| - 1][j] == c;
      }
      LastIndex(names[..|names| - 1], c)
  }

  /** Meeting more criteria never lowers the score, so never turns a pass into
      a failure. */
  lemma ValidateMonotone(q: Quest, verdicts: seq<bool>, better: seq<bool>)
    requires |verdicts| == |better| == |q.criteria| > 0
    requires forall i :: 0 <= i < |verdicts| ==> verdicts[i] ==> better[i]
    ensures Validate(q, verdicts).score.value <= Validate(q, better).score.value
    ensures Validate(q, verdicts).overall ==> Validate(q, better).overall
  {
    var a, b := Recorded(q.criteria, verdicts), Recorded(q.criteria, better);
    forall c | c in MetNames(a)
      ensures c in MetNames(b)
    {
      var i := LastIndex(q.criteria, c);
      RecordedLastWins(q.criteria, verdicts, i);
      RecordedLastWins(q.criteria, better, i);
    }
    SubsetCard(MetNames(a), MetNames(b));
    RoundDivMonotone(100 * MetCount(a), 100 * MetCount(b), |verdicts|);
  }

  lemma {:induction false} SubsetCard<T>(a: set<T>, b: set<T>)
    requires a <= b
    ensures |a| <= |b|
    decreases a
  {
    if a != {} {
      var x :| x in a;
      SubsetCard(a - {x}, b - {x});
    }
  }

  lemma {:induction false} CountTrueMonotone(a: seq<bool>, b: seq<bool>)
    requires |a| == |b|
    requires forall i :: 0 <= i < |a| ==> a[i] ==> b[i]
    ensures CountTrue(a) <= CountTrue(b)
    decreases |a|
  {
    if |a| > 0 {
      CountTrueMonotone(a[..|a| - 1], b[..|b| - 1]);
    }
  }
}
