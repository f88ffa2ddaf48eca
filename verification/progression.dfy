/** The progression ledger of latest/app.tsx: level and XP, the cascading
    level-up of `addXP`, and the rank and tier derived from the level. */
module Progression {
  import opened Common

  const MaxLevel: int := 114
  const Ranks: seq<string> := ["E-RANK", "D-RANK", "C-RANK", "B-RANK", "A-RANK", "S-RANK"]
  /** `Math.floor(MAX_LEVEL / RANKS.length)`, which is 19. */
  const LevelsPerRank: int := MaxLevel / |Ranks|

  /** The learner's level and the XP held towards the next level. */
  datatype Ledger = Ledger(level: int, xp: int)

  const StartLedger: Ledger := Ledger(1, 0)

  /** XP needed to leave level `lv`. */
  function XpToNextLevel(lv: int): int {
    100 + (lv - 1) * 50
  }

  /** A ledger that no further level-up would change: a level in range and, below
      the cap, less XP than the current level needs. At the cap any amount of XP
      is held. */
  predicate Settled(s: Ledger) {
    && 1 <= s.level <= MaxLevel
    && 0 <= s.xp
    && (s.level < MaxLevel ==> s.xp < XpToNextLevel(s.level))
  }

  /** XP spent to climb from level 1 to `lv`. */
  function Cumulative(lv: int): (c: int)
    requires lv >= 1
    ensures c >= 0
    decreases lv
  {
    if lv == 1 then 0 else Cumulative(lv - 1) + XpToNextLevel(lv - 1)
  }

  /** All XP ever earned, whether spent on levels or still held. */
  function TotalXp(s: Ledger): int
    requires s.level >= 1
  {
    Cumulative(s.level) + s.xp
  }

  /** The `while (newXP >= needed && newLevel < MAX_LEVEL)` loop of `addXP`. */
  function LevelUps(level: int, xp: int): Ledger
    decreases if level < MaxLevel then MaxLevel - level else 0
  {
    if xp >= XpToNextLevel(level) && level < MaxLevel then
      LevelUps(level + 1, xp - XpToNextLevel(level))
    else
      Ledger(level, xp)
  }

  /** Where the loop stops: it never lowers the level or passes the cap from
      below, it leaves less XP than the next level needs unless the cap is
      reached, and from the cap on it changes nothing. */
  lemma {:induction false} LevelUpsBounds(level: int, xp: int)
    ensures LevelUps(level, xp).level >= level
    ensures level <= MaxLevel ==> LevelUps(level, xp).level <= MaxLevel
    ensures LevelUps(level, xp).level < MaxLevel ==> LevelUps(level, xp).xp < XpToNextLevel(LevelUps(level, xp).level)
    ensures xp >= 0 ==> LevelUps(level, xp).xp >= 0
    ensures level >= MaxLevel ==> LevelUps(level, xp) == Ledger(level, xp)
    decreases if level < MaxLevel then MaxLevel - level else 0
  {
    if xp >= XpToNextLevel(level) && level < MaxLevel {
      LevelUpsStep(level, xp);
      LevelUpsBounds(level + 1, xp - XpToNextLevel(level));
    } else {
      assert LevelUps(level, xp) == Ledger(level, xp);
    }
  }

  /** `addXP(amount)`: credit the amount, then level up as far as it reaches. */
  function AddXP(s: Ledger, amount: int): (r: Ledger)
    ensures r.level >= s.level
    ensures Settled(s) && amount >= 0 ==> Settled(r)
    ensures s.level == MaxLevel ==> r == Ledger(MaxLevel, s.xp + amount)
  {
    LevelUpsBounds(s.level, s.xp + amount);
    LevelUps(s.level, s.xp + amount)
  }

  /** The source's loop, step for step; it computes the same ledger. */
  method AddXPLoop(s: Ledger, amount: int) returns (r: Ledger)
    ensures r == AddXP(s, amount)
  {
    var newXp := s.xp + amount;
    var newLevel := s.level;
    var needed := XpToNextLevel(newLevel);
    while newXp >= needed && newLevel < MaxLevel
      invariant needed == XpToNextLevel(newLevel)
      invariant LevelUps(newLevel, newXp) == LevelUps(s.level, s.xp + amount)
      decreases MaxLevel - newLevel
    {
      newXp := newXp - needed;
      newLevel := newLevel + 1;
      needed := XpToNextLevel(newLevel);
    }
    r := Ledger(newLevel, newXp);
  }

  lemma {:induction false} LevelUpsCompose(level: int, xp: int, b: int)
    requires b >= 0
    ensures LevelUps(LevelUps(level, xp).level, LevelUps(level, xp).xp + b) == LevelUps(level, xp + b)
    decreases if level < MaxLevel then MaxLevel - level else 0
  {
    var need := XpToNextLevel(level);
    if xp >= need && level < MaxLevel {
      LevelUpsStep(level, xp);
      LevelUpsStep(level, xp + b);
      assert xp + b - need == (xp - need) + b;
      LevelUpsCompose(level + 1, xp - need, b);
    }
  }

  /** One pass of the level-up loop. */
  lemma LevelUpsStep(level: int, xp: int)
    requires xp >= XpToNextLevel(level) && level < MaxLevel
    ensures LevelUps(level, xp) == LevelUps(level + 1, xp - XpToNextLevel(level))
  {
  }

  /** Two awards in a row land where their sum lands in one award. */
  lemma AddXPAdditive(s: Ledger, a: int, b: int)
    requires b >= 0
    ensures AddXP(AddXP(s, a), b) == AddXP(s, a + b)
  {
    LevelUpsCompose(s.level, s.xp + a, b);
    assert s.xp + a + b == s.xp + (a + b);
  }

  /** Levelling up only moves XP from the held balance into spent levels. */
  lemma {:induction false} LevelUpsConserves(level: int, xp: int)
    requires level >= 1
    ensures LevelUps(level, xp).level >= level
    ensures Cumulative(LevelUps(level, xp).level) + LevelUps(level, xp).xp == Cumulative(level) + xp
    decreases if level < MaxLevel then MaxLevel - level else 0
  {
    var need := XpToNextLevel(level);
    if xp >= need && level < MaxLevel {
      LevelUpsStep(level, xp);
      LevelUpsConserves(level + 1, xp - need);
      LevelUpsBounds(level, xp);
      assert Cumulative(level + 1) == Cumulative(level) + need;
    } else {
      assert LevelUps(level, xp) == Ledger(level, xp);
    }
  }

  /** No XP is lost or created by an award: the total grows by exactly the amount. */
  lemma AddXPConserves(s: Ledger, amount: int)
    requires s.level >= 1
    ensures TotalXp(AddXP(s, amount)) == TotalXp(s) + amount
  {
    var r := AddXP(s, amount);
    assert r == LevelUps(s.level, s.xp + amount);
    LevelUpsConserves(s.level, s.xp + amount);
    assert TotalXp(r) == Cumulative(r.level) + r.xp;
  }

  /** An award from a settled ledger yields the one settled ledger whose total is
      the old total plus the amount. */
  lemma AddXPCharacterised(s: Ledger, amount: int, t: Ledger)
    requires Settled(s) && amount >= 0
    requires Settled(t) && TotalXp(t) == TotalXp(s) + amount
    ensures AddXP(s, amount) == t
  {
    AddXPConserves(s, amount);
    SettledUnique(AddXP(s, amount), t);
  }

  lemma {:induction false} CumulativeStrictlyIncreasing(lo: int, hi: int)
    requires 1 <= lo < hi
    ensures Cumulative(lo) + XpToNextLevel(lo) <= Cumulative(hi)
    decreases hi - lo
  {
    if hi > lo + 1 {
      CumulativeStrictlyIncreasing(lo, hi - 1);
    }
  }

  /** A settled ledger is determined by the total XP it holds; hence the result
      of an award depends only on the total it brings the learner to. */
  lemma SettledUnique(s: Ledger, t: Ledger)
    requires Settled(s) && Settled(t)
    requires TotalXp(s) == TotalXp(t)
    ensures s == t
  {
    if s.level < t.level {
      CumulativeStrictlyIncreasing(s.level, t.level);
    } else if t.level < s.level {
      CumulativeStrictlyIncreasing(t.level, s.level);
    }
  }

  /** Closed form of the cumulative requirement; reaching the cap costs 327700 XP. */
  lemma {:induction false} CumulativeClosedForm(lv: int)
    requires lv >= 1
    ensures Cumulative(lv) == 25 * (lv - 1) * (lv + 2)
    decreases lv
  {
    if lv > 1 {
      CumulativeClosedForm(lv - 1);
      assert 25 * (lv - 2) * (lv + 1) + 100 + (lv - 2) * 50 == 25 * (lv - 1) * (lv + 2);
    }
  }

  /** `getCurrentRank`'s index, `min(5, floor((level - 1) / 19))`. */
  function RankIndex(level: int): int {
    Min(|Ranks| - 1, (level - 1) / LevelsPerRank)
  }

  /** For every level in range the clamp never fires and the index selects the
      band of 19 levels that holds the level. */
  lemma RankIndexBands(level: int)
    requires 1 <= level <= MaxLevel
    ensures 0 <= RankIndex(level) < |Ranks|
    ensures RankIndex(level) == (level - 1) / LevelsPerRank
    ensures LevelsPerRank * RankIndex(level) + 1 <= level <= LevelsPerRank * (RankIndex(level) + 1)
  {
  }

  lemma RankIndexMonotone(a: int, b: int)
    requires a <= b
    ensures RankIndex(a) <= RankIndex(b)
  {
  }

  function CurrentRank(level: int): (r: string)
    requires 1 <= level <= MaxLevel
    ensures r in Ranks
  {
    RankIndexBands(level);
    Ranks[RankIndex(level)]
  }

  lemma RankAtBounds()
    ensures CurrentRank(1) == "E-RANK"
    ensures CurrentRank(MaxLevel) == "S-RANK"
  {
  }

  datatype Tier = Beginner | Intermediate | Advanced

  /** `getLevelTier`. */
  function LevelTier(level: int): Tier {
    if level <= 20 then Beginner
    else if level <= 60 then Intermediate
    else Advanced
  }

  function TierOrdinal(t: Tier): nat {
    match t
    case Beginner => 0
    case Intermediate => 1
    case Advanced => 2
  }

  /** A higher level never gets a lower tier. */
  lemma LevelTierMonotone(a: int, b: int)
    requires a <= b
    ensures TierOrdinal(LevelTier(a)) <= TierOrdinal(LevelTier(b))
  {
  }
}
