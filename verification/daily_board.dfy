/** The daily quest board of latest/scr/components/DailyQuestPage.tsx: quests
    drawn without replacement from a pool per difficulty, progress clamped to
    the target, and rewards credited once, when a quest becomes complete. */
module DailyBoard {
  import opened Common
  import opened Text

  datatype Difficulty = Easy | Medium | Hard
  datatype QuestKind = Reps | Time | Endurance

  /** `reward`; `coins` is optional in the quest type. */
  datatype Reward = Reward(xp: int, coins: Option<int>)

  /** One entry of a difficulty's pool. */
  datatype Template = Template(title: string, kind: QuestKind, target: int, reward: Reward)

  /** A quest on the board. */
  datatype DailyQuest = DailyQuest(
    id: string,
    title: string,
    difficulty: Difficulty,
    kind: QuestKind,
    target: int,
    progress: int,
    reward: Reward,
    completed: bool)

  /** The page state the handlers change: the quests and the running totals. */
  datatype Board = Board(quests: seq<DailyQuest>, totalXP: int, totalCoins: int)

  function Pool(d: Difficulty): (p: seq<Template>)
    ensures |p| == match d case Easy => 4 case Medium => 5 case Hard => 6
  {
    match d
    case Easy => [
      Template("Chart Analysis", Reps, 3, Reward(50, Some(25))),
      Template("Seasonal Study", Time, 300, Reward(75, Some(30))),
      Template("Market Structure", Reps, 2, Reward(60, Some(35))),
      Template("Risk Calculation", Reps, 3, Reward(45, Some(20)))]
    case Medium => [
      Template("FVG Identification", Reps, 5, Reward(100, Some(50))),
      Template("Liquidity Analysis", Time, 900, Reward(125, Some(60))),
      Template("Pattern Recognition", Reps, 4, Reward(110, Some(55))),
      Template("Backtest Review", Reps, 3, Reward(150, Some(75))),
      Template("Psychology Journal", Time, 1200, Reward(90, Some(45)))]
    case Hard => [
      Template("Multi-Timeframe Analysis", Endurance, 18, Reward(250, Some(125))),
      Template("Advanced Backtesting", Reps, 5, Reward(300, Some(150))),
      Template("ICT Mastery Session", Time, 2700, Reward(200, Some(100))),
      Template("Strategy Development", Reps, 2, Reward(350, Some(175))),
      Template("Market Correlation Study", Endurance, 15, Reward(275, Some(140))),
      Template("Psychology Deep Dive", Time, 1800, Reward(180, Some(90)))]
  }

  /** The range `questCount` draws from: 2-3, 4-5 and 6-8 quests. */
  predicate CountInRange(d: Difficulty, count: nat) {
    match d
    case Easy => 2 <= count <= 3
    case Medium => 4 <= count <= 5
    case Hard => 6 <= count <= 8
  }

  /** Every template of a pool is a different quest. */
  lemma PoolDistinct(d: Difficulty)
    ensures Distinct(Pool(d))
  {
  }

  /** `available.splice(i, 1)`: the list without its `i`-th entry. */
  function RemoveAt<T>(s: seq<T>, i: nat): (r: seq<T>)
    requires i < |s|
    ensures |r| == |s| - 1
    ensures forall k :: 0 <= k < |r| ==> r[k] == if k < i then s[k] else s[k + 1]
  {
    s[..i] + s[i + 1..]
  }

  /** Splicing out an entry removes exactly one copy of it. */
  lemma RemoveAtMultiset<T>(s: seq<T>, i: nat)
    requires i < |s|
    ensures multiset(RemoveAt(s, i)) + multiset{s[i]} == multiset(s)
  {
    assert s == s[..i] + [s[i]] + s[i + 1..];
  }

  /** Random indices the loop can draw: the `i`-th draw indexes a list that
      has already lost `i` entries. */
  predicate ValidPicks(picks: seq<nat>, available: nat, count: nat) {
    && |picks| >= Min(count, available)
    && forall i :: 0 <= i < Min(count, available) ==> picks[i] < available - i
  }

  /** After one draw the remaining indices fit the shortened list. */
  lemma PicksStep(picks: seq<nat>, available: nat, count: nat)
    requires ValidPicks(picks, available, count)
    requires count > 0 && available > 0
    ensures ValidPicks(picks[1..], available - 1, count - 1)
  {
    forall k | 0 <= k < Min(count - 1, available - 1)
      ensures picks[1..][k] < available - 1 - k
    {
      assert picks[k + 1] < available - (k + 1);
    }
  }

  /** The templates the loop takes: draw `picks[0]` from the available list,
      splice it out, and go on until `count` are taken or none is left. */
  function Select<T>(available: seq<T>, picks: seq<nat>, count: nat): (r: seq<T>)
    requires ValidPicks(picks, |available|, count)
    ensures |r| == Min(count, |available|)
    decreases count
  {
    if count == 0 || |available| == 0 then []
    else
      var taken := available[picks[0]];
      var rest := RemoveAt(available, picks[0]);
      PicksStep(picks, |available|, count);
      [taken] + Select(rest, picks[1..], count - 1)
  }

  /** Every template is drawn at most as often as it occurs in the pool. */
  lemma {:induction false} SelectSubMultiset<T>(available: seq<T>, picks: seq<nat>, count: nat)
    requires ValidPicks(picks, |available|, count)
    ensures multiset(Select(available, picks, count)) <= multiset(available)
    decreases count
  {
    if count > 0 && |available| > 0 {
      PicksStep(picks, |available|, count);
      SelectSubMultiset(RemoveAt(available, picks[0]), picks[1..], count - 1);
      DrawKeepsSub(available, picks, count);
    } else {
      assert Select(available, picks, count) == [];
    }
  }

  /** One draw keeps the selection inside the pool if the later draws stay
      inside what is left. */
  lemma DrawKeepsSub<T>(available: seq<T>, picks: seq<nat>, count: nat)
    requires count > 0 && |available| > 0
    requires ValidPicks(picks, |available|, count)
    requires ValidPicks(picks[1..], |available| - 1, count - 1)
    requires multiset(Select(RemoveAt(available, picks[0]), picks[1..], count - 1))
          <= multiset(RemoveAt(available, picks[0]))
    ensures multiset(Select(available, picks, count)) <= multiset(available)
  {
    var x := available[picks[0]];
    var rest := RemoveAt(available, picks[0]);
    var tail := Select(rest, picks[1..], count - 1);
    SelectStep(available, picks, count);
    RemoveAtMultiset(available, picks[0]);
    assert multiset([x] + tail) == multiset{x} + multiset(tail);
    AddOneKeepsSub(multiset(tail), multiset(rest), multiset{x});
  }

  lemma AddOneKeepsSub<T>(a: multiset<T>, b: multiset<T>, c: multiset<T>)
    requires a <= b
    ensures c + a <= b + c
  {
  }

  /** Drawing without replacement from a list of distinct entries never takes
      one twice. */
  lemma SelectDistinct<T>(available: seq<T>, picks: seq<nat>, count: nat)
    requires ValidPicks(picks, |available|, count)
    requires Distinct(available)
    ensures Distinct(Select(available, picks, count))
  {
    var r := Select(available, picks, count);
    SelectSubMultiset(available, picks, count);
    forall i, j | 0 <= i < j < |r|
      ensures r[i] != r[j]
    {
      DistinctMultiplicity(available, r[i]);
      assert multiset(r)[r[i]] <= multiset(available)[r[i]];
      CountTwice(r, i, j);
    }
  }

  lemma DistinctMultiplicity<T>(s: seq<T>, x: T)
    requires Distinct(s)
    ensures multiset(s)[x] <= 1
    decreases |s|
  {
    if |s| > 0 {
      assert s == [s[0]] + s[1..];
      DistinctMultiplicity(s[1..], x);
      if s[0] == x {
        assert x !in s[1..];
      }
    }
  }

  lemma CountTwice<T>(s: seq<T>, i: nat, j: nat)
    requires i < j < |s|
    ensures s[i] == s[j] ==> multiset(s)[s[i]] >= 2
  {
    if s[i] == s[j] {
      assert s == s[..i] + [s[i]] + s[i + 1..j] + [s[j]] + s[j + 1..];
    }
  }

  /** The Hard pool has six quests and draws six to eight, so every Hard board
      holds the whole pool. */
  lemma HardTakesWholePool(picks: seq<nat>, count: nat)
    requires CountInRange(Hard, count)
    requires ValidPicks(picks, |Pool(Hard)|, count)
    ensures multiset(Select(Pool(Hard), picks, count)) == multiset(Pool(Hard))
  {
    var r := Select(Pool(Hard), picks, count);
    assert |r| == |Pool(Hard)|;
    SelectSubMultiset(Pool(Hard), picks, count);
    SubMultisetSameSize(r, Pool(Hard));
  }

  lemma SubMultisetSameSize<T>(a: seq<T>, b: seq<T>)
    requires multiset(a) <= multiset(b) && |a| == |b|
    ensures multiset(a) == multiset(b)
  {
    var d := multiset(b) - multiset(a);
    assert multiset(b) == multiset(a) + d;
    assert |multiset(b)| == |multiset(a)| + |d|;
  }

  /** `quest-${Date.now()}-${i}`, with the clock reading `stamp`. */
  function QuestId(stamp: nat, i: nat): string {
    "quest-" + NatToString(stamp) + "-" + NatToString(i)
  }

  /** Ids of different positions differ, whatever the clock read. */
  lemma QuestIdInjective(s1: nat, i1: nat, s2: nat, i2: nat)
    requires QuestId(s1, i1) == QuestId(s2, i2)
    ensures s1 == s2 && i1 == i2
  {
    var a := NatToString(s1) + "-" + NatToString(i1);
    var b := NatToString(s2) + "-" + NatToString(i2);
    assert QuestId(s1, i1) == "quest-" + a;
    assert QuestId(s2, i2) == "quest-" + b;
    assert a == QuestId(s1, i1)[6..] == b;
    assert !IsDigit('-');
    SplitAtSeparator(NatToString(s1), NatToString(i1), NatToString(s2), NatToString(i2), '-');
    NatToStringInjective(s1, s2);
    NatToStringInjective(i1, i2);
  }

  /** The board entry made from template `t` in position `i`. */
  function NewQuest(t: Template, d: Difficulty, stamp: nat, i: nat): (q: DailyQuest)
    ensures q.progress == 0 && !q.completed
    ensures q.id == QuestId(stamp, i)
    ensures q.title == t.title && q.kind == t.kind && q.target == t.target && q.reward == t.reward
    ensures q.difficulty == d
  {
    DailyQuest(QuestId(stamp, i), t.title, d, t.kind, t.target, 0, t.reward, false)
  }

  /** `generateDailyQuests(difficulty)` with the drawn count, the drawn indices
      and the clock reading of each iteration as inputs: one fresh quest per
      template drawn, in the order drawn. */
  function Generate(d: Difficulty, count: nat, picks: seq<nat>, stamps: seq<nat>): (qs: seq<DailyQuest>)
    requires ValidPicks(picks, |Pool(d)|, count)
    requires |stamps| >= Min(count, |Pool(d)|)
    ensures |qs| == Min(count, |Pool(d)|)
    ensures forall k :: 0 <= k < |qs| ==> qs[k].progress == 0 && !qs[k].completed && qs[k].difficulty == d
  {
    var sel := Select(Pool(d), picks, count);
    seq(|sel|, k requires 0 <= k < |sel| => NewQuest(sel[k], d, stamps[k], k))
  }

  /** One draw of the loop: the first template taken, then the draws from the
      spliced list. */
  lemma SelectStep<T>(available: seq<T>, picks: seq<nat>, count: nat)
    requires ValidPicks(picks, |available|, count)
    requires count > 0 && |available| > 0
    ensures ValidPicks(picks[1..], |available| - 1, count - 1)
    ensures Select(available, picks, count)
         == [available[picks[0]]] + Select(RemoveAt(available, picks[0]), picks[1..], count - 1)
  {
    PicksStep(picks, |available|, count);
  }

  /** The loop invariant on the templates drawn survives one more draw. */
  lemma DrawKeepsSelection<T>(available: seq<T>, picks: seq<nat>, count: nat,
                              left: seq<T>, rest: seq<nat>, taken: seq<T>, i: nat)
    requires i < count && |left| > 0
    requires ValidPicks(picks, |available|, count)
    requires ValidPicks(rest, |left|, count - i)
    requires taken + Select(left, rest, count - i) == Select(available, picks, count)
    ensures ValidPicks(rest[1..], |left| - 1, count - (i + 1))
    ensures (taken + [left[rest[0]]]) + Select(RemoveAt(left, rest[0]), rest[1..], count - (i + 1))
         == Select(available, picks, count)
  {
    SelectStep(left, rest, count - i);
    assert count - i - 1 == count - (i + 1);
  }

  /** The loop invariant on the quests made survives one more push. */
  lemma PushKeepsEntries(qs: seq<DailyQuest>, taken: seq<Template>, template: Template, d: Difficulty, stamps: seq<nat>, i: nat)
    requires |qs| == i && |taken| == i && i < |stamps|
    requires forall k :: 0 <= k < i ==> qs[k] == NewQuest(taken[k], d, stamps[k], k)
    ensures forall k :: 0 <= k < i + 1 ==>
      (qs + [NewQuest(template, d, stamps[i], i)])[k] == NewQuest((taken + [template])[k], d, stamps[k], k)
  {
  }

  /** The source's loop, over a copy `available` of the pool: it splices out
      one drawn template per iteration and pushes a fresh quest for it, making
      exactly the quests `Generate` describes. */
  method GenerateLoop(d: Difficulty, available: seq<Template>, count: nat, picks: seq<nat>, stamps: seq<nat>)
    returns (qs: seq<DailyQuest>)
    requires ValidPicks(picks, |available|, count)
    requires |stamps| >= Min(count, |available|)
    ensures |qs| == Min(count, |available|)
    ensures forall k :: 0 <= k < |qs| ==>
      qs[k] == NewQuest(Select(available, picks, count)[k], d, stamps[k], k)
  {
    var left := available;
    var rest := picks;
    ghost var taken: seq<Template> := [];
    qs := [];
    var i := 0;
    while i < count && |left| > 0
      invariant |left| + i == |available| && i <= count
      invariant ValidPicks(rest, |left|, count - i)
      invariant |taken| == i && |qs| == i
      invariant taken + Select(left, rest, count - i) == Select(available, picks, count)
      invariant forall k :: 0 <= k < i ==> qs[k] == NewQuest(taken[k], d, stamps[k], k)
      decreases count - i
    {
      var template := left[rest[0]];
      var entry := NewQuest(template, d, stamps[i], i);
      DrawKeepsSelection(available, picks, count, left, rest, taken, i);
      PushKeepsEntries(qs, taken, template, d, stamps, i);
      left := RemoveAt(left, rest[0]);
      qs := qs + [entry];
      taken := taken + [template];
      rest := rest[1..];
      i := i + 1;
    }
    assert Select(left, rest, count - i) == [];
    assert taken == Select(available, picks, count);
  }

  /** The loop over the pool itself makes the generated board. */
  method GenerateBoard(d: Difficulty, count: nat, picks: seq<nat>, stamps: seq<nat>) returns (qs: seq<DailyQuest>)
    requires ValidPicks(picks, |Pool(d)|, count)
    requires |stamps| >= Min(count, |Pool(d)|)
    ensures qs == Generate(d, count, picks, stamps)
  {
    qs := GenerateLoop(d, Pool(d), count, picks, stamps);
  }

  /** Generated quests have pairwise different ids. */
  lemma GenerateIdsDistinct(d: Difficulty, count: nat, picks: seq<nat>, stamps: seq<nat>)
    requires ValidPicks(picks, |Pool(d)|, count)
    requires |stamps| >= Min(count, |Pool(d)|)
    ensures forall i, j :: 0 <= i < j < |Generate(d, count, picks, stamps)| ==>
      Generate(d, count, picks, stamps)[i].id != Generate(d, count, picks, stamps)[j].id
  {
    var qs := Generate(d, count, picks, stamps);
    forall i, j | 0 <= i < j < |qs|
      ensures qs[i].id != qs[j].id
    {
      if qs[i].id == qs[j].id {
        QuestIdInjective(stamps[i], i, stamps[j], j);
      }
    }
  }

  /** The entry after `updateQuestProgress(id, progress)` reached it. */
  function Advance(q: DailyQuest, progress: int): (r: DailyQuest)
    ensures r.progress <= q.target
    ensures r.completed <==> r.progress == q.target
    ensures progress <= q.target ==> r.progress == progress
    ensures r == q.(progress := r.progress, completed := r.completed)
  {
    var p := Min(progress, q.target);
    q.(progress := p, completed := p >= q.target)
  }

  /** XP and coins the update credits for this entry: its reward, on the step
      from not completed to completed, and nothing otherwise. */
  function CreditXp(q: DailyQuest, progress: int): (x: int)
    ensures x != 0 ==> Advance(q, progress).completed && !q.completed && x == q.reward.xp
  {
    if Advance(q, progress).completed && !q.completed then q.reward.xp else 0
  }

  function CreditCoins(q: DailyQuest, progress: int): (c: int)
    ensures c != 0 ==> Advance(q, progress).completed && !q.completed && c == q.reward.coins.GetOr(0)
  {
    if Advance(q, progress).completed && !q.completed then q.reward.coins.GetOr(0) else 0
  }

  /** Credit summed over every entry with the id (ids are unique in practice). */
  function TotalCredit(qs: seq<DailyQuest>, id: string, progress: int, coins: bool): (c: int)
    ensures (forall i :: 0 <= i < |qs| ==> qs[i].id != id) ==> c == 0
    decreases |qs|
  {
    if |qs| == 0 then 0
    else
      var last := qs[|qs| - 1];
      var here := if last.id != id then 0
                  else if coins then CreditCoins(last, progress) else CreditXp(last, progress);
      TotalCredit(qs[..|qs| - 1], id, progress, coins) + here
  }

  /** `updateQuestProgress(questId, progress)`. */
  function UpdateQuestProgress(b: Board, id: string, progress: int): (r: Board)
    ensures |r.quests| == |b.quests|
    ensures forall i :: 0 <= i < |b.quests| && b.quests[i].id != id ==> r.quests[i] == b.quests[i]
    ensures forall i :: 0 <= i < |b.quests| && b.quests[i].id == id ==> r.quests[i] == Advance(b.quests[i], progress)
    ensures r.totalXP == b.totalXP + TotalCredit(b.quests, id, progress, false)
    ensures r.totalCoins == b.totalCoins + TotalCredit(b.quests, id, progress, true)
  {
    var qs := seq(|b.quests|, i requires 0 <= i < |b.quests| =>
                if b.quests[i].id == id then Advance(b.quests[i], progress) else b.quests[i]);
    Board(qs, b.totalXP + TotalCredit(b.quests, id, progress, false),
          b.totalCoins + TotalCredit(b.quests, id, progress, true))
  }

  predicate UniqueIds(qs: seq<DailyQuest>) {
    forall i, j :: 0 <= i < j < |qs| ==> qs[i].id != qs[j].id
  }

  /** With unique ids the credit is that of the one matching entry. */
  lemma {:induction false} TotalCreditSingle(qs: seq<DailyQuest>, k: nat, progress: int, coins: bool)
    requires UniqueIds(qs) && k < |qs|
    ensures TotalCredit(qs, qs[k].id, progress, coins) ==
      if coins then CreditCoins(qs[k], progress) else CreditXp(qs[k], progress)
    decreases |qs|
  {
    var n := |qs|;
    var init := qs[..n - 1];
    assert UniqueIds(init);
    if k == n - 1 {
      assert forall i :: 0 <= i < |init| ==> init[i].id != qs[k].id;
    } else {
      assert init[k] == qs[k];
      TotalCreditSingle(init, k, progress, coins);
    }
  }

  /** On a board with unique ids, XP and coins are credited exactly when the
      updated quest goes from not completed to completed, by its reward, with
      missing coins counting as none. */
  lemma CreditOnlyOnCompletion(b: Board, k: nat, progress: int)
    requires UniqueIds(b.quests) && k < |b.quests|
    ensures var r := UpdateQuestProgress(b, b.quests[k].id, progress);
      && (r.quests[k].completed && !b.quests[k].completed ==>
            r.totalXP == b.totalXP + b.quests[k].reward.xp
            && r.totalCoins == b.totalCoins + b.quests[k].reward.coins.GetOr(0))
      && (!(r.quests[k].completed && !b.quests[k].completed) ==>
            r.totalXP == b.totalXP && r.totalCoins == b.totalCoins)
  {
    TotalCreditSingle(b.quests, k, progress, false);
    TotalCreditSingle(b.quests, k, progress, true);
  }

  /** Repeating an update changes nothing and credits nothing more. */
  lemma UpdateIdempotent(b: Board, k: nat, progress: int)
    requires UniqueIds(b.quests) && k < |b.quests|
    ensures var once := UpdateQuestProgress(b, b.quests[k].id, progress);
      var twice := UpdateQuestProgress(once, b.quests[k].id, progress);
      twice == once
  {
    var id := b.quests[k].id;
    var once := UpdateQuestProgress(b, id, progress);
    assert once.quests[k].id == id;
    assert UniqueIds(once.quests) by {
      forall i, j | 0 <= i < j < |once.quests|
        ensures once.quests[i].id != once.quests[j].id
      {
        assert once.quests[i].id == b.quests[i].id && once.quests[j].id == b.quests[j].id;
      }
    }
    CreditOnlyOnCompletion(once, k, progress);
    var twice := UpdateQuestProgress(once, id, progress);
    assert twice.quests == once.quests;
  }

  /** A completed quest set back below its target is open again, so a later
      update that reaches the target credits its reward a second time. */
  lemma LoweringReopens(b: Board, k: nat, low: int)
    requires UniqueIds(b.quests) && k < |b.quests|
    requires b.quests[k].completed && low < b.quests[k].target
    ensures var r := UpdateQuestProgress(b, b.quests[k].id, low);
      !r.quests[k].completed
      && UpdateQuestProgress(r, b.quests[k].id, b.quests[k].target).totalXP
         == r.totalXP + b.quests[k].reward.xp
  {
    var id := b.quests[k].id;
    var r := UpdateQuestProgress(b, id, low);
    assert r.quests[k].id == id;
    assert UniqueIds(r.quests) by {
      forall i, j | 0 <= i < j < |r.quests|
        ensures r.quests[i].id != r.quests[j].id
      {
        assert r.quests[i].id == b.quests[i].id && r.quests[j].id == b.quests[j].id;
      }
    }
    CreditOnlyOnCompletion(r, k, b.quests[k].target);
  }

  /** `formatTime(seconds)`: whole hours and minutes, `"{h}h {m}m"` from an
      hour on and `"{m}m"` below. */
  function FormatDuration(seconds: nat): (s: string)
    ensures |s| >= 2 && s[|s| - 1] == 'm'
    ensures seconds < 3600 ==> s == NatToString(seconds / 60) + "m"
    ensures 'h' in s <==> seconds >= 3600
  {
    var mins := seconds / 60;
    var hrs := mins / 60;
    if hrs > 0 then
      var s := NatToString(hrs) + "h " + NatToString(mins % 60) + "m";
      assert s[|NatToString(hrs)|] == 'h';
      s
    else
      var s := NatToString(mins) + "m";
      assert forall c :: c in s ==> c == 'm' || IsDigit(c);
      s
  }

  /** The text determines the whole minutes: durations that read the same
      differ by less than a minute. */
  lemma FormatDurationMinutes(a: nat, b: nat)
    requires FormatDuration(a) == FormatDuration(b)
    ensures a / 60 == b / 60
  {
    if a >= 3600 && b >= 3600 {
      HoursText(a);
      HoursText(b);
      var u := NatToString(a / 60 % 60);
      var v := NatToString(b / 60 % 60);
      assert !IsDigit('h');
      SplitAtSeparator(NatToString(a / 60 / 60), [' '] + u + ['m'], NatToString(b / 60 / 60), [' '] + v + ['m'], 'h');
      DropFrame(u, v);
      NatToStringInjective(a / 60 / 60, b / 60 / 60);
      NatToStringInjective(a / 60 % 60, b / 60 % 60);
    } else if a < 3600 && b < 3600 {
      assert NatToString(a / 60) + "m" == NatToString(b / 60) + "m";
      DropLast(NatToString(a / 60), NatToString(b / 60));
      NatToStringInjective(a / 60, b / 60);
    }
  }

  /** The shape of the text from an hour on. */
  lemma HoursText(seconds: nat)
    requires seconds >= 3600
    ensures FormatDuration(seconds)
      == NatToString(seconds / 60 / 60) + ['h'] + ([' '] + NatToString(seconds / 60 % 60) + ['m'])
  {
  }

  lemma DropFrame(u: string, v: string)
    requires [' '] + u + ['m'] == [' '] + v + ['m']
    ensures u == v
  {
    assert u == ([' '] + u + ['m'])[1..|u| + 1];
    assert v == ([' '] + v + ['m'])[1..|v| + 1];
  }

  lemma DropLast(x: string, y: string)
    requires x + "m" == y + "m"
    ensures x == y
  {
    assert x == (x + "m")[..|x|];
    assert y == (y + "m")[..|y|];
  }
}
