/** The small pure helpers of latest/app.tsx's dashboard: the pomodoro timer's
    one-second tick, the `mm:ss` clock text, and the market-bias label. */
module Widgets {
  import opened Common
  import opened Text

  datatype Mode = Work | Break

  /** `pomoTimer`. */
  datatype Timer = Timer(active: bool, remaining: int, mode: Mode)

  const WorkSeconds: int := 1500
  const BreakSeconds: int := 300
  /** XP awarded when a work period runs out. */
  const WorkReward: nat := 25

  /** The timer as the Stop button leaves it, and as it starts out. */
  const IdleTimer: Timer := Timer(false, WorkSeconds, Work)

  /** The Start button. */
  function StartPomodoro(): (t: Timer)
    ensures t.active && t.mode == Work && t.remaining == WorkSeconds
  {
    Timer(true, WorkSeconds, Work)
  }

  /** The Stop button. */
  function StopPomodoro(): (t: Timer)
    ensures !t.active && t.mode == Work && t.remaining == WorkSeconds
  {
    IdleTimer
  }

  /** The timer states the buttons and the tick produce: a period has between
      one second and its full length left, and only work periods are idle. */
  predicate Valid(t: Timer) {
    && 1 <= t.remaining <= (if t.mode == Work then WorkSeconds else BreakSeconds)
    && (t.mode == Break ==> t.active)
  }

  /** The timer after one tick and the XP that tick awarded. */
  datatype Ticked = Ticked(timer: Timer, xp: nat)

  /** One second of the interval, which runs only while the timer is active
      with time left. The last second of a work period awards 25 XP and starts
      a break; the last second of a break stops the timer. */
  function Tick(t: Timer): (r: Ticked)
    ensures Valid(t) ==> Valid(r.timer)
    ensures r.xp > 0 <==> t.active && t.mode == Work && 0 < t.remaining <= 1
    ensures r.xp > 0 ==> r.xp == WorkReward && r.timer == Timer(true, BreakSeconds, Break)
    ensures t.active && t.remaining > 1 ==> r == Ticked(t.(remaining := t.remaining - 1), 0)
    ensures !t.active || t.remaining <= 0 ==> r == Ticked(t, 0)
  {
    if !t.active || t.remaining <= 0 then Ticked(t, 0)
    else if t.remaining <= 1 then
      if t.mode == Work then Ticked(Timer(true, BreakSeconds, Break), WorkReward)
      else Ticked(IdleTimer, 0)
    else
      Ticked(t.(remaining := t.remaining - 1), 0)
  }

  /** `n` ticks in a row, with the XP they awarded in total. */
  function RunTicks(t: Timer, n: nat): (r: Ticked)
    ensures Valid(t) ==> Valid(r.timer)
    decreases n
  {
    if n == 0 then Ticked(t, 0)
    else
      var first := Tick(t);
      var rest := RunTicks(first.timer, n - 1);
      Ticked(rest.timer, first.xp + rest.xp)
  }

  /** An idle timer does not move. */
  lemma {:induction false} IdleStaysIdle(n: nat)
    ensures RunTicks(IdleTimer, n) == Ticked(IdleTimer, 0)
    decreases n
  {
    if n > 0 {
      IdleStaysIdle(n - 1);
    }
  }

  /** Before its last second a running period counts down one per tick. */
  lemma {:induction false} CountDown(t: Timer, n: nat)
    requires t.active && t.remaining > n
    ensures RunTicks(t, n) == Ticked(t.(remaining := t.remaining - n), 0)
    decreases n
  {
    if n > 0 {
      var next := t.(remaining := t.remaining - 1);
      assert Tick(t) == Ticked(next, 0);
      CountDown(next, n - 1);
      assert next.(remaining := next.remaining - (n - 1)) == t.(remaining := t.remaining - n);
    }
  }

  /** Ticks compose: `a + b` ticks are `a` ticks followed by `b` ticks. */
  lemma {:induction false} RunTicksSplit(t: Timer, a: nat, b: nat)
    ensures RunTicks(t, a + b).timer == RunTicks(RunTicks(t, a).timer, b).timer
    ensures RunTicks(t, a + b).xp == RunTicks(t, a).xp + RunTicks(RunTicks(t, a).timer, b).xp
    decreases a
  {
    if a > 0 {
      RunTicksSplit(Tick(t).timer, a - 1, b);
      assert a + b - 1 == (a - 1) + b;
    }
  }

  /** A running period ends after as many ticks as it has seconds left. */
  lemma RunOutPeriod(t: Timer)
    requires t.active && t.remaining >= 1
    ensures RunTicks(t, t.remaining) == Tick(t.(remaining := 1))
  {
    var n := t.remaining - 1;
    CountDown(t, n);
    RunTicksSplit(t, n, 1);
    assert t.(remaining := t.remaining - n) == t.(remaining := 1);
  }

  /** A full pomodoro: 1500 seconds of work, 300 of break, then idle again,
      with 25 XP for the work period. */
  lemma FullCycle()
    ensures RunTicks(StartPomodoro(), WorkSeconds + BreakSeconds) == Ticked(IdleTimer, WorkReward)
  {
    var s := StartPomodoro();
    var b := Timer(true, BreakSeconds, Break);
    RunOutPeriod(s);
    RunOutPeriod(b);
    RunTicksSplit(s, WorkSeconds, BreakSeconds);
  }

  /** `formatTime(seconds)`: two-digit minutes and seconds, `mm:ss`. */
  function FormatClock(seconds: nat): (s: string)
    ensures |s| >= 5
    ensures ':' in s
  {
    assert PadTwo(seconds / 60)[0] in PadTwo(seconds / 60);
    PadTwo(seconds / 60) + ":" + PadTwo(seconds % 60)
  }

  /** Different durations show different clock texts: minutes and seconds can
      be read back from the text. */
  lemma FormatClockInjective(a: nat, b: nat)
    requires FormatClock(a) == FormatClock(b)
    ensures a == b
  {
    assert !IsDigit(':');
    SplitAtSeparator(PadTwo(a / 60), PadTwo(a % 60), PadTwo(b / 60), PadTwo(b % 60), ':');
    assert a / 60 == ParseNat(PadTwo(a / 60)) == ParseNat(PadTwo(b / 60)) == b / 60;
    assert a % 60 == ParseNat(PadTwo(a % 60)) == ParseNat(PadTwo(b % 60)) == b % 60;
  }

  /** The clock reads back: the digits before the first colon are the
      minutes and the digits after it are the seconds within the minute. */
  lemma FormatClockReadBack(seconds: nat)
    ensures var s := FormatClock(seconds); var k := FirstNonDigit(s);
      && k < |s| && s[k] == ':'
      && AllDigits(s[..k]) && ParseNat(s[..k]) == seconds / 60
      && AllDigits(s[k + 1..]) && ParseNat(s[k + 1..]) == seconds % 60
  {
    ReadBackAtSeparator(PadTwo(seconds / 60), PadTwo(seconds % 60), ':');
  }

  /** Under an hour the clock reads exactly `mm:ss`: two digits of minutes, a
      colon, two digits of seconds. */
  lemma FormatClockUnderAnHour(seconds: nat)
    requires seconds < 3600
    ensures var s := FormatClock(seconds);
      && |s| == 5 && s[2] == ':'
      && AllDigits(s[..2]) && ParseNat(s[..2]) == seconds / 60
      && AllDigits(s[3..]) && ParseNat(s[3..]) == seconds % 60
  {
    PadTwoSmall(seconds / 60);
    PadTwoSmall(seconds % 60);
    ReadBackAtSeparator(PadTwo(seconds / 60), PadTwo(seconds % 60), ':');
  }

  lemma PadTwoSmall(n: nat)
    requires n < 100
    ensures |PadTwo(n)| == 2
  {
    if n >= 10 {
      NatToStringTwoDigits(n);
    }
  }

  lemma NatToStringTwoDigits(n: nat)
    requires 10 <= n < 100
    ensures |NatToString(n)| == 2
  {
    assert NatToString(n) == NatToString(n / 10) + [DigitChar(n % 10)];
  }

  const NeutralBias: int := 50

  /** `getBiasLabel()` for the slider value `v` (0 short … 100 long). */
  function BiasLabel(v: int): (s: string)
    ensures |s| > 0
    ensures s[0] == 'N' <==> v == NeutralBias
    ensures s[0] == 'L' <==> v > NeutralBias
    ensures s[0] == 'S' <==> v < NeutralBias
  {
    if v == NeutralBias then "Neutral 50"
    else if v > NeutralBias then "Long +" + NatToString(v - NeutralBias)
    else "Short -" + NatToString(NeutralBias - v)
  }

  /** The distance from neutral can be read back from a long or short label. */
  lemma BiasLabelReadBack(v: int)
    requires v != NeutralBias
    ensures var k := if v > NeutralBias then 6 else 7;
      && k <= |BiasLabel(v)|
      && AllDigits(BiasLabel(v)[k..])
      && ParseNat(BiasLabel(v)[k..]) == if v > NeutralBias then v - NeutralBias else NeutralBias - v
  {
    var n: nat := if v > NeutralBias then v - NeutralBias else NeutralBias - v;
    var prefix := if v > NeutralBias then "Long +" else "Short -";
    var d := NatToString(n);
    assert BiasLabel(v) == prefix + d;
    assert (prefix + d)[|prefix|..] == d;
    ParseNatToString(n);
  }

  /** Each slider position has its own label. */
  lemma BiasLabelInjective(a: int, b: int)
    requires BiasLabel(a) == BiasLabel(b)
    ensures a == b
  {
    assert BiasLabel(a)[0] == BiasLabel(b)[0];
    if a > NeutralBias {
      SuffixAfterPrefix("Long +", NatToString(a - NeutralBias), NatToString(b - NeutralBias));
      NatToStringInjective(a - NeutralBias, b - NeutralBias);
    } else if a < NeutralBias {
      SuffixAfterPrefix("Short -", NatToString(NeutralBias - a), NatToString(NeutralBias - b));
      NatToStringInjective(NeutralBias - a, NeutralBias - b);
    }
  }

  lemma SuffixAfterPrefix(p: string, x: string, y: string)
    requires p + x == p + y
    ensures x == y
  {
    assert x == (p + x)[|p|..];
    assert y == (p + y)[|p|..];
  }
}
