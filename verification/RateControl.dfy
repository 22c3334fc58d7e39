/**
 * The sender's rate controller (transport/rate_control.rs). Durations and instants are in
 * nanoseconds, rates in bytes per second; the floating-point factors are exact fractions.
 */
module RateControl {
  import opened Prelude

  datatype RateMode = Fixed | Fair | Scavenger

  const MIN_RATE := 1_000_000
  const INITIAL_MIN_OWD := 999_000_000_000
  const ADJUST_INTERVAL := 50_000_000

  datatype Controller = Controller(
    mode: RateMode, targetRate: nat, maxRate: nat, currentRate: nat,
    minOwd: nat, smoothedOwd: nat, prevSmoothedOwd: nat, increaseStreak: nat, lastAdjustment: nat)

  function NewController(targetMbps: nat, mode: RateMode, now: nat): Controller {
    var target := targetMbps * 1_000_000 / 8;
    Controller(mode, target, target * 2, target, INITIAL_MIN_OWD, 0, 0, 0, now)
  }

  function Micros(ns: nat): nat {
    ns / 1000
  }

  /** The moving average with weight 1/8, computed and truncated in whole microseconds. */
  function Average(smoothed: nat, sample: nat): nat {
    (7 * Micros(smoothed) + Micros(sample)) / 8 * 1000
  }

  function Smooth(c: Controller, owd: nat): Controller {
    var smoothed := if c.smoothedOwd == 0 then owd else Average(c.smoothedOwd, owd);
    c.(minOwd := Min(owd, c.minOwd),
       prevSmoothedOwd := c.smoothedOwd,
       smoothedOwd := smoothed,
       increaseStreak := if smoothed > c.smoothedOwd then c.increaseStreak + 1 else 0)
  }

  function OwdRatio(c: Controller): real {
    if Micros(c.minOwd) == 0 then 1.0 else Micros(c.smoothedOwd) as real / Micros(c.minOwd) as real
  }

  function Backed(rate: nat, tenths: nat): nat {
    Max(rate * tenths / 10, MIN_RATE)
  }

  function Raised(c: Controller, parts: nat): nat
    requires parts > 0
  {
    Min(c.currentRate + c.targetRate / parts, c.targetRate)
  }

  function Adjust(c: Controller): Controller {
    match c.mode
    case Fixed =>
      if OwdRatio(c) > 2.0 && c.increaseStreak > 5 then c.(currentRate := Backed(c.currentRate, 8))
      else c.(currentRate := Raised(c, 20))
    case Fair =>
      if OwdRatio(c) > 1.5 || c.increaseStreak > 3 then c.(currentRate := Backed(c.currentRate, 9), increaseStreak := 0)
      else if OwdRatio(c) < 1.1 then c.(currentRate := Raised(c, 50))
      else c
    case Scavenger =>
      if OwdRatio(c) > 1.1 || c.increaseStreak > 1 then c.(currentRate := Backed(c.currentRate, 5), increaseStreak := 0)
      else if OwdRatio(c) < 1.02 then c.(currentRate := Raised(c, 100))
      else c
  }

  /** An adjustment takes effect at most once per interval. */
  predicate Due(c: Controller, now: nat) {
    now - c.lastAdjustment >= ADJUST_INTERVAL
  }

  function UpdateOwd(c: Controller, owd: nat, now: nat): Controller {
    var s := Smooth(c, owd);
    if Due(s, now) then Adjust(s.(lastAdjustment := now)) else s
  }

  function ApplySuggestion(c: Controller, suggestedBps: nat, now: nat): Controller {
    var suggested := suggestedBps / 8;
    var rate :=
      match c.mode
      case Fixed => if suggested < c.targetRate * 80 / 100 then Max(suggested, MIN_RATE) else c.targetRate
      case Fair => Min(Max(suggested, MIN_RATE), c.maxRate)
      case Scavenger => Min(Max(suggested, MIN_RATE), c.maxRate);
    c.(currentRate := rate, lastAdjustment := now)
  }

  class RateController {
    const mode: RateMode
    const targetRate: nat
    const maxRate: nat
    var currentRate: nat
    var minOwd: nat
    var smoothedOwd: nat
    var prevSmoothedOwd: nat
    var increaseStreak: nat
    var lastAdjustment: nat

    function State(): Controller
      reads this
    {
      Controller(mode, targetRate, maxRate, currentRate, minOwd, smoothedOwd, prevSmoothedOwd, increaseStreak, lastAdjustment)
    }

    constructor (targetMbps: nat, mode: RateMode, now: nat)
      ensures State() == NewController(targetMbps, mode, now)
    {
      this.mode := mode;
      targetRate := targetMbps * 1_000_000 / 8;
      currentRate := targetMbps * 1_000_000 / 8;
      maxRate := targetMbps * 1_000_000 / 8 * 2;
      minOwd, smoothedOwd, prevSmoothedOwd := INITIAL_MIN_OWD, 0, 0;
      increaseStreak, lastAdjustment := 0, now;
    }

    method UpdateOwdSample(owd: nat, now: nat)
      modifies this
      ensures State() == UpdateOwd(old(State()), owd, now)
    {
      if owd < minOwd {
        minOwd := owd;
      }
      prevSmoothedOwd := smoothedOwd;
      if smoothedOwd == 0 {
        smoothedOwd := owd;
      } else {
        smoothedOwd := Average(smoothedOwd, owd);
      }
      if smoothedOwd > prevSmoothedOwd {
        increaseStreak := increaseStreak + 1;
      } else {
        increaseStreak := 0;
      }
      MaybeAdjustRate(now);
    }

    method MaybeAdjustRate(now: nat)
      modifies this`currentRate, this`increaseStreak, this`lastAdjustment
      ensures State() == var c := old(State()); if Due(c, now) then Adjust(c.(lastAdjustment := now)) else c
    {
      if now - lastAdjustment < ADJUST_INTERVAL {
        return;
      }
      lastAdjustment := now;
      var ratio := OwdRatio(State());
      match mode {
        case Fixed =>
          if ratio > 2.0 && increaseStreak > 5 {
            currentRate := currentRate * 8 / 10;
            currentRate := Max(currentRate, MIN_RATE);
          } else {
            currentRate := Min(currentRate + targetRate / 20, targetRate);
          }
        case Fair =>
          if ratio > 1.5 || increaseStreak > 3 {
            currentRate := currentRate * 9 / 10;
            currentRate := Max(currentRate, MIN_RATE);
            increaseStreak := 0;
          } else if ratio < 1.1 {
            currentRate := Min(currentRate + targetRate / 50, targetRate);
          }
        case Scavenger =>
          if ratio > 1.1 || increaseStreak > 1 {
            currentRate := currentRate * 5 / 10;
            currentRate := Max(currentRate, MIN_RATE);
            increaseStreak := 0;
          } else if ratio < 1.02 {
            currentRate := Min(currentRate + targetRate / 100, targetRate);
          }
      }
    }

    method ApplyReceiverSuggestion(suggestedBps: nat, now: nat)
      modifies this`currentRate, this`lastAdjustment
      ensures State() == ApplySuggestion(old(State()), suggestedBps, now)
    {
      var suggested := suggestedBps / 8;
      match mode {
        case Fixed =>
          if suggested < targetRate * 80 / 100 {
            currentRate := Max(suggested, MIN_RATE);
          } else {
            currentRate := targetRate;
          }
        case Fair | Scavenger =>
          currentRate := Min(Max(suggested, MIN_RATE), maxRate);
      }
      lastAdjustment := now;
    }

    function CurrentRateBps(): nat
      reads this
    {
      currentRate * 8
    }
  }

  // ---- Runs ----

  datatype Event = Sample(owd: nat, now: nat) | Suggestion(bps: nat, now: nat)

  function Step(c: Controller, e: Event): Controller {
    match e
    case Sample(owd, now) => UpdateOwd(c, owd, now)
    case Suggestion(bps, now) => ApplySuggestion(c, bps, now)
  }

  function Run(c: Controller, es: seq<Event>): Controller {
    if es == [] then c else Step(Run(c, es[..|es| - 1]), es[|es| - 1])
  }

  ghost predicate InEnvelope(c: Controller) {
    && MIN_RATE <= c.currentRate <= c.maxRate
    && (c.mode == Fixed ==> c.currentRate <= c.targetRate)
  }

  lemma StepKeepsEnvelope(c: Controller, e: Event)
    requires InEnvelope(c) && MIN_RATE <= c.targetRate && c.maxRate == 2 * c.targetRate
    ensures InEnvelope(Step(c, e))
    ensures Step(c, e).mode == c.mode && Step(c, e).targetRate == c.targetRate && Step(c, e).maxRate == c.maxRate
  {
    hide OwdRatio, Average;
  }

  lemma {:induction false} RunKeepsEnvelope(c: Controller, es: seq<Event>)
    requires InEnvelope(c) && MIN_RATE <= c.targetRate && c.maxRate == 2 * c.targetRate
    ensures InEnvelope(Run(c, es))
    ensures var d := Run(c, es); d.mode == c.mode && d.targetRate == c.targetRate && d.maxRate == c.maxRate
  {
    if es != [] {
      RunKeepsEnvelope(c, es[..|es| - 1]);
      StepKeepsEnvelope(Run(c, es[..|es| - 1]), es[|es| - 1]);
    }
  }

  /**
   * The configured bounds hold in every state of every run exactly when the target is at least
   * 8 Mbps: below that the fixed floor of 1 MB/s is above the starting rate.
   */
  lemma EnvelopeIffTargetAboveFloor(targetMbps: nat, mode: RateMode, now: nat)
    ensures (forall es: seq<Event> :: InEnvelope(Run(NewController(targetMbps, mode, now), es))) <==> targetMbps >= 8
  {
    var c := NewController(targetMbps, mode, now);
    if targetMbps >= 8 {
      forall es: seq<Event>
        ensures InEnvelope(Run(c, es))
      {
        RunKeepsEnvelope(c, es);
      }
    } else {
      assert !InEnvelope(Run(c, []));
    }
  }

  // ---- The delay estimates ----

  ghost predicate Samples(es: seq<Event>, lo: nat, hi: nat) {
    forall i :: 0 <= i < |es| && es[i].Sample? ==> lo <= es[i].owd <= hi
  }

  ghost predicate SomeSample(es: seq<Event>) {
    exists i :: 0 <= i < |es| && es[i].Sample?
  }

  /** What a sample does to the delay estimates, whether or not it adjusts the rate. */
  lemma SampleDelays(c: Controller, owd: nat, now: nat)
    ensures var d, s := UpdateOwd(c, owd, now), Smooth(c, owd);
      && d.minOwd == s.minOwd && d.smoothedOwd == s.smoothedOwd
      && (d.increaseStreak == s.increaseStreak || d.increaseStreak == 0)
  {}

  lemma SmoothBetween(c: Controller, owd: nat)
    requires c.smoothedOwd != 0
    ensures var s := Smooth(c, owd);
      Min(Micros(c.smoothedOwd), Micros(owd)) <= Micros(s.smoothedOwd) <= Max(Micros(c.smoothedOwd), Micros(owd))
  {
    AverageBetween(c.smoothedOwd, owd);
  }

  lemma SomeSampleStep(front: seq<Event>, e: Event)
    ensures SomeSample(front + [e]) <==> SomeSample(front) || e.Sample?
  {
    assert (front + [e])[|front|] == e;
    if SomeSample(front) {
      var i :| 0 <= i < |front| && front[i].Sample?;
      assert (front + [e])[i].Sample?;
    }
  }

  /** In whole microseconds the recorded minimum is at most the smoothed delay, over every run. */
  lemma {:induction false} DelayFloor(targetMbps: nat, mode: RateMode, now: nat, es: seq<Event>)
    ensures var c := Run(NewController(targetMbps, mode, now), es);
      && (SomeSample(es) ==> Micros(c.minOwd) <= Micros(c.smoothedOwd))
      && (!SomeSample(es) ==> c.smoothedOwd == 0 && c.minOwd == INITIAL_MIN_OWD)
      && (c.smoothedOwd == 0 ==> c.increaseStreak == 0)
  {
    if es != [] {
      var front, e := es[..|es| - 1], es[|es| - 1];
      DelayFloor(targetMbps, mode, now, front);
      SomeSampleStep(front, e);
      assert front + [e] == es;
      if e.Sample? {
        var c := Run(NewController(targetMbps, mode, now), front);
        SampleDelays(c, e.owd, e.now);
        if c.smoothedOwd != 0 {
          SmoothBetween(c, e.owd);
        }
      }
    }
  }

  lemma AverageAtMost(smoothed: nat, sample: nat, hi: nat)
    requires smoothed <= hi && sample <= hi
    ensures Average(smoothed, sample) <= hi
  {
    AverageBetween(smoothed, sample);
  }

  /**
   * Over every run: the recorded minimum is at least the least sample (or its initial value), the smoothed delay
   * at most the largest, and in whole microseconds the one is at most the other.
   */
  lemma {:induction false} DelayEnvelope(targetMbps: nat, mode: RateMode, now: nat, es: seq<Event>, lo: nat, hi: nat)
    requires Samples(es, lo, hi)
    ensures var c := Run(NewController(targetMbps, mode, now), es);
      && Min(lo, INITIAL_MIN_OWD) <= c.minOwd && c.smoothedOwd <= hi
      && (SomeSample(es) ==> Micros(c.minOwd) <= Micros(c.smoothedOwd))
  {
    DelayFloor(targetMbps, mode, now, es);
    if es != [] {
      var front, e := es[..|es| - 1], es[|es| - 1];
      DelayEnvelope(targetMbps, mode, now, front, lo, hi);
      if e.Sample? {
        var c := Run(NewController(targetMbps, mode, now), front);
        assert lo <= es[|es| - 1].owd <= hi;
        SampleDelays(c, e.owd, e.now);
        AverageAtMost(c.smoothedOwd, e.owd, hi);
      }
    }
  }

  lemma AverageBetween(smoothed: nat, sample: nat)
    ensures Micros(Average(smoothed, sample)) == (7 * Micros(smoothed) + Micros(sample)) / 8
    ensures Min(Micros(smoothed), Micros(sample)) <= Micros(Average(smoothed, sample)) <= Max(Micros(smoothed), Micros(sample))
  {}

  ghost predicate LeastSample(es: seq<Event>, m: nat) {
    && (forall i :: 0 <= i < |es| && es[i].Sample? ==> m <= es[i].owd)
    && exists i :: 0 <= i < |es| && es[i].Sample? && es[i].owd == m
  }

  lemma {:induction false} MinAtLeast(c: Controller, es: seq<Event>, m: nat)
    requires m <= c.minOwd && forall i :: 0 <= i < |es| && es[i].Sample? ==> m <= es[i].owd
    ensures m <= Run(c, es).minOwd
  {
    if es != [] {
      var front, e := es[..|es| - 1], es[|es| - 1];
      MinAtLeast(c, front, m);
      if e.Sample? {
        SampleDelays(Run(c, front), e.owd, e.now);
      }
    }
  }

  lemma {:induction false} MinAtMost(c: Controller, es: seq<Event>, i: nat)
    requires i < |es|
    ensures Run(c, es).minOwd <= c.minOwd
    ensures es[i].Sample? ==> Run(c, es).minOwd <= es[i].owd
  {
    var front, e := es[..|es| - 1], es[|es| - 1];
    if front != [] {
      MinAtMost(c, front, if i < |front| then i else 0);
    }
    if e.Sample? {
      SampleDelays(Run(c, front), e.owd, e.now);
    }
  }

  /** The recorded minimum is the least sample, or the initial value if that is smaller. */
  lemma MinIsLeast(c: Controller, es: seq<Event>, m: nat)
    requires c.minOwd == INITIAL_MIN_OWD && LeastSample(es, m)
    ensures Run(c, es).minOwd == Min(m, INITIAL_MIN_OWD)
  {
    var i :| 0 <= i < |es| && es[i].Sample? && es[i].owd == m;
    MinAtMost(c, es, i);
    MinAtLeast(c, es, Min(m, INITIAL_MIN_OWD));
  }

  /** Two samples of a delay that is no whole number of microseconds put the average below the minimum. */
  lemma SubMicrosecondDip(c: Controller, m: nat, now: nat)
    requires c.smoothedOwd == 0 && m <= c.minOwd && m % 1000 != 0
    ensures var d := Run(c, [Sample(m, now), Sample(m, now)]);
      d.smoothedOwd == m / 1000 * 1000 < m == d.minOwd
  {
    var es := [Sample(m, now), Sample(m, now)];
    assert es[..1] == [Sample(m, now)] && es[..1][..0] == [];
    assert Run(c, es[..1]) == Step(c, Sample(m, now));
    SampleDelays(c, m, now);
    SampleDelays(Step(c, Sample(m, now)), m, now);
  }

  /** The bound on the durations themselves. */
  ghost predicate AboveMinimum(c: Controller) {
    c.minOwd <= c.smoothedOwd
  }

  /**
   * In nanoseconds the recorded minimum is at most the smoothed delay in every run with least sample `m` exactly when
   * that minimum is a whole number of microseconds.
   */
  lemma NanosecondFloorIff(targetMbps: nat, mode: RateMode, now: nat, m: nat)
    ensures (forall es: seq<Event> :: LeastSample(es, m) ==> AboveMinimum(Run(NewController(targetMbps, mode, now), es)))
      <==> Min(m, INITIAL_MIN_OWD) % 1000 == 0
  {
    var c := NewController(targetMbps, mode, now);
    if Min(m, INITIAL_MIN_OWD) % 1000 == 0 {
      forall es: seq<Event> | LeastSample(es, m)
        ensures AboveMinimum(Run(c, es))
      {
        MinIsLeast(c, es, m);
        var i :| 0 <= i < |es| && es[i].Sample? && es[i].owd == m;
        assert SomeSample(es);
        DelayFloor(targetMbps, mode, now, es);
      }
    } else {
      var es := [Sample(m, now), Sample(m, now)];
      assert es[0].Sample? && LeastSample(es, m);
      SubMicrosecondDip(c, m, now);
      assert !AboveMinimum(Run(c, es));
    }
  }

  // ---- Recovery ----

  /** How far, in microseconds, the smoothed delay is above the minimum. */
  function Excess(c: Controller): int {
    Micros(c.smoothedOwd) - Micros(c.minOwd)
  }

  /** The smoothed delay has come down to the minimum, and no rise is on record. */
  ghost predicate Calm(c: Controller) {
    Excess(c) == 0 && c.increaseStreak <= 1 && (c.smoothedOwd == 0 ==> c.increaseStreak == 0)
  }

  ghost predicate AtMinimum(c: Controller, es: seq<Event>) {
    forall i :: 0 <= i < |es| ==> es[i].Sample? && es[i].owd == c.minOwd
  }

  lemma SmoothShrinksExcess(c: Controller)
    requires Excess(c) >= 0 && c.smoothedOwd != 0
    ensures var d := Smooth(c, c.minOwd); Excess(d) == 7 * Excess(c) / 8 && d.minOwd == c.minOwd && d.increaseStreak == 0
  {
    var m, s := Micros(c.minOwd), Micros(c.smoothedOwd);
    AverageBetween(c.smoothedOwd, c.minOwd);
    assert (7 * s + m) / 8 == m + 7 * (s - m) / 8;
    assert Average(c.smoothedOwd, c.minOwd) <= s * 1000 <= c.smoothedOwd;
  }

  /** A sample at the minimum keeps seven eighths of the excess, rounded down. */
  lemma SampleShrinksExcess(c: Controller, now: nat)
    requires Excess(c) >= 0 && (c.smoothedOwd == 0 ==> c.increaseStreak == 0)
    ensures var d := UpdateOwd(c, c.minOwd, now);
      && d.minOwd == c.minOwd
      && Excess(d) == 7 * Excess(c) / 8
      && d.increaseStreak <= 1 && (d.smoothedOwd == 0 ==> d.increaseStreak == 0)
  {
    SampleDelays(c, c.minOwd, now);
    if c.smoothedOwd != 0 {
      SmoothShrinksExcess(c);
    }
  }

  /** What `n` samples at the minimum leave of an excess of `e` microseconds. */
  function Shrunk(e: nat, n: nat): nat {
    if n == 0 then e else Shrunk(7 * e / 8, n - 1)
  }

  lemma {:induction false} ShrunkSnoc(e: nat, n: nat)
    ensures Shrunk(e, n + 1) == 7 * Shrunk(e, n) / 8
  {
    if n > 0 {
      ShrunkSnoc(7 * e / 8, n - 1);
    }
  }

  /** Number of binary digits. */
  function Digits(e: nat): nat {
    if e == 0 then 0 else 1 + Digits(e / 2)
  }

  /** Enough samples to drain an excess: one a microsecond, or six a binary digit. */
  function DrainTime(e: nat): nat {
    Min(e, 6 * Digits(e))
  }

  lemma {:induction false} ShrunkMono(e: nat, f: nat, n: nat)
    requires e <= f
    ensures Shrunk(e, n) <= Shrunk(f, n)
  {
    if n > 0 {
      ShrunkMono(7 * e / 8, 7 * f / 8, n - 1);
    }
  }

  /** Six samples more than halve the excess. */
  lemma SixHalve(e: nat, n: nat)
    requires n >= 6
    ensures Shrunk(e, n) <= Shrunk(e / 2, n - 6)
  {
    var e1 := 7 * e / 8;
    var e2 := 7 * e1 / 8;
    var e3 := 7 * e2 / 8;
    var e4 := 7 * e3 / 8;
    var e5 := 7 * e4 / 8;
    var e6 := 7 * e5 / 8;
    assert Shrunk(e, n) == Shrunk(e1, n - 1) == Shrunk(e2, n - 2) == Shrunk(e3, n - 3);
    assert Shrunk(e3, n - 3) == Shrunk(e4, n - 4) == Shrunk(e5, n - 5) == Shrunk(e6, n - 6);
    ShrunkMono(e6, e / 2, n - 6);
  }

  lemma {:induction false} ShrunkByOne(e: nat, n: nat)
    requires n >= e
    ensures Shrunk(e, n) == 0
    decreases n
  {
    if n > 0 {
      ShrunkByOne(7 * e / 8, n - 1);
    }
  }

  lemma {:induction false} ShrunkByHalves(e: nat, n: nat)
    requires n >= 6 * Digits(e)
    ensures Shrunk(e, n) == 0
  {
    if e == 0 {
      ShrunkByOne(e, n);
    } else {
      SixHalve(e, n);
      ShrunkByHalves(e / 2, n - 6);
    }
  }

  /**
   * Each sample at the minimum leaves seven eighths of the excess, rounded down: exactly `Shrunk`, and nothing
   * after `DrainTime`, which is logarithmic.
   */
  lemma {:induction false} DelaySettles(c: Controller, es: seq<Event>)
    requires Excess(c) >= 0 && (c.smoothedOwd == 0 ==> c.increaseStreak == 0)
    requires AtMinimum(c, es)
    ensures var d := Run(c, es);
      && d.minOwd == c.minOwd && Excess(d) == Shrunk(Excess(c), |es|) && (d.smoothedOwd == 0 ==> d.increaseStreak == 0)
      && (es != [] ==> d.increaseStreak <= 1)
      && (|es| >= 1 && |es| >= DrainTime(Excess(c)) ==> Calm(d))
  {
    hide Shrunk, Digits, UpdateOwd, Excess;
    if es == [] {
      assert Shrunk(Excess(c), 0) == Excess(c) by { ShrunkNone(Excess(c)); }
    } else {
      var front, e := es[..|es| - 1], es[|es| - 1];
      DelaySettles(c, front);
      SampleShrinksExcess(Run(c, front), e.now);
      ShrunkSnoc(Excess(c), |front|);
      if |es| >= Excess(c) {
        ShrunkByOne(Excess(c), |es|);
      } else if |es| >= 6 * Digits(Excess(c)) {
        ShrunkByHalves(Excess(c), |es|);
      }
    }
  }

  lemma ShrunkNone(e: nat)
    ensures Shrunk(e, 0) == e
  {}

  function Parts(mode: RateMode): nat {
    match mode
    case Fixed => 20
    case Fair => 50
    case Scavenger => 100
  }

  /** How many of the samples fall due, that is, adjust the rate. */
  function Adjustments(c: Controller, es: seq<Event>): nat {
    if es == [] then 0
    else
      var front, e := es[..|es| - 1], es[|es| - 1];
      Adjustments(c, front) + if Due(Run(c, front), e.now) then 1 else 0
  }

  lemma RatioOne(c: Controller)
    requires Excess(c) == 0
    ensures OwdRatio(c) == 1.0
  {
    if Micros(c.minOwd) != 0 {
      var x := Micros(c.minOwd) as real;
      assert x / x == 1.0;
    }
  }

  lemma AdjustRaises(c: Controller)
    requires OwdRatio(c) == 1.0 && c.increaseStreak <= 1
    ensures Adjust(c) == c.(currentRate := Raised(c, Parts(c.mode)))
  {}

  lemma SmoothKeepsCalm(c: Controller)
    requires Calm(c)
    ensures var d := Smooth(c, c.minOwd);
      && Calm(d) && d.minOwd == c.minOwd && d.currentRate == c.currentRate && d.lastAdjustment == c.lastAdjustment
  {
    if c.smoothedOwd != 0 {
      SmoothShrinksExcess(c);
    }
  }

  /** The step by which each mode raises the rate. */
  function RaiseStep(c: Controller): nat {
    c.targetRate / Parts(c.mode)
  }

  lemma CalmStepRaises(c: Controller, now: nat, step: nat)
    requires Calm(c) && step == RaiseStep(c)
    ensures var d := UpdateOwd(c, c.minOwd, now);
      && d.minOwd == c.minOwd && Calm(d)
      && d.mode == c.mode && d.targetRate == c.targetRate
      && d.currentRate == if Due(c, now) then Min(c.currentRate + step, c.targetRate) else c.currentRate
  {
    SmoothKeepsCalm(c);
    var s := Smooth(c, c.minOwd);
    if Due(c, now) {
      var t := s.(lastAdjustment := now);
      RatioOne(t);
      AdjustRaises(t);
    }
  }

  /** What holds of the state after `n` adjustments of a calm run from `c`. */
  ghost predicate Raising(c: Controller, d: Controller, n: nat, step: nat) {
    && d.minOwd == c.minOwd && Calm(d) && d.mode == c.mode && d.targetRate == c.targetRate
    && (n > 0 ==> d.currentRate <= d.targetRate)
    && d.currentRate >= Min(c.targetRate, MIN_RATE + Times(n, step))
  }

  lemma {:induction false} CalmRunRaises(c: Controller, es: seq<Event>, step: nat)
    requires Calm(c) && MIN_RATE <= c.targetRate && MIN_RATE <= c.currentRate
    requires AtMinimum(c, es) && step == RaiseStep(c)
    ensures Raising(c, Run(c, es), Adjustments(c, es), step)
  {
    if es != [] {
      var front, e := es[..|es| - 1], es[|es| - 1];
      CalmRunRaises(c, front, step);
      var d := Run(c, front);
      assert RaiseStep(d) == step;
      CalmStepRaises(d, e.now, step);
      assert es[|es| - 1].Sample? && e.owd == d.minOwd;
      assert Run(c, es) == UpdateOwd(d, d.minOwd, e.now);
    }
  }

  lemma StepsSuffice(target: nat, parts: nat, n: nat)
    requires 0 < parts <= 100 && n >= parts
    ensures MIN_RATE + Times(n, target / parts) >= target
  {
    TimesMono(parts, n, target / parts);
    TimesIsProduct(parts, target / parts);
    DivModFacts(target, parts);
  }

  /**
   * Once the delay samples stay at the recorded minimum, the rate is back at its target after the
   * excess delay has drained (six samples per binary digit of it, at most) and 20 further adjustments
   * in Fixed mode, 50 in Fair mode, 100 in Scavenger mode.
   */
  lemma RateRecovers(c: Controller, drain: seq<Event>, rest: seq<Event>)
    requires InEnvelope(c) && MIN_RATE <= c.targetRate && c.maxRate == 2 * c.targetRate
    requires Excess(c) >= 0 && (c.smoothedOwd == 0 ==> c.increaseStreak == 0)
    requires AtMinimum(c, drain) && AtMinimum(c, rest)
    requires |drain| >= 1 && |drain| >= DrainTime(Excess(c))
    requires Adjustments(Run(c, drain), rest) >= Parts(c.mode)
    ensures Run(Run(c, drain), rest).currentRate == c.targetRate
  {
    DelaySettles(c, drain);
    RunKeepsEnvelope(c, drain);
    var d := Run(c, drain);
    CalmRunRaises(d, rest, RaiseStep(d));
    StepsSuffice(c.targetRate, Parts(c.mode), Adjustments(d, rest));
  }

  // ---- Back-off ----

  /** When each mode backs off: delays in microseconds, the thresholds 2, 1.5 and 1.1 of the minimum as whole factors. */
  ghost predicate Congested(c: Controller) {
    var low, now := Micros(c.minOwd), Micros(c.smoothedOwd);
    match c.mode
    case Fixed => low > 0 && now > 2 * low && c.increaseStreak > 5
    case Fair => (low > 0 && 2 * now > 3 * low) || c.increaseStreak > 3
    case Scavenger => (low > 0 && 10 * now > 11 * low) || c.increaseStreak > 1
  }

  /** When each mode that is not congested speeds up: below 1.1 and 1.02 of the minimum, in Fixed mode always. */
  ghost predicate Relaxed(c: Controller) {
    var low, now := Micros(c.minOwd), Micros(c.smoothedOwd);
    match c.mode
    case Fixed => true
    case Fair => low == 0 || 10 * now < 11 * low
    case Scavenger => low == 0 || 50 * now < 51 * low
  }

  /** The part of the rate that is kept, in tenths. */
  function KeptTenths(mode: RateMode): nat {
    match mode
    case Fixed => 8
    case Fair => 9
    case Scavenger => 5
  }

  lemma RatioAbove(now: nat, low: nat, num: nat, den: nat)
    requires low > 0 && den > 0
    ensures now as real / low as real > num as real / den as real <==> den * now > num * low
    ensures now as real / low as real < num as real / den as real <==> den * now < num * low
  {
    var x, y := now as real / low as real, num as real / den as real;
    assert x * low as real == now as real && y * den as real == num as real;
    ScaledOrder(x, y, low as real * den as real);
    assert x * (low as real * den as real) == (den * now) as real;
    assert y * (low as real * den as real) == (num * low) as real;
  }

  lemma ScaledOrder(x: real, y: real, k: real)
    requires k > 0.0
    ensures x > y <==> x * k > y * k
    ensures x < y <==> x * k < y * k
  {}

  lemma Thresholds(c: Controller)
    ensures var low, now, r := Micros(c.minOwd), Micros(c.smoothedOwd), OwdRatio(c);
      && (low == 0 ==> r == 1.0)
      && (low > 0 ==>
            && (r > 2.0 <==> now > 2 * low) && (r > 1.5 <==> 2 * now > 3 * low) && (r > 1.1 <==> 10 * now > 11 * low)
            && (r < 1.1 <==> 10 * now < 11 * low) && (r < 1.02 <==> 50 * now < 51 * low))
  {
    hide Micros;
    var low, now := Micros(c.minOwd), Micros(c.smoothedOwd);
    if low > 0 {
      RatioAbove(now, low, 2, 1);
      RatioAbove(now, low, 3, 2);
      RatioAbove(now, low, 11, 10);
      RatioAbove(now, low, 51, 50);
    }
  }

  /** What one adjustment does to the rate, in full. */
  lemma AdjustIs(c: Controller)
    ensures Adjust(c).currentRate ==
      if Congested(c) then Max(c.currentRate * KeptTenths(c.mode) / 10, 1_000_000)
      else if Relaxed(c) then Min(c.currentRate + c.targetRate / Parts(c.mode), c.targetRate)
      else c.currentRate
    ensures Adjust(c) == c.(currentRate := Adjust(c).currentRate, increaseStreak := Adjust(c).increaseStreak)
    ensures Adjust(c).increaseStreak == if Congested(c) && c.mode != Fixed then 0 else c.increaseStreak
  {
    hide OwdRatio, Micros;
    Thresholds(c);
  }

  /** A sample moves the rate only 50 ms or more after the last change, and then by exactly that adjustment. */
  lemma SampleMovesRate(c: Controller, owd: nat, now: nat)
    ensures var d, s := UpdateOwd(c, owd, now), Smooth(c, owd);
      if now - c.lastAdjustment < 50_000_000 then d.currentRate == c.currentRate && d.lastAdjustment == c.lastAdjustment
      else
        && d.lastAdjustment == now
        && d.currentRate ==
           if Congested(s) then Max(c.currentRate * KeptTenths(c.mode) / 10, 1_000_000)
           else if Relaxed(s) then Min(c.currentRate + c.targetRate / Parts(c.mode), c.targetRate)
           else c.currentRate
  {
    hide OwdRatio, Average, Adjust;
    var s := Smooth(c, owd);
    AdjustIs(s.(lastAdjustment := now));
  }

  /** Every sample is due and finds congestion. */
  ghost predicate AllCongested(c: Controller, es: seq<Event>) {
    es != [] ==>
      var front, e := es[..|es| - 1], es[|es| - 1];
      && AllCongested(c, front)
      && e.Sample? && e.now - Run(c, front).lastAdjustment >= 50_000_000 && Congested(Smooth(Run(c, front), e.owd))
  }

  lemma BackOffStep(rate: nat, tenths: nat)
    requires tenths <= 9 && rate >= 1_000_000
    ensures 1_000_000 <= Max(rate * tenths / 10, 1_000_000) <= Max(rate - 100_000, 1_000_000)
  {
    MulMono(tenths, 9, rate);
  }

  /** Sustained congestion takes the rate down to the floor: at least 100 kB/s at every adjustment, in every mode. */
  lemma {:induction false} CongestionReachesFloor(c: Controller, es: seq<Event>)
    requires AllCongested(c, es) && c.currentRate >= 1_000_000
    ensures var d := Run(c, es);
      d.mode == c.mode && 1_000_000 <= d.currentRate <= Max(c.currentRate - 100_000 * |es|, 1_000_000)
  {
    hide Smooth, Congested, Adjust;
    if es != [] {
      var front, e := es[..|es| - 1], es[|es| - 1];
      CongestionReachesFloor(c, front);
      var d := Run(c, front);
      SampleMovesRate(d, e.owd, e.now);
      SampleKeepsMode(d, e.owd, e.now);
      BackOffStep(d.currentRate, KeptTenths(c.mode));
    }
  }

  lemma SampleKeepsMode(c: Controller, owd: nat, now: nat)
    ensures UpdateOwd(c, owd, now).mode == c.mode
  {
    hide OwdRatio, Average;
  }

  /** In Fixed mode the streak is the number of samples, up to the last, that each raised the smoothed delay. */
  function Rises(c: Controller, es: seq<Event>): nat {
    if es == [] then 0
    else
      var front, e := es[..|es| - 1], es[|es| - 1];
      if e.Suggestion? then Rises(c, front)
      else if Run(c, es).smoothedOwd > Run(c, front).smoothedOwd then Rises(c, front) + 1
      else 0
  }

  lemma {:induction false} StreakCountsRises(c: Controller, es: seq<Event>)
    requires c.mode == Fixed && c.increaseStreak == 0
    ensures Run(c, es).mode == Fixed && Run(c, es).increaseStreak == Rises(c, es)
  {
    hide OwdRatio, Average;
    if es != [] {
      StreakCountsRises(c, es[..|es| - 1]);
    }
  }

  lemma EightyPercent(target: nat, bytes: nat)
    ensures bytes < target * 80 / 100 <==> 5 * (bytes + 1) <= 4 * target
  {
    assert target * 80 / 100 == 4 * target / 5;
  }

  /** A suggestion of `bytes` whole bytes per second is taken within the policy of each mode, at once. */
  lemma SuggestionIs(c: Controller, bps: nat, bytes: nat, now: nat)
    requires 8 * bytes <= bps < 8 * bytes + 8
    ensures var d := ApplySuggestion(c, bps, now);
      && d == c.(currentRate := d.currentRate, lastAdjustment := now)
      && d.currentRate ==
         if c.mode == Fixed then if 5 * (bytes + 1) <= 4 * c.targetRate then Max(bytes, 1_000_000) else c.targetRate
         else Min(Max(bytes, 1_000_000), c.maxRate)
  {
    assert bps / 8 == bytes;
    EightyPercent(c.targetRate, bytes);
  }
}
