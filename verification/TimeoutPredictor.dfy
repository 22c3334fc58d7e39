/** transport/timeout_predictor.rs: when a block should have arrived, and how far to trust that. */
module TimeoutPredictor {
  import opened Prelude

  const HISTORY_LIMIT := 256
  const HISTORY_DROP := 128

  type Arrival = (nat, nat, nat)

  /** Rate in bytes per second; instants in nanoseconds. */
  datatype Predictor = Predictor(
    estimatedRate: real, blockSize: nat, safetyMargin: real,
    history: seq<Arrival>, lateBlocks: nat, onTimeBlocks: nat)

  function NewPredictor(targetMbps: nat, blockSize: nat): Predictor {
    Predictor(targetMbps as real * 1000000.0 / 8.0, blockSize, 2.0, [], 0, 0)
  }

  function Seconds(ns: nat): real {
    ns as real / 1000000000.0
  }

  /** `Instant::elapsed` saturates at zero. */
  function Elapsed(since: nat, now: nat): nat {
    Max(now - since, 0)
  }

  function PredictedSeconds(p: Predictor): real {
    if p.estimatedRate <= 0.0 then 30.0 else p.blockSize as real / p.estimatedRate * p.safetyMargin
  }

  function Loosen(margin: real): real {
    if margin * 1.1 <= 5.0 then margin * 1.1 else 5.0
  }

  function Tighten(margin: real): real {
    if margin * 0.99 >= 1.2 then margin * 0.99 else 1.2
  }

  predicate Late(p: Predictor, elapsed: nat) {
    Seconds(elapsed) > PredictedSeconds(p)
  }

  function Remember(history: seq<Arrival>, a: Arrival): seq<Arrival> {
    var h := history + [a];
    if |h| > HISTORY_LIMIT then h[HISTORY_DROP..] else h
  }

  function RecordArrival(p: Predictor, id: nat, elapsed: nat, now: nat, bytes: nat): Predictor {
    var late := Late(p, elapsed);
    p.(lateBlocks := p.lateBlocks + if late then 1 else 0,
       onTimeBlocks := p.onTimeBlocks + if late then 0 else 1,
       safetyMargin := if late then Loosen(p.safetyMargin) else Tighten(p.safetyMargin),
       estimatedRate := if elapsed > 0 then 0.2 * (bytes as real / Seconds(elapsed)) + 0.8 * p.estimatedRate else p.estimatedRate,
       history := Remember(p.history, (id, now, bytes)))
  }

  function BoostFactor(p: Predictor): real {
    var total := p.lateBlocks + p.onTimeBlocks;
    if total < 4 then 1.0 else 1.0 + p.lateBlocks as real / total as real * 2.0
  }

  class TimeoutPredictor {
    const blockSize: nat
    var estimatedRate: real
    var safetyMargin: real
    var history: seq<Arrival>
    var lateBlocks: nat
    var onTimeBlocks: nat

    function State(): Predictor
      reads this
    {
      Predictor(estimatedRate, blockSize, safetyMargin, history, lateBlocks, onTimeBlocks)
    }

    constructor (targetMbps: nat, blockSize: nat)
      ensures State() == NewPredictor(targetMbps, blockSize)
    {
      this.blockSize := blockSize;
      estimatedRate := targetMbps as real * 1000000.0 / 8.0;
      safetyMargin, history, lateBlocks, onTimeBlocks := 2.0, [], 0, 0;
    }

    method Record(id: nat, startedExpecting: nat, now: nat, bytes: nat) returns (late: bool)
      modifies this
      ensures late == Late(old(State()), Elapsed(startedExpecting, now))
      ensures State() == RecordArrival(old(State()), id, Elapsed(startedExpecting, now), now, bytes)
    {
      var elapsed := Elapsed(startedExpecting, now);
      late := Late(State(), elapsed);
      if late {
        lateBlocks := lateBlocks + 1;
        safetyMargin := Loosen(safetyMargin);
      } else {
        onTimeBlocks := onTimeBlocks + 1;
        safetyMargin := Tighten(safetyMargin);
      }
      if elapsed > 0 {
        estimatedRate := 0.2 * (bytes as real / Seconds(elapsed)) + 0.8 * estimatedRate;
      }
      history := history + [(id, now, bytes)];
      if |history| > HISTORY_LIMIT {
        history := history[HISTORY_DROP..];
      }
    }
  }

  // ---- Runs ----

  datatype Event = Event(id: nat, elapsed: nat, now: nat, bytes: nat)

  function Run(p: Predictor, es: seq<Event>): Predictor {
    if es == [] then p
    else
      var e := es[|es| - 1];
      RecordArrival(Run(p, es[..|es| - 1]), e.id, e.elapsed, e.now, e.bytes)
  }

  ghost predicate InBounds(p: Predictor) {
    1.2 <= p.safetyMargin <= 5.0 && |p.history| <= HISTORY_LIMIT
  }

  lemma BoostBounds(p: Predictor)
    ensures 1.0 <= BoostFactor(p) <= 3.0
  {
    var total := p.lateBlocks + p.onTimeBlocks;
    if total >= 4 {
      FractionBounds(p.lateBlocks as real, total as real);
    }
  }

  lemma FractionBounds(a: real, b: real)
    requires 0.0 <= a <= b && b > 0.0
    ensures 0.0 <= a / b <= 1.0
  {}

  /** Over every run the margin, the boost and the history stay bounded, and every arrival is counted once. */
  lemma {:induction false} RunStaysBounded(targetMbps: nat, blockSize: nat, es: seq<Event>)
    ensures var p := Run(NewPredictor(targetMbps, blockSize), es);
      && InBounds(p) && 1.0 <= BoostFactor(p) <= 3.0
      && p.lateBlocks + p.onTimeBlocks == |es|
      && (es != [] ==> p.history != [] && var e := es[|es| - 1]; p.history[|p.history| - 1] == (e.id, e.now, e.bytes))
  {
    hide Late, BoostFactor;
    if es != [] {
      RunStaysBounded(targetMbps, blockSize, es[..|es| - 1]);
    }
    BoostBounds(Run(NewPredictor(targetMbps, blockSize), es));
  }

  ghost predicate AllLate(p: Predictor, es: seq<Event>) {
    es != [] ==> AllLate(p, es[..|es| - 1]) && Late(Run(p, es[..|es| - 1]), es[|es| - 1].elapsed)
  }

  /** The least margin after `n` late blocks in a row. */
  function Loosened(n: nat): real {
    if n == 0 then 1.2 else Loosen(Loosened(n - 1))
  }

  lemma {:induction false} LateRunLoosens(p: Predictor, es: seq<Event>)
    requires InBounds(p) && AllLate(p, es)
    ensures Loosened(|es|) <= Run(p, es).safetyMargin <= 5.0
  {
    hide Late;
    if es != [] {
      LateRunLoosens(p, es[..|es| - 1]);
    }
  }

  /** From any reachable state, fifteen late blocks in a row exhaust the margin. */
  lemma FifteenLateBlocksSaturate(p: Predictor, es: seq<Event>)
    requires InBounds(p) && AllLate(p, es) && |es| == 15
    ensures Run(p, es).safetyMargin == 5.0
  {
    LateRunLoosens(p, es);
    assert Loosened(3) >= 1.59;
    assert Loosened(6) >= 2.11;
    assert Loosened(9) >= 2.80;
    assert Loosened(12) >= 3.72;
    assert Loosened(14) >= 4.55;
  }

  // ---- What a verdict and the estimates mean ----

  lemma QuotientOrder(x: real, y: real, k: real)
    requires k > 0.0
    ensures x > y / k <==> x * k > y
  {
    assert y / k * k == y;
  }

  /**
   * A block is late when, at the estimated rate, more than the margin times its size could have arrived meanwhile;
   * without an estimate, when it took more than thirty seconds.
   */
  lemma LateIff(p: Predictor, elapsed: nat)
    ensures Late(p, elapsed) <==>
      if p.estimatedRate > 0.0 then Seconds(elapsed) * p.estimatedRate > p.blockSize as real * p.safetyMargin
      else elapsed > 30_000_000_000
  {
    if p.estimatedRate > 0.0 {
      QuotientOrder(Seconds(elapsed), p.blockSize as real * p.safetyMargin, p.estimatedRate);
      assert p.blockSize as real / p.estimatedRate * p.safetyMargin == p.blockSize as real * p.safetyMargin / p.estimatedRate;
    }
  }

  /** One arrival moves the margin by a factor of 1.1 or 0.99, up to 5 or down to 1.2. */
  lemma MarginMoves(p: Predictor, e: Event)
    ensures var m := RecordArrival(p, e.id, e.elapsed, e.now, e.bytes).safetyMargin;
      if Late(p, e.elapsed) then m == (if 11.0 * p.safetyMargin <= 50.0 then 11.0 * p.safetyMargin / 10.0 else 5.0)
      else m == (if 99.0 * p.safetyMargin >= 120.0 then 99.0 * p.safetyMargin / 100.0 else 1.2)
  {
    hide Late;
  }

  /** How many of the arrivals were late, each judged by the state it met. */
  function LateCount(p: Predictor, es: seq<Event>): nat {
    if es == [] then 0
    else LateCount(p, es[..|es| - 1]) + if Late(Run(p, es[..|es| - 1]), es[|es| - 1].elapsed) then 1 else 0
  }

  /** The counters tell late from timely arrivals. */
  lemma {:induction false} CountersCount(p: Predictor, es: seq<Event>)
    ensures Run(p, es).lateBlocks == p.lateBlocks + LateCount(p, es)
    ensures Run(p, es).lateBlocks + Run(p, es).onTimeBlocks == p.lateBlocks + p.onTimeBlocks + |es|
  {
    hide Late;
    if es != [] {
      CountersCount(p, es[..|es| - 1]);
    }
  }

  /** The boost grows from one to three with the share of late blocks, once four have arrived. */
  lemma BoostIs(p: Predictor)
    ensures var total := p.lateBlocks + p.onTimeBlocks;
      if total < 4 then BoostFactor(p) == 1.0 else (BoostFactor(p) - 1.0) * total as real == 2.0 * p.lateBlocks as real
  {}

  /** Every arrival came at `rate` bytes per second. */
  ghost predicate AtRate(es: seq<Event>, rate: real) {
    forall i :: 0 <= i < |es| ==> es[i].elapsed > 0 && es[i].bytes as real == rate * Seconds(es[i].elapsed)
  }

  /** `x` after `n` steps that each keep four fifths of it. */
  function FourFifths(x: real, n: nat): real {
    if n == 0 then x else 0.8 * FourFifths(x, n - 1)
  }

  lemma OneArrival(p: Predictor, e: Event, rate: real, gap: real)
    requires e.elapsed > 0 && e.bytes as real == rate * Seconds(e.elapsed) && p.estimatedRate == rate + gap
    ensures RecordArrival(p, e.id, e.elapsed, e.now, e.bytes).estimatedRate == rate + 0.8 * gap
  {
    hide Late;
    assert e.bytes as real / Seconds(e.elapsed) == rate;
  }

  /** Blocks that keep arriving at one rate pull the estimate to it geometrically. */
  lemma {:induction false} SteadyRate(p: Predictor, es: seq<Event>, rate: real)
    requires AtRate(es, rate)
    ensures Run(p, es).estimatedRate == rate + FourFifths(p.estimatedRate - rate, |es|)
  {
    hide RecordArrival;
    if es != [] {
      SteadyRate(p, es[..|es| - 1], rate);
      OneArrival(Run(p, es[..|es| - 1]), es[|es| - 1], rate, FourFifths(p.estimatedRate - rate, |es| - 1));
    }
  }

  function Arrivals(es: seq<Event>): (r: seq<Arrival>)
    ensures |r| == |es|
    ensures forall i :: 0 <= i < |r| ==> r[i] == (es[i].id, es[i].now, es[i].bytes)
  {
    seq(|es|, i requires 0 <= i < |es| => (es[i].id, es[i].now, es[i].bytes))
  }

  /** The history is a suffix of all arrivals, never more than 256 of them and never fewer than the last 129. */
  lemma {:induction false} HistoryIsSuffix(targetMbps: nat, blockSize: nat, es: seq<Event>)
    ensures var h := Run(NewPredictor(targetMbps, blockSize), es).history;
      Min(|es|, 129) <= |h| <= Min(|es|, 256) && h == Arrivals(es)[|es| - |h|..]
  {
    hide Late;
    if es != [] {
      HistoryIsSuffix(targetMbps, blockSize, es[..|es| - 1]);
      assert Arrivals(es) == Arrivals(es[..|es| - 1]) + [Arrivals(es)[|es| - 1]];
    }
  }
}
