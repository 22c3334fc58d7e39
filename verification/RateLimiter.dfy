/** web/api.rs: the fixed-window rate limiter, and what its windows promise over any trace of calls. */
module RateLimit {
  import opened Prelude

  const WINDOW_SECS := 60
  const NANOS := 1_000_000_000

  /** The window in nanoseconds. */
  const WINDOW := WINDOW_SECS * NANOS

  type Key = (string, string)

  /** How many calls were allowed since the window began, and when it began (ns). */
  type Bucket = (nat, nat)

  /** `now.duration_since(start).as_secs()`: saturating, then whole seconds. */
  function AgeSecs(now: nat, start: nat): nat {
    Max(now - start, 0) / NANOS
  }

  predicate Expired(now: nat, start: nat) {
    AgeSecs(now, start) >= WINDOW_SECS
  }

  /** One call on the entry of a key: the new entry and the answer. */
  function CheckEntry(entry: Option<Bucket>, max: nat, now: nat): (Bucket, bool) {
    var (count, start) := if entry.None? || Expired(now, entry.value.1) then (0, now) else entry.value;
    if count >= max then ((count, start), false) else ((count + 1, start), true)
  }

  function Lookup(buckets: map<Key, Bucket>, k: Key): Option<Bucket> {
    if k in buckets then Some(buckets[k]) else None
  }

  function CleanedUp(buckets: map<Key, Bucket>, now: nat): map<Key, Bucket> {
    map k | k in buckets && AgeSecs(now, buckets[k].1) < WINDOW_SECS * 2 :: buckets[k]
  }

  datatype Op = Check(key: Key, max: nat, now: nat) | Cleanup(now: nat)

  function Apply(buckets: map<Key, Bucket>, op: Op): (map<Key, Bucket>, bool) {
    match op
    case Check(k, max, now) =>
      var (entry, allowed) := CheckEntry(Lookup(buckets, k), max, now);
      (buckets[k := entry], allowed)
    case Cleanup(now) => (CleanedUp(buckets, now), false)
  }

  class RateLimiter {
    var buckets: map<Key, Bucket>

    constructor ()
      ensures buckets == map[]
    {
      buckets := map[];
    }

    method CheckCall(action: string, key: string, max: nat, now: nat) returns (allowed: bool)
      modifies this
      ensures (buckets, allowed) == Apply(old(buckets), Check((action, key), max, now))
    {
      var bucketKey := (action, key);
      if bucketKey !in buckets {
        buckets := buckets[bucketKey := (0, now)];
      }
      var (count, start) := buckets[bucketKey];
      if AgeSecs(now, start) >= WINDOW_SECS {
        count, start := 0, now;
        buckets := buckets[bucketKey := (count, start)];
      }
      if count >= max {
        assert buckets == old(buckets)[bucketKey := (count, start)];
        return false;
      }
      buckets := buckets[bucketKey := (count + 1, start)];
      assert buckets == old(buckets)[bucketKey := (count + 1, start)];
      allowed := true;
    }

    method CleanupExpired(now: nat)
      modifies this
      ensures buckets == Apply(old(buckets), Cleanup(now)).0
    {
      buckets := map k | k in buckets && AgeSecs(now, buckets[k].1) < WINDOW_SECS * 2 :: buckets[k];
    }
  }

  // ---- Traces ----

  function Run(ops: seq<Op>): map<Key, Bucket> {
    if ops == [] then map[] else Apply(Run(ops[..|ops| - 1]), ops[|ops| - 1]).0
  }

  /** Time of the last operation. */
  function LastTime(ops: seq<Op>): nat {
    if ops == [] then 0 else ops[|ops| - 1].now
  }

  /** Time never goes back. */
  ghost predicate Ordered(ops: seq<Op>) {
    ops != [] ==> Ordered(ops[..|ops| - 1]) && LastTime(ops[..|ops| - 1]) <= LastTime(ops)
  }

  /** The answers given to key `k`, in order. */
  function Answers(ops: seq<Op>, k: Key): seq<bool> {
    if ops == [] then []
    else
      var front, op := ops[..|ops| - 1], ops[|ops| - 1];
      Answers(front, k) + if op.Check? && op.key == k then [Apply(Run(front), op).1] else []
  }

  /** How many calls of key `k` were allowed at times in `[from, until)`. */
  function AllowedIn(ops: seq<Op>, k: Key, from: nat, until: nat): nat {
    if ops == [] then 0
    else
      var front, op := ops[..|ops| - 1], ops[|ops| - 1];
      AllowedIn(front, k, from, until)
      + if op.Check? && op.key == k && from <= op.now < until && Apply(Run(front), op).1 then 1 else 0
  }

  // ---- One key seen alone ----

  /** The maximum and the time of one call. */
  type Call = (nat, nat)

  /** The calls of key `k`, without cleanups and without the other keys. */
  function Own(ops: seq<Op>, k: Key): seq<Call> {
    if ops == [] then []
    else
      var op := ops[|ops| - 1];
      Own(ops[..|ops| - 1], k) + if op.Check? && op.key == k then [(op.max, op.now)] else []
  }

  function OwnEntry(calls: seq<Call>): Option<Bucket> {
    if calls == [] then None
    else
      var c := calls[|calls| - 1];
      Some(CheckEntry(OwnEntry(calls[..|calls| - 1]), c.0, c.1).0)
  }

  function OwnAnswers(calls: seq<Call>): seq<bool> {
    if calls == [] then []
    else
      var front, c := calls[..|calls| - 1], calls[|calls| - 1];
      OwnAnswers(front) + [CheckEntry(OwnEntry(front), c.0, c.1).1]
  }

  function OwnAllowedIn(calls: seq<Call>, from: nat, until: nat): nat {
    if calls == [] then 0
    else
      var front, c := calls[..|calls| - 1], calls[|calls| - 1];
      OwnAllowedIn(front, from, until)
      + if from <= c.1 < until && CheckEntry(OwnEntry(front), c.0, c.1).1 then 1 else 0
  }

  /** An entry that the next call would reset is as good as none. */
  function Live(entry: Option<Bucket>, now: nat): Option<Bucket> {
    if entry.Some? && Expired(now, entry.value.1) then None else entry
  }

  lemma ExpiredStays(now: nat, later: nat, start: nat)
    requires now <= later
    ensures Expired(now, start) ==> Expired(later, start)
    ensures Expired(now, start) <==> now >= start + WINDOW
    ensures AgeSecs(now, start) >= WINDOW_SECS * 2 ==> Expired(now, start)
  {}

  lemma LiveLater(a: Option<Bucket>, b: Option<Bucket>, now: nat, later: nat)
    requires now <= later && Live(a, now) == Live(b, now)
    ensures Live(a, later) == Live(b, later)
  {
    if a.Some? { ExpiredStays(now, later, a.value.1); }
    if b.Some? { ExpiredStays(now, later, b.value.1); }
  }

  lemma CheckSeesLive(a: Option<Bucket>, b: Option<Bucket>, max: nat, now: nat)
    requires Live(a, now) == Live(b, now)
    ensures CheckEntry(a, max, now) == CheckEntry(b, max, now)
  {}

  lemma CleanupKeepsLive(buckets: map<Key, Bucket>, k: Key, now: nat)
    ensures Live(Lookup(CleanedUp(buckets, now), k), now) == Live(Lookup(buckets, k), now)
  {
    if k in buckets {
      ExpiredStays(now, now, buckets[k].1);
    }
  }

  lemma OwnSnoc(own: seq<Call>, c: Call, from: nat, until: nat)
    ensures var (entry, allowed) := CheckEntry(OwnEntry(own), c.0, c.1);
      && OwnEntry(own + [c]) == Some(entry)
      && OwnAnswers(own + [c]) == OwnAnswers(own) + [allowed]
      && OwnAllowedIn(own + [c], from, until) == OwnAllowedIn(own, from, until) + if from <= c.1 < until && allowed then 1 else 0
  {
    assert (own + [c])[..|own|] == own;
  }

  /** The limiter with all its keys and cleanups simulates one bucket per key that is never cleaned. */
  lemma {:induction false} SeenAlone(ops: seq<Op>, k: Key, from: nat, until: nat)
    requires Ordered(ops)
    ensures Live(Lookup(Run(ops), k), LastTime(ops)) == Live(OwnEntry(Own(ops, k)), LastTime(ops))
    ensures Answers(ops, k) == OwnAnswers(Own(ops, k))
    ensures AllowedIn(ops, k, from, until) == OwnAllowedIn(Own(ops, k), from, until)
  {
    hide CheckEntry, Live, CleanedUp, OwnEntry, OwnAnswers, OwnAllowedIn, Lookup;
    if ops == [] {
      NothingSeen(k, from, until);
    } else {
      var front, op := ops[..|ops| - 1], ops[|ops| - 1];
      SeenAlone(front, k, from, until);
      var b, own := Run(front), Own(front, k);
      LiveLater(Lookup(b, k), OwnEntry(own), LastTime(front), op.now);
      if op.Check? {
        LookupUpdate(b, op.key, CheckEntry(Lookup(b, op.key), op.max, op.now).0, k);
      } else {
        CleanupKeepsLive(b, k, op.now);
      }
      if op.Check? && op.key == k {
        CheckSeesLive(Lookup(b, k), OwnEntry(own), op.max, op.now);
        OwnSnoc(own, (op.max, op.now), from, until);
      } else {
        assert Own(ops, k) == own && Answers(ops, k) == Answers(front, k);
      }
    }
  }

  lemma NothingSeen(k: Key, from: nat, until: nat)
    ensures Lookup(Run([]), k) == OwnEntry([]) == None
    ensures OwnAnswers([]) == [] && OwnAllowedIn([], from, until) == 0
  {}

  lemma LookupUpdate(b: map<Key, Bucket>, key: Key, entry: Bucket, k: Key)
    ensures Lookup(b[key := entry], k) == if k == key then Some(entry) else Lookup(b, k)
  {}

  /** Keys do not influence each other: the answers to a key are a function of its own calls. */
  lemma KeysIndependent(xs: seq<Op>, ys: seq<Op>, k: Key)
    requires Ordered(xs) && Ordered(ys) && Own(xs, k) == Own(ys, k)
    ensures Answers(xs, k) == Answers(ys, k)
  {
    SeenAlone(xs, k, 0, 0);
    SeenAlone(ys, k, 0, 0);
  }

  function WithoutCleanups(ops: seq<Op>): seq<Op> {
    if ops == [] then []
    else WithoutCleanups(ops[..|ops| - 1]) + if ops[|ops| - 1].Cleanup? then [] else [ops[|ops| - 1]]
  }

  lemma WithoutCleanupsStep(w: seq<Op>, op: Op, k: Key)
    requires Ordered(w) && LastTime(w) <= op.now
    ensures Ordered(w + [op])
    ensures Own(w + [op], k) == Own(w, k) + if op.Check? && op.key == k then [(op.max, op.now)] else []
  {
    assert (w + [op])[..|w|] == w;
  }

  lemma {:induction false} ChecksOnly(ops: seq<Op>, k: Key)
    requires Ordered(ops)
    ensures Ordered(WithoutCleanups(ops)) && Own(WithoutCleanups(ops), k) == Own(ops, k)
    ensures LastTime(WithoutCleanups(ops)) <= LastTime(ops)
  {
    if ops != [] {
      var front, op := ops[..|ops| - 1], ops[|ops| - 1];
      ChecksOnly(front, k);
      WithoutCleanupsStep(WithoutCleanups(front), op, k);
      if op.Cleanup? {
        assert WithoutCleanups(ops) == WithoutCleanups(front) && Own(ops, k) == Own(front, k);
      }
    }
  }

  /** Cleanups, wherever they are inserted, change no answer. */
  lemma CleanupInvisible(ops: seq<Op>, k: Key)
    requires Ordered(ops)
    ensures Answers(ops, k) == Answers(WithoutCleanups(ops), k)
  {
    ChecksOnly(ops, k);
    KeysIndependent(ops, WithoutCleanups(ops), k);
  }

  // ---- The sliding-window bound ----

  function LastCall(calls: seq<Call>): nat {
    if calls == [] then 0 else calls[|calls| - 1].1
  }

  ghost predicate OrderedCalls(calls: seq<Call>) {
    calls != [] ==> OrderedCalls(calls[..|calls| - 1]) && LastCall(calls[..|calls| - 1]) <= LastCall(calls)
  }

  ghost predicate FixedMax(calls: seq<Call>, max: nat) {
    forall i :: 0 <= i < |calls| ==> calls[i].0 == max
  }

  /** The state of one window, and how many calls since `from` and before `from + WINDOW` it accounts for. */
  ghost predicate WindowInv(calls: seq<Call>, max: nat, from: nat)
    requires calls != [] && OwnEntry(calls).Some?
  {
    var (count, start) := OwnEntry(calls).value;
    var last := calls[|calls| - 1].1;
    var n := OwnAllowedIn(calls, from, from + WINDOW);
    && 1 <= count <= max && start <= last < start + WINDOW
    && (last < from ==> n == 0)
    && (start < from ==> n <= count - 1)
    && (from <= start < from + WINDOW ==> n <= max - 1 + count)
    && n <= 2 * max - 1
  }

  lemma {:induction false} WindowsBound(calls: seq<Call>, max: nat, from: nat)
    requires OrderedCalls(calls) && FixedMax(calls, max) && max >= 1 && calls != []
    ensures OwnEntry(calls).Some? && WindowInv(calls, max, from)
  {
    hide Expired;
    var front, c := calls[..|calls| - 1], calls[|calls| - 1];
    if front != [] {
      WindowsBound(front, max, from);
      ExpiredStays(c.1, c.1, OwnEntry(front).value.1);
    } else {
      assert OwnEntry(front) == None && OwnAllowedIn(front, from, from + WINDOW) == 0;
    }
  }

  lemma {:induction false} ZeroAllowsNothing(calls: seq<Call>, from: nat, until: nat)
    requires FixedMax(calls, 0)
    ensures OwnAllowedIn(calls, from, until) == 0
  {
    if calls != [] {
      ZeroAllowsNothing(calls[..|calls| - 1], from, until);
    }
  }

  lemma OrderedCallsSnoc(calls: seq<Call>, c: Call)
    requires OrderedCalls(calls) && LastCall(calls) <= c.1
    ensures OrderedCalls(calls + [c])
  {
    assert (calls + [c])[..|calls|] == calls;
  }

  lemma {:induction false} OwnOrdered(ops: seq<Op>, k: Key)
    requires Ordered(ops)
    ensures OrderedCalls(Own(ops, k)) && LastCall(Own(ops, k)) <= LastTime(ops)
  {
    if ops != [] {
      var front, op := ops[..|ops| - 1], ops[|ops| - 1];
      OwnOrdered(front, k);
      if op.Check? && op.key == k {
        OrderedCallsSnoc(Own(front, k), (op.max, op.now));
      } else {
        assert Own(ops, k) == Own(front, k);
      }
    }
  }

  /**
   * In any trace, any half-open interval of 60 seconds holds at most `2 * max - 1` allowed calls of a key
   * (none when `max` is zero): one fewer than two full windows.
   */
  lemma SlidingWindowBound(ops: seq<Op>, k: Key, max: nat, from: nat)
    requires Ordered(ops) && FixedMax(Own(ops, k), max)
    ensures AllowedIn(ops, k, from, from + WINDOW) <= Max(2 * max - 1, 0)
  {
    SeenAlone(ops, k, from, from + WINDOW);
    OwnOrdered(ops, k);
    if max == 0 {
      ZeroAllowsNothing(Own(ops, k), from, from + WINDOW);
    } else if Own(ops, k) != [] {
      WindowsBound(Own(ops, k), max, from);
    }
  }

  lemma {:induction false} NoneAfterLast(calls: seq<Call>, from: nat, until: nat)
    requires OrderedCalls(calls) && LastCall(calls) < from
    ensures OwnAllowedIn(calls, from, until) == 0
  {
    if calls != [] {
      NoneAfterLast(calls[..|calls| - 1], from, until);
    }
  }

  /** When the window of the last call began: with that call if the window before it was over, as it was otherwise. */
  function WindowStart(calls: seq<Call>): nat
    requires calls != []
  {
    var front, now := calls[..|calls| - 1], calls[|calls| - 1].1;
    if front == [] || now >= WindowStart(front) + 60_000_000_000 then now else WindowStart(front)
  }

  /** The stored entry is the window of the last call and the number of calls allowed in it, whatever the maxima were. */
  lemma {:induction false} EntryIsWindow(calls: seq<Call>, until: nat)
    requires OrderedCalls(calls) && calls != [] && LastCall(calls) < until
    ensures OwnEntry(calls).Some?
    ensures OwnEntry(calls).value.1 == WindowStart(calls) <= LastCall(calls) < WindowStart(calls) + WINDOW
    ensures OwnAllowedIn(calls, WindowStart(calls), until) == OwnEntry(calls).value.0
  {
    hide Expired;
    var front, c := calls[..|calls| - 1], calls[|calls| - 1];
    if front == [] {
      NothingSeenAlone(c.1, until);
    } else {
      EntryIsWindow(front, until);
      ExpiredStays(c.1, c.1, OwnEntry(front).value.1);
      if Expired(c.1, OwnEntry(front).value.1) {
        NoneAfterLast(front, c.1, until);
      }
    }
  }

  /** Each window holds at most `max` allowed calls, and the stored count is their number. */
  lemma WindowHoldsMax(ops: seq<Op>, k: Key, max: nat)
    requires Ordered(ops) && FixedMax(Own(ops, k), max) && max >= 1 && Own(ops, k) != []
    ensures OwnEntry(Own(ops, k)).Some?
    ensures var (count, start) := OwnEntry(Own(ops, k)).value;
      AllowedIn(ops, k, start, start + WINDOW) == count <= max
  {
    OwnOrdered(ops, k);
    WindowsBound(Own(ops, k), max, 0);
    var (count, start) := OwnEntry(Own(ops, k)).value;
    SeenAlone(ops, k, start, start + WINDOW);
    EntryIsWindow(Own(ops, k), start + WINDOW);
  }

  lemma AnswerIs(ops: seq<Op>, call: Op)
    requires Ordered(ops) && call.Check? && LastTime(ops) <= call.now
    ensures Apply(Run(ops), call).1 == CheckEntry(OwnEntry(Own(ops, call.key)), call.max, call.now).1
    ensures Ordered(ops + [call]) && Own(ops + [call], call.key) == Own(ops, call.key) + [(call.max, call.now)]
  {
    hide CheckEntry, Live;
    SeenAlone(ops, call.key, 0, 0);
    LiveLater(Lookup(Run(ops), call.key), OwnEntry(Own(ops, call.key)), LastTime(ops), call.now);
    CheckSeesLive(Lookup(Run(ops), call.key), OwnEntry(Own(ops, call.key)), call.max, call.now);
    WithoutCleanupsStep(ops, call, call.key);
  }

  /**
   * After any trace of calls on any keys and cleanups, a call is allowed if and only if fewer than its maximum of calls
   * of its key have been allowed since its window began.
   */
  lemma AllowedIff(ops: seq<Op>, call: Op)
    requires Ordered(ops) && call.Check? && LastTime(ops) <= call.now
    ensures Own(ops + [call], call.key) != []
    ensures Apply(Run(ops), call).1 <==>
      AllowedIn(ops, call.key, WindowStart(Own(ops + [call], call.key)), call.now + 1) < call.max
  {
    hide Apply, Run, OwnEntry, OwnAllowedIn, Own, Expired, Ordered;
    AnswerIs(ops, call);
    var own := Own(ops, call.key);
    var start := WindowStart(own + [(call.max, call.now)]);
    OwnOrdered(ops, call.key);
    SeenAlone(ops, call.key, start, call.now + 1);
    assert (own + [(call.max, call.now)])[..|own|] == own;
    if own == [] {
      NothingSeenAlone(start, call.now + 1);
    } else {
      EntryIsWindow(own, call.now + 1);
      ExpiredStays(call.now, call.now, OwnEntry(own).value.1);
      if start == call.now {
        if Expired(call.now, OwnEntry(own).value.1) {
          NoneAfterLast(own, call.now, call.now + 1);
        }
      }
    }
  }

  /** A cleanup drops exactly the entries whose window began two minutes ago or more. */
  lemma CleanupKeepsYoung(buckets: map<Key, Bucket>, now: nat, k: Key)
    ensures k in CleanedUp(buckets, now) <==> k in buckets && now < buckets[k].1 + 120_000_000_000
    ensures k in CleanedUp(buckets, now) ==> CleanedUp(buckets, now)[k] == buckets[k]
  {}

  // ---- The bound is attained ----

  /** `n` calls at time `t`. */
  function Calls(max: nat, t: nat, n: nat): seq<Call> {
    if n == 0 then [] else Calls(max, t, n - 1) + [(max, t)]
  }

  /** One call at 0, the rest of the window at its very end, and a full window right after it. */
  function Tight(max: nat): seq<Call>
    requires max >= 1
  {
    [(max, 0)] + Calls(max, WINDOW - 1, max - 1) + Calls(max, WINDOW, max)
  }

  lemma CallsStep(calls: seq<Call>, max: nat, t: nat, n: nat)
    ensures calls + Calls(max, t, n) == if n == 0 then calls else (calls + Calls(max, t, n - 1)) + [(max, t)]
  {}

  lemma {:induction false} FillWindow(calls: seq<Call>, max: nat, t: nat, n: nat, from: nat, until: nat)
    requires OwnEntry(calls).Some? && !Expired(t, OwnEntry(calls).value.1)
    requires OwnEntry(calls).value.0 + n <= max && from <= t < until
    ensures OwnEntry(calls + Calls(max, t, n)) == Some((OwnEntry(calls).value.0 + n, OwnEntry(calls).value.1))
    ensures OwnAllowedIn(calls + Calls(max, t, n), from, until) == OwnAllowedIn(calls, from, until) + n
  {
    hide OwnEntry, OwnAllowedIn, Calls;
    CallsStep(calls, max, t, n);
    if n > 0 {
      FillWindow(calls, max, t, n - 1, from, until);
      OwnSnoc(calls + Calls(max, t, n - 1), (max, t), from, until);
    }
  }

  lemma TightCount(max: nat)
    requires max >= 1
    ensures OwnAllowedIn(Tight(max), 1, 1 + WINDOW) == 2 * max - 1
  {
    hide OwnAllowedIn, Calls, OwnEntry;
    var first: seq<Call> := [(max, 0)];
    NothingSeenAlone(1, 1 + WINDOW);
    OwnSnoc([], (max, 0), 1, 1 + WINDOW);
    assert [] + first == first;
    FillWindow(first, max, WINDOW - 1, max - 1, 1, 1 + WINDOW);
    var second := first + Calls(max, WINDOW - 1, max - 1);
    OwnSnoc(second, (max, WINDOW), 1, 1 + WINDOW);
    FillWindow(second + [(max, WINDOW)], max, WINDOW, max - 1, 1, 1 + WINDOW);
    CallsCons(max, WINDOW, max - 1);
    assert second + Calls(max, WINDOW, max) == (second + [(max, WINDOW)]) + Calls(max, WINDOW, max - 1);
  }

  lemma {:induction false} CallsAppend(calls: seq<Call>, max: nat, t: nat, n: nat)
    requires OrderedCalls(calls) && FixedMax(calls, max) && LastCall(calls) <= t
    ensures OrderedCalls(calls + Calls(max, t, n)) && FixedMax(calls + Calls(max, t, n), max)
    ensures LastCall(calls + Calls(max, t, n)) <= t
  {
    hide OrderedCalls, Calls;
    CallsStep(calls, max, t, n);
    if n > 0 {
      CallsAppend(calls, max, t, n - 1);
      OrderedCallsSnoc(calls + Calls(max, t, n - 1), (max, t));
    }
  }

  /** The calls as a trace of the limiter. */
  function AsChecks(calls: seq<Call>, k: Key): seq<Op> {
    if calls == [] then [] else AsChecks(calls[..|calls| - 1], k) + [Check(k, calls[|calls| - 1].0, calls[|calls| - 1].1)]
  }

  lemma {:induction false} ChecksAreOwn(calls: seq<Call>, k: Key)
    requires OrderedCalls(calls)
    ensures Ordered(AsChecks(calls, k)) && Own(AsChecks(calls, k), k) == calls && LastTime(AsChecks(calls, k)) == LastCall(calls)
  {
    if calls != [] {
      var front, c := calls[..|calls| - 1], calls[|calls| - 1];
      ChecksAreOwn(front, k);
      WithoutCleanupsStep(AsChecks(front, k), Check(k, c.0, c.1), k);
    }
  }

  /** For every maximum some trace of one key has exactly `2 * max - 1` allowed calls within 60 seconds. */
  lemma SlidingWindowTight(k: Key, max: nat)
    requires max >= 1
    ensures var ops := AsChecks(Tight(max), k);
      Ordered(ops) && FixedMax(Own(ops, k), max) && AllowedIn(ops, k, 1, 1 + WINDOW) == 2 * max - 1
  {
    hide OwnAllowedIn, Calls, OwnEntry, AllowedIn, AsChecks, Own, Ordered;
    var first: seq<Call> := [(max, 0)];
    assert OrderedCalls(first) by {
      OrderedCallsSnoc([], (max, 0));
      assert [] + first == first;
    }
    CallsAppend(first, max, WINDOW - 1, max - 1);
    CallsAppend(first + Calls(max, WINDOW - 1, max - 1), max, WINDOW, max);
    ChecksAreOwn(Tight(max), k);
    SeenAlone(AsChecks(Tight(max), k), k, 1, 1 + WINDOW);
    TightCount(max);
  }

  lemma NothingSeenAlone(from: nat, until: nat)
    ensures OwnEntry([]) == None && OwnAllowedIn([], from, until) == 0
  {}

  lemma {:induction false} CallsCons(max: nat, t: nat, n: nat)
    ensures Calls(max, t, n + 1) == [(max, t)] + Calls(max, t, n)
  {
    if n > 0 {
      CallsCons(max, t, n - 1);
    }
  }
}
