/**
 * The send phase of transport/sender.rs on Linux: packets are packed into super-buffers of at most
 * 64 equal-sized segments, each handed to one sendmsg call, with pacing after every full one.
 */
module Gso {
  import opened Prelude

  const GSO_BATCH := 64
  const NS_PER_S := 1_000_000_000
  /** Shortfalls up to this many nanoseconds are not slept off. */
  const PACING_SLACK := 10_000

  /** Time only moves forward, by any amount, and a sleep lasts at least as long as requested. */
  class Clock {
    var now: nat
    /** How much sleep has been requested. */
    ghost var slept: nat

    constructor ()
      ensures now == slept == 0
    {
      now, slept := 0, 0;
    }

    method Elapsed() returns (t: nat)
      modifies this
      ensures t == now >= old(now) && slept == old(slept)
    {
      var passed: nat :| passed >= 0;
      now := now + passed;
      t := now;
    }

    method Sleep(ns: nat)
      modifies this
      ensures now >= old(now) + ns && slept == old(slept) + ns
    {
      var late: nat :| late >= 0;
      now, slept := now + ns + late, slept + ns;
    }
  }

  /** One sendmsg call: the super-buffer, the segment size given to the kernel, and when it was made. */
  datatype Flush = Flush(buf: Bytes, segment: nat, count: nat, at: nat)

  /** What the kernel puts on the wire for one super-buffer; a segment size of zero means no cutting. */
  function Cut(buf: Bytes, segment: nat): seq<Bytes> {
    if buf == [] then []
    else if segment == 0 || |buf| <= segment then [buf]
    else [buf[..segment]] + Cut(buf[segment..], segment)
  }

  function OnWire(flushes: seq<Flush>): seq<Bytes> {
    if flushes == [] then []
    else
      var last := flushes[|flushes| - 1];
      OnWire(flushes[..|flushes| - 1]) + Cut(last.buf, last.segment)
  }

  function BytesOf(flushes: seq<Flush>): nat {
    if flushes == [] then 0 else BytesOf(flushes[..|flushes| - 1]) + |flushes[|flushes| - 1].buf|
  }

  /** The packets that `pkt_index` names in `wire_buf`. */
  function Packets(wire: Bytes, index: seq<(nat, nat)>): (r: seq<Bytes>)
    requires forall p :: p in index ==> p.0 + p.1 <= |wire|
    ensures |r| == |index|
    ensures forall i :: 0 <= i < |index| ==> r[i] == wire[index[i].0..index[i].0 + index[i].1]
  {
    seq(|index|, i requires 0 <= i < |index| => assert index[i] in index; wire[index[i].0..index[i].0 + index[i].1])
  }

  ghost predicate AllOfSize(ps: seq<Bytes>, n: nat) {
    forall i :: 0 <= i < |ps| ==> |ps[i]| == n
  }

  lemma {:induction false} FlattenSize(ps: seq<Bytes>, n: nat)
    requires AllOfSize(ps, n)
    ensures |Flatten(ps)| == |ps| * n
  {
    if ps != [] {
      FlattenSize(ps[..|ps| - 1], n);
      assert |ps| * n == (|ps| - 1) * n + n;
    }
  }

  lemma {:induction false} CutSnoc(buf: Bytes, p: Bytes, segment: nat, k: nat)
    requires segment > 0 && |p| == segment
    requires |buf| == k * segment
    ensures Cut(buf + p, segment) == Cut(buf, segment) + [p]
  {
    if k == 0 {
      assert buf + p == p;
    } else {
      assert k * segment == (k - 1) * segment + segment;
      var tail := buf[segment..];
      CutSnoc(tail, p, segment, k - 1);
      assert (buf + p)[..segment] == buf[..segment];
      assert (buf + p)[segment..] == tail + p;
      if k == 1 {
        assert tail == [] && buf == buf[..segment];
        assert Cut(tail + p, segment) == [p];
      }
    }
  }

  /** Cutting a super-buffer of equal-sized packets gives those packets back. */
  lemma {:induction false} CutInvertsConcatenation(ps: seq<Bytes>, segment: nat)
    requires segment > 0 && AllOfSize(ps, segment)
    ensures Cut(Flatten(ps), segment) == ps
  {
    if ps != [] {
      var front := ps[..|ps| - 1];
      CutInvertsConcatenation(front, segment);
      FlattenSize(front, segment);
      CutSnoc(Flatten(front), ps[|ps| - 1], segment, |front|);
      assert front + [ps[|ps| - 1]] == ps;
    }
  }

  /** One flush: 1 to 64 packets of one size. */
  ghost predicate ValidFlush(f: Flush) {
    f.segment > 0 && 1 <= f.count <= GSO_BATCH && |f.buf| == f.count * f.segment
  }

  /** No flush is cut short except by a change of packet size. */
  ghost predicate Greedy(flushes: seq<Flush>) {
    |flushes| >= 2 ==>
      var front, last := flushes[..|flushes| - 1], flushes[|flushes| - 1];
      Greedy(front) && (front[|front| - 1].count == GSO_BATCH || front[|front| - 1].segment != last.segment)
  }

  /** The time that `bytes` should take at `rate` bytes per second. */
  function ExpectedNs(bytes: nat, rate: nat): nat
    requires rate > 0
  {
    bytes * NS_PER_S / rate
  }

  /** `bytes` are not ahead of the rate, unless their time overflows 64 bits of nanoseconds (584 years). */
  ghost predicate Paced(bytes: nat, rate: nat, now: nat)
    requires rate > 0
  {
    ExpectedNs(bytes, rate) < U64 ==> ExpectedNs(bytes, rate) <= now + PACING_SLACK
  }

  /** Whatever follows a full batch is sent no earlier than the bytes up to that batch allow. */
  ghost predicate PacedAfterFullBatches(flushes: seq<Flush>, rate: nat)
    requires rate > 0
  {
    |flushes| >= 2 ==>
      var front, last := flushes[..|flushes| - 1], flushes[|flushes| - 1];
      && PacedAfterFullBatches(front, rate)
      && (front[|front| - 1].count == GSO_BATCH ==> Paced(BytesOf(front), rate, last.at))
  }

  /** What the next flush must satisfy for the run to stay greedy and paced. */
  ghost predicate Continues(flushes: seq<Flush>, segment: nat, rate: nat, now: nat)
    requires rate > 0
  {
    flushes != [] ==>
      var last := flushes[|flushes| - 1];
      && (last.count == GSO_BATCH || last.segment != segment)
      && (last.count == GSO_BATCH ==> Paced(BytesOf(flushes), rate, now))
  }

  lemma FlushKeeps(flushes: seq<Flush>, f: Flush, rate: nat)
    requires rate > 0
    requires Greedy(flushes) && PacedAfterFullBatches(flushes, rate)
    requires Continues(flushes, f.segment, rate, f.at)
    ensures Greedy(flushes + [f]) && PacedAfterFullBatches(flushes + [f], rate)
  {
    assert (flushes + [f])[..|flushes|] == flushes;
  }

  /** What is known of the calls made so far. */
  ghost predicate Log(flushes: seq<Flush>, rate: nat)
    requires rate > 0
  {
    && (forall f :: f in flushes ==> ValidFlush(f))
    && Greedy(flushes)
    && PacedAfterFullBatches(flushes, rate)
  }

  /** Between full batches nothing is pending. */
  ghost predicate Resting(flushes: seq<Flush>, rate: nat, now: nat)
    requires rate > 0
  {
    flushes != [] ==> flushes[|flushes| - 1].count == GSO_BATCH && Paced(BytesOf(flushes), rate, now)
  }

  lemma FlushDelivers(flushes: seq<Flush>, batch: seq<Bytes>, f: Flush)
    requires 1 <= |batch| <= GSO_BATCH && f.segment > 0 && AllOfSize(batch, f.segment)
    requires f.buf == Flatten(batch) && f.count == |batch|
    ensures ValidFlush(f)
    ensures OnWire(flushes + [f]) == OnWire(flushes) + batch
    ensures BytesOf(flushes + [f]) == BytesOf(flushes) + |f.buf|
  {
    FlattenSize(batch, f.segment);
    CutInvertsConcatenation(batch, f.segment);
    assert (flushes + [f])[..|flushes|] == flushes;
  }

  /** The bookkeeping of one call. */
  lemma FlushStep(flushes: seq<Flush>, batch: seq<Bytes>, f: Flush, rate: nat)
    requires rate > 0 && Log(flushes, rate)
    requires 1 <= |batch| <= GSO_BATCH && f.segment > 0 && AllOfSize(batch, f.segment)
    requires f.buf == Flatten(batch) && f.count == |batch|
    requires Continues(flushes, f.segment, rate, f.at)
    ensures Log(flushes + [f], rate)
    ensures OnWire(flushes + [f]) == OnWire(flushes) + batch
    ensures BytesOf(flushes + [f]) == BytesOf(flushes) + |f.buf|
  {
    FlushDelivers(flushes, batch, f);
    FlushKeeps(flushes, f, rate);
  }

  /** The variables of the send loop. `plan` lists the packets to send, `batch` those in `superBuf`. */
  class Batcher {
    const rate: nat
    const clock: Clock
    var superBuf: Bytes
    var pktSize: nat
    var batchCount: nat
    var bytesSent: nat
    var packetsSent: nat
    var flushes: seq<Flush>
    ghost var batch: seq<Bytes>
    ghost const plan: seq<Bytes>

    /** Every packet accepted so far, on the wire or waiting. */
    ghost function Accepted(): seq<Bytes>
      reads this
    {
      OnWire(flushes) + batch
    }

    ghost predicate Counted()
      reads this
    {
      && rate > 0
      && Accepted() <= plan
      && Log(flushes, rate)
      && superBuf == Flatten(batch) && batchCount == |batch| && AllOfSize(batch, pktSize)
      && packetsSent == |OnWire(flushes)| && bytesSent == BytesOf(flushes)
    }

    ghost predicate Valid()
      reads this, clock
    {
      && Counted() && batchCount < GSO_BATCH
      && if batch == [] then Resting(flushes, rate, clock.now)
         else pktSize > 0 && Continues(flushes, pktSize, rate, clock.now)
    }

    constructor (rate: nat, clock: Clock, ghost plan: seq<Bytes>)
      requires rate > 0
      ensures Valid() && this.rate == rate && this.clock == clock && this.plan == plan
      ensures Accepted() == [] && flushes == []
    {
      this.rate := rate;
      this.clock := clock;
      this.plan := plan;
      superBuf, pktSize, batchCount, bytesSent, packetsSent, flushes := [], 0, 0, 0, 0, [];
      batch := [];
    }

    /** One sendmsg call; `ok` is its outcome. */
    method SendBatch(ok: bool)
      requires Counted() && 1 <= batchCount <= GSO_BATCH && pktSize > 0
      requires Continues(flushes, pktSize, rate, clock.now)
      modifies this
      ensures Counted()
      ensures !ok ==> flushes == old(flushes) && batch == old(batch)
      ensures ok ==> batch == [] && OnWire(flushes) == Accepted() == old(Accepted())
      ensures ok ==> flushes == old(flushes) + [Flush(old(superBuf), old(pktSize), old(batchCount), clock.now)]
    {
      if ok {
        var f := Flush(superBuf, pktSize, batchCount, clock.now);
        FlushStep(flushes, batch, f, rate);
        flushes := flushes + [f];
        bytesSent := bytesSent + |superBuf|;
        packetsSent := packetsSent + batchCount;
        superBuf, batchCount := [], 0;
        batch := [];
      }
    }

    method Append(packet: Bytes)
      requires Counted() && batchCount < GSO_BATCH && |packet| == pktSize
      requires |Accepted()| < |plan| && packet == plan[|Accepted()|]
      modifies this`superBuf, this`batchCount, this`batch
      ensures Counted() && batch == old(batch) + [packet]
    {
      FlattenAppend(batch, packet);
      superBuf := superBuf + packet;
      batchCount := batchCount + 1;
      ghost var before := Accepted();
      batch := batch + [packet];
      assert Accepted() == before + [packet];
    }

    /** The kernel cuts at one size, so a change of size ends the batch. */
    method MakeRoom(len: nat, sendOk: nat -> bool) returns (ok: bool)
      requires Valid()
      modifies this
      ensures Counted()
      ensures ok ==> Accepted() == old(Accepted()) && pktSize == len && batchCount < GSO_BATCH
      ensures ok ==> Continues(flushes, len, rate, clock.now)
    {
      ok := true;
      if batchCount == 0 {
        pktSize := len;
      }
      if len != pktSize && batchCount > 0 {
        ok := sendOk(|flushes|);
        SendBatch(ok);
        if ok {
          pktSize := len;
        }
      }
    }

    method SendIfFull(sendOk: nat -> bool) returns (ok: bool)
      requires Counted() && 1 <= batchCount <= GSO_BATCH && pktSize > 0
      requires Continues(flushes, pktSize, rate, clock.now)
      modifies this, clock
      ensures Counted()
      ensures ok ==> Valid() && |Accepted()| == old(|Accepted()|)
    {
      ok := true;
      if batchCount >= GSO_BATCH {
        ok := sendOk(|flushes|);
        SendBatch(ok);
        if ok {
          Pace(bytesSent, rate, clock);
        }
      }
    }

    /** One turn of the loop. */
    method Push(packet: Bytes, sendOk: nat -> bool) returns (ok: bool)
      requires Valid() && packet != []
      requires |Accepted()| < |plan| && packet == plan[|Accepted()|]
      modifies this, clock
      ensures Counted()
      ensures ok ==> Valid() && |Accepted()| == old(|Accepted()|) + 1
    {
      ok := MakeRoom(|packet|, sendOk);
      if ok {
        Append(packet);
        ok := SendIfFull(sendOk);
      }
    }

    /** After the loop: whatever is left goes out in one last call. */
    method Finish(sendOk: nat -> bool) returns (ok: bool)
      requires Valid() && |Accepted()| == |plan|
      modifies this
      ensures Counted()
      ensures ok ==> OnWire(flushes) == plan
      ensures ok && flushes != [] && flushes[|flushes| - 1].count == GSO_BATCH ==> Paced(bytesSent, rate, clock.now)
    {
      ok := true;
      if batchCount > 0 {
        ok := sendOk(|flushes|);
        SendBatch(ok);
      }
    }
  }

  /** The send loop. */
  method PushAll(b: Batcher, wire: Bytes, index: seq<(nat, nat)>, sendOk: nat -> bool) returns (ok: bool)
    requires forall p :: p in index ==> p.1 > 0 && p.0 + p.1 <= |wire|
    requires b.Valid() && b.Accepted() == [] && b.plan == Packets(wire, index)
    modifies b, b.clock
    ensures b.Counted()
    ensures ok ==> b.Valid() && |b.Accepted()| == |b.plan|
  {
    for i := 0 to |index|
      invariant b.Valid() && |b.Accepted()| == i
    {
      assert index[i] in index;
      var (offset, len) := index[i];
      ok := b.Push(wire[offset..offset + len], sendOk);
      if !ok {
        return;
      }
    }
    ok := true;
  }

  /**
   * `sendOk(k)` says whether the k-th sendmsg call succeeds; an error ends the blast. On success
   * the packets on the wire are exactly those of `pkt_index`, in order; on error, a prefix of them.
   */
  method Blast(wire: Bytes, index: seq<(nat, nat)>, rate: nat, clock: Clock, sendOk: nat -> bool)
    returns (ok: bool, bytesSent: nat, packetsSent: nat, flushes: seq<Flush>)
    requires rate > 0
    requires forall p :: p in index ==> p.1 > 0 && p.0 + p.1 <= |wire|
    modifies clock
    ensures Log(flushes, rate)
    ensures if ok then OnWire(flushes) == Packets(wire, index) else OnWire(flushes) <= Packets(wire, index)
    ensures packetsSent == |OnWire(flushes)| && bytesSent == BytesOf(flushes)
    ensures ok && flushes != [] && flushes[|flushes| - 1].count == GSO_BATCH ==> Paced(bytesSent, rate, clock.now)
  {
    var b := new Batcher(rate, clock, Packets(wire, index));
    ok := PushAll(b, wire, index, sendOk);
    if ok {
      ok := b.Finish(sendOk);
    }
    bytesSent, packetsSent, flushes := b.bytesSent, b.packetsSent, b.flushes;
  }

  /** Being paced, without quotients: `bytes` take at least their time at `rate`, less ten microseconds. */
  lemma PacedMeans(bytes: nat, rate: nat, now: nat)
    requires rate > 0 && Paced(bytes, rate, now)
    ensures bytes * 1_000_000_000 < U64 * rate ==> bytes * 1_000_000_000 < (now + 10_001) * rate
  {
    var ns := bytes * 1_000_000_000;
    DivModFacts(ns, rate);
    var q := ExpectedNs(bytes, rate);
    assert q * rate <= ns < q * rate + rate;
    if ns < U64 * rate {
      if U64 <= q {
        MulMono(U64, q, rate);
      }
      MulMono(q + 1, now + 10_001, rate);
    }
  }

  /** The time computed never exceeds what the rate asks for. */
  lemma ExpectedAtMost(bytes: nat, rate: nat, ns: nat)
    requires rate > 0 && ns <= ExpectedNs(bytes, rate)
    ensures ns * rate <= bytes * 1_000_000_000
  {
    DivModFacts(bytes * 1_000_000_000, rate);
    MulMono(ns, ExpectedNs(bytes, rate), rate);
  }

  /**
   * The check after a full batch. The sleep is cast to 64 bits. It lasts at least until the bytes sent are due, less ten
   * microseconds, and is never asked to last longer than that.
   */
  method Pace(bytesSent: nat, rate: nat, clock: Clock)
    requires rate > 0
    modifies clock
    ensures clock.now >= old(clock.now)
    ensures Paced(bytesSent, rate, clock.now)
    ensures bytesSent * 1_000_000_000 < U64 * rate ==> bytesSent * 1_000_000_000 < (clock.now + 10_001) * rate
    ensures old(clock.slept) <= clock.slept
    ensures clock.slept != old(clock.slept) ==>
      (old(clock.now) + (clock.slept - old(clock.slept))) * rate <= bytesSent * 1_000_000_000
  {
    var actualNs := clock.Elapsed();
    var expectedNs := ExpectedNs(bytesSent, rate);
    if actualNs < expectedNs {
      var sleepNs := expectedNs - actualNs;
      if sleepNs > PACING_SLACK {
        clock.Sleep(sleepNs % U64);
        ExpectedAtMost(bytesSent, rate, old(clock.now) + sleepNs % U64);
      }
    }
    PacedMeans(bytesSent, rate, clock.now);
  }

  // ---- What greed and pacing give when all packets have one size ----

  /** With one packet size every flush but the last is full. */
  lemma {:induction false} UniformFlushesFull(flushes: seq<Flush>, size: nat, j: nat)
    requires Greedy(flushes)
    requires forall f :: f in flushes ==> f.segment == size
    requires j + 1 < |flushes|
    ensures flushes[j].count == GSO_BATCH
  {
    var front, last := flushes[..|flushes| - 1], flushes[|flushes| - 1];
    if j + 1 < |front| {
      UniformFlushesFull(front, size, j);
    } else {
      assert flushes[j] in flushes && last in flushes;
      assert front[|front| - 1] == flushes[j];
    }
  }

  function Counts(flushes: seq<Flush>): nat {
    if flushes == [] then 0 else Counts(flushes[..|flushes| - 1]) + flushes[|flushes| - 1].count
  }

  lemma {:induction false} FullCounts(flushes: seq<Flush>)
    requires forall j :: 0 <= j < |flushes| ==> flushes[j].count == GSO_BATCH
    ensures Counts(flushes) == GSO_BATCH * |flushes|
  {
    if flushes != [] {
      FullCounts(flushes[..|flushes| - 1]);
    }
  }

  /** One system call per 64 packets, rounded up. */
  lemma UniformCallCount(flushes: seq<Flush>, size: nat)
    requires Greedy(flushes)
    requires forall f :: f in flushes ==> ValidFlush(f) && f.segment == size
    ensures |flushes| == CeilDiv(Counts(flushes), 64)
  {
    if flushes != [] {
      var front, last := flushes[..|flushes| - 1], flushes[|flushes| - 1];
      assert last in flushes;
      forall j | 0 <= j < |front|
        ensures front[j].count == GSO_BATCH
      {
        UniformFlushesFull(flushes, size, j);
      }
      FullCounts(front);
    }
  }

  lemma {:induction false} PacedAt(flushes: seq<Flush>, rate: nat, j: nat)
    requires rate > 0 && PacedAfterFullBatches(flushes, rate)
    requires 0 < j < |flushes| && flushes[j - 1].count == GSO_BATCH
    ensures Paced(BytesOf(flushes[..j]), rate, flushes[j].at)
  {
    var front := flushes[..|flushes| - 1];
    if j < |front| {
      PacedAt(front, rate, j);
      assert front[..j] == flushes[..j];
    } else {
      assert front == flushes[..j];
    }
  }

  /**
   * With one packet size, at every system call the bytes already handed over respect the rate, and
   * the bytes including that call exceed the allowance by at most one batch.
   */
  lemma UniformPacing(flushes: seq<Flush>, size: nat, rate: nat, j: nat)
    requires rate > 0
    requires Log(flushes, rate)
    requires forall f :: f in flushes ==> f.segment == size
    requires j < |flushes|
    ensures var sent := BytesOf(flushes[..j]);
      sent * 1_000_000_000 < U64 * rate ==> sent * 1_000_000_000 < (flushes[j].at + 10_001) * rate
    ensures BytesOf(flushes[..j + 1]) <= BytesOf(flushes[..j]) + 64 * size
  {
    if j > 0 {
      UniformFlushesFull(flushes, size, j - 1);
      PacedAt(flushes, rate, j);
    } else {
      assert flushes[..0] == [];
      DivModFacts(0, rate);
      assert Paced(BytesOf(flushes[..0]), rate, flushes[0].at);
    }
    PacedMeans(BytesOf(flushes[..j]), rate, flushes[j].at);
    assert flushes[..j + 1][..j] == flushes[..j];
    assert flushes[j] in flushes;
    MulMono(flushes[j].count, GSO_BATCH, size);
  }
}
