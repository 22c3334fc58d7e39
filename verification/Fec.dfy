/**
 * fec/mod.rs over an abstract fountain code: symbol counts of the encoder, bookkeeping of the
 * decoder, and the adaptive repair ratio.
 */
module Fec {
  import opened Prelude

  const SYMBOL_SIZE := 900

  /**
   * What updown relies on of RaptorQ. An object of a given length is split into `blocks` source
   * blocks; source block `z` needs `k` symbols; `symbol(data, z, i)` is the serialized packet with
   * encoding symbol id `i` (source symbols first, repair symbols after them); `decode` gets the
   * object length and the set of packets received.
   */
  datatype Codec = Codec(
    blocks: nat -> nat,
    k: (nat, nat) -> nat,
    symbol: (Bytes, nat, nat) -> Bytes,
    decode: (nat, set<Bytes>) -> Option<Bytes>)

  ghost predicate IsSymbol(c: Codec, data: Bytes, p: Bytes) {
    exists z, i :: c.symbol(data, z, i) == p
  }

  ghost predicate SymbolsOf(c: Codec, data: Bytes, s: set<Bytes>) {
    forall p :: p in s ==> IsSymbol(c, data, p)
  }

  /** Source block `z` has at least as many distinct symbols in `s` as it needs. */
  ghost predicate Enough(c: Codec, data: Bytes, s: set<Bytes>, z: nat) {
    exists ids: set<nat> :: |ids| >= c.k(|data|, z) && HasSymbols(c, data, s, z, ids)
  }

  ghost predicate HasSymbols(c: Codec, data: Bytes, s: set<Bytes>, z: nat, ids: set<nat>) {
    forall i :: i in ids ==> c.symbol(data, z, i) in s
  }

  /** Decoding symbols of one object never yields anything else, and more symbols never hurt. */
  ghost predicate Lawful(c: Codec) {
    && (forall data: Bytes, s: set<Bytes> :: SymbolsOf(c, data, s) && c.decode(|data|, s).Some? ==> c.decode(|data|, s).value == data)
    && (forall data: Bytes, s: set<Bytes>, t: set<Bytes> ::
          SymbolsOf(c, data, t) && s <= t && c.decode(|data|, s).Some? ==> c.decode(|data|, t).Some?)
  }

  /** An ideal code decodes from any K distinct symbols of every source block. */
  ghost predicate Ideal(c: Codec) {
    && Lawful(c)
    && (forall data: Bytes, s: set<Bytes> ::
          data != [] && SymbolsOf(c, data, s) && (forall z: nat :: z < c.blocks(|data|) ==> Enough(c, data, s, z)) ==>
          c.decode(|data|, s).Some?)
  }

  lemma IdealIsLawful(c: Codec)
    requires Ideal(c)
    ensures Lawful(c)
  {}

  // ---- The laws are satisfiable: a code whose symbols carry the whole object ----

  function FullSymbol(data: Bytes, z: nat, i: nat): Bytes {
    data + Zeros(i)
  }

  function FullK(len: nat, z: nat): nat {
    CeilDiv(len, SYMBOL_SIZE)
  }

  ghost function FullCodec(): Codec {
    Codec(_ => 1, FullK, FullSymbol, FullDecode)
  }

  ghost predicate FullHas(data: Bytes, s: set<Bytes>, ids: set<nat>) {
    |ids| >= FullK(|data|, 0) && forall i :: i in ids ==> FullSymbol(data, 0, i) in s
  }

  /** `s` consists of symbols of `data`, and holds enough of them. */
  ghost predicate FullDecodes(data: Bytes, s: set<Bytes>) {
    && data != []
    && (forall p :: p in s ==> data <= p)
    && (exists ids :: FullHas(data, s, ids))
  }

  ghost function FullDecode(len: nat, s: set<Bytes>): Option<Bytes> {
    if exists data: Bytes :: |data| == len && FullDecodes(data, s) then
      var data: Bytes :| |data| == len && FullDecodes(data, s);
      Some(data)
    else
      None
  }

  lemma FullSymbolsOf(data: Bytes, s: set<Bytes>)
    requires SymbolsOf(FullCodec(), data, s)
    ensures forall p :: p in s ==> data <= p
  {
    forall p | p in s
      ensures data <= p
    {
      assert IsSymbol(FullCodec(), data, p);
    }
  }

  lemma FullDecodeSound(data: Bytes, s: set<Bytes>)
    requires SymbolsOf(FullCodec(), data, s)
    requires FullDecode(|data|, s).Some?
    ensures FullDecode(|data|, s).value == data
    ensures FullDecodes(data, s)
  {
    FullSymbolsOf(data, s);
    var d := FullDecode(|data|, s).value;
    assert |d| == |data| && FullDecodes(d, s);
    var ids :| FullHas(d, s, ids);
    assert FullK(|d|, 0) >= 1;
    assert ids != {};
    var i :| i in ids;
    assert FullSymbol(d, 0, i) in s;
  }

  lemma FullDecodeMonotone(data: Bytes, s: set<Bytes>, t: set<Bytes>)
    requires SymbolsOf(FullCodec(), data, t) && s <= t
    requires FullDecode(|data|, s).Some?
    ensures FullDecode(|data|, t).Some?
  {
    FullSymbolsOf(data, t);
    FullDecodeSound(data, s);
    var ids :| FullHas(data, s, ids);
    assert FullHas(data, t, ids);
    assert FullDecodes(data, t);
  }

  lemma FullDecodeComplete(data: Bytes, s: set<Bytes>)
    requires data != [] && SymbolsOf(FullCodec(), data, s)
    requires Enough(FullCodec(), data, s, 0)
    ensures FullDecode(|data|, s).Some?
  {
    FullSymbolsOf(data, s);
    var ids: set<nat> :| |ids| >= FullCodec().k(|data|, 0) && HasSymbols(FullCodec(), data, s, 0, ids);
    forall i | i in ids
      ensures FullSymbol(data, 0, i) in s
    {
      assert FullCodec().symbol(data, 0, i) in s;
    }
    assert FullHas(data, s, ids);
    assert FullDecodes(data, s);
  }

  lemma IdealCodecExists()
    ensures Ideal(FullCodec())
  {
    var c := FullCodec();
    forall data: Bytes, s: set<Bytes> | SymbolsOf(c, data, s) && c.decode(|data|, s).Some?
      ensures c.decode(|data|, s).value == data
    {
      FullDecodeSound(data, s);
    }
    forall data: Bytes, s: set<Bytes>, t: set<Bytes> | SymbolsOf(c, data, t) && s <= t && c.decode(|data|, s).Some?
      ensures c.decode(|data|, t).Some?
    {
      FullDecodeMonotone(data, s, t);
    }
    forall data: Bytes, s: set<Bytes> |
      data != [] && SymbolsOf(c, data, s) && (forall z: nat :: z < c.blocks(|data|) ==> Enough(c, data, s, z))
      ensures c.decode(|data|, s).Some?
    {
      assert 0 < c.blocks(|data|);
      FullDecodeComplete(data, s);
    }
  }

  // ---- The encoder ----

  /** `(num_source as f32 * ratio).ceil() as u32`: a negative product saturates at zero. */
  function NumRepair(k: nat, ratio: real): (r: nat)
    ensures r as real >= k as real * ratio
    ensures r > 0 ==> (r - 1) as real < k as real * ratio
  {
    var x := k as real * ratio;
    if x <= 0.0 then 0 else -((-x).Floor)
  }

  function SymbolCount(c: Codec, len: nat, ratio: real, z: nat): nat {
    c.k(len, z) + NumRepair(c.k(len, z), ratio)
  }

  /** The packets of the first `n` source blocks: source symbols, then repair symbols, block after block. */
  function EncodeUpTo(c: Codec, data: Bytes, ratio: real, n: nat): seq<Bytes> {
    if n == 0 then []
    else EncodeUpTo(c, data, ratio, n - 1)
         + seq(SymbolCount(c, |data|, ratio, n - 1), (i: nat) => c.symbol(data, n - 1, i))
  }

  function Encoded(c: Codec, data: Bytes, ratio: real): seq<Bytes> {
    EncodeUpTo(c, data, ratio, c.blocks(|data|))
  }

  /** Where the symbols of source block `z` start in the encoded list. */
  function BlockStart(c: Codec, data: Bytes, ratio: real, z: nat): nat {
    |EncodeUpTo(c, data, ratio, z)|
  }

  lemma {:induction false} EncodedAt(c: Codec, data: Bytes, ratio: real, n: nat, z: nat, i: nat)
    requires z < n
    requires i < SymbolCount(c, |data|, ratio, z)
    ensures BlockStart(c, data, ratio, z) + i < |EncodeUpTo(c, data, ratio, n)|
    ensures EncodeUpTo(c, data, ratio, n)[BlockStart(c, data, ratio, z) + i] == c.symbol(data, z, i)
  {
    if z < n - 1 {
      EncodedAt(c, data, ratio, n - 1, z, i);
    }
  }

  /** Nothing but symbols of the object is ever sent for it. */
  lemma {:induction false} EncodedAreSymbols(c: Codec, data: Bytes, ratio: real, n: nat)
    ensures forall j :: 0 <= j < |EncodeUpTo(c, data, ratio, n)| ==> IsSymbol(c, data, EncodeUpTo(c, data, ratio, n)[j])
  {
    if n > 0 {
      EncodedAreSymbols(c, data, ratio, n - 1);
      var start := BlockStart(c, data, ratio, n - 1);
      var all := EncodeUpTo(c, data, ratio, n);
      forall j | 0 <= j < |all|
        ensures IsSymbol(c, data, all[j])
      {
        if j >= start {
          assert all[j] == c.symbol(data, n - 1, j - start);
        }
      }
    }
  }

  lemma {:induction false} KeptIds(n: nat, start: nat, lost: set<nat>) returns (kept: set<nat>)
    ensures forall i :: i in kept ==> i < n && start + i !in lost
    ensures |kept| >= n - |lost|
  {
    if n == 0 {
      kept := {};
    } else if start + n - 1 in lost {
      var before := KeptIds(n - 1, start, lost - {start + n - 1});
      kept := set i | i in before && start + i !in lost;
      assert kept == before;
    } else {
      var before := KeptIds(n - 1, start, lost);
      kept := before + {n - 1};
    }
  }

  /** The packets of an encoded block that survive the loss of the list positions in `lost`. */
  ghost function Surviving(packets: seq<Bytes>, lost: set<nat>): set<Bytes> {
    set j | 0 <= j < |packets| && j !in lost :: packets[j]
  }

  /** The lost positions that hold symbols of source block `z`. */
  ghost function LostIn(c: Codec, data: Bytes, ratio: real, lost: set<nat>, z: nat): set<nat> {
    set j | j in lost && BlockStart(c, data, ratio, z) <= j < BlockStart(c, data, ratio, z) + SymbolCount(c, |data|, ratio, z)
  }

  /** No source block loses more symbols than its own repair symbols. */
  ghost predicate Repairable(c: Codec, data: Bytes, ratio: real, lost: set<nat>) {
    forall z: nat :: z < c.blocks(|data|) ==> |LostIn(c, data, ratio, lost, z)| <= NumRepair(c.k(|data|, z), ratio)
  }

  lemma FewLostRepairable(c: Codec, data: Bytes, ratio: real, lost: set<nat>)
    requires forall z: nat :: z < c.blocks(|data|) ==> |lost| <= NumRepair(c.k(|data|, z), ratio)
    ensures Repairable(c, data, ratio, lost)
  {
    forall z: nat | z < c.blocks(|data|)
      ensures |LostIn(c, data, ratio, lost, z)| <= NumRepair(c.k(|data|, z), ratio)
    {
      SubsetCard(LostIn(c, data, ratio, lost, z), lost);
    }
  }

  /** An ideal code recovers a block whenever no source block loses more than its repair symbols. */
  lemma LossTolerated(c: Codec, data: Bytes, ratio: real, lost: set<nat>)
    requires Ideal(c)
    requires data != []
    requires Repairable(c, data, ratio, lost)
    ensures c.decode(|data|, Surviving(Encoded(c, data, ratio), lost)) == Some(data)
  {
    hide NumRepair;
    var n := c.blocks(|data|);
    var packets := Encoded(c, data, ratio);
    var s := Surviving(packets, lost);
    EncodedAreSymbols(c, data, ratio, n);
    assert SymbolsOf(c, data, s);
    forall z: nat | z < n
      ensures Enough(c, data, s, z)
    {
      SourceBlockSurvives(c, data, ratio, lost, z);
    }
  }

  lemma SourceBlockSurvives(c: Codec, data: Bytes, ratio: real, lost: set<nat>, z: nat)
    requires z < c.blocks(|data|)
    requires |LostIn(c, data, ratio, lost, z)| <= NumRepair(c.k(|data|, z), ratio)
    ensures Enough(c, data, Surviving(Encoded(c, data, ratio), lost), z)
  {
    hide NumRepair;
    var packets := Encoded(c, data, ratio);
    var start, count := BlockStart(c, data, ratio, z), SymbolCount(c, |data|, ratio, z);
    var ids := KeptIds(count, start, LostIn(c, data, ratio, lost, z));
    forall i | i in ids
      ensures c.symbol(data, z, i) in Surviving(packets, lost)
    {
      EncodedAt(c, data, ratio, c.blocks(|data|), z, i);
      assert packets[start + i] == c.symbol(data, z, i);
      assert start + i !in lost;
    }
    assert HasSymbols(c, data, Surviving(packets, lost), z, ids);
  }

  datatype EncodeStats = EncodeStats(sourceSymbols: nat, repairSymbols: nat, totalSymbols: nat, repairRatioUsed: real)

  function SourceUpTo(c: Codec, len: nat, n: nat): nat {
    if n == 0 then 0 else SourceUpTo(c, len, n - 1) + c.k(len, n - 1)
  }

  function RepairUpTo(c: Codec, len: nat, ratio: real, n: nat): nat {
    if n == 0 then 0 else RepairUpTo(c, len, ratio, n - 1) + NumRepair(c.k(len, n - 1), ratio)
  }

  class FecEncoder {
    const codec: Codec
    const minRepairRatio := 0.02
    var repairRatio: real

    constructor (codec: Codec, repairRatio: real)
      ensures this.codec == codec && this.repairRatio == repairRatio
    {
      this.codec := codec;
      this.repairRatio := repairRatio;
    }

    /** The floor applies here but not to the ratio given at construction. */
    method SetRepairRatio(ratio: real)
      modifies this
      ensures repairRatio >= minRepairRatio && repairRatio >= ratio
      ensures repairRatio == ratio || repairRatio == minRepairRatio
    {
      repairRatio := if ratio >= minRepairRatio then ratio else minRepairRatio;
    }

    method Encode(data: Bytes) returns (packets: seq<Bytes>, stats: EncodeStats)
      ensures packets == Encoded(codec, data, repairRatio)
      ensures stats.totalSymbols == stats.sourceSymbols + stats.repairSymbols == |packets|
      ensures stats.sourceSymbols == SourceUpTo(codec, |data|, codec.blocks(|data|))
      ensures stats.repairSymbols == RepairUpTo(codec, |data|, repairRatio, codec.blocks(|data|))
      ensures stats.repairRatioUsed == repairRatio
    {
      packets := [];
      var totalSource, totalRepair := 0, 0;
      for z := 0 to codec.blocks(|data|)
        invariant packets == EncodeUpTo(codec, data, repairRatio, z)
        invariant totalSource == SourceUpTo(codec, |data|, z)
        invariant totalRepair == RepairUpTo(codec, |data|, repairRatio, z)
        invariant totalSource + totalRepair == |packets|
      {
        var numSource := codec.k(|data|, z);
        var numRepair := NumRepair(numSource, repairRatio);
        totalSource := totalSource + numSource;
        totalRepair := totalRepair + numRepair;
        var source := seq(numSource, (i: nat) => codec.symbol(data, z, i));
        var repair := seq(numRepair, (i: nat) => codec.symbol(data, z, numSource + i));
        assert source + repair == seq(numSource + numRepair, (i: nat) => codec.symbol(data, z, i));
        assert packets + source + repair == packets + (source + repair);
        packets := packets + source;
        packets := packets + repair;
      }
      stats := EncodeStats(totalSource, totalRepair, totalSource + totalRepair, repairRatio);
    }
  }

  // ---- The decoder ----

  datatype DecodeStats = DecodeStats(sourceSymbols: nat, packetsNeeded: nat, excessSymbols: nat, estimatedLoss: real)

  datatype DecoderState = DecoderState(dataLen: nat, symbols: set<Bytes>, complete: bool, packetsFed: nat)

  function NewDecoder(dataLen: nat): DecoderState {
    DecoderState(dataLen, {}, false, 0)
  }

  function StatsFor(dataLen: nat, packetsFed: nat): DecodeStats {
    var source := CeilDiv(dataLen, SYMBOL_SIZE);
    DecodeStats(source, packetsFed, Max(packetsFed - source, 0),
                if packetsFed > 0 then 1.0 - source as real / packetsFed as real else 0.0)
  }

  /** A duplicate packet counts as fed but adds no symbol. */
  function Feed(c: Codec, d: DecoderState, p: Bytes): (DecoderState, Option<(Bytes, DecodeStats)>) {
    if d.complete then (d, None)
    else
      var symbols := d.symbols + {p};
      match c.decode(d.dataLen, symbols)
      case None => (d.(symbols := symbols, packetsFed := d.packetsFed + 1), None)
      case Some(data) =>
        (d.(symbols := symbols, packetsFed := d.packetsFed + 1, complete := true),
         Some((data, StatsFor(d.dataLen, d.packetsFed + 1))))
  }

  /** What the statistics of a decoded object of `dataLen` bytes mean after `fed` packets. */
  lemma StatsMean(dataLen: nat, fed: nat)
    requires fed > 0
    ensures var s := StatsFor(dataLen, fed);
      && s.packetsNeeded == fed
      && dataLen <= s.sourceSymbols * 900 < dataLen + 900
      && s.excessSymbols == Max(fed - s.sourceSymbols, 0)
      && (1.0 - s.estimatedLoss) * fed as real == s.sourceSymbols as real
  {
    DivModFacts(dataLen + 899, 900);
  }

  function FeedAll(c: Codec, d: DecoderState, ps: seq<Bytes>): (DecoderState, seq<(Bytes, DecodeStats)>) {
    if ps == [] then (d, [])
    else
      var (before, out) := FeedAll(c, d, ps[..|ps| - 1]);
      match Feed(c, before, ps[|ps| - 1])
      case (after, None) => (after, out)
      case (after, Some(r)) => (after, out + [r])
  }

  /** The distinct packets among those fed. */
  function Fed(ps: seq<Bytes>): set<Bytes> {
    if ps == [] then {} else Fed(ps[..|ps| - 1]) + {ps[|ps| - 1]}
  }

  lemma MoreSymbols(c: Codec, data: Bytes, s: set<Bytes>, t: set<Bytes>)
    requires Lawful(c) && SymbolsOf(c, data, t) && s <= t
    ensures SymbolsOf(c, data, s)
    ensures c.decode(|data|, s).Some? ==> c.decode(|data|, t) == Some(data) && c.decode(|data|, s) == Some(data)
  {}

  /**
   * A decoder that is fed symbols of one object answers once, as soon as they suffice, with that object, and never
   * again; duplicates count as fed but do not help.
   */
  lemma {:induction false} DecoderAnswersOnce(c: Codec, data: Bytes, ps: seq<Bytes>)
    requires Lawful(c) && c.decode(|data|, {}).None?
    requires SymbolsOf(c, data, Fed(ps))
    ensures var (d, out) := FeedAll(c, NewDecoder(|data|), ps);
      && |out| == (if c.decode(|data|, Fed(ps)).Some? then 1 else 0) && (out != [] ==> out[0].0 == data)
      && (d.complete <==> out != [])
      && (out == [] ==> d == DecoderState(|data|, Fed(ps), false, |ps|))
  {
    hide StatsFor, Lawful, SymbolsOf;
    if ps != [] {
      var front := ps[..|ps| - 1];
      MoreSymbols(c, data, Fed(front), Fed(ps));
      MoreSymbols(c, data, Fed(ps), Fed(ps));
      DecoderAnswersOnce(c, data, front);
    }
  }

  class FecDecoder {
    const codec: Codec
    const dataLen: nat
    var symbols: set<Bytes>
    var complete: bool
    var packetsFed: nat

    function State(): DecoderState
      reads this
    {
      DecoderState(dataLen, symbols, complete, packetsFed)
    }

    constructor (codec: Codec, dataLen: nat)
      ensures this.codec == codec && State() == NewDecoder(dataLen)
    {
      this.codec := codec;
      this.dataLen := dataLen;
      symbols, complete, packetsFed := {}, false, 0;
    }

    method AddPacket(p: Bytes) returns (r: Option<(Bytes, DecodeStats)>)
      modifies this
      ensures (State(), r) == Feed(codec, old(State()), p)
    {
      if complete {
        return None;
      }
      packetsFed := packetsFed + 1;
      symbols := symbols + {p};
      var decoded := codec.decode(dataLen, symbols);
      match decoded {
        case None => return None;
        case Some(data) =>
          complete := true;
          return Some((data, StatsFor(dataLen, packetsFed)));
      }
    }
  }

  // ---- The adaptive repair ratio ----

  datatype Adaptive = Adaptive(lossEstimate: real, blocksObserved: nat)

  const NEW_ADAPTIVE := Adaptive(0.0, 0)
  const ALPHA := 0.3
  const MIN_RATIO := 0.02
  const MAX_RATIO := 0.5
  const SAFETY_MARGIN := 1.3

  /** A negative estimate, from fewer packets than source symbols, counts as no loss. */
  function Measured(estimatedLoss: real): real {
    if estimatedLoss >= 0.0 then estimatedLoss else 0.0
  }

  function Observe(a: Adaptive, estimatedLoss: real): Adaptive {
    var measured := Measured(estimatedLoss);
    Adaptive(if a.blocksObserved == 0 then measured else ALPHA * measured + (1.0 - ALPHA) * a.lossEstimate,
             a.blocksObserved + 1)
  }

  function Ratio(a: Adaptive): real {
    var r := a.lossEstimate * SAFETY_MARGIN;
    var floored := if r >= MIN_RATIO then r else MIN_RATIO;
    if floored <= MAX_RATIO then floored else MAX_RATIO
  }

  /** The recommended ratio is 1.3 times the estimate, within two and fifty percent. */
  lemma RatioIs(a: Adaptive)
    ensures var r := Ratio(a);
      if 1.3 * a.lossEstimate <= 0.02 then r == 0.02 else if 1.3 * a.lossEstimate >= 0.5 then r == 0.5 else r == 1.3 * a.lossEstimate
  {}

  function ObserveAll(losses: seq<real>): Adaptive {
    if losses == [] then NEW_ADAPTIVE else Observe(ObserveAll(losses[..|losses| - 1]), losses[|losses| - 1])
  }

  /** Over any run of blocks the estimate stays between the smallest and the largest loss measured. */
  lemma {:induction false} EstimateWithinObserved(losses: seq<real>, lo: real, hi: real)
    requires losses != []
    requires forall i :: 0 <= i < |losses| ==> lo <= Measured(losses[i]) <= hi
    ensures lo <= ObserveAll(losses).lossEstimate <= hi
    ensures ObserveAll(losses).blocksObserved == |losses|
    ensures MIN_RATIO <= Ratio(ObserveAll(losses)) <= MAX_RATIO
    ensures ObserveAll(losses).lossEstimate >= 0.0
    ensures hi * SAFETY_MARGIN <= MAX_RATIO ==> Ratio(ObserveAll(losses)) >= lo * SAFETY_MARGIN
  {
    var front := losses[..|losses| - 1];
    if front != [] {
      EstimateWithinObserved(front, lo, hi);
    }
  }

  function Repeat(l: real, n: nat): seq<real> {
    if n == 0 then [] else Repeat(l, n - 1) + [l]
  }

  /** `e` after `n` steps that each keep seven tenths of it. */
  function Decayed(e: real, n: nat): real {
    if n == 0 then e else 0.7 * Decayed(e, n - 1)
  }

  /** One more block of loss `l`: three tenths of `l`, seven tenths of an estimate `l + e`. */
  lemma OneMoreLoss(a: Adaptive, l: real, e: real)
    requires a.blocksObserved > 0 && l >= 0.0 && a.lossEstimate == l + e
    ensures Observe(a, l).lossEstimate == l + 0.7 * e && Observe(a, l).blocksObserved > 0
  {}

  lemma RepeatStep(losses: seq<real>, l: real, n: nat)
    requires n > 0
    ensures ObserveAll(losses + Repeat(l, n)) == Observe(ObserveAll(losses + Repeat(l, n - 1)), l)
  {
    var shorter := losses + Repeat(l, n - 1);
    assert losses + Repeat(l, n) == shorter + [l];
    assert (shorter + [l])[..|shorter|] == shorter;
  }

  /** Sustained loss `l` pulls the estimate to `l` geometrically, from wherever it was. */
  lemma {:induction false} SustainedLoss(losses: seq<real>, l: real, n: nat)
    requires losses != [] && l >= 0.0
    ensures ObserveAll(losses + Repeat(l, n)).lossEstimate == l + Decayed(ObserveAll(losses).lossEstimate - l, n)
    ensures ObserveAll(losses + Repeat(l, n)).blocksObserved > 0
  {
    hide Observe;
    if n == 0 {
      assert losses + [] == losses;
      SomeObserved(losses);
    } else {
      SustainedLoss(losses, l, n - 1);
      RepeatStep(losses, l, n);
      OneMoreLoss(ObserveAll(losses + Repeat(l, n - 1)), l, Decayed(ObserveAll(losses).lossEstimate - l, n - 1));
    }
  }

  lemma SomeObserved(losses: seq<real>)
    requires losses != []
    ensures ObserveAll(losses).blocksObserved > 0
  {}

  class AdaptiveFec {
    var lossEstimate: real
    var blocksObserved: nat

    function State(): Adaptive
      reads this
    {
      Adaptive(lossEstimate, blocksObserved)
    }

    constructor ()
      ensures State() == NEW_ADAPTIVE
    {
      lossEstimate, blocksObserved := 0.0, 0;
    }

    method Update(stats: DecodeStats) returns (ratio: real)
      modifies this
      ensures State() == Observe(old(State()), stats.estimatedLoss)
      ensures ratio == Ratio(State())
      ensures MIN_RATIO <= ratio <= MAX_RATIO
    {
      blocksObserved := blocksObserved + 1;
      var measured := if stats.estimatedLoss >= 0.0 then stats.estimatedLoss else 0.0;
      if blocksObserved == 1 {
        lossEstimate := measured;
      } else {
        lossEstimate := ALPHA * measured + (1.0 - ALPHA) * lossEstimate;
      }
      ratio := Ratio(State());
    }
  }
}
