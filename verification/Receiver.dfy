/**
 * transport/receiver.rs: datagrams in, decoded blocks out.
 *
 * `Receive` and `RunFrom` specify the loop on values; `UdpReceiver` is the object that updates its
 * maps in place. The network may lose, reorder, duplicate and forge datagrams: a run is any sequence.
 */
module Receiver {
  import opened Prelude
  import opened Blocks
  import opened Wire
  import opened Crypto
  import opened Fec
  import Timeouts = TimeoutPredictor
  import DelayGradient

  datatype Config = Config(sessionId: nat, fileSize: nat, blockSize: pos, codec: Codec, aead: Aead)

  function Total(cfg: Config): nat {
    TotalBlocks(cfg.fileSize, cfg.blockSize)
  }

  datatype Pending = Pending(decoder: DecoderState, packetsReceived: nat, firstPacketTime: nat)

  datatype ReceivedBlock = ReceivedBlock(blockId: nat, data: Bytes, packetsReceived: nat, elapsed: nat, stats: DecodeStats)

  datatype PacketError = PacketTooShort | HeaderCorrupt | WrongMagic | WrongSession | NotAuthentic

  /** A datagram with the instant (ns) and the wall clock (us) at which it was read. */
  datatype Arrival = Arrival(datagram: Bytes, at: nat, wallUs: nat)

  datatype RxState = RxState(
    pending: map<nat, Pending>, completed: seq<nat>, expectTimes: map<nat, nat>,
    adaptive: Adaptive, predictor: Timeouts.Predictor, delays: seq<DelayGradient.Sample>,
    packets: nat, bytes: nat)

  function NewState(cfg: Config, targetMbps: nat): RxState {
    RxState(map[], [], map[], NEW_ADAPTIVE, Timeouts.NewPredictor(targetMbps, cfg.blockSize), [], 0, 0)
  }

  // ---- One datagram ----

  /** The checks on the header, in the order of the source. */
  function Accepted(cfg: Config, d: Bytes): Result<(Header, Bytes), PacketError> {
    match Unframe(d)
    case TooShort => Err(PacketTooShort)
    case BadHeader => Err(HeaderCorrupt)
    case Framed(h, payload) =>
      if h.magic != MAGIC then Err(WrongMagic)
      else if h.sessionId != cfg.sessionId then Err(WrongSession)
      else Ok((h, payload))
  }

  datatype Opened = Refused(error: PacketError) | Control | Symbol(blockId: nat, packet: Bytes)

  function OpenPayload(cfg: Config, h: Header, payload: Bytes): Opened {
    if h.packetType != Data then Control
    else
      match Decrypt(cfg.aead, payload, Aad(h.sessionId, h.blockId, h.symbolId))
      case None => Refused(NotAuthentic)
      case Some(p) => Symbol(h.blockId, p)
  }

  /** What a datagram means to this receiver. */
  function Open(cfg: Config, d: Bytes): Opened {
    match Accepted(cfg, d)
    case Err(e) => Refused(e)
    case Ok((h, payload)) => OpenPayload(cfg, h, payload)
  }

  function NoteDelay(st: RxState, h: Header, wallUs: nat): RxState {
    if h.timestampUs > 0 && wallUs > h.timestampUs then
      st.(delays := st.delays + [(wallUs, (wallUs - h.timestampUs) as real)])
    else st
  }

  function PendingFor(cfg: Config, st: RxState, id: nat, at: nat): Pending {
    if id in st.pending then st.pending[id]
    else Pending(NewDecoder(ReceiverLen(cfg.fileSize, cfg.blockSize, id)), 0, at)
  }

  function TakeSymbol(cfg: Config, st: RxState, id: nat, packet: Bytes, at: nat): (RxState, Option<ReceivedBlock>) {
    if id in st.completed then (st, None)
    else
      var expected := if id in st.expectTimes then st.expectTimes else st.expectTimes[id := at];
      var p := PendingFor(cfg, st, id, at);
      match Feed(cfg.codec, p.decoder, packet)
      case (decoder, None) =>
        (st.(expectTimes := expected, pending := st.pending[id := Pending(decoder, p.packetsReceived + 1, p.firstPacketTime)]), None)
      case (_, Some((data, stats))) =>
        (st.(expectTimes := expected, pending := st.pending - {id}),
         Some(ReceivedBlock(id, data, p.packetsReceived + 1, Timeouts.Elapsed(p.firstPacketTime, at), stats)))
  }

  function Process(cfg: Config, st: RxState, a: Arrival): (RxState, Result<Option<ReceivedBlock>, PacketError>) {
    match Accepted(cfg, a.datagram)
    case Err(e) => (st, Err(e))
    case Ok((h, payload)) =>
      var noted := NoteDelay(st, h, a.wallUs);
      match OpenPayload(cfg, h, payload)
      case Refused(e) => (noted, Err(e))
      case Control => (noted, Ok(None))
      case Symbol(id, packet) => var (next, b) := TakeSymbol(cfg, noted, id, packet, a.at); (next, Ok(b))
  }

  /** The bookkeeping of a decoded block, before it is pushed into the channel. */
  function Finish(st: RxState, b: ReceivedBlock, at: nat): RxState {
    st.(adaptive := Observe(st.adaptive, b.stats.estimatedLoss),
        predictor := if b.blockId in st.expectTimes then
                       Timeouts.RecordArrival(st.predictor, b.blockId, Timeouts.Elapsed(st.expectTimes[b.blockId], at), at, |b.data|)
                     else st.predictor,
        expectTimes := st.expectTimes - {b.blockId},
        completed := st.completed + [b.blockId])
  }

  /** One round of the loop: the new state, and the block handed to the channel if there is one. */
  function Receive(cfg: Config, st: RxState, a: Arrival): (r: (RxState, seq<ReceivedBlock>))
    ensures |r.1| <= 1
  {
    match Process(cfg, st.(packets := st.packets + 1, bytes := st.bytes + |a.datagram|), a)
    case (next, Ok(Some(b))) => (Finish(next, b, a.at), [b])
    case (next, _) => (next, [])
  }

  function RunFrom(cfg: Config, st: RxState, ds: seq<Arrival>): (RxState, seq<ReceivedBlock>) {
    if ds == [] then (st, [])
    else
      var (before, out) := RunFrom(cfg, st, ds[..|ds| - 1]);
      var (after, more) := Receive(cfg, before, ds[|ds| - 1]);
      (after, out + more)
  }

  // ---- What is refused and what is ignored ----

  /** A header is accepted exactly when the datagram frames one with the magic bytes and this session. */
  lemma AcceptedIff(cfg: Config, d: Bytes, h: Header, payload: Bytes)
    ensures Accepted(cfg, d) == Ok((h, payload)) <==>
      Unframe(d) == Framed(h, payload) && h.magic == [0x55, 0x50, 0x44, 0x4E] && h.sessionId == cfg.sessionId
  {
    hide Unframe;
  }

  /** Why a datagram is refused before its payload is looked at, the first reason first. */
  lemma RefusalReasons(cfg: Config, st: RxState, a: Arrival)
    ensures var d, r := a.datagram, Process(cfg, st, a).1;
      && (|d| < 2 || |d| < 2 + FromLe(d[..2]) ==> r == Err(PacketTooShort))
      && (|d| >= 2 && |d| >= 2 + FromLe(d[..2]) && DeserializeHeader(d[2..2 + FromLe(d[..2])]).None? ==> r == Err(HeaderCorrupt))
      && (Unframe(d).Framed? ==>
            var h := Unframe(d).header;
            && (h.magic != MAGIC ==> r == Err(WrongMagic))
            && (h.magic == MAGIC && h.sessionId != cfg.sessionId ==> r == Err(WrongSession)))
  {
    hide FromLe, DeserializeHeader, TakeSymbol, Decrypt, Aad;
  }

  /** The datagram belongs to another session, or to no session of this program. */
  ghost predicate Foreign(cfg: Config, d: Bytes) {
    var f := Unframe(d);
    f.Framed? && (f.header.sessionId != cfg.sessionId || f.header.magic != [0x55, 0x50, 0x44, 0x4E])
  }

  lemma ForeignIsRefused(cfg: Config, st: RxState, a: Arrival)
    requires Foreign(cfg, a.datagram)
    ensures Process(cfg, st, a).0 == st && Process(cfg, st, a).1.Err?
    ensures Receive(cfg, st, a) == (st.(packets := st.packets + 1, bytes := st.bytes + |a.datagram|), [])
  {
    hide Unframe;
  }

  /** A packet of this session that is no data packet is answered with nothing and touches no block. */
  lemma ControlTouchesNothing(cfg: Config, st: RxState, a: Arrival)
    requires var f := Unframe(a.datagram);
      f.Framed? && f.header.magic == MAGIC && f.header.sessionId == cfg.sessionId && f.header.packetType != Data
    ensures Process(cfg, st, a).1 == Ok(None)
    ensures Process(cfg, st, a).0 == st.(delays := Process(cfg, st, a).0.delays)
  {
    hide Unframe;
  }

  /** The run without the foreign datagrams. */
  ghost function Ours(cfg: Config, ds: seq<Arrival>): seq<Arrival> {
    if ds == [] then []
    else Ours(cfg, ds[..|ds| - 1]) + if Foreign(cfg, ds[|ds| - 1].datagram) then [] else [ds[|ds| - 1]]
  }

  /** The same but for the counters of what was read. */
  ghost predicate SameButCounters(st: RxState, other: RxState) {
    st == other.(packets := st.packets, bytes := st.bytes)
  }

  lemma ReceiveIgnoresCounters(cfg: Config, st: RxState, other: RxState, a: Arrival)
    requires SameButCounters(st, other)
    ensures SameButCounters(Receive(cfg, st, a).0, Receive(cfg, other, a).0) && Receive(cfg, st, a).1 == Receive(cfg, other, a).1
  {
    hide Receive, Open, Feed, ReceiverLen, Observe, Timeouts.RecordArrival, SampleOf;
    var noted := ReceiveIs(cfg, st, a);
    var noted' := ReceiveIs(cfg, other, a);
  }

  /** Datagrams of other sessions, anywhere in a run, change nothing but the counters: neither blocks nor delays. */
  lemma {:induction false} ForeignChangesNothing(cfg: Config, st: RxState, ds: seq<Arrival>)
    ensures var (with, out) := RunFrom(cfg, st, ds);
      var (without, out') := RunFrom(cfg, st, Ours(cfg, ds));
      out == out' && SameButCounters(with, without) && with.delays == without.delays
  {
    hide Receive, Foreign;
    if ds != [] {
      var front, a := ds[..|ds| - 1], ds[|ds| - 1];
      ForeignChangesNothing(cfg, st, front);
      var ours := Ours(cfg, front);
      var (with, out) := RunFrom(cfg, st, front);
      var (without, out') := RunFrom(cfg, st, ours);
      if Foreign(cfg, a.datagram) {
        ForeignIsRefused(cfg, with, a);
        assert Ours(cfg, ds) == ours;
        assert out + [] == out;
      } else {
        ReceiveIgnoresCounters(cfg, with, without, a);
        assert (ours + [a])[..|ours|] == ours;
      }
    }
  }

  function Ids(blocks: seq<ReceivedBlock>): (r: seq<nat>)
    ensures |r| == |blocks|
    ensures forall i :: 0 <= i < |r| ==> r[i] == blocks[i].blockId
  {
    seq(|blocks|, i requires 0 <= i < |blocks| => blocks[i].blockId)
  }

  // ---- Safety and exactness ----

  /** The symbols of block `id` that the datagrams carry, whatever their order and multiplicity. */
  function Delivered(cfg: Config, ds: seq<Arrival>, id: nat): set<Bytes> {
    if ds == [] then {}
    else Delivered(cfg, ds[..|ds| - 1], id) + Carried(cfg, ds[|ds| - 1].datagram, id)
  }

  function Carried(cfg: Config, d: Bytes, id: nat): set<Bytes> {
    match Open(cfg, d)
    case Symbol(k, packet) => if k == id then {packet} else {}
    case _ => {}
  }

  /** If the datagram authenticates for this session, it carries a symbol of the block its header names. */
  ghost predicate Authentic(cfg: Config, src: Bytes, d: Bytes)
    requires |src| == cfg.fileSize
  {
    match Open(cfg, d)
    case Symbol(id, packet) => id < Total(cfg) && IsSymbol(cfg.codec, Block(src, cfg.blockSize, id), packet)
    case _ => true
  }

  ghost predicate AllAuthentic(cfg: Config, src: Bytes, ds: seq<Arrival>)
    requires |src| == cfg.fileSize
  {
    forall i :: 0 <= i < |ds| ==> Authentic(cfg, src, ds[i].datagram)
  }

  /** The delivered symbols of block `id` suffice to decode it. */
  predicate Decodable(cfg: Config, ds: seq<Arrival>, id: nat)
    requires id < Total(cfg)
  {
    cfg.codec.decode(BlockLen(cfg.fileSize, cfg.blockSize, id), Delivered(cfg, ds, id)).Some?
  }

  /** What the state knows of block `id` after the datagrams `ds`. */
  ghost predicate TracksBlock(cfg: Config, src: Bytes, st: RxState, ds: seq<Arrival>, id: nat)
    requires |src| == cfg.fileSize && id < Total(cfg)
  {
    && SymbolsOf(cfg.codec, Block(src, cfg.blockSize, id), Delivered(cfg, ds, id))
    && (id in st.completed <==> Decodable(cfg, ds, id))
    && (id in st.completed ==> id !in st.pending)
    && (id !in st.completed ==>
          if id in st.pending then
            var d := st.pending[id].decoder;
            !d.complete && d.dataLen == BlockLen(cfg.fileSize, cfg.blockSize, id) && d.symbols == Delivered(cfg, ds, id)
          else Delivered(cfg, ds, id) == {})
  }

  ghost predicate Tracks(cfg: Config, src: Bytes, st: RxState, ds: seq<Arrival>)
    requires |src| == cfg.fileSize
  {
    && Distinct(st.completed)
    && (forall id :: id in st.completed ==> id < Total(cfg))
    && (forall id: nat :: id < Total(cfg) ==> TracksBlock(cfg, src, st, ds, id))
  }

  /** No block is empty, so nothing decodes from nothing. */
  lemma NothingFromNothing(c: Codec, len: nat)
    requires Fec.Lawful(c) && len > 0
    ensures c.decode(len, {}).None?
  {
    var zeros := Zeros(len);
    var ones: Bytes := seq(len, _ => 1);
    assert SymbolsOf(c, zeros, {}) && SymbolsOf(c, ones, {});
    assert |zeros| == |ones| == len && zeros[0] != ones[0];
  }

  lemma InitialTracks(cfg: Config, src: Bytes, targetMbps: nat)
    requires |src| == cfg.fileSize && Fec.Lawful(cfg.codec)
    ensures Tracks(cfg, src, NewState(cfg, targetMbps), [])
  {
    forall id: nat | id < Total(cfg)
      ensures TracksBlock(cfg, src, NewState(cfg, targetMbps), [], id)
    {
      LengthsAgree(cfg.fileSize, cfg.blockSize, id);
      NothingFromNothing(cfg.codec, BlockLen(cfg.fileSize, cfg.blockSize, id));
    }
  }

  lemma DeliveredStep(cfg: Config, ds: seq<Arrival>, a: Arrival, id: nat)
    ensures Delivered(cfg, ds + [a], id) == Delivered(cfg, ds, id) + Carried(cfg, a.datagram, id)
  {
    assert (ds + [a])[..|ds|] == ds;
  }

  /** Only the block a datagram names can change what is known. */
  lemma OtherBlocksTracked(cfg: Config, src: Bytes, st: RxState, next: RxState, ds: seq<Arrival>, a: Arrival, id: nat)
    requires |src| == cfg.fileSize && id < Total(cfg)
    requires TracksBlock(cfg, src, st, ds, id)
    requires Carried(cfg, a.datagram, id) == {} || (id in st.completed && Authentic(cfg, src, a.datagram) && Fec.Lawful(cfg.codec))
    requires id in st.completed <==> id in next.completed
    requires id in st.pending <==> id in next.pending
    requires id in st.pending ==> st.pending[id].decoder == next.pending[id].decoder
    ensures TracksBlock(cfg, src, next, ds + [a], id)
  {
    DeliveredStep(cfg, ds, a, id);
    if Carried(cfg, a.datagram, id) == {} {
      assert Delivered(cfg, ds + [a], id) == Delivered(cfg, ds, id);
    } else {
      assert Delivered(cfg, ds, id) <= Delivered(cfg, ds + [a], id);
    }
  }

  lemma SymbolTracked(cfg: Config, src: Bytes, st: RxState, ds: seq<Arrival>, a: Arrival)
    requires |src| == cfg.fileSize && Fec.Lawful(cfg.codec)
    requires Authentic(cfg, src, a.datagram) && Open(cfg, a.datagram).Symbol?
    requires var id := Open(cfg, a.datagram).blockId; TracksBlock(cfg, src, st, ds, id) && id !in st.completed
    ensures var id := Open(cfg, a.datagram).blockId;
      var (next, b) := TakeSymbol(cfg, st, id, Open(cfg, a.datagram).packet, a.at);
      && (b.Some? ==>
            && b.value.blockId == id && b.value.data == Block(src, cfg.blockSize, id)
            && TracksBlock(cfg, src, next.(completed := st.completed + [id]), ds + [a], id))
      && (b.None? ==> TracksBlock(cfg, src, next, ds + [a], id))
  {
    var Symbol(id, packet) := Open(cfg, a.datagram);
    DeliveredStep(cfg, ds, a, id);
    LengthsAgree(cfg.fileSize, cfg.blockSize, id);
    var block := Block(src, cfg.blockSize, id);
    var p := PendingFor(cfg, st, id, a.at);
    assert p.decoder.symbols + {packet} == Delivered(cfg, ds + [a], id);
    assert SymbolsOf(cfg.codec, block, Delivered(cfg, ds + [a], id));
  }

  lemma DistinctSnoc<T>(s: seq<T>, x: T)
    requires Distinct(s) && x !in s
    ensures Distinct(s + [x])
  {}

  /** A datagram that carries no symbol, or one of a finished block, leaves the blocks alone. */
  lemma ReceiveQuiet(cfg: Config, st: RxState, a: Arrival)
    requires Open(cfg, a.datagram).Symbol? ==> Open(cfg, a.datagram).blockId in st.completed
    ensures var (next, out) := Receive(cfg, st, a);
      out == [] && next.pending == st.pending && next.completed == st.completed
  {
    hide Unframe, Decrypt, Aad, Feed;
  }

  /** Counters, delays and expectations play no part in the decoding. */
  lemma TakeSymbolFrame(cfg: Config, st: RxState, other: RxState, id: nat, packet: Bytes, at: nat)
    requires st.pending == other.pending && st.completed == other.completed
    ensures var (next, b) := TakeSymbol(cfg, st, id, packet, at);
      var (next', b') := TakeSymbol(cfg, other, id, packet, at);
      b == b' && next.pending == next'.pending && next.completed == next'.completed == st.completed
    ensures TakeSymbol(cfg, st, id, packet, at).1.Some? ==> TakeSymbol(cfg, st, id, packet, at).1.value.blockId == id
  {
    hide Feed, ReceiverLen;
  }

  lemma ReceiveSymbol(cfg: Config, st: RxState, a: Arrival)
    requires Open(cfg, a.datagram).Symbol? && Open(cfg, a.datagram).blockId !in st.completed
    ensures var (next, out) := Receive(cfg, st, a);
      var (taken, b) := TakeSymbol(cfg, st, Open(cfg, a.datagram).blockId, Open(cfg, a.datagram).packet, a.at);
      && next.pending == taken.pending && taken.completed == st.completed
      && match b
         case None => out == [] && next.completed == st.completed
         case Some(block) => out == [block] && next.completed == st.completed + [block.blockId]
  {
    hide Unframe, Decrypt, Aad, TakeSymbol;
    var Symbol(id, packet) := Open(cfg, a.datagram);
    var counted := st.(packets := st.packets + 1, bytes := st.bytes + |a.datagram|);
    var noted := NoteDelay(counted, Accepted(cfg, a.datagram).value.0, a.wallUs);
    TakeSymbolFrame(cfg, st, noted, id, packet, a.at);
  }

  lemma OthersPending(cfg: Config, st: RxState, id: nat, packet: Bytes, at: nat, other: nat)
    requires other != id
    ensures var taken := TakeSymbol(cfg, st, id, packet, at).0;
      && (other in taken.pending <==> other in st.pending)
      && (other in st.pending ==> taken.pending[other] == st.pending[other])
  {
    hide Feed, ReceiverLen;
  }

  lemma SameBlocksTracked(cfg: Config, src: Bytes, st: RxState, next: RxState, ds: seq<Arrival>, id: nat)
    requires |src| == cfg.fileSize && id < Total(cfg)
    requires TracksBlock(cfg, src, st, ds, id)
    requires next.pending == st.pending && next.completed == st.completed
    ensures TracksBlock(cfg, src, next, ds, id)
  {}

  /** One datagram: at most one block comes out, it is new, and it is exactly the block of the source file. */
  lemma ReceiveTracks(cfg: Config, src: Bytes, st: RxState, ds: seq<Arrival>, a: Arrival)
    requires |src| == cfg.fileSize && Fec.Lawful(cfg.codec)
    requires Tracks(cfg, src, st, ds) && Authentic(cfg, src, a.datagram)
    ensures var (next, out) := Receive(cfg, st, a);
      && Tracks(cfg, src, next, ds + [a])
      && next.completed == st.completed + Ids(out)
      && |out| <= 1
      && forall b :: b in out ==>
           b.blockId < Total(cfg) && b.blockId !in st.completed && b.data == Block(src, cfg.blockSize, b.blockId)
  {
    hide Receive, Open, TakeSymbol, TracksBlock, Delivered, Fec.Lawful;
    var (next, out) := Receive(cfg, st, a);
    var o := Open(cfg, a.datagram);
    if !o.Symbol? || o.blockId in st.completed {
      ReceiveQuiet(cfg, st, a);
      assert Ids(out) == [];
      forall id: nat | id < Total(cfg)
        ensures TracksBlock(cfg, src, next, ds + [a], id)
      {
        OtherBlocksTracked(cfg, src, st, next, ds, a, id);
      }
    } else {
      ReceiveSymbol(cfg, st, a);
      SymbolTracked(cfg, src, st, ds, a);
      var (taken, b) := TakeSymbol(cfg, st, o.blockId, o.packet, a.at);
      if b.Some? {
        DistinctSnoc(st.completed, o.blockId);
        SameBlocksTracked(cfg, src, taken.(completed := st.completed + [o.blockId]), next, ds + [a], o.blockId);
        assert Ids(out) == [o.blockId];
      } else {
        SameBlocksTracked(cfg, src, taken, next, ds + [a], o.blockId);
        assert Ids(out) == [];
      }
      forall id: nat | id < Total(cfg) && id != o.blockId
        ensures TracksBlock(cfg, src, next, ds + [a], id)
      {
        OthersPending(cfg, st, o.blockId, o.packet, a.at, id);
        OtherBlocksTracked(cfg, src, st, next, ds, a, id);
      }
    }
  }

  // ---- Whole runs ----

  lemma RunStep(cfg: Config, st: RxState, ds: seq<Arrival>, a: Arrival)
    ensures var (before, out) := RunFrom(cfg, st, ds);
      var (after, more) := Receive(cfg, before, a);
      RunFrom(cfg, st, ds + [a]) == (after, out + more)
  {
    assert (ds + [a])[..|ds|] == ds;
  }

  ghost predicate Faithful(cfg: Config, src: Bytes, out: seq<ReceivedBlock>)
    requires |src| == cfg.fileSize
  {
    forall i :: 0 <= i < |out| ==> out[i].blockId < Total(cfg) && out[i].data == Block(src, cfg.blockSize, out[i].blockId)
  }

  lemma {:induction false} RunTracks(cfg: Config, src: Bytes, targetMbps: nat, ds: seq<Arrival>)
    requires |src| == cfg.fileSize && Fec.Lawful(cfg.codec)
    requires AllAuthentic(cfg, src, ds)
    ensures var (st, out) := RunFrom(cfg, NewState(cfg, targetMbps), ds);
      Tracks(cfg, src, st, ds) && st.completed == Ids(out) && Faithful(cfg, src, out)
  {
    hide Receive, Tracks, Fec.Lawful;
    if ds == [] {
      InitialTracks(cfg, src, targetMbps);
    } else {
      var front, a := ds[..|ds| - 1], ds[|ds| - 1];
      RunTracks(cfg, src, targetMbps, front);
      var (before, out) := RunFrom(cfg, NewState(cfg, targetMbps), front);
      ReceiveTracks(cfg, src, before, front, a);
      assert front + [a] == ds;
      var (after, more) := Receive(cfg, before, a);
      assert Ids(out + more) == Ids(out) + Ids(more);
    }
  }

  /**
   * Whatever the network loses, reorders, repeats or forges: the blocks that come out are exactly
   * those whose delivered symbols decode, each comes out once, and each carries the source bytes.
   */
  lemma EmittedExactly(cfg: Config, src: Bytes, targetMbps: nat, ds: seq<Arrival>)
    requires |src| == cfg.fileSize && Fec.Lawful(cfg.codec)
    requires AllAuthentic(cfg, src, ds)
    ensures var out := RunFrom(cfg, NewState(cfg, targetMbps), ds).1;
      && Distinct(Ids(out))
      && Faithful(cfg, src, out)
      && forall id: nat :: id < Total(cfg) ==> (id in Ids(out) <==> Decodable(cfg, ds, id))
  {
    RunTracks(cfg, src, targetMbps, ds);
    var (st, out) := RunFrom(cfg, NewState(cfg, targetMbps), ds);
    forall id: nat | id < Total(cfg)
      ensures id in Ids(out) <==> Decodable(cfg, ds, id)
    {
      assert TracksBlock(cfg, src, st, ds, id);
    }
  }

  /** The loop's exit test means what its log line says: every block has been handed over. */
  lemma AllCompleteMeansEveryBlock(cfg: Config, src: Bytes, targetMbps: nat, ds: seq<Arrival>)
    requires |src| == cfg.fileSize && Fec.Lawful(cfg.codec)
    requires AllAuthentic(cfg, src, ds)
    ensures var (st, out) := RunFrom(cfg, NewState(cfg, targetMbps), ds);
      && |st.completed| <= Total(cfg)
      && (|st.completed| == Total(cfg) <==> forall id: nat :: id < Total(cfg) ==> id in Ids(out))
  {
    RunTracks(cfg, src, targetMbps, ds);
    var (st, out) := RunFrom(cfg, NewState(cfg, targetMbps), ds);
    EveryId(st.completed, Total(cfg));
  }

  lemma EveryId(ids: seq<nat>, n: nat)
    requires Distinct(ids) && forall id :: id in ids ==> id < n
    ensures |ids| <= n
    ensures |ids| == n <==> forall id: nat :: id < n ==> id in ids
  {
    var s := set x | x in ids;
    DistinctCard(ids);
    Pigeonhole(s, n);
    if forall id: nat :: id < n ==> id in ids {
      SubsetCard(Below(n), s);
    } else {
      var id: nat :| id < n && id !in ids;
      assert id !in s;
    }
  }

  // ---- The receiver's books ----

  /** How many datagrams carry a symbol of block `id`, duplicates included. */
  function Carrying(cfg: Config, ds: seq<Arrival>, id: nat): nat {
    if ds == [] then 0 else Carrying(cfg, ds[..|ds| - 1], id) + |Carried(cfg, ds[|ds| - 1].datagram, id)|
  }

  /** When the first of them arrived. */
  function FirstAt(cfg: Config, ds: seq<Arrival>, id: nat): nat {
    if ds == [] then 0
    else if Carrying(cfg, ds[..|ds| - 1], id) > 0 then FirstAt(cfg, ds[..|ds| - 1], id)
    else ds[|ds| - 1].at
  }

  function TotalBytes(ds: seq<Arrival>): nat {
    if ds == [] then 0 else TotalBytes(ds[..|ds| - 1]) + |ds[|ds| - 1].datagram|
  }

  function Losses(out: seq<ReceivedBlock>): seq<real> {
    if out == [] then [] else Losses(out[..|out| - 1]) + [out[|out| - 1].stats.estimatedLoss]
  }

  /** A pending block has counted every datagram that carries it, since the first one. */
  ghost predicate PendingBooks(cfg: Config, st: RxState, ds: seq<Arrival>, id: nat)
    requires id in st.pending
  {
    var p := st.pending[id];
    && p.packetsReceived == p.decoder.packetsFed == Carrying(cfg, ds, id) > 0 && !p.decoder.complete
    && p.decoder.dataLen == ReceiverLen(cfg.fileSize, cfg.blockSize, id)
    && id in st.expectTimes && p.firstPacketTime == st.expectTimes[id] == FirstAt(cfg, ds, id)
  }

  ghost predicate BlockBooks(cfg: Config, st: RxState, ds: seq<Arrival>, id: nat) {
    if id in st.pending then id !in st.completed && PendingBooks(cfg, st, ds, id)
    else id !in st.expectTimes && (id !in st.completed ==> Carrying(cfg, ds, id) == 0)
  }

  ghost predicate Books(cfg: Config, st: RxState, ds: seq<Arrival>, out: seq<ReceivedBlock>) {
    && st.packets == |ds| && st.bytes == TotalBytes(ds)
    && st.adaptive == ObserveAll(Losses(out))
    && forall id: nat :: BlockBooks(cfg, st, ds, id)
  }

  lemma ArrivalStep(cfg: Config, ds: seq<Arrival>, a: Arrival, id: nat)
    ensures Carrying(cfg, ds + [a], id) == Carrying(cfg, ds, id) + |Carried(cfg, a.datagram, id)|
    ensures FirstAt(cfg, ds + [a], id) == if Carrying(cfg, ds, id) > 0 then FirstAt(cfg, ds, id) else a.at
    ensures TotalBytes(ds + [a]) == TotalBytes(ds) + |a.datagram|
  {
    assert (ds + [a])[..|ds|] == ds;
  }

  lemma LossStep(out: seq<ReceivedBlock>, b: ReceivedBlock)
    ensures ObserveAll(Losses(out + [b])) == Observe(ObserveAll(Losses(out)), b.stats.estimatedLoss)
  {
    assert (out + [b])[..|out|] == out;
    assert (Losses(out) + [b.stats.estimatedLoss])[..|Losses(out)|] == Losses(out);
  }

  /** `Receive` in one equation: after the header's effects, either nothing or the symbol is taken. */
  lemma ReceiveIs(cfg: Config, st: RxState, a: Arrival) returns (noted: RxState)
    ensures noted == st.(packets := st.packets + 1, bytes := st.bytes + |a.datagram|, delays := st.delays + SampleOf(cfg, a))
    ensures Receive(cfg, st, a) ==
      match Open(cfg, a.datagram)
      case Symbol(id, packet) =>
        (match TakeSymbol(cfg, noted, id, packet, a.at)
         case (next, Some(b)) => (Finish(next, b, a.at), [b])
         case (next, None) => (next, []))
      case _ => (noted, [])
  {
    hide Unframe, Decrypt, Aad, TakeSymbol, Finish;
    noted := st.(packets := st.packets + 1, bytes := st.bytes + |a.datagram|);
    assert st.delays + [] == st.delays;
    match Accepted(cfg, a.datagram)
    case Err(_) =>
    case Ok((h, payload)) => noted := NoteDelay(noted, h, a.wallUs);
  }

  lemma ReceiveOthers(cfg: Config, st: RxState, a: Arrival, id: nat)
    requires Carried(cfg, a.datagram, id) == {} || id in st.completed
    ensures var next := Receive(cfg, st, a).0;
      && (id in next.pending <==> id in st.pending) && (id in st.pending ==> next.pending[id] == st.pending[id])
      && (id in next.expectTimes <==> id in st.expectTimes) && (id in st.expectTimes ==> next.expectTimes[id] == st.expectTimes[id])
      && (id in next.completed <==> id in st.completed)
  {
    hide Receive, Open, Feed, ReceiverLen, Observe, Timeouts.RecordArrival;
    var noted := ReceiveIs(cfg, st, a);
  }

  lemma ReceiveCounters(cfg: Config, st: RxState, a: Arrival)
    ensures var (next, out) := Receive(cfg, st, a);
      && next.packets == st.packets + 1 && next.bytes == st.bytes + |a.datagram|
      && next.adaptive == if out == [] then st.adaptive else Observe(st.adaptive, out[0].stats.estimatedLoss)
  {
    hide Receive, Open, Feed, ReceiverLen, Observe, Timeouts.RecordArrival;
    var noted := ReceiveIs(cfg, st, a);
  }

  lemma FeedCounts(c: Codec, d: DecoderState, p: Bytes)
    requires !d.complete
    ensures var (next, r) := Feed(c, d, p);
      && next.packetsFed == d.packetsFed + 1 && next.dataLen == d.dataLen && (next.complete <==> r.Some?)
      && (r.Some? ==> r.value.1 == StatsFor(d.dataLen, d.packetsFed + 1))
  {}

  lemma ReceiveOwn(cfg: Config, st: RxState, ds: seq<Arrival>, a: Arrival, id: nat)
    requires Open(cfg, a.datagram).Symbol? && Open(cfg, a.datagram).blockId == id && id !in st.completed
    requires BlockBooks(cfg, st, ds, id)
    ensures var (next, out) := Receive(cfg, st, a);
      && BlockBooks(cfg, next, ds + [a], id)
      && (out != [] ==>
            && Reports(cfg, ds + [a], out[0], id, a.at)
            && next.predictor == Timeouts.RecordArrival(st.predictor, id, out[0].elapsed, a.at, |out[0].data|))
  {
    hide Receive, Open, Feed, ReceiverLen, Observe, Timeouts.RecordArrival, StatsFor, Carrying, FirstAt;
    var noted := ReceiveIs(cfg, st, a);
    ArrivalStep(cfg, ds, a, id);
    FeedCounts(cfg.codec, PendingFor(cfg, st, id, a.at).decoder, Open(cfg, a.datagram).packet);
    assert PendingFor(cfg, noted, id, a.at) == PendingFor(cfg, st, id, a.at);
    assert |Carried(cfg, a.datagram, id)| == 1;
  }

  /** A decoded block reports every datagram that carried it up to that moment, and the time since the first. */
  ghost predicate Reports(cfg: Config, ds: seq<Arrival>, b: ReceivedBlock, id: nat, at: nat) {
    && b.blockId == id && b.packetsReceived == Carrying(cfg, ds, id)
    && b.elapsed == Timeouts.Elapsed(FirstAt(cfg, ds, id), at)
    && b.stats == StatsFor(ReceiverLen(cfg.fileSize, cfg.blockSize, id), Carrying(cfg, ds, id))
  }

  /**
   * The books after any run, authentic or not: datagrams and bytes are all counted, the loss estimate is the one
   * of the blocks handed over, and every pending block has counted each datagram that carries it.
   */
  lemma {:induction false} RunKeepsBooks(cfg: Config, targetMbps: nat, ds: seq<Arrival>)
    ensures var (st, out) := RunFrom(cfg, NewState(cfg, targetMbps), ds); Books(cfg, st, ds, out)
  {
    hide Receive, Carrying, FirstAt, TotalBytes, ObserveAll, BlockBooks;
    if ds == [] {
      EmptyBooks(cfg, targetMbps);
    } else {
      var front, a := ds[..|ds| - 1], ds[|ds| - 1];
      RunKeepsBooks(cfg, targetMbps, front);
      var (before, out) := RunFrom(cfg, NewState(cfg, targetMbps), front);
      assert front + [a] == ds;
      ReceiveBooks(cfg, before, front, out, a);
    }
  }

  lemma EmptyBooks(cfg: Config, targetMbps: nat)
    ensures Books(cfg, NewState(cfg, targetMbps), [], [])
  {}

  lemma ReceiveBooks(cfg: Config, st: RxState, ds: seq<Arrival>, out: seq<ReceivedBlock>, a: Arrival)
    requires Books(cfg, st, ds, out)
    ensures var (next, more) := Receive(cfg, st, a);
      && Books(cfg, next, ds + [a], out + more)
      && (more != [] ==> Reports(cfg, ds + [a], more[0], more[0].blockId, a.at))
  {
    hide Receive, Open, Carrying, FirstAt, TotalBytes, ObserveAll, Losses, BlockBooks, Observe, Reports;
    var (next, more) := Receive(cfg, st, a);
    ReceiveCounters(cfg, st, a);
    ArrivalStep(cfg, ds, a, 0);
    if more == [] {
      assert out + more == out;
    } else {
      LossStep(out, more[0]);
      assert more == [more[0]];
    }
    NamedBlock(cfg, st, a);
    forall id: nat
      ensures BlockBooks(cfg, next, ds + [a], id)
      ensures more != [] && more[0].blockId == id ==> Reports(cfg, ds + [a], more[0], id, a.at)
    {
      assert BlockBooks(cfg, st, ds, id);
      if Carried(cfg, a.datagram, id) == {} || id in st.completed {
        ReceiveOthers(cfg, st, a, id);
        OtherBooks(cfg, st, next, ds, a, id);
      } else {
        ReceiveOwn(cfg, st, ds, a, id);
      }
    }
  }

  lemma NamedBlock(cfg: Config, st: RxState, a: Arrival)
    ensures var out := Receive(cfg, st, a).1;
      out != [] ==> out[0].blockId !in st.completed && Carried(cfg, a.datagram, out[0].blockId) != {}
  {
    hide Receive, Open, Feed, ReceiverLen, Observe, Timeouts.RecordArrival;
    var noted := ReceiveIs(cfg, st, a);
  }

  lemma OtherBooks(cfg: Config, st: RxState, next: RxState, ds: seq<Arrival>, a: Arrival, id: nat)
    requires BlockBooks(cfg, st, ds, id)
    requires Carried(cfg, a.datagram, id) == {} || id in st.completed
    requires (id in next.pending <==> id in st.pending) && (id in st.pending ==> next.pending[id] == st.pending[id])
    requires (id in next.expectTimes <==> id in st.expectTimes) && (id in st.expectTimes ==> next.expectTimes[id] == st.expectTimes[id])
    requires id in next.completed <==> id in st.completed
    ensures BlockBooks(cfg, next, ds + [a], id)
  {
    hide Carried, Carrying, FirstAt, ReceiverLen;
    ArrivalStep(cfg, ds, a, id);
  }

  // ---- The delay samples ----

  /** The sample a datagram leaves in the delay history, if it does. Nothing here depends on what it decrypts to. */
  function SampleOf(cfg: Config, a: Arrival): seq<DelayGradient.Sample> {
    match Accepted(cfg, a.datagram)
    case Err(_) => []
    case Ok((h, _)) =>
      if 0 < h.timestampUs < a.wallUs then [(a.wallUs, (a.wallUs - h.timestampUs) as real)] else []
  }

  function SamplesOf(cfg: Config, ds: seq<Arrival>): seq<DelayGradient.Sample> {
    if ds == [] then [] else SamplesOf(cfg, ds[..|ds| - 1]) + SampleOf(cfg, ds[|ds| - 1])
  }

  lemma ReceiveDelays(cfg: Config, st: RxState, a: Arrival)
    ensures Receive(cfg, st, a).0.delays == st.delays + SampleOf(cfg, a)
  {
    hide Unframe, Decrypt, Aad, Feed, ReceiverLen, Observe, Timeouts.RecordArrival;
    assert st.delays + [] == st.delays;
  }

  /**
   * A datagram adds a delay sample exactly when its header is accepted and carries a time between zero and now;
   * whether its payload authenticates plays no part.
   */
  lemma SampleIff(cfg: Config, st: RxState, a: Arrival)
    ensures Receive(cfg, st, a).0.delays != st.delays <==>
      Accepted(cfg, a.datagram).Ok? && 0 < Accepted(cfg, a.datagram).value.0.timestampUs < a.wallUs
    ensures Receive(cfg, st, a).0.delays != st.delays ==>
      Receive(cfg, st, a).0.delays == st.delays + [(a.wallUs, (a.wallUs - Accepted(cfg, a.datagram).value.0.timestampUs) as real)]
  {
    hide Receive, Accepted;
    ReceiveDelays(cfg, st, a);
  }

  /** The history after any run holds the samples of exactly those datagrams, in order. */
  lemma {:induction false} RunDelays(cfg: Config, st: RxState, ds: seq<Arrival>)
    ensures RunFrom(cfg, st, ds).0.delays == st.delays + SamplesOf(cfg, ds)
  {
    hide Receive, SampleOf;
    if ds == [] {
      assert st.delays + [] == st.delays;
    } else {
      var front, a := ds[..|ds| - 1], ds[|ds| - 1];
      RunDelays(cfg, st, front);
      ReceiveDelays(cfg, RunFrom(cfg, st, front).0, a);
    }
  }

  // ---- The receiver object ----

  datatype LoopEvent = Datagram(arrival: Arrival) | SocketError | Silence

  datatype Exit = AllComplete | TimedOut | ChannelClosed | Listening

  /** The datagrams among the events of the socket. */
  function Heard(events: seq<LoopEvent>): seq<Arrival> {
    if events == [] then []
    else Heard(events[..|events| - 1]) + match events[|events| - 1] case Datagram(a) => [a] case _ => []
  }

  lemma HeardStep(events: seq<LoopEvent>, n: nat)
    requires n < |events|
    ensures Heard(events[..n + 1]) == Heard(events[..n]) + match events[n] case Datagram(a) => [a] case _ => []
  {
    assert events[..n + 1][..n] == events[..n];
  }

  /** After the first `n` events some block is still missing. */
  ghost predicate Outstanding(cfg: Config, st: RxState, events: seq<LoopEvent>, n: nat) {
    n <= |events| && |RunFrom(cfg, st, Heard(events[..n])).0.completed| < Total(cfg)
  }

  class UdpReceiver {
    const cfg: Config
    const adaptiveFec: AdaptiveFec
    const rateCalc: DelayGradient.ReceiverRateCalculator
    const timeoutPredictor: Timeouts.TimeoutPredictor
    var pendingBlocks: map<nat, Pending>
    var completedBlocks: seq<nat>
    var blockExpectTimes: map<nat, nat>
    var totalPacketsReceived: nat
    var totalBytesReceived: nat

    ghost predicate Valid()
      reads this, rateCalc
    {
      rateCalc.Valid()
    }

    ghost function State(): RxState
      reads this, adaptiveFec, rateCalc, timeoutPredictor
    {
      RxState(pendingBlocks, completedBlocks, blockExpectTimes, adaptiveFec.State(), timeoutPredictor.State(),
              rateCalc.trace, totalPacketsReceived, totalBytesReceived)
    }

    constructor (cfg: Config, targetMbps: nat)
      ensures Valid() && this.cfg == cfg && State() == NewState(cfg, targetMbps)
      ensures fresh(adaptiveFec) && fresh(rateCalc) && fresh(timeoutPredictor)
    {
      this.cfg := cfg;
      adaptiveFec := new AdaptiveFec();
      rateCalc := new DelayGradient.ReceiverRateCalculator();
      timeoutPredictor := new Timeouts.TimeoutPredictor(targetMbps, cfg.blockSize);
      pendingBlocks, completedBlocks, blockExpectTimes := map[], [], map[];
      totalPacketsReceived, totalBytesReceived := 0, 0;
    }

    method ProcessPacket(a: Arrival) returns (r: Result<Option<ReceivedBlock>, PacketError>)
      requires Valid()
      modifies this`pendingBlocks, this`blockExpectTimes, rateCalc
      ensures Valid() && (State(), r) == Process(cfg, old(State()), a)
    {
      hide Unframe, Decrypt, Aad, Feed, ReceiverLen;
      var unframed := Unframe(a.datagram);
      if unframed.TooShort? {
        return Err(PacketTooShort);
      }
      if unframed.BadHeader? {
        return Err(HeaderCorrupt);
      }
      var header := unframed.header;
      if header.magic != MAGIC {
        return Err(WrongMagic);
      }
      if header.sessionId != cfg.sessionId {
        return Err(WrongSession);
      }
      if header.timestampUs > 0 && a.wallUs > header.timestampUs {
        rateCalc.RecordOwd(a.wallUs, (a.wallUs - header.timestampUs) as real);
      }
      if header.packetType == Data {
        var aad := Aad(header.sessionId, header.blockId, header.symbolId);
        var decrypted := Decrypt(cfg.aead, unframed.payload, aad);
        if decrypted.None? {
          return Err(NotAuthentic);
        }
        var block := AddSymbol(header.blockId, decrypted.value, a.at);
        return Ok(block);
      }
      r := Ok(None);
    }

    /** The part of the packet handling that follows decryption. */
    method AddSymbol(blockId: nat, packet: Bytes, at: nat) returns (b: Option<ReceivedBlock>)
      modifies this`pendingBlocks, this`blockExpectTimes
      ensures (State(), b) == TakeSymbol(cfg, old(State()), blockId, packet, at)
    {
      hide Feed, ReceiverLen;
      if blockId in completedBlocks {
        return None;
      }
      if blockId !in blockExpectTimes {
        blockExpectTimes := blockExpectTimes[blockId := at];
      }
      if blockId !in pendingBlocks {
        var actualBlockLen := ReceiverLen(cfg.fileSize, cfg.blockSize, blockId);
        pendingBlocks := pendingBlocks[blockId := Pending(NewDecoder(actualBlockLen), 0, at)];
      }
      var pending := pendingBlocks[blockId];
      var packetsReceived := pending.packetsReceived + 1;
      var (decoder, decoded) := Feed(cfg.codec, pending.decoder, packet);
      match decoded {
        case None =>
          pendingBlocks := pendingBlocks[blockId := Pending(decoder, packetsReceived, pending.firstPacketTime)];
          assert pendingBlocks == old(pendingBlocks)[blockId := Pending(decoder, packetsReceived, pending.firstPacketTime)];
          b := None;
        case Some((data, stats)) =>
          pendingBlocks := pendingBlocks - {blockId};
          assert pendingBlocks == old(pendingBlocks) - {blockId};
          b := Some(ReceivedBlock(blockId, data, packetsReceived, Timeouts.Elapsed(pending.firstPacketTime, at), stats));
      }
    }

    /** What the loop does with a decoded block before sending it on. */
    method CompleteBlock(block: ReceivedBlock, at: nat)
      modifies this`completedBlocks, this`blockExpectTimes, adaptiveFec, timeoutPredictor
      ensures State() == Finish(old(State()), block, at)
    {
      hide Timeouts.RecordArrival, Timeouts.Late, Observe, Ratio;
      var newRatio := adaptiveFec.Update(block.stats);
      if block.blockId in blockExpectTimes {
        var expectTime := blockExpectTimes[block.blockId];
        blockExpectTimes := blockExpectTimes - {block.blockId};
        var late := timeoutPredictor.Record(block.blockId, expectTime, at, |block.data|);
      } else {
        assert blockExpectTimes - {block.blockId} == blockExpectTimes;
      }
      completedBlocks := completedBlocks + [block.blockId];
      assert State().expectTimes == Finish(old(State()), block, at).expectTimes;
    }

    method HandleDatagram(a: Arrival) returns (out: seq<ReceivedBlock>)
      requires Valid()
      modifies this, adaptiveFec, rateCalc, timeoutPredictor
      ensures Valid() && (State(), out) == Receive(cfg, old(State()), a)
    {
      hide Process, Finish;
      totalPacketsReceived := totalPacketsReceived + 1;
      totalBytesReceived := totalBytesReceived + |a.datagram|;
      var r := ProcessPacket(a);
      if r.Ok? && r.value.Some? {
        CompleteBlock(r.value.value, a.at);
        out := [r.value.value];
      } else {
        out := [];
      }
    }

    /**
     * Runs on the events of the socket until every block is complete, ten seconds of silence, or the
     * channel is closed. `sendOk` says whether the n-th send into the channel succeeds. The blocks in
     * `sent` reached the channel; a block whose send failed has been completed but is lost. Nothing is read after
     * the first silence, the first failed send, or the last block.
     */
    method ReceiveLoop(events: seq<LoopEvent>, sendOk: nat -> bool) returns (sent: seq<ReceivedBlock>, used: nat, exit: Exit)
      requires Valid()
      modifies this, adaptiveFec, rateCalc, timeoutPredictor
      ensures Valid() && used <= |events|
      ensures var (st, out) := RunFrom(cfg, old(State()), Heard(events[..used]));
        State() == st && if exit.ChannelClosed? then sent <= out && |out| == |sent| + 1 else sent == out
      ensures match exit
        case AllComplete => |completedBlocks| >= Total(cfg)
        case TimedOut => used > 0 && events[used - 1].Silence? && |completedBlocks| < Total(cfg)
        case ChannelClosed => !sendOk(|sent|)
        case Listening => used == |events| && |completedBlocks| < Total(cfg)
      ensures forall i :: 0 <= i < used && !(exit.TimedOut? && i == used - 1) ==> !events[i].Silence?
      ensures forall k :: 0 <= k < |sent| ==> sendOk(k)
      ensures forall n :: 0 <= n < used ==> Outstanding(cfg, old(State()), events, n)
    {
      hide Receive, RunFrom, Heard, Total;
      sent, used := [], 0;
      ghost var st0 := State();
      NothingHeard(cfg, st0);
      while |completedBlocks| < Total(cfg)
        invariant Valid() && used <= |events|
        invariant (State(), sent) == RunFrom(cfg, st0, Heard(events[..used]))
        invariant forall i :: 0 <= i < used ==> !events[i].Silence?
        invariant forall k :: 0 <= k < |sent| ==> sendOk(k)
        invariant forall n :: 0 <= n < used ==> Outstanding(cfg, st0, events, n)
        decreases |events| - used
      {
        if used == |events| {
          return sent, used, Listening;
        }
        var event := events[used];
        HeardStep(events, used);
        assert Outstanding(cfg, st0, events, used);
        assert Heard(events[..used]) + [] == Heard(events[..used]);
        used := used + 1;
        match event {
          case SocketError =>
          case Silence =>
            return sent, used, TimedOut;
          case Datagram(a) =>
            RunStep(cfg, st0, Heard(events[..used - 1]), a);
            var out := HandleDatagram(a);
            if |out| == 1 {
              if !sendOk(|sent|) {
                return sent, used, ChannelClosed;
              }
            }
            sent := sent + out;
        }
      }
      exit := AllComplete;
    }
  }

  lemma NothingHeard(cfg: Config, st: RxState)
    ensures Heard([]) == [] && RunFrom(cfg, st, []) == (st, [])
  {}
}
