/**
 * Sender, network and receiver together: what the sender seals is what the receiver accepts, and a
 * bounded loss per block is repaired.
 */
module Delivery {
  import opened Prelude
  import opened Blocks
  import opened Wire
  import opened Crypto
  import opened Fec
  import opened Interleave
  import Sender
  import opened Receiver

  // ---- Authenticity ----

  ghost predicate SealedAs(log: seq<Sealed>, aad: string, plaintext: Bytes) {
    exists i :: 0 <= i < |log| && log[i].aad == aad && log[i].plaintext == plaintext
  }

  /** Ciphertext integrity: what the receiver manages to open, the sender has sealed under that very text. */
  ghost predicate Unforged(cfg: Config, log: seq<Sealed>, d: Bytes) {
    match Accepted(cfg, d)
    case Err(_) => true
    case Ok((h, payload)) =>
      var aad := Aad(h.sessionId, h.blockId, h.symbolId);
      match Decrypt(cfg.aead, payload, aad)
      case None => true
      case Some(p) => SealedAs(log, aad, p)
  }

  ghost predicate EntryFor(cfg: Config, src: Bytes, e: Sealed, id: nat, symbolId: nat)
    requires |src| == cfg.fileSize
  {
    && id < Total(cfg) && e.aad == Aad(cfg.sessionId, id, symbolId)
    && IsSymbol(cfg.codec, Block(src, cfg.blockSize, id), e.plaintext)
  }

  ghost predicate Honest(cfg: Config, src: Bytes, e: Sealed)
    requires |src| == cfg.fileSize
  {
    exists id, y :: EntryFor(cfg, src, e, id, y)
  }

  /** Everything sealed so far is a symbol of the block its associated data names. */
  ghost predicate LogOf(cfg: Config, src: Bytes, log: seq<Sealed>)
    requires |src| == cfg.fileSize
  {
    forall i :: 0 <= i < |log| ==> Honest(cfg, src, log[i])
  }

  /** Header and payload are bound: a symbol accepted under a header is one of the block it names. */
  lemma UnforgedIsAuthentic(cfg: Config, src: Bytes, log: seq<Sealed>, d: Bytes)
    requires |src| == cfg.fileSize
    requires LogOf(cfg, src, log) && Unforged(cfg, log, d)
    ensures Authentic(cfg, src, d)
  {
    hide Aad, Unframe, Decrypt, IsSymbol;
    if Open(cfg, d).Symbol? {
      var h := Accepted(cfg, d).value.0;
      var aad := Aad(h.sessionId, h.blockId, h.symbolId);
      var i :| 0 <= i < |log| && log[i].aad == aad && log[i].plaintext == Open(cfg, d).packet;
      assert Honest(cfg, src, log[i]);
      var id, y :| EntryFor(cfg, src, log[i], id, y);
      AadInjective(h.sessionId, h.blockId, h.symbolId, cfg.sessionId, id, y);
    }
  }

  // ---- What the sender puts on the wire ----

  /** The blocks of a group are blocks of the source file. */
  ghost predicate OfSource(cfg: Config, src: Bytes, blocks: seq<(nat, Bytes)>)
    requires |src| == cfg.fileSize
  {
    forall i :: 0 <= i < |blocks| ==> blocks[i].0 < Total(cfg) && blocks[i].1 == Block(src, cfg.blockSize, blocks[i].0)
  }

  /** Sender and receiver share the session, the key and the code. */
  ghost predicate Paired(cfg: Config, sender: Sender.UdpSender) {
    && sender.sessionId == cfg.sessionId < U32 && Total(cfg) < U32
    && sender.crypto.aead == cfg.aead && Crypto.Lawful(cfg.aead)
    && sender.fecEncoder.codec == cfg.codec
  }

  /** The postcondition of `SendBlocksInterleaved`: packets and log entries of one group. */
  ghost predicate GroupSent(cfg: Config, sender: Sender.UdpSender, blocks: seq<(nat, Bytes)>, ratio: real, seq0: nat,
                            packets: seq<Bytes>, entries: seq<Sealed>)
  {
    var encoded := Sender.EncodeAll(cfg.codec, ratio, blocks);
    && (forall i :: 0 <= i < |encoded| ==> |encoded[i]| < U32)
    && sender.Covers(Sender.Ids(blocks), encoded, Schedule(Sender.Lens(encoded)), seq0, packets, entries)
  }

  /** The receiver opens the packet of a slot to exactly the symbol the sender put there. */
  lemma PacketOpens(cfg: Config, sender: Sender.UdpSender, ids: seq<nat>, encoded: seq<seq<Bytes>>, slot: Slot, seqNum: nat,
                    packet: Bytes, sealed: Sealed)
    requires Paired(cfg, sender)
    requires Sender.SentFor(cfg.aead, cfg.sessionId, ids, encoded, slot, seqNum, packet, sealed)
    requires ids[slot.blk] < U32 && slot.sym < U32 && seqNum < U32
    ensures Open(cfg, packet) == Symbol(ids[slot.blk], encoded[slot.blk][slot.sym])
    ensures Unforged(cfg, [sealed], packet)
  {
    hide Aad, Unframe, Frame, Decrypt, Envelope;
    var h := Sender.DataHeader(cfg.sessionId, ids[slot.blk], slot.sym, seqNum);
    FrameRoundTrip(h, Envelope(cfg.aead, sealed));
    DecryptInvertsEnvelope(cfg.aead, sealed);
    assert SealedAs([sealed], sealed.aad, sealed.plaintext) by {
      assert [sealed][0] == sealed;
    }
  }

  /** Data packets are sent with timestamp zero, so they never add a sample to the receiver's delay history. */
  lemma DataAddsNoDelaySample(cfg: Config, sender: Sender.UdpSender, ids: seq<nat>, encoded: seq<seq<Bytes>>, slot: Slot, seqNum: nat,
                              packet: Bytes, sealed: Sealed, st: RxState, at: nat, wallUs: nat)
    requires Paired(cfg, sender)
    requires Sender.SentFor(cfg.aead, cfg.sessionId, ids, encoded, slot, seqNum, packet, sealed)
    requires ids[slot.blk] < U32 && slot.sym < U32 && seqNum < U32
    ensures Process(cfg, st, Arrival(packet, at, wallUs)).0.delays == st.delays
  {
    hide Aad, Unframe, Frame, Decrypt, Envelope, Feed, ReceiverLen;
    FrameRoundTrip(Sender.DataHeader(cfg.sessionId, ids[slot.blk], slot.sym, seqNum), Envelope(cfg.aead, sealed));
  }

  /**
   * Packets of a sender of another session, under the same key or any other, are foreign to this receiver: by
   * `ForeignChangesNothing` they change neither its blocks nor its delays, wherever they appear.
   */
  lemma OtherSessionIsForeign(cfg: Config, aead: Aead, sessionId: nat, ids: seq<nat>, encoded: seq<seq<Bytes>>, slot: Slot, seqNum: nat,
                              packet: Bytes, sealed: Sealed)
    requires sessionId != cfg.sessionId && sessionId < U32
    requires Sender.SentFor(aead, sessionId, ids, encoded, slot, seqNum, packet, sealed)
    requires ids[slot.blk] < U32 && slot.sym < U32 && seqNum < U32
    ensures Foreign(cfg, packet)
  {
    hide Aad, Unframe, Frame, Envelope;
    FrameRoundTrip(Sender.DataHeader(sessionId, ids[slot.blk], slot.sym, seqNum), Envelope(aead, sealed));
  }

  /** The header on the wire: which block and symbol, and consecutive sequence numbers that wrap at 32 bits. */
  lemma HeaderOnTheWire(cfg: Config, sender: Sender.UdpSender, blocks: seq<(nat, Bytes)>, ratio: real, seq0: nat,
                        packets: seq<Bytes>, entries: seq<Sealed>, i: nat)
    requires Paired(cfg, sender) && GroupSent(cfg, sender, blocks, ratio, seq0, packets, entries)
    requires i < |packets| && forall k :: 0 <= k < |blocks| ==> blocks[k].0 < U32
    ensures var slots := Schedule(Sender.Lens(Sender.EncodeAll(cfg.codec, ratio, blocks)));
      && i < |slots| && slots[i].blk < |blocks|
      && Unframe(packets[i]).Framed?
      && Unframe(packets[i]).header
         == Header([0x55, 0x50, 0x44, 0x4E], Data, cfg.sessionId, blocks[slots[i].blk].0, slots[i].sym, 0, (seq0 + i) % 0x1_0000_0000)
  {
    hide Aad, Schedule, Encoded, Unframe, Frame, Envelope;
    var encoded, ids := Sender.EncodeAll(cfg.codec, ratio, blocks), Sender.Ids(blocks);
    var slot := Schedule(Sender.Lens(encoded))[i];
    assert Sender.SentFor(cfg.aead, cfg.sessionId, ids, encoded, slot, Sender.SeqNum(seq0, i), packets[i], entries[i]);
    FrameRoundTrip(Sender.DataHeader(cfg.sessionId, ids[slot.blk], slot.sym, Sender.SeqNum(seq0, i)), Envelope(cfg.aead, entries[i]));
  }

  /** A bare header, without anything sealed behind it. */
  function BareHeader(sessionId: nat, timestampUs: nat): Bytes {
    Frame(SerializeHeader(Header(MAGIC, Data, sessionId, 0, 0, timestampUs, 0)), [])
  }

  /** The time in the header is used before anything is decrypted: a bare header is refused and still adds a sample. */
  lemma RefusedHeaderAddsDelaySample(cfg: Config, log: seq<Sealed>, st: RxState, timestampUs: nat, at: nat, wallUs: nat)
    requires cfg.sessionId < U32 && 0 < timestampUs < wallUs && timestampUs < U64
    ensures var a := Arrival(BareHeader(cfg.sessionId, timestampUs), at, wallUs);
      && Unforged(cfg, log, a.datagram) && Open(cfg, a.datagram) == Refused(NotAuthentic)
      && Receive(cfg, st, a).1 == []
      && Receive(cfg, st, a).0.delays == st.delays + [(wallUs, (wallUs - timestampUs) as real)]
  {
    hide Aad, Unframe, Frame, Receive;
    FrameRoundTrip(Header(MAGIC, Data, cfg.sessionId, 0, 0, timestampUs, 0), []);
    var a := Arrival(BareHeader(cfg.sessionId, timestampUs), at, wallUs);
    ReceiveDelays(cfg, st, a);
    ReceiveQuiet(cfg, st, a);
  }

  lemma SlotIsSent(cfg: Config, sender: Sender.UdpSender, blocks: seq<(nat, Bytes)>, ratio: real, seq0: nat,
                   packets: seq<Bytes>, entries: seq<Sealed>, i: nat)
    requires Paired(cfg, sender) && GroupSent(cfg, sender, blocks, ratio, seq0, packets, entries)
    requires i < |packets|
    requires forall k :: 0 <= k < |blocks| ==> blocks[k].0 < U32
    ensures |packets| == |entries|
    ensures var slot, encoded := Schedule(Sender.Lens(Sender.EncodeAll(cfg.codec, ratio, blocks)))[i], Sender.EncodeAll(cfg.codec, ratio, blocks);
      && slot.blk < |blocks| && slot.sym < |encoded[slot.blk]|
      && Open(cfg, packets[i]) == Symbol(blocks[slot.blk].0, encoded[slot.blk][slot.sym])
      && entries[i].aad == Aad(cfg.sessionId, blocks[slot.blk].0, slot.sym)
      && entries[i].plaintext == encoded[slot.blk][slot.sym]
      && Unforged(cfg, [entries[i]], packets[i])
  {
    hide Aad, Schedule, Encoded, Open, Unforged, Frame, Envelope;
    var encoded, ids := Sender.EncodeAll(cfg.codec, ratio, blocks), Sender.Ids(blocks);
    var slot := Schedule(Sender.Lens(encoded))[i];
    assert Sender.SentFor(cfg.aead, cfg.sessionId, ids, encoded, slot, Sender.SeqNum(seq0, i), packets[i], entries[i]);
    PacketOpens(cfg, sender, ids, encoded, slot, Sender.SeqNum(seq0, i), packets[i], entries[i]);
  }

  /** The log entries of a group keep the log honest: each seals a symbol of the block it names. */
  lemma SentGroupIsLogged(cfg: Config, src: Bytes, sender: Sender.UdpSender, blocks: seq<(nat, Bytes)>, ratio: real, seq0: nat,
                          packets: seq<Bytes>, entries: seq<Sealed>)
    requires |src| == cfg.fileSize && OfSource(cfg, src, blocks)
    requires Paired(cfg, sender) && GroupSent(cfg, sender, blocks, ratio, seq0, packets, entries)
    ensures LogOf(cfg, src, entries)
  {
    hide Aad, Schedule, Encoded, Open, Unforged, IsSymbol;
    var encoded := Sender.EncodeAll(cfg.codec, ratio, blocks);
    forall i: nat | i < |entries|
      ensures Honest(cfg, src, entries[i])
    {
      SlotIsSent(cfg, sender, blocks, ratio, seq0, packets, entries, i);
      var slot := Schedule(Sender.Lens(encoded))[i];
      EncodedIsSymbol(cfg.codec, blocks[slot.blk].1, ratio, slot.sym);
      assert EntryFor(cfg, src, entries[i], blocks[slot.blk].0, slot.sym);
    }
  }

  lemma EncodedIsSymbol(c: Codec, data: Bytes, ratio: real, j: nat)
    requires j < |Encoded(c, data, ratio)|
    ensures IsSymbol(c, data, Encoded(c, data, ratio)[j])
  {
    EncodedAreSymbols(c, data, ratio, c.blocks(|data|));
  }

  lemma LogAppends(cfg: Config, src: Bytes, log: seq<Sealed>, more: seq<Sealed>)
    requires |src| == cfg.fileSize
    requires LogOf(cfg, src, log) && LogOf(cfg, src, more)
    ensures LogOf(cfg, src, log + more)
  {}

  // ---- A bounded loss is repaired ----

  ghost predicate Reached(ds: seq<Arrival>, d: Bytes) {
    exists k :: 0 <= k < |ds| && ds[k].datagram == d
  }

  lemma {:induction false} ReachedIsDelivered(cfg: Config, ds: seq<Arrival>, d: Bytes, id: nat)
    requires Reached(ds, d)
    ensures Carried(cfg, d, id) <= Delivered(cfg, ds, id)
  {
    hide Carried;
    var last := |ds| - 1;
    if ds[last].datagram != d {
      var k :| 0 <= k < |ds| && ds[k].datagram == d;
      assert ds[..last][k].datagram == d;
      ReachedIsDelivered(cfg, ds[..last], d, id);
    }
  }

  /** The symbols of block `b` whose packets are lost. */
  ghost function LostOf(lens: seq<nat>, b: nat, lost: set<nat>): set<nat>
    requires b < |lens|
  {
    set s: nat | s < lens[b] && Pos(lens, b, s) in lost
  }

  /** The packets of a group that are not lost are among the datagrams, anywhere and any number of times. */
  ghost predicate AllButLost(packets: seq<Bytes>, lost: set<nat>, ds: seq<Arrival>) {
    forall i :: 0 <= i < |packets| && i !in lost ==> Reached(ds, packets[i])
  }

  lemma SurvivorsDelivered(cfg: Config, sender: Sender.UdpSender, blocks: seq<(nat, Bytes)>, ratio: real, seq0: nat,
                           packets: seq<Bytes>, entries: seq<Sealed>, lost: set<nat>, ds: seq<Arrival>, b: nat)
    requires Paired(cfg, sender) && GroupSent(cfg, sender, blocks, ratio, seq0, packets, entries)
    requires forall k :: 0 <= k < |blocks| ==> blocks[k].0 < U32
    requires b < |blocks| && AllButLost(packets, lost, ds)
    ensures var encoded := Sender.EncodeAll(cfg.codec, ratio, blocks);
      Surviving(encoded[b], LostOf(Sender.Lens(encoded), b, lost)) <= Delivered(cfg, ds, blocks[b].0)
  {
    hide Encoded, Schedule, Open, Delivered, Pos, Aad, Unforged;
    var encoded := Sender.EncodeAll(cfg.codec, ratio, blocks);
    var lens := Sender.Lens(encoded);
    forall j: nat | j < |encoded[b]| && j !in LostOf(lens, b, lost)
      ensures encoded[b][j] in Delivered(cfg, ds, blocks[b].0)
    {
      EverySymbolScheduled(lens, b, j);
      var i := Pos(lens, b, j);
      SlotIsSent(cfg, sender, blocks, ratio, seq0, packets, entries, i);
      ReachedIsDelivered(cfg, ds, packets[i], blocks[b].0);
    }
  }

  /** More symbols of the same block never hurt. */
  lemma MoreDecodes(c: Codec, data: Bytes, s: set<Bytes>, t: set<Bytes>)
    requires Fec.Lawful(c) && SymbolsOf(c, data, t) && s <= t
    requires c.decode(|data|, s).Some?
    ensures c.decode(|data|, t).Some?
  {}

  /**
   * Loss is repaired end to end: whatever else arrives, in whatever order, a block of a sent group comes
   * out of the receiver with its source bytes if no source block of it loses more than its repair symbols.
   */
  lemma GroupSurvivesLoss(cfg: Config, src: Bytes, targetMbps: nat, sender: Sender.UdpSender, blocks: seq<(nat, Bytes)>, ratio: real,
                          seq0: nat, packets: seq<Bytes>, entries: seq<Sealed>, lost: set<nat>, ds: seq<Arrival>, b: nat)
    requires |src| == cfg.fileSize && OfSource(cfg, src, blocks) && Ideal(cfg.codec)
    requires Paired(cfg, sender) && GroupSent(cfg, sender, blocks, ratio, seq0, packets, entries)
    requires AllAuthentic(cfg, src, ds) && AllButLost(packets, lost, ds)
    requires b < |blocks|
    requires Repairable(cfg.codec, blocks[b].1, ratio, LostOf(Sender.Lens(Sender.EncodeAll(cfg.codec, ratio, blocks)), b, lost))
    ensures var out := RunFrom(cfg, NewState(cfg, targetMbps), ds).1;
      blocks[b].0 in Ids(out) && Faithful(cfg, src, out)
  {
    hide Encoded, Schedule, Delivered, Surviving, LostOf, GroupSent, SymbolsOf, RunFrom, Open, Fec.Lawful, Repairable;
    var (id, data) := blocks[b];
    var encoded := Sender.EncodeAll(cfg.codec, ratio, blocks);
    var lostHere := LostOf(Sender.Lens(encoded), b, lost);
    LengthsAgree(cfg.fileSize, cfg.blockSize, id);
    LossTolerated(cfg.codec, data, ratio, lostHere);
    SurvivorsDelivered(cfg, sender, blocks, ratio, seq0, packets, entries, lost, ds, b);
    RunTracks(cfg, src, targetMbps, ds);
    assert TracksBlock(cfg, src, RunFrom(cfg, NewState(cfg, targetMbps), ds).0, ds, id);
    MoreDecodes(cfg.codec, data, Surviving(encoded[b], lostHere), Delivered(cfg, ds, id));
    EmittedExactly(cfg, src, targetMbps, ds);
  }

  /** The packet indexes `first .. first + len`. */
  ghost function Burst(first: nat, len: nat): set<nat> {
    Below(first + len) - Below(first)
  }

  /** A burst of consecutive losses, anywhere in the schedule, spread over the blocks at least as long as block `b`. */
  lemma GroupSurvivesBurst(cfg: Config, src: Bytes, targetMbps: nat, sender: Sender.UdpSender, blocks: seq<(nat, Bytes)>, ratio: real,
                           seq0: nat, packets: seq<Bytes>, entries: seq<Sealed>, first: nat, len: nat, ds: seq<Arrival>, b: nat)
    requires |src| == cfg.fileSize && OfSource(cfg, src, blocks) && Ideal(cfg.codec)
    requires Paired(cfg, sender) && GroupSent(cfg, sender, blocks, ratio, seq0, packets, entries)
    requires AllAuthentic(cfg, src, ds) && AllButLost(packets, Burst(first, len), ds)
    requires b < |blocks|
    requires var lens := Sender.Lens(Sender.EncodeAll(cfg.codec, ratio, blocks));
      forall z: nat :: z < cfg.codec.blocks(|blocks[b].1|) ==> CeilDiv(len, Peers(lens, b)) <= NumRepair(cfg.codec.k(|blocks[b].1|, z), ratio)
    ensures var out := RunFrom(cfg, NewState(cfg, targetMbps), ds).1;
      blocks[b].0 in Ids(out) && Faithful(cfg, src, out)
  {
    hide Encoded, Schedule, GroupSent, RunFrom, Pos, Peers, AllAuthentic, Ideal, OfSource, Faithful;
    var lens := Sender.Lens(Sender.EncodeAll(cfg.codec, ratio, blocks));
    var lost := Burst(first, len);
    BurstBound(lens, b, first, len);
    assert LostOf(lens, b, lost) == Hit(lens, b, first, len);
    FewLostRepairable(cfg.codec, blocks[b].1, ratio, LostOf(lens, b, lost));
    GroupSurvivesLoss(cfg, src, targetMbps, sender, blocks, ratio, seq0, packets, entries, lost, ds, b);
  }
}
