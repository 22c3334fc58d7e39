/**
 * transport/sender.rs: encode a group of blocks, lay the interleaved, framed and sealed packets out
 * in one wire buffer, and blast them.
 */
module Sender {
  import opened Prelude
  import opened Wire
  import opened Crypto
  import opened Fec
  import opened Interleave
  import opened Gso
  import opened RateControl

  datatype SendError = SendmsgFailed

  datatype SendStats = SendStats(blocksSent: nat, blockIds: seq<nat>, bytesSent: nat, packetsSent: nat, totalSymbols: nat)

  function Lens(encoded: seq<seq<Bytes>>): (r: seq<nat>)
    ensures |r| == |encoded|
    ensures forall i :: 0 <= i < |r| ==> r[i] == |encoded[i]|
  {
    seq(|encoded|, i requires 0 <= i < |encoded| => |encoded[i]|)
  }

  function DataHeader(sessionId: nat, blockId: nat, symbolId: nat, seqNum: nat): Header {
    Header(MAGIC, Data, sessionId, blockId, symbolId, 0, seqNum)
  }

  /** Packet and log entry are what is sent for one slot of the schedule. */
  ghost predicate SentFor(
    aead: Aead, sessionId: nat, ids: seq<nat>, encoded: seq<seq<Bytes>>,
    slot: Slot, seqNum: nat, packet: Bytes, sealed: Sealed)
  {
    && |ids| == |encoded| && ValidSlot(Lens(encoded), slot)
    && |sealed.nonce| == NONCE_LEN
    && sealed.aad == Aad(sessionId, ids[slot.blk], slot.sym)
    && sealed.plaintext == encoded[slot.blk][slot.sym]
    && packet == Frame(SerializeHeader(DataHeader(sessionId, ids[slot.blk], slot.sym, seqNum)), Envelope(aead, sealed))
  }

  // ---- The wire buffer and its index ----

  /** The buffer is the concatenation of the packets, and the index says where each one lies. */
  ghost predicate Laid(wire: Bytes, index: seq<(nat, nat)>, packets: seq<Bytes>)
    decreases packets
  {
    && |index| == |packets|
    && if packets == [] then wire == []
       else
         var p := packets[|packets| - 1];
         && |p| <= |wire| && wire[|wire| - |p|..] == p
         && index[|index| - 1] == (|wire| - |p|, |p|)
         && Laid(wire[..|wire| - |p|], index[..|index| - 1], packets[..|packets| - 1])
  }

  /** The ranges follow each other without gap or overlap and end at `n`. */
  ghost predicate Tiles(index: seq<(nat, nat)>, n: nat) {
    if index == [] then n == 0
    else
      var last := index[|index| - 1];
      last.0 + last.1 == n && Tiles(index[..|index| - 1], last.0)
  }

  lemma LaidAppend(wire: Bytes, index: seq<(nat, nat)>, packets: seq<Bytes>, p: Bytes)
    requires Laid(wire, index, packets)
    ensures Laid(wire + p, index + [(|wire|, |p|)], packets + [p])
  {
    assert (wire + p)[..|wire|] == wire && (wire + p)[|wire|..] == p;
    assert (index + [(|wire|, |p|)])[..|index|] == index;
    assert (packets + [p])[..|packets|] == packets;
  }

  /** The index tiles the buffer, and cutting along it gives the packets. */
  lemma {:induction false} LaidPackets(wire: Bytes, index: seq<(nat, nat)>, packets: seq<Bytes>)
    requires Laid(wire, index, packets)
    ensures Tiles(index, |wire|)
    ensures forall i :: 0 <= i < |index| ==>
      index[i].0 + index[i].1 <= |wire| && wire[index[i].0..index[i].0 + index[i].1] == packets[i]
    decreases packets
  {
    if packets != [] {
      var p := packets[|packets| - 1];
      var before := wire[..|wire| - |p|];
      LaidPackets(before, index[..|index| - 1], packets[..|packets| - 1]);
      forall i | 0 <= i < |index|
        ensures index[i].0 + index[i].1 <= |wire| && wire[index[i].0..index[i].0 + index[i].1] == packets[i]
      {
        if i < |index| - 1 {
          var (o, l) := index[i];
          assert index[..|index| - 1][i] == (o, l);
          assert o + l <= |before| && before[o..o + l] == packets[i];
          assert before[o..o + l] == wire[o..o + l];
        }
      }
    }
  }

  lemma PacketsOfLaid(wire: Bytes, index: seq<(nat, nat)>, packets: seq<Bytes>)
    requires Laid(wire, index, packets)
    requires forall i :: 0 <= i < |packets| ==> packets[i] != []
    ensures forall p :: p in index ==> p.1 > 0 && p.0 + p.1 <= |wire|
    ensures Packets(wire, index) == packets
  {
    LaidPackets(wire, index, packets);
    forall i | 0 <= i < |index|
      ensures index[i].1 > 0
    {
      assert packets[i] != [];
    }
  }

  lemma NoSymbols()
    ensures Sum(Lens([])) == 0
  {}

  lemma OneMoreEncoded(encoded: seq<seq<Bytes>>, enc: seq<Bytes>)
    ensures Sum(Lens(encoded + [enc])) == Sum(Lens(encoded)) + |enc|
  {
    assert Lens(encoded + [enc]) == Lens(encoded) + [|enc|];
    assert (Lens(encoded) + [|enc|])[..|encoded|] == Lens(encoded);
  }

  /** The sequence number of packet `n` after `start`: it wraps at 32 bits. */
  function SeqNum(start: nat, n: nat): nat {
    (start + n) % U32
  }

  lemma NextSeqNum(start: nat, n: nat)
    requires start < U32
    ensures SeqNum(start, 0) == start
    ensures (SeqNum(start, n) + 1) % U32 == SeqNum(start, n + 1) < U32
  {}

  lemma RowEnds(lens: seq<nat>, s: nat)
    ensures Rows(lens, 0) == [] && Row(lens, s, 0) == [] && Rows(lens, s + 1) == Rows(lens, s) + Row(lens, s, |lens|)
  {}

  lemma RowStep(lens: seq<nat>, s: nat, b: nat)
    requires b < |lens|
    ensures Row(lens, s, b + 1) == Row(lens, s, b) + if s < lens[b] then [Slot(b, s)] else []
  {}

  class UdpSender {
    const sessionId: nat
    const crypto: CryptoContext
    const fecEncoder: FecEncoder
    const rateController: RateController
    var seqNum: nat

    ghost predicate Valid()
      reads this, crypto
    {
      sessionId < U32 && seqNum < U32 && crypto.Valid()
    }

    constructor (sessionId: nat, crypto: CryptoContext, fecEncoder: FecEncoder, rateController: RateController)
      requires sessionId < U32 && crypto.Valid()
      ensures Valid() && seqNum == 0
      ensures this.sessionId == sessionId && this.crypto == crypto
      ensures this.fecEncoder == fecEncoder && this.rateController == rateController
    {
      this.sessionId := sessionId;
      this.crypto := crypto;
      this.fecEncoder := fecEncoder;
      this.rateController := rateController;
      seqNum := 0;
    }

    /** Every slot sent so far, with its sequence number and its log entry. */
    ghost predicate Covers(ids: seq<nat>, encoded: seq<seq<Bytes>>, slots: seq<Slot>, seq0: nat, packets: seq<Bytes>, entries: seq<Sealed>) {
      && |packets| == |slots| == |entries|
      && forall i :: 0 <= i < |slots| ==>
        SentFor(crypto.aead, sessionId, ids, encoded, slots[i], SeqNum(seq0, i), packets[i], entries[i])
    }

    lemma CoversOneMore(ids: seq<nat>, encoded: seq<seq<Bytes>>, slots: seq<Slot>, seq0: nat, packets: seq<Bytes>, entries: seq<Sealed>,
                        slot: Slot, packet: Bytes, sealed: Sealed)
      requires Covers(ids, encoded, slots, seq0, packets, entries)
      requires SentFor(crypto.aead, sessionId, ids, encoded, slot, SeqNum(seq0, |slots|), packet, sealed)
      ensures Covers(ids, encoded, slots + [slot], seq0, packets + [packet], entries + [sealed])
    {}

    /** The body of the inner loop: one packet. */
    method BuildPacket(blockId: nat, symbolId: nat, symbolData: Bytes) returns (packet: Bytes, ghost sealed: Sealed)
      requires Valid() && blockId < U32 && symbolId < U32
      modifies this`seqNum, crypto
      ensures Valid() && seqNum == (old(seqNum) + 1) % U32
      ensures crypto.log == old(crypto.log) + [sealed]
      ensures && |sealed.nonce| == NONCE_LEN
        && sealed.aad == Aad(sessionId, blockId, symbolId) && sealed.plaintext == symbolData
        && packet == Frame(SerializeHeader(DataHeader(sessionId, blockId, symbolId, old(seqNum))), Envelope(crypto.aead, sealed))
    {
      var header := DataHeader(sessionId, blockId, symbolId, seqNum);
      seqNum := (seqNum + 1) % U32;
      var headerBytes := SerializeHeader(header);
      var aad := Aad(sessionId, blockId, symbolId);
      var encrypted := crypto.Encrypt(symbolData, aad);
      sealed := crypto.log[|old(crypto.log)|];
      assert NonceOf(sealed.nonce, |old(crypto.log)|);
      packet := Frame(headerBytes, encrypted);
    }

    /** The state of the build after the slots in `slots`, started when the log was `log0`. */
    ghost predicate Built(ids: seq<nat>, encoded: seq<seq<Bytes>>, slots: seq<Slot>, log0: seq<Sealed>, seq0: nat,
                          wire: Bytes, index: seq<(nat, nat)>, packets: seq<Bytes>)
      reads this, crypto
    {
      && Valid() && seq0 < U32 && seqNum == SeqNum(seq0, |packets|)
      && Laid(wire, index, packets)
      && log0 <= crypto.log
      && Covers(ids, encoded, slots, seq0, packets, crypto.log[|log0|..])
    }

    method AppendPacket(ids: seq<nat>, encoded: seq<seq<Bytes>>, b: nat, s: nat, wire: Bytes, index: seq<(nat, nat)>,
                        ghost slots: seq<Slot>, ghost log0: seq<Sealed>, ghost seq0: nat, ghost packets: seq<Bytes>)
      returns (wire': Bytes, index': seq<(nat, nat)>, ghost packets': seq<Bytes>)
      requires Built(ids, encoded, slots, log0, seq0, wire, index, packets)
      requires |ids| == |encoded| && b < |encoded| && s < |encoded[b]| && ids[b] < U32 && s < U32
      modifies this`seqNum, crypto
      ensures Built(ids, encoded, slots + [Slot(b, s)], log0, seq0, wire', index', packets')
    {
      hide Laid, SeqNum, Aad, Frame;
      ghost var entries := crypto.log[|log0|..];
      var packet;
      ghost var sealed;
      packet, sealed := BuildPacket(ids[b], s, encoded[b][s]);
      assert crypto.log[|log0|..] == entries + [sealed];
      NextSeqNum(seq0, |packets|);
      LaidAppend(wire, index, packets, packet);
      SentForSlot(ids, encoded, Slot(b, s), SeqNum(seq0, |slots|), packet, sealed);
      CoversOneMore(ids, encoded, slots, seq0, packets, entries, Slot(b, s), packet, sealed);
      index' := index + [(|wire|, |packet|)];
      wire' := wire + packet;
      packets' := packets + [packet];
    }

    /** Phase 2: the interleaved wire buffer and its index. */
    method BuildWire(ids: seq<nat>, encoded: seq<seq<Bytes>>)
      returns (wire: Bytes, index: seq<(nat, nat)>, ghost packets: seq<Bytes>)
      requires Valid() && |ids| == |encoded|
      requires forall i :: 0 <= i < |ids| ==> ids[i] < U32
      requires forall i :: 0 <= i < |encoded| ==> |encoded[i]| < U32
      modifies this`seqNum, crypto
      ensures Built(ids, encoded, Schedule(Lens(encoded)), old(crypto.log), old(seqNum), wire, index, packets)
    {
      hide Laid, Rows, Row, SeqNum, Built;
      ghost var log0, seq0 := crypto.log, seqNum;
      ghost var slots: seq<Slot> := [];
      var lens := Lens(encoded);
      wire, index := [], [];
      packets := [];
      EmptyBuilt(ids, encoded, log0, seq0);
      RowEnds(lens, 0);

      for s := 0 to Longest(lens)
        invariant slots == Rows(lens, s)
        invariant Built(ids, encoded, slots, log0, seq0, wire, index, packets)
      {
        RowEnds(lens, s);
        for b := 0 to |encoded|
          invariant slots == Rows(lens, s) + Row(lens, s, b)
          invariant Built(ids, encoded, slots, log0, seq0, wire, index, packets)
        {
          RowStep(lens, s, b);
          if s < |encoded[b]| {
            wire, index, packets := AppendPacket(ids, encoded, b, s, wire, index, slots, log0, seq0, packets);
            slots := slots + [Slot(b, s)];
          }
        }
      }
    }

    lemma EmptyBuilt(ids: seq<nat>, encoded: seq<seq<Bytes>>, log0: seq<Sealed>, seq0: nat)
      requires Valid() && log0 == crypto.log && seq0 == seqNum
      ensures Built(ids, encoded, [], log0, seq0, [], [], [])
    {}

    lemma SentForSlot(ids: seq<nat>, encoded: seq<seq<Bytes>>, slot: Slot, seqNum: nat, packet: Bytes, sealed: Sealed)
      requires |ids| == |encoded| && slot.blk < |encoded| && slot.sym < |encoded[slot.blk]|
      requires |sealed.nonce| == NONCE_LEN
      requires sealed.aad == Aad(sessionId, ids[slot.blk], slot.sym) && sealed.plaintext == encoded[slot.blk][slot.sym]
      requires packet == Frame(SerializeHeader(DataHeader(sessionId, ids[slot.blk], slot.sym, seqNum)), Envelope(crypto.aead, sealed))
      ensures SentFor(crypto.aead, sessionId, ids, encoded, slot, seqNum, packet, sealed)
    {}

    /** Bytes per second, at least one. */
    function PacingRate(): (r: nat)
      reads rateController
      ensures r == Max(rateController.currentRate, 1)
    {
      Max(rateController.CurrentRateBps() / 8, 1)
    }

    /**
     * Sends a group of blocks. On success the packets on the wire are, in order, those of the
     * schedule; on a socket error they are a prefix of them.
     */
    method SendBlocksInterleaved(blocks: seq<(nat, Bytes)>, clock: Clock, sendOk: nat -> bool)
      returns (r: Result<SendStats, SendError>, flushes: seq<Flush>, ghost packets: seq<Bytes>)
      requires Valid()
      requires forall i :: 0 <= i < |blocks| ==> blocks[i].0 < U32
      requires forall i :: 0 <= i < |blocks| ==> |Encoded(fecEncoder.codec, blocks[i].1, fecEncoder.repairRatio)| < U32
      modifies this`seqNum, crypto, clock
      ensures Valid()
      ensures Log(flushes, PacingRate())
      ensures old(crypto.log) <= crypto.log
      ensures var encoded, ids := EncodeAll(fecEncoder.codec, fecEncoder.repairRatio, blocks), Ids(blocks);
        Covers(ids, encoded, Schedule(Lens(encoded)), old(seqNum), packets, crypto.log[|old(crypto.log)|..])
      ensures OnWire(flushes) <= packets
      ensures r.Ok? ==>
        && OnWire(flushes) == packets
        && r.value.blocksSent == |blocks| && r.value.blockIds == Ids(blocks)
        && r.value.packetsSent == r.value.totalSymbols == |packets| && r.value.bytesSent == BytesOf(flushes)
    {
      hide Laid, Log, Schedule;
      var encoded, ids, totalSymbols := EncodeGroup(blocks);
      var wire, index;
      wire, index, packets := BuildWire(ids, encoded);
      FramesNotEmpty(ids, encoded, old(seqNum), packets, crypto.log[|old(crypto.log)|..]);
      PacketsOfLaid(wire, index, packets);
      ScheduleLength(Lens(encoded));

      var ok, bytesSent, packetsSent;
      ok, bytesSent, packetsSent, flushes := Blast(wire, index, PacingRate(), clock, sendOk);
      r := if ok then Ok(SendStats(|blocks|, ids, bytesSent, packetsSent, totalSymbols)) else Err(SendmsgFailed);
    }

    /** Phase 1: encode every block of the group. */
    method EncodeGroup(blocks: seq<(nat, Bytes)>) returns (encoded: seq<seq<Bytes>>, ids: seq<nat>, totalSymbols: nat)
      ensures encoded == EncodeAll(fecEncoder.codec, fecEncoder.repairRatio, blocks) && ids == Ids(blocks)
      ensures totalSymbols == Sum(Lens(encoded))
    {
      hide Encoded, Sum;
      encoded, ids, totalSymbols := [], [], 0;
      NoSymbols();
      for i := 0 to |blocks|
        invariant encoded == EncodeAll(fecEncoder.codec, fecEncoder.repairRatio, blocks[..i])
        invariant ids == Ids(blocks[..i])
        invariant totalSymbols == Sum(Lens(encoded))
      {
        var enc, stats := fecEncoder.Encode(blocks[i].1);
        OneMoreEncoded(encoded, enc);
        totalSymbols := totalSymbols + |enc|;
        encoded := encoded + [enc];
        ids := ids + [blocks[i].0];
      }
      assert blocks[..|blocks|] == blocks;
    }

    lemma FramesNotEmpty(ids: seq<nat>, encoded: seq<seq<Bytes>>, seq0: nat, packets: seq<Bytes>, entries: seq<Sealed>)
      requires Covers(ids, encoded, Schedule(Lens(encoded)), seq0, packets, entries)
      ensures forall i :: 0 <= i < |packets| ==> packets[i] != []
    {
      var slots := Schedule(Lens(encoded));
      forall i | 0 <= i < |packets|
        ensures packets[i] != []
      {
        assert SentFor(crypto.aead, sessionId, ids, encoded, slots[i], SeqNum(seq0, i), packets[i], entries[i]);
      }
    }
  }

  function EncodeAll(c: Codec, ratio: real, blocks: seq<(nat, Bytes)>): (r: seq<seq<Bytes>>)
    ensures |r| == |blocks|
    ensures forall i :: 0 <= i < |r| ==> r[i] == Encoded(c, blocks[i].1, ratio)
  {
    seq(|blocks|, i requires 0 <= i < |blocks| => Encoded(c, blocks[i].1, ratio))
  }

  function Ids(blocks: seq<(nat, Bytes)>): (r: seq<nat>)
    ensures |r| == |blocks|
    ensures forall i :: 0 <= i < |r| ==> r[i] == blocks[i].0
  {
    seq(|blocks|, i requires 0 <= i < |blocks| => blocks[i].0)
  }
}
