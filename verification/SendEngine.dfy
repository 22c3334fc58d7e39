/**
 * engine/send.rs: read the file block by block, leave out what the receiver has, and send the rest in
 * groups; then the whole path from the source file to the blocks that come out of the receiver.
 */
module SendEngine {
  import opened Prelude
  import opened Blocks
  import opened Wire
  import opened Crypto
  import opened Fec
  import opened Interleave
  import opened Gso
  import Sender
  import opened Receiver
  import opened Delivery

  /** A file open for reading, with its cursor. */
  class SourceFile {
    const contents: Bytes
    var cursor: nat

    constructor (contents: Bytes)
      ensures this.contents == contents && cursor == 0
    {
      this.contents := contents;
      cursor := 0;
    }

    method Seek(offset: nat)
      modifies this
      ensures cursor == offset
    {
      cursor := offset;
    }

    /** `read_exact`, called only where the file is long enough. */
    method ReadExact(n: nat) returns (data: Bytes)
      requires cursor + n <= |contents|
      modifies this
      ensures data == contents[old(cursor)..old(cursor) + n] && cursor == old(cursor) + n
    {
      data := contents[cursor..cursor + n];
      cursor := cursor + n;
    }
  }

  /** The blocks `lo .. hi` of the file, in order, without the skipped ones. */
  function Kept(file: Bytes, blockSize: pos, skip: set<nat>, lo: nat, hi: nat): seq<(nat, Bytes)>
    requires lo <= hi <= TotalBlocks(|file|, blockSize)
  {
    if lo == hi then []
    else Kept(file, blockSize, skip, lo, hi - 1) + if hi - 1 in skip then [] else [(hi - 1, Block(file, blockSize, hi - 1))]
  }

  lemma {:induction false} KeptConcat(file: Bytes, blockSize: pos, skip: set<nat>, lo: nat, mid: nat, hi: nat)
    requires lo <= mid <= hi <= TotalBlocks(|file|, blockSize)
    ensures Kept(file, blockSize, skip, lo, hi) == Kept(file, blockSize, skip, lo, mid) + Kept(file, blockSize, skip, mid, hi)
  {
    hide Block;
    if mid < hi {
      KeptConcat(file, blockSize, skip, lo, mid, hi - 1);
    }
  }

  /** What is kept: exactly the blocks that are not skipped, each once, in increasing order, each with its own bytes. */
  lemma {:induction false} KeptMeans(file: Bytes, blockSize: pos, skip: set<nat>, hi: nat)
    requires hi <= TotalBlocks(|file|, blockSize)
    ensures var kept := Kept(file, blockSize, skip, 0, hi);
      && (forall i :: 0 <= i < |kept| ==> kept[i].0 < hi && kept[i].0 !in skip && kept[i].1 == Block(file, blockSize, kept[i].0))
      && (forall i, j :: 0 <= i < j < |kept| ==> kept[i].0 < kept[j].0)
      && (forall id: nat :: id < hi && id !in skip ==> (id, Block(file, blockSize, id)) in kept)
  {
    hide Block;
    if hi > 0 {
      KeptMeans(file, blockSize, skip, hi - 1);
    }
  }

  /** Where block `id` starts; past the last block, the end of the file. */
  function CursorAt(fileSize: nat, blockSize: pos, id: nat): nat {
    Min(id * blockSize, fileSize)
  }

  lemma CursorStep(fileSize: nat, blockSize: pos, id: nat)
    requires id < TotalBlocks(fileSize, blockSize)
    ensures CursorAt(fileSize, blockSize, id) == id * blockSize
    ensures CursorAt(fileSize, blockSize, id + 1) == id * blockSize + BlockLen(fileSize, blockSize, id) <= fileSize
  {
    OffsetInside(fileSize, blockSize, id);
    assert (id + 1) * blockSize == id * blockSize + blockSize;
  }

  /** The group is what is kept of the `n`-th stretch of `depth` consecutive blocks, the last one cut at the end of the file. */
  ghost predicate Stretch(file: Bytes, blockSize: pos, skip: set<nat>, depth: pos, group: seq<(nat, Bytes)>, n: nat) {
    var total := TotalBlocks(|file|, blockSize);
    n * depth < total && group == Kept(file, blockSize, skip, n * depth, Min(n * depth + depth, total))
  }

  ghost predicate IsStretch(file: Bytes, blockSize: pos, skip: set<nat>, depth: pos, group: seq<(nat, Bytes)>) {
    exists n: nat :: Stretch(file, blockSize, skip, depth, group, n)
  }

  class SendEngine {
    const blockSize: pos
    const interleaveDepth: pos

    constructor (blockSize: pos, interleaveDepth: pos)
      ensures this.blockSize == blockSize && this.interleaveDepth == interleaveDepth
    {
      this.blockSize, this.interleaveDepth := blockSize, interleaveDepth;
    }

    /** One group: skipped blocks are read too, which keeps the cursor aligned. */
    method ReadGroup(file: SourceFile, skip: set<nat>, bid: nat, groupEnd: nat) returns (group: seq<(nat, Bytes)>)
      requires bid <= groupEnd <= TotalBlocks(|file.contents|, blockSize)
      requires file.cursor == CursorAt(|file.contents|, blockSize, bid)
      modifies file
      ensures group == Kept(file.contents, blockSize, skip, bid, groupEnd)
      ensures file.cursor == CursorAt(|file.contents|, blockSize, groupEnd)
    {
      hide CursorAt;
      group := [];
      for currentBid := bid to groupEnd
        invariant group == Kept(file.contents, blockSize, skip, bid, currentBid)
        invariant file.cursor == CursorAt(|file.contents|, blockSize, currentBid)
      {
        CursorStep(|file.contents|, blockSize, currentBid);
        var remaining := |file.contents| - currentBid * blockSize;
        var thisBlockSize := Min(remaining, blockSize);
        var data := file.ReadExact(thisBlockSize);
        if currentBid !in skip {
          group := group + [(currentBid, data)];
        }
      }
    }

    /**
     * The reader task. `channelOpen` says whether the n-th send of a group succeeds; when it does not, the
     * group is lost and the reader stops. Otherwise the groups are exactly the blocks to send, in order.
     */
    method ReadFile(file: SourceFile, skip: set<nat>, channelOpen: nat -> bool) returns (groups: seq<seq<(nat, Bytes)>>, finished: bool)
      requires file.cursor == 0
      modifies file
      ensures forall i :: 0 <= i < |groups| ==> 0 < |groups[i]| <= interleaveDepth
      ensures forall i :: 0 <= i < |groups| ==> IsStretch(file.contents, blockSize, skip, interleaveDepth, groups[i])
      ensures Flatten(groups) <= Kept(file.contents, blockSize, skip, 0, TotalBlocks(|file.contents|, blockSize))
      ensures finished ==> Flatten(groups) == Kept(file.contents, blockSize, skip, 0, TotalBlocks(|file.contents|, blockSize))
      ensures !finished ==> !channelOpen(|groups|)
    {
      hide Flatten, CursorAt, Kept, IsStretch;
      ghost var n: nat := 0;
      ghost var contents := file.contents;
      var totalBlocks := TotalBlocks(|file.contents|, blockSize);
      groups, finished := [], true;
      var bid := 0;
      StartOfFile(contents, blockSize, skip);
      while bid < totalBlocks
        invariant bid <= totalBlocks && finished
        invariant bid == Min(n * interleaveDepth, totalBlocks)
        invariant forall i :: 0 <= i < |groups| ==> IsStretch(contents, blockSize, skip, interleaveDepth, groups[i])
        invariant file.cursor == CursorAt(|contents|, blockSize, bid)
        invariant forall i :: 0 <= i < |groups| ==> 0 < |groups[i]| <= interleaveDepth
        invariant Flatten(groups) == Kept(contents, blockSize, skip, 0, bid)
      {
        var groupEnd := Min(bid + interleaveDepth, totalBlocks);
        var group := ReadGroup(file, skip, bid, groupEnd);
        KeptConcat(contents, blockSize, skip, 0, bid, groupEnd);
        KeptConcat(contents, blockSize, skip, 0, groupEnd, totalBlocks);
        KeptLength(contents, blockSize, skip, bid, groupEnd);
        StretchFound(contents, blockSize, skip, interleaveDepth, group, n);
        assert Flatten(groups) <= Kept(contents, blockSize, skip, 0, totalBlocks);
        if group != [] {
          if !channelOpen(|groups|) {
            finished := false;
            break;
          }
          FlattenAppend(groups, group);
          groups := groups + [group];
        }
        bid := groupEnd;
        n := n + 1;
      }
    }

    /**
     * The send loop. Whatever happens, everything sealed stays a symbol of the block it names; on success
     * every group has been sent.
     */
    method SendGroups(sender: Sender.UdpSender, groups: seq<seq<(nat, Bytes)>>, clock: Clock, sendOk: (nat, nat) -> bool,
                      ghost cfg: Config, ghost src: Bytes)
      returns (ok: bool, ghost sent: seq<SentGroup>)
      requires sender.Valid() && Paired(cfg, sender) && |src| == cfg.fileSize
      requires LogOf(cfg, src, sender.crypto.log)
      requires forall g :: 0 <= g < |groups| ==> OfSource(cfg, src, groups[g])
      requires SymbolsFit(cfg, src, sender.fecEncoder.repairRatio)
      modifies sender`seqNum, sender.crypto, clock
      ensures sender.Valid() && LogOf(cfg, src, sender.crypto.log)
      ensures ok ==> |sent| == |groups|
      ensures |sent| <= |groups| && forall g :: 0 <= g < |sent| ==>
        && sent[g].blocks == groups[g] && WasSent(cfg, sender, sender.fecEncoder.repairRatio, sent[g])
        && Logged(sent[g].entries, sender.crypto.log)
    {
      hide Flatten, GroupSent, LogOf, Encoded, Log, EntryFor, Logged;
      sent := [];
      ok := true;
      for g: nat := 0 to |groups|
        invariant sender.Valid() && LogOf(cfg, src, sender.crypto.log)
        invariant |sent| == g
        invariant forall k :: 0 <= k < g ==>
          && sent[k].blocks == groups[k] && WasSent(cfg, sender, sender.fecEncoder.repairRatio, sent[k])
          && Logged(sent[k].entries, sender.crypto.log)
      {
        ghost var log0, seq0 := sender.crypto.log, sender.seqNum;
        ghost var ratio := sender.fecEncoder.repairRatio;
        GroupFits(cfg, src, groups[g], ratio);
        var r, flushes;
        ghost var packets;
        r, flushes, packets := sender.SendBlocksInterleaved(groups[g], clock, (n: nat) => sendOk(g, n));
        ghost var entries := sender.crypto.log[|log0|..];
        GroupSentHolds(cfg, sender, groups[g], ratio, seq0, packets, entries);
        SentGroupIsLogged(cfg, src, sender, groups[g], ratio, seq0, packets, entries);
        LogAppends(cfg, src, log0, entries);
        assert log0 + entries == sender.crypto.log;
        LoggedLater(sent, log0, entries);
        if r.Err? {
          ok := false;
          return;
        }
        sent := sent + [SentGroup(groups[g], seq0, packets, entries)];
      }
    }

    /** Reader and send loop together; a group the reader could not queue makes the call fail. */
    method SendFile(file: SourceFile, skip: set<nat>, sender: Sender.UdpSender, clock: Clock, channelOpen: nat -> bool,
                    sendOk: (nat, nat) -> bool, ghost cfg: Config)
      returns (ok: bool, ghost groups: seq<seq<(nat, Bytes)>>, ghost sent: seq<SentGroup>)
      requires file.cursor == 0 && cfg.blockSize == blockSize && cfg.fileSize == |file.contents|
      requires sender.Valid() && Paired(cfg, sender) && LogOf(cfg, file.contents, sender.crypto.log)
      requires SymbolsFit(cfg, file.contents, sender.fecEncoder.repairRatio)
      modifies file, sender`seqNum, sender.crypto, clock
      ensures sender.Valid() && LogOf(cfg, file.contents, sender.crypto.log)
      ensures ok ==>
        && Flatten(groups) == Kept(file.contents, blockSize, skip, 0, Total(cfg))
        && |sent| == |groups|
        && (forall g :: 0 <= g < |groups| ==> IsStretch(file.contents, blockSize, skip, interleaveDepth, groups[g]))
        && forall g :: 0 <= g < |sent| ==>
             && sent[g].blocks == groups[g] && OfSource(cfg, file.contents, groups[g])
             && WasSent(cfg, sender, sender.fecEncoder.repairRatio, sent[g])
             && Logged(sent[g].entries, sender.crypto.log)
    {
      hide Flatten, Kept, LogOf, GroupSent, SymbolsFit, OfSource, IsStretch;
      ghost var src := file.contents;
      var queue, finished := ReadFile(file, skip, channelOpen);
      groups := queue;
      GroupsAreOfSource(cfg, src, skip, queue);
      var sentAll;
      sentAll, sent := SendGroups(sender, queue, clock, sendOk, cfg, src);
      ok := sentAll && finished;
    }
  }

  lemma StretchFound(file: Bytes, blockSize: pos, skip: set<nat>, depth: pos, group: seq<(nat, Bytes)>, n: nat)
    requires n * depth < TotalBlocks(|file|, blockSize)
    requires group == Kept(file, blockSize, skip, n * depth, Min(n * depth + depth, TotalBlocks(|file|, blockSize)))
    ensures IsStretch(file, blockSize, skip, depth, group)
    ensures (n + 1) * depth == n * depth + depth
  {
    hide Kept;
    assert Stretch(file, blockSize, skip, depth, group, n);
  }

  lemma StartOfFile(file: Bytes, blockSize: pos, skip: set<nat>)
    ensures CursorAt(|file|, blockSize, 0) == 0
    ensures Kept(file, blockSize, skip, 0, 0) == [] && Flatten<(nat, Bytes)>([]) == []
  {}

  lemma {:induction false} KeptLength(file: Bytes, blockSize: pos, skip: set<nat>, lo: nat, hi: nat)
    requires lo <= hi <= TotalBlocks(|file|, blockSize)
    ensures |Kept(file, blockSize, skip, lo, hi)| <= hi - lo
  {
    if lo < hi {
      KeptLength(file, blockSize, skip, lo, hi - 1);
    }
  }

  // ---- The whole path ----

  /** What one call of `send_blocks_interleaved` put on the wire. */
  datatype SentGroup = SentGroup(blocks: seq<(nat, Bytes)>, seq0: nat, packets: seq<Bytes>, entries: seq<Sealed>)

  ghost predicate WasSent(cfg: Config, sender: Sender.UdpSender, ratio: real, g: SentGroup) {
    GroupSent(cfg, sender, g.blocks, ratio, g.seq0, g.packets, g.entries)
  }

  /** The entries are part of the log. */
  ghost predicate Logged(entries: seq<Sealed>, log: seq<Sealed>) {
    forall i :: 0 <= i < |entries| ==> entries[i] in log
  }

  /** A growing log keeps its entries. */
  lemma LoggedLater(sent: seq<SentGroup>, log: seq<Sealed>, more: seq<Sealed>)
    requires forall g :: 0 <= g < |sent| ==> Logged(sent[g].entries, log)
    ensures Logged(more, log + more) && forall g :: 0 <= g < |sent| ==> Logged(sent[g].entries, log + more)
  {}

  /** The symbol ids of every block fit the 32-bit field of the header. */
  ghost predicate SymbolsFit(cfg: Config, src: Bytes, ratio: real)
    requires |src| == cfg.fileSize
  {
    forall id: nat :: id < Total(cfg) ==> |Encoded(cfg.codec, Block(src, cfg.blockSize, id), ratio)| < U32
  }

  lemma GroupFits(cfg: Config, src: Bytes, blocks: seq<(nat, Bytes)>, ratio: real)
    requires |src| == cfg.fileSize && Total(cfg) < U32
    requires OfSource(cfg, src, blocks) && SymbolsFit(cfg, src, ratio)
    ensures forall i :: 0 <= i < |blocks| ==> blocks[i].0 < U32 && |Encoded(cfg.codec, blocks[i].1, ratio)| < U32
  {
    hide Encoded;
  }

  lemma GroupSentHolds(cfg: Config, sender: Sender.UdpSender, blocks: seq<(nat, Bytes)>, ratio: real, seq0: nat,
                       packets: seq<Bytes>, entries: seq<Sealed>)
    requires forall i :: 0 <= i < |blocks| ==> |Encoded(cfg.codec, blocks[i].1, ratio)| < U32
    requires var encoded := Sender.EncodeAll(cfg.codec, ratio, blocks);
      sender.Covers(Sender.Ids(blocks), encoded, Schedule(Sender.Lens(encoded)), seq0, packets, entries)
    ensures GroupSent(cfg, sender, blocks, ratio, seq0, packets, entries)
  {
    hide Encoded, Schedule;
  }

  /** Every datagram of `ds` respects ciphertext integrity against the sender's log. */
  ghost predicate AllUnforged(cfg: Config, log: seq<Sealed>, ds: seq<Arrival>) {
    forall i :: 0 <= i < |ds| ==> Unforged(cfg, log, ds[i].datagram)
  }

  /** The datagram is refused before or by the decryption. */
  ghost predicate Unopenable(cfg: Config, d: Bytes) {
    match Accepted(cfg, d)
    case Err(_) => true
    case Ok((h, payload)) => Decrypt(cfg.aead, payload, Aad(h.sessionId, h.blockId, h.symbolId)).None?
  }

  /** The datagram is packet `i` of group `g`. */
  ghost predicate PacketOf(sent: seq<SentGroup>, d: Bytes, g: nat, i: nat) {
    g < |sent| && i < |sent[g].packets| && sent[g].packets[i] == d
  }

  ghost predicate IsSent(sent: seq<SentGroup>, d: Bytes) {
    exists g: nat, i: nat :: PacketOf(sent, d, g, i)
  }

  lemma UnforgedInLog(cfg: Config, e: Sealed, log: seq<Sealed>, d: Bytes)
    requires Unforged(cfg, [e], d) && e in log
    ensures Unforged(cfg, log, d)
  {
    hide Accepted, Aad, Decrypt;
  }

  /** The sender's own packets, in any order and number, and anything that does not open: all of it is unforged. */
  lemma SentIsUnforged(cfg: Config, src: Bytes, sender: Sender.UdpSender, ratio: real, sent: seq<SentGroup>, log: seq<Sealed>, ds: seq<Arrival>)
    requires |src| == cfg.fileSize && Paired(cfg, sender)
    requires forall g :: 0 <= g < |sent| ==>
      OfSource(cfg, src, sent[g].blocks) && WasSent(cfg, sender, ratio, sent[g]) && Logged(sent[g].entries, log)
    requires forall k :: 0 <= k < |ds| ==> IsSent(sent, ds[k].datagram) || Unopenable(cfg, ds[k].datagram)
    ensures AllUnforged(cfg, log, ds)
  {
    hide GroupSent, Unforged, Unopenable;
    forall k | 0 <= k < |ds|
      ensures Unforged(cfg, log, ds[k].datagram)
    {
      if IsSent(sent, ds[k].datagram) {
        var g: nat, i: nat :| PacketOf(sent, ds[k].datagram, g, i);
        var s := sent[g];
        assert WasSent(cfg, sender, ratio, s) && Logged(s.entries, log);
        SlotIsSent(cfg, sender, s.blocks, ratio, s.seq0, s.packets, s.entries, i);
        UnforgedInLog(cfg, s.entries[i], log, ds[k].datagram);
      } else {
        UnopenableIsUnforged(cfg, log, ds[k].datagram);
      }
    }
  }

  lemma UnopenableIsUnforged(cfg: Config, log: seq<Sealed>, d: Bytes)
    requires Unopenable(cfg, d)
    ensures Unforged(cfg, log, d)
  {
    hide Accepted, Aad, Decrypt;
  }

  /** Of group `g` everything arrives except `lost`, and no source block loses more than its repair symbols. */
  ghost predicate GroupArrives(cfg: Config, ratio: real, g: SentGroup, lost: set<nat>, ds: seq<Arrival>) {
    && AllButLost(g.packets, lost, ds)
    && forall b :: 0 <= b < |g.blocks| ==> LossRepairable(cfg, ratio, g, lost, b)
  }

  ghost predicate LossRepairable(cfg: Config, ratio: real, g: SentGroup, lost: set<nat>, b: nat)
    requires b < |g.blocks|
  {
    var lens := Sender.Lens(Sender.EncodeAll(cfg.codec, ratio, g.blocks));
    Repairable(cfg.codec, g.blocks[b].1, ratio, LostOf(lens, b, lost))
  }

  /** A block of the flattened list is a block of one of the groups. */
  lemma {:induction false} InSomeGroup(groups: seq<seq<(nat, Bytes)>>, x: (nat, Bytes)) returns (g: nat, b: nat)
    requires x in Flatten(groups)
    ensures g < |groups| && b < |groups[g]| && groups[g][b] == x
  {
    var last := |groups| - 1;
    if x in groups[last] {
      g := last;
      b :| 0 <= b < |groups[last]| && groups[last][b] == x;
    } else {
      g, b := InSomeGroup(groups[..last], x);
    }
  }

  lemma UnforgedAuthentic(cfg: Config, src: Bytes, log: seq<Sealed>, ds: seq<Arrival>)
    requires |src| == cfg.fileSize
    requires LogOf(cfg, src, log) && AllUnforged(cfg, log, ds)
    ensures AllAuthentic(cfg, src, ds)
  {
    hide LogOf, Unforged, Authentic;
    forall i | 0 <= i < |ds|
      ensures Authentic(cfg, src, ds[i].datagram)
    {
      UnforgedIsAuthentic(cfg, src, log, ds[i].datagram);
    }
  }

  /**
   * End to end. The file is read, cut, encoded, interleaved, sealed and sent; the network may lose up to the
   * repair symbols of each source block, reorder and repeat at will, and inject anything it cannot authenticate. Then
   * every block that was not skipped comes out of the receiver once, with exactly the bytes of the source.
   */
  lemma FileArrives(cfg: Config, src: Bytes, skip: set<nat>, targetMbps: nat, sender: Sender.UdpSender, ratio: real,
                    groups: seq<seq<(nat, Bytes)>>, sent: seq<SentGroup>, log: seq<Sealed>, lost: seq<set<nat>>, ds: seq<Arrival>, id: nat)
    requires |src| == cfg.fileSize && Paired(cfg, sender) && Ideal(cfg.codec)
    requires Flatten(groups) == Kept(src, cfg.blockSize, skip, 0, Total(cfg))
    requires |sent| == |groups| == |lost|
    requires forall g :: 0 <= g < |sent| ==> sent[g].blocks == groups[g] && OfSource(cfg, src, groups[g]) && WasSent(cfg, sender, ratio, sent[g])
    requires LogOf(cfg, src, log) && AllUnforged(cfg, log, ds)
    requires forall g :: 0 <= g < |sent| ==> GroupArrives(cfg, ratio, sent[g], lost[g], ds)
    requires id < Total(cfg) && id !in skip
    ensures var out := RunFrom(cfg, NewState(cfg, targetMbps), ds).1;
      id in Ids(out) && Distinct(Ids(out)) && Faithful(cfg, src, out)
  {
    hide Flatten, Kept, LogOf, GroupSent, AllAuthentic, AllUnforged, RunFrom, Encoded, LostOf, AllButLost, Ideal, Fec.Lawful, Decodable;
    UnforgedAuthentic(cfg, src, log, ds);
    KeptMeans(src, cfg.blockSize, skip, Total(cfg));
    var g, b := InSomeGroup(groups, (id, Block(src, cfg.blockSize, id)));
    var s := sent[g];
    assert WasSent(cfg, sender, ratio, s) && GroupArrives(cfg, ratio, s, lost[g], ds);
    assert LossRepairable(cfg, ratio, s, lost[g], b);
    GroupSurvivesLoss(cfg, src, targetMbps, sender, s.blocks, ratio, s.seq0, s.packets, s.entries, lost[g], ds, b);
    IdealIsLawful(cfg.codec);
    EmittedExactly(cfg, src, targetMbps, ds);
  }

  lemma {:induction false} InFlattened(groups: seq<seq<(nat, Bytes)>>, g: nat, b: nat)
    requires g < |groups| && b < |groups[g]|
    ensures groups[g][b] in Flatten(groups)
  {
    if g < |groups| - 1 {
      InFlattened(groups[..|groups| - 1], g, b);
    }
  }

  /** What the reader queues are blocks of the file. */
  lemma GroupsAreOfSource(cfg: Config, src: Bytes, skip: set<nat>, groups: seq<seq<(nat, Bytes)>>)
    requires |src| == cfg.fileSize
    requires Flatten(groups) <= Kept(src, cfg.blockSize, skip, 0, Total(cfg))
    ensures forall g :: 0 <= g < |groups| ==> OfSource(cfg, src, groups[g])
  {
    hide Flatten, Kept, Block;
    KeptMeans(src, cfg.blockSize, skip, Total(cfg));
    var kept := Kept(src, cfg.blockSize, skip, 0, Total(cfg));
    forall g, b | 0 <= g < |groups| && 0 <= b < |groups[g]|
      ensures groups[g][b].0 < Total(cfg) && groups[g][b].1 == Block(src, cfg.blockSize, groups[g][b].0)
    {
      InFlattened(groups, g, b);
      var i :| 0 <= i < |Flatten(groups)| && Flatten(groups)[i] == groups[g][b];
      assert kept[i] == groups[g][b];
    }
  }

  // ---- A burst anywhere in the file ----

  /** How many packets the groups before `g` have. */
  function PacketsBefore(sent: seq<SentGroup>, g: nat): nat
    requires g <= |sent|
  {
    if g == 0 then 0 else PacketsBefore(sent, g - 1) + |sent[g - 1].packets|
  }

  /** Of all packets of the file, numbered through, at most `len` consecutive ones from `first` are missing. */
  ghost predicate AllButBurst(sent: seq<SentGroup>, first: nat, len: nat, ds: seq<Arrival>) {
    forall g: nat, i: nat :: g < |sent| && i < |sent[g].packets| && !(first <= PacketsBefore(sent, g) + i < first + len) ==>
      Reached(ds, sent[g].packets[i])
  }

  /** The share of block `b` of a burst fits the repair symbols of each of its source blocks. */
  ghost predicate ShareRepairable(cfg: Config, ratio: real, blocks: seq<(nat, Bytes)>, b: nat, len: nat)
    requires b < |blocks|
  {
    var lens := Sender.Lens(Sender.EncodeAll(cfg.codec, ratio, blocks));
    forall z: nat :: z < cfg.codec.blocks(|blocks[b].1|) ==> CeilDiv(len, Peers(lens, b)) <= NumRepair(cfg.codec.k(|blocks[b].1|, z), ratio)
  }

  lemma CeilDivMono(a: nat, b: nat, n: nat)
    requires a <= b && n > 0
    ensures CeilDiv(a, n) <= CeilDiv(b, n)
  {
    DivModFacts(a + n - 1, n);
    DivModFacts(b + n - 1, n);
    if CeilDiv(b, n) < CeilDiv(a, n) {
      MulMono(CeilDiv(b, n) + 1, CeilDiv(a, n), n);
    }
  }

  /** The part of a burst of the file that falls into group `g`. */
  lemma LocalBurst(sent: seq<SentGroup>, first: nat, len: nat, ds: seq<Arrival>, g: nat) returns (start: nat, n: nat)
    requires g < |sent| && AllButBurst(sent, first, len, ds)
    ensures n <= len && AllButLost(sent[g].packets, Burst(start, n), ds)
  {
    hide PacketsBefore, Reached;
    start := Max(first - PacketsBefore(sent, g), 0);
    n := Max(first + len - PacketsBefore(sent, g), 0) - start;
    var packets := sent[g].packets;
    forall i: nat | i < |packets| && i !in Burst(start, n)
      ensures Reached(ds, packets[i])
    {
      assert packets[i] == sent[g].packets[i];
    }
  }

  /** One burst over the whole transmission, across groups or not: a block survives it if its share can be repaired. */
  lemma BlockSurvivesFileBurst(cfg: Config, src: Bytes, targetMbps: nat, sender: Sender.UdpSender, ratio: real, sent: seq<SentGroup>,
                               first: nat, len: nat, ds: seq<Arrival>, g: nat, b: nat)
    requires |src| == cfg.fileSize && Paired(cfg, sender) && Ideal(cfg.codec)
    requires g < |sent| && OfSource(cfg, src, sent[g].blocks) && WasSent(cfg, sender, ratio, sent[g])
    requires AllAuthentic(cfg, src, ds) && AllButBurst(sent, first, len, ds)
    requires b < |sent[g].blocks| && ShareRepairable(cfg, ratio, sent[g].blocks, b, len)
    ensures var out := RunFrom(cfg, NewState(cfg, targetMbps), ds).1;
      sent[g].blocks[b].0 in Ids(out) && Faithful(cfg, src, out)
  {
    hide GroupSent, AllAuthentic, OfSource, Faithful, RunFrom, Ideal, Peers, AllButBurst, AllButLost, Encoded, NumRepair, Paired, CeilDiv;
    var s := sent[g];
    var start, n := LocalBurst(sent, first, len, ds, g);
    var lens := Sender.Lens(Sender.EncodeAll(cfg.codec, ratio, s.blocks));
    CeilDivMono(n, len, Peers(lens, b));
    assert WasSent(cfg, sender, ratio, s);
    GroupSurvivesBurst(cfg, src, targetMbps, sender, s.blocks, ratio, s.seq0, s.packets, s.entries, start, n, ds, b);
  }

  lemma {:induction false} KeptAll(file: Bytes, blockSize: pos, lo: nat, hi: nat)
    requires lo <= hi <= TotalBlocks(|file|, blockSize)
    ensures var kept := Kept(file, blockSize, {}, lo, hi);
      |kept| == hi - lo && forall i: nat :: i < |kept| ==> kept[i] == (lo + i, Block(file, blockSize, lo + i))
  {
    hide Block;
    if lo < hi {
      KeptAll(file, blockSize, lo, hi - 1);
    }
  }

  /** Every block but the last one of the file has full size, so in a group of such blocks all have equally many symbols. */
  lemma FullGroupPeers(c: Codec, file: Bytes, blockSize: pos, ratio: real, lo: nat, hi: nat, b: nat)
    requires lo + b < hi < TotalBlocks(|file|, blockSize)
    ensures var blocks := Kept(file, blockSize, {}, lo, hi);
      |blocks| == hi - lo && Peers(Sender.Lens(Sender.EncodeAll(c, ratio, blocks)), b) == hi - lo
  {
    hide Block, Encoded;
    KeptAll(file, blockSize, lo, hi);
    var blocks := Kept(file, blockSize, {}, lo, hi);
    var lens := Sender.Lens(Sender.EncodeAll(c, ratio, blocks));
    forall i: nat | i < |lens|
      ensures lens[i] == |Encoded(c, blocks[0].1, ratio)|
    {
      FullBlock(file, blockSize, lo);
      FullBlock(file, blockSize, lo + i);
      assert blocks[i] == (lo + i, Block(file, blockSize, lo + i));
      EncodedSize(c, blocks[i].1, blocks[0].1, ratio);
    }
    EqualBlocksAllPeers(lens, lens[b], |lens|);
  }

  lemma FullBlock(file: Bytes, blockSize: pos, id: nat)
    requires id + 1 < TotalBlocks(|file|, blockSize)
    ensures |Block(file, blockSize, id)| == blockSize
  {
    OffsetInside(|file|, blockSize, id);
    assert (id + 1) * blockSize == id * blockSize + blockSize;
  }

  lemma EncodedSize(c: Codec, x: Bytes, y: Bytes, ratio: real)
    requires |x| == |y|
    ensures |Encoded(c, x, ratio)| == |Encoded(c, y, ratio)|
  {
    SameLengthSameCount(c, x, y, ratio, c.blocks(|x|));
  }

  /** The first block of the stretch that block `id` falls into. */
  function StretchStart(id: nat, depth: pos): nat {
    id / depth * depth
  }

  lemma StretchStartIs(id: nat, depth: pos, n: nat)
    requires n * depth <= id < n * depth + depth
    ensures StretchStart(id, depth) == n * depth
  {
    DivUnique(id, depth, n);
  }

  /** The group that holds block `id` is that stretch. */
  lemma GroupOfBlock(file: Bytes, blockSize: pos, depth: pos, group: seq<(nat, Bytes)>, b: nat, id: nat)
    requires IsStretch(file, blockSize, {}, depth, group) && b < |group| && group[b].0 == id
    ensures var lo, hi := StretchStart(id, depth), Min(StretchStart(id, depth) + depth, TotalBlocks(|file|, blockSize));
      lo + b == id && lo <= hi && group == Kept(file, blockSize, {}, lo, hi)
  {
    hide Kept, Block, StretchStart, TotalBlocks;
    var n: nat :| Stretch(file, blockSize, {}, depth, group, n);
    var lo := n * depth;
    KeptAll(file, blockSize, lo, Min(lo + depth, TotalBlocks(|file|, blockSize)));
    assert group[b] == (lo + b, Block(file, blockSize, lo + b));
    StretchStartIs(id, depth, n);
  }

  /** In a full stretch before the last block, the share of every block is one part in the depth. */
  lemma FullShare(cfg: Config, src: Bytes, ratio: real, lo: nat, depth: pos, b: nat, len: nat)
    requires |src| == cfg.fileSize && lo + depth < Total(cfg) && b < depth
    requires forall z: nat :: z < cfg.codec.blocks(cfg.blockSize) ==> CeilDiv(len, depth) <= NumRepair(cfg.codec.k(cfg.blockSize, z), ratio)
    ensures var blocks := Kept(src, cfg.blockSize, {}, lo, lo + depth);
      |blocks| == depth && ShareRepairable(cfg, ratio, blocks, b, len)
  {
    hide Kept, Block, NumRepair, Encoded, Peers;
    KeptAll(src, cfg.blockSize, lo, lo + depth);
    FullGroupPeers(cfg.codec, src, cfg.blockSize, ratio, lo, lo + depth, b);
    FullBlock(src, cfg.blockSize, lo + b);
  }

  lemma FindGroup(src: Bytes, blockSize: pos, depth: pos, groups: seq<seq<(nat, Bytes)>>, id: nat) returns (g: nat, b: nat)
    requires Flatten(groups) == Kept(src, blockSize, {}, 0, TotalBlocks(|src|, blockSize))
    requires forall g :: 0 <= g < |groups| ==> IsStretch(src, blockSize, {}, depth, groups[g])
    requires id < TotalBlocks(|src|, blockSize)
    ensures g < |groups| && b < |groups[g]| && groups[g][b].0 == id
    ensures var lo, hi := StretchStart(id, depth), Min(StretchStart(id, depth) + depth, TotalBlocks(|src|, blockSize));
      lo + b == id && lo <= hi && groups[g] == Kept(src, blockSize, {}, lo, hi)
  {
    hide Flatten, Kept, IsStretch, Block, StretchStart;
    KeptMeans(src, blockSize, {}, TotalBlocks(|src|, blockSize));
    assert (id, Block(src, blockSize, id)) in Flatten(groups);
    g, b := InSomeGroup(groups, (id, Block(src, blockSize, id)));
    GroupOfBlock(src, blockSize, depth, groups[g], b, id);
  }

  /**
   * What interleaving buys for a file sent whole: of any burst of consecutive packets, anywhere in the transmission, a
   * block loses at most a share of one part in the depth, so it survives if that share is within the repair symbols.
   * This holds of every block whose group ends before the last block of the file.
   */
  lemma DepthSurvivesBurst(cfg: Config, src: Bytes, targetMbps: nat, sender: Sender.UdpSender, ratio: real, depth: pos,
                           groups: seq<seq<(nat, Bytes)>>, sent: seq<SentGroup>, first: nat, len: nat, ds: seq<Arrival>, id: nat)
    requires |src| == cfg.fileSize && Paired(cfg, sender) && Ideal(cfg.codec)
    requires Flatten(groups) == Kept(src, cfg.blockSize, {}, 0, Total(cfg)) && |sent| == |groups|
    requires forall g :: 0 <= g < |groups| ==> IsStretch(src, cfg.blockSize, {}, depth, groups[g])
    requires forall g :: 0 <= g < |sent| ==> sent[g].blocks == groups[g] && OfSource(cfg, src, groups[g]) && WasSent(cfg, sender, ratio, sent[g])
    requires AllAuthentic(cfg, src, ds) && AllButBurst(sent, first, len, ds)
    requires StretchStart(id, depth) + depth < Total(cfg) && id < Total(cfg)
    requires forall z: nat :: z < cfg.codec.blocks(cfg.blockSize) ==> CeilDiv(len, depth) <= NumRepair(cfg.codec.k(cfg.blockSize, z), ratio)
    ensures var out := RunFrom(cfg, NewState(cfg, targetMbps), ds).1;
      id in Ids(out) && Faithful(cfg, src, out)
  {
    hide Flatten, Kept, GroupSent, AllAuthentic, AllButBurst, OfSource, Faithful, RunFrom, Ideal, Peers, IsStretch, Block, NumRepair, Encoded, Paired, StretchStart, ShareRepairable, WasSent;
    var g, b := FindGroup(src, cfg.blockSize, depth, groups, id);
    KeptLength(src, cfg.blockSize, {}, StretchStart(id, depth), StretchStart(id, depth) + depth);
    FullShare(cfg, src, ratio, StretchStart(id, depth), depth, b, len);
    BlockSurvivesFileBurst(cfg, src, targetMbps, sender, ratio, sent, first, len, ds, g, b);
  }
}
