/**
 * Runs of the receiving process, composed and constructed: what an honest sender sends can be made to come
 * out of the receive task, to pass the channel, and to be stored, one block after another.
 */
module Runs {
  import opened Prelude
  import opened Blocks
  import opened Resume
  import opened Receiver
  import opened Writer
  import opened Transfer
  import opened Fec
  import opened Wire
  import opened Crypto
  import opened Delivery

  // ---- Composing runs ----

  lemma {:induction false} RunConcat(w: World, s: Sys, xs: seq<Step>, ys: seq<Step>)
    requires Run(w, s, xs).Some?
    ensures Run(w, s, xs + ys) == Run(w, Run(w, s, xs).value, ys)
  {
    hide Exec;
    if ys == [] {
      assert xs + ys == xs;
    } else {
      var front := ys[..|ys| - 1];
      RunConcat(w, s, xs, front);
      assert (xs + ys)[..|xs + ys| - 1] == xs + front;
    }
  }

  lemma RunOne(w: World, s: Sys, step: Step)
    ensures Run(w, s, [step]) == Exec(w, s, step)
  {
    hide Exec;
    assert [step][..0] == [];
    assert Run(w, s, []) == Some(s);
  }

  lemma ReachableExtends(w: World, s: Sys, steps: seq<Step>)
    requires Reachable(w, s) && Run(w, s, steps).Some?
    ensures Reachable(w, Run(w, s, steps).value)
  {
    hide Run;
    var s0, before :| Initial(s0) && Run(w, s0, before) == Some(s);
    RunConcat(w, s0, before, steps);
  }

  lemma RunTwo(w: World, s: Sys, x: Step, y: Step)
    requires Exec(w, s, x).Some?
    ensures Run(w, s, [x, y]) == Exec(w, Exec(w, s, x).value, y)
  {
    hide Exec;
    RunOne(w, s, x);
    RunOne(w, Exec(w, s, x).value, y);
    RunConcat(w, s, [x], [y]);
    assert [x] + [y] == [x, y];
  }

  lemma InitialOk(w: World, s: Sys)
    requires Initial(s)
    ensures SysOk(w, s)
  {}

  lemma OkDiskHolds(w: World, s: Sys)
    requires SysOk(w, s)
    ensures DiskHolds(w.hash, s.disk, w.src)
  {}

  // ---- What can be sent, and making it come out ----

  ghost predicate OnlyCarries(cfg: Config, ds: seq<Arrival>, id: nat) {
    forall i :: 0 <= i < |ds| ==> Open(cfg, ds[i].datagram).Symbol? && Open(cfg, ds[i].datagram).blockId == id
  }

  /** Datagrams that an honest sender may send and that suffice to decode block `id`. */
  ghost predicate Supplies(w: World, cfg: Config, id: nat, ds: seq<Arrival>)
    requires cfg.fileSize == |w.src| && id < Total(cfg)
  {
    AllAuthentic(cfg, w.src, ds) && OnlyCarries(cfg, ds, id) && Decodable(cfg, ds, id)
  }

  ghost predicate Suppliable(w: World, cfg: Config, id: nat)
    requires cfg.fileSize == |w.src| && id < Total(cfg)
  {
    exists ds :: Supplies(w, cfg, id, ds)
  }

  /** Every block can be sent to this receiver. */
  ghost predicate CanBeSent(w: World, cfg: Config) {
    Sound(w, cfg) && forall id: nat :: id < Total(cfg) ==> Suppliable(w, cfg, id)
  }

  lemma {:induction false} DeliveredConcat(cfg: Config, xs: seq<Arrival>, ys: seq<Arrival>, id: nat)
    ensures Delivered(cfg, xs + ys, id) == Delivered(cfg, xs, id) + Delivered(cfg, ys, id)
  {
    hide Carried;
    if ys == [] {
      assert xs + ys == xs;
    } else {
      DeliveredConcat(cfg, xs, ys[..|ys| - 1], id);
      assert (xs + ys)[..|xs + ys| - 1] == xs + ys[..|ys| - 1];
    }
  }

  lemma NotAllCompleted(w: World, a: Attempt, id: nat)
    requires RxOk(w, a) && id < Total(a.cfg) && id !in a.rx.completed
    ensures |a.rx.completed| < Total(a.cfg)
  {
    hide TracksBlock, Fec.Lawful;
    EveryId(a.rx.completed, Total(a.cfg));
  }

  /** The state after a decoded block: only the receive task has moved, by exactly that block. */
  ghost predicate Emitted(s: Sys, t: Sys, id: nat) {
    && s.live.Some? && t.live.Some? && t.disk == s.disk
    && var a, b := s.live.value, t.live.value;
    && b.rxTask.Pushing? && b.rxTask.block.blockId == id
    && b == a.(rx := b.rx, heard := b.heard, rxTask := b.rxTask)
    && b.rx.completed == a.rx.completed + [id]
  }

  lemma DeliverOne(w: World, s: Sys, a: Attempt, arrival: Arrival, id: nat)
    requires SysOk(w, s) && s.live == Some(a) && a.rxTask.Receiving?
    requires Authentic(a.cfg, w.src, arrival.datagram)
    requires Open(a.cfg, arrival.datagram).Symbol? && Open(a.cfg, arrival.datagram).blockId == id
    requires id < Total(a.cfg) && id !in a.rx.completed
    ensures var t := Exec(w, s, Deliver(arrival));
      && t.Some? && SysOk(w, t.value) && t.value.disk == s.disk && t.value.live.Some?
      && var b := t.value.live.value;
      && b.heard == a.heard + [arrival]
      && (Emitted(s, t.value, id)
          || (b == a.(rx := b.rx, heard := b.heard) && b.rx.completed == a.rx.completed))
  {
    hide Tracks, TracksBlock, Receive, Open, WriterOk, PhaseOk, DiskHolds, Fec.Lawful, Authentic;
    NotAllCompleted(w, a, id);
    StepOk(w, s, Deliver(arrival));
    ReceiveSymbol(a.cfg, a.rx, arrival);
    TakeSymbolFrame(a.cfg, a.rx, a.rx, id, Open(a.cfg, arrival.datagram).packet, arrival.at);
  }

  lemma CompletedDecodable(w: World, a: Attempt, id: nat)
    requires RxOk(w, a) && id < Total(a.cfg)
    ensures id in a.rx.completed <==> Decodable(a.cfg, a.heard, id)
  {
    assert TracksBlock(a.cfg, w.src, a.rx, a.heard, id);
  }

  /** Delivering enough datagrams of one block makes the receive task push that block. */
  lemma {:induction false} DeliverUntil(w: World, s: Sys, a: Attempt, id: nat, supply: seq<Arrival>) returns (steps: seq<Step>)
    requires SysOk(w, s) && s.live == Some(a) && a.rxTask.Receiving?
    requires id < Total(a.cfg) && id !in a.rx.completed
    requires AllAuthentic(a.cfg, w.src, supply) && OnlyCarries(a.cfg, supply, id)
    requires Decodable(a.cfg, a.heard + supply, id)
    ensures Run(w, s, steps).Some? && SysOk(w, Run(w, s, steps).value) && Emitted(s, Run(w, s, steps).value, id)
    decreases |supply|
  {
    hide Exec, AttemptOk, Open, Decodable, Authentic, DiskHolds, Run;
    OkParts(w, a, s.disk);
    if supply == [] {
      assert a.heard + supply == a.heard;
      CompletedDecodable(w, a, id);
    } else {
      var first := supply[0];
      DeliverOne(w, s, a, first, id);
      RunOne(w, s, Deliver(first));
      var t := Exec(w, s, Deliver(first)).value;
      steps := [Deliver(first)];
      if !Emitted(s, t, id) {
        assert (a.heard + [first]) + supply[1..] == a.heard + supply;
        var rest := DeliverUntil(w, t, t.live.value, id, supply[1..]);
        RunConcat(w, s, steps, rest);
        steps := steps + rest;
      }
    }
  }

  lemma OkParts(w: World, a: Attempt, disk: Disk)
    requires AttemptOk(w, a, disk)
    ensures RxOk(w, a) && WriterOk(w, a, disk) && PhaseOk(a)
  {}

  /** From any good state, a block that has not come out yet can be made to come out. */
  lemma EmitBlock(w: World, s: Sys, a: Attempt, id: nat) returns (steps: seq<Step>)
    requires SysOk(w, s) && s.live == Some(a) && a.rxTask.Receiving?
    requires CanBeSent(w, a.cfg) && id < Total(a.cfg) && id !in a.rx.completed
    ensures Run(w, s, steps).Some? && SysOk(w, Run(w, s, steps).value) && Emitted(s, Run(w, s, steps).value, id)
  {
    hide Exec, Run, DiskHolds, Fec.Lawful, AllAuthentic, OnlyCarries, WriterOk, PhaseOk, Delivered, Emitted;
    assert Suppliable(w, a.cfg, id);
    var supply :| Supplies(w, a.cfg, id, supply);
    DeliveredConcat(a.cfg, a.heard, supply, id);
    HeardAndSupply(w, a, supply, id);
    steps := DeliverUntil(w, s, a, id, supply);
  }

  lemma {:induction false} SupplyIsSymbols(cfg: Config, src: Bytes, ds: seq<Arrival>, id: nat)
    requires |src| == cfg.fileSize && id < Total(cfg) && AllAuthentic(cfg, src, ds)
    ensures SymbolsOf(cfg.codec, Block(src, cfg.blockSize, id), Delivered(cfg, ds, id))
  {
    hide Open, IsSymbol;
    if ds != [] {
      SupplyIsSymbols(cfg, src, ds[..|ds| - 1], id);
      assert Authentic(cfg, src, ds[|ds| - 1].datagram);
    }
  }

  lemma HeardAndSupply(w: World, a: Attempt, supply: seq<Arrival>, id: nat)
    requires RxOk(w, a) && id < Total(a.cfg) && Supplies(w, a.cfg, id, supply)
    ensures Decodable(a.cfg, a.heard + supply, id)
  {
    hide Delivered, Fec.Lawful, AllAuthentic, OnlyCarries;
    DeliveredConcat(a.cfg, a.heard, supply, id);
    assert TracksBlock(a.cfg, w.src, a.rx, a.heard, id);
    SupplyIsSymbols(a.cfg, w.src, supply, id);
    var block := Block(w.src, a.cfg.blockSize, id);
    MoreDecodes(a.cfg.codec, block, Delivered(a.cfg, supply, id), Delivered(a.cfg, a.heard + supply, id));
  }

  /** Only the channel, the receive task and the writer differ, and block `id` is stored. */
  ghost predicate StoredOne(s: Sys, t: Sys, id: nat) {
    && s.live.Some? && t.live.Some?
    && var a, b := s.live.value, t.live.value;
    && b.cfg == a.cfg && b.rx == a.rx && b.resumed == a.resumed
    && b.rxTask.Receiving? && b.channel == []
    && Done(b.memory.image) == Done(a.memory.image) + {id}
    && b.memory.blocksWritten == a.memory.blocksWritten + 1
    && b.writer == NextTask(b, b.memory)
  }

  /** A pushed block that is new goes straight through the empty channel to the disk. */
  lemma StoreHeld(w: World, s: Sys, a: Attempt, outcome: SaveOutcome) returns (steps: seq<Step>)
    requires SysOk(w, s) && s.live == Some(a)
    requires a.rxTask.Pushing? && a.channel == [] && a.writer.Draining?
    requires !IsComplete(a.memory.image, a.rxTask.block.blockId)
    ensures Run(w, s, steps).Some? && SysOk(w, Run(w, s, steps).value)
    ensures StoredOne(s, Run(w, s, steps).value, a.rxTask.block.blockId)
    ensures outcome.Kept? ==> Run(w, s, steps).value.disk.resume == s.disk.resume
  {
    hide Run, SysOk, DiskHolds, WriteAndMark, Done, LongEnough;
    var b := a.rxTask.block;
    var pushed := Sys(s.disk, Some(a.(channel := [b], rxTask := Receiving)));
    StepOk(w, s, Push);
    assert a.channel + [b] == [b];
    assert Exec(w, s, Push) == Some(pushed);
    TakeEnabled(w, pushed);
    StepOk(w, pushed, Take);
    var t := Exec(w, pushed, Take).value;
    TakeStores(w, s, pushed, b);
    RunTwo(w, s, Push, Take);
    steps := [Push, Take];
    if t.live.value.writer.Saving? {
      StepOk(w, t, Save(outcome));
      RunOne(w, t, Save(outcome));
      RunConcat(w, s, steps, [Save(outcome)]);
      steps := steps + [Save(outcome)];
    }
  }

  lemma TakeEnabled(w: World, s: Sys)
    requires SysOk(w, s) && s.live.Some? && s.live.value.writer.Draining? && s.live.value.channel != []
    ensures CanTake(s.live.value)
  {
    hide Tracks, Fec.Lawful, DiskHolds, TransferComplete, Counted, Behind, LongEnough;
    HeadIsWanted(w, s.live.value, s.disk);
  }

  lemma TakeStores(w: World, s: Sys, pushed: Sys, b: ReceivedBlock)
    requires SysOk(w, pushed) && s.live.Some? && pushed.live.Some? && s.live.value.channel == []
    requires pushed.live.value == s.live.value.(channel := [b], rxTask := Receiving) && CanTake(pushed.live.value)
    requires !IsComplete(s.live.value.memory.image, b.blockId)
    ensures var t := Exec(w, pushed, Take);
      && t.Some? && t.value.live.Some? && t.value.disk.resume == pushed.disk.resume
      && var a, c := s.live.value, t.value.live.value;
      && c.cfg == a.cfg && c.rx == a.rx && c.resumed == a.resumed && c.rxTask.Receiving? && c.channel == []
      && Done(c.memory.image) == Done(a.memory.image) + {b.blockId}
      && c.memory.blocksWritten == a.memory.blocksWritten + 1
      && (c.writer.Saving? || c.writer == NextTask(c, c.memory))
  {
    hide Tracks, Fec.Lawful, DiskHolds, TransferComplete, Counted, Behind, LongEnough, Done, MemoryHolds, IsComplete;
    var a := pushed.live.value;
    HeadIsWanted(w, a, pushed.disk);
    WriteAndMarkHolds(a.cfg, w.hash, a.memory, pushed.disk, BlocksOf(w.src, a.cfg.blockSize), b);
  }

  /** The receive task has handed over blocks `lo .. hi` since the start, and all of them are stored. */
  ghost predicate FilledTo(w: World, cfg: Config, s: Sys, lo: nat, hi: nat) {
    && SysOk(w, s) && s.live.Some? && lo <= hi <= Total(cfg)
    && var a := s.live.value;
    && a.cfg == cfg && a.rxTask.Receiving? && a.channel == []
    && (forall id: nat :: id in a.rx.completed <==> lo <= id < hi)
    && a.resumed == Below(lo) && Done(a.memory.image) == Below(hi)
    && a.writer == if hi == Total(cfg) then Joining else Draining
  }

  lemma WrittenIsDone(w: World, s: Sys)
    requires SysOk(w, s) && s.live.Some?
    ensures s.live.value.memory.blocksWritten == |Done(s.live.value.memory.image)|
  {
    hide RxOk, DiskHolds, Counted, Behind, Holds, PhaseOk;
    CountIsCardinality(s.live.value.memory.image.completed);
  }

  /** One more block. If the writer saves after it, the save ends with `outcome`. */
  lemma FillOne(w: World, cfg: Config, s: Sys, lo: nat, hi: nat, outcome: SaveOutcome) returns (steps: seq<Step>)
    requires FilledTo(w, cfg, s, lo, hi) && hi < Total(cfg) && CanBeSent(w, cfg)
    ensures Run(w, s, steps).Some? && FilledTo(w, cfg, Run(w, s, steps).value, lo, hi + 1)
    ensures outcome.Kept? ==> Run(w, s, steps).value.disk.resume == s.disk.resume
  {
    hide Run, SysOk, CanBeSent, Done;
    var a := s.live.value;
    var emit := EmitBlock(w, s, a, hi);
    var t := Run(w, s, emit).value;
    var b := t.live.value;
    DoneIffComplete(b.memory.image, hi);
    var store := StoreHeld(w, t, b, outcome);
    RunConcat(w, s, emit, store);
    steps := emit + store;
    WrittenIsDone(w, Run(w, s, steps).value);
    assert Below(hi + 1) == Below(hi) + {hi};
  }

  lemma {:induction false} FillTo(w: World, cfg: Config, s: Sys, lo: nat, hi: nat, outcome: SaveOutcome) returns (steps: seq<Step>)
    requires FilledTo(w, cfg, s, lo, lo) && lo <= hi <= Total(cfg) && CanBeSent(w, cfg)
    ensures Run(w, s, steps).Some? && FilledTo(w, cfg, Run(w, s, steps).value, lo, hi)
    ensures outcome.Kept? ==> Run(w, s, steps).value.disk.resume == s.disk.resume
  {
    hide Exec, FilledTo, CanBeSent;
    if hi == lo {
      steps := [];
    } else {
      var before := FillTo(w, cfg, s, lo, hi - 1, outcome);
      var more := FillOne(w, cfg, Run(w, s, before).value, lo, hi - 1, outcome);
      RunConcat(w, s, before, more);
      steps := before + more;
    }
  }

  lemma StartFilled(w: World, s: Sys, cfg: Config, lo: nat)
    requires SysOk(w, s) && s.live.None? && Sound(w, cfg) && lo < Total(cfg)
    requires Done(Begin(cfg, s.disk).0.image) == Below(lo)
    ensures Exec(w, s, Start(cfg, 0)).Some? && FilledTo(w, cfg, Exec(w, s, Start(cfg, 0)).value, lo, lo)
  {
    hide DiskHolds, Fec.Lawful, AttemptOk, Begin;
    StepOk(w, s, Start(cfg, 0));
  }

  /** An attempt that has stored some blocks, but not block `missing`, is given up: it saves what it has. */
  lemma StopAndSave(w: World, s: Sys, a: Attempt, missing: nat) returns (steps: seq<Step>)
    requires SysOk(w, s) && s.live == Some(a)
    requires a.rxTask.Receiving? && a.channel == [] && a.writer.Draining?
    requires missing < Total(a.cfg) && missing !in a.rx.completed && missing !in Done(a.memory.image)
    ensures Run(w, s, steps).Some?
    ensures var t := Run(w, s, steps).value;
      && SysOk(w, t) && t.live.None? && t.disk == s.disk.(resume := Stored(a.memory.image))
      && Begin(a.cfg, t.disk).0.image == a.memory.image
  {
    hide Run, SysOk, TransferComplete, Count;
    SomethingMissing(w, s, a, missing);
    StepOk(w, s, TimeOut);
    var s1 := Exec(w, s, TimeOut).value;
    StepOk(w, s1, ChannelEnd);
    var s2 := Exec(w, s1, ChannelEnd).value;
    StepOk(w, s2, Complete(Saved));
    RunTwo(w, s, TimeOut, ChannelEnd);
    RunOne(w, s2, Complete(Saved));
    RunConcat(w, s, [TimeOut, ChannelEnd], [Complete(Saved)]);
    steps := [TimeOut, ChannelEnd] + [Complete(Saved)];
  }

  lemma SomethingMissing(w: World, s: Sys, a: Attempt, missing: nat)
    requires SysOk(w, s) && s.live == Some(a)
    requires missing < Total(a.cfg) && missing !in a.rx.completed && missing !in Done(a.memory.image)
    ensures |a.rx.completed| < Total(a.cfg) && !TransferComplete(a.memory.image)
    ensures Matches(a.memory.image, a.cfg.fileSize, a.cfg.blockSize, Total(a.cfg))
  {
    hide TracksBlock, Fec.Lawful, DiskHolds, Behind, Counted, TransferComplete, Block;
    NotAllCompleted(w, a, missing);
    BreakMeansComplete(a.cfg, w.hash, a.memory, s.disk, BlocksOf(w.src, a.cfg.blockSize));
    DoneIffComplete(a.memory.image, missing);
  }

  lemma NothingResumed(cfg: Config, disk: Disk)
    requires !disk.resume.Stored?
    ensures Done(Begin(cfg, disk).0.image) == Below(0)
  {}

  // ---- The premise: an honest sender can send every block ----

  function HonestPacket(cfg: Config, id: nat, symbolId: nat, plaintext: Bytes): Bytes {
    Frame(SerializeHeader(Header(MAGIC, Data, cfg.sessionId, id, symbolId, 0, 0)),
          Envelope(cfg.aead, Sealed(Zeros(NONCE_LEN), Aad(cfg.sessionId, id, symbolId), plaintext)))
  }

  function HonestSupply(cfg: Config, id: nat, packets: seq<Bytes>): (r: seq<Arrival>)
    ensures |r| == |packets|
    ensures forall i: nat :: i < |r| ==> r[i] == Arrival(HonestPacket(cfg, id, i, packets[i]), 0, 0)
  {
    seq(|packets|, (i: nat) requires i < |packets| => Arrival(HonestPacket(cfg, id, i, packets[i]), 0, 0))
  }

  lemma HonestPacketOpens(cfg: Config, id: nat, symbolId: nat, plaintext: Bytes)
    requires Crypto.Lawful(cfg.aead)
    requires cfg.sessionId < U32 && id < U32 && symbolId < U32
    ensures Open(cfg, HonestPacket(cfg, id, symbolId, plaintext)) == Symbol(id, plaintext)
  {
    hide Aad, Unframe, Frame, Decrypt, Envelope;
    var sealed := Sealed(Zeros(NONCE_LEN), Aad(cfg.sessionId, id, symbolId), plaintext);
    FrameRoundTrip(Header(MAGIC, Data, cfg.sessionId, id, symbolId, 0, 0), Envelope(cfg.aead, sealed));
    DecryptInvertsEnvelope(cfg.aead, sealed);
  }

  /** With an ideal code and numbers that fit the header, every block of every file can be sent. */
  lemma HonestSenderSupplies(w: World, cfg: Config)
    requires cfg.fileSize == |w.src| && Ideal(cfg.codec) && Crypto.Lawful(cfg.aead)
    requires cfg.sessionId < U32 && Total(cfg) < U32
    requires forall id: nat :: id < Total(cfg) ==> |Encoded(cfg.codec, Block(w.src, cfg.blockSize, id), 0.0)| < U32
    ensures CanBeSent(w, cfg)
  {
    hide Supplies, Encoded, Fec.Lawful;
    forall id: nat | id < Total(cfg)
      ensures Suppliable(w, cfg, id)
    {
      var block := Block(w.src, cfg.blockSize, id);
      var packets := Encoded(cfg.codec, block, 0.0);
      LengthsAgree(cfg.fileSize, cfg.blockSize, id);
      HonestSupplies(w, cfg, id, block, packets);
      assert Supplies(w, cfg, id, HonestSupply(cfg, id, packets));
    }
  }

  lemma HonestSupplies(w: World, cfg: Config, id: nat, block: Bytes, packets: seq<Bytes>)
    requires cfg.fileSize == |w.src| && Ideal(cfg.codec) && Crypto.Lawful(cfg.aead)
    requires cfg.sessionId < U32 && id < Total(cfg) < U32
    requires block == Block(w.src, cfg.blockSize, id) && packets == Encoded(cfg.codec, block, 0.0) && |packets| < U32
    ensures Supplies(w, cfg, id, HonestSupply(cfg, id, packets))
  {
    hide Encoded, Open, HonestPacket, Ideal, Fec.Lawful, IsSymbol, Delivered;
    var supply := HonestSupply(cfg, id, packets);
    forall i: nat | i < |supply|
      ensures Open(cfg, supply[i].datagram) == Symbol(id, packets[i])
      ensures IsSymbol(cfg.codec, block, packets[i])
      ensures packets[i] in Delivered(cfg, supply, id)
    {
      HonestPacketOpens(cfg, id, i, packets[i]);
      EncodedIsSymbol(cfg.codec, block, 0.0, i);
      assert Reached(supply, supply[i].datagram);
      ReachedIsDelivered(cfg, supply, supply[i].datagram, id);
      assert packets[i] in Carried(cfg, supply[i].datagram, id);
    }
    LengthsAgree(cfg.fileSize, cfg.blockSize, id);
    AllPacketsDecode(cfg.codec, block);
    SupplyIsSymbols(cfg, w.src, supply, id);
    assert Surviving(packets, {}) <= Delivered(cfg, supply, id);
    IdealIsLawful(cfg.codec);
    MoreDecodes(cfg.codec, block, Surviving(packets, {}), Delivered(cfg, supply, id));
  }

  lemma AllPacketsDecode(c: Codec, block: Bytes)
    requires Ideal(c) && block != []
    ensures c.decode(|block|, Surviving(Encoded(c, block, 0.0), {})).Some?
  {
    FewLostRepairable(c, block, 0.0, {});
    LossTolerated(c, block, 0.0, {});
  }
}
