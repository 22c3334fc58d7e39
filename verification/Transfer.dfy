/**
 * One receiving process as a whole: the receive task (transport/receiver.rs), the channel of
 * capacity 64, the writer task (engine/recv.rs), and the disk that survives a crash.
 *
 * `Exec` performs one labelled step when it is enabled; a run is any sequence of enabled steps, so
 * every interleaving, every loss pattern, every failed save and every crash is a run.
 */
module Transfer {
  import opened Prelude
  import opened Blocks
  import opened Resume
  import opened Receiver
  import opened Writer
  import Fec

  const CAPACITY := 64

  /** Waiting for a datagram, blocked on `send`, or returned (the sending half is then dropped). */
  datatype RxTask = Receiving | Pushing(block: ReceivedBlock) | Returned

  /** In the loop, at the periodic save, or past the loop waiting for the receive task. */
  datatype WriterTask = Draining | Saving | Joining

  /**
   * The volatile part. `heard` and `taken` record the datagrams read and the blocks taken out of the channel,
   * `lastSaveGood` whether the last save of the attempt succeeded (true before the first), and `resumed` what was
   * complete at the start.
   */
  datatype Attempt = Attempt(
    cfg: Config, rx: RxState, rxTask: RxTask, channel: seq<ReceivedBlock>,
    writer: WriterTask, memory: Memory, heard: seq<Arrival>, taken: seq<ReceivedBlock>, lastSaveGood: bool, resumed: set<nat>)

  datatype Sys = Sys(disk: Disk, live: Option<Attempt>)

  /** The file the sender sends, and the hash the receiver records. */
  datatype World = World(src: Bytes, hash: Hasher)

  datatype Step =
    | Start(cfg: Config, targetMbps: nat)
    | Deliver(arrival: Arrival)
    | TimeOut
    | AllReceived
    | Push
    | Take
    | Save(outcome: SaveOutcome)
    | ChannelEnd
    | Complete(outcome: SaveOutcome)
    | CrashNow
    | CrashInWrite(written: nat)

  ghost predicate Sound(w: World, cfg: Config) {
    cfg.fileSize == |w.src| && Fec.Lawful(cfg.codec)
  }

  ghost predicate CanStart(w: World, s: Sys, cfg: Config) {
    s.live.None? && Sound(w, cfg)
  }

  ghost predicate CanDeliver(w: World, a: Attempt, arrival: Arrival) {
    a.rxTask.Receiving? && |a.rx.completed| < Total(a.cfg) && Sound(w, a.cfg) && Authentic(a.cfg, w.src, arrival.datagram)
  }

  ghost predicate CanTake(a: Attempt) {
    a.writer.Draining? && a.channel != [] && WellFormed(a.memory.image) && LongEnough(a.cfg, a.channel[0])
  }

  function StartState(cfg: Config, disk: Disk, targetMbps: nat): Attempt {
    var m := Begin(cfg, disk).0;
    Attempt(cfg, NewState(cfg, targetMbps), Receiving, [], Draining, m, [], [], true, set i | 0 <= i < |m.image.completed| && m.image.completed[i])
  }

  function DeliverState(a: Attempt, arrival: Arrival): Attempt {
    var (rx, out) := Receive(a.cfg, a.rx, arrival);
    a.(rx := rx, heard := a.heard + [arrival], rxTask := if out == [] then Receiving else Pushing(out[0]))
  }

  /** After a block has been written or a save has returned. */
  function NextTask(a: Attempt, m: Memory): WriterTask {
    if m.blocksWritten >= Total(a.cfg) then Joining else Draining
  }

  ghost function TakeState(w: World, a: Attempt, disk: Disk): (Attempt, Disk)
    requires CanTake(a)
  {
    var b := a.channel[0];
    var rest := a.(channel := a.channel[1..], taken := a.taken + [b]);
    if IsComplete(a.memory.image, b.blockId) then (rest, disk)
    else
      var (m, disk') := WriteAndMark(a.cfg, w.hash, a.memory, disk, b);
      (rest.(memory := m, writer := if m.sinceSave >= SAVE_EVERY then Saving else NextTask(a, m)), disk')
  }

  /** `None` when the step is not enabled. */
  ghost function Exec(w: World, s: Sys, step: Step): Option<Sys> {
    match step
    case Start(cfg, targetMbps) =>
      if CanStart(w, s, cfg) then Some(Sys(Begin(cfg, s.disk).1, Some(StartState(cfg, s.disk, targetMbps)))) else None
    case CrashNow =>
      if s.live.Some? then Some(Sys(s.disk, None)) else None
    case _ =>
      if s.live.None? then None else ExecLive(w, s.disk, s.live.value, step)
  }

  ghost function ExecLive(w: World, disk: Disk, a: Attempt, step: Step): Option<Sys> {
    match step
    case Deliver(arrival) =>
      if CanDeliver(w, a, arrival) then Some(Sys(disk, Some(DeliverState(a, arrival)))) else None
    case TimeOut =>
      if a.rxTask.Receiving? && |a.rx.completed| < Total(a.cfg) then Some(Sys(disk, Some(a.(rxTask := Returned)))) else None
    case AllReceived =>
      if a.rxTask.Receiving? && |a.rx.completed| >= Total(a.cfg) then Some(Sys(disk, Some(a.(rxTask := Returned)))) else None
    case Push =>
      if a.rxTask.Pushing? && |a.channel| < CAPACITY then
        Some(Sys(disk, Some(a.(channel := a.channel + [a.rxTask.block], rxTask := Receiving))))
      else None
    case Take =>
      if CanTake(a) then var (a', disk') := TakeState(w, a, disk); Some(Sys(disk', Some(a'))) else None
    case Save(outcome) =>
      if a.writer.Saving? then
        var (m, disk') := SaveNow(a.memory, disk, outcome);
        Some(Sys(disk', Some(a.(memory := m, writer := NextTask(a, m), lastSaveGood := outcome.Saved?))))
      else None
    case ChannelEnd =>
      if a.writer.Draining? && a.channel == [] && a.rxTask.Returned? then Some(Sys(disk, Some(a.(writer := Joining)))) else None
    case Complete(outcome) =>
      if a.writer.Joining? && a.rxTask.Returned? then Some(Sys(Close(a.memory, disk, outcome), None)) else None
    case CrashInWrite(n) =>
      if CanTake(a) && !IsComplete(a.memory.image, a.channel[0].blockId)
         && n <= ReceiverLen(a.cfg.fileSize, a.cfg.blockSize, a.channel[0].blockId) then
        Some(Sys(disk.(file := WriteAt(disk.file, a.channel[0].blockId * a.cfg.blockSize, a.channel[0].data[..n])), None))
      else None
    case _ => None
  }

  ghost function Run(w: World, s: Sys, steps: seq<Step>): Option<Sys> {
    if steps == [] then Some(s)
    else
      match Run(w, s, steps[..|steps| - 1])
      case None => None
      case Some(t) => Exec(w, t, steps[|steps| - 1])
  }

  /** A directory before the first attempt: any old output file, no resume state. */
  ghost predicate Initial(s: Sys) {
    s.live.None? && !s.disk.resume.Stored?
  }

  // ---- The invariant ----

  function InFlight(a: Attempt): seq<ReceivedBlock> {
    a.taken + a.channel + if a.rxTask.Pushing? then [a.rxTask.block] else []
  }

  ghost function IdSet(blocks: seq<ReceivedBlock>): set<nat> {
    set b | b in blocks :: b.blockId
  }

  /** Everything that came out of the decoder is in flight, once, and is a block of the source. */
  ghost predicate RxOk(w: World, a: Attempt) {
    && Sound(w, a.cfg)
    && Tracks(a.cfg, w.src, a.rx, a.heard)
    && a.rx.completed == Ids(InFlight(a))
    && Faithful(a.cfg, w.src, InFlight(a))
  }

  /** The bitmap is what was resumed plus what was taken; it is true of the file, and so is the resume file. */
  ghost predicate WriterOk(w: World, a: Attempt, disk: Disk) {
    && a.cfg.fileSize == |w.src|
    && MemoryHolds(a.cfg, w.hash, a.memory, disk, BlocksOf(w.src, a.cfg.blockSize))
    && DiskHolds(w.hash, disk, w.src) && Behind(a.cfg, a.memory, disk)
    && Done(a.memory.image) == a.resumed + IdSet(a.taken)
    && Counted(a.memory, disk, a.lastSaveGood)
  }

  /** Where the writer stands in its loop. */
  ghost predicate PhaseOk(a: Attempt) {
    && (a.writer.Saving? <==> a.memory.sinceSave >= SAVE_EVERY) && a.memory.sinceSave <= SAVE_EVERY
    && (a.writer.Saving? ==> a.resumed < Done(a.memory.image))
    && (a.writer.Joining? && !a.rxTask.Returned? ==> TransferComplete(a.memory.image) && a.resumed < Done(a.memory.image))
    && (a.writer.Joining? ==> TransferComplete(a.memory.image) || (a.channel == [] && a.rxTask.Returned?))
  }

  ghost predicate AttemptOk(w: World, a: Attempt, disk: Disk) {
    RxOk(w, a) && WriterOk(w, a, disk) && PhaseOk(a)
  }

  ghost predicate SysOk(w: World, s: Sys) {
    && DiskHolds(w.hash, s.disk, w.src)
    && (s.live.Some? ==> AttemptOk(w, s.live.value, s.disk))
  }

  // ---- One step ----

  lemma StartOk(w: World, disk: Disk, cfg: Config, targetMbps: nat)
    requires DiskHolds(w.hash, disk, w.src) && Sound(w, cfg)
    ensures DiskHolds(w.hash, Begin(cfg, disk).1, w.src)
    ensures AttemptOk(w, StartState(cfg, disk, targetMbps), Begin(cfg, disk).1)
  {
    hide Begin, DiskHolds, Tracks, MemoryHolds, Behind, Counted, Fec.Lawful, TransferComplete;
    BeginHolds(cfg, w.hash, disk, w.src);
    BeginBehind(cfg, w.hash, disk, w.src);
    InitialTracks(cfg, w.src, targetMbps);
    assert IdSet([]) == {};
  }

  lemma DeliverOk(w: World, a: Attempt, disk: Disk, arrival: Arrival)
    requires AttemptOk(w, a, disk) && CanDeliver(w, a, arrival)
    ensures AttemptOk(w, DeliverState(a, arrival), disk)
  {
    hide Receive, Tracks, WriterOk, TransferComplete, Fec.Lawful, Authentic;
    ReceiveTracks(a.cfg, w.src, a.rx, a.heard, arrival);
    var (rx, out) := Receive(a.cfg, a.rx, arrival);
    var a' := DeliverState(a, arrival);
    assert InFlight(a') == InFlight(a) + out;
    assert Ids(InFlight(a) + out) == Ids(InFlight(a)) + Ids(out);
    SameWriter(w, a, a', disk);
  }

  /** The writer's part of the invariant does not look at the receive task. */
  lemma SameWriter(w: World, a: Attempt, b: Attempt, disk: Disk)
    requires WriterOk(w, a, disk)
    requires a.cfg == b.cfg && a.memory == b.memory && a.resumed == b.resumed && a.taken == b.taken && a.lastSaveGood == b.lastSaveGood
    ensures WriterOk(w, b, disk)
  {}

  lemma PushOk(w: World, a: Attempt, disk: Disk)
    requires AttemptOk(w, a, disk) && a.rxTask.Pushing?
    ensures AttemptOk(w, a.(channel := a.channel + [a.rxTask.block], rxTask := Receiving), disk)
  {
    hide Tracks, WriterOk, TransferComplete, Fec.Lawful;
    var a' := a.(channel := a.channel + [a.rxTask.block], rxTask := Receiving);
    assert InFlight(a') == InFlight(a);
    SameWriter(w, a, a', disk);
  }

  lemma ReturnOk(w: World, a: Attempt, disk: Disk)
    requires AttemptOk(w, a, disk) && a.rxTask.Receiving?
    ensures AttemptOk(w, a.(rxTask := Returned), disk)
  {
    hide Tracks, WriterOk, TransferComplete, Fec.Lawful;
    var a' := a.(rxTask := Returned);
    assert InFlight(a') == InFlight(a);
    SameWriter(w, a, a', disk);
  }

  lemma ChannelEndOk(w: World, a: Attempt, disk: Disk)
    requires AttemptOk(w, a, disk) && a.writer.Draining? && a.channel == [] && a.rxTask.Returned?
    ensures AttemptOk(w, a.(writer := Joining), disk)
  {
    hide Tracks, WriterOk, TransferComplete, Fec.Lawful;
    var a' := a.(writer := Joining);
    assert InFlight(a') == InFlight(a);
    SameWriter(w, a, a', disk);
  }

  /** The first block of the channel is a block of the source. */
  lemma HeadIsWanted(w: World, a: Attempt, disk: Disk)
    requires RxOk(w, a) && a.channel != []
    requires MemoryHolds(a.cfg, w.hash, a.memory, disk, BlocksOf(w.src, a.cfg.blockSize))
    ensures Wanted(a.cfg, a.memory, BlocksOf(w.src, a.cfg.blockSize), a.channel[0])
    ensures LongEnough(a.cfg, a.channel[0])
  {
    hide Tracks, MemoryHolds, Fec.Lawful, IsComplete;
    assert InFlight(a)[|a.taken|] == a.channel[0];
    LengthsAgree(a.cfg.fileSize, a.cfg.blockSize, a.channel[0].blockId);
  }

  lemma TakeOk(w: World, a: Attempt, disk: Disk)
    requires AttemptOk(w, a, disk) && CanTake(a)
    ensures var (a', disk') := TakeState(w, a, disk); AttemptOk(w, a', disk')
  {
    hide Tracks, WriterOk, PhaseOk, Fec.Lawful, TakeState;
    var (a', disk') := TakeState(w, a, disk);
    TakeKeepsRx(w, a, disk);
    TakeKeepsWriter(w, a, disk);
  }

  lemma TakeKeepsRx(w: World, a: Attempt, disk: Disk)
    requires RxOk(w, a) && CanTake(a)
    ensures RxOk(w, TakeState(w, a, disk).0)
  {
    hide Tracks, Fec.Lawful, WriteAndMark, IsComplete;
    assert InFlight(TakeState(w, a, disk).0) == InFlight(a);
  }

  lemma TakeKeepsWriter(w: World, a: Attempt, disk: Disk)
    requires AttemptOk(w, a, disk) && CanTake(a)
    ensures var (a', disk') := TakeState(w, a, disk); WriterOk(w, a', disk') && PhaseOk(a')
  {
    hide Tracks, Fec.Lawful, WriteAndMark, MemoryHolds, DiskHolds, Behind, Counted, TransferComplete, Wanted, RxOk, Done, IsComplete;
    var b := a.channel[0];
    var want := BlocksOf(w.src, a.cfg.blockSize);
    HeadIsWanted(w, a, disk);
    assert IdSet(a.taken + [b]) == IdSet(a.taken) + {b.blockId};
    DoneIffComplete(a.memory.image, b.blockId);
    if !IsComplete(a.memory.image, b.blockId) {
      WriteAndMarkHolds(a.cfg, w.hash, a.memory, disk, want, b);
      WriteAndMarkBehind(a.cfg, w.hash, a.memory, disk, w.src, b, a.lastSaveGood);
      var (m, disk') := WriteAndMark(a.cfg, w.hash, a.memory, disk, b);
      BreakMeansComplete(a.cfg, w.hash, m, disk', want);
      SinceSave(a.cfg, w.hash, a.memory, disk, b);
    }
  }

  lemma SinceSave(cfg: Config, hash: Hasher, m: Memory, disk: Disk, b: ReceivedBlock)
    requires WellFormed(m.image) && LongEnough(cfg, b)
    ensures WriteAndMark(cfg, hash, m, disk, b).0.sinceSave == m.sinceSave + 1
  {}

  lemma SaveOk(w: World, a: Attempt, disk: Disk, outcome: SaveOutcome)
    requires AttemptOk(w, a, disk) && a.writer.Saving?
    ensures var (m, disk') := SaveNow(a.memory, disk, outcome);
      AttemptOk(w, a.(memory := m, writer := NextTask(a, m), lastSaveGood := outcome.Saved?), disk')
  {
    hide Tracks, Fec.Lawful, MemoryHolds, DiskHolds, Behind, Counted, TransferComplete, Done;
    var (m, disk') := SaveNow(a.memory, disk, outcome);
    var a' := a.(memory := m, writer := NextTask(a, m), lastSaveGood := outcome.Saved?);
    assert InFlight(a') == InFlight(a);
    SaveHolds(a.cfg, w.hash, a.memory, disk, w.src, outcome);
    SaveCounts(a.memory, disk, a.lastSaveGood, outcome);
    BreakMeansComplete(a.cfg, w.hash, m, disk', BlocksOf(w.src, a.cfg.blockSize));
  }

  lemma CloseOk(w: World, a: Attempt, disk: Disk, outcome: SaveOutcome)
    requires AttemptOk(w, a, disk)
    ensures DiskHolds(w.hash, Close(a.memory, disk, outcome), w.src)
  {
    hide Tracks, Fec.Lawful, TransferComplete;
    SaveHolds(a.cfg, w.hash, a.memory, disk, w.src, outcome);
  }

  lemma CrashInWriteOk(w: World, a: Attempt, disk: Disk, n: nat)
    requires AttemptOk(w, a, disk) && CanTake(a) && !IsComplete(a.memory.image, a.channel[0].blockId)
    requires n <= ReceiverLen(a.cfg.fileSize, a.cfg.blockSize, a.channel[0].blockId)
    ensures DiskHolds(w.hash, disk.(file := WriteAt(disk.file, a.channel[0].blockId * a.cfg.blockSize, a.channel[0].data[..n])), w.src)
  {
    hide Tracks, Fec.Lawful, DiskHolds, Behind, WriteAt;
    HeadIsWanted(w, a, disk);
    var b := a.channel[0];
    LengthsAgree(a.cfg.fileSize, a.cfg.blockSize, b.blockId);
    PartialWriteHolds(a.cfg, w.hash, a.memory, disk, w.src, b.blockId, b.data[..n]);
  }

  /** Every step keeps the invariant. */
  lemma StepOk(w: World, s: Sys, step: Step)
    requires SysOk(w, s) && Exec(w, s, step).Some?
    ensures SysOk(w, Exec(w, s, step).value)
  {
    hide AttemptOk, DiskHolds, Begin, Sound, TakeState, DeliverState, WriteAt, StartState, Close, SaveNow;
    match step
    case Start(cfg, targetMbps) => StartOk(w, s.disk, cfg, targetMbps);
    case Deliver(arrival) => DeliverOk(w, s.live.value, s.disk, arrival);
    case TimeOut => ReturnOk(w, s.live.value, s.disk);
    case AllReceived => ReturnOk(w, s.live.value, s.disk);
    case Push => PushOk(w, s.live.value, s.disk);
    case Take => TakeOk(w, s.live.value, s.disk); OkDisk(w, Exec(w, s, step).value);
    case Save(outcome) => SaveOk(w, s.live.value, s.disk, outcome); OkDisk(w, Exec(w, s, step).value);
    case ChannelEnd => ChannelEndOk(w, s.live.value, s.disk);
    case Complete(outcome) => CloseOk(w, s.live.value, s.disk, outcome);
    case CrashNow =>
    case CrashInWrite(n) => CrashInWriteOk(w, s.live.value, s.disk, n);
  }

  lemma OkDisk(w: World, s: Sys)
    requires s.live.Some? && AttemptOk(w, s.live.value, s.disk)
    ensures DiskHolds(w.hash, s.disk, w.src)
  {}

  /**
   * Taking a block, and then saving if the writer is about to, is one round of the engine's loop: the same memory, the
   * same disk, and a save exactly after every eighth block written since the last one. The writer leaves the loop
   * exactly when that round wrote a block and the count has reached the total.
   */
  lemma TakeAndSaveIsConsume(w: World, a: Attempt, disk: Disk, outcome: SaveOutcome)
    requires CanTake(a) && a.memory.sinceSave < 8
    ensures var (taken, after) := TakeState(w, a, disk);
      var b := a.channel[0];
      var isNew := !IsComplete(a.memory.image, b.blockId);
      && (taken.writer.Saving? <==> isNew && a.memory.sinceSave == 7)
      && var (m, disk') := if taken.writer.Saving? then SaveNow(taken.memory, after, outcome) else (taken.memory, after);
      && (m, disk') == Consume(a.cfg, w.hash, a.memory, disk, b, outcome)
      && var next := if taken.writer.Saving? then NextTask(taken, m) else taken.writer;
      && (next.Joining? <==> isNew && m.blocksWritten >= Total(a.cfg)) && (next.Draining? || next.Joining?)
  {
    hide Mark, WriteAt, IsComplete, ReceiverLen, Total;
  }

  // ---- Whole runs ----

  /** `s` is reached by some run, with any number of attempts and crashes, from a directory without resume state. */
  ghost predicate Reachable(w: World, s: Sys) {
    exists s0, steps :: Initial(s0) && Run(w, s0, steps) == Some(s)
  }

  lemma {:induction false} RunOk(w: World, s: Sys, steps: seq<Step>)
    requires SysOk(w, s) && Run(w, s, steps).Some?
    ensures SysOk(w, Run(w, s, steps).value)
  {
    hide Exec, SysOk;
    if steps != [] {
      RunOk(w, s, steps[..|steps| - 1]);
      StepOk(w, Run(w, s, steps[..|steps| - 1]).value, steps[|steps| - 1]);
    }
  }

  lemma ReachableOk(w: World, s: Sys)
    requires Reachable(w, s)
    ensures SysOk(w, s)
  {
    hide Run;
    var s0, steps :| Initial(s0) && Run(w, s0, steps) == Some(s);
    RunOk(w, s0, steps);
  }

  /**
   * Crash-safe resume. At every moment of every run, each bit of the resume file on disk and each bit in
   * memory names a block of the output file that equals the block of the source.
   */
  lemma CrashSafe(w: World, s: Sys, id: nat)
    requires Reachable(w, s)
    ensures s.disk.resume.Stored? && IsComplete(s.disk.resume.image, id) ==>
      var size := s.disk.resume.image.blockSize;
      && size > 0 && |s.disk.file| == |w.src| && id < TotalBlocks(|w.src|, size)
      && Block(s.disk.file, size, id) == Block(w.src, size, id)
    ensures s.live.Some? && IsComplete(s.live.value.memory.image, id) ==>
      var size := s.live.value.cfg.blockSize;
      && |s.disk.file| == |w.src| && id < TotalBlocks(|w.src|, size)
      && Block(s.disk.file, size, id) == Block(w.src, size, id)
  {
    hide Block, Tracks, Fec.Lawful, Behind, Counted;
    ReachableOk(w, s);
  }

  /** Whenever `is_transfer_complete` holds, the output file is the source file. */
  lemma CompleteMeansIdentical(w: World, s: Sys)
    requires Reachable(w, s) && s.live.Some?
    requires TransferComplete(s.live.value.memory.image)
    ensures s.disk.file == w.src
  {
    hide Tracks, Fec.Lawful, Behind, Counted, DiskHolds, TransferComplete, Block;
    ReachableOk(w, s);
    var a := s.live.value;
    CompleteFile(a.cfg, w.hash, a.memory, s.disk, BlocksOf(w.src, a.cfg.blockSize), w.src);
  }

  /** If the receive task returned because every block was decoded, the attempt ends with the source file on disk. */
  lemma FinishedMeansIdentical(w: World, s: Sys, outcome: SaveOutcome)
    requires Reachable(w, s) && s.live.Some?
    requires Exec(w, s, Complete(outcome)).Some?
    requires |s.live.value.rx.completed| == Total(s.live.value.cfg)
    ensures var t := Exec(w, s, Complete(outcome)).value;
      t.disk.file == w.src && (outcome.Saved? ==> t.disk.resume == Absent)
  {
    hide Fec.Lawful, Behind, Counted, DiskHolds, TransferComplete, Block, Exec, MemoryHolds, TracksBlock;
    ReachableOk(w, s);
    var a := s.live.value;
    assert a.writer.Joining? && a.rxTask.Returned? && Exec(w, s, Complete(outcome)).value == Sys(Close(a.memory, s.disk, outcome), None) by {
      CompleteStep(w, s, outcome);
    }
    if !TransferComplete(a.memory.image) {
      assert InFlight(a) == a.taken;
      EveryId(a.rx.completed, Total(a.cfg));
      forall id: nat | id < Total(a.cfg)
        ensures IsComplete(a.memory.image, id)
      {
        assert id in Ids(a.taken);
        var i :| 0 <= i < |a.taken| && Ids(a.taken)[i] == id;
        assert a.taken[i] in a.taken && id in IdSet(a.taken);
      }
      BreakMeansComplete(a.cfg, w.hash, a.memory, s.disk, BlocksOf(w.src, a.cfg.blockSize));
    }
    CompleteMeansIdentical(w, s);
  }

  lemma CompleteStep(w: World, s: Sys, outcome: SaveOutcome)
    requires s.live.Some? && Exec(w, s, Complete(outcome)).Some?
    ensures s.live.value.writer.Joining? && s.live.value.rxTask.Returned?
    ensures Exec(w, s, Complete(outcome)).value == Sys(Close(s.live.value.memory, s.disk, outcome), None)
  {}

  /**
   * What a crash loses is exactly what `blocks_since_save` says if and only if the last save succeeded, whatever
   * became of those before it. It is fewer than eight blocks if and only if, besides, no save is pending: the counter
   * is at most eight, and eight only in the moment between the eighth mark and its save.
   */
  lemma CrashLoses(w: World, s: Sys)
    requires Reachable(w, s) && s.live.Some?
    ensures var a := s.live.value;
      && Persisted(s.disk) <= Done(a.memory.image)
      && |Done(a.memory.image) - Persisted(s.disk)| >= a.memory.sinceSave
      && (|Done(a.memory.image) - Persisted(s.disk)| == a.memory.sinceSave <==> a.lastSaveGood)
      && (|Done(a.memory.image) - Persisted(s.disk)| < SAVE_EVERY <==> a.lastSaveGood && !a.writer.Saving?)
      && a.memory.sinceSave <= SAVE_EVERY && (a.memory.sinceSave == SAVE_EVERY <==> a.writer.Saving?)
  {
    hide RxOk, MemoryHolds, DiskHolds, Behind, TransferComplete, Done, Persisted;
    ReachableOk(w, s);
    var a := s.live.value;
    DifferenceCard(Done(a.memory.image), Persisted(s.disk));
  }

  lemma DifferenceCard<T>(all: set<T>, part: set<T>)
    requires part <= all
    ensures |all - part| == |all| - |part|
  {
    assert all == part + (all - part);
  }

  /** In every run: after a save that fails the counter reads zero although a crash would lose at least eight blocks. */
  lemma FailedSaveIsForgotten(w: World, s: Sys, outcome: SaveOutcome)
    requires Reachable(w, s) && s.live.Some? && s.live.value.writer.Saving? && !outcome.Saved?
    ensures var t := Exec(w, s, Save(outcome));
      && t.Some? && t.value.live.Some?
      && var a := t.value.live.value;
      && a.memory.sinceSave == 0 && !a.lastSaveGood
      && |Done(a.memory.image) - Persisted(t.value.disk)| >= SAVE_EVERY
      && Persisted(t.value.disk) == if outcome.Torn? then {} else Persisted(s.disk)
  {
    hide RxOk, MemoryHolds, DiskHolds, Behind, TransferComplete, Done, Reachable, NextTask;
    ReachableOk(w, s);
    var a := s.live.value;
    DifferenceCard(Done(a.memory.image), Persisted(s.disk));
    DifferenceCard(Done(a.memory.image), {});
  }

  /** After a crash at any moment, the next attempt of the same transfer resumes exactly what was persisted. */
  lemma RestartFindsPersisted(w: World, s: Sys, cfg: Config, targetMbps: nat)
    requires Reachable(w, s) && s.live.Some?
    requires cfg.blockSize == s.live.value.cfg.blockSize && Sound(w, cfg)
    ensures var t := Exec(w, Exec(w, s, CrashNow).value, Start(cfg, targetMbps));
      && t.Some? && t.value.live.Some?
      && t.value.live.value.resumed == Done(t.value.live.value.memory.image) == Persisted(s.disk)
  {
    hide Tracks, Fec.Lawful, DiskHolds, TransferComplete, MemoryHolds, Counted;
    ReachableOk(w, s);
  }

  /** A file of another size resumes nothing, even if it has as many blocks: whatever state is stored is removed. */
  lemma OtherSizeResumesNothing(w: World, s: Sys, cfg: Config)
    requires Reachable(w, s) && cfg.fileSize != |w.src|
    ensures var (m, disk) := Begin(cfg, s.disk);
      Done(m.image) == {} && m.blocksWritten == 0 && !disk.resume.Stored?
  {
    hide AttemptOk;
    ReachableOk(w, s);
    CountIsCardinality(Begin(cfg, s.disk).0.image.completed);
    assert Done(Begin(cfg, s.disk).0.image) == {};
  }

  /** So does another block size. */
  lemma OtherBlockSizeResumesNothing(cfg: Config, disk: Disk)
    requires disk.resume.Stored? && (disk.resume.image.blockSize != cfg.blockSize || disk.resume.image.totalBlocks != Total(cfg))
    ensures Done(Begin(cfg, disk).0.image) == {} && !Begin(cfg, disk).1.resume.Stored?
  {}

  /** The slice `data[..actual_len]` of a block taken from the channel is always within bounds. */
  lemma SliceInBounds(w: World, s: Sys)
    requires Reachable(w, s) && s.live.Some?
    requires s.live.value.writer.Draining? && s.live.value.channel != []
    ensures CanTake(s.live.value)
  {
    hide Tracks, Fec.Lawful, DiskHolds, TransferComplete, Counted, Behind, LongEnough;
    ReachableOk(w, s);
    HeadIsWanted(w, s.live.value, s.disk);
  }

  /** No block is handed to the writer twice in an attempt, and each one carries the source bytes. */
  lemma HandedOverOnce(w: World, s: Sys)
    requires Reachable(w, s) && s.live.Some?
    ensures var a := s.live.value;
      Distinct(Ids(InFlight(a))) && a.cfg.fileSize == |w.src| && Faithful(a.cfg, w.src, InFlight(a))
  {
    hide WriterOk, TracksBlock, Fec.Lawful;
    ReachableOk(w, s);
  }
}
