/**
 * What failed saves cost, and what resuming another file's state does: runs that show it.
 */
module Resumption {
  import opened Prelude
  import opened Blocks
  import opened Resume
  import opened Receiver
  import opened Writer
  import opened Transfer
  import opened Runs
  import Fec

  /** A directory with nothing in it. */
  const EMPTY := Sys(Disk([], Absent), None)

  /**
   * Without a good save nothing bounds the loss: for every `n` some run stores `n` blocks, all its saves fail
   * silently, and a crash at that moment would lose all of them.
   */
  lemma FailedSavesLoseEverything(w: World, cfg: Config, n: nat) returns (s: Sys)
    requires CanBeSent(w, cfg) && n <= Total(cfg) && 0 < Total(cfg)
    ensures Reachable(w, s) && s.live.Some?
    ensures Persisted(s.disk) == {} && |Done(s.live.value.memory.image)| == n
    ensures n > SAVE_EVERY ==> !s.live.value.lastSaveGood
  {
    hide Run, Suppliable, SysOk, Begin, Fec.Lawful, Done;
    NothingResumed(cfg, EMPTY.disk);
    InitialOk(w, EMPTY);
    StartFilled(w, EMPTY, cfg, 0);
    RunOne(w, EMPTY, Start(cfg, 0));
    var s1 := Exec(w, EMPTY, Start(cfg, 0)).value;
    StartKeepsAbsent(cfg);
    var fill := FillTo(w, cfg, s1, 0, n, Kept);
    RunConcat(w, EMPTY, [Start(cfg, 0)], fill);
    s := Run(w, s1, fill).value;
    assert Initial(EMPTY) && Run(w, EMPTY, [Start(cfg, 0)] + fill) == Some(s);
    CrashLoses(w, s);
    DifferenceCard(Done(s.live.value.memory.image), {});
  }

  lemma StartKeepsAbsent(cfg: Config)
    ensures Begin(cfg, EMPTY.disk).1.resume == Absent
  {}

  // ---- Another file ----

  /** An attempt can be given up with exactly one block persisted, any one of a file of at least two. */
  lemma OneBlockPersisted(w: World, cfg: Config, id: nat) returns (s: Sys)
    requires CanBeSent(w, cfg) && id < Total(cfg) && 2 <= Total(cfg)
    ensures Reachable(w, s) && s.live.None? && Persisted(s.disk) == {id}
    ensures Done(Begin(cfg, s.disk).0.image) == {id}
  {
    hide Run, Suppliable, SysOk, Begin, Fec.Lawful, Done;
    NothingResumed(cfg, EMPTY.disk);
    InitialOk(w, EMPTY);
    StartFilled(w, EMPTY, cfg, 0);
    RunOne(w, EMPTY, Start(cfg, 0));
    var s1 := Exec(w, EMPTY, Start(cfg, 0)).value;
    var emit := EmitBlock(w, s1, s1.live.value, id);
    var s2 := Run(w, s1, emit).value;
    DoneIffComplete(s2.live.value.memory.image, id);
    var store := StoreHeld(w, s2, s2.live.value, Saved);
    var s3 := Run(w, s2, store).value;
    WrittenIsDone(w, s3);
    var stop := StopAndSave(w, s3, s3.live.value, if id == 0 then 1 else 0);
    s := Run(w, s3, stop).value;
    RunConcat(w, EMPTY, [Start(cfg, 0)], emit);
    RunConcat(w, EMPTY, [Start(cfg, 0)] + emit, store);
    RunConcat(w, EMPTY, [Start(cfg, 0)] + emit + store, stop);
    assert Initial(EMPTY) && Run(w, EMPTY, [Start(cfg, 0)] + emit + store + stop) == Some(s);
  }

  /** The resume file of a transfer of one block never names it. */
  ghost predicate NoSingleBlock(disk: Disk) {
    disk.resume.Stored? && disk.resume.image.totalBlocks == 1 ==> Done(disk.resume.image) == {}
  }

  lemma SingleAttempt(w: World, s: Sys)
    requires SysOk(w, s) && s.live.Some? && Total(s.live.value.cfg) == 1
    ensures !s.live.value.writer.Saving?
    ensures s.live.value.memory.image.totalBlocks == 1
    ensures TransferComplete(s.live.value.memory.image) || Done(s.live.value.memory.image) == {}
  {
    hide RxOk, DiskHolds, Block, Behind, Count;
    CountIsCardinality(s.live.value.memory.image.completed);
  }

  lemma StepKeepsSingle(w: World, s: Sys, step: Step)
    requires SysOk(w, s) && NoSingleBlock(s.disk) && Exec(w, s, step).Some?
    ensures NoSingleBlock(Exec(w, s, step).value.disk)
  {
    hide SysOk, DeliverState, StartState, WriteAndMark, WriteAt, NoSingleBlock, TransferComplete, Done, Authentic, LongEnough;
    if s.live.Some? {
      var a := s.live.value;
      ImageTotal(w, s);
      if Total(a.cfg) == 1 {
        SingleAttempt(w, s);
      }
      SavedSingle(s.disk, a.memory, Total(a.cfg));
    }
    match step
    case Start(cfg, targetMbps) => LoadedSingle(cfg, s.disk);
    case CrashInWrite(n) => SameResume(s.disk, Exec(w, s, step).value.disk);
    case Take => TakeKeepsResume(w, s.live.value, s.disk); SameResume(s.disk, Exec(w, s, step).value.disk);
    case _ =>
  }

  lemma ImageTotal(w: World, s: Sys)
    requires SysOk(w, s) && s.live.Some?
    ensures s.live.value.memory.image.totalBlocks == Total(s.live.value.cfg)
  {
    hide RxOk, DiskHolds, Block, Behind, Counted;
  }

  lemma SameResume(disk: Disk, other: Disk)
    requires NoSingleBlock(disk) && other.resume == disk.resume
    ensures NoSingleBlock(other)
  {}

  lemma LoadedSingle(cfg: Config, disk: Disk)
    requires NoSingleBlock(disk)
    ensures NoSingleBlock(Begin(cfg, disk).1)
  {}

  lemma TakeKeepsResume(w: World, a: Attempt, disk: Disk)
    requires CanTake(a)
    ensures TakeState(w, a, disk).1.resume == disk.resume
  {}

  /** The saves and the close that may happen in an attempt. */
  lemma SavedSingle(disk: Disk, m: Memory, total: nat)
    requires NoSingleBlock(disk) && m.image.totalBlocks == total
    requires total == 1 ==> TransferComplete(m.image) || Done(m.image) == {}
    ensures forall outcome :: NoSingleBlock(Close(m, disk, outcome))
    ensures total != 1 ==> forall outcome :: NoSingleBlock(SaveNow(m, disk, outcome).1)
  {
    hide Done;
  }

  lemma {:induction false} RunKeepsSingle(w: World, s: Sys, steps: seq<Step>)
    requires Initial(s) && Run(w, s, steps).Some?
    ensures NoSingleBlock(Run(w, s, steps).value.disk)
  {
    hide Exec, SysOk, Done;
    if steps != [] {
      var front := steps[..|steps| - 1];
      RunKeepsSingle(w, s, front);
      InitialOk(w, s);
      RunOk(w, s, front);
      StepKeepsSingle(w, Run(w, s, front).value, steps[|steps| - 1]);
    }
  }

  /** Two blocks are needed: in no run is the only block of a file ever persisted. */
  lemma SingleBlockNeverPersisted(w: World, s: Sys)
    requires Reachable(w, s)
    ensures s.disk.resume.Stored? && s.disk.resume.image.totalBlocks == 1 ==> Persisted(s.disk) == {}
  {
    hide Run, Done;
    var s0, steps :| Initial(s0) && Run(w, s0, steps) == Some(s);
    RunKeepsSingle(w, s0, steps);
  }

  /** For the writer, the honest blocks of `b` are the wanted ones over what was resumed from `a`. */
  lemma MixedReady(cfg: Config, hash: Hasher, disk: Disk, a: Bytes, b: Bytes, blocks: seq<ReceivedBlock>)
    requires |a| == |b| == cfg.fileSize && DiskHolds(hash, disk, a) && Faithful(cfg, b, blocks)
    ensures var (m, disk') := Begin(cfg, disk);
      var want := Mixed(m.image, a, b, cfg.blockSize);
      && MemoryHolds(cfg, hash, m, disk', want)
      && AllWanted(cfg, m, want, blocks)
  {
    hide Count, Block, DiskHolds, Begin;
    BeginHolds(cfg, hash, disk, a);
    var (m, disk') := Begin(cfg, disk);
    var want := Mixed(m.image, a, b, cfg.blockSize);
    forall i | 0 <= i < |blocks|
      ensures Wanted(cfg, m, want, blocks[i]) && LongEnough(cfg, blocks[i])
    {
      LengthsAgree(cfg.fileSize, cfg.blockSize, blocks[i].blockId);
    }
  }

  /** A block that was resumed is never written again, so it keeps what the other file had there. */
  lemma ResumedBlockStays(cfg: Config, hash: Hasher, disk: Disk, a: Bytes, b: Bytes, blocks: seq<ReceivedBlock>, saves: nat -> SaveOutcome, id: nat)
    requires |a| == |b| == cfg.fileSize && DiskHolds(hash, disk, a) && Faithful(cfg, b, blocks)
    requires id in Done(Begin(cfg, disk).0.image)
    ensures WellFormed(Begin(cfg, disk).0.image) && forall i :: 0 <= i < |blocks| ==> LongEnough(cfg, blocks[i])
    ensures var file := ConsumeAll(cfg, hash, Begin(cfg, disk).0, Begin(cfg, disk).1, blocks, saves).1.file;
      |file| == cfg.fileSize && id < Total(cfg) && Block(file, cfg.blockSize, id) == Block(a, cfg.blockSize, id)
  {
    hide Count, Block, ConsumeAll, DiskHolds, Begin, Wanted, LongEnough, Faithful;
    MixedReady(cfg, hash, disk, a, b, blocks);
    var (m, disk') := Begin(cfg, disk);
    var want := Mixed(m.image, a, b, cfg.blockSize);
    ConsumeAllHolds(cfg, hash, m, disk', want, blocks, saves);
    var (last, diskLast) := ConsumeAll(cfg, hash, m, disk', blocks, saves);
    DoneIffComplete(m.image, id);
    DoneIffComplete(last.image, id);
    assert IsComplete(last.image, id);
  }

  /**
   * For any two files of one length, of two blocks or more, that differ in some block, there is a run of the first
   * that persists that block, after which receiving all of the second, honestly and completely, fills the bitmap and leaves a wrong file.
   */
  lemma AnotherFileGoesWrong(wa: World, cfg: Config, b: Bytes, id: nat) returns (s: Sys)
    requires CanBeSent(wa, cfg) && |b| == |wa.src| && 2 <= Total(cfg)
    requires id < Total(cfg) && Block(wa.src, cfg.blockSize, id) != Block(b, cfg.blockSize, id)
    ensures Reachable(wa, s) && s.live.None? && Persisted(s.disk) == {id}
    ensures WellFormed(Begin(cfg, s.disk).0.image)
    ensures forall blocks, saves :: Faithful(cfg, b, blocks) && Covers(cfg, blocks) ==> FillsWrongly(cfg, wa.hash, s.disk, b, blocks, saves)
  {
    hide Reachable, Begin, ConsumeAll, Block, Covers, Faithful, SysOk, DiskHolds, FillsWrongly, Suppliable, Fec.Lawful;
    s := OneBlockPersisted(wa, cfg, id);
    ReachableOk(wa, s);
    OkDiskHolds(wa, s);
    BeginHolds(cfg, wa.hash, s.disk, wa.src);
    forall blocks: seq<ReceivedBlock>, saves: nat -> SaveOutcome | Faithful(cfg, b, blocks) && Covers(cfg, blocks)
      ensures FillsWrongly(cfg, wa.hash, s.disk, b, blocks, saves)
    {
      WrongFile(wa, cfg, s.disk, b, blocks, saves, id);
    }
  }

  /** Every block of the file is among them. */
  ghost predicate Covers(cfg: Config, blocks: seq<ReceivedBlock>) {
    forall id: nat :: id < Total(cfg) ==> id in Ids(blocks)
  }

  /** The transfer counts as complete, and the output is not `b`. */
  ghost predicate FillsWrongly(cfg: Config, hash: Hasher, disk: Disk, b: Bytes, blocks: seq<ReceivedBlock>, saves: nat -> SaveOutcome)
    requires WellFormed(Begin(cfg, disk).0.image)
  {
    && (forall i :: 0 <= i < |blocks| ==> LongEnough(cfg, blocks[i]))
    && var (m, after) := ConsumeAll(cfg, hash, Begin(cfg, disk).0, Begin(cfg, disk).1, blocks, saves);
    TransferComplete(m.image) && after.file != b
  }

  lemma WrongFile(wa: World, cfg: Config, disk: Disk, b: Bytes, blocks: seq<ReceivedBlock>, saves: nat -> SaveOutcome, id: nat)
    requires |b| == |wa.src| == cfg.fileSize && DiskHolds(wa.hash, disk, wa.src)
    requires WellFormed(Begin(cfg, disk).0.image) && id in Done(Begin(cfg, disk).0.image)
    requires id < Total(cfg) && Block(wa.src, cfg.blockSize, id) != Block(b, cfg.blockSize, id)
    requires Faithful(cfg, b, blocks) && Covers(cfg, blocks)
    ensures FillsWrongly(cfg, wa.hash, disk, b, blocks, saves)
  {
    hide Begin, ConsumeAll, Block, DiskHolds;
    ResumedBlockStays(cfg, wa.hash, disk, wa.src, b, blocks, saves, id);
    CoverFills(cfg, wa.hash, disk, wa.src, b, blocks, saves);
  }

  lemma CoverFills(cfg: Config, hash: Hasher, disk: Disk, a: Bytes, b: Bytes, blocks: seq<ReceivedBlock>, saves: nat -> SaveOutcome)
    requires |a| == |b| == cfg.fileSize && DiskHolds(hash, disk, a) && Faithful(cfg, b, blocks) && Covers(cfg, blocks)
    requires WellFormed(Begin(cfg, disk).0.image) && forall i :: 0 <= i < |blocks| ==> LongEnough(cfg, blocks[i])
    ensures TransferComplete(ConsumeAll(cfg, hash, Begin(cfg, disk).0, Begin(cfg, disk).1, blocks, saves).0.image)
  {
    hide Count, Block, ConsumeAll, DiskHolds, Begin, TransferComplete, Wanted, LongEnough, Faithful, Done, MemoryHolds, Mixed;
    MixedReady(cfg, hash, disk, a, b, blocks);
    var (m, disk') := Begin(cfg, disk);
    var want := Mixed(m.image, a, b, cfg.blockSize);
    ConsumeAllHolds(cfg, hash, m, disk', want, blocks, saves);
    var (last, diskLast) := ConsumeAll(cfg, hash, m, disk', blocks, saves);
    BreakMeansComplete(cfg, hash, last, diskLast, want);
    forall id: nat | id < Total(cfg)
      ensures IsComplete(last.image, id)
    {
      assert id in Ids(blocks);
      var i :| 0 <= i < |blocks| && Ids(blocks)[i] == id;
      assert blocks[i] in blocks && blocks[i].blockId == id;
      DoneIffComplete(last.image, id);
    }
  }
}
