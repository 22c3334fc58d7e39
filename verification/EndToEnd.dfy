/**
 * From the source file on one machine to the output file on the other: the sending engine, the network, the
 * receiving process and the disk.
 */
module EndToEnd {
  import opened Prelude
  import opened Crypto
  import opened Blocks
  import Sender
  import opened Receiver
  import opened Delivery
  import Resume
  import opened Writer
  import opened Transfer
  import opened SendEngine
  import Runs
  import Stall
  import Delta
  import Fec

  /** What the sending side has done for one file: all the groups of what is not skipped, under an honest log. */
  ghost predicate FileSent(cfg: Config, src: Bytes, skip: set<nat>, sender: Sender.UdpSender, ratio: real,
                           groups: seq<seq<(nat, Bytes)>>, sent: seq<SentGroup>, log: seq<Sealed>)
  {
    && |src| == cfg.fileSize && Paired(cfg, sender) && Fec.Ideal(cfg.codec)
    && Flatten(groups) == Kept(src, cfg.blockSize, skip, 0, Total(cfg))
    && |sent| == |groups|
    && (forall g :: 0 <= g < |sent| ==> sent[g].blocks == groups[g] && OfSource(cfg, src, groups[g]) && WasSent(cfg, sender, ratio, sent[g]))
    && LogOf(cfg, src, log)
  }

  /** What the network has done: nothing forged, and no source block has lost more than its repair symbols. */
  ghost predicate FileDelivered(cfg: Config, ratio: real, sent: seq<SentGroup>, log: seq<Sealed>, lost: seq<set<nat>>, ds: seq<Arrival>) {
    && |lost| == |sent| && AllUnforged(cfg, log, ds)
    && forall g :: 0 <= g < |sent| ==> GroupArrives(cfg, ratio, sent[g], lost[g], ds)
  }

  /**
   * File to file. In any run of the receiving process, with whatever crashes and earlier attempts behind it: if the
   * datagrams this attempt has read deliver the file, then the attempt ends with the source file on disk.
   */
  lemma SourceToOutput(w: World, s: Sys, sender: Sender.UdpSender, ratio: real, groups: seq<seq<(nat, Bytes)>>,
                       sent: seq<SentGroup>, log: seq<Sealed>, lost: seq<set<nat>>, outcome: Resume.SaveOutcome)
    requires Reachable(w, s) && s.live.Some? && Exec(w, s, Complete(outcome)).Some?
    requires FileSent(s.live.value.cfg, w.src, {}, sender, ratio, groups, sent, log)
    requires FileDelivered(s.live.value.cfg, ratio, sent, log, lost, s.live.value.heard)
    ensures var t := Exec(w, s, Complete(outcome)).value;
      t.live.None? && t.disk.file == w.src && (outcome.Saved? ==> t.disk.resume == Resume.Absent)
  {
    hide Reachable, Exec, WriterOk, PhaseOk, Tracks, FileSent, FileDelivered, Fec.Lawful;
    ReachableOk(w, s);
    var a := s.live.value;
    Runs.OkParts(w, a, s.disk);
    forall id: nat | id < Total(a.cfg)
      ensures id in a.rx.completed
    {
      DeliveredIsCompleted(w, a, sender, ratio, {}, groups, sent, log, lost, id);
    }
    CompletedAll(w, a);
    FinishedMeansIdentical(w, s, outcome);
    CompleteStep(w, s, outcome);
  }

  lemma CompletedAll(w: World, a: Attempt)
    requires RxOk(w, a) && forall id: nat :: id < Total(a.cfg) ==> id in a.rx.completed
    ensures |a.rx.completed| == Total(a.cfg)
  {
    hide TracksBlock, Fec.Lawful;
    EveryId(a.rx.completed, Total(a.cfg));
  }

  // ---- Delta sync ----

  /** Steps of the attempt at hand: it neither starts, ends nor dies. */
  predicate Within(step: Step) {
    !step.Start? && !step.Complete? && !step.CrashNow? && !step.CrashInWrite?
  }

  ghost predicate AllWithin(steps: seq<Step>) {
    forall i :: 0 <= i < |steps| ==> Within(steps[i])
  }

  /** Block `id` of the file is what it was when the file was `before`, unless it has been taken out of the channel. */
  ghost predicate Untouched(before: Bytes, s: Sys, id: nat)
    requires s.live.Some? && id < Total(s.live.value.cfg) && |before| == s.live.value.cfg.fileSize
  {
    && |s.disk.file| == |before|
    && (id in IdSet(s.live.value.taken)
        || Block(s.disk.file, s.live.value.cfg.blockSize, id) == Block(before, s.live.value.cfg.blockSize, id))
  }

  /** Only taking a block writes the file. */
  lemma OtherStepsKeepFile(w: World, s: Sys, step: Step)
    requires s.live.Some? && Within(step) && !step.Take? && Exec(w, s, step).Some?
    ensures var t := Exec(w, s, step).value;
      && t.live.Some? && t.live.value.cfg == s.live.value.cfg
      && t.live.value.taken == s.live.value.taken && t.disk.file == s.disk.file
  {
    hide Receive, Authentic, Resume.AfterSave, TakeState;
  }

  lemma TakeStep(w: World, s: Sys)
    requires s.live.Some? && Exec(w, s, Take).Some?
    ensures CanTake(s.live.value)
    ensures var (a, disk) := TakeState(w, s.live.value, s.disk); Exec(w, s, Take).value == Sys(disk, Some(a))
  {
    hide WriteAndMark, LongEnough;
  }

  lemma SameFileUntouched(before: Bytes, s: Sys, t: Sys, id: nat)
    requires s.live.Some? && t.live.Some? && t.live.value.cfg == s.live.value.cfg
    requires t.live.value.taken == s.live.value.taken && t.disk.file == s.disk.file
    requires id < Total(s.live.value.cfg) && |before| == s.live.value.cfg.fileSize && Untouched(before, s, id)
    ensures Untouched(before, t, id)
  {}

  /** A step writes at most the block it takes. */
  lemma StepKeepsUntouched(w: World, s: Sys, step: Step, before: Bytes, id: nat)
    requires SysOk(w, s) && Within(step) && Exec(w, s, step).Some?
    requires s.live.Some? && id < Total(s.live.value.cfg) && |before| == s.live.value.cfg.fileSize && Untouched(before, s, id)
    ensures var t := Exec(w, s, step).value;
      t.live.Some? && t.live.value.cfg == s.live.value.cfg && Untouched(before, t, id)
  {
    hide SysOk, Exec, TakeState, Untouched;
    if step.Take? {
      TakeStep(w, s);
      TakeKeepsUntouched(w, s, before, id);
    } else {
      OtherStepsKeepFile(w, s, step);
      SameFileUntouched(before, s, Exec(w, s, step).value, id);
    }
  }

  lemma TakeKeepsUntouched(w: World, s: Sys, before: Bytes, id: nat)
    requires SysOk(w, s) && s.live.Some? && CanTake(s.live.value)
    requires id < Total(s.live.value.cfg) && |before| == s.live.value.cfg.fileSize && Untouched(before, s, id)
    ensures var (a, disk) := TakeState(w, s.live.value, s.disk);
      a.cfg == s.live.value.cfg && Untouched(before, Sys(disk, Some(a)), id)
  {
    hide Tracks, Fec.Lawful, DiskHolds, Behind, Counted, PhaseOk, Block, Resume.Mark, WriteAt, Holds, Wanted;
    var a := s.live.value;
    var b := a.channel[0];
    HeadIsWanted(w, a, s.disk);
    assert IdSet(a.taken + [b]) == IdSet(a.taken) + {b.blockId};
    HeadWrites(w, a, s.disk, b);
  }

  /** Storing the first block of the channel keeps every other block of the file. */
  lemma HeadWrites(w: World, a: Attempt, disk: Disk, b: ReceivedBlock)
    requires |disk.file| == a.cfg.fileSize && Resume.WellFormed(a.memory.image) && LongEnough(a.cfg, b)
    requires |BlocksOf(w.src, a.cfg.blockSize)| == Total(a.cfg) && Wanted(a.cfg, a.memory, BlocksOf(w.src, a.cfg.blockSize), b)
    ensures var file := WriteAndMark(a.cfg, w.hash, a.memory, disk, b).1.file;
      |file| == |disk.file| && forall j: nat :: j < Total(a.cfg) && j != b.blockId ==>
        Block(file, a.cfg.blockSize, j) == Block(disk.file, a.cfg.blockSize, j)
  {
    hide Block, WriteAt, Resume.Mark;
    LengthsAgree(a.cfg.fileSize, a.cfg.blockSize, b.blockId);
    assert b.data[..|b.data|] == b.data;
    WriteBlock(disk.file, a.cfg.blockSize, b.blockId, b.data);
  }

  lemma {:induction false} RunKeepsUntouched(w: World, s: Sys, steps: seq<Step>, before: Bytes, id: nat)
    requires SysOk(w, s) && AllWithin(steps) && Run(w, s, steps).Some?
    requires s.live.Some? && id < Total(s.live.value.cfg) && |before| == s.live.value.cfg.fileSize && Untouched(before, s, id)
    ensures var t := Run(w, s, steps).value;
      t.live.Some? && t.live.value.cfg == s.live.value.cfg && Untouched(before, t, id)
  {
    hide Exec, SysOk, Untouched, Total;
    if steps != [] {
      var front := steps[..|steps| - 1];
      RunKeepsUntouched(w, s, front, before, id);
      RunOk(w, s, front);
      StepKeepsUntouched(w, Run(w, s, front).value, steps[|steps| - 1], before, id);
    }
  }

  lemma {:induction false} RunKeepsAttempt(w: World, s: Sys, steps: seq<Step>)
    requires s.live.Some? && AllWithin(steps) && Run(w, s, steps).Some?
    ensures var t := Run(w, s, steps).value;
      t.live.Some? && t.live.value.cfg == s.live.value.cfg
  {
    hide Exec;
    if steps != [] {
      var front := steps[..|steps| - 1];
      RunKeepsAttempt(w, s, front);
      StepKeepsAttempt(w, Run(w, s, front).value, steps[|steps| - 1]);
    }
  }

  lemma StepKeepsAttempt(w: World, s: Sys, step: Step)
    requires s.live.Some? && Within(step) && Exec(w, s, step).Some?
    ensures var t := Exec(w, s, step).value;
      t.live.Some? && t.live.value.cfg == s.live.value.cfg
  {
    hide WriteAndMark, SaveNow, Receive, Authentic, LongEnough;
  }

  /**
   * Delta sync, file to file. The attempt may start in any reachable state, over any old output file of any size and
   * whatever resume state earlier attempts and crashes have left; the blocks that file shares with the source are not
   * sent. In any run of the attempt whose datagrams deliver the rest, with whatever saves, early break or timeout, the
   * output is the source file when it ends.
   */
  lemma DeltaSourceToOutput(w: World, d: Sys, cfg: Config, targetMbps: nat, steps: seq<Step>, outcome: Resume.SaveOutcome,
                            sender: Sender.UdpSender, ratio: real, groups: seq<seq<(nat, Bytes)>>, sent: seq<SentGroup>,
                            log: seq<Sealed>, lost: seq<set<nat>>)
    requires Injective(w.hash) && Reachable(w, d) && Exec(w, d, Start(cfg, targetMbps)).Some?
    requires var s0 := Exec(w, d, Start(cfg, targetMbps)).value;
      && AllWithin(steps) && Run(w, s0, steps).Some? && Run(w, s0, steps).value.live.Some?
      && Exec(w, Run(w, s0, steps).value, Complete(outcome)).Some?
      && FileDelivered(cfg, ratio, sent, log, lost, Run(w, s0, steps).value.live.value.heard)
    requires FileSent(cfg, w.src, Delta.SkipSet(w.src, d.disk.file, cfg.blockSize, w.hash), sender, ratio, groups, sent, log)
    ensures var s := Run(w, Exec(w, d, Start(cfg, targetMbps)).value, steps).value;
      Exec(w, s, Complete(outcome)).value.disk.file == w.src
  {
    hide Reachable, Exec, Run, SysOk, FileDelivered, FileSent, Resume.TransferComplete, Delta.SkipSet, AllWithin, Untouched, Block;
    var s0 := Exec(w, d, Start(cfg, targetMbps)).value;
    var s := Run(w, s0, steps).value;
    StartOpens(w, d, cfg, targetMbps);
    Runs.RunOne(w, d, Start(cfg, targetMbps));
    Runs.ReachableExtends(w, d, [Start(cfg, targetMbps)]);
    Runs.ReachableExtends(w, s0, steps);
    RunKeepsAttempt(w, s0, steps);
    CompleteStep(w, s, outcome);
    if Resume.TransferComplete(s.live.value.memory.image) {
      CompleteMeansIdentical(w, s);
    } else {
      SizesOk(w, s0);
      SizesOk(w, s);
      forall id: nat | id < Total(cfg)
        ensures Block(s.disk.file, cfg.blockSize, id) == Block(w.src, cfg.blockSize, id)
      {
        if id in IdSet(s.live.value.taken) {
          TakenBlockHolds(w, s, id);
        } else {
          if id !in Delta.SkipSet(w.src, d.disk.file, cfg.blockSize, w.hash) {
            DeliveredIsTaken(w, s, sender, ratio, Delta.SkipSet(w.src, d.disk.file, cfg.blockSize, w.hash), groups, sent, log, lost, id);
          }
          Delta.SkippedAreShared(w.src, d.disk.file, cfg.blockSize, w.hash, id);
          Delta.SharedSurvivesSetLen(w.src, d.disk.file, cfg.blockSize, id);
          ReachableOk(w, s0);
          NothingTaken(s0, id);
          RunKeepsUntouched(w, s0, steps, s0.disk.file, id);
          UntouchedBlock(s0.disk.file, s, id);
        }
      }
      BlocksDetermineFile(s.disk.file, w.src, cfg.blockSize);
    }
    CloseKeepsFile(s.live.value.memory, s.disk, outcome);
  }

  lemma StartOpens(w: World, d: Sys, cfg: Config, targetMbps: nat)
    requires Exec(w, d, Start(cfg, targetMbps)).Some?
    ensures var s0 := Exec(w, d, Start(cfg, targetMbps)).value;
      && cfg.fileSize == |w.src| && s0.disk.file == SetLen(d.disk.file, |w.src|)
      && s0.live.Some? && s0.live.value.cfg == cfg && s0.live.value.taken == []
  {}

  lemma SizesOk(w: World, s: Sys)
    requires Reachable(w, s) && s.live.Some?
    ensures |s.disk.file| == s.live.value.cfg.fileSize == |w.src|
  {
    hide Reachable, RxOk, PhaseOk, DiskHolds, Holds, Behind, Counted;
    ReachableOk(w, s);
  }

  lemma NothingTaken(s: Sys, id: nat)
    requires s.live.Some? && s.live.value.taken == [] && id < Total(s.live.value.cfg) && |s.disk.file| == s.live.value.cfg.fileSize
    ensures Untouched(s.disk.file, s, id)
  {}

  lemma UntouchedBlock(before: Bytes, s: Sys, id: nat)
    requires s.live.Some? && id < Total(s.live.value.cfg) && |before| == s.live.value.cfg.fileSize
    requires Untouched(before, s, id) && id !in IdSet(s.live.value.taken)
    ensures |s.disk.file| == |before|
    ensures Block(s.disk.file, s.live.value.cfg.blockSize, id) == Block(before, s.live.value.cfg.blockSize, id)
  {}

  lemma CloseKeepsFile(m: Memory, disk: Disk, outcome: Resume.SaveOutcome)
    ensures Close(m, disk, outcome).file == disk.file
  {}

  /** What has been taken is stored: it is marked, and the mark is true. */
  lemma TakenBlockHolds(w: World, s: Sys, id: nat)
    requires Reachable(w, s) && s.live.Some? && id in IdSet(s.live.value.taken)
    ensures var size := s.live.value.cfg.blockSize;
      && |s.disk.file| == |w.src| && id < TotalBlocks(|w.src|, size)
      && Block(s.disk.file, size, id) == Block(w.src, size, id)
  {
    hide Reachable, RxOk, PhaseOk, DiskHolds, MemoryHolds, Behind, Counted, Block, Resume.Done;
    ReachableOk(w, s);
    Resume.DoneIffComplete(s.live.value.memory.image, id);
    CrashSafe(w, s, id);
  }

  /** An attempt about to end with an incomplete bitmap has taken every block that was delivered. */
  lemma DeliveredIsTaken(w: World, s: Sys, sender: Sender.UdpSender, ratio: real, skip: set<nat>, groups: seq<seq<(nat, Bytes)>>,
                         sent: seq<SentGroup>, log: seq<Sealed>, lost: seq<set<nat>>, id: nat)
    requires Reachable(w, s) && s.live.Some?
    requires s.live.value.writer.Joining? && !Resume.TransferComplete(s.live.value.memory.image)
    requires FileSent(s.live.value.cfg, w.src, skip, sender, ratio, groups, sent, log)
    requires FileDelivered(s.live.value.cfg, ratio, sent, log, lost, s.live.value.heard)
    requires id < Total(s.live.value.cfg) && id !in skip
    ensures id in IdSet(s.live.value.taken)
  {
    hide Reachable, WriterOk, Tracks, Resume.TransferComplete, FileSent, FileDelivered, Fec.Lawful;
    ReachableOk(w, s);
    var a := s.live.value;
    Runs.OkParts(w, a, s.disk);
    DeliveredIsCompleted(w, a, sender, ratio, skip, groups, sent, log, lost, id);
    assert InFlight(a) == a.taken;
    var i :| 0 <= i < |a.taken| && Ids(a.taken)[i] == id;
    assert a.taken[i] in a.taken && a.taken[i].blockId == id;
  }

  lemma DeliveredIsCompleted(w: World, a: Attempt, sender: Sender.UdpSender, ratio: real, skip: set<nat>, groups: seq<seq<(nat, Bytes)>>,
                             sent: seq<SentGroup>, log: seq<Sealed>, lost: seq<set<nat>>, id: nat)
    requires RxOk(w, a)
    requires FileSent(a.cfg, w.src, skip, sender, ratio, groups, sent, log)
    requires FileDelivered(a.cfg, ratio, sent, log, lost, a.heard)
    requires id < Total(a.cfg) && id !in skip
    ensures id in a.rx.completed
  {
    hide Tracks, RunFrom, Fec.Ideal, Fec.Lawful, Kept, Flatten, LogOf, AllUnforged, GroupArrives, WasSent, Paired, Decodable;
    UnforgedAuthentic(a.cfg, w.src, log, a.heard);
    Fec.IdealIsLawful(a.cfg.codec);
    EmittedExactly(a.cfg, w.src, 0, a.heard);
    FileArrives(a.cfg, w.src, skip, 0, sender, ratio, groups, sent, log, lost, a.heard, id);
    Runs.CompletedDecodable(w, a, id);
  }

  /**
   * The bitmap knows nothing of skipped blocks: in any run the transfer counts as complete exactly when each block was
   * either resumed or taken out of the channel in this attempt.
   */
  lemma CompleteIffResumedOrTaken(w: World, s: Sys)
    requires Reachable(w, s) && s.live.Some?
    ensures var a := s.live.value;
      Resume.TransferComplete(a.memory.image) <==> forall id: nat :: id < Total(a.cfg) ==> id in a.resumed || id in IdSet(a.taken)
  {
    hide Reachable, RxOk, PhaseOk, DiskHolds, Holds, Behind, Counted, Resume.TransferComplete, Resume.Done, IdSet, Resume.IsComplete;
    ReachableOk(w, s);
    var a := s.live.value;
    BreakMeansComplete(a.cfg, w.hash, a.memory, s.disk, BlocksOf(w.src, a.cfg.blockSize));
    forall id: nat
      ensures Resume.IsComplete(a.memory.image, id) <==> id in a.resumed || id in IdSet(a.taken)
    {
      Resume.DoneIffComplete(a.memory.image, id);
    }
  }

  // ---- And the attempt does end ----

  /** No further step of the process by itself. */
  ghost predicate Maximal(w: World, s: Sys) {
    forall step :: Stall.Internal(step) ==> Exec(w, s, step).None?
  }

  lemma InternalKeepsHeard(w: World, s: Sys, step: Step)
    requires Stall.Internal(step) && s.live.Some? && Exec(w, s, step).Some?
    ensures var t := Exec(w, s, step).value;
      t.live.Some? ==> t.live.value.heard == s.live.value.heard && t.live.value.cfg == s.live.value.cfg
    ensures Exec(w, s, step).value.live.None? ==> step.Complete?
  {
    hide WriteAndMark, SaveNow, Close;
  }

  lemma {:induction false} InternalRunKeepsHeard(w: World, s: Sys, steps: seq<Step>)
    requires Stall.AllInternal(steps) && s.live.Some? && Run(w, s, steps).Some?
    ensures var t := Run(w, s, steps).value;
      t.live.Some? ==> t.live.value.heard == s.live.value.heard && t.live.value.cfg == s.live.value.cfg
  {
    hide Exec;
    if steps != [] {
      var front, step := steps[..|steps| - 1], steps[|steps| - 1];
      InternalRunKeepsHeard(w, s, front);
      var t := Run(w, s, front).value;
      if t.live.Some? {
        InternalKeepsHeard(w, t, step);
      } else {
        Stall.NothingInternalWithoutAttempt(w, t, step);
      }
    }
  }

  /**
   * Once the datagrams that deliver the file have been read, an attempt that resumed at most 64 blocks (or all of
   * them) needs nothing more: every way its tasks can run on until nothing is left to do ends with the source file.
   */
  lemma DeliveredAttemptSucceeds(w: World, s: Sys, steps: seq<Step>, sender: Sender.UdpSender, ratio: real,
                                 groups: seq<seq<(nat, Bytes)>>, sent: seq<SentGroup>, log: seq<Sealed>, lost: seq<set<nat>>)
    requires Reachable(w, s) && s.live.Some?
    requires |s.live.value.resumed| <= CAPACITY || |s.live.value.resumed| >= Total(s.live.value.cfg)
    requires FileSent(s.live.value.cfg, w.src, {}, sender, ratio, groups, sent, log)
    requires FileDelivered(s.live.value.cfg, ratio, sent, log, lost, s.live.value.heard)
    requires Stall.AllInternal(steps) && Run(w, s, steps).Some? && Maximal(w, Run(w, s, steps).value)
    ensures var t := Run(w, s, steps).value; t.live.None? && t.disk.file == w.src
  {
    hide Reachable, Exec, FileSent, FileDelivered, Total, Stall.Stuck, Stall.Rank;
    var t := Run(w, s, steps).value;
    Stall.AttemptEnds(w, s, steps);
    assert t.live.None?;
    assert steps != [];
    var front, step := steps[..|steps| - 1], steps[|steps| - 1];
    var before := Run(w, s, front).value;
    InternalRunKeepsHeard(w, s, front);
    if before.live.None? {
      Stall.NothingInternalWithoutAttempt(w, before, step);
    } else {
      InternalKeepsHeard(w, before, step);
      Runs.ReachableExtends(w, s, front);
      SourceToOutput(w, before, sender, ratio, groups, sent, log, lost, step.outcome);
    }
  }
}
