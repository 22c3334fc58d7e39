/**
 * When the receive task and the writer can block each other: the writer leaves its loop as soon as the
 * bitmap is full (engine/recv.rs:172) and then waits for the receive task, which may be waiting for
 * room in the channel (transport/receiver.rs:182) that nobody empties any more.
 */
module Stall {
  import opened Prelude
  import opened Resume
  import opened Receiver
  import opened Writer
  import opened Transfer
  import opened Runs
  import Fec

  ghost predicate Stalled(s: Sys) {
    && s.live.Some? && s.live.value.writer.Joining?
    && s.live.value.rxTask.Pushing? && |s.live.value.channel| >= CAPACITY
  }

  predicate Crashes(step: Step) {
    step.CrashNow? || step.CrashInWrite?
  }

  /** Steps the process takes by itself: no new attempt, no datagram, no crash. */
  predicate Internal(step: Step) {
    !step.Start? && !step.Deliver? && !Crashes(step)
  }

  ghost predicate Stuck(w: World, s: Sys) {
    forall step :: Exec(w, s, step).Some? ==> Crashes(step)
  }

  /** Some internal step of a live attempt that has not stalled. */
  ghost function NextStep(a: Attempt): Step {
    if a.rxTask.Receiving? then if |a.rx.completed| < Total(a.cfg) then TimeOut else AllReceived
    else if a.writer.Saving? then Save(Saved)
    else if a.writer.Draining? && a.channel != [] then Take
    else if a.rxTask.Pushing? then Push
    else if a.writer.Draining? then ChannelEnd
    else Complete(Saved)
  }

  lemma NextStepEnabled(w: World, s: Sys)
    requires SysOk(w, s) && s.live.Some? && !Stalled(s)
    ensures Internal(NextStep(s.live.value)) && Exec(w, s, NextStep(s.live.value)).Some?
  {
    hide Tracks, DiskHolds, Fec.Lawful, Behind, Counted, TransferComplete, LongEnough, TakeState, WriteAndMark;
    var a := s.live.value;
    if a.writer.Draining? && a.channel != [] {
      HeadIsWanted(w, a, s.disk);
    }
  }

  /** A live attempt is stuck until the process is killed exactly when it has stalled. */
  lemma StuckIffStalled(w: World, s: Sys)
    requires Reachable(w, s) && s.live.Some?
    ensures Stuck(w, s) <==> Stalled(s)
  {
    hide SysOk, DeliverState, TakeState, Begin;
    ReachableOk(w, s);
    if !Stalled(s) {
      NextStepEnabled(w, s);
    } else {
      forall step | Exec(w, s, step).Some?
        ensures Crashes(step)
      {}
    }
  }

  // ---- At most 64 blocks complete at the start: no stall ----

  lemma LateAreResumed(w: World, a: Attempt, disk: Disk, late: seq<ReceivedBlock>)
    requires AttemptOk(w, a, disk)
    requires a.writer.Joining? && a.rxTask.Pushing? && late == a.channel + [a.rxTask.block]
    ensures |late| <= |a.resumed| < Total(a.cfg)
  {
    hide TracksBlock, Fec.Lawful, DiskHolds, Behind, Counted, TransferComplete, Done, IsComplete;
    var want := BlocksOf(w.src, a.cfg.blockSize);
    BreakMeansComplete(a.cfg, w.hash, a.memory, disk, want);
    assert InFlight(a) == a.taken + late;
    forall i | 0 <= i < |late|
      ensures late[i].blockId in a.resumed
    {
      var k := |a.taken| + i;
      assert InFlight(a)[k] == late[i];
      var id := late[i].blockId;
      assert IsComplete(a.memory.image, id);
      DoneIffComplete(a.memory.image, id);
      forall j | 0 <= j < |a.taken|
        ensures a.taken[j].blockId != id
      {
        assert Ids(InFlight(a))[j] == a.taken[j].blockId && Ids(InFlight(a))[k] == id;
      }
    }
    assert Distinct(Ids(late)) by {
      forall i, j | 0 <= i < j < |late|
        ensures Ids(late)[i] != Ids(late)[j]
      {
        assert Ids(InFlight(a))[|a.taken| + i] == Ids(late)[i] && Ids(InFlight(a))[|a.taken| + j] == Ids(late)[j];
      }
    }
    DistinctCard(Ids(late));
    SubsetCard((set x | x in Ids(late)), a.resumed);
    DoneBelowTotal(a.memory.image);
    ProperSubsetCard(a.resumed, Done(a.memory.image));
  }

  lemma DoneBelowTotal(img: Image)
    ensures |Done(img)| <= |img.completed|
  {
    CountIsCardinality(img.completed);
  }

  lemma ProperSubsetCard<T>(a: set<T>, b: set<T>)
    requires a < b
    ensures |a| < |b|
  {
    assert b == a + (b - a);
  }

  /** A stall needs more than 64 blocks complete at the start, but not all of them. */
  lemma StallNeedsManyResumed(w: World, s: Sys)
    requires Reachable(w, s) && Stalled(s)
    ensures CAPACITY < |s.live.value.resumed| < Total(s.live.value.cfg)
  {
    hide AttemptOk;
    ReachableOk(w, s);
    var a := s.live.value;
    LateAreResumed(w, a, s.disk, a.channel + [a.rxTask.block]);
  }

  // ---- Without datagrams, an attempt that does not stall ends ----

  function RxRank(t: RxTask): nat {
    match t case Receiving => 1 case Pushing(_) => 4 case Returned => 0
  }

  function WriterRank(t: WriterTask): nat {
    match t case Draining => 2 case Saving => 3 case Joining => 1
  }

  function Rank(s: Sys): nat {
    match s.live
    case None => 0
    case Some(a) => 2 * |a.channel| + RxRank(a.rxTask) + WriterRank(a.writer)
  }

  lemma InternalStepsDescend(w: World, s: Sys, step: Step)
    requires Internal(step) && Exec(w, s, step).Some?
    ensures Rank(Exec(w, s, step).value) < Rank(s)
  {
    hide WriteAndMark, SaveNow, Close, IsComplete, Begin;
  }

  lemma NoStallAhead(w: World, s: Sys)
    requires Reachable(w, s) && s.live.Some?
    requires |s.live.value.resumed| <= CAPACITY || |s.live.value.resumed| >= Total(s.live.value.cfg)
    ensures !Stalled(s)
  {
    if Stalled(s) {
      StallNeedsManyResumed(w, s);
    }
  }

  lemma SameAttempt(w: World, s: Sys, step: Step)
    requires Internal(step) && s.live.Some? && Exec(w, s, step).Some?
    ensures var t := Exec(w, s, step).value;
      t.live.Some? ==> t.live.value.resumed == s.live.value.resumed && t.live.value.cfg == s.live.value.cfg
  {
    hide WriteAndMark, SaveNow, Close, IsComplete, Begin;
  }

  /**
   * Every run of internal steps, whatever its saves do, has at most `Rank(s)` steps, and as long as the attempt
   * is still live it is not stuck: another internal step is enabled. So once datagrams stop, every attempt ends.
   */
  lemma {:induction false} AttemptEnds(w: World, s: Sys, steps: seq<Step>)
    requires Reachable(w, s) && s.live.Some?
    requires |s.live.value.resumed| <= CAPACITY || |s.live.value.resumed| >= Total(s.live.value.cfg)
    requires AllInternal(steps) && Run(w, s, steps).Some?
    ensures var t := Run(w, s, steps).value;
      && |steps| + Rank(t) <= Rank(s)
      && (t.live.Some? ==> !Stuck(w, t) && exists step :: Internal(step) && Exec(w, t, step).Some?)
  {
    hide Exec, SysOk, Stalled, Rank, Reachable, Total, Run, Stuck;
    var t := Run(w, s, steps).value;
    InternalRunDescends(w, s, steps);
    ReachableExtends(w, s, steps);
    if t.live.Some? {
      NoStallAhead(w, t);
      ReachableOk(w, t);
      NextStepEnabled(w, t);
      StuckIffStalled(w, t);
    }
  }

  ghost predicate AllInternal(steps: seq<Step>) {
    forall i :: 0 <= i < |steps| ==> Internal(steps[i])
  }

  lemma {:induction false} InternalRunDescends(w: World, s: Sys, steps: seq<Step>)
    requires AllInternal(steps) && s.live.Some? && Run(w, s, steps).Some?
    ensures var t := Run(w, s, steps).value;
      && |steps| + Rank(t) <= Rank(s)
      && (t.live.Some? ==> t.live.value.resumed == s.live.value.resumed && t.live.value.cfg == s.live.value.cfg)
  {
    hide Exec, Rank;
    if steps != [] {
      var front, step := steps[..|steps| - 1], steps[|steps| - 1];
      InternalRunDescends(w, s, front);
      var t := Run(w, s, front).value;
      InternalStepsDescend(w, t, step);
      if t.live.Some? {
        SameAttempt(w, t, step);
      } else {
        NothingInternalWithoutAttempt(w, t, step);
      }
    }
  }

  lemma NothingInternalWithoutAttempt(w: World, s: Sys, step: Step)
    requires s.live.None? && Internal(step)
    ensures Exec(w, s, step).None?
  {}

  // ---- More than 64, but not all: the two attempts of a run that stalls ----

  /** The first attempt stores `n` blocks, times out, and saves them. */
  lemma FirstAttempt(w: World, cfg: Config, s0: Sys, n: nat) returns (steps: seq<Step>)
    requires Initial(s0) && CanBeSent(w, cfg) && n < Total(cfg)
    ensures Run(w, s0, steps).Some?
    ensures var s := Run(w, s0, steps).value;
      && SysOk(w, s) && s.live.None? && Done(Begin(cfg, s.disk).0.image) == Below(n)
  {
    hide Run, Fec.Lawful, Suppliable, SysOk, Begin;
    NothingResumed(cfg, s0.disk);
    InitialOk(w, s0);
    StartFilled(w, s0, cfg, 0);
    RunOne(w, s0, Start(cfg, 0));
    var s1 := Exec(w, s0, Start(cfg, 0)).value;
    var fill := FillTo(w, cfg, s1, 0, n, Saved);
    RunConcat(w, s0, [Start(cfg, 0)], fill);
    var s2 := Run(w, s1, fill).value;
    var a := s2.live.value;
    var last := StopAndSave(w, s2, a, n);
    steps := [Start(cfg, 0)] + fill;
    RunConcat(w, s0, steps, last);
    steps := steps + last;
  }

  // ---- The stall ----

  /** The second attempt has filled the bitmap; the receive task now fills the channel with blocks `0 .. n`. */
  ghost predicate Choking(w: World, cfg: Config, s: Sys, lo: nat, n: nat) {
    && SysOk(w, s) && s.live.Some? && n <= lo < Total(cfg)
    && var a := s.live.value;
    && a.cfg == cfg && a.rxTask.Receiving? && |a.channel| == n && n <= CAPACITY
    && (forall id: nat :: id in a.rx.completed <==> id < n || lo <= id < Total(cfg))
    && a.resumed == Below(lo) && a.writer.Joining?
  }

  lemma ChokeOne(w: World, cfg: Config, s: Sys, lo: nat, n: nat) returns (steps: seq<Step>)
    requires Choking(w, cfg, s, lo, n) && n < CAPACITY && n < lo && CanBeSent(w, cfg)
    ensures Run(w, s, steps).Some? && Choking(w, cfg, Run(w, s, steps).value, lo, n + 1)
  {
    hide Run, SysOk, CanBeSent;
    var emit := EmitBlock(w, s, s.live.value, n);
    var t := Run(w, s, emit).value;
    StepOk(w, t, Push);
    RunOne(w, t, Push);
    RunConcat(w, s, emit, [Push]);
    steps := emit + [Push];
  }

  lemma {:induction false} Choke(w: World, cfg: Config, s: Sys, lo: nat, n: nat) returns (steps: seq<Step>)
    requires Choking(w, cfg, s, lo, 0) && n <= CAPACITY && n <= lo && CanBeSent(w, cfg)
    ensures Run(w, s, steps).Some? && Choking(w, cfg, Run(w, s, steps).value, lo, n)
  {
    hide Exec, Choking, CanBeSent;
    if n == 0 {
      steps := [];
    } else {
      var before := Choke(w, cfg, s, lo, n - 1);
      var more := ChokeOne(w, cfg, Run(w, s, before).value, lo, n - 1);
      RunConcat(w, s, before, more);
      steps := before + more;
    }
  }

  /** From a directory with `n` of the blocks persisted, more than 64 but not all, the next attempt can stall. */
  lemma SecondAttempt(w: World, cfg: Config, s: Sys, n: nat) returns (steps: seq<Step>)
    requires SysOk(w, s) && s.live.None? && Done(Begin(cfg, s.disk).0.image) == Below(n)
    requires CanBeSent(w, cfg) && CAPACITY < n < Total(cfg)
    ensures Run(w, s, steps).Some?
    ensures var t := Run(w, s, steps).value;
      Stalled(t) && t.live.value.cfg == cfg && |t.live.value.resumed| == n
  {
    hide Run, Suppliable, Fec.Lawful, SysOk, Begin;
    StartFilled(w, s, cfg, n);
    RunOne(w, s, Start(cfg, 0));
    var s1 := Exec(w, s, Start(cfg, 0)).value;
    var fill := FillTo(w, cfg, s1, n, Total(cfg), Saved);
    RunConcat(w, s, [Start(cfg, 0)], fill);
    var s2 := Run(w, s1, fill).value;
    var choke := Choke(w, cfg, s2, n, CAPACITY);
    steps := [Start(cfg, 0)] + fill;
    RunConcat(w, s, steps, choke);
    var s3 := Run(w, s2, choke).value;
    var emit := EmitBlock(w, s3, s3.live.value, CAPACITY);
    steps := steps + choke;
    RunConcat(w, s, steps, emit);
    steps := steps + emit;
  }

  lemma StallReachable(w: World, cfg: Config, n: nat) returns (s: Sys)
    requires CanBeSent(w, cfg) && CAPACITY < n < Total(cfg)
    ensures Reachable(w, s) && Stalled(s) && s.live.value.cfg == cfg && |s.live.value.resumed| == n
  {
    hide Run, CanBeSent, Stalled, Begin;
    var s0 := Sys(Disk([], Absent), None);
    var first := FirstAttempt(w, cfg, s0, n);
    var s1 := Run(w, s0, first).value;
    var second := SecondAttempt(w, cfg, s1, n);
    s := Run(w, s1, second).value;
    RunConcat(w, s0, first, second);
    assert Initial(s0) && Run(w, s0, first + second) == Some(s);
  }

  ghost predicate StallsWith(w: World, cfg: Config, n: nat) {
    exists s :: Reachable(w, s) && Stalled(s) && s.live.value.cfg == cfg && |s.live.value.resumed| == n
  }

  /**
   * An attempt that resumes `n` complete blocks can get stuck for ever exactly when 64 < n < total.
   * In particular it never does from a fresh resume state, and never below 65 blocks.
   */
  lemma StallIff(w: World, cfg: Config, n: nat)
    requires CanBeSent(w, cfg)
    ensures StallsWith(w, cfg, n) <==> 64 < n < Total(cfg)
  {
    hide Reachable, CanBeSent;
    if CAPACITY < n < Total(cfg) {
      var s := StallReachable(w, cfg, n);
    }
    if StallsWith(w, cfg, n) {
      var s :| Reachable(w, s) && Stalled(s) && s.live.value.cfg == cfg && |s.live.value.resumed| == n;
      StallNeedsManyResumed(w, s);
    }
  }
}
