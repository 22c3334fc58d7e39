/**
 * engine/delta.rs and the skip set of main.rs: which blocks the receiver has already, and why sending
 * only the others turns its file into the source.
 */
module Delta {
  import opened Prelude
  import opened Blocks
  import opened Resume
  import opened Receiver
  import opened Writer
  import opened SendEngine

  ghost function HashesOf(file: Bytes, blockSize: pos, hash: Hasher, n: nat): (r: seq<Hash>)
    requires n <= TotalBlocks(|file|, blockSize)
    ensures |r| == n
    ensures forall id: nat :: id < n ==> r[id] == hash(Block(file, blockSize, id))
  {
    seq(n, (id: nat) requires id < n => hash(Block(file, blockSize, id)))
  }

  method ComputeBlockHashes(file: SourceFile, blockSize: pos, hash: Hasher) returns (hashes: seq<Hash>)
    modifies file
    ensures hashes == HashesOf(file.contents, blockSize, hash, TotalBlocks(|file.contents|, blockSize))
  {
    hashes := [];
    for blockId := 0 to TotalBlocks(|file.contents|, blockSize)
      invariant hashes == HashesOf(file.contents, blockSize, hash, blockId)
    {
      LengthsAgree(|file.contents|, blockSize, blockId);
      var offset := blockId * blockSize;
      var remaining := |file.contents| - offset;
      var thisBlock := Min(remaining, blockSize);
      file.Seek(offset);
      var buf := file.ReadExact(thisBlock);
      hashes := hashes + [hash(buf)];
    }
  }

  /** Block `i` has to be sent again: the destination is shorter, or its hash differs. */
  predicate Changed(source: seq<Hash>, dest: seq<Hash>, i: nat)
    requires i < |source|
  {
    i >= |dest| || source[i] != dest[i]
  }

  function Diff(source: seq<Hash>, dest: seq<Hash>, n: nat): seq<nat>
    requires n <= |source|
  {
    if n == 0 then [] else Diff(source, dest, n - 1) + if Changed(source, dest, n - 1) then [n - 1] else []
  }

  lemma {:induction false} DiffMeans(source: seq<Hash>, dest: seq<Hash>, n: nat)
    requires n <= |source|
    ensures var d := Diff(source, dest, n);
      && (forall i, j :: 0 <= i < j < |d| ==> d[i] < d[j])
      && (forall i :: 0 <= i < |d| ==> d[i] < n)
      && |d| <= n
    ensures forall k: nat :: k < n ==> (k in Diff(source, dest, n) <==> Changed(source, dest, k))
  {
    if n > 0 {
      DiffMeans(source, dest, n - 1);
    }
  }

  method DiffBlockHashes(source: seq<Hash>, dest: seq<Hash>) returns (changed: seq<nat>)
    ensures changed == Diff(source, dest, |source|)
    ensures forall i, j :: 0 <= i < j < |changed| ==> changed[i] < changed[j]
    ensures forall k: nat :: k in changed <==> k < |source| && Changed(source, dest, k)
  {
    changed := [];
    for i := 0 to |source|
      invariant changed == Diff(source, dest, i)
    {
      if i >= |dest| {
        changed := changed + [i];
      } else if source[i] != dest[i] {
        changed := changed + [i];
      }
    }
    DiffMeans(source, dest, |source|);
  }

  /** `(0..n).filter(|b| !changed.contains(b))` */
  function Unchanged(changed: seq<nat>, n: nat): seq<nat> {
    if n == 0 then [] else Unchanged(changed, n - 1) + if n - 1 in changed then [] else [n - 1]
  }

  /** The skip list: nothing is skipped when the receiver reported no hashes. */
  function SkipBlocks(source: seq<Hash>, dest: seq<Hash>): seq<nat> {
    if dest == [] then [] else Unchanged(Diff(source, dest, |source|), |source|)
  }

  datatype DeltaSyncStats = DeltaSyncStats(totalBlocks: nat, changedBlocks: nat, unchangedBlocks: nat, savingsPercent: real)

  /** The subtraction would underflow on more changed blocks than there are. */
  function FromDiff(totalBlocks: nat, changed: seq<nat>): DeltaSyncStats
    requires |changed| <= totalBlocks
  {
    var same := totalBlocks - |changed|;
    DeltaSyncStats(totalBlocks, |changed|, same,
                   if totalBlocks > 0 then same as real / totalBlocks as real * 100.0 else 0.0)
  }

  lemma {:induction false} UnchangedSplit(source: seq<Hash>, dest: seq<Hash>, n: nat, m: nat)
    requires n <= m <= |source|
    ensures |Unchanged(Diff(source, dest, m), n)| + |Diff(source, dest, n)| == n
    ensures forall k: nat :: k in Unchanged(Diff(source, dest, m), n) <==> k < n && !Changed(source, dest, k)
  {
    hide Changed, Diff;
    DiffMeans(source, dest, m);
    if n == 0 {
      assert Diff(source, dest, 0) == [] by { DiffMeans(source, dest, 0); }
    } else {
      UnchangedSplit(source, dest, n - 1, m);
      DiffStep(source, dest, n);
    }
  }

  lemma DiffStep(source: seq<Hash>, dest: seq<Hash>, n: nat)
    requires 0 < n <= |source|
    ensures Diff(source, dest, n) == Diff(source, dest, n - 1) + if Changed(source, dest, n - 1) then [n - 1] else []
  {}

  /** Changed and unchanged blocks partition the blocks of the source, and the statistics count them. */
  lemma ChangedAndUnchangedPartition(source: seq<Hash>, dest: seq<Hash>)
    ensures var changed := Diff(source, dest, |source|);
      var same := Unchanged(changed, |source|);
      && (forall k: nat :: k < |source| ==> (k in changed <==> k !in same))
      && (forall k :: k in changed || k in same ==> k < |source|)
      && |changed| <= |source|
      && var stats := FromDiff(|source|, changed);
      && stats.unchangedBlocks == |same| && stats.changedBlocks + stats.unchangedBlocks == stats.totalBlocks == |source|
      && 0.0 <= stats.savingsPercent <= 100.0
      && (source != [] ==> (stats.savingsPercent == 100.0 <==> changed == []))
  {
    hide Changed;
    DiffMeans(source, dest, |source|);
    UnchangedSplit(source, dest, |source|, |source|);
    var u := |Unchanged(Diff(source, dest, |source|), |source|)|;
    if source != [] {
      FractionBound(u, |source|);
    }
  }

  lemma FractionBound(a: nat, b: nat)
    requires a <= b && b > 0
    ensures 0.0 <= a as real / b as real <= 1.0
    ensures a as real / b as real == 1.0 <==> a == b
  {
    if a as real / b as real == 1.0 {
      assert a as real == (a as real / b as real) * b as real;
    }
  }

  // ---- The patch ----

  /** The blocks that are skipped for these two files. */
  ghost function SkipSet(src: Bytes, dest: Bytes, blockSize: pos, hash: Hasher): set<nat> {
    set id | id in SkipBlocks(HashesOf(src, blockSize, hash, TotalBlocks(|src|, blockSize)),
                              HashesOf(dest, blockSize, hash, TotalBlocks(|dest|, blockSize)))
  }

  /** With an injective hash, exactly the blocks both files share are skipped, whatever the size of the destination. */
  lemma SkippedAreShared(src: Bytes, dest: Bytes, blockSize: pos, hash: Hasher, id: nat)
    requires Injective(hash)
    ensures id in SkipSet(src, dest, blockSize, hash) <==>
      id < TotalBlocks(|src|, blockSize) && id < TotalBlocks(|dest|, blockSize) && Block(src, blockSize, id) == Block(dest, blockSize, id)
  {
    hide Block, Diff, Unchanged;
    var s := HashesOf(src, blockSize, hash, TotalBlocks(|src|, blockSize));
    var d := HashesOf(dest, blockSize, hash, TotalBlocks(|dest|, blockSize));
    UnchangedSplit(s, d, |s|, |s|);
  }

  /** A block that both files share survives cutting or extending the destination to the source's length. */
  lemma SharedSurvivesSetLen(src: Bytes, dest: Bytes, blockSize: pos, id: nat)
    requires id < TotalBlocks(|src|, blockSize) && id < TotalBlocks(|dest|, blockSize)
    requires Block(src, blockSize, id) == Block(dest, blockSize, id)
    ensures Block(SetLen(dest, |src|), blockSize, id) == Block(src, blockSize, id)
  {
    LengthsAgree(|src|, blockSize, id);
    LengthsAgree(|dest|, blockSize, id);
    var n := BlockLen(|src|, blockSize, id);
    var o := id * blockSize;
    assert |Block(src, blockSize, id)| == n && |Block(dest, blockSize, id)| == n;
    assert SetLen(dest, |src|)[o..o + n] == dest[o..o + n];
  }

  /** Blocks that are not among those consumed keep what they held. */
  lemma {:induction false} ConsumeKeepsOthers(cfg: Config, hash: Hasher, m: Memory, disk: Disk, want: seq<Bytes>,
                                              blocks: seq<ReceivedBlock>, saves: nat -> SaveOutcome, id: nat)
    requires MemoryHolds(cfg, hash, m, disk, want) && AllWanted(cfg, m, want, blocks)
    requires id < Total(cfg) && forall i :: 0 <= i < |blocks| ==> blocks[i].blockId != id
    ensures var disk' := ConsumeAll(cfg, hash, m, disk, blocks, saves).1;
      |disk'.file| == cfg.fileSize && Block(disk'.file, cfg.blockSize, id) == Block(disk.file, cfg.blockSize, id)
  {
    hide MemoryHolds, Block, LongEnough, Wanted, Consume, Done;
    if blocks == [] {
      SizeKept(cfg, hash, m, disk, want);
    } else {
      var n := |blocks| - 1;
      ConsumeKeepsOthers(cfg, hash, m, disk, want, blocks[..n], saves, id);
      ConsumeAllHolds(cfg, hash, m, disk, want, blocks[..n], saves);
      var (m1, disk1) := ConsumeAll(cfg, hash, m, disk, blocks[..n], saves);
      StillWanted(cfg, m, m1, want, blocks[n]);
      ConsumeKeepsOther(cfg, hash, m1, disk1, want, blocks[n], saves(n), id);
    }
  }

  lemma SizeKept(cfg: Config, hash: Hasher, m: Memory, disk: Disk, want: seq<Bytes>)
    requires MemoryHolds(cfg, hash, m, disk, want)
    ensures |disk.file| == cfg.fileSize
  {}

  lemma ConsumeKeepsOther(cfg: Config, hash: Hasher, m: Memory, disk: Disk, want: seq<Bytes>, b: ReceivedBlock, outcome: SaveOutcome, id: nat)
    requires MemoryHolds(cfg, hash, m, disk, want) && Wanted(cfg, m, want, b) && LongEnough(cfg, b)
    requires id < Total(cfg) && b.blockId != id
    ensures var disk' := Consume(cfg, hash, m, disk, b, outcome).1;
      |disk'.file| == cfg.fileSize && Block(disk'.file, cfg.blockSize, id) == Block(disk.file, cfg.blockSize, id)
  {
    hide Holds, Block, WriteAt, Done, Count;
    LengthsAgree(cfg.fileSize, cfg.blockSize, b.blockId);
    WriteBlock(disk.file, cfg.blockSize, b.blockId, b.data[..|b.data|]);
  }

  lemma FaithfulIsWanted(cfg: Config, hash: Hasher, m: Memory, disk: Disk, src: Bytes, out: seq<ReceivedBlock>)
    requires |src| == cfg.fileSize && Faithful(cfg, src, out)
    requires MemoryHolds(cfg, hash, m, disk, BlocksOf(src, cfg.blockSize))
    ensures AllWanted(cfg, m, BlocksOf(src, cfg.blockSize), out)
  {
    hide MemoryHolds, IsComplete;
    forall i | 0 <= i < |out|
      ensures Wanted(cfg, m, BlocksOf(src, cfg.blockSize), out[i]) && LongEnough(cfg, out[i])
    {
      LengthsAgree(cfg.fileSize, cfg.blockSize, out[i].blockId);
    }
  }

  /**
   * Delta sync. For a destination of any size: when at least the blocks that are not skipped come out of the
   * receiver, the output file is the source. The resume bitmap does not know about skipped blocks, so the
   * transfer counts as complete only if each of them was resumed or received anyway.
   */
  lemma DeltaPatches(cfg: Config, hash: Hasher, disk: Disk, src: Bytes, out: seq<ReceivedBlock>, saves: nat -> SaveOutcome)
    requires Injective(hash) && |src| == cfg.fileSize && DiskHolds(hash, disk, src)
    requires Faithful(cfg, src, out)
    requires forall id: nat :: id < Total(cfg) && id !in SkipSet(src, disk.file, cfg.blockSize, hash) ==> id in Ids(out)
    ensures forall i :: 0 <= i < |out| ==> LongEnough(cfg, out[i])
    ensures var (m0, disk0) := Begin(cfg, disk);
      WellFormed(m0.image) &&
      var (m, patched) := ConsumeAll(cfg, hash, m0, disk0, out, saves);
      && patched.file == src
      && (TransferComplete(m.image) <==> forall id: nat :: id < Total(cfg) ==> id in Done(m0.image) || id in Ids(out))
  {
    hide Begin, MemoryHolds, Block, ConsumeAll, SkipSet, DiskHolds, LongEnough, Wanted, Done, TransferComplete;
    BeginHolds(cfg, hash, disk, src);
    var (m0, disk0) := Begin(cfg, disk);
    var want := BlocksOf(src, cfg.blockSize);
    FaithfulIsWanted(cfg, hash, m0, disk0, src, out);
    ConsumeAllHolds(cfg, hash, m0, disk0, want, out, saves);
    var (m, patched) := ConsumeAll(cfg, hash, m0, disk0, out, saves);
    SizeKept(cfg, hash, m, patched, want);
    BeginFile(cfg, disk);
    forall id: nat | id < Total(cfg)
      ensures Block(patched.file, cfg.blockSize, id) == Block(src, cfg.blockSize, id)
    {
      if id in Ids(out) {
        var i :| 0 <= i < |out| && Ids(out)[i] == id;
        assert out[i] in out;
        CompleteBlockHolds(cfg, hash, m, patched, want, id);
      } else {
        ConsumeKeepsOthers(cfg, hash, m0, disk0, want, out, saves, id);
        SkippedAreShared(src, disk.file, cfg.blockSize, hash, id);
        SharedSurvivesSetLen(src, disk.file, cfg.blockSize, id);
      }
    }
    BlocksDetermineFile(patched.file, src, cfg.blockSize);
    CompleteIff(cfg, hash, m0, m, patched, want, out);
  }

  lemma BeginFile(cfg: Config, disk: Disk)
    ensures Begin(cfg, disk).1.file == SetLen(disk.file, cfg.fileSize)
  {}

  lemma CompleteBlockHolds(cfg: Config, hash: Hasher, m: Memory, disk: Disk, want: seq<Bytes>, id: nat)
    requires MemoryHolds(cfg, hash, m, disk, want) && id in Done(m.image)
    ensures |disk.file| == cfg.fileSize && id < Total(cfg) && Block(disk.file, cfg.blockSize, id) == want[id]
  {
    hide Block;
    assert IsComplete(m.image, id);
  }

  lemma CompleteIff(cfg: Config, hash: Hasher, m0: Memory, m: Memory, disk: Disk, want: seq<Bytes>, out: seq<ReceivedBlock>)
    requires MemoryHolds(cfg, hash, m, disk, want)
    requires Done(m.image) == Done(m0.image) + set b | b in out :: b.blockId
    ensures TransferComplete(m.image) <==> forall id: nat :: id < Total(cfg) ==> id in Done(m0.image) || id in Ids(out)
  {
    hide Holds, Done, TransferComplete, IsComplete, Count;
    BreakMeansComplete(cfg, hash, m, disk, want);
    forall id: nat
      ensures IsComplete(m.image, id) <==> id in Done(m0.image) || id in Ids(out)
    {
      DoneIffComplete(m.image, id);
      if id in Ids(out) {
        var i :| 0 <= i < |out| && Ids(out)[i] == id;
        assert out[i] in out;
      }
      if b :| b in out && b.blockId == id {
        var i :| 0 <= i < |out| && out[i] == b;
        assert Ids(out)[i] == id;
      }
    }
  }
}
