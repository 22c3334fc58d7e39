/**
 * engine/recv.rs: the writer, which takes decoded blocks out of the channel, writes them into the output
 * file, and keeps the resume file beside it.
 *
 * `WriteAndMark`, `SaveNow` and `Consume` specify one block on values; `RecvEngine` runs the loop.
 */
module Writer {
  import opened Prelude
  import opened Blocks
  import opened Resume
  import opened Receiver

  const SAVE_EVERY := 8

  /** What survives a crash. */
  datatype Disk = Disk(file: Bytes, resume: ResumeFile)

  /** What the writer keeps in memory. */
  datatype Memory = Memory(image: Image, blocksWritten: nat, sinceSave: nat)

  type Hasher = Bytes -> Hash

  ghost predicate Injective(hash: Hasher) {
    forall x, y :: hash(x) == hash(y) ==> x == y
  }

  /** Load the resume state, open the file, and set its length. */
  function Begin(cfg: Config, disk: Disk): (Memory, Disk) {
    var image := LoadOrNew(disk.resume, cfg.sessionId, cfg.fileSize, cfg.blockSize, Total(cfg));
    (Memory(image, Count(image.completed), 0),
     Disk(SetLen(disk.file, cfg.fileSize), Load(disk.resume, cfg.fileSize, cfg.blockSize, Total(cfg)).1))
  }

  /** The source slices `data[..actual_len]` and would panic on anything shorter. */
  ghost predicate LongEnough(cfg: Config, b: ReceivedBlock) {
    |b.data| >= ReceiverLen(cfg.fileSize, cfg.blockSize, b.blockId)
  }

  /** A block that is not complete yet is written, hashed and marked. */
  function WriteAndMark(cfg: Config, hash: Hasher, m: Memory, disk: Disk, b: ReceivedBlock): (Memory, Disk)
    requires WellFormed(m.image) && LongEnough(cfg, b)
  {
    var data := b.data[..ReceiverLen(cfg.fileSize, cfg.blockSize, b.blockId)];
    (Memory(Mark(m.image, b.blockId, hash(data)), m.blocksWritten + 1, m.sinceSave + 1),
     disk.(file := WriteAt(disk.file, b.blockId * cfg.blockSize, data)))
  }

  /** The outcome of a save is ignored: the counter starts again even when it failed. */
  function SaveNow(m: Memory, disk: Disk, outcome: SaveOutcome): (Memory, Disk) {
    (m.(sinceSave := 0), disk.(resume := AfterSave(disk.resume, m.image, outcome)))
  }

  function Consume(cfg: Config, hash: Hasher, m: Memory, disk: Disk, b: ReceivedBlock, outcome: SaveOutcome): (Memory, Disk)
    requires WellFormed(m.image) && LongEnough(cfg, b)
  {
    if IsComplete(m.image, b.blockId) then (m, disk)
    else
      var (m', disk') := WriteAndMark(cfg, hash, m, disk, b);
      if m'.sinceSave >= SAVE_EVERY then SaveNow(m', disk', outcome) else (m', disk')
  }

  /** After the loop: remove the resume file of a complete transfer, save it otherwise. */
  function Close(m: Memory, disk: Disk, outcome: SaveOutcome): Disk {
    if TransferComplete(m.image) then disk.(resume := if outcome.Kept? then disk.resume else Absent)
    else disk.(resume := AfterSave(disk.resume, m.image, outcome))
  }

  ghost function ConsumeAll(cfg: Config, hash: Hasher, m: Memory, disk: Disk, blocks: seq<ReceivedBlock>, saves: nat -> SaveOutcome): (r: (Memory, Disk))
    requires WellFormed(m.image) && forall i :: 0 <= i < |blocks| ==> LongEnough(cfg, blocks[i])
    ensures WellFormed(r.0.image)
  {
    if blocks == [] then (m, disk)
    else
      var n := |blocks| - 1;
      var (m', disk') := ConsumeAll(cfg, hash, m, disk, blocks[..n], saves);
      Consume(cfg, hash, m', disk', blocks[n], saves(n))
  }

  // ---- What the image promises about the file ----

  ghost predicate Fits(img: Image, fileSize: nat, blockSize: pos) {
    && Matches(img, fileSize, blockSize, TotalBlocks(fileSize, blockSize))
    && |img.completed| == |img.hashes| == img.totalBlocks
  }

  /** Every bit of the image names a block of the file that holds what is wanted there, with its hash. */
  ghost predicate Holds(hash: Hasher, img: Image, file: Bytes, blockSize: pos, want: seq<Bytes>) {
    && Fits(img, |file|, blockSize) && |want| == img.totalBlocks
    && forall id: nat :: IsComplete(img, id) ==>
         Block(file, blockSize, id) == want[id] && img.hashes[id] == Some(hash(want[id]))
  }

  /** The blocks of a file. */
  ghost function BlocksOf(src: Bytes, blockSize: pos): (r: seq<Bytes>)
    ensures |r| == TotalBlocks(|src|, blockSize)
    ensures forall id: nat :: id < |r| ==> r[id] == Block(src, blockSize, id)
  {
    seq(TotalBlocks(|src|, blockSize), (id: nat) requires id < TotalBlocks(|src|, blockSize) => Block(src, blockSize, id))
  }

  /** A resume file, if it loads at all, tells the truth about the output file. */
  ghost predicate DiskHolds(hash: Hasher, disk: Disk, src: Bytes) {
    disk.resume.Stored? ==>
      && |disk.file| == |src| && disk.resume.image.blockSize > 0
      && Holds(hash, disk.resume.image, disk.file, disk.resume.image.blockSize, BlocksOf(src, disk.resume.image.blockSize))
  }

  /** What the memory of the writer promises during an attempt. */
  ghost predicate MemoryHolds(cfg: Config, hash: Hasher, m: Memory, disk: Disk, want: seq<Bytes>): (r: bool)
    ensures r ==> WellFormed(m.image) && |want| == Total(cfg)
  {
    && |disk.file| == cfg.fileSize
    && Holds(hash, m.image, disk.file, cfg.blockSize, want)
    && m.blocksWritten == Count(m.image.completed)
  }

  /** The block is the wanted one, at least if it is going to be written. */
  ghost predicate Wanted(cfg: Config, m: Memory, want: seq<Bytes>, b: ReceivedBlock)
    requires |want| == Total(cfg)
  {
    b.blockId < Total(cfg) && |b.data| == BlockLen(cfg.fileSize, cfg.blockSize, b.blockId)
    && (!IsComplete(m.image, b.blockId) ==> b.data == want[b.blockId])
  }

  lemma BeginHolds(cfg: Config, hash: Hasher, disk: Disk, src: Bytes)
    requires |src| == cfg.fileSize && DiskHolds(hash, disk, src)
    ensures var (m, disk') := Begin(cfg, disk);
      && MemoryHolds(cfg, hash, m, disk', BlocksOf(src, cfg.blockSize))
      && DiskHolds(hash, disk', src)
      && m.sinceSave == 0
  {
    hide Count;
    assert |disk.file| == |src| ==> SetLen(disk.file, cfg.fileSize) == disk.file;
    FreshHolds(cfg, hash, SetLen(disk.file, cfg.fileSize), BlocksOf(src, cfg.blockSize));
  }

  lemma FreshHolds(cfg: Config, hash: Hasher, file: Bytes, want: seq<Bytes>)
    requires |file| == cfg.fileSize && |want| == Total(cfg)
    ensures Holds(hash, NewImage(cfg.sessionId, cfg.fileSize, cfg.blockSize, Total(cfg)), file, cfg.blockSize, want)
  {}

  /** A write of any prefix of a wanted block keeps every other block, so it keeps whatever an image says that does not name it. */
  lemma WriteKeepsHolds(hash: Hasher, img: Image, file: Bytes, blockSize: pos, want: seq<Bytes>, id: nat, data: Bytes)
    requires Holds(hash, img, file, blockSize, want)
    requires id < TotalBlocks(|file|, blockSize) && |data| <= BlockLen(|file|, blockSize, id)
    requires !IsComplete(img, id)
    ensures Holds(hash, img, WriteAt(file, id * blockSize, data), blockSize, want)
  {
    hide WriteAt, Block, Count;
    WriteBlock(file, blockSize, id, data);
  }

  /** Whatever the block holds beyond its length: the hash recorded is that of the bytes now in the file. */
  lemma HashIsOfWrittenBytes(cfg: Config, hash: Hasher, m: Memory, disk: Disk, b: ReceivedBlock)
    requires WellFormed(m.image) && |m.image.completed| == Total(cfg) && |disk.file| == cfg.fileSize
    requires b.blockId < Total(cfg) && LongEnough(cfg, b)
    ensures var (m', disk') := WriteAndMark(cfg, hash, m, disk, b);
      && |disk'.file| == cfg.fileSize && IsComplete(m'.image, b.blockId) && b.blockId < |m'.image.hashes|
      && m'.image.hashes[b.blockId] == Some(hash(Block(disk'.file, cfg.blockSize, b.blockId)))
      && Block(disk'.file, cfg.blockSize, b.blockId) <= b.data
  {
    hide WriteAt, Block;
    LengthsAgree(cfg.fileSize, cfg.blockSize, b.blockId);
    WriteBlock(disk.file, cfg.blockSize, b.blockId, b.data[..ReceiverLen(cfg.fileSize, cfg.blockSize, b.blockId)]);
  }

  lemma CountOneMore(img: Image, id: nat, h: Hash)
    requires WellFormed(img) && id < |img.completed| && !IsComplete(img, id)
    ensures Count(Mark(img, id, h).completed) == Count(img.completed) + 1
  {
    CountIsCardinality(img.completed);
    CountIsCardinality(Mark(img, id, h).completed);
    MarkAddsOne(img, id, h);
    assert id !in Done(img);
  }

  /** Writing and marking a wanted block keeps the promise, and adds exactly one block to it. */
  lemma WriteAndMarkHolds(cfg: Config, hash: Hasher, m: Memory, disk: Disk, want: seq<Bytes>, b: ReceivedBlock)
    requires MemoryHolds(cfg, hash, m, disk, want) && Wanted(cfg, m, want, b)
    requires !IsComplete(m.image, b.blockId)
    ensures LongEnough(cfg, b)
    ensures var (m', disk') := WriteAndMark(cfg, hash, m, disk, b);
      && MemoryHolds(cfg, hash, m', disk', want)
      && disk'.resume == disk.resume
      && Done(m'.image) == Done(m.image) + {b.blockId}
  {
    hide Count, WriteAt, Block;
    var id := b.blockId;
    LengthsAgree(cfg.fileSize, cfg.blockSize, id);
    assert b.data[..|b.data|] == b.data;
    WriteBlock(disk.file, cfg.blockSize, id, b.data);
    CountOneMore(m.image, id, hash(b.data));
    MarkAddsOne(m.image, id, hash(b.data));
  }

  /** The count is the number of bits, so the break means that the bitmap is full. */
  lemma BreakMeansComplete(cfg: Config, hash: Hasher, m: Memory, disk: Disk, want: seq<Bytes>)
    requires MemoryHolds(cfg, hash, m, disk, want)
    ensures m.blocksWritten >= Total(cfg) <==> TransferComplete(m.image)
    ensures TransferComplete(m.image) <==> forall id: nat :: id < Total(cfg) ==> IsComplete(m.image, id)
    ensures m.blocksWritten <= Total(cfg)
  {
    CountIsCardinality(m.image.completed);
    TransferCompleteIffAllDone(m.image);
  }

  /** A complete image means a file whose every block is the wanted one. */
  lemma CompleteFile(cfg: Config, hash: Hasher, m: Memory, disk: Disk, want: seq<Bytes>, src: Bytes)
    requires |src| == cfg.fileSize
    requires MemoryHolds(cfg, hash, m, disk, want) && TransferComplete(m.image)
    ensures disk.file == src <==> want == BlocksOf(src, cfg.blockSize)
  {
    hide Block, Count;
    BreakMeansComplete(cfg, hash, m, disk, want);
    forall id: nat | id < Total(cfg)
      ensures Block(disk.file, cfg.blockSize, id) == want[id]
    {
      assert IsComplete(m.image, id);
    }
    if want == BlocksOf(src, cfg.blockSize) {
      BlocksDetermineFile(disk.file, src, cfg.blockSize);
    }
  }

  // ---- What a save can lose ----

  /** The blocks a restart would find complete. */
  ghost function Persisted(disk: Disk): set<nat> {
    if disk.resume.Stored? then Done(disk.resume.image) else {}
  }

  /** The resume file belongs to this transfer and is never ahead of the memory. */
  ghost predicate Behind(cfg: Config, m: Memory, disk: Disk) {
    disk.resume.Stored? ==>
      && Matches(disk.resume.image, cfg.fileSize, cfg.blockSize, Total(cfg))
      && Done(disk.resume.image) <= Done(m.image)
  }

  /**
   * The counter is exactly the number of blocks a crash would lose if the last save was good (or none was due
   * yet), and short of that number by at least the eight blocks of a failed save otherwise.
   */
  ghost predicate Counted(m: Memory, disk: Disk, good: bool) {
    && Persisted(disk) <= Done(m.image)
    && if good then |Done(m.image)| == |Persisted(disk)| + m.sinceSave
       else |Done(m.image)| >= |Persisted(disk)| + m.sinceSave + SAVE_EVERY
  }

  lemma BeginBehind(cfg: Config, hash: Hasher, disk: Disk, src: Bytes)
    requires |src| == cfg.fileSize && DiskHolds(hash, disk, src)
    ensures var (m, disk') := Begin(cfg, disk); Behind(cfg, m, disk') && Counted(m, disk', true)
  {}

  /** Writing and marking keeps the truth of the resume file, and moves memory one block ahead of it. */
  lemma WriteAndMarkBehind(cfg: Config, hash: Hasher, m: Memory, disk: Disk, src: Bytes, b: ReceivedBlock, good: bool)
    requires |src| == cfg.fileSize
    requires MemoryHolds(cfg, hash, m, disk, BlocksOf(src, cfg.blockSize)) && Wanted(cfg, m, BlocksOf(src, cfg.blockSize), b)
    requires DiskHolds(hash, disk, src) && Behind(cfg, m, disk) && !IsComplete(m.image, b.blockId)
    ensures LongEnough(cfg, b)
    ensures var (m', disk') := WriteAndMark(cfg, hash, m, disk, b);
      && DiskHolds(hash, disk', src) && Behind(cfg, m', disk')
      && (Counted(m, disk, good) ==> Counted(m', disk', good))
  {
    hide Count, WriteAt, Block, BlocksOf;
    LengthsAgree(cfg.fileSize, cfg.blockSize, b.blockId);
    assert b.data[..|b.data|] == b.data;
    WriteAndMarkHolds(cfg, hash, m, disk, BlocksOf(src, cfg.blockSize), b);
    PartialWriteHolds(cfg, hash, m, disk, src, b.blockId, b.data);
    assert b.blockId !in Done(m.image);
  }

  /** A write cut off anywhere leaves the resume file truthful. */
  lemma PartialWriteHolds(cfg: Config, hash: Hasher, m: Memory, disk: Disk, src: Bytes, id: nat, data: Bytes)
    requires |src| == |disk.file| == cfg.fileSize
    requires DiskHolds(hash, disk, src) && Behind(cfg, m, disk)
    requires id < Total(cfg) && !IsComplete(m.image, id)
    requires |data| <= BlockLen(cfg.fileSize, cfg.blockSize, id)
    ensures DiskHolds(hash, disk.(file := WriteAt(disk.file, id * cfg.blockSize, data)), src)
  {
    hide Count, WriteAt, Block, BlocksOf;
    if disk.resume.Stored? {
      var img := disk.resume.image;
      assert !IsComplete(img, id) by {
        assert id !in Done(m.image);
      }
      WriteKeepsHolds(hash, img, disk.file, cfg.blockSize, BlocksOf(src, cfg.blockSize), id, data);
      WriteBlock(disk.file, cfg.blockSize, id, data);
    }
  }

  /** However the save ends, the resume file stays truthful. */
  lemma SaveHolds(cfg: Config, hash: Hasher, m: Memory, disk: Disk, src: Bytes, outcome: SaveOutcome)
    requires |src| == cfg.fileSize
    requires MemoryHolds(cfg, hash, m, disk, BlocksOf(src, cfg.blockSize))
    requires DiskHolds(hash, disk, src) && Behind(cfg, m, disk)
    ensures var (m', disk') := SaveNow(m, disk, outcome);
      && MemoryHolds(cfg, hash, m', disk', BlocksOf(src, cfg.blockSize))
      && DiskHolds(hash, disk', src) && Behind(cfg, m', disk')
  {
    hide Count, Block, BlocksOf;
  }

  /** A due save makes the counter right exactly when it succeeds, whatever the saves before it did. */
  lemma SaveCounts(m: Memory, disk: Disk, good: bool, outcome: SaveOutcome)
    requires Counted(m, disk, good) && m.sinceSave >= SAVE_EVERY
    ensures var (m', disk') := SaveNow(m, disk, outcome);
      Counted(m', disk', outcome.Saved?)
  {
    hide Done;
  }

  // ---- Resuming another source ----

  lemma ConsumeHolds(cfg: Config, hash: Hasher, m: Memory, disk: Disk, want: seq<Bytes>, b: ReceivedBlock, outcome: SaveOutcome)
    requires MemoryHolds(cfg, hash, m, disk, want) && Wanted(cfg, m, want, b) && LongEnough(cfg, b)
    ensures var (m', disk') := Consume(cfg, hash, m, disk, b, outcome);
      MemoryHolds(cfg, hash, m', disk', want) && Done(m'.image) == Done(m.image) + {b.blockId}
  {
    hide MemoryHolds, WriteAndMark, SaveNow;
    if IsComplete(m.image, b.blockId) {
      assert b.blockId in Done(m.image);
    } else {
      WriteAndMarkHolds(cfg, hash, m, disk, want, b);
      var (m1, disk1) := WriteAndMark(cfg, hash, m, disk, b);
      SavedMemoryHolds(cfg, hash, m1, disk1, want, outcome);
    }
  }

  ghost predicate AllWanted(cfg: Config, m: Memory, want: seq<Bytes>, blocks: seq<ReceivedBlock>)
    requires |want| == Total(cfg)
  {
    forall i :: 0 <= i < |blocks| ==> Wanted(cfg, m, want, blocks[i]) && LongEnough(cfg, blocks[i])
  }

  lemma {:induction false} ConsumeAllHolds(cfg: Config, hash: Hasher, m: Memory, disk: Disk, want: seq<Bytes>,
                                           blocks: seq<ReceivedBlock>, saves: nat -> SaveOutcome)
    requires MemoryHolds(cfg, hash, m, disk, want) && AllWanted(cfg, m, want, blocks)
    ensures var (m', disk') := ConsumeAll(cfg, hash, m, disk, blocks, saves);
      MemoryHolds(cfg, hash, m', disk', want) && Done(m'.image) == Done(m.image) + set b | b in blocks :: b.blockId
  {
    hide MemoryHolds, Consume, LongEnough, Wanted, Done;
    if blocks != [] {
      var n := |blocks| - 1;
      ConsumeAllHolds(cfg, hash, m, disk, want, blocks[..n], saves);
      var (m1, disk1) := ConsumeAll(cfg, hash, m, disk, blocks[..n], saves);
      StillWanted(cfg, m, m1, want, blocks[n]);
      ConsumeHolds(cfg, hash, m1, disk1, want, blocks[n], saves(n));
      assert (set b | b in blocks :: b.blockId) == (set b | b in blocks[..n] :: b.blockId) + {blocks[n].blockId};
    }
  }

  lemma StillWanted(cfg: Config, m: Memory, later: Memory, want: seq<Bytes>, b: ReceivedBlock)
    requires |want| == Total(cfg) && Wanted(cfg, m, want, b)
    requires Done(m.image) <= Done(later.image)
    ensures Wanted(cfg, later, want, b)
  {
    if IsComplete(m.image, b.blockId) {
      assert b.blockId in Done(m.image);
      assert b.blockId in Done(later.image);
    }
  }

  lemma SavedMemoryHolds(cfg: Config, hash: Hasher, m: Memory, disk: Disk, want: seq<Bytes>, outcome: SaveOutcome)
    requires MemoryHolds(cfg, hash, m, disk, want)
    ensures var (m', disk') := SaveNow(m, disk, outcome); MemoryHolds(cfg, hash, m', disk', want) && m'.image == m.image
  {}

  /** The blocks of `b`, except that what is complete already is a block of `a`. */
  ghost function Mixed(img: Image, a: Bytes, b: Bytes, blockSize: pos): (r: seq<Bytes>)
    requires |a| == |b|
    ensures |r| == TotalBlocks(|a|, blockSize)
  {
    seq(TotalBlocks(|a|, blockSize), (id: nat) requires id < TotalBlocks(|a|, blockSize) =>
      if IsComplete(img, id) then Block(a, blockSize, id) else Block(b, blockSize, id))
  }

  /**
   * The hashes in a resume file are stored but never compared. When file `b` is received over the resume state
   * of file `a` and the bitmap fills up, the output equals `b` exactly if every hash stored at the start is the
   * hash of that block of `b`.
   */
  lemma ResumedOverAnotherFile(cfg: Config, hash: Hasher, disk: Disk, a: Bytes, b: Bytes, blocks: seq<ReceivedBlock>, saves: nat -> SaveOutcome)
    requires Injective(hash)
    requires |a| == |b| == cfg.fileSize && DiskHolds(hash, disk, a)
    requires forall i :: 0 <= i < |blocks| ==>
      blocks[i].blockId < Total(cfg) && blocks[i].data == Block(b, cfg.blockSize, blocks[i].blockId) && LongEnough(cfg, blocks[i])
    requires TransferComplete(ConsumeAll(cfg, hash, Begin(cfg, disk).0, Begin(cfg, disk).1, blocks, saves).0.image)
    ensures var loaded := Begin(cfg, disk).0.image;
      ConsumeAll(cfg, hash, Begin(cfg, disk).0, Begin(cfg, disk).1, blocks, saves).1.file == b
      <==> forall id: nat :: IsComplete(loaded, id) && id < |loaded.hashes| && id < Total(cfg) ==>
             loaded.hashes[id] == Some(hash(Block(b, cfg.blockSize, id)))
  {
    hide Count, Block, ConsumeAll, DiskHolds, Begin;
    BeginHolds(cfg, hash, disk, a);
    var (m, disk') := Begin(cfg, disk);
    var want := Mixed(m.image, a, b, cfg.blockSize);
    assert MemoryHolds(cfg, hash, m, disk', want);
    ConsumeAllHolds(cfg, hash, m, disk', want, blocks, saves);
    var (last, diskLast) := ConsumeAll(cfg, hash, m, disk', blocks, saves);
    CompleteFile(cfg, hash, last, diskLast, want, b);
    var of_b := BlocksOf(b, cfg.blockSize);
    assert want == of_b <==> forall id: nat :: id < Total(cfg) ==> want[id] == of_b[id];
  }

  // ---- The engine ----

  /** The output file and the resume file next to it. */
  class OutputPath {
    var file: Bytes
    var resumeFile: ResumeFile

    function Contents(): Disk
      reads this
    {
      Disk(file, resumeFile)
    }

    constructor (disk: Disk)
      ensures Contents() == disk
    {
      file, resumeFile := disk.file, disk.resume;
    }

    method SetLength(n: nat)
      modifies this`file
      ensures file == SetLen(old(file), n)
    {
      file := SetLen(file, n);
    }

    method WriteAll(offset: nat, data: Bytes)
      modifies this`file
      ensures file == WriteAt(old(file), offset, data)
    {
      file := WriteAt(file, offset, data);
    }

    method SaveResume(image: Image, outcome: SaveOutcome)
      modifies this`resumeFile
      ensures resumeFile == AfterSave(old(resumeFile), image, outcome)
    {
      match outcome {
        case Saved => resumeFile := Stored(image);
        case Kept =>
        case Torn => resumeFile := Corrupt;
      }
    }

    /** Reads the resume file; removes it when it is corrupt or belongs to another transfer. */
    method LoadResume(fileSize: nat, blockSize: nat, totalBlocks: nat) returns (image: Option<Image>)
      modifies this`resumeFile
      ensures (image, resumeFile) == Load(old(resumeFile), fileSize, blockSize, totalBlocks)
    {
      if resumeFile.Absent? {
        return None;
      }
      if resumeFile.Corrupt? {
        resumeFile := Absent;
        return None;
      }
      var state := resumeFile.image;
      if state.fileSize != fileSize || state.blockSize != blockSize || state.totalBlocks != totalBlocks {
        resumeFile := Absent;
        return None;
      }
      image := Some(state);
    }
  }

  /** The `n`-th block was written, not skipped, and brought the count to the total: the loop breaks after it. */
  ghost predicate Filled(cfg: Config, hash: Hasher, m: Memory, disk: Disk, blocks: seq<ReceivedBlock>, saves: nat -> SaveOutcome, n: nat)
    requires WellFormed(m.image) && 0 < n <= |blocks| && forall i :: 0 <= i < |blocks| ==> LongEnough(cfg, blocks[i])
  {
    && !IsComplete(ConsumeAll(cfg, hash, m, disk, blocks[..n - 1], saves).0.image, blocks[n - 1].blockId)
    && ConsumeAll(cfg, hash, m, disk, blocks[..n], saves).0.blocksWritten >= Total(cfg)
  }

  class RecvEngine {
    const cfg: Config
    const hash: Hasher

    constructor (cfg: Config, hash: Hasher)
      ensures this.cfg == cfg && this.hash == hash
    {
      this.cfg, this.hash := cfg, hash;
    }

    /** The body of the loop for a block that is not complete yet. */
    method StoreBlock(output: OutputPath, resume: ResumeState, block: ReceivedBlock, blocksWritten: nat, sinceSave: nat, outcome: SaveOutcome)
      returns (written: nat, since: nat)
      requires resume.Valid() && LongEnough(cfg, block)
      requires !IsComplete(resume.Snapshot(), block.blockId)
      modifies output, resume`completedBlocks, resume`blockHashes
      ensures resume.Valid()
      ensures (Memory(resume.Snapshot(), written, since), output.Contents())
        == Consume(cfg, hash, Memory(old(resume.Snapshot()), blocksWritten, sinceSave), old(output.Contents()), block, outcome)
    {
      hide WriteAt, Mark;
      var offset := block.blockId * cfg.blockSize;
      var actualLen := ReceiverLen(cfg.fileSize, cfg.blockSize, block.blockId);
      output.WriteAll(offset, block.data[..actualLen]);
      var blockHash := hash(block.data[..actualLen]);
      resume.MarkComplete(block.blockId, blockHash);
      written, since := blocksWritten + 1, sinceSave + 1;
      if since >= SAVE_EVERY {
        output.SaveResume(resume.Snapshot(), outcome);
        since := 0;
      }
    }

    /**
     * `blocks` is everything the channel will ever deliver; `saves` says how the saves end. The output is
     * the one of `ConsumeAll` on the blocks taken, and the engine stops early only when the count is full.
     */
    method ReceiveFile(output: OutputPath, blocks: seq<ReceivedBlock>, saves: nat -> SaveOutcome, lastSave: SaveOutcome)
      returns (blocksWritten: nat, taken: nat)
      requires output.resumeFile.Stored? ==> WellFormed(output.resumeFile.image)
      requires forall i :: 0 <= i < |blocks| ==> LongEnough(cfg, blocks[i])
      modifies output
      ensures taken <= |blocks|
      ensures var (m0, disk0) := Begin(cfg, old(output.Contents()));
        var (m, disk) := ConsumeAll(cfg, hash, m0, disk0, blocks[..taken], saves);
        && output.Contents() == Close(m, disk, lastSave)
        && blocksWritten == m.blocksWritten
        && (taken < |blocks| ==> taken > 0 && Filled(cfg, hash, m0, disk0, blocks, saves, taken))
        && forall n :: 0 < n < taken ==> !Filled(cfg, hash, m0, disk0, blocks, saves, n)
    {
      hide Consume, Count, Begin, Filled;
      BeginKeepsForm(cfg, output.Contents());
      ghost var start := Begin(cfg, output.Contents());
      ghost var m0, disk0 := start.0, start.1;
      var resume, alreadyComplete := OpenOutput(output);
      var sinceSave := 0;
      blocksWritten, taken := alreadyComplete, 0;
      while taken < |blocks|
        invariant taken <= |blocks| && resume.Valid() && fresh(resume)
        invariant (Memory(resume.Snapshot(), blocksWritten, sinceSave), output.Contents())
          == ConsumeAll(cfg, hash, m0, disk0, blocks[..taken], saves)
        invariant forall n :: 0 < n <= taken ==> !Filled(cfg, hash, m0, disk0, blocks, saves, n)
      {
        var block := blocks[taken];
        assert blocks[..taken + 1][..taken] == blocks[..taken];
        taken := taken + 1;
        if IsComplete(resume.Snapshot(), block.blockId) {
          SkipComplete(cfg, hash, Memory(resume.Snapshot(), blocksWritten, sinceSave), output.Contents(), block, saves(taken - 1));
          FilledIff(cfg, hash, m0, disk0, blocks, saves, taken);
          continue;
        }
        blocksWritten, sinceSave := StoreBlock(output, resume, block, blocksWritten, sinceSave, saves(taken - 1));
        FilledIff(cfg, hash, m0, disk0, blocks, saves, taken);
        if blocksWritten >= Total(cfg) {
          break;
        }
      }
      CloseOutput(output, resume, lastSave, Memory(resume.Snapshot(), blocksWritten, sinceSave));
    }

    method OpenOutput(output: OutputPath) returns (resume: ResumeState, alreadyComplete: nat)
      requires output.resumeFile.Stored? ==> WellFormed(output.resumeFile.image)
      modifies output
      ensures fresh(resume) && resume.Valid()
      ensures (Memory(resume.Snapshot(), alreadyComplete, 0), output.Contents()) == Begin(cfg, old(output.Contents()))
    {
      var loaded := output.LoadResume(cfg.fileSize, cfg.blockSize, Total(cfg));
      if loaded.Some? {
        resume := new ResumeState.FromImage(loaded.value);
      } else {
        resume := new ResumeState(cfg.sessionId, cfg.fileSize, cfg.blockSize, Total(cfg));
      }
      alreadyComplete := resume.CompletedCount();
      output.SetLength(cfg.fileSize);
    }

    method CloseOutput(output: OutputPath, resume: ResumeState, outcome: SaveOutcome, ghost m: Memory)
      requires m.image == resume.Snapshot()
      modifies output
      ensures output.Contents() == Close(m, old(output.Contents()), outcome)
    {
      var count := resume.CompletedCount();
      if count >= resume.totalBlocks {
        if !outcome.Kept? {
          output.resumeFile := Absent;
        }
      } else {
        output.SaveResume(resume.Snapshot(), outcome);
      }
    }
  }

  lemma FilledIff(cfg: Config, hash: Hasher, m: Memory, disk: Disk, blocks: seq<ReceivedBlock>, saves: nat -> SaveOutcome, n: nat)
    requires WellFormed(m.image) && 0 < n <= |blocks| && forall i :: 0 <= i < |blocks| ==> LongEnough(cfg, blocks[i])
    ensures Filled(cfg, hash, m, disk, blocks, saves, n) <==>
      && !IsComplete(ConsumeAll(cfg, hash, m, disk, blocks[..n - 1], saves).0.image, blocks[n - 1].blockId)
      && ConsumeAll(cfg, hash, m, disk, blocks[..n], saves).0.blocksWritten >= Total(cfg)
  {}

  lemma BeginKeepsForm(cfg: Config, disk: Disk)
    requires disk.resume.Stored? ==> WellFormed(disk.resume.image)
    ensures WellFormed(Begin(cfg, disk).0.image)
  {}

  lemma SkipComplete(cfg: Config, hash: Hasher, m: Memory, disk: Disk, b: ReceivedBlock, outcome: SaveOutcome)
    requires WellFormed(m.image) && LongEnough(cfg, b) && IsComplete(m.image, b.blockId)
    ensures Consume(cfg, hash, m, disk, b, outcome) == (m, disk)
  {}
}
