/**
 * engine/resume.rs: the bitmap of received blocks and its persisted copy.
 * `Image` is the value bincode stores; `ResumeState` is the object updated in place.
 */
module Resume {
  import opened Prelude

  type Hash = Bytes

  datatype Image = Image(
    sessionId: nat, fileSize: nat, blockSize: nat, totalBlocks: nat,
    completed: seq<bool>, hashes: seq<Option<Hash>>)

  function NewImage(sessionId: nat, fileSize: nat, blockSize: nat, totalBlocks: nat): Image {
    Image(sessionId, fileSize, blockSize, totalBlocks,
          seq(totalBlocks, _ => false), seq(totalBlocks, _ => None))
  }

  ghost predicate WellFormed(img: Image) {
    |img.completed| == |img.hashes|
  }

  /** An id outside the bitmap is ignored. */
  function Mark(img: Image, id: nat, hash: Hash): Image
    requires WellFormed(img)
  {
    if id < |img.completed| then
      img.(completed := img.completed[id := true], hashes := img.hashes[id := Some(hash)])
    else
      img
  }

  /** An id outside the bitmap is not complete. */
  predicate IsComplete(img: Image, id: nat) {
    id < |img.completed| && img.completed[id]
  }

  function Count(bits: seq<bool>): nat {
    if bits == [] then 0 else Count(bits[..|bits| - 1]) + if bits[|bits| - 1] then 1 else 0
  }

  function IncompleteFrom(bits: seq<bool>): seq<nat> {
    if bits == [] then []
    else IncompleteFrom(bits[..|bits| - 1]) + if bits[|bits| - 1] then [] else [|bits| - 1]
  }

  predicate TransferComplete(img: Image) {
    Count(img.completed) >= img.totalBlocks
  }

  ghost function Done(img: Image): set<nat> {
    set i | 0 <= i < |img.completed| && img.completed[i]
  }

  // ---- What the bitmap operations mean ----

  lemma DoneIffComplete(img: Image, id: nat)
    ensures IsComplete(img, id) <==> id in Done(img)
  {}

  lemma {:induction false} CountIsCardinality(bits: seq<bool>)
    ensures Count(bits) == |set i | 0 <= i < |bits| && bits[i]| <= |bits|
  {
    var here := set i | 0 <= i < |bits| && bits[i];
    if bits == [] {
      assert here == {};
    } else {
      var n := |bits| - 1;
      CountIsCardinality(bits[..n]);
      var before := set i | 0 <= i < n && bits[..n][i];
      assert here == if bits[n] then before + {n} else before;
    }
  }

  /** `is_transfer_complete` says exactly that every block of the transfer is marked. */
  lemma TransferCompleteIffAllDone(img: Image)
    requires |img.completed| == img.totalBlocks
    ensures TransferComplete(img) <==> forall id: nat :: id < img.totalBlocks ==> IsComplete(img, id)
  {
    CountIsCardinality(img.completed);
    Pigeonhole(Done(img), img.totalBlocks);
    if forall id: nat :: id < img.totalBlocks ==> IsComplete(img, id) {
      forall id: nat | id < img.totalBlocks
        ensures id in Done(img)
      {
        assert IsComplete(img, id);
      }
      SubsetCard(Below(img.totalBlocks), Done(img));
    } else {
      var id: nat :| id < img.totalBlocks && !IsComplete(img, id);
      assert id !in Done(img);
    }
  }

  /** `incomplete_blocks` lists, in increasing order, exactly the ids that `is_complete` denies. */
  lemma {:induction false} IncompleteIsComplement(bits: seq<bool>)
    ensures var l := IncompleteFrom(bits);
      && (forall i, j :: 0 <= i < j < |l| ==> l[i] < l[j])
      && (forall i :: 0 <= i < |l| ==> l[i] < |bits|)
      && |l| + Count(bits) == |bits|
    ensures forall k: nat :: k in IncompleteFrom(bits) <==> k < |bits| && !bits[k]
  {
    if bits != [] {
      var n := |bits| - 1;
      IncompleteIsComplement(bits[..n]);
      assert forall k: nat :: k < n ==> bits[..n][k] == bits[k];
      IncompleteStep(bits);
    }
  }

  lemma IncompleteStep(bits: seq<bool>)
    requires bits != []
    ensures var n := |bits| - 1;
      && IncompleteFrom(bits) == IncompleteFrom(bits[..n]) + (if bits[n] then [] else [n])
      && Count(bits) == Count(bits[..n]) + (if bits[n] then 1 else 0)
  {}

  lemma MarkAddsOne(img: Image, id: nat, hash: Hash)
    requires WellFormed(img)
    ensures WellFormed(Mark(img, id, hash))
    ensures id < |img.completed| ==> Done(Mark(img, id, hash)) == Done(img) + {id}
    ensures id >= |img.completed| ==> Mark(img, id, hash) == img
  {}

  // ---- The file beside the output file ----

  /** `Corrupt` is what an interrupted `fs::write` leaves: bytes that do not deserialize. */
  datatype ResumeFile = Absent | Corrupt | Stored(image: Image)

  /** How one `save` may end: written, failed before truncating, or cut off in the middle. */
  datatype SaveOutcome = Saved | Kept | Torn

  function AfterSave(file: ResumeFile, img: Image, outcome: SaveOutcome): ResumeFile {
    match outcome
    case Saved => Stored(img)
    case Kept => file
    case Torn => Corrupt
  }

  /** The sizes are compared; the session and the block contents are not. */
  predicate Matches(img: Image, fileSize: nat, blockSize: nat, totalBlocks: nat) {
    img.fileSize == fileSize && img.blockSize == blockSize && img.totalBlocks == totalBlocks
  }

  /** A corrupt or mismatched file is removed and nothing is resumed. */
  function Load(file: ResumeFile, fileSize: nat, blockSize: nat, totalBlocks: nat): (Option<Image>, ResumeFile) {
    match file
    case Absent => (None, Absent)
    case Corrupt => (None, Absent)
    case Stored(img) => if Matches(img, fileSize, blockSize, totalBlocks) then (Some(img), file) else (None, Absent)
  }

  /** The state an attempt starts from: the loaded image, or a fresh one. */
  function LoadOrNew(file: ResumeFile, sessionId: nat, fileSize: nat, blockSize: nat, totalBlocks: nat): Image {
    match Load(file, fileSize, blockSize, totalBlocks).0
    case Some(img) => img
    case None => NewImage(sessionId, fileSize, blockSize, totalBlocks)
  }

  /** A stored state is resumed exactly when all three sizes agree; otherwise its file is removed. */
  lemma LoadedIff(img: Image, fileSize: nat, blockSize: nat, totalBlocks: nat)
    ensures var (loaded, left) := Load(Stored(img), fileSize, blockSize, totalBlocks);
      if img.fileSize == fileSize && img.blockSize == blockSize && img.totalBlocks == totalBlocks
      then loaded == Some(img) && left == Stored(img)
      else loaded == None && left == Absent
    ensures Load(Absent, fileSize, blockSize, totalBlocks) == Load(Corrupt, fileSize, blockSize, totalBlocks) == (None, Absent)
  {}

  /** Saving and loading in the same transfer gives the state back, and only a good save changes what is loaded. */
  lemma SaveLoadRoundTrip(file: ResumeFile, img: Image, outcome: SaveOutcome, sessionId: nat)
    ensures var r := LoadOrNew(AfterSave(file, img, outcome), sessionId, img.fileSize, img.blockSize, img.totalBlocks);
      match outcome
      case Saved => r == img
      case Kept => r == LoadOrNew(file, sessionId, img.fileSize, img.blockSize, img.totalBlocks)
      case Torn => Done(r) == {}
  {}

  class ResumeState {
    const sessionId: nat
    const fileSize: nat
    const blockSize: nat
    const totalBlocks: nat
    var completedBlocks: seq<bool>
    var blockHashes: seq<Option<Hash>>

    ghost predicate Valid()
      reads this
    {
      |completedBlocks| == |blockHashes|
    }

    /** The value that `save` serializes. */
    function Snapshot(): Image
      reads this
    {
      Image(sessionId, fileSize, blockSize, totalBlocks, completedBlocks, blockHashes)
    }

    constructor (sessionId: nat, fileSize: nat, blockSize: nat, totalBlocks: nat)
      ensures Valid()
      ensures Snapshot() == NewImage(sessionId, fileSize, blockSize, totalBlocks)
    {
      this.sessionId := sessionId;
      this.fileSize := fileSize;
      this.blockSize := blockSize;
      this.totalBlocks := totalBlocks;
      completedBlocks := seq(totalBlocks, _ => false);
      blockHashes := seq(totalBlocks, _ => None);
    }

    /** Deserialization. */
    constructor FromImage(img: Image)
      requires WellFormed(img)
      ensures Valid()
      ensures Snapshot() == img
    {
      sessionId := img.sessionId;
      fileSize := img.fileSize;
      blockSize := img.blockSize;
      totalBlocks := img.totalBlocks;
      completedBlocks := img.completed;
      blockHashes := img.hashes;
    }

    method MarkComplete(blockId: nat, hash: Hash)
      requires Valid()
      modifies this`completedBlocks, this`blockHashes
      ensures Valid()
      ensures Snapshot() == Mark(old(Snapshot()), blockId, hash)
    {
      if blockId < |completedBlocks| {
        completedBlocks := completedBlocks[blockId := true];
        blockHashes := blockHashes[blockId := Some(hash)];
      }
    }

    /** `iter().filter(..).count()`, as a scan. */
    method CompletedCount() returns (n: nat)
      ensures n == Count(completedBlocks) == |Done(Snapshot())|
    {
      n := 0;
      for i := 0 to |completedBlocks|
        invariant n == Count(completedBlocks[..i])
      {
        assert completedBlocks[..i + 1][..i] == completedBlocks[..i];
        if completedBlocks[i] {
          n := n + 1;
        }
      }
      assert completedBlocks[..|completedBlocks|] == completedBlocks;
      CountIsCardinality(completedBlocks);
    }

    /** The list the sender still has to send. */
    method IncompleteBlocks() returns (ids: seq<nat>)
      ensures forall i, j :: 0 <= i < j < |ids| ==> ids[i] < ids[j]
      ensures forall k: nat :: k in ids <==> k < |completedBlocks| && !completedBlocks[k]
      ensures ids == IncompleteFrom(completedBlocks)
    {
      ids := [];
      for i := 0 to |completedBlocks|
        invariant ids == IncompleteFrom(completedBlocks[..i])
      {
        assert completedBlocks[..i + 1][..i] == completedBlocks[..i];
        if !completedBlocks[i] {
          ids := ids + [i];
        }
      }
      assert completedBlocks[..|completedBlocks|] == completedBlocks;
      IncompleteIsComplement(completedBlocks);
    }
  }
}
