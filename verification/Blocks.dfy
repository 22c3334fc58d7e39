/**
 * How a file is cut into blocks (protocol/wire.rs, engine/send.rs, engine/delta.rs),
 * and what writing one block at its offset does to a file (engine/recv.rs).
 */
module Blocks {
  import opened Prelude

  function TotalBlocks(fileSize: nat, blockSize: nat): nat
    requires blockSize > 0
  {
    CeilDiv(fileSize, blockSize)
  }

  /** Every block starts inside the file, and every block but the last one ends inside it. */
  lemma OffsetInside(fileSize: nat, blockSize: nat, id: nat)
    requires blockSize > 0
    requires id < TotalBlocks(fileSize, blockSize)
    ensures id * blockSize < fileSize
    ensures id + 1 < TotalBlocks(fileSize, blockSize) ==> (id + 1) * blockSize < fileSize
    ensures id + 1 == TotalBlocks(fileSize, blockSize) ==> fileSize <= (id + 1) * blockSize
  {
    var total := TotalBlocks(fileSize, blockSize);
    DivModFacts(fileSize + blockSize - 1, blockSize);
    assert total * blockSize <= fileSize + blockSize - 1 < total * blockSize + blockSize;
    assert (total - 1) * blockSize == total * blockSize - blockSize;
    MulMono(id, total - 1, blockSize);
    if id + 1 < total {
      MulMono(id + 1, total - 1, blockSize);
    }
  }

  /** The length the sender reads: the remainder of the file, at most one block. */
  function BlockLen(fileSize: nat, blockSize: nat, id: nat): nat
    requires blockSize > 0
    requires id < TotalBlocks(fileSize, blockSize)
  {
    OffsetInside(fileSize, blockSize, id);
    Min(fileSize - id * blockSize, blockSize)
  }

  /** The length the receiver expects: it special-cases the last id instead of taking a minimum. */
  function ReceiverLen(fileSize: nat, blockSize: nat, id: nat): nat
    requires blockSize > 0
  {
    var total := TotalBlocks(fileSize, blockSize);
    if id == total - 1 then
      OffsetInside(fileSize, blockSize, id);
      fileSize - id * blockSize
    else
      blockSize
  }

  /** Sender and receiver agree on the length of every block of every file, and no block is empty. */
  lemma LengthsAgree(fileSize: nat, blockSize: nat, id: nat)
    requires blockSize > 0
    requires id < TotalBlocks(fileSize, blockSize)
    ensures ReceiverLen(fileSize, blockSize, id) == BlockLen(fileSize, blockSize, id)
    ensures 0 < BlockLen(fileSize, blockSize, id) <= blockSize
    ensures id * blockSize + BlockLen(fileSize, blockSize, id) <= fileSize
  {
    OffsetInside(fileSize, blockSize, id);
    assert (id + 1) * blockSize == id * blockSize + blockSize;
  }

  function Block(file: Bytes, blockSize: nat, id: nat): (b: Bytes)
    requires blockSize > 0
    requires id < TotalBlocks(|file|, blockSize)
    ensures |b| == BlockLen(|file|, blockSize, id)
  {
    LengthsAgree(|file|, blockSize, id);
    file[id * blockSize .. id * blockSize + BlockLen(|file|, blockSize, id)]
  }

  lemma BlocksCover(fileSize: nat, blockSize: nat)
    requires blockSize > 0
    ensures fileSize <= TotalBlocks(fileSize, blockSize) * blockSize
  {
    DivModFacts(fileSize + blockSize - 1, blockSize);
  }

  lemma ByteAt(file: Bytes, blockSize: nat, id: nat, r: nat)
    requires blockSize > 0 && r < blockSize
    requires id * blockSize + r < |file|
    ensures id < TotalBlocks(|file|, blockSize)
    ensures r < |Block(file, blockSize, id)| && Block(file, blockSize, id)[r] == file[id * blockSize + r]
  {
    var total := TotalBlocks(|file|, blockSize);
    BlocksCover(|file|, blockSize);
    if total <= id {
      MulMono(total, id, blockSize);
    }
    LengthsAgree(|file|, blockSize, id);
  }

  /** Every byte of a file lives in one of its blocks. */
  lemma ByteInBlock(file: Bytes, blockSize: nat, k: nat) returns (id: nat, r: nat)
    requires blockSize > 0
    requires k < |file|
    ensures r < blockSize && k == id * blockSize + r
  {
    id, r := k / blockSize, k % blockSize;
    DivModFacts(k, blockSize);
  }

  /** The blocks of a file determine it. */
  lemma BlocksDetermineFile(f: Bytes, g: Bytes, blockSize: nat)
    requires blockSize > 0
    requires |f| == |g|
    requires forall id: nat :: id < TotalBlocks(|f|, blockSize) ==> Block(f, blockSize, id) == Block(g, blockSize, id)
    ensures f == g
  {
    forall k: nat | k < |f|
      ensures f[k] == g[k]
    {
      var id, r := ByteInBlock(f, blockSize, k);
      ByteAt(f, blockSize, id, r);
      ByteAt(g, blockSize, id, r);
    }
  }

  /** Seek and write: past the end of the file the gap reads as zeros. */
  function WriteAt(file: Bytes, offset: nat, data: Bytes): (r: Bytes)
    ensures |r| == Max(|file|, offset + |data|)
  {
    (if offset <= |file| then file[..offset] else file + Zeros(offset - |file|))
    + data
    + (if offset + |data| <= |file| then file[offset + |data|..] else [])
  }

  /** `File::set_len`: cut, or extend with zeros. */
  function SetLen(file: Bytes, n: nat): (r: Bytes)
    ensures |r| == n
  {
    if n <= |file| then file[..n] else file + Zeros(n - |file|)
  }

  /** Byte by byte: what was there is kept, what is new is zero. */
  lemma SetLenBytes(file: Bytes, n: nat, k: nat)
    requires k < n
    ensures SetLen(file, n)[k] == if k < |file| then file[k] else 0
  {}

  /** Byte by byte: the data where it is written, zeros in a gap before it, the old bytes elsewhere. */
  lemma WriteAtBytes(file: Bytes, offset: nat, data: Bytes, k: nat)
    requires k < |WriteAt(file, offset, data)|
    ensures WriteAt(file, offset, data)[k] ==
      if offset <= k < offset + |data| then data[k - offset] else if k < |file| then file[k] else 0
  {}

  lemma WriteKeepsSlice(file: Bytes, offset: nat, data: Bytes, a: nat, b: nat)
    requires offset + |data| <= |file|
    requires a <= b <= |file|
    requires b <= offset || offset + |data| <= a
    ensures WriteAt(file, offset, data)[a..b] == file[a..b]
  {
    var w := WriteAt(file, offset, data);
    assert w == file[..offset] + data + file[offset + |data|..];
    forall k | a <= k < b
      ensures w[k] == file[k]
    {
      if k >= offset + |data| {
        assert w[k] == file[offset + |data|..][k - (offset + |data|)];
      }
    }
    assert forall k :: 0 <= k < b - a ==> w[a..b][k] == w[a + k] && file[a..b][k] == file[a + k];
  }

  lemma SlotsDisjoint(blockSize: nat, i: nat, j: nat)
    requires i < j
    ensures i * blockSize + blockSize <= j * blockSize
  {
    MulMono(i + 1, j, blockSize);
    assert (i + 1) * blockSize == i * blockSize + blockSize;
  }

  lemma WriteKeepsBlock(file: Bytes, blockSize: nat, id: nat, data: Bytes, j: nat)
    requires blockSize > 0
    requires id < TotalBlocks(|file|, blockSize) && j < TotalBlocks(|file|, blockSize) && j != id
    requires |data| <= BlockLen(|file|, blockSize, id)
    ensures |WriteAt(file, id * blockSize, data)| == |file|
    ensures Block(WriteAt(file, id * blockSize, data), blockSize, j) == Block(file, blockSize, j)
  {
    LengthsAgree(|file|, blockSize, id);
    LengthsAgree(|file|, blockSize, j);
    if j < id {
      SlotsDisjoint(blockSize, j, id);
    } else {
      SlotsDisjoint(blockSize, id, j);
    }
    WriteKeepsSlice(file, id * blockSize, data, j * blockSize, j * blockSize + BlockLen(|file|, blockSize, j));
  }

  /**
   * Writing any prefix of block `id` keeps the size of the file and every other block;
   * writing all of it makes block `id` the data written.
   */
  lemma WriteBlock(file: Bytes, blockSize: nat, id: nat, data: Bytes)
    requires blockSize > 0
    requires id < TotalBlocks(|file|, blockSize)
    requires |data| <= BlockLen(|file|, blockSize, id)
    ensures |WriteAt(file, id * blockSize, data)| == |file|
    ensures forall j: nat :: j < TotalBlocks(|file|, blockSize) && j != id ==>
      Block(WriteAt(file, id * blockSize, data), blockSize, j) == Block(file, blockSize, j)
    ensures |data| == BlockLen(|file|, blockSize, id) ==> Block(WriteAt(file, id * blockSize, data), blockSize, id) == data
  {
    LengthsAgree(|file|, blockSize, id);
    forall j: nat | j < TotalBlocks(|file|, blockSize) && j != id
      ensures Block(WriteAt(file, id * blockSize, data), blockSize, j) == Block(file, blockSize, j)
    {
      WriteKeepsBlock(file, blockSize, id, data, j);
    }
  }
}
