/**
 * The block chain of a file in 3/userfs.c: a list of 512-byte blocks. The
 * byte at position p of the file lives in block p / 512 at offset p % 512,
 * and a block's `occupied` says how many of its leading bytes hold data.
 */
module FileBlocks {
  import opened Wrappers

  /** BLOCK_SIZE. The arithmetic below writes it as the literal 512, which keeps division by it linear for the solver. */
  const BLOCK_SIZE: nat := 512

  newtype Byte = x: int | 0 <= x < 256

  /** `struct block`: the buffer and how many of its leading bytes hold data. */
  datatype Block = Block(memory: seq<Byte>, occupied: nat)

  /** The number of blocks that hold `size` bytes. */
  function BlockCount(size: nat): (r: nat)
    ensures 512 * r >= size && 512 * r < size + 512
  {
    (size + 512 - 1) / 512
  }

  /**
   * How `ufs_write` lays a file of `size` bytes out: just enough blocks, each
   * 512 bytes long, every one full except possibly the last, which holds the
   * remainder.
   */
  ghost predicate Layout(blocks: seq<Block>, size: nat) {
    |blocks| == BlockCount(size) &&
    (forall i :: 0 <= i < |blocks| ==> |blocks[i].memory| == 512) &&
    forall i :: 0 <= i < |blocks| ==> BlockOk(blocks, size, i)
  }

  /** Block i holds the file's bytes from 512 i up to the end of the block or of the file. */
  ghost predicate BlockOk(blocks: seq<Block>, size: nat, i: nat)
    requires i < |blocks|
  {
    blocks[i].occupied + i * 512 == Min(size, (i + 1) * 512)
  }

  /** Position p of a laid-out file falls in an existing block, at an offset below its `occupied`. */
  lemma InBlock(blocks: seq<Block>, size: nat, p: nat)
    requires Layout(blocks, size) && p < size
    ensures p / 512 < |blocks|
    ensures p % 512 < blocks[p / 512].occupied
  {
    assert BlockOk(blocks, size, p / 512);
  }

  /** The bytes of a laid-out file, position by position. */
  ghost function Content(blocks: seq<Block>, size: nat): (r: seq<Byte>)
    requires Layout(blocks, size)
    ensures |r| == size
  {
    seq(size, p requires 0 <= p < size =>
      InBlock(blocks, size, p);
      blocks[p / 512].memory[p % 512])
  }

  /** What a write of `d` at `pos` leaves: `s` with `d` laid over it from `pos` on. */
  function Overlay(s: seq<Byte>, pos: nat, d: seq<Byte>): (r: seq<Byte>)
    requires pos <= |s|
    ensures |r| == Max(|s|, pos + |d|)
  {
    seq(Max(|s|, pos + |d|), k requires 0 <= k < Max(|s|, pos + |d|) =>
      if pos <= k < pos + |d| then d[k - pos] else s[k])
  }

  /** Writing nothing changes nothing. */
  lemma OverlayNothing(s: seq<Byte>, pos: nat)
    requires pos <= |s|
    ensures Overlay(s, pos, []) == s
  {
  }

  /**
   * What a write lays down reads back: the written range holds `d`, and
   * every byte before it or after it, up to the old end, is the old one.
   */
  lemma OverlayReadBack(s: seq<Byte>, pos: nat, d: seq<Byte>)
    requires pos <= |s|
    ensures Overlay(s, pos, d)[pos..pos + |d|] == d
    ensures Overlay(s, pos, d)[..pos] == s[..pos]
    ensures forall k :: pos + |d| <= k < |s| ==> Overlay(s, pos, d)[k] == s[k]
  {
  }

  /** Two writes back to back are one write of both. */
  lemma OverlayTwice(s: seq<Byte>, pos: nat, d1: seq<Byte>, d2: seq<Byte>)
    requires pos <= |s|
    ensures Overlay(Overlay(s, pos, d1), pos + |d1|, d2) == Overlay(s, pos, d1 + d2)
  {
    var a := Overlay(Overlay(s, pos, d1), pos + |d1|, d2);
    var b := Overlay(s, pos, d1 + d2);
    assert |a| == |b|;
    forall k | 0 <= k < |a| ensures a[k] == b[k] {
      if pos <= k < pos + |d1| {
        assert (d1 + d2)[k - pos] == d1[k - pos];
      } else if pos + |d1| <= k < pos + |d1| + |d2| {
        assert (d1 + d2)[k - pos] == d2[k - pos - |d1|];
      }
    }
  }

  /**
   * The block ufs_write links at the tail (3/userfs.c:208-222): BLOCK_SIZE
   * bytes of which none is occupied yet. `malloc` leaves the bytes
   * undefined; they are zeros here and are never read before being written.
   */
  function EmptyBlock(): (r: Block)
    ensures |r.memory| == 512 && r.occupied == 0
  {
    Block(seq(BLOCK_SIZE, _ => 0), 0)
  }

  /** The memcpy into a block at `offset` and the update of `occupied` (3/userfs.c:232-235). */
  function CopyIn(b: Block, offset: nat, chunk: seq<Byte>): (r: Block)
    requires |b.memory| == 512 && offset + |chunk| <= 512
    ensures |r.memory| == 512
    ensures forall k :: offset <= k < offset + |chunk| ==> r.memory[k] == chunk[k - offset]
    ensures forall k :: 0 <= k < 512 && !(offset <= k < offset + |chunk|) ==> r.memory[k] == b.memory[k]
    ensures r.occupied == Max(b.occupied, offset + |chunk|)
  {
    Block(b.memory[..offset] + chunk + b.memory[offset + |chunk|..],
          if offset + |chunk| > b.occupied then offset + |chunk| else b.occupied)
  }

  /** The chain with the block at `index` written, linking an empty block at the tail first if the chain ends there. */
  function WriteAt(blocks: seq<Block>, index: nat, offset: nat, chunk: seq<Byte>): (r: seq<Block>)
    requires index <= |blocks| && offset + |chunk| <= 512
    requires index < |blocks| ==> |blocks[index].memory| == 512
    ensures |r| == if index < |blocks| then |blocks| else |blocks| + 1
  {
    var chain := if index == |blocks| then blocks + [EmptyBlock()] else blocks;
    chain[index := CopyIn(chain[index], offset, chunk)]
  }

  /** The block a position up to the end of a laid-out file falls in exists, or is the next one to link. */
  lemma ChunkIndex(blocks: seq<Block>, size: nat, cur: nat)
    requires Layout(blocks, size) && cur <= size
    ensures cur / 512 <= |blocks|
    ensures cur / 512 == |blocks| ==> cur == size && cur % 512 == 0
  {
    if cur < size {
      InBlock(blocks, size, cur);
    }
  }

  /** Writing one chunk that stays within a block keeps the layout, for the new size. */
  lemma WriteChunkLayout(blocks: seq<Block>, size: nat, cur: nat, chunk: seq<Byte>, next: seq<Block>, newSize: nat)
    requires Layout(blocks, size) && cur <= size
    requires cur % 512 + |chunk| <= 512 && |chunk| > 0
    requires cur / 512 <= |blocks|
    requires next == WriteAt(blocks, cur / 512, cur % 512, chunk) && newSize == Max(size, cur + |chunk|)
    ensures Layout(next, newSize)
  {
    var b := cur / 512;
    ChunkIndex(blocks, size, cur);
    if b == |blocks| {
      assert BlockCount(newSize) == |blocks| + 1;
    } else {
      assert BlockCount(newSize) == |blocks|;
    }
    forall i | 0 <= i < |next| ensures BlockOk(next, newSize, i) {
      if i != b {
        assert next[i] == blocks[i] && BlockOk(blocks, size, i);
      } else if b < |blocks| {
        assert BlockOk(blocks, size, b);
      }
    }
  }

  /** Writing one chunk that stays within a block lays the chunk over the file's bytes at `cur`. */
  lemma WriteChunkContent(blocks: seq<Block>, size: nat, cur: nat, chunk: seq<Byte>, next: seq<Block>, newSize: nat)
    requires Layout(blocks, size) && cur <= size
    requires cur % 512 + |chunk| <= 512 && |chunk| > 0
    requires cur / 512 <= |blocks|
    requires next == WriteAt(blocks, cur / 512, cur % 512, chunk) && newSize == Max(size, cur + |chunk|)
    ensures Layout(next, newSize)
    ensures Content(next, newSize) == Overlay(Content(blocks, size), cur, chunk)
  {
    WriteChunkLayout(blocks, size, cur, chunk, next, newSize);
    var b, off := cur / 512, cur % 512;
    var before := Content(blocks, size);
    var after := Content(next, newSize);
    var want := Overlay(before, cur, chunk);
    forall p | 0 <= p < newSize ensures after[p] == want[p] {
      if cur <= p < cur + |chunk| {
        assert p / 512 == b && p % 512 == off + (p - cur);
      } else {
        assert p < size;
        InBlock(blocks, size, p);
        assert next[p / 512].memory[p % 512] == blocks[p / 512].memory[p % 512];
      }
    }
  }

  /** Reading within one block yields the file's bytes at those positions. */
  lemma ReadChunk(blocks: seq<Block>, size: nat, cur: nat, n: nat)
    requires Layout(blocks, size) && cur + n <= size
    requires cur % 512 + n <= 512
    requires n > 0
    ensures cur / 512 < |blocks|
    ensures cur % 512 + n <= blocks[cur / 512].occupied
    ensures blocks[cur / 512].memory[cur % 512..cur % 512 + n] == Content(blocks, size)[cur..cur + n]
  {
    var b, off := cur / 512, cur % 512;
    InBlock(blocks, size, cur);
    InBlock(blocks, size, cur + n - 1);
    assert (cur + n - 1) / 512 == b;
    var inBlock := blocks[b].memory[off..off + n];
    var inFile := Content(blocks, size)[cur..cur + n];
    forall k | 0 <= k < n ensures inBlock[k] == inFile[k] {
      assert (cur + k) / 512 == b && (cur + k) % 512 == off + k;
    }
  }

  /**
   * The size of the chunk the ufs_write and ufs_read loops copy at `current`
   * with `left` bytes still to go: the rest of the block, or less when fewer
   * bytes are left (3/userfs.c:192-195 and 280-283).
   */
  function ChunkSize(current: nat, left: nat): (r: nat)
    ensures r <= left && current % 512 + r <= 512
    ensures left > 0 ==> r > 0
    ensures r == left || (current + r) % 512 == 0
  {
    Min(512 - current % 512, left)
  }

  /** Two writes back to back, as the loop sees them: the bytes written so far, then one more chunk. */
  lemma OverlayStep(c: seq<Byte>, a: seq<Byte>, b: seq<Byte>, pos: nat, cur: nat, d: seq<Byte>, chunk: seq<Byte>)
    requires pos <= |c| && cur == pos + |d|
    requires a == Overlay(c, pos, d) && b == Overlay(a, cur, chunk)
    ensures b == Overlay(c, pos, d + chunk)
  {
    OverlayTwice(c, pos, d, chunk);
  }

  /** One turn of the ufs_write loop keeps its invariant: the first `written` bytes of `data` are laid over the file. */
  lemma WriteStep(blocks: seq<Block>, size: nat, pos: nat, data: seq<Byte>, written: nat, n: nat,
                  res: seq<Block>, oldSize: nat, next: seq<Block>, newSize: nat)
    requires Layout(blocks, size) && pos <= size && written < |data|
    requires oldSize == Max(size, pos + written) && Layout(res, oldSize)
    requires Content(res, oldSize) == Overlay(Content(blocks, size), pos, data[..written])
    requires n == ChunkSize(pos + written, |data| - written)
    requires (pos + written) / 512 <= |res|
    requires next == WriteAt(res, (pos + written) / 512, (pos + written) % 512, data[written..written + n])
    requires newSize == Max(size, pos + written + n)
    ensures Layout(next, newSize)
    ensures Content(next, newSize) == Overlay(Content(blocks, size), pos, data[..written + n])
  {
    var current := pos + written;
    var chunk := data[written..written + n];
    WriteChunkContent(res, oldSize, current, chunk, next, newSize);
    OverlayStep(Content(blocks, size), Content(res, oldSize), Content(next, newSize), pos, current, data[..written], chunk);
    assert data[..written] + chunk == data[..written + n];
  }

  /**
   * The chunk loop of ufs_write (3/userfs.c:187-243) on the block chain of
   * a file of `size` bytes, writing `data` from position `pos` on. Each
   * chunk ends at a block boundary or at the end of the data. A position
   * just past the last block gets a new empty block linked at the tail.
   * The result is the file's bytes with `data` laid over them, in the
   * layout for the new size.
   */
  method WriteBlocks(blocks: seq<Block>, size: nat, pos: nat, data: seq<Byte>) returns (res: seq<Block>)
    requires Layout(blocks, size) && pos <= size
    ensures Layout(res, Max(size, pos + |data|))
    ensures Content(res, Max(size, pos + |data|)) == Overlay(Content(blocks, size), pos, data)
  {
    res := blocks;
    var written := 0;
    var current := pos;
    ghost var before := Content(blocks, size);
    OverlayNothing(before, pos);
    while written < |data|
      invariant written <= |data| && current == pos + written
      invariant Layout(res, Max(size, current))
      invariant Content(res, Max(size, current)) == Overlay(before, pos, data[..written])
    {
      var blockIndex := current / 512;
      var offset := current % 512;
      var toWrite := ChunkSize(current, |data| - written);
      var chunk := data[written..written + toWrite];
      ChunkIndex(res, Max(size, current), current);
      var next := WriteAt(res, blockIndex, offset, chunk);
      WriteStep(blocks, size, pos, data, written, toWrite, res, Max(size, current), next, Max(size, current + toWrite));
      res := next;
      written := written + toWrite;
      current := current + toWrite;
    }
    assert data[..written] == data;
  }

  /**
   * The chunk loop of ufs_read (3/userfs.c:275-310): `count` bytes of a
   * file of `size` bytes from position `pos` on, copied block by block. The
   * walk to the block always finds one and the offset is always below the
   * block's `occupied`, so the early exits of the source loop never fire.
   */
  method ReadBlocks(blocks: seq<Block>, size: nat, pos: nat, count: nat) returns (out: seq<Byte>)
    requires Layout(blocks, size) && pos + count <= size
    ensures out == Content(blocks, size)[pos..pos + count]
  {
    out := [];
    var read := 0;
    var current := pos;
    while read < count
      invariant read <= count && current == pos + read
      invariant out == Content(blocks, size)[pos..current]
    {
      var blockIndex := current / 512;
      var offset := current % 512;
      var toRead := ChunkSize(current, count - read);
      ReadChunk(blocks, size, current, toRead);
      var blk := blocks[blockIndex];
      var available := blk.occupied - offset;
      if toRead > available {
        toRead := available;
      }
      assert Content(blocks, size)[pos..current + toRead]
          == Content(blocks, size)[pos..current] + Content(blocks, size)[current..current + toRead];
      out := out + blk.memory[offset..offset + toRead];
      read := read + toRead;
      current := current + toRead;
    }
  }
}
