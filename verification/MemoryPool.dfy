/**
 The pool allocator of the DOM: a list of chunks, each handed out from its beginning, and reallocation that grows
 the last block in place.
 */
module MemoryPool {

  type Byte = x: int | 0 <= x < 256

  /** Addresses and sizes are 64 bits wide; address 0 is NULL. */
  const WIDTH: nat := 0x1_0000_0000_0000_0000
  const NULL: nat := 0
  const HEADER: nat := 24
  const SHARED: nat := 32

  type Size = n: nat | n < WIDTH

  /** A chunk: the address of its header, the capacity of the buffer behind it, and how much of that is used. */
  datatype Chunk = Chunk(base: nat, capacity: nat, size: nat) {
    function Buffer(): nat {
      base + HEADER
    }

    function End(): nat {
      base + HEADER + capacity
    }
  }

  /** What has been handed out. */
  datatype Block = Block(start: nat, length: nat)

  /** RAPIDJSON_ALIGN, in 64 bits. */
  function Align(size: nat): nat {
    (size + 7) % WIDTH / 8 * 8
  }

  /** Rounding up is right exactly up to 2^64 - 8; beyond that it wraps to 0. */
  lemma AlignRoundsUp(size: nat)
    requires size < WIDTH
    ensures Align(size) % 8 == 0
    ensures size <= Align(size) < size + 8 <==> size <= WIDTH - 8
    ensures size > WIDTH - 8 ==> Align(size) == 0
  {
    if size <= WIDTH - 8 {
      assert (size + 7) % WIDTH == size + 7;
    } else {
      assert (size + 7) % WIDTH == size + 7 - WIDTH < 8;
    }
  }

  // ---- The invariant ----------------------------------------------------------------------------

  predicate GoodChunk(c: Chunk) {
    c.base % 8 == 0 && c.size % 8 == 0 && c.size <= c.capacity && 0 < c.base && c.End() < WIDTH
  }

  /** The memory behind each chunk, `extents[i]` bytes from its header on, is just what the chunk takes up. */
  predicate Owned(chunks: seq<Chunk>, extents: seq<nat>) {
    |extents| == |chunks| && forall i :: 0 <= i < |chunks| ==> extents[i] == HEADER + chunks[i].capacity
  }

  predicate ChunksApart(a: Chunk, b: Chunk) {
    a.End() <= b.base || b.End() <= a.base
  }

  predicate GoodChunks(chunks: seq<Chunk>) {
    && chunks != []
    && (forall i :: 0 <= i < |chunks| ==> GoodChunk(chunks[i]))
    && (forall i, j :: 0 <= i < j < |chunks| ==> ChunksApart(chunks[i], chunks[j]))
  }

  /** A block lies in the used part of a chunk. */
  predicate Inside(b: Block, c: Chunk) {
    c.Buffer() <= b.start && b.start + b.length <= c.Buffer() + c.size
  }

  predicate GoodBlock(b: Block, chunks: seq<Chunk>) {
    b.start % 8 == 0 && b.length % 8 == 0 && 0 < b.length && exists i | 0 <= i < |chunks| :: Inside(b, chunks[i])
  }

  predicate BlocksApart(a: Block, b: Block) {
    a.start + a.length <= b.start || b.start + b.length <= a.start
  }

  /** Every block is aligned and in the used part of a chunk, and no two overlap. */
  ghost predicate GoodBlocks(chunks: seq<Chunk>, blocks: set<Block>) {
    && (forall b <- blocks :: GoodBlock(b, chunks))
    && (forall a <- blocks, b <- blocks :: a != b ==> BlocksApart(a, b))
  }

  ghost predicate Good(chunks: seq<Chunk>, blocks: set<Block>) {
    GoodChunks(chunks) && GoodBlocks(chunks, blocks)
  }

  /** The first chunk with `n` more bytes used, in 64 bits. */
  function Bumped(chunks: seq<Chunk>, n: nat): seq<Chunk>
    requires chunks != []
  {
    chunks[0 := chunks[0].(size := (chunks[0].size + n) % WIDTH)]
  }

  /** Where the unused part of the first chunk begins. */
  function Top(chunks: seq<Chunk>): nat
    requires chunks != []
  {
    chunks[0].Buffer() + chunks[0].size
  }

  lemma BelowTop(chunks: seq<Chunk>, b: Block)
    requires GoodChunks(chunks) && GoodBlock(b, chunks)
    ensures b.start + b.length <= Top(chunks) || chunks[0].End() <= b.start
    ensures chunks[0].Buffer() <= b.start || b.start + b.length <= chunks[0].base
  {
    var i :| 0 <= i < |chunks| && Inside(b, chunks[i]);
    if i > 0 {
      assert ChunksApart(chunks[0], chunks[i]);
    }
  }

  lemma StillGood(chunks: seq<Chunk>, b: Block, n: nat)
    requires chunks != [] && GoodBlock(b, chunks) && chunks[0].size + n < WIDTH
    ensures GoodBlock(b, Bumped(chunks, n))
  {
    var i :| 0 <= i < |chunks| && Inside(b, chunks[i]);
    assert Inside(b, Bumped(chunks, n)[i]);
  }

  lemma BumpedChunks(chunks: seq<Chunk>, n: nat)
    requires GoodChunks(chunks) && n % 8 == 0 && chunks[0].size + n <= chunks[0].capacity
    ensures GoodChunks(Bumped(chunks, n))
  {
    var now := Bumped(chunks, n);
    forall i, j | 0 <= i < j < |now| ensures ChunksApart(now[i], now[j]) {
      assert ChunksApart(chunks[i], chunks[j]);
    }
  }

  /**
   The end of the first chunk's used part moves up by `n`, and a block from a place at or below the old end, above
   all blocks but those given up, takes all of it.
   */
  lemma BlockAdded(chunks: seq<Chunk>, blocks: set<Block>, n: nat, b: Block)
    requires Good(chunks, blocks) && n % 8 == 0 && chunks[0].size + n <= chunks[0].capacity
    requires chunks[0].Buffer() <= b.start <= Top(chunks) && b.start + b.length == Top(chunks) + n
    requires b.start % 8 == 0 && 0 < b.length && b.length % 8 == 0
    requires forall a <- blocks :: BlocksApart(a, Block(b.start, Top(chunks) - b.start))
    ensures Good(Bumped(chunks, n), blocks + {b})
  {
    var now := Bumped(chunks, n);
    BumpedChunks(chunks, n);
    assert Inside(b, now[0]);
    forall a | a in blocks ensures GoodBlock(a, now) && BlocksApart(a, b) {
      StillGood(chunks, a, n);
      BelowTop(chunks, a);
    }
  }

  lemma BlockBumped(chunks: seq<Chunk>, blocks: set<Block>, n: nat)
    requires Good(chunks, blocks) && 0 < n && n % 8 == 0 && chunks[0].size + n <= chunks[0].capacity
    ensures var b := Block(Top(chunks), n); b !in blocks && Good(Bumped(chunks, n), blocks + {b})
  {
    var b := Block(Top(chunks), n);
    forall a | a in blocks ensures a != b && BlocksApart(a, Block(b.start, 0)) {
      BelowTop(chunks, a);
    }
    BlockAdded(chunks, blocks, n, b);
  }

  /** The block that ends where the used part does can grow over what follows. */
  lemma BlockGrown(chunks: seq<Chunk>, blocks: set<Block>, b: Block, n: nat)
    requires Good(chunks, blocks) && n % 8 == 0 && chunks[0].size + n <= chunks[0].capacity
    requires b in blocks && b.start + b.length == Top(chunks)
    ensures Good(Bumped(chunks, n), blocks - {b} + {Block(b.start, b.length + n)})
  {
    BelowTop(chunks, b);
    BlockAdded(chunks, blocks - {b}, n, Block(b.start, b.length + n));
  }

  lemma BlockShrunk(chunks: seq<Chunk>, blocks: set<Block>, b: Block, n: nat)
    requires Good(chunks, blocks) && b in blocks && 0 < n <= b.length && n % 8 == 0
    ensures Good(chunks, blocks - {b} + {Block(b.start, n)})
  {
    var i :| 0 <= i < |chunks| && Inside(b, chunks[i]);
    var now := Block(b.start, n);
    assert Inside(now, chunks[i]);
    forall a | a in blocks && a != b ensures BlocksApart(a, now) && BlocksApart(now, a) {
      assert BlocksApart(a, b);
    }
  }

  lemma ChunkAdded(chunks: seq<Chunk>, blocks: set<Block>, c: Chunk)
    requires Good(chunks, blocks) && GoodChunk(c) && forall i :: 0 <= i < |chunks| ==> ChunksApart(c, chunks[i])
    ensures Good([c] + chunks, blocks)
  {
    var now := [c] + chunks;
    forall b | b in blocks ensures GoodBlock(b, now) {
      var i :| 0 <= i < |chunks| && Inside(b, chunks[i]);
      assert Inside(b, now[i + 1]);
    }
    forall i, j | 0 <= i < j < |now| ensures ChunksApart(now[i], now[j]) {
      if i > 0 {
        assert ChunksApart(chunks[i - 1], chunks[j - 1]);
      }
    }
  }

  lemma LastAlone(chunks: seq<Chunk>)
    requires GoodChunks(chunks)
    ensures Good([chunks[|chunks| - 1].(size := 0)], {})
  {
  }

  lemma AlignedTwice(size: nat)
    requires size <= WIDTH - 8
    ensures Align(Align(size)) == Align(size) <= WIDTH - 8
  {
    AlignRoundsUp(size);
    AlignRoundsUp(Align(size));
  }

  /** The contents of a piece of memory. */
  function Bytes(memory: nat -> Byte, start: nat, n: nat): seq<Byte> {
    seq(n, k requires 0 <= k => memory(start + k))
  }

  function Copied(memory: nat -> Byte, to: nat, from: nat, n: nat): nat -> Byte {
    (a: nat) => if to <= a < to + n then memory(from + (a - to)) else memory(a)
  }

  /** Copying into a block brings the bytes there, and changes no other block. */
  lemma CopyKeeps(blocks: set<Block>, memory: nat -> Byte, to: nat, from: nat, n: nat, size: nat)
    requires n <= size && forall b <- blocks :: b != Block(to, size) ==> BlocksApart(b, Block(to, size))
    ensures Bytes(Copied(memory, to, from, n), to, n) == Bytes(memory, from, n)
    ensures forall b <- blocks :: b != Block(to, size) ==>
              Bytes(Copied(memory, to, from, n), b.start, b.length) == Bytes(memory, b.start, b.length)
  {
  }

  // ---- Totals -----------------------------------------------------------------------------------

  function TotalSize(chunks: seq<Chunk>): nat {
    if chunks == [] then 0 else chunks[0].size + TotalSize(chunks[1..])
  }

  function TotalCapacity(chunks: seq<Chunk>): nat {
    if chunks == [] then 0 else chunks[0].capacity + TotalCapacity(chunks[1..])
  }

  lemma {:induction false} UsedIsWithinCapacity(chunks: seq<Chunk>)
    requires forall c <- chunks :: c.size <= c.capacity
    ensures TotalSize(chunks) <= TotalCapacity(chunks)
  {
    if chunks != [] {
      UsedIsWithinCapacity(chunks[1..]);
    }
  }

  // ---- The allocator ----------------------------------------------------------------------------

  class Pool {
    const chunkCapacity: Size
    /** The chunks, the one that serves allocation first. */
    var chunks: seq<Chunk>
    var memory: nat -> Byte
    /** What has been handed out since the last Clear. */
    ghost var blocks: set<Block>
    /** The number of bytes obtained for each chunk, with its header. */
    ghost var extents: seq<nat>

    ghost predicate Valid()
      reads this
    {
      Good(chunks, blocks) && Owned(chunks, extents)
    }

    /** The pool's own first chunk is a header without a buffer, behind the shared data. */
    constructor (shared: nat, chunkCapacity: Size)
      requires shared % 8 == 0 && shared + SHARED + HEADER < WIDTH
      ensures Valid() && blocks == {} && chunks == [Chunk(shared + SHARED, 0, 0)]
    {
      this.chunkCapacity, chunks, memory, blocks := chunkCapacity, [Chunk(shared + SHARED, 0, 0)], _ => 0, {};
      extents := [HEADER];
    }

    /** The user's buffer as the first chunk, from the first aligned address on. */
    constructor WithBuffer(buffer: nat, size: nat, chunkCapacity: Size)
      requires buffer != NULL && buffer + size < WIDTH && (8 - buffer % 8) % 8 + SHARED + HEADER <= size
      ensures Valid() && blocks == {} && |chunks| == 1
      ensures buffer <= chunks[0].base - SHARED && chunks[0].End() == buffer + size
    {
      AlignRoundsUp(buffer);
      var start, length := buffer, size;
      if buffer % 8 != 0 {
        start := Align(buffer);
        length := length - (start - buffer);
      }
      this.chunkCapacity, memory, blocks := chunkCapacity, _ => 0, {};
      chunks := [Chunk(start + SHARED, length - SHARED - HEADER, 0)];
      extents := [length - SHARED];
    }

    /** The capacity of a new chunk for `n` bytes. */
    function Needed(n: Size): Size {
      if chunkCapacity > n then chunkCapacity else n
    }

    /** What the base allocator gives: NULL, or as much memory as it is asked for, away from all chunks. */
    ghost predicate Gives(given: nat, capacity: Size)
      reads this
    {
      given != NULL ==>
        && given % 8 == 0 && given + Requested(capacity) < WIDTH
        && forall i :: 0 <= i < |chunks| ==>
             given + Requested(capacity) <= chunks[i].base || chunks[i].End() <= given
    }

    /** AddChunk. The new chunk is sound exactly if its header and its buffer together fit 64 bits. */
    method AddChunk(capacity: Size, given: nat) returns (ok: bool)
      requires Valid() && Gives(given, capacity)
      modifies `chunks, `extents
      ensures ok == (given != NULL)
      ensures chunks == if ok then [Chunk(given, capacity, 0)] + old(chunks) else old(chunks)
      ensures extents == if ok then [Requested(capacity)] + old(extents) else old(extents)
      ensures Valid() <==> !ok || HEADER + capacity < WIDTH
      ensures Valid() <==> Owned(chunks, extents)
    {
      ok := given != NULL;
      if ok {
        var c := Chunk(given, capacity, 0);
        if HEADER + capacity < WIDTH {
          ChunkAdded(chunks, blocks, c);
        }
        chunks, extents := [c] + chunks, [Requested(capacity)] + extents;
        assert Owned(chunks, extents) ==> extents[0] == HEADER + chunks[0].capacity;
      }
    }

    /**
     Neither the sum with what is used of the first chunk nor, where a new chunk is opened, its size with
     the header wraps.
     */
    predicate SumsFit(n: Size, given: nat)
      reads this
      requires chunks != []
    {
      && chunks[0].size + n < WIDTH
      && (chunks[0].size + n <= chunks[0].capacity || given == NULL || HEADER + Needed(n) < WIDTH)
    }

    predicate MallocFits(size: Size, given: nat)
      reads this
      requires chunks != []
    {
      size == 0 || (size <= WIDTH - 8 && SumsFit(Align(size), given))
    }

    /** The pool is intact, and behind `p` there are `size` bytes in a block of its own. */
    ghost predicate Serves(p: nat, size: Size)
      reads this
    {
      Valid() && (p != NULL ==> size <= Align(size) && Block(p, Align(size)) in blocks)
    }

    /**
     Malloc; `given` is what the base allocator would return. The result is sound exactly if no sum wraps;
     otherwise an address is handed out behind which there is no block of that size.
     */
    method Malloc(size: Size, given: nat) returns (p: nat)
      requires Valid() && Gives(given, Needed(Align(size)))
      modifies `chunks, `blocks, `extents
      ensures Serves(p, size) <==> old(MallocFits(size, given))
      ensures p == NULL <==>
                size == 0 || (given == NULL && old((chunks[0].size + Align(size)) % WIDTH > chunks[0].capacity))
      ensures if p == NULL then chunks == old(chunks) && blocks == old(blocks)
              else blocks == old(blocks) + {Block(p, Align(size))}
      ensures p != NULL && Serves(p, size) ==> Block(p, Align(size)) !in old(blocks)
      ensures p != NULL ==>
                if old((chunks[0].size + Align(size)) % WIDTH <= chunks[0].capacity)
                then p == Top(old(chunks)) && chunks == Bumped(old(chunks), Align(size))
                else p == given + HEADER &&
                     chunks == [Chunk(given, Needed(Align(size)), Align(size))] + old(chunks)
    {
      hide Good, Owned, Requested, Gives;
      if size == 0 {
        return NULL;
      }
      AlignRoundsUp(size);
      HeadIsGood(chunks, blocks);
      hide Align;
      var n := Align(size);
      if (chunks[0].size + n) % WIDTH > chunks[0].capacity {
        var ok := AddChunk(Needed(n), given);
        if !ok {
          return NULL;
        }
      }
      p := Take(n);
    }

    /** The next `n` bytes of the first chunk. */
    method Take(n: Size) returns (p: nat)
      requires chunks != [] && n % 8 == 0 && (chunks[0].size + n) % WIDTH <= chunks[0].capacity < WIDTH
      requires Valid() || !Owned(chunks, extents)
      modifies `chunks, `blocks
      ensures p == Top(old(chunks)) && chunks == Bumped(old(chunks), n) && blocks == old(blocks) + {Block(p, n)}
      ensures Valid() <==> old(Owned(chunks, extents)) && 0 < n && old(chunks[0].size) + n < WIDTH
      ensures Valid() ==> Block(p, n) !in old(blocks)
    {
      hide GoodChunks, GoodBlocks;
      p := Top(chunks);
      ghost var before, held := chunks, blocks;
      chunks := Bumped(chunks, n);
      blocks := blocks + {Block(p, n)};
      if Good(before, held) && Owned(before, extents) && 0 < n && before[0].size + n < WIDTH {
        BlockBumped(before, held, n);
      } else {
        BogusBlock(before, held, extents, n);
      }
    }

    /** memcpy, in Realloc. */
    method Copy(to: nat, from: nat, n: nat)
      modifies `memory
      ensures memory == Copied(old(memory), to, from, n)
    {
      memory := Copied(memory, to, from, n);
    }

    /** The block is the last one handed out of the first chunk. */
    predicate IsLast(original: nat, n: nat)
      reads this
      requires chunks != []
    {
      original == Top(chunks) - n
    }

    /** No rounding and no sum of Realloc wraps. */
    predicate ReallocFits(original: nat, originalSize: Size, newSize: Size, given: nat)
      reads this
      requires chunks != []
    {
      if original == NULL then MallocFits(newSize, given)
      else
        var m, n := Align(originalSize), Align(newSize);
        || newSize == 0
        || (newSize <= WIDTH - 8 &&
            (|| m >= n
             || (IsLast(original, m) && chunks[0].size + (n - m) <= chunks[0].capacity)
             || ((IsLast(original, m) ==> chunks[0].size + (n - m) < WIDTH) && SumsFit(n, given))))
    }

    /** The block is the last of its chunk, and what it is to have more seems to be there. */
    predicate GrowsInPlace(original: nat, oldSize: nat, size: nat)
      reads this
      requires chunks != [] && oldSize <= size
    {
      original == Top(chunks) - oldSize && (chunks[0].size + (size - oldSize)) % WIDTH <= chunks[0].capacity
    }

    /**
     Realloc of a block with its true size: in place, or by copying; the old block is not given back. As
     for Malloc, the result is sound exactly if nothing wraps.
     */
    method Realloc(original: nat, originalSize: Size, newSize: Size, given: nat) returns (p: nat)
      requires Valid() && Gives(given, Needed(Align(newSize)))
      requires original != NULL ==> Block(original, Align(originalSize)) in blocks
      modifies this
      ensures Serves(p, newSize) <==> old(ReallocFits(original, originalSize, newSize, given))
      ensures newSize == 0 ==> p == NULL
      ensures newSize > 0 && given != NULL ==> p != NULL
      ensures p == NULL ==> blocks == old(blocks)
      ensures Serves(p, newSize) && p != NULL && original != NULL ==>
                (var n := if Align(originalSize) < Align(newSize) then Align(originalSize) else Align(newSize);
                 Bytes(memory, p, n) == Bytes(old(memory), original, n))
      ensures Serves(p, newSize) ==>
                forall b <- old(blocks) :: Bytes(memory, b.start, b.length) == Bytes(old(memory), b.start, b.length)
      ensures forall b <- old(blocks) :: b in blocks || (original != NULL && b == Block(original, Align(originalSize)))
      ensures original != NULL && 0 < newSize && Align(newSize) <= Align(originalSize) ==>
                && p == original && chunks == old(chunks) && memory == old(memory)
                && blocks == old(blocks) - {Block(original, Align(originalSize))} + {Block(original, Align(newSize))}
      ensures original != NULL && Align(newSize) > Align(originalSize) ==>
                if old(GrowsInPlace(original, Align(originalSize), Align(newSize))) then
                  && p == original && memory == old(memory)
                  && chunks == Bumped(old(chunks), Align(newSize) - Align(originalSize))
                  && blocks == old(blocks) - {Block(original, Align(originalSize))}
                                 + {Block(original, Align(newSize))}
                else
                  && (p == NULL <==>
                        given == NULL && old((chunks[0].size + Align(newSize)) % WIDTH > chunks[0].capacity))
                  && blocks == if p == NULL then old(blocks) else old(blocks) + {Block(p, Align(newSize))}
    {
      hide Good, Owned, Gives, Bumped;
      if original == NULL {
        p := Malloc(newSize, given);
        return;
      }
      if newSize == 0 {
        return NULL;
      }
      AlignRoundsUp(originalSize);
      AlignRoundsUp(newSize);
      BlockLength(chunks, blocks, Block(original, Align(originalSize)));
      hide Align;
      var oldSize, size := Align(originalSize), Align(newSize);
      ghost var block := Block(original, oldSize);
      if oldSize >= size {
        p := original;
        Keep(block, size);
        return;
      }
      HeadIsGood(chunks, blocks);
      if original == Top(chunks) - oldSize {
        var increment := size - oldSize;
        if (chunks[0].size + increment) % WIDTH <= chunks[0].capacity {
          p := original;
          GrowInPlace(block, increment);
          return;
        }
      }
      AlignedTwice(newSize);
      p := Move(original, oldSize, size, given);
    }

    /** Realloc to a size that is no larger. */
    method Keep(ghost block: Block, n: Size)
      requires Valid() && block in blocks && n <= block.length && n % 8 == 0
      modifies `blocks
      ensures blocks == old(blocks) - {block} + {Block(block.start, n)}
      ensures Valid() <==> 0 < n
    {
      hide GoodChunks, Owned;
      if n > 0 {
        BlockShrunk(chunks, blocks, block, n);
      }
      blocks := blocks - {block} + {Block(block.start, n)};
      assert Block(block.start, n) in blocks;
    }

    /** Realloc of a block that has to move. */
    method Move(original: nat, oldSize: Size, size: Size, given: nat) returns (p: nat)
      requires Valid() && Gives(given, Needed(size)) && 0 < oldSize < size <= WIDTH - 8 && Align(size) == size
      requires Block(original, oldSize) in blocks
      modifies this
      ensures Serves(p, size) <==> old(SumsFit(size, given))
      ensures p == NULL <==> given == NULL && old((chunks[0].size + size) % WIDTH > chunks[0].capacity)
      ensures blocks == if p == NULL then old(blocks) else old(blocks) + {Block(p, size)}
      ensures Serves(p, size) && p != NULL ==> Bytes(memory, p, oldSize) == Bytes(old(memory), original, oldSize)
      ensures Serves(p, size) ==>
                forall b <- old(blocks) :: Bytes(memory, b.start, b.length) == Bytes(old(memory), b.start, b.length)
    {
      hide GoodChunks, GoodBlocks, Align, Gives;
      p := Malloc(size, given);
      if p != NULL {
        if Serves(p, size) {
          AllApart(chunks, blocks, Block(p, size));
          CopyKeeps(blocks, memory, p, original, oldSize, size);
        }
        Copy(p, original, oldSize);
      }
    }

    /** Realloc of the last block, in place. */
    method GrowInPlace(ghost block: Block, increment: Size)
      requires Valid() && block in blocks && block.start + block.length == Top(chunks) && increment % 8 == 0
      requires 0 < increment && (chunks[0].size + increment) % WIDTH <= chunks[0].capacity
      modifies `chunks, `blocks
      ensures chunks == Bumped(old(chunks), increment)
      ensures blocks == old(blocks) - {block} + {Block(block.start, block.length + increment)}
      ensures Valid() <==> old(chunks[0].size) + increment <= old(chunks[0].capacity)
    {
      HeadIsGood(chunks, blocks);
      ghost var before, held := chunks, blocks;
      chunks := Bumped(chunks, increment);
      blocks := blocks - {block} + {Block(block.start, block.length + increment)};
      if before[0].size + increment <= before[0].capacity {
        BlockGrown(before, held, block, increment);
      } else {
        FarBlock(before, chunks, Block(block.start, block.length + increment));
      }
    }

    /** Clear: give all chunks but the last of the list back, and start that one again. */
    method Clear()
      requires Valid()
      modifies this
      ensures Valid() && blocks == {} && chunks == [old(chunks[|chunks| - 1].(size := 0))]
    {
      while |chunks| > 1
        invariant chunks != [] && GoodChunks(chunks) && chunks[|chunks| - 1] == old(chunks[|chunks| - 1])
        invariant Owned(chunks, extents)
      {
        chunks, extents := chunks[1..], extents[1..];
      }
      LastAlone(chunks);
      blocks := {};
      chunks := [chunks[0].(size := 0)];
    }

    /** Size and Capacity: what is used is no more than there is. */
    method Totals() returns (size: nat, capacity: nat)
      requires Valid()
      ensures size == TotalSize(chunks) && capacity == TotalCapacity(chunks) && size <= capacity
    {
      size, capacity := 0, 0;
      var k := 0;
      while k < |chunks|
        invariant 0 <= k <= |chunks|
        invariant size + TotalSize(chunks[k..]) == TotalSize(chunks)
        invariant capacity + TotalCapacity(chunks[k..]) == TotalCapacity(chunks)
      {
        assert chunks[k..][1..] == chunks[k + 1..];
        size, capacity := size + chunks[k].size, capacity + chunks[k].capacity;
        k := k + 1;
      }
      UsedIsWithinCapacity(chunks);
    }
  }

  /** What is asked of the base allocator for a chunk, in 64 bits. */
  function Requested(capacity: Size): Size {
    (HEADER + capacity) % WIDTH
  }

  lemma BlockLength(chunks: seq<Chunk>, blocks: set<Block>, b: Block)
    requires Good(chunks, blocks) && b in blocks
    ensures 0 < b.length < WIDTH
  {
    var i :| 0 <= i < |chunks| && Inside(b, chunks[i]);
    assert GoodChunk(chunks[i]);
  }

  /** A block that goes beyond the address space is in no chunk. */
  lemma FarBlock(before: seq<Chunk>, chunks: seq<Chunk>, b: Block)
    requires GoodChunks(before) && chunks != [] && chunks[1..] == before[1..] && |chunks| == |before|
    requires chunks[0].base == before[0].base && chunks[0].capacity == before[0].capacity
    requires chunks[0].size <= chunks[0].capacity && b.start + b.length >= WIDTH
    ensures !GoodBlock(b, chunks)
  {
    forall i | 0 <= i < |chunks| ensures !Inside(b, chunks[i]) {
      assert i > 0 ==> chunks[i] == chunks[1..][i - 1] == before[1..][i - 1] == before[i];
      assert GoodChunk(before[i]);
    }
  }

  /** What is handed out when a sum or the rounding wraps is no block, or the chunk it is in no chunk. */
  lemma BogusBlock(chunks: seq<Chunk>, blocks: set<Block>, extents: seq<nat>, n: nat)
    requires chunks != [] && (chunks[0].size + n) % WIDTH <= chunks[0].capacity
    requires n == 0 || !Owned(chunks, extents) || (Good(chunks, blocks) && chunks[0].size + n >= WIDTH)
    ensures var b := Block(Top(chunks), n);
            !(Good(Bumped(chunks, n), blocks + {b}) && Owned(Bumped(chunks, n), extents))
  {
    var now, b := Bumped(chunks, n), Block(Top(chunks), n);
    if !Owned(chunks, extents) {
      if |extents| == |chunks| {
        var i :| 0 <= i < |chunks| && extents[i] != HEADER + chunks[i].capacity;
        assert now[i].capacity == chunks[i].capacity;
      }
    } else if n > 0 {
      FarBlock(chunks, now, b);
    }
    assert b in blocks + {b};
  }

  /** Where what is used of the first chunk and the size asked for wrap, part of it is handed out again. */
  method SumWraps(pool: Pool) returns (p: nat)
    requires pool.Valid() && pool.chunks[0].size > 0
    modifies pool
    ensures p == Top(old(pool.chunks)) && p != NULL && pool.chunks != [] && pool.chunks[0].size == 0
    ensures !pool.Serves(p, WIDTH - old(pool.chunks[0].size))
  {
    HeadIsGood(pool.chunks, pool.blocks);
    var size: Size := WIDTH - pool.chunks[0].size;
    assert Align(size) == size;
    p := pool.Malloc(size, NULL);
  }

  /**
   With nothing used of the first chunk, a request for 2^64 - 16 bytes makes the pool ask for 8 bytes, put
   a header of 24 there, and hand out what is behind it.
   */
  method HeaderWraps(pool: Pool, given: nat) returns (p: nat)
    requires pool.Valid() && pool.chunks[0].size == 0 && pool.chunkCapacity <= WIDTH - 16
    requires given != NULL && pool.Gives(given, WIDTH - 16)
    modifies pool
    ensures Requested(WIDTH - 16) == 8
    ensures p == given + HEADER && !pool.Serves(p, WIDTH - 16)
  {
    assert Align(WIDTH - 16) == WIDTH - 16;
    p := pool.Malloc(WIDTH - 16, given);
  }

  lemma HeadIsGood(chunks: seq<Chunk>, blocks: set<Block>)
    requires Good(chunks, blocks)
    ensures chunks != [] && GoodChunk(chunks[0])
  {
  }

  lemma AllApart(chunks: seq<Chunk>, blocks: set<Block>, b: Block)
    requires Good(chunks, blocks) && b in blocks
    ensures forall a <- blocks :: a != b ==> BlocksApart(a, b)
  {
  }
}
