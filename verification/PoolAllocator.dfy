/** The memory pool: chunks that serve aligned blocks in order, and blocks that grow in place or move. */
module PoolAllocator {
  import opened Bytes

  const WORD: nat := 0x1_0000_0000_0000_0000
  const ALIGNMENT := 8

  /** The bytes of a chunk's header. */
  const HEADER := 24

  /** A machine word, in which sums wrap. */
  type Word = n: nat | n < 0x1_0000_0000_0000_0000

  function Plus(a: Word, b: Word): Word {
    (a + b) % WORD
  }

  /** A size rounded up to the alignment; the last sizes are rounded to zero. */
  function Align(size: Word): (r: Word)
    ensures r % ALIGNMENT == 0
    ensures if size <= WORD - ALIGNMENT then size <= r < size + ALIGNMENT else r == 0
  {
    Plus(size, 7) / 8 * 8
  }

  /** A chunk: the bytes it says it has, those behind its header, and how many of them are given away. */
  class Chunk {
    const capacity: Word
    const memory: array<Byte>
    var size: Word

    /** The bytes asked for include the header; when their sum wraps, there are none behind it. */
    constructor (capacity: Word)
      ensures size == 0 && this.capacity == capacity && fresh(memory)
      ensures memory.Length == if HEADER + capacity < WORD then capacity else 0
    {
      this.capacity := capacity;
      var total := Plus(HEADER, capacity);
      memory := new Byte[if total >= HEADER then total - HEADER else 0];
      size := 0;
    }

    constructor Over(buffer: array<Byte>)
      requires buffer.Length + HEADER < WORD
      ensures size == 0 && memory == buffer && capacity == buffer.Length
    {
      memory, capacity := buffer, buffer.Length;
      size := 0;
    }
  }

  /** An address inside a chunk; the chunk itself and its header are aligned. */
  datatype Pointer = Pointer(chunk: Chunk, offset: nat)

  /** A block that was given away. */
  datatype Block = Block(chunk: Chunk, offset: nat, size: nat)
  {
    predicate Apart(b: Block) {
      chunk != b.chunk || offset + size <= b.offset || b.offset + b.size <= offset
    }
  }

  /** The bytes at a pointer are those of its chunk. */
  predicate Inside(p: Pointer, n: Word) {
    p.offset + n <= p.chunk.memory.Length
  }

  class MemoryPoolAllocator {
    /** The chunks, the one that serves next first. */
    var chunks: seq<Chunk>
    const chunkCapacity: Word
    const userBuffer: Chunk?

    /** The blocks given away since the last clear. */
    ghost var blocks: set<Block>

    ghost predicate ChunksOk()
      reads this, chunks
    {
      && (forall i :: 0 <= i < |chunks| ==> ChunkOk(chunks[i]))
      && (forall i, j :: 0 <= i < j < |chunks| ==> chunks[i] != chunks[j] && chunks[i].memory != chunks[j].memory)
      && (userBuffer != null ==> chunks != [] && chunks[|chunks| - 1] == userBuffer)
    }

    static ghost predicate ChunkOk(c: Chunk)
      reads c
    {
      c.size <= c.capacity == c.memory.Length < WORD - HEADER && c.size % ALIGNMENT == 0
    }

    /** A block is aligned, inside the part of a chunk that is given away, and not empty. */
    ghost predicate BlockOk(b: Block)
      reads this, b.chunk
    {
      b.chunk in chunks && b.offset % ALIGNMENT == 0 && b.size % ALIGNMENT == 0 && 0 < b.size && b.offset + b.size <= b.chunk.size
    }

    /** Blocks are well placed and share no byte. */
    ghost predicate Valid()
      reads this, chunks
    {
      && ChunksOk()
      && (forall b :: b in blocks ==> b.chunk in chunks && BlockOk(b))
      && (forall b, c :: b in blocks && c in blocks && b != c ==> b.Apart(c))
    }

    constructor (chunkCapacity: Word)
      ensures Valid() && chunks == [] && blocks == {} && this.chunkCapacity == chunkCapacity
    {
      this.chunkCapacity, userBuffer, chunks, blocks := chunkCapacity, null, [], {};
    }

    /** A pool that first serves from the user's buffer, behind the header put there. */
    constructor WithBuffer(buffer: array<Byte>, chunkCapacity: Word)
      requires 0 < buffer.Length < WORD - HEADER
      ensures Valid() && blocks == {} && |chunks| == 1 && chunks[0].memory == buffer && fresh(chunks[0])
      ensures this.chunkCapacity == chunkCapacity
    {
      var chunk := new Chunk.Over(buffer);
      this.chunkCapacity, userBuffer, chunks, blocks := chunkCapacity, chunk, [chunk], {};
    }

    /** The capacity of a new chunk for `size` bytes. */
    function NewCapacity(size: Word): Word {
      if chunkCapacity > size then chunkCapacity else size
    }

    /** What the base allocator is asked for with a new chunk; where the sum wraps to nothing it gives none. */
    predicate Asks(capacity: Word) {
      Plus(HEADER, capacity) > 0
    }

    /** A new chunk in front, if the base allocator is asked for memory and has it. */
    method AddChunk(capacity: Word, granted: bool) returns (ok: bool)
      modifies `chunks
      ensures ok == (Asks(capacity) && granted)
      ensures ok ==> chunks != [] && chunks[1..] == old(chunks) && fresh(chunks[0]) && fresh(chunks[0].memory)
                     && chunks[0].size == 0 && chunks[0].capacity == capacity
                     && chunks[0].memory.Length == if HEADER + capacity < WORD then capacity else 0
      ensures !ok ==> chunks == old(chunks)
      ensures old(Valid()) && HEADER + capacity < WORD ==> Valid()
    {
      ok := Plus(HEADER, capacity) > 0 && granted;
      if ok {
        var chunk := new Chunk(capacity);
        chunks := [chunk] + chunks;
      }
    }

    /** The chunk in front has no room for `size` more bytes, or there is none. */
    predicate NeedsChunk(size: Word)
      reads this, chunks
    {
      chunks == [] || Plus(chunks[0].size, size) > chunks[0].capacity
    }

    /** No sum wraps on the way to a block: neither the rounding, nor the use of the front chunk, nor a new chunk's size. */
    predicate Serves(request: Word)
      reads this, chunks
    {
      && request <= WORD - ALIGNMENT
      && (chunks != [] ==> chunks[0].size + Align(request) < WORD)
      && (NeedsChunk(Align(request)) ==> HEADER + NewCapacity(Align(request)) < WORD)
    }

    /** A block at the end of what the front chunk has given away. */
    method Bump(size: Word) returns (p: Pointer)
      requires chunks != []
      modifies `blocks, chunks[0]
      ensures p == Pointer(chunks[0], old(chunks[0].size)) && chunks[0].size == Plus(old(chunks[0].size), size)
      ensures blocks == old(blocks) + {Block(p.chunk, p.offset, size)}
      ensures old(Valid()) && old(chunks[0].size) + size <= chunks[0].capacity && size > 0 && size % ALIGNMENT == 0 ==>
                && Valid() && Block(p.chunk, p.offset, size) !in old(blocks)
                && forall b :: b in old(blocks) ==> b.Apart(Block(p.chunk, p.offset, size))
    {
      p := Pointer(chunks[0], chunks[0].size);
      ghost var block := Block(p.chunk, p.offset, size);
      chunks[0].size := Plus(chunks[0].size, size);
      blocks := blocks + {block};
      if old(Valid()) && old(chunks[0].size) + size <= chunks[0].capacity && size > 0 && size % ALIGNMENT == 0 {
        assert forall b :: b in old(blocks) ==> old(BlockOk(b));
        assert forall b :: b in old(blocks) ==> b.Apart(block);
        assert BlockOk(block);
      }
    }

    /**
     * Gives away a new block. Nothing is given, and nothing changes, for a size of zero, or when a chunk is needed that
     * the base allocator does not have. The bytes asked for are at the pointer given exactly when no sum wraps; then the
     * block is aligned, inside its chunk, and apart from all others.
     */
    method Malloc(request: Word, granted: bool) returns (p: Option<Pointer>)
      modifies this, chunks
      ensures p.None? <==> request == 0 || (old(NeedsChunk(Align(request))) && !(Asks(NewCapacity(Align(request))) && granted))
      ensures p.None? ==> blocks == old(blocks) && chunks == old(chunks) && forall c :: c in chunks ==> c.size == old(c.size)
      ensures p.Some? ==> chunks != [] && p.value.chunk == chunks[0]
      ensures p.Some? ==>
                if old(NeedsChunk(Align(request))) then
                  && chunks[1..] == old(chunks) && fresh(chunks[0]) && fresh(chunks[0].memory)
                  && chunks[0].capacity == (if chunkCapacity > Align(request) then chunkCapacity else Align(request)) && p.value.offset == 0 && chunks[0].size == Align(request)
                else
                  && chunks == old(chunks) && p.value.offset == old(chunks[0].size)
                  && chunks[0].size == Plus(old(chunks[0].size), Align(request))
      ensures p.Some? && old(Valid()) ==> (Inside(p.value, request) <==> old(Serves(request))) && p.value.offset % 8 == 0
      ensures p.Some? && old(Valid() && !Serves(request)) ==>
                forall n: Word :: 0 < n && request < n + ALIGNMENT ==> !Inside(p.value, n)
      ensures old(Valid()) && (p.None? || old(Serves(request))) ==> Valid()
      ensures p.Some? && old(Valid()) && old(Serves(request)) ==>
                var block := Block(p.value.chunk, p.value.offset, Align(request));
                && blocks == old(blocks) + {block} && block !in old(blocks)
                && forall b :: b in old(blocks) ==> b.Apart(block)
    {
      if request == 0 {
        return None;
      }
      var size := Align(request);
      if NeedsChunk(size) {
        var ok := AddChunk(NewCapacity(size), granted);
        if !ok {
          return None;
        }
      }
      var q := Bump(size);
      return Some(q);
    }

    /** The memory of the chunks. */
    ghost function Memories(): set<object>
      reads this
    {
      set c | c in chunks :: c.memory
    }

    /** Copies the first bytes of one block to another. */
    method CopyBlock(from: Pointer, to: Pointer, n: nat)
      requires from.offset + n <= from.chunk.memory.Length && to.offset + n <= to.chunk.memory.Length
      requires from.chunk.memory != to.chunk.memory || from.offset + n <= to.offset || to.offset + n <= from.offset
      modifies to.chunk.memory
      ensures to.chunk.memory[to.offset..to.offset + n] == old(from.chunk.memory[from.offset..from.offset + n])
      ensures forall k :: 0 <= k < to.chunk.memory.Length && !(to.offset <= k < to.offset + n) ==>
                to.chunk.memory[k] == old(to.chunk.memory[k])
    {
      ghost var source := from.chunk.memory[from.offset..from.offset + n];
      for i := 0 to n
        invariant to.chunk.memory[to.offset..to.offset + i] == source[..i]
        invariant forall k :: 0 <= k < to.chunk.memory.Length && !(to.offset <= k < to.offset + i) ==>
                    to.chunk.memory[k] == old(to.chunk.memory[k])
      {
        assert from.chunk.memory[from.offset + i] == source[i];
        to.chunk.memory[to.offset + i] := from.chunk.memory[from.offset + i];
        assert source[..i + 1] == source[..i] + [source[i]];
      }
      assert source[..n] == source;
    }

    /** The last block given away grows in place, if the sum does not wrap. */
    method GrowInPlace(ghost b: Block, p: Pointer, increment: Word)
      requires Valid() && b in blocks && b.chunk == p.chunk && b.offset == p.offset && chunks != [] && chunks[0] == b.chunk
      requires b.offset + b.size == chunks[0].size && increment % ALIGNMENT == 0
      modifies `blocks, chunks[0]
      ensures chunks[0].size == Plus(old(chunks[0].size), increment)
      ensures old(chunks[0].size) + increment <= chunks[0].capacity ==>
                Valid() && blocks == old(blocks) - {b} + {Block(b.chunk, b.offset, b.size + increment)}
    {
      ghost var grown := Block(b.chunk, b.offset, b.size + increment);
      if chunks[0].size + increment <= chunks[0].capacity {
        GrownApart(b, grown);
        Grow(b, grown, increment);
      } else {
        chunks[0].size := Plus(chunks[0].size, increment);
      }
    }

    method Grow(ghost b: Block, ghost grown: Block, increment: Word)
      requires Valid() && b in blocks && chunks != [] && chunks[0] == b.chunk && increment % ALIGNMENT == 0
      requires b.offset + b.size == chunks[0].size && chunks[0].size + increment <= chunks[0].capacity
      requires grown == Block(b.chunk, b.offset, b.size + increment)
      requires forall c :: c in blocks && c != b ==> c.Apart(grown)
      modifies `blocks, chunks[0]
      ensures chunks[0].size == old(chunks[0].size) + increment
      ensures Valid() && blocks == old(blocks) - {b} + {grown}
    {
      assert forall c :: c in blocks ==> BlockOk(c);
      chunks[0].size := chunks[0].size + increment;
      assert forall c :: c in blocks ==> BlockOk(c);
      blocks := blocks - {b} + {grown};
      assert BlockOk(grown);
    }

    /** A block at the end of its chunk may grow. */
    lemma {:induction false} GrownApart(b: Block, grown: Block)
      requires Valid() && b in blocks && b.offset + b.size == b.chunk.size
      requires b.chunk == grown.chunk && b.offset == grown.offset && b.size <= grown.size
      ensures forall c :: c in blocks && c != b ==> c.Apart(grown)
    {
      forall c | c in blocks && c != b ensures c.Apart(grown) {
        assert BlockOk(c) && c.Apart(b);
      }
    }

    /**
     * A larger block elsewhere, with the first bytes copied. When a sum wraps the pointer leads nowhere, and the copy is
     * not modelled.
     */
    method Move(p: Pointer, original: Word, request: Word, granted: bool, ghost b: Block) returns (r: Option<Pointer>)
      requires Valid() && b in blocks && b.chunk == p.chunk && b.offset == p.offset
      requires original <= Align(original) <= b.size && Align(original) < Align(request)
      modifies this, chunks, Memories()
      ensures r.None? ==> Valid() && blocks == old(blocks)
      ensures r.Some? ==> (Inside(r.value, request) <==> old(Serves(request)))
      ensures r.Some? && Inside(r.value, request) ==>
                && Valid() && blocks == old(blocks) + {Block(r.value.chunk, r.value.offset, Align(request))}
                && r.value.offset + original <= r.value.chunk.memory.Length
                && r.value.chunk.memory[r.value.offset..r.value.offset + original]
                   == old(p.chunk.memory[p.offset..p.offset + original])
      ensures forall c, k :: c in old(blocks) && c.offset <= k < c.offset + c.size && k < c.chunk.memory.Length ==>
                c.chunk.memory[k] == old(c.chunk.memory[k])
    {
      assert BlockOk(b) && Align(Align(request)) == Align(request);
      var size, newSize := Align(original), Align(request);
      r := Malloc(newSize, granted);
      if r.Some? && Inside(r.value, newSize) {
        CopyOver(p, r.value, original, size, b, Block(r.value.chunk, r.value.offset, newSize));
      }
    }

    /** Copies the bytes of a block to a new one. */
    method CopyOver(p: Pointer, q: Pointer, original: Word, size: Word, ghost b: Block, ghost block: Block)
      requires Valid() && b in blocks && block in blocks && b != block
      requires b.chunk == p.chunk && b.offset == p.offset && original <= size <= b.size
      requires block.chunk == q.chunk && block.offset == q.offset && size <= block.size
      modifies q.chunk.memory
      ensures q.offset + original <= q.chunk.memory.Length && p.offset + original <= p.chunk.memory.Length
      ensures q.chunk.memory[q.offset..q.offset + original] == old(p.chunk.memory[p.offset..p.offset + original])
      ensures forall c, k :: c in blocks && c != block && c.offset <= k < c.offset + c.size && k < c.chunk.memory.Length ==>
                c.chunk.memory[k] == old(c.chunk.memory[k])
    {
      assert BlockOk(b) && BlockOk(block) && b.Apart(block);
      DistinctMemories(b.chunk, block.chunk);
      SameMemoryApart(block);
      CopyBlock(p, q, size);
      Prefix(q.chunk.memory[..], q.offset, old(p.chunk.memory[..]), p.offset, original, size);
    }

    lemma {:induction false} Prefix(a: Text, i: nat, b: Text, j: nat, n: nat, m: nat)
      requires n <= m && i + m <= |a| && j + m <= |b| && a[i..i + m] == b[j..j + m]
      ensures a[i..i + n] == b[j..j + n]
    {
      assert a[i..i + n] == a[i..i + m][..n] && b[j..j + n] == b[j..j + m][..n];
    }

    /** Blocks in the memory of a new block lie in its chunk, hence apart from it. */
    lemma {:induction false} SameMemoryApart(block: Block)
      requires Valid() && block in blocks
      ensures forall c :: c in blocks && c != block && c.chunk.memory == block.chunk.memory ==> c.chunk == block.chunk && c.Apart(block)
    {
      forall c | c in blocks && c != block && c.chunk.memory == block.chunk.memory ensures c.chunk == block.chunk {
        DistinctMemories(c.chunk, block.chunk);
      }
    }

    lemma {:induction false} DistinctMemories(c: Chunk, d: Chunk)
      requires ChunksOk() && c in chunks && d in chunks
      ensures c.memory == d.memory ==> c == d
    {
    }

    /** The block is the last one the front chunk gave away. */
    predicate AtEnd(p: Pointer, size: Word)
      reads this, chunks
    {
      chunks != [] && chunks[0] == p.chunk && p.offset + size == chunks[0].size
    }

    /** No sum wraps on the way to a resized block: it need not grow, or can in place, or a new one can be served. */
    predicate Resizes(p: Pointer, original: Word, request: Word)
      reads this, chunks
    {
      var size, wanted := Align(original), Align(request);
      && request <= WORD - ALIGNMENT
      && (wanted <= size || (AtEnd(p, size) && chunks[0].size + (wanted - size) <= chunks[0].capacity) || Serves(request))
    }

    /**
     * Resizes a block that was given away with at least the size the caller remembers; without a block it gives away a new
     * one. A larger block is the old one, grown if it was the last, or a new one with the old bytes copied to it; a smaller
     * one is the old one. The bytes asked for are at the pointer returned exactly when no sum wraps; then the remembered
     * bytes are there too. No byte of any block given away before changes.
     */
    method Realloc(from: Option<Pointer>, original: Word, request: Word, granted: bool, ghost b: Block) returns (r: Option<Pointer>)
      requires Valid()
      requires from.Some? ==> b in blocks && b.chunk == from.value.chunk && b.offset == from.value.offset && original <= b.size
      modifies this, chunks, Memories()
      ensures request == 0 ==> r.None?
      ensures r.None? ==> Valid() && blocks == old(blocks)
      ensures r.Some? ==>
                (Inside(r.value, request) <==> old(if from.None? then Serves(request) else Resizes(from.value, original, request)))
      ensures r.Some? && Inside(r.value, request) ==> Valid() && Placed(r.value, request) && Kept(old(blocks), from, b)
      ensures from.None? && r.Some? && Inside(r.value, request) ==>
                var block := Block(r.value.chunk, r.value.offset, Align(request));
                && blocks == old(blocks) + {block} && forall c :: c in old(blocks) ==> c.Apart(block)
      ensures from.Some? && Align(original) >= Align(request) > 0 ==> r == from && blocks == old(blocks)
      ensures from.Some? && r.Some? && Inside(r.value, request) ==>
                && r.value.offset + original <= r.value.chunk.memory.Length
                && r.value.chunk.memory[r.value.offset..r.value.offset + original]
                   == old(from.value.chunk.memory[from.value.offset..from.value.offset + original])
      ensures forall c, k :: c in old(blocks) && c.offset <= k < c.offset + c.size && k < c.chunk.memory.Length ==>
                c.chunk.memory[k] == old(c.chunk.memory[k])
    {
      if from.None? {
        r := Malloc(request, granted);
        return;
      }
      if request == 0 {
        return None;
      }
      assert BlockOk(b);
      r := Resize(from.value, original, request, granted, b);
    }

    /** A block of at least `request` bytes is at the pointer. */
    ghost predicate Placed(p: Pointer, request: Word)
      reads this
    {
      exists size: Word :: size >= request && Block(p.chunk, p.offset, size) in blocks
    }

    /** All blocks that were given away are still, but for the one resized. */
    ghost predicate Kept(before: set<Block>, from: Option<Pointer>, b: Block)
      reads this
    {
      forall c :: c in before && (from.Some? ==> c != b) ==> c in blocks
    }

    method Resize(p: Pointer, original: Word, request: Word, granted: bool, ghost b: Block) returns (r: Option<Pointer>)
      requires Valid() && b in blocks && b.chunk == p.chunk && b.offset == p.offset && original <= b.size && BlockOk(b) && request > 0
      modifies this, chunks, Memories()
      ensures r.None? ==> Valid() && blocks == old(blocks)
      ensures r.Some? ==> (Inside(r.value, request) <==> old(Resizes(p, original, request)))
      ensures r.Some? && Inside(r.value, request) ==> Valid() && Placed(r.value, request) && Kept(old(blocks), Some(p), b)
      ensures Align(original) >= Align(request) > 0 ==> r == Some(p) && blocks == old(blocks)
      ensures r.Some? && Inside(r.value, request) ==>
                && r.value.offset + original <= r.value.chunk.memory.Length
                && r.value.chunk.memory[r.value.offset..r.value.offset + original]
                   == old(p.chunk.memory[p.offset..p.offset + original])
      ensures forall c, k :: c in old(blocks) && c.offset <= k < c.offset + c.size && k < c.chunk.memory.Length ==>
                c.chunk.memory[k] == old(c.chunk.memory[k])
    {
      RoundedFits(original, b.size);
      var originalSize, newSize := Align(original), Align(request);
      if originalSize >= newSize {
        Smaller(p, original, request, b);
        return Some(p);
      }
      if AtEnd(p, originalSize) && Plus(chunks[0].size, newSize - originalSize) <= chunks[0].capacity {
        GrowTo(b, p, originalSize, request);
        return Some(p);
      }
      LargerServes(p, original, request, b);
      r := Move(p, original, request, granted, b);
    }

    /** A size that is remembered does not exceed the block once it is rounded. */
    lemma {:induction false} RoundedFits(original: Word, size: Word)
      requires original <= size && size % ALIGNMENT == 0
      ensures original <= Align(original) <= size
    {
    }

    /** Nothing to do: the bytes asked for are there unless the rounding wrapped. */
    lemma {:induction false} Smaller(p: Pointer, original: Word, request: Word, b: Block)
      requires Valid() && b in blocks && b.chunk == p.chunk && b.offset == p.offset && BlockOk(b) && request > 0
      requires Align(request) <= Align(original) <= b.size
      ensures Inside(p, request) <==> Resizes(p, original, request)
      ensures Inside(p, request) ==> Placed(p, request)
      ensures p.offset + b.size <= p.chunk.memory.Length
    {
      assert ChunkOk(p.chunk);
      assert Block(p.chunk, p.offset, b.size) == b;
    }

    /** Where a block cannot grow in place, no sum wraps exactly if none does for a new one. */
    lemma {:induction false} LargerServes(p: Pointer, original: Word, request: Word, b: Block)
      requires Valid() && Align(original) < Align(request)
      requires !(AtEnd(p, Align(original)) && Plus(chunks[0].size, Align(request) - Align(original)) <= chunks[0].capacity)
      ensures Resizes(p, original, request) <==> Serves(request)
    {
    }

    /** The last block grows in place: the bytes asked for are there unless the sum wrapped. */
    method GrowTo(ghost b: Block, p: Pointer, originalSize: Word, request: Word)
      requires Valid() && b in blocks && b.chunk == p.chunk && b.offset == p.offset && BlockOk(b)
      requires originalSize <= b.size && originalSize % ALIGNMENT == 0 && originalSize < Align(request) && AtEnd(p, originalSize)
      requires Plus(chunks[0].size, Align(request) - originalSize) <= chunks[0].capacity
      modifies `blocks, chunks[0]
      ensures Inside(p, request) <==> old(chunks[0].size) + (Align(request) - originalSize) <= chunks[0].capacity
      ensures Inside(p, request) ==> Valid() && Placed(p, request) && Kept(old(blocks), Some(p), b)
      ensures p.offset + b.size <= p.chunk.memory.Length
    {
      assert ChunkOk(chunks[0]) && originalSize == b.size;
      GrowInPlace(b, p, Align(request) - originalSize);
    }

    method DropFront()
      requires Valid() && blocks == {} && chunks != [] && chunks[0] != userBuffer
      modifies `chunks
      ensures Valid() && chunks == old(chunks)[1..]
    {
      chunks := chunks[1..];
      assert forall i :: 0 <= i < |chunks| ==> chunks[i] == old(chunks)[i + 1];
    }

    /** Gives all chunks back but the user's, which starts anew. */
    method Clear()
      requires Valid()
      modifies this, chunks
      ensures Valid() && blocks == {}
      ensures if userBuffer == null then chunks == [] else chunks == [userBuffer] && userBuffer.size == 0
    {
      blocks := {};
      while chunks != [] && chunks[0] != userBuffer
        invariant Valid() && blocks == {} && forall c :: c in chunks ==> c in old(chunks)
        decreases |chunks|
      {
        DropFront();
      }
      if chunks != [] {
        OnlyUser();
        chunks[0].size := 0;
      }
    }

    lemma {:induction false} OnlyUser()
      requires ChunksOk() && chunks != [] && chunks[0] == userBuffer
      ensures |chunks| == 1
    {
      assert chunks[|chunks| - 1] == userBuffer;
    }

    /** Bytes given away, and bytes there are, over all chunks. */
    ghost function Sizes(cs: seq<Chunk>): nat
      reads cs
    {
      if cs == [] then 0 else cs[0].size + Sizes(cs[1..])
    }

    static ghost function Capacities(cs: seq<Chunk>): nat {
      if cs == [] then 0 else cs[0].memory.Length + Capacities(cs[1..])
    }

    /** No chunk gives away more than it has. */
    lemma {:induction false} SizesWithin(cs: seq<Chunk>)
      requires forall i :: 0 <= i < |cs| ==> cs[i].size <= cs[i].memory.Length
      ensures Sizes(cs) <= Capacities(cs)
      decreases |cs|
    {
      if cs != [] {
        SizesWithin(cs[1..]);
      }
    }

    method Size() returns (size: nat)
      requires Valid()
      ensures size == Sizes(chunks) <= Capacities(chunks)
    {
      SizesWithin(chunks);
      size := 0;
      assert chunks[0..] == chunks;
      for i := 0 to |chunks|
        invariant size + Sizes(chunks[i..]) == Sizes(chunks)
      {
        assert chunks[i..][1..] == chunks[i + 1..];
        size := size + chunks[i].size;
      }
    }

    method Capacity() returns (capacity: nat)
      ensures capacity == Capacities(chunks)
    {
      capacity := 0;
      assert chunks[0..] == chunks;
      for i := 0 to |chunks|
        invariant capacity + Capacities(chunks[i..]) == Capacities(chunks)
      {
        assert chunks[i..][1..] == chunks[i + 1..];
        capacity := capacity + chunks[i].memory.Length;
      }
    }
  }

  /**
   * A size that wraps: behind a block of eight bytes the pool gives away all bytes a word can count but seven, and with
   * that the next block is the first one again.
   */
  method WrapServesTwice() returns (first: Option<Pointer>, huge: Option<Pointer>, again: Option<Pointer>)
    ensures first.Some? && huge.Some? && again == first
  {
    var pool := new MemoryPoolAllocator(65536);
    first := pool.Malloc(8, true);
    assert Align(8) == 8 && Align(WORD - 8) == WORD - 8;
    huge := pool.Malloc(WORD - 8, true);
    again := pool.Malloc(8, true);
  }
}
