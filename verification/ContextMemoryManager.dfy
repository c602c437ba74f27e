/** The region allocator of contexts: chunks, a stack of saved regions, and a bounded list of free chunks. */
module ContextMemoryManager {
  import opened Sequences

  const CHUNK_SIZE_BYTES := 16384
  const MAX_FREE_CHUNKS := 100

  // A chunk of memory, as malloc names it, and a pointer into or just past one.
  type Chunk = nat

  datatype Pointer = Pointer(chunk: Chunk, offset: nat)

  // A block handed out: size bytes from start, in the active chunk number pos.
  datatype Block = Block(start: Pointer, size: nat, pos: nat)

  // ---- the order of memory: blocks are handed out one behind the other, through the active chunks

  // The first byte behind the block.
  ghost function EndOf(b: Block): nat {
    b.start.offset + b.size
  }

  ghost predicate Disjoint(a: Block, b: Block) {
    a.start.chunk != b.start.chunk || EndOf(a) <= b.start.offset || EndOf(b) <= a.start.offset
  }

  // The block lies in an active chunk, before the given place.
  ghost predicate Before(chunks: seq<Chunk>, b: Block, pos: nat, offset: nat) {
    && b.pos < |chunks| && b.start.chunk == chunks[b.pos]
    && EndOf(b) <= CHUNK_SIZE_BYTES
    && (b.pos < pos || (b.pos == pos && EndOf(b) <= offset))
  }

  // Each block lies before the start of every later one.
  ghost predicate InOrder(chunks: seq<Chunk>, blocks: seq<Block>, j: nat)
    requires j < |blocks|
  {
    forall i | 0 <= i < j :: Before(chunks, blocks[i], blocks[j].pos, blocks[j].start.offset)
  }

  ghost predicate Ordered(chunks: seq<Chunk>, blocks: seq<Block>, pos: nat, offset: nat) {
    && (forall j {:trigger InOrder(chunks, blocks, j)} | 0 <= j < |blocks| :: InOrder(chunks, blocks, j))
    && (forall i | 0 <= i < |blocks| :: Before(chunks, blocks[i], pos, offset))
  }

  // Live blocks do not overlap.
  lemma OrderedAreDisjoint(chunks: seq<Chunk>, blocks: seq<Block>, pos: nat, offset: nat, i: nat, j: nat)
    requires Distinct(chunks) && Ordered(chunks, blocks, pos, offset) && i < j < |blocks|
    ensures Disjoint(blocks[i], blocks[j])
  {
    assert InOrder(chunks, blocks, j);
    assert Before(chunks, blocks[i], blocks[j].pos, blocks[j].start.offset) && Before(chunks, blocks[j], pos, offset);
  }

  // A chunk more at the end makes no difference, and everything lies before it.
  lemma MoreChunks(chunks: seq<Chunk>, c: Chunk, blocks: seq<Block>, pos: nat, offset: nat)
    requires Ordered(chunks, blocks, pos, offset) && pos < |chunks|
    ensures Ordered(chunks + [c], blocks, |chunks|, 0)
  {
    forall j | 0 <= j < |blocks|
      ensures InOrder(chunks + [c], blocks, j)
    {
      assert InOrder(chunks, blocks, j);
    }
  }

  lemma FewerChunks(chunks: seq<Chunk>, blocks: seq<Block>, pos: nat, offset: nat, count: nat, pos': nat, offset': nat)
    requires Ordered(chunks, blocks, pos, offset) && count <= |blocks| && pos' < |chunks|
    requires forall i | 0 <= i < count :: Before(chunks, blocks[i], pos', offset')
    ensures Ordered(chunks[..pos' + 1], blocks[..count], pos', offset')
  {
    var chunks', blocks' := chunks[..pos' + 1], blocks[..count];
    forall j | 0 <= j < count
      ensures InOrder(chunks', blocks', j)
    {
      assert InOrder(chunks, blocks, j);
    }
  }

  // The next block comes behind all others.
  lemma NextBlock(chunks: seq<Chunk>, blocks: seq<Block>, pos: nat, offset: nat, size: nat)
    requires Ordered(chunks, blocks, pos, offset) && pos < |chunks| && offset + size <= CHUNK_SIZE_BYTES
    ensures Ordered(chunks, blocks + [Block(Pointer(chunks[pos], offset), size, pos)], pos, offset + size)
  {
    var blocks' := blocks + [Block(Pointer(chunks[pos], offset), size, pos)];
    forall j | 0 <= j < |blocks'|
      ensures InOrder(chunks, blocks', j)
    {
      assert j < |blocks| ==> InOrder(chunks, blocks, j);
    }
  }

  // ---- saved regions

  // The state of the allocator that a pop has to bring back.
  datatype Region = Region(nextFree: Pointer, endChunk: Pointer, chunks: seq<Chunk>, blocks: seq<Block>)

  // A saved region has a prefix of the active chunks and of the live blocks, which lie before its place.
  ghost predicate RegionOK(chunks: seq<Chunk>, blocks: seq<Block>, r: Region) {
    && r.chunks != [] && r.chunks <= chunks && r.blocks <= blocks
    && r.nextFree.chunk == chunks[|r.chunks| - 1] && r.nextFree.offset <= CHUNK_SIZE_BYTES
    && r.endChunk == Pointer(chunks[|r.chunks| - 1], CHUNK_SIZE_BYTES)
    && (forall i | 0 <= i < |r.blocks| :: Before(chunks, blocks[i], |r.chunks| - 1, r.nextFree.offset))
  }

  // What was there at a push was there at the next.
  ghost predicate Nested(regions: seq<Region>, k: nat)
    requires k + 1 < |regions|
  {
    regions[k].chunks <= regions[k + 1].chunks && regions[k].blocks <= regions[k + 1].blocks
  }

  lemma {:induction false} RegionsNested(regions: seq<Region>, k: nat, j: nat)
    requires forall i {:trigger Nested(regions, i)} | 0 <= i < |regions| - 1 :: Nested(regions, i)
    requires k <= j < |regions|
    ensures regions[k].chunks <= regions[j].chunks && regions[k].blocks <= regions[j].blocks
    decreases j
  {
    if k < j {
      RegionsNested(regions, k, j - 1);
      assert Nested(regions, j - 1);
    }
  }

  // A region saved before another stays a region when that one comes back.
  lemma RegionStays(chunks: seq<Chunk>, blocks: seq<Block>, r: Region, q: Region)
    requires RegionOK(chunks, blocks, r) && RegionOK(chunks, blocks, q) && r.chunks <= q.chunks && r.blocks <= q.blocks
    ensures RegionOK(q.chunks, q.blocks, r)
  {
  }

  // The blocks of a saved region are in order below its place.
  lemma RegionOrdered(chunks: seq<Chunk>, blocks: seq<Block>, offset: nat, r: Region)
    requires chunks != [] && Ordered(chunks, blocks, |chunks| - 1, offset) && RegionOK(chunks, blocks, r)
    ensures Ordered(r.chunks, r.blocks, |r.chunks| - 1, r.nextFree.offset)
    ensures chunks[..|r.chunks|] == r.chunks
  {
    assert chunks[..|r.chunks| - 1 + 1] == r.chunks;
    FewerChunks(chunks, blocks, |chunks| - 1, offset, |r.blocks|, |r.chunks| - 1, r.nextFree.offset);
    assert blocks[..|r.blocks|] == r.blocks;
  }

  // ---- free chunks

  ghost function Reversed(s: seq<Chunk>): (r: seq<Chunk>)
    ensures |r| == |s| && forall i | 0 <= i < |s| :: r[i] == s[|s| - 1 - i]
  {
    if s == [] then [] else [Last(s)] + Reversed(Init(s))
  }

  // Of the free chunks those that were freed last are kept.
  ghost function Kept(free: seq<Chunk>): (r: seq<Chunk>)
    ensures |r| <= |free| && r == free[|free| - |r|..]
    ensures |r| == |free| <= MAX_FREE_CHUNKS || |r| == MAX_FREE_CHUNKS < |free|
  {
    if |free| > MAX_FREE_CHUNKS then free[|free| - MAX_FREE_CHUNKS..] else free
  }

  class ContextMemoryManager {
    var chunkList: seq<Chunk>
    var freeChunks: seq<Chunk>
    var nextFree: Pointer
    var endChunk: Pointer
    var indexChunkList: nat
    var nextFreeStack: seq<Pointer>
    var endChunkStack: seq<Pointer>
    var indexChunkListStack: seq<nat>

    // malloc names chunks by numbers it has not used before.
    var nextChunk: Chunk

    // The live blocks in the order in which they were handed out, and the states at the pushes.
    ghost var blocks: seq<Block>
    ghost var regions: seq<Region>

    // Chunks are not both active and free.
    ghost predicate ChunksOK()
      reads this`chunkList, this`freeChunks, this`nextChunk, this`indexChunkList
    {
      && Distinct(chunkList) && Distinct(freeChunks)
      && (forall i, j | 0 <= i < |chunkList| && 0 <= j < |freeChunks| :: chunkList[i] != freeChunks[j])
      && (forall i | 0 <= i < |chunkList| :: chunkList[i] < nextChunk)
      && (forall i | 0 <= i < |freeChunks| :: freeChunks[i] < nextChunk)
      && |chunkList| == indexChunkList + 1
    }

    // The k-th saved region is what the three stacks say.
    ghost predicate StackedAt(k: nat)
      requires k < |regions| && |nextFreeStack| == |endChunkStack| == |indexChunkListStack| == |regions|
      reads this`regions, this`nextFreeStack, this`endChunkStack, this`indexChunkListStack
    {
      && nextFreeStack[k] == regions[k].nextFree && endChunkStack[k] == regions[k].endChunk
      && indexChunkListStack[k] + 1 == |regions[k].chunks|
    }

    ghost predicate SavedOK(k: nat, chunks: seq<Chunk>, blocks: seq<Block>)
      requires k < |regions| && |nextFreeStack| == |endChunkStack| == |indexChunkListStack| == |regions|
      reads this`regions, this`nextFreeStack, this`endChunkStack, this`indexChunkListStack
    {
      StackedAt(k) && RegionOK(chunks, blocks, regions[k])
    }

    // The stacks are those of the saved regions, each of which is part of the given chunks and blocks.
    ghost predicate StacksOK(chunks: seq<Chunk>, blocks: seq<Block>)
      reads this`regions, this`nextFreeStack, this`endChunkStack, this`indexChunkListStack
    {
      && |nextFreeStack| == |endChunkStack| == |indexChunkListStack| == |regions|
      && (forall k {:trigger SavedOK(k, chunks, blocks)} | 0 <= k < |regions| :: SavedOK(k, chunks, blocks))
      && (forall k {:trigger Nested(regions, k)} | 0 <= k < |regions| - 1 :: Nested(regions, k))
    }

    // The blocks end at or before the given offset of the last chunk.
    ghost predicate ValidUpTo(offset: nat)
      reads this`regions, this`nextFreeStack, this`endChunkStack, this`indexChunkListStack, this`chunkList, this`blocks
      reads this`freeChunks, this`nextChunk, this`indexChunkList
    {
      && ChunksOK() && StacksOK(chunkList, blocks)
      && offset <= CHUNK_SIZE_BYTES
      && Ordered(chunkList, blocks, indexChunkList, offset)
    }

    ghost predicate Valid()
      reads this
    {
      && ValidUpTo(nextFree.offset)
      && nextFree.chunk == chunkList[indexChunkList]
      && endChunk == Pointer(chunkList[indexChunkList], CHUNK_SIZE_BYTES)
    }

    constructor ()
      ensures Valid() && blocks == [] && regions == [] && freeChunks == []
    {
      chunkList, freeChunks, indexChunkList, nextChunk := [0], [], 0, 1;
      nextFree, endChunk := Pointer(0, 0), Pointer(0, CHUNK_SIZE_BYTES);
      nextFreeStack, endChunkStack, indexChunkListStack := [], [], [];
      blocks, regions := [], [];
    }

    method NewChunk(ghost offset: nat)
      requires ValidUpTo(offset)
      modifies this
      ensures Valid() && nextFree.offset == 0
      ensures blocks == old(blocks) && regions == old(regions) && nextFree.chunk == Last(chunkList)
      ensures old(freeChunks) == [] ==>
        chunkList == old(chunkList) + [old(nextChunk)] && freeChunks == [] && nextChunk == old(nextChunk) + 1
      ensures old(freeChunks) != [] ==>
        chunkList == old(chunkList) + [Last(old(freeChunks))] && freeChunks == Init(old(freeChunks))
        && nextChunk == old(nextChunk)
    {
      ghost var chunks := chunkList;
      TakeChunk();
      nextFree := Pointer(chunkList[|chunkList| - 1], 0);
      endChunk := Pointer(nextFree.chunk, CHUNK_SIZE_BYTES);
      assert chunkList == chunks + [nextFree.chunk];
      MoreChunks(chunks, nextFree.chunk, blocks, |chunks| - 1, offset);
      forall k | 0 <= k < |regions|
        ensures SavedOK(k, chunkList, blocks)
      {
        assert old(SavedOK(k, chunkList, blocks));
      }
    }

    // A free chunk, if there is one, or a new one becomes active.
    method TakeChunk()
      requires ChunksOK()
      modifies this`chunkList, this`freeChunks, this`nextChunk, this`indexChunkList
      ensures ChunksOK()
      ensures old(freeChunks) == [] ==>
        chunkList == old(chunkList) + [old(nextChunk)] && freeChunks == [] && nextChunk == old(nextChunk) + 1
      ensures old(freeChunks) != [] ==>
        chunkList == old(chunkList) + [Last(old(freeChunks))] && freeChunks == Init(old(freeChunks))
        && nextChunk == old(nextChunk)
    {
      indexChunkList := indexChunkList + 1;
      if freeChunks == [] {
        chunkList := chunkList + [nextChunk];
        nextChunk := nextChunk + 1;
      } else {
        chunkList := chunkList + [freeChunks[|freeChunks| - 1]];
        freeChunks := freeChunks[..|freeChunks| - 1];
      }
    }

    // A request of at most the size of a chunk succeeds.
    method NewData(size: nat) returns (res: Pointer)
      requires Valid() && size <= CHUNK_SIZE_BYTES
      modifies this
      ensures Valid() && regions == old(regions)
      ensures exists pos :: blocks == old(blocks) + [Block(res, size, pos)]
      ensures res.chunk in chunkList && res.offset + size <= CHUNK_SIZE_BYTES
      ensures forall i | 0 <= i < |old(blocks)| :: Disjoint(old(blocks)[i], Block(res, size, 0))
      ensures nextFree == res.(offset := res.offset + size)
      ensures if old(nextFree).offset + size <= CHUNK_SIZE_BYTES
        then res == old(nextFree) && chunkList == old(chunkList) && freeChunks == old(freeChunks)
        else res == Pointer(Last(chunkList), 0) && |chunkList| == |old(chunkList)| + 1
             && (old(freeChunks) != [] ==> res.chunk == Last(old(freeChunks)) && freeChunks == Init(old(freeChunks)))
    {
      ghost var offset := nextFree.offset;
      res := nextFree;
      nextFree := nextFree.(offset := nextFree.offset + size);
      if nextFree.offset > endChunk.offset {
        NewChunk(offset);
        res := nextFree;
        nextFree := nextFree.(offset := nextFree.offset + size);
      }
      HandOut(res, size);
    }

    // The block enters the order of live blocks.
    ghost method HandOut(res: Pointer, size: nat)
      requires ValidUpTo(res.offset) && res.offset + size <= CHUNK_SIZE_BYTES && res.chunk == chunkList[indexChunkList]
      requires nextFree == Pointer(res.chunk, res.offset + size) && endChunk == Pointer(res.chunk, CHUNK_SIZE_BYTES)
      modifies this`blocks
      ensures Valid() && blocks == old(blocks) + [Block(res, size, indexChunkList)]
      ensures forall i | 0 <= i < |old(blocks)| :: Disjoint(old(blocks)[i], Block(res, size, 0))
    {
      NextBlock(chunkList, blocks, indexChunkList, res.offset, size);
      ghost var n := |blocks|;
      blocks := blocks + [Block(res, size, indexChunkList)];
      forall i | 0 <= i < n
        ensures Disjoint(blocks[i], blocks[n])
      {
        OrderedAreDisjoint(chunkList, blocks, indexChunkList, nextFree.offset, i, n);
      }
      forall k | 0 <= k < |regions|
        ensures SavedOK(k, chunkList, blocks)
      {
        assert old(SavedOK(k, chunkList, blocks));
      }
    }

    method Push()
      requires Valid()
      modifies this`nextFreeStack, this`endChunkStack, this`indexChunkListStack, this`regions
      ensures Valid() && regions == old(regions) + [Region(nextFree, endChunk, chunkList, blocks)]
    {
      nextFreeStack := nextFreeStack + [nextFree];
      endChunkStack := endChunkStack + [endChunk];
      indexChunkListStack := indexChunkListStack + [indexChunkList];
      ghost var n := |regions|;
      regions := regions + [Region(nextFree, endChunk, chunkList, blocks)];
      forall k | 0 <= k < |regions|
        ensures SavedOK(k, chunkList, blocks)
      {
        assert k < n ==> old(SavedOK(k, chunkList, blocks));
      }
      forall k | 0 <= k < |regions| - 1
        ensures Nested(regions, k)
      {
        assert k < n - 1 ==> Nested(old(regions), k);
        assert old(SavedOK(k, chunkList, blocks));
      }
    }

    // The state of the last push comes back; its blocks are untouched, and later ones are gone.
    method Pop()
      requires Valid() && regions != []
      modifies this
      ensures Valid() && regions == old(regions)[..|old(regions)| - 1]
      ensures Region(nextFree, endChunk, chunkList, blocks) == old(regions)[|old(regions)| - 1]
      ensures chunkList <= old(chunkList) && nextChunk == old(nextChunk)
      ensures freeChunks == Kept(old(freeChunks) + Reversed(old(chunkList)[|chunkList|..]))
      ensures |freeChunks| <= MAX_FREE_CHUNKS
    {
      LastRegion();
      var index := PopStacks();
      FreeNewChunks(index);
      DeleteExcess();
    }

    lemma LastRegion()
      requires Valid() && regions != []
      ensures var r := regions[|regions| - 1];
        && 0 < |r.chunks| <= |chunkList| && r.chunks == chunkList[..|r.chunks|] && r.nextFree.offset <= CHUNK_SIZE_BYTES
        && r.nextFree.chunk == r.chunks[|r.chunks| - 1] && r.endChunk == Pointer(r.nextFree.chunk, CHUNK_SIZE_BYTES)
        && Ordered(r.chunks, r.blocks, |r.chunks| - 1, r.nextFree.offset)
    {
      assert SavedOK(|regions| - 1, chunkList, blocks);
      RegionOrdered(chunkList, blocks, nextFree.offset, regions[|regions| - 1]);
    }

    method PopStacks() returns (index: nat)
      requires StacksOK(chunkList, blocks) && regions != []
      modifies this`nextFree, this`endChunk, this`nextFreeStack, this`endChunkStack, this`indexChunkListStack,
               this`blocks,
               this`regions
      ensures var r := old(regions)[|old(regions)| - 1];
        && nextFree == r.nextFree && endChunk == r.endChunk && index + 1 == |r.chunks| && blocks == r.blocks
        && regions == old(regions)[..|old(regions)| - 1] && StacksOK(r.chunks, r.blocks)
    {
      ghost var r, regions0, top := regions[|regions| - 1], regions, |regions| - 1;
      assert SavedOK(top, chunkList, blocks);
      nextFree := nextFreeStack[|nextFreeStack| - 1];
      nextFreeStack := nextFreeStack[..|nextFreeStack| - 1];
      endChunk := endChunkStack[|endChunkStack| - 1];
      endChunkStack := endChunkStack[..|endChunkStack| - 1];
      index := indexChunkListStack[|indexChunkListStack| - 1];
      indexChunkListStack := indexChunkListStack[..|indexChunkListStack| - 1];
      blocks, regions := r.blocks, regions[..top];
      forall k | 0 <= k < top
        ensures SavedOK(k, r.chunks, r.blocks)
      {
        assert old(SavedOK(k, chunkList, blocks));
        RegionsNested(regions0, k, top);
        RegionStays(chunkList, old(blocks), regions[k], r);
      }
      forall k | 0 <= k < top - 1
        ensures Nested(regions, k)
      {
        assert Nested(regions0, k);
      }
    }

    // Frees all the chunks since the last push.
    method FreeNewChunks(index: nat)
      requires ChunksOK() && index <= indexChunkList
      modifies this`chunkList, this`freeChunks, this`indexChunkList
      ensures ChunksOK() && chunkList == old(chunkList)[..index + 1] && indexChunkList == index
      ensures freeChunks == old(freeChunks) + Reversed(old(chunkList)[index + 1..])
    {
      ghost var chunks, freed := chunkList, [];
      while indexChunkList > index
        invariant index <= indexChunkList < |old(chunkList)| && ChunksOK()
          && chunkList == chunks[..indexChunkList + 1]
        invariant freeChunks == old(freeChunks) + freed && |freed| == |chunks| - |chunkList|
          && forall i | 0 <= i < |freed| :: freed[i] == chunks[|chunks| - 1 - i]
      {
        freed := freed + [chunkList[|chunkList| - 1]];
        freeChunks := freeChunks + [chunkList[|chunkList| - 1]];
        chunkList := chunkList[..|chunkList| - 1];
        indexChunkList := indexChunkList - 1;
      }
      assert freed == Reversed(chunks[index + 1..]);
    }

    // Deletes free chunks beyond the number that is kept, the oldest first.
    method DeleteExcess()
      requires ChunksOK()
      modifies this`freeChunks
      ensures ChunksOK() && freeChunks == Kept(old(freeChunks))
    {
      while |freeChunks| > MAX_FREE_CHUNKS
        invariant ChunksOK() && |freeChunks| <= |old(freeChunks)|
        invariant freeChunks == old(freeChunks)[|old(freeChunks)| - |freeChunks|..]
        invariant |old(freeChunks)| <= MAX_FREE_CHUNKS ==> freeChunks == old(freeChunks)
        invariant |old(freeChunks)| >= MAX_FREE_CHUNKS ==> |freeChunks| >= MAX_FREE_CHUNKS
      {
        freeChunks := freeChunks[1..];
      }
    }
  }
}
