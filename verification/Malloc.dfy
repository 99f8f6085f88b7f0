/**
  The allocator itself: the block accessors of mminline.h, mem_sbrk, and
  mm_malloc, mm_free and mm_realloc over one flat memory.  The assertions in
  the accessors' source are preconditions here, so no call can trip one.
 */
module Malloc {
  import opened Sequences
  import opened MallocLayout
  import opened MallocMemory

  const NULL: int := 0

  class Heap {
    var mem: array<int>       // MAX_HEAP bytes; the cell at an aligned address holds the long stored there
    var brk: int              // mem_brk - mem_start_brk
    var prologue: int
    var epilogue: int
    var flistFirst: int       // NULL when the free list is empty; the prologue is never free

    ghost var blocks: map<int, Block>
    ghost var free: seq<int>
    ghost var run: seq<Request>

    /** Tags and links are as the ghost blocks and list say; the heap may be mid-operation. */
    ghost predicate Consistent()
      reads this, mem
    {
      && mem.Length == MAX_HEAP
      && 0 in blocks && blocks[0].used && -1 !in blocks
      && Coherent(mem[..], blocks, free)
      && flistFirst == First(free)
    }

    ghost function Heap(): Layout
      reads this
    {
      Layout(blocks, free, brk)
    }

    /** The payload of every live block, keyed by block address. */
    ghost function Live(): map<int, seq<int>>
      reads this, mem
      requires Intact()
    {
      Contents(mem[..], Heap())
    }

    /** Between operations: the blocks tile the heap and the list holds the free ones. */
    ghost predicate Intact()
      reads this, mem
    {
      && Consistent()
      && WellFormed(Heap())
      && prologue == 0 && epilogue == brk - TAGS_SIZE
    }

    /** The heap is intact and is what the requests served since mm_init have made of it. */
    ghost predicate Valid()
      reads this, mem
    {
      Intact() && Leads(run, Heap())
    }

    // ---------------------------------------------------------------- accessors

    predicate Addressable(a: int)
      reads this
    {
      0 <= a && a % WORD_SIZE == 0 && a + WORD_SIZE <= mem.Length
    }

    function BlockSize(b: int): int
      requires Addressable(b)
      reads this, mem
    {
      ClearBit(mem[b])
    }

    predicate BlockAllocated(b: int)
      requires Addressable(b)
      reads this, mem
    {
      UsedBit(mem[b])
    }

    function BlockEndTag(b: int): int
      requires Addressable(b) && mem[b] >= 2 * WORD_SIZE
      reads this, mem
    {
      b + ClearBit(mem[b]) - WORD_SIZE
    }

    function BlockNext(b: int): int
      requires Addressable(b)
      reads this, mem
    {
      b + BlockSize(b)
    }

    function BlockPrev(b: int): int
      requires Addressable(b - WORD_SIZE)
      reads this, mem
    {
      b - ClearBit(mem[b - WORD_SIZE])
    }

    function PayloadToBlock(p: int): int {
      p - WORD_SIZE
    }

    function BlockFlink(b: int): int
      requires Addressable(b) && !BlockAllocated(b) && Addressable(b + WORD_SIZE)
      reads this, mem
    {
      mem[b + WORD_SIZE]
    }

    function BlockBlink(b: int): int
      requires Addressable(b) && !BlockAllocated(b) && Addressable(b + 2 * WORD_SIZE)
      reads this, mem
    {
      mem[b + 2 * WORD_SIZE]
    }

    // ---------------------------------------------------------------- tag setters

    method BlockSetSize(b: int, size: int)
      requires Addressable(b) && size % WORD_SIZE == 0 && TAGS_SIZE <= size && b + size <= mem.Length
      modifies mem
      ensures mem[..] == TagMem(old(mem[..]), b, Block(size, old(UsedBit(mem[b]))))
    {
      TagBits(Block(size, BlockAllocated(b)));
      var word := if BlockAllocated(b) then SetBit(size) else size;
      mem[b] := word;
      mem[BlockEndTag(b)] := word;
    }

    method BlockSetAllocated(b: int, used: bool)
      requires Addressable(b) && mem[b] >= TAGS_SIZE && b + ClearBit(mem[b]) <= mem.Length
      requires ClearBit(mem[b]) % WORD_SIZE == 0
      requires mem[BlockEndTag(b)] == mem[b]
      modifies mem
      ensures mem[..] == TagMem(old(mem[..]), b, Block(old(ClearBit(mem[b])), used))
    {
      BitsAgain(mem[b]);
      if used {
        mem[b] := SetBit(mem[b]);
        mem[BlockEndTag(b)] := SetBit(mem[BlockEndTag(b)]);
      } else {
        mem[b] := ClearBit(mem[b]);
        mem[BlockEndTag(b)] := ClearBit(mem[BlockEndTag(b)]);
      }
    }

    method BlockSetSizeAndAllocated(b: int, size: int, used: bool)
      requires Addressable(b) && size % WORD_SIZE == 0 && TAGS_SIZE <= size && b + size <= mem.Length
      modifies mem
      ensures mem[..] == TagMem(old(mem[..]), b, Block(size, used))
    {
      BlockSetSize(b, size);
      BlockSetAllocated(b, used);
    }

    // ---------------------------------------------------------------- the free list

    method BlockSetFlink(b: int, flink: int)
      requires Addressable(b) && !BlockAllocated(b) && Addressable(b + WORD_SIZE)
      requires Addressable(flink) && !BlockAllocated(flink)
      modifies mem
      ensures mem[..] == old(mem[..])[b + WORD_SIZE := flink]
    {
      mem[b + WORD_SIZE] := flink;
    }

    method BlockSetBlink(b: int, blink: int)
      requires Addressable(b) && !BlockAllocated(b) && Addressable(b + 2 * WORD_SIZE)
      requires Addressable(blink) && !BlockAllocated(blink)
      modifies mem
      ensures mem[..] == old(mem[..])[b + 2 * WORD_SIZE := blink]
    {
      mem[b + 2 * WORD_SIZE] := blink;
    }

    /** Room for a clear tag and two links at `b`. */
    predicate FreeBlockAt(b: int)
      reads this, mem
    {
      && Addressable(b) && Addressable(b + WORD_SIZE) && Addressable(b + 2 * WORD_SIZE)
      && !BlockAllocated(b)
    }

    ghost predicate Far(a: int, b: int) {
      a == b || a + MINBLOCKSIZE <= b || b + MINBLOCKSIZE <= a
    }

    method PullFreeBlock(fb: int)
      requires FreeBlockAt(fb) && FreeBlockAt(mem[fb + WORD_SIZE]) && FreeBlockAt(mem[fb + 2 * WORD_SIZE])
      requires Far(mem[fb + WORD_SIZE], mem[fb + 2 * WORD_SIZE])
      modifies mem, `flistFirst
      ensures mem[..] == PullMem(old(mem[..]), fb)
      ensures flistFirst ==
        if fb != old(flistFirst) then old(flistFirst)
        else if fb == old(mem[fb + WORD_SIZE]) then NULL else old(mem[fb + WORD_SIZE])
    {
      var prev := BlockBlink(fb);
      var next := BlockFlink(fb);
      BlockSetFlink(prev, next);
      BlockSetBlink(next, prev);
      if fb == flistFirst {
        flistFirst := if fb == next then NULL else next;
      }
    }

    method InsertFreeBlock(fb: int)
      requires FreeBlockAt(fb)
      requires flistFirst != NULL ==>
        && FreeBlockAt(flistFirst) && FreeBlockAt(mem[flistFirst + 2 * WORD_SIZE])
        && fb != flistFirst && Far(fb, flistFirst)
        && fb != mem[flistFirst + 2 * WORD_SIZE] && Far(fb, mem[flistFirst + 2 * WORD_SIZE])
        && Far(flistFirst, mem[flistFirst + 2 * WORD_SIZE])
      modifies mem, `flistFirst
      ensures mem[..] == InsertMem(old(mem[..]), old(flistFirst), fb)
      ensures flistFirst == fb
    {
      if flistFirst == NULL {
        flistFirst := fb;
        BlockSetFlink(fb, fb);
        BlockSetBlink(fb, fb);
      } else {
        ghost var first, last := flistFirst, mem[flistFirst + 2 * WORD_SIZE];
        BlockSetFlink(fb, flistFirst);
        assert !UsedBit(mem[fb]) && !UsedBit(mem[first]) && !UsedBit(mem[last]);
        BlockSetBlink(fb, BlockBlink(flistFirst));
        assert !UsedBit(mem[fb]) && !UsedBit(mem[first]) && !UsedBit(mem[last]) && BlockBlink(first) == last;
        BlockSetFlink(BlockBlink(flistFirst), fb);
        assert !UsedBit(mem[fb]) && !UsedBit(mem[first]);
        BlockSetBlink(flistFirst, fb);
        flistFirst := fb;
      }
    }

    /** A linkable block has a clear allocated bit and room for two links. */
    lemma LinkableFacts(b: int)
      requires Consistent() && Linkable(blocks, b)
      ensures FreeBlockAt(b) && BlockSize(b) == blocks[b].size
    {
      assert HasTags(mem[..], blocks, b);
      TagBits(blocks[b]);
    }

    lemma LinkableFar(a: int, b: int)
      requires Consistent() && Linkable(blocks, a) && Linkable(blocks, b)
      ensures Far(a, b)
    {
      assert Ordered(blocks, a, b) && Ordered(blocks, b, a);
    }

    method Unlist(fb: int)
      requires Consistent() && fb in free
      modifies mem, `flistFirst, `free
      ensures Consistent() && free == Without(old(free), fb)
      ensures SamePayloads(old(mem[..]), mem[..], blocks, -1)
    {
      ghost var k := IndexOf(free, fb);
      PullCoherent(mem[..], blocks, free, k);
      assert Linkable(blocks, fb) && Linkable(blocks, Pred(free, k)) && Linkable(blocks, Succ(free, k));
      LinkableFacts(fb);
      LinkableFacts(Pred(free, k));
      LinkableFacts(Succ(free, k));
      LinkableFar(Pred(free, k), Succ(free, k));
      PullFreeBlock(fb);
      free := Without(free, fb);
    }

    method Enlist(fb: int)
      requires Consistent() && Linkable(blocks, fb) && fb !in free
      modifies mem, `flistFirst, `free
      ensures Consistent() && free == [fb] + old(free)
      ensures SamePayloads(old(mem[..]), mem[..], blocks, -1)
    {
      assert 0 !in free;
      InsertCoherent(mem[..], blocks, free, fb);
      LinkableFacts(fb);
      if flistFirst != NULL {
        ghost var last := Pred(free, 0);
        assert Linkable(blocks, flistFirst) && Linkable(blocks, last);
        LinkableFacts(flistFirst);
        LinkableFacts(last);
        LinkableFar(fb, flistFirst);
        LinkableFar(fb, last);
        LinkableFar(flistFirst, last);
      }
      InsertFreeBlock(fb);
      free := [fb] + free;
    }

    // ---------------------------------------------------------------- mem_sbrk and mm_init

    /** Grows the heap by `incr` bytes; -1 when it would shrink or pass the end of the storage. */
    method MemSbrk(incr: int) returns (r: int)
      requires -0x8000_0000 <= incr <= INT_MAX && 0 <= brk
      modifies `brk
      ensures r == -1 <==> incr < 0 || old(brk) + incr > mem.Length
      ensures r == -1 ==> brk == old(brk)
      ensures r != -1 ==> r == old(brk) && brk == old(brk) + incr
    {
      if incr < 0 || brk + incr > mem.Length {
        return -1;
      }
      r := brk;
      brk := brk + incr;
    }

    constructor ()
      ensures fresh(mem) && mem.Length == MAX_HEAP && brk == 0
    {
      mem := new int[MAX_HEAP];
      brk := 0;
    }

    method MmInit() returns (status: int)
      modifies this
      ensures status == 0 && fresh(mem)
      ensures Valid() && Heap() == INITIAL_LAYOUT && run == []
    {
      mem := new int[MAX_HEAP];
      brk := 0;
      var start := MemSbrk(2 * TAGS_SIZE);
      if start == -1 {
        return -1;
      }
      prologue := start;
      ghost var m := mem[..];
      BlockSetSizeAndAllocated(prologue, TAGS_SIZE, true);
      epilogue := prologue + TAGS_SIZE;
      BlockSetSizeAndAllocated(epilogue, TAGS_SIZE, true);
      flistFirst := NULL;
      blocks, free, run := INITIAL_LAYOUT.blocks, [], [];
      InitialCoherent(m, mem[..]);
      LeadsNowhere();
      return 0;
    }

    // ---------------------------------------------------------------- mm_malloc

    /** Block `b`, known or new, may take `after` as its tags without touching another block. */
    ghost predicate Retaggable(b: int, after: Block)
      reads this, mem
    {
      && Consistent() && Addressable(b) && b != 0
      && after.size % WORD_SIZE == 0 && TAGS_SIZE <= after.size && b + after.size <= mem.Length
      && Apart(blocks[b := after])
      && (forall i :: 0 <= i < |free| ==> Linkable(blocks[b := after], free[i]))
    }

    /** Rewrites the tags of block `b` and records it. */
    method SetBlock(b: int, size: int, used: bool)
      requires Retaggable(b, Block(size, used))
      modifies mem, `blocks
      ensures Consistent() && blocks == old(blocks)[b := Block(size, used)]
      ensures SamePayloads(old(mem[..]), mem[..], blocks, -1)
    {
      TaggedSubmap(mem[..], blocks, b);
      RetagCoherent(mem[..], blocks, free, b, Block(size, used));
      BlockSetSizeAndAllocated(b, size, used);
      blocks := blocks[b := Block(size, used)];
    }

    /** Rewrites the size of the recorded block `b`. */
    method SetBlockSize(b: int, size: int)
      requires b in blocks && Retaggable(b, Block(size, blocks[b].used))
      modifies mem, `blocks
      ensures Consistent() && blocks == old(blocks)[b := Block(size, old(blocks)[b].used)]
      ensures SamePayloads(old(mem[..]), mem[..], blocks, -1)
    {
      assert HasTags(mem[..], blocks, b);
      TagBits(blocks[b]);
      TaggedSubmap(mem[..], blocks, b);
      RetagCoherent(mem[..], blocks, free, b, Block(size, blocks[b].used));
      BlockSetSize(b, size);
      blocks := blocks[b := Block(size, blocks[b].used)];
    }

    /** A block that another one is about to swallow is no longer recorded. */
    ghost method Forget(y: int)
      requires Consistent() && y in blocks && y != 0 && y !in free
      modifies `blocks
      ensures Consistent() && blocks == old(blocks) - {y}
    {
      TaggedSubmap(mem[..], blocks, y);
      ApartSubmap(blocks, y);
      blocks := blocks - {y};
    }

    lemma BlockFacts(b: int)
      requires Consistent() && b in blocks
      ensures Addressable(b) && BlockSize(b) == blocks[b].size && BlockAllocated(b) == blocks[b].used
      ensures Addressable(b + blocks[b].size - WORD_SIZE)
      ensures ClearBit(mem[b + blocks[b].size - WORD_SIZE]) == blocks[b].size
      ensures TAGS_SIZE <= blocks[b].size && blocks[b].size % WORD_SIZE == 0 && b + blocks[b].size <= mem.Length
    {
      assert HasTags(mem[..], blocks, b);
      AlignedSum(b, blocks[b].size);
      TagBits(blocks[b]);
    }

    /** In a valid heap a listed block's tag says what the layout says. */
    lemma ListedFacts(b: int)
      requires Intact() && b in free
      ensures Linkable(blocks, b) && BlockOk(Heap(), b) && FreeBlockAt(b) && BlockSize(b) == blocks[b].size
      ensures 0 < b
    {
      assert IsFree(blocks, b) && BlockOk(Heap(), b);
      var k := IndexOf(free, b);
      assert Linkable(blocks, free[k]);
      LinkableFacts(b);
    }

    /** The listed block `cur` gives up its top and moves to the front of the list. */
    method ShrinkListed(cur: int, remaining: int)
      requires Intact() && cur in free && IsFree(blocks, cur)
      requires remaining % WORD_SIZE == 0 && MINBLOCKSIZE <= remaining <= blocks[cur].size
      modifies mem, `flistFirst, `free, `blocks
      ensures Consistent() && blocks == old(blocks)[cur := Block(remaining, false)]
      ensures free == [cur] + Without(old(free), cur)
      ensures SamePayloads(old(mem[..]), mem[..], old(blocks), -1)
    {
      ListedFacts(cur);
      ghost var m0, before := mem[..], blocks;
      WithoutDistinct(free, cur);
      Unlist(cur);
      ghost var m1 := mem[..];
      ShrinkApart(blocks, cur, Block(remaining, false));
      SetBlock(cur, remaining, false);
      ghost var m2 := mem[..];
      SamePayloadsTrans(m0, m1, m2, before, blocks, -1);
      Enlist(cur);
      SamePayloadsTrans(m0, m2, mem[..], before, blocks, -1);
    }

    /** Once `cur` has given up its top, the top can be tagged as a block of its own. */
    lemma TopIsFree(before: Layout, cur: int, remaining: int, adjusted: int)
      requires Consistent() && WellFormed(before) && cur in before.free && IsFree(before.blocks, cur)
      requires brk == before.brk
      requires remaining == before.blocks[cur].size - adjusted && MINBLOCKSIZE <= remaining
      requires adjusted % WORD_SIZE == 0 && MINBLOCKSIZE <= adjusted
      requires blocks == before.blocks[cur := Block(remaining, false)] && free == [cur] + Without(before.free, cur)
      ensures Addressable(cur) && BlockNext(cur) == cur + remaining
      ensures cur + remaining !in before.blocks && Retaggable(cur + remaining, Block(adjusted, true))
    {
      SplitSound(before, cur, adjusted);
      SplitApart(before.blocks, cur, remaining, adjusted);
      assert BlockOk(Split(before, cur, adjusted), cur + remaining);
      BlockFacts(cur);
    }

    /** Cut `adjusted` bytes off the top of the listed block `cur`. */
    method SplitBlock(cur: int, adjusted: int) returns (ptr: int)
      requires Intact() && cur in free && IsFree(blocks, cur)
      requires adjusted % WORD_SIZE == 0 && MINBLOCKSIZE <= adjusted
      requires MINBLOCKSIZE <= blocks[cur].size - adjusted
      modifies mem, `flistFirst, `free, `blocks
      ensures Intact() && Heap() == Split(old(Heap()), cur, adjusted)
      ensures ptr == cur + old(blocks[cur].size) - adjusted + WORD_SIZE
      ensures SamePayloads(old(mem[..]), mem[..], old(blocks), -1)
    {
      ghost var m0, before := mem[..], Heap();
      ListedFacts(cur);
      SplitSound(before, cur, adjusted);
      var remaining := BlockSize(cur) - adjusted;
      AlignedDifference(blocks[cur].size, adjusted);
      ShrinkListed(cur, remaining);
      TopIsFree(before, cur, remaining, adjusted);
      var newBlock := BlockNext(cur);
      TagTop(newBlock, adjusted, m0, before.blocks);
      ptr := newBlock + WORD_SIZE;
    }

    /** Tags a new allocated block; payloads of `before` that were as in `m` still are. */
    method TagTop(newBlock: int, adjusted: int, ghost m: seq<int>, ghost before: map<int, Block>)
      requires Retaggable(newBlock, Block(adjusted, true)) && SamePayloads(m, mem[..], before, -1)
      requires Keeps(before, blocks[newBlock := Block(adjusted, true)], -1)
      modifies mem, `blocks
      ensures Consistent() && blocks == old(blocks)[newBlock := Block(adjusted, true)]
      ensures SamePayloads(m, mem[..], before, -1)
    {
      ghost var m1 := mem[..];
      SetBlock(newBlock, adjusted, true);
      SamePayloadsTrans(m, m1, mem[..], before, blocks, -1);
    }

    /** Flips the allocated bit of the recorded block `b`. */
    method SetBlockAllocated(b: int, used: bool)
      requires Consistent() && b in blocks && 0 < b
      requires forall i :: 0 <= i < |free| ==> Linkable(blocks[b := Block(blocks[b].size, used)], free[i])
      modifies mem, `blocks
      ensures blocks == old(blocks)[b := Block(old(blocks)[b].size, used)]
      ensures Consistent()
      ensures SamePayloads(old(mem[..]), mem[..], blocks, -1)
    {
      assert HasTags(mem[..], blocks, b);
      TagBits(blocks[b]);
      ghost var after := Block(blocks[b].size, used);
      ShrinkApart(blocks, b, after);
      TaggedSubmap(mem[..], blocks, b);
      RetagCoherent(mem[..], blocks, free, b, after);
      BlockSetAllocated(b, used);
      blocks := blocks[b := after];
    }

    /** Hand out the whole listed block `cur`. */
    method TakeBlock(cur: int) returns (ptr: int)
      requires Intact() && cur in free && IsFree(blocks, cur)
      modifies mem, `flistFirst, `free, `blocks
      ensures Intact() && Heap() == Take(old(Heap()), cur)
      ensures ptr == cur + WORD_SIZE
      ensures SamePayloads(old(mem[..]), mem[..], old(blocks), -1)
    {
      ListedFacts(cur);
      TakeSound(Heap(), cur);
      ghost var m0, before := mem[..], blocks;
      WithoutDistinct(free, cur);
      Unlist(cur);
      ghost var m1 := mem[..];
      SetBlockAllocated(cur, true);
      SamePayloadsTrans(m0, m1, mem[..], before, blocks, -1);
      ptr := cur + WORD_SIZE;
    }

    /** The old epilogue becomes a block of `adjusted` bytes; brk has already moved. */
    method ExtendHeap(adjusted: int) returns (ptr: int)
      requires Consistent() && WellFormed(Heap().(brk := brk - adjusted)) && epilogue == brk - adjusted - TAGS_SIZE
      requires prologue == 0 && brk <= MAX_HEAP
      requires adjusted % WORD_SIZE == 0 && MINBLOCKSIZE <= adjusted
      modifies mem, `epilogue, `blocks
      ensures Intact() && Heap() == Extend(old(Heap()).(brk := brk - adjusted), adjusted)
      ensures ptr == old(epilogue) + WORD_SIZE
      ensures SamePayloads(old(mem[..]), mem[..], old(blocks), old(epilogue))
    {
      ghost var h := Heap().(brk := brk - adjusted);
      ExtendSound(h, adjusted);
      assert BlockOk(h, epilogue) && BlockOk(Extend(h, adjusted), epilogue + adjusted);
      forall a | a in blocks
        ensures a <= epilogue
      {
        assert BlockOk(h, a);
      }
      ghost var m0, before := mem[..], blocks;
      var cur := epilogue;
      LastApart(blocks, cur, Block(adjusted, true));
      SetBlock(cur, adjusted, true);
      ghost var m1, b1 := mem[..], blocks;
      SamePayloadsTrans(m0, m0, m1, before, b1, cur);
      assert HasTags(m1, b1, cur);
      TagBits(b1[cur]);
      epilogue := BlockNext(cur);
      assert mem[..] == m1;
      ExtendApart(before, cur, adjusted);
      assert epilogue == cur + adjusted && b1 == before[cur := Block(adjusted, true)];
      assert Apart(b1[epilogue := Block(TAGS_SIZE, true)]);
      assert forall i :: 0 <= i < |free| ==> Linkable(blocks[epilogue := Block(TAGS_SIZE, true)], free[i]);
      SetBlock(epilogue, TAGS_SIZE, true);
      SamePayloadsTrans(m0, m1, mem[..], before, blocks, cur);
      ptr := cur + WORD_SIZE;
    }

    /** First fit over the circular free list. */
    method FindFit(adjusted: int) returns (cur: int)
      requires Intact()
      ensures var k := FirstFit(Heap(), adjusted, 0); cur == if k < |free| then free[k] else NULL
      ensures 0 !in free
    {
      assert 0 !in free;
      cur := flistFirst;
      if cur != NULL {
        ghost var i := 0;
        while true
          invariant 0 <= i < |free| && cur == free[i]
          invariant forall j :: 0 <= j < i ==> blocks[free[j]].size < adjusted
          decreases |free| - i
        {
          ListedFacts(cur);
          if !BlockAllocated(cur) && BlockSize(cur) >= adjusted {
            return;
          }
          assert HasLinks(mem[..], free, i);
          cur := BlockFlink(cur);
          if cur == flistFirst {
            break;
          }
          i := i + 1;
        }
        cur := NULL;
      }
    }

    /** Serve a request from the listed block found by the scan, splitting it if enough remains. */
    method AllocateListed(cur: int, adjusted: int) returns (ptr: int)
      requires Intact() && adjusted % WORD_SIZE == 0 && MINBLOCKSIZE <= adjusted
      requires var k := FirstFit(Heap(), adjusted, 0); k < |free| && cur == free[k]
      modifies mem, `flistFirst, `blocks, `free
      ensures Intact() && ptr != NULL
      ensures MallocSpec(old(Heap()), adjusted) == Allocated(Heap(), ptr - WORD_SIZE)
      ensures SamePayloads(old(mem[..]), mem[..], old(blocks), -1)
    {
      ListedFacts(cur);
      var remaining := BlockSize(cur) - adjusted;
      if remaining >= MINBLOCKSIZE {
        ptr := SplitBlock(cur, adjusted);
      } else {
        ptr := TakeBlock(cur);
      }
    }

    /**
      mm_malloc for a request already rounded up to a block size. `fault`: mem_sbrk, which takes an int, has grown
      the heap by less than the block, and the next write would be outside all storage; nothing more is said of the
      heap then.
     */
    method Allocate(adjusted: int) returns (ptr: int, fault: bool)
      requires Intact() && adjusted % WORD_SIZE == 0 && MINBLOCKSIZE <= adjusted
      modifies mem, `brk, `epilogue, `flistFirst, `blocks, `free
      ensures fault <==> !SbrkFaithful(old(brk), adjusted)
      ensures !fault ==> Intact()
      ensures !fault && ptr == NULL ==> Heap() == old(Heap()) && mem[..] == old(mem[..])
      ensures !fault ==>
        MallocSpec(old(Heap()), adjusted) == if ptr == NULL then OutOfMemory else Allocated(Heap(), ptr - WORD_SIZE)
      ensures !fault ==> LiveSame(old(mem[..]), mem[..], old(Heap()), -1)
    {
      fault := false;
      SbrkTruncates(brk, adjusted);
      var cur := FindFit(adjusted);
      if cur != NULL {
        if INT_MAX < adjusted { TruncatedNeverFits(Heap(), adjusted); }
        ListedFacts(cur);
        ptr := AllocateListed(cur, adjusted);
      } else {
        var start := MemSbrk(ToInt32(adjusted));
        if start == -1 {
          return NULL, false;
        }
        if mem.Length < epilogue + adjusted {
          return NULL, true;
        }
        ptr := ExtendHeap(adjusted);
      }
    }

    /** The same by its outcome: the request is recorded, one block comes to life, no live payload changes. */
    method AllocateRecorded(adjusted: int) returns (ptr: int, fault: bool)
      requires Valid() && adjusted % WORD_SIZE == 0 && MINBLOCKSIZE <= adjusted
      modifies mem, `brk, `epilogue, `flistFirst, `blocks, `free, `run
      ensures fault <==> !SbrkFaithful(old(brk), adjusted)
      ensures !fault ==> Valid() && LiveSame(old(mem[..]), mem[..], old(Heap()), -1)
      ensures !fault ==> (ptr == NULL <==> NoFit(old(Heap()), adjusted) && MAX_HEAP < old(brk) + adjusted)
      ensures !fault && ptr == NULL ==> Heap() == old(Heap()) && mem[..] == old(mem[..])
      ensures !fault && ptr != NULL ==>
        var b := ptr - WORD_SIZE;
        && brk == (if NoFit(old(Heap()), adjusted) then old(brk) + adjusted else old(brk))
        && !IsLive(old(Heap()), b) && IsLive(Heap(), b) && adjusted <= blocks[b].size < adjusted + MINBLOCKSIZE
        && LiveChange(old(Heap()), Heap(), b, b)
      ensures run == if fault || ptr == NULL then old(run) else old(run) + [Request.Allocate(adjusted)]
    {
      ghost var h := Heap();
      ptr, fault := Allocate(adjusted);
      if !fault {
        MallocOutcome(h, adjusted);
        if ptr != NULL {
          MallocLive(h, adjusted);
          AllocateLeads(run, h, adjusted, Heap(), ptr - WORD_SIZE);
          run := run + [Request.Allocate(adjusted)];
        }
      }
    }

    method MmMalloc(size: int) returns (ptr: int, fault: bool)
      requires Valid()
      modifies mem, `brk, `epilogue, `flistFirst, `blocks, `free, `run
      ensures fault <==> size != 0 && !SbrkFaithful(old(brk), AdjustedSize(size))
      ensures !fault ==> Valid()
      ensures !fault ==> (ptr == NULL <==>
        size == 0 || (NoFit(old(Heap()), AdjustedSize(size)) && MAX_HEAP < old(brk) + AdjustedSize(size)))
      ensures !fault && ptr == NULL ==> Heap() == old(Heap()) && mem[..] == old(mem[..])
      ensures !fault && ptr != NULL ==>
        var b := ptr - WORD_SIZE;
        && brk == (if NoFit(old(Heap()), AdjustedSize(size)) then old(brk) + AdjustedSize(size) else old(brk))
        && IsLive(Heap(), b) && AdjustedSize(size) <= blocks[b].size < AdjustedSize(size) + MINBLOCKSIZE
        && LiveChange(old(Heap()), Heap(), b, b)
        && Added(old(Live()), Live(), b, size)
      ensures run == if fault || ptr == NULL then old(run) else old(run) + [Request.Allocate(AdjustedSize(size))]
    {
      if size == 0 {
        return NULL, false;
      }
      var adjusted := if Align(size + TAGS_SIZE) < MINBLOCKSIZE then MINBLOCKSIZE else Align(size + TAGS_SIZE);
      ghost var h, m := Heap(), mem[..];
      ptr, fault := AllocateRecorded(adjusted);
      if !fault && ptr != NULL {
        AddedContents(m, mem[..], h, Heap(), ptr - WORD_SIZE);
      }
    }

    // ---------------------------------------------------------------- mm_free

    /** Block `x` swallows the listed block `y` that follows it. */
    method Absorb(x: int, y: int)
      requires Consistent() && Sound(Heap()) && x in blocks && 0 < x
      requires y in free && IsFree(blocks, y) && y == x + blocks[x].size
      modifies mem, `flistFirst, `blocks, `free
      ensures Consistent() && Heap() == Merge(old(Heap()), x, y)
      ensures !old(blocks)[x].used ==> Keeps(old(blocks), blocks, -1)
      ensures !old(blocks)[x].used ==> SamePayloads(old(mem[..]), mem[..], old(blocks), -1)
    {
      ghost var m0, before := mem[..], blocks;
      MergeSound(Heap(), x, y);
      assert BlockOk(Merge(Heap(), x, y), x);
      BlockFacts(x);
      BlockFacts(y);
      WithoutDistinct(free, y);
      Unlist(y);
      ghost var m1 := mem[..];
      BlockFacts(x);
      BlockFacts(y);
      var joined := BlockSize(x) + BlockSize(y);
      Forget(y);
      assert mem[..] == m1;
      SetBlockSize(x, joined);
      assert Keeps(before, blocks, x);
      SamePayloadsTrans(m0, m1, mem[..], before, blocks, x);
    }

    /** First half of coalesce: a free predecessor swallows `block`. */
    method CoalescePrev(block: int, prevBlock: int) returns (prevBlockFree: bool)
      requires Consistent() && Sound(Heap()) && IsFree(blocks, block) && 0 < block
      requires prevBlock == Prev(Heap(), block)
      modifies mem, `flistFirst, `blocks, `free
      ensures Consistent() && Sound(Heap()) && Heap() == JoinPrev(old(Heap()), block)
      ensures prevBlockFree == IsFree(old(blocks), prevBlock)
      ensures Keeps(old(blocks), blocks, -1) && SamePayloads(old(mem[..]), mem[..], old(blocks), -1)
    {
      ghost var h := Heap();
      assert BlockOk(h, prevBlock);
      BlockFacts(prevBlock);
      prevBlockFree := false;
      if !BlockAllocated(prevBlock) {
        MergeSound(h, prevBlock, block);
        Absorb(prevBlock, block);
        prevBlockFree := true;
      }
    }

    /** Second half of coalesce: the free block `low` swallows a free successor. */
    method CoalesceNext(low: int, nextBlock: int)
      requires Consistent() && Sound(Heap()) && IsFree(blocks, low) && 0 < low
      requires nextBlock == low + blocks[low].size && nextBlock in blocks
      modifies mem, `flistFirst, `blocks, `free
      ensures Consistent() && Heap() == JoinNext(old(Heap()), low)
      ensures SamePayloads(old(mem[..]), mem[..], old(blocks), -1)
    {
      BlockFacts(nextBlock);
      if !BlockAllocated(nextBlock) {
        Absorb(low, nextBlock);
      }
    }

    method CoalesceBlock(block: int)
      requires Consistent() && Sound(Heap()) && IsFree(blocks, block) && 0 < block
      modifies mem, `flistFirst, `blocks, `free
      ensures Consistent() && Heap() == Coalesce(old(Heap()), block)
      ensures SamePayloads(old(mem[..]), mem[..], old(blocks), -1)
    {
      ghost var h, m0 := Heap(), mem[..];
      assert BlockOk(h, Prev(h, block)) && BlockOk(h, block) && Ordered(blocks, block, brk - TAGS_SIZE);
      BlockFacts(Prev(h, block));
      BlockFacts(block);
      var prevBlock := BlockPrev(block);
      var nextBlock := BlockNext(block);
      assert prevBlock == Prev(h, block) && nextBlock in blocks && Ordered(blocks, prevBlock, nextBlock);
      var prevBlockFree := CoalescePrev(block, prevBlock);
      ghost var m1, b1 := mem[..], blocks;
      CoalesceNext(if prevBlockFree then prevBlock else block, nextBlock);
      SamePayloadsTrans(m0, m1, mem[..], h.blocks, b1, -1);
    }

    method MarkBlockFree(block: int)
      requires Intact() && IsLive(Heap(), block)
      modifies mem, `flistFirst, `blocks, `free
      ensures Consistent() && Heap() == MarkFree(old(Heap()), block)
      ensures SamePayloads(old(mem[..]), mem[..], old(blocks), block)
    {
      ghost var before, m0 := blocks, mem[..];
      assert BlockOk(Heap(), block);
      SetBlockAllocated(block, false);
      ghost var m1 := mem[..];
      SamePayloadsTrans(m0, m0, m1, before, blocks, block);
      Enlist(block);
      SamePayloadsTrans(m0, m1, mem[..], before, blocks, block);
    }

    /** mm_free of a live block. */
    method Release(block: int)
      requires Intact() && IsLive(Heap(), block)
      modifies mem, `flistFirst, `blocks, `free
      ensures Intact() && Heap() == FreeSpec(old(Heap()), block)
      ensures SamePayloads(old(mem[..]), mem[..], old(blocks), block)
    {
      ghost var h, m0 := Heap(), mem[..];
      MarkFreeSound(h, block);
      FreeWellFormed(h, block);
      MarkBlockFree(block);
      ghost var m1, b1 := mem[..], blocks;
      CoalesceBlock(block);
      SamePayloadsTrans(m0, m1, mem[..], h.blocks, b1, block);
    }

    method MmFree(ptr: int)
      requires Valid() && (ptr == NULL || IsLive(Heap(), ptr - WORD_SIZE))
      modifies mem, `flistFirst, `blocks, `free, `run
      ensures Valid()
      ensures ptr == NULL ==> Heap() == old(Heap()) && mem[..] == old(mem[..])
      ensures Live() == old(Live()) - {ptr - WORD_SIZE}
      ensures run == if ptr == NULL then old(run) else old(run) + [Request.Release(ptr - WORD_SIZE)]
    {
      if ptr == NULL {
        assert Live() - {ptr - WORD_SIZE} == Live();
        return;
      }
      var block := PayloadToBlock(ptr);
      ghost var h, m := Heap(), mem[..];
      FreeLive(h, block);
      Release(block);
      ReleaseLeads(run, h, block, Heap());
      run := run + [Request.Release(block)];
      ContentsChange(m, mem[..], h, Heap(), block, block);
      assert {block, block} == {block} && Live() - {block} == Live();
    }

    // ---------------------------------------------------------------- mm_realloc

    /**
      memcpy between disjoint ranges.  Only the first `known` source bytes belong to
      the caller; what lies beyond them is not specified, so neither is what arrives.
     */
    method CopyCells(dst: int, src: int, known: int, n: int)
      requires 0 <= known <= n && 0 <= src && src + known <= mem.Length && 0 <= dst && dst + n <= mem.Length
      requires src + known <= dst || dst + n <= src
      modifies mem
      ensures Cells(mem[..], dst, known) == Cells(old(mem[..]), src, known)
      ensures forall w :: 0 <= w < mem.Length && !(dst <= w < dst + n) ==> mem[w] == old(mem[w])
    {
      ghost var m := mem[..];
      for i := 0 to n
        invariant forall w :: dst <= w < dst + i && w < dst + known ==> mem[w] == m[w - dst + src]
        invariant forall w :: 0 <= w < mem.Length && !(dst <= w < dst + i) ==> mem[w] == m[w]
      {
        if i < known {
          mem[dst + i] := mem[src + i];
        } else {
          mem[dst + i] := *;
        }
      }
      assert Cells(mem[..], dst, known) == Cells(m, src, known);
    }

    /** memcpy from one live payload into another: all other blocks stay as they were. */
    method CopyInto(dst: int, src: int, known: int, n: int)
      requires Intact() && IsLive(Heap(), dst - WORD_SIZE) && IsLive(Heap(), src - WORD_SIZE) && dst != src
      requires 0 <= known <= n <= blocks[dst - WORD_SIZE].size - TAGS_SIZE
      requires known == blocks[src - WORD_SIZE].size - TAGS_SIZE
      modifies mem
      ensures Intact() && Heap() == old(Heap())
      ensures Filled(old(Live()), Live(), src - WORD_SIZE, dst - WORD_SIZE)
    {
      ghost var h, m, a, b := Heap(), mem[..], src - WORD_SIZE, dst - WORD_SIZE;
      assert BlockOk(h, a) && BlockOk(h, b) && Ordered(blocks, a, b) && Ordered(blocks, b, a);
      CopyCells(dst, src, known, n);
      assert forall w :: 0 <= w < |m| && !InPayload(blocks, b, w) ==> mem[..][w] == m[w];
      PayloadWrite(m, mem[..], blocks, free, b);
      CopiedContents(m, mem[..], h, a, b);
    }

    method GrowTags(x: int)
      requires Intact() && IsLive(Heap(), x) && IsFree(blocks, x + blocks[x].size)
      modifies mem, `flistFirst, `blocks, `free
      ensures Consistent() && Heap() == Merge(old(Heap()), x, x + old(blocks)[x].size)
      ensures SamePayloads(old(mem[..]), mem[..], old(blocks), -1)
    {
      ghost var m, before, y := mem[..], blocks, x + blocks[x].size;
      assert BlockOk(Heap(), x) && BlockOk(Heap(), y);
      BlockFacts(x);
      BlockFacts(y);
      var size := BlockSize(x);
      var next := BlockNext(x);
      MergeSound(Heap(), x, y);
      assert BlockOk(Merge(Heap(), x, y), x);
      WithoutDistinct(free, y);
      Unlist(next);
      ghost var m1 := mem[..];
      BlockFacts(y);
      var joined := size + BlockSize(next);
      Forget(y);
      assert mem[..] == m1;
      SetBlock(x, joined, true);
      forall a, w {:trigger InPayload(before, a, w)} | InPayload(before, a, w) && 0 <= w < |m|
        ensures mem[..][w] == m[w]
      {
        assert InPayload(blocks, a, w);
      }
    }

    /** Grow the live block `x` into the free block after it. */
    method GrowBlock(x: int)
      requires Valid() && IsLive(Heap(), x) && IsFree(blocks, x + blocks[x].size)
      modifies mem, `flistFirst, `blocks, `free, `run
      ensures Valid() && Heap() == Merge(old(Heap()), x, x + old(blocks)[x].size) && run == old(run) + [Request.Grow(x)]
      ensures Replaced(old(Live()), Live(), x, x, old(blocks[x].size + blocks[x + blocks[x].size].size) - TAGS_SIZE)
    {
      ghost var h, m, y := Heap(), mem[..], x + blocks[x].size;
      GrowWellFormed(h, x);
      MergeLive(h, x, y);
      assert BlockOk(h, x) && BlockOk(h, y);
      GrowTags(x);
      GrownContents(m, mem[..], h, Heap(), x);
      GrowLeads(run, h, x, Heap());
      run := run + [Request.Grow(x)];
    }

    /** The same for a caller that asks for `size` payload bytes. */
    method GrowTo(x: int, size: int)
      requires Valid() && IsLive(Heap(), x) && FitsNext(Heap(), x, AdjustedSize(size))
      modifies mem, `flistFirst, `blocks, `free, `run
      ensures Valid() && Replaced(old(Live()), Live(), x, x, size) && run == old(run) + [Request.Grow(x)]
    {
      assert BlockOk(Heap(), x) && BlockOk(Heap(), x + blocks[x].size);
      GrowBlock(x);
    }

    /** Allocate a new block and copy the old payload to its front. */
    method AllocateCopy(ptr: int, size: int) returns (newPtr: int, fault: bool)
      requires Valid() && IsLive(Heap(), ptr - WORD_SIZE) && size != 0
      requires blocks[ptr - WORD_SIZE].size < AdjustedSize(size)
      modifies mem, `brk, `epilogue, `flistFirst, `blocks, `free, `run
      ensures fault <==> !SbrkFaithful(old(brk), AdjustedSize(size))
      ensures !fault ==> Valid() && IsLive(Heap(), ptr - WORD_SIZE)
      ensures !fault && newPtr == NULL ==> Heap() == old(Heap()) && mem[..] == old(mem[..])
      ensures !fault ==> (newPtr == NULL <==>
        NoFit(old(Heap()), AdjustedSize(size)) && MAX_HEAP < old(brk) + AdjustedSize(size))
      ensures !fault && newPtr != NULL ==> newPtr != ptr
      ensures !fault && newPtr != NULL ==>
        Replaced(old(Live()), Live() - {ptr - WORD_SIZE}, ptr - WORD_SIZE, newPtr - WORD_SIZE, size)
      ensures run == if fault || newPtr == NULL then old(run) else old(run) + [Request.Allocate(AdjustedSize(size))]
    {
      ghost var h, a, before := Heap(), ptr - WORD_SIZE, Live();
      assert BlockOk(h, a);
      BlockFacts(a);
      AdjustedIsAligned(size);
      var oldBytes := BlockSize(PayloadToBlock(ptr)) - TAGS_SIZE;
      newPtr, fault := MmMalloc(size);
      if !fault && newPtr != NULL {
        assert a != newPtr - WORD_SIZE && IsLive(Heap(), a) && blocks[a] == h.blocks[a];
        CopyPayload(newPtr, ptr, oldBytes, size, before);
      }
    }

    /** Fills the block that has just been added: once the old block goes, it has become the new one. */
    method CopyPayload(newPtr: int, ptr: int, oldBytes: int, size: int, ghost before: map<int, seq<int>>)
      requires Intact() && IsLive(Heap(), newPtr - WORD_SIZE) && IsLive(Heap(), ptr - WORD_SIZE) && newPtr != ptr
      requires oldBytes == blocks[ptr - WORD_SIZE].size - TAGS_SIZE <= Align(size)
      requires Align(size) <= blocks[newPtr - WORD_SIZE].size - TAGS_SIZE
      requires ptr - WORD_SIZE in before && Added(before, Live(), newPtr - WORD_SIZE, size)
      modifies mem
      ensures Intact() && Heap() == old(Heap())
      ensures Replaced(before, Live() - {ptr - WORD_SIZE}, ptr - WORD_SIZE, newPtr - WORD_SIZE, size)
    {
      ghost var mid := Live();
      assert BlockOk(Heap(), ptr - WORD_SIZE);
      CopyInto(newPtr, ptr, oldBytes, Align(size));
      MovedContents(before, mid, Live(), ptr - WORD_SIZE, newPtr - WORD_SIZE, size);
    }

    /** Moves the payload to a larger block and frees the old one, if there is such a block. */
    method MoveBlock(ptr: int, size: int) returns (newPtr: int, fault: bool)
      requires Valid() && IsLive(Heap(), ptr - WORD_SIZE) && size != 0
      requires blocks[ptr - WORD_SIZE].size < AdjustedSize(size)
      modifies mem, `brk, `epilogue, `flistFirst, `blocks, `free, `run
      ensures fault <==> !SbrkFaithful(old(brk), AdjustedSize(size))
      ensures !fault ==> Valid() && newPtr != ptr
      ensures !fault ==> (newPtr == NULL <==>
        NoFit(old(Heap()), AdjustedSize(size)) && MAX_HEAP < old(brk) + AdjustedSize(size))
      ensures !fault && newPtr == NULL ==> Heap() == old(Heap()) && mem[..] == old(mem[..]) && run == old(run)
      ensures !fault && newPtr != NULL ==> Replaced(old(Live()), Live(), ptr - WORD_SIZE, newPtr - WORD_SIZE, size)
      ensures !fault && newPtr != NULL ==>
        run == old(run) + [Request.Allocate(AdjustedSize(size)), Request.Release(ptr - WORD_SIZE)]
    {
      assert BlockOk(Heap(), ptr - WORD_SIZE);
      newPtr, fault := AllocateCopy(ptr, size);
      if !fault && newPtr != NULL {
        MmFree(ptr);
      }
    }

    /** A resize in place never gets to mem_sbrk; a block that is large enough stands for itself. */
    lemma FitsFacts(a: int, size: int)
      requires Valid() && IsLive(Heap(), a)
      ensures a + blocks[a].size in blocks
      ensures FitsInPlace(Heap(), a, AdjustedSize(size)) ==> SbrkFaithful(brk, AdjustedSize(size))
      ensures AdjustedSize(size) <= blocks[a].size ==> Replaced(Live(), Live(), a, a, size)
    {
      assert BlockOk(Heap(), a) && Ordered(blocks, a, epilogue);
      SbrkTruncates(brk, AdjustedSize(size));
      var n := a + blocks[a].size;
      assert IsFree(blocks, n) ==> BlockOk(Heap(), n);
    }

    /** mm_realloc of a live block to a nonzero size: keep it, grow it, or move it. */
    method Resize(ptr: int, size: int) returns (newPtr: int, fault: bool)
      requires Valid() && IsLive(Heap(), ptr - WORD_SIZE) && size != 0
      modifies mem, `brk, `epilogue, `flistFirst, `blocks, `free, `run
      ensures fault <==> !SbrkFaithful(old(brk), AdjustedSize(size))
      ensures !fault ==> Valid()
      ensures FitsInPlace(old(Heap()), ptr - WORD_SIZE, AdjustedSize(size)) ==> newPtr == ptr && brk == old(brk)
      ensures AdjustedSize(size) <= old(blocks)[ptr - WORD_SIZE].size ==>
        Heap() == old(Heap()) && mem[..] == old(mem[..])
      ensures !fault && !FitsInPlace(old(Heap()), ptr - WORD_SIZE, AdjustedSize(size)) ==>
        && newPtr != ptr
        && (newPtr == NULL <==> NoFit(old(Heap()), AdjustedSize(size)) && MAX_HEAP < old(brk) + AdjustedSize(size))
      ensures !fault && newPtr == NULL ==> Heap() == old(Heap()) && mem[..] == old(mem[..])
      ensures !fault && newPtr != NULL ==> Replaced(old(Live()), Live(), ptr - WORD_SIZE, newPtr - WORD_SIZE, size)
      ensures !fault ==> run == old(run) + ResizeRequests(old(Heap()), ptr - WORD_SIZE, AdjustedSize(size))
    {
      fault := false;
      var currentBlock := PayloadToBlock(ptr);
      BlockFacts(currentBlock);
      var currentSize := BlockSize(currentBlock);
      var newSize := if Align(size + TAGS_SIZE) < MINBLOCKSIZE then MINBLOCKSIZE else Align(size + TAGS_SIZE);
      FitsFacts(currentBlock, size);
      if newSize <= currentSize {
        return ptr, false;
      }
      var nextBlock := BlockNext(currentBlock);
      BlockFacts(nextBlock);
      if !BlockAllocated(nextBlock) && currentSize + BlockSize(nextBlock) >= newSize {
        GrowTo(currentBlock, size);
        return ptr, false;
      }
      newPtr, fault := MoveBlock(ptr, size);
    }

    method MmRealloc(ptr: int, size: int) returns (newPtr: int, fault: bool)
      requires Valid() && (ptr == NULL || IsLive(Heap(), ptr - WORD_SIZE))
      modifies mem, `brk, `epilogue, `flistFirst, `blocks, `free, `run
      ensures fault <==> size != 0 && !SbrkFaithful(old(brk), AdjustedSize(size))
      ensures !fault ==> Valid()
      ensures size == 0 ==> newPtr == NULL
      ensures ptr != NULL && size == 0 ==>
        Live() == old(Live()) - {ptr - WORD_SIZE} && run == old(run) + [Request.Release(ptr - WORD_SIZE)]
      ensures !fault && size != 0 ==> (newPtr == NULL <==>
        && (ptr == NULL || !FitsInPlace(old(Heap()), ptr - WORD_SIZE, AdjustedSize(size)))
        && NoFit(old(Heap()), AdjustedSize(size)) && MAX_HEAP < old(brk) + AdjustedSize(size))
      ensures ptr != NULL && size != 0 && FitsInPlace(old(Heap()), ptr - WORD_SIZE, AdjustedSize(size)) ==>
        newPtr == ptr && brk == old(brk)
      ensures !fault && ptr != NULL && size != 0 ==>
        var b, a := old(blocks), ptr - WORD_SIZE;
        var n := a + b[a].size;
        (newPtr == ptr <==>
          || AdjustedSize(size) <= b[a].size
          || (n in b && !b[n].used && AdjustedSize(size) <= b[a].size + b[n].size))
      ensures !fault && newPtr == NULL && (ptr == NULL || size != 0) ==>
        Heap() == old(Heap()) && mem[..] == old(mem[..])
      ensures !fault && newPtr != NULL && ptr != NULL ==>
        Replaced(old(Live()), Live(), ptr - WORD_SIZE, newPtr - WORD_SIZE, size)
      ensures !fault && newPtr != NULL && ptr == NULL ==> Added(old(Live()), Live(), newPtr - WORD_SIZE, size)
      ensures size == 0 ==> brk == old(brk)
      ensures !fault && ptr != NULL && size != 0 ==>
        run == old(run) + ResizeRequests(old(Heap()), ptr - WORD_SIZE, AdjustedSize(size))
    {
      fault := false;
      if ptr == NULL {
        newPtr, fault := MmMalloc(size);
      } else if size == 0 {
        MmFree(ptr);
        newPtr := NULL;
      } else {
        newPtr, fault := Resize(ptr, size);
      }
    }
  }
}
