/**
  What mm_realloc's copy touches when the block has to move: it copies as many
  bytes as the new payload has, which is always more than the old one holds.
  Also a few short runs from mm_init with the layouts they lead to.
 */
module MallocHazards {
  import opened MallocLayout
  import opened Sequences

  /** Two ranges of `n` bytes share a byte. */
  predicate RangesMeet(src: int, dst: int, n: int) {
    src < dst + n && dst < src + n
  }

  predicate InsideStorage(src: int, n: int) {
    0 <= src && src + n <= MAX_HEAP
  }

  /**
    The copy for a resize of live block `a` to `size` bytes, decided by the layout before the call. It writes inside
    the new payload and never into the old one, but it reads past the old payload every time. The read leaves the
    storage only if the new block lies below the old one; the ranges meet only if it lies above.
   */
  lemma CopyHazards(h: Layout, a: int, size: int)
    requires WellFormed(h) && IsLive(h, a) && h.blocks[a].size < AdjustedSize(size)
    requires MallocSpec(h, AdjustedSize(size)).Allocated?
    ensures var b := MallocSpec(h, AdjustedSize(size)).block;
      var src, dst, n := a + WORD_SIZE, b + WORD_SIZE, Align(size);
      var end := a + h.blocks[a].size - WORD_SIZE;
      && 0 <= dst && dst + n <= MallocSpec(h, AdjustedSize(size)).layout.brk
      && (end <= dst || dst + n <= src)
      && end < src + n
      && (RangesMeet(src, dst, n) <==> a < b < a + n)
      && (!InsideStorage(src, n) ==> b < a)
  {
    var adjusted := AdjustedSize(size);
    var g, b := MallocSpec(h, adjusted).layout, MallocSpec(h, adjusted).block;
    MallocWellFormed(h, adjusted);
    MallocLive(h, adjusted);
    AdjustedIsAligned(size);
    assert BlockOk(h, a) && BlockOk(g, b) && IsLive(g, a) && g.blocks[a] == h.blocks[a];
    assert Ordered(g.blocks, a, b) && Ordered(g.blocks, b, a);
  }

  // ---------------------------------------------------------------- short runs

  /** One block of `n` bytes between the sentinels. */
  ghost function OneBlock(n: int, used: bool): Layout {
    var e := TAGS_SIZE + n;
    Layout(map[0 := Block(TAGS_SIZE, true), TAGS_SIZE := Block(n, used), e := Block(TAGS_SIZE, true)],
           if used then [] else [TAGS_SIZE], e + TAGS_SIZE)
  }

  lemma FirstBlock(n: int)
    requires n % WORD_SIZE == 0 && MINBLOCKSIZE <= n <= MAX_HEAP - 2 * TAGS_SIZE
    ensures WellFormed(INITIAL_LAYOUT) && MallocSpec(INITIAL_LAYOUT, n) == Allocated(OneBlock(n, true), TAGS_SIZE)
  {
    InitialWellFormed();
    assert Extend(INITIAL_LAYOUT, n) == OneBlock(n, true);
  }

  lemma OneLeads(n: int)
    requires n % WORD_SIZE == 0 && MINBLOCKSIZE <= n <= MAX_HEAP - 2 * TAGS_SIZE
    ensures Leads([Allocate(n)], OneBlock(n, true))
  {
    LeadsNowhere();
    FirstBlock(n);
    AllocateLeads([], INITIAL_LAYOUT, n, OneBlock(n, true), TAGS_SIZE);
    assert [] + [Allocate(n)] == [Allocate(n)];
  }

  /** Freeing the only block leaves it free. */
  lemma OneFreed(n: int)
    requires n % WORD_SIZE == 0 && MINBLOCKSIZE <= n <= MAX_HEAP - 2 * TAGS_SIZE
    ensures Leads([Allocate(n), Release(TAGS_SIZE)], OneBlock(n, false))
  {
    var h := OneBlock(n, true);
    OneLeads(n);
    LeadsSound([Allocate(n)], h);
    assert IsLive(h, TAGS_SIZE);
    OnlyOneFreed(h, n);
    ReleaseLeads([Allocate(n)], h, TAGS_SIZE, OneBlock(n, false));
    assert [Allocate(n)] + [Release(TAGS_SIZE)] == [Allocate(n), Release(TAGS_SIZE)];
  }

  lemma OnlyOneFreed(h: Layout, n: int)
    requires WellFormed(h) && h == OneBlock(n, true) && IsLive(h, TAGS_SIZE)
    ensures FreeSpec(h, TAGS_SIZE) == OneBlock(n, false)
  {
    var g := MarkFree(h, TAGS_SIZE);
    MarkFreeSound(h, TAGS_SIZE);
    assert g == OneBlock(n, false);
    assert Prev(g, TAGS_SIZE) == 0;
  }

  /** Where a request after that is served: behind the freed block, at its top, or all of it. */
  function ServedAt(n: int, m: int): int {
    if n < m then TAGS_SIZE + n else if n - m >= MINBLOCKSIZE then TAGS_SIZE + n - m else TAGS_SIZE
  }

  lemma FreedServes(n: int, m: int)
    requires WellFormed(OneBlock(n, false)) && n % WORD_SIZE == 0 && MINBLOCKSIZE <= n && 0 < m
    ensures NoFit(OneBlock(n, false), m) <==> n < m
    ensures var r := MallocSpec(OneBlock(n, false), m);
      r.Allocated? ==> r.block == ServedAt(n, m) && forall b :: IsLive(r.layout, b) ==> b == r.block
  {
    var h := OneBlock(n, false);
    assert IsFree(h.blocks, TAGS_SIZE);
    assert FirstFit(h, m, 0) == if n < m then 1 else 0;
  }

  // ---------------------------------------------------------------- both hazards occur

  /** A heap with one block of 32 bytes, which grows to 100: source 24..127, destination 56..159. */
  lemma CopyMeets()
    ensures Leads([Allocate(32)], OneBlock(32, true)) && WellFormed(OneBlock(32, true))
    ensures !FitsInPlace(OneBlock(32, true), TAGS_SIZE, AdjustedSize(100))
    ensures var r := MallocSpec(OneBlock(32, true), AdjustedSize(100));
      r.Allocated? && RangesMeet(TAGS_SIZE + WORD_SIZE, r.block + WORD_SIZE, Align(100))
  {
    OneLeads(32);
    LeadsSound([Allocate(32)], OneBlock(32, true));
  }

  /** All storage in use: a large free block, then a live block of 32 bytes at the very end. */
  ghost function FullHeap(used: bool): Layout {
    var n := MAX_HEAP - 64;
    Layout(map[0 := Block(TAGS_SIZE, true), TAGS_SIZE := Block(n, used), TAGS_SIZE + n := Block(32, true),
               MAX_HEAP - TAGS_SIZE := Block(TAGS_SIZE, true)],
           if used then [] else [TAGS_SIZE], MAX_HEAP)
  }

  lemma FullLeads()
    ensures Leads([Allocate(MAX_HEAP - 64), Allocate(32)], FullHeap(true))
  {
    var n := MAX_HEAP - 64;
    var h, g := OneBlock(n, true), FullHeap(true);
    OneLeads(n);
    LeadsSound([Allocate(n)], h);
    assert MallocSpec(h, 32) == Allocated(Extend(h, 32), TAGS_SIZE + n);
    assert Extend(h, 32) == g;
    AllocateLeads([Allocate(n)], h, 32, g, TAGS_SIZE + n);
    assert [Allocate(n)] + [Allocate(32)] == [Allocate(n), Allocate(32)];
  }

  lemma FullFreed()
    requires WellFormed(FullHeap(true)) && IsLive(FullHeap(true), TAGS_SIZE)
    ensures FreeSpec(FullHeap(true), TAGS_SIZE) == FullHeap(false)
  {
    var h := FullHeap(true);
    var g := MarkFree(h, TAGS_SIZE);
    MarkFreeSound(h, TAGS_SIZE);
    assert g == FullHeap(false);
    assert Prev(g, TAGS_SIZE) == 0;
  }

  lemma FullFreedLeads()
    ensures Leads([Allocate(MAX_HEAP - 64), Allocate(32), Release(TAGS_SIZE)], FullHeap(false))
  {
    var run, h, g := [Allocate(MAX_HEAP - 64), Allocate(32)], FullHeap(true), FullHeap(false);
    FullLeads();
    LeadsSound(run, h);
    FullFreed();
    ReleaseLeads(run, h, TAGS_SIZE, g);
    assert run + [Release(TAGS_SIZE)] == [Allocate(MAX_HEAP - 64), Allocate(32), Release(TAGS_SIZE)];
  }

  /**
    The last block moves into the free one, and the copy of 104 bytes starts 40 bytes before the end of the storage.
   */
  lemma CopyLeaves()
    ensures Leads([Allocate(MAX_HEAP - 64), Allocate(32), Release(TAGS_SIZE)], FullHeap(false))
    ensures WellFormed(FullHeap(false))
    ensures IsLive(FullHeap(false), MAX_HEAP - 48) && !FitsInPlace(FullHeap(false), MAX_HEAP - 48, AdjustedSize(100))
    ensures MallocSpec(FullHeap(false), AdjustedSize(100)).Allocated?
    ensures !InsideStorage(MAX_HEAP - 48 + WORD_SIZE, Align(100))
  {
    FullFreedLeads();
    var g := FullHeap(false);
    LeadsSound([Allocate(MAX_HEAP - 64), Allocate(32), Release(TAGS_SIZE)], g);
    assert FirstFit(g, AdjustedSize(100), 0) == 0;
  }
}
