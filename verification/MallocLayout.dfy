/**
  The allocator's heap as an abstract layout: which blocks tile the heap, which
  of them are allocated, and in which order the free ones are linked.  Addresses
  are byte offsets from the start of the heap; sizes are in bytes and include
  both tags, as in the block headers themselves.
 */
module MallocLayout {
  import opened Sequences

  const WORD_SIZE: int := 8
  const TAGS_SIZE: int := 2 * WORD_SIZE
  const MINBLOCKSIZE: int := 4 * WORD_SIZE
  const MAX_HEAP: int := 20 * 1048576
  const INT_MAX: int := 0x7fff_ffff

  datatype Block = Block(size: int, used: bool)

  datatype Layout = Layout(blocks: map<int, Block>, free: seq<int>, brk: int)

  // ---------------------------------------------------------------- sizes

  /** Rounds up to a multiple of the word size; the mask clears the low three bits. */
  function Align(size: int): (r: int)
    ensures r % WORD_SIZE == 0
    ensures size <= r < size + WORD_SIZE
  {
    size + (WORD_SIZE - 1) - (size + (WORD_SIZE - 1)) % WORD_SIZE
  }

  lemma AlignedSum(a: int, b: int)
    requires a % WORD_SIZE == 0 && b % WORD_SIZE == 0
    ensures (a + b) % WORD_SIZE == 0 && (a + b - WORD_SIZE) % WORD_SIZE == 0
  {
  }

  lemma AlignedDifference(a: int, b: int)
    requires a % WORD_SIZE == 0 && b % WORD_SIZE == 0
    ensures (a - b) % WORD_SIZE == 0
  {
  }

  /** The whole-block size that serves a request for `size` payload bytes. */
  function AdjustedSize(size: int): (r: int)
    ensures r % WORD_SIZE == 0 && r >= MINBLOCKSIZE
    ensures size + TAGS_SIZE <= r
  {
    if Align(size + TAGS_SIZE) < MINBLOCKSIZE then MINBLOCKSIZE else Align(size + TAGS_SIZE)
  }

  /** Rounding commutes with adding the tags, so a block above the minimum has room for Align(size). */
  lemma AdjustedIsAligned(size: int)
    ensures Align(size + TAGS_SIZE) == Align(size) + TAGS_SIZE
    ensures AdjustedSize(size) > MINBLOCKSIZE ==> AdjustedSize(size) == Align(size) + TAGS_SIZE
  {
  }

  /** What C's conversion of a long to a 32-bit int does. */
  function ToInt32(n: int): (r: int)
    ensures -0x8000_0000 <= r <= INT_MAX
    ensures (n - r) % 0x1_0000_0000 == 0
  {
    (n + 0x8000_0000) % 0x1_0000_0000 - 0x8000_0000
  }

  /** mem_sbrk takes an int: a request is served as asked, or refused, exactly when this holds. */
  predicate SbrkFaithful(brk: int, adjusted: int) {
    ToInt32(adjusted) == adjusted || ToInt32(adjusted) < 0 || MAX_HEAP < brk + ToInt32(adjusted)
  }

  /** Otherwise the heap grows by less than `adjusted`, and the new block would end past all storage. */
  lemma SbrkTruncates(brk: int, adjusted: int)
    requires 0 <= brk && 0 < adjusted
    ensures adjusted <= INT_MAX ==> SbrkFaithful(brk, adjusted)
    ensures !SbrkFaithful(brk, adjusted) ==>
      0 <= ToInt32(adjusted) < adjusted && MAX_HEAP < brk + adjusted - TAGS_SIZE
  {
  }

  /** A request of 4 GB and 16 bytes on a fresh heap: the heap grows by 32 bytes. */
  lemma SbrkTruncatesWitness()
    ensures AdjustedSize(0x1_0000_0010) == 0x1_0000_0020 && ToInt32(0x1_0000_0020) == 32
    ensures !SbrkFaithful(2 * TAGS_SIZE, 0x1_0000_0020)
  {
  }

  /** No block is as large as a request that is truncated. */
  lemma TruncatedNeverFits(h: Layout, adjusted: int)
    requires WellFormed(h) && h.brk <= MAX_HEAP && INT_MAX < adjusted
    ensures NoFit(h, adjusted)
  {
    forall a | IsFree(h.blocks, a) ensures h.blocks[a].size < adjusted { assert BlockOk(h, a); }
  }

  // ---------------------------------------------------------------- well-formedness

  ghost predicate BlockOk(h: Layout, a: int)
    requires a in h.blocks
  {
    var n := h.blocks[a].size;
    && 0 <= a && a % WORD_SIZE == 0
    && n % WORD_SIZE == 0
    && TAGS_SIZE <= n
    && a + n <= h.brk
    && (a + n < h.brk ==> a + n in h.blocks)
    && (0 < a < h.brk - TAGS_SIZE ==> MINBLOCKSIZE <= n)
  }

  ghost predicate Ordered(blocks: map<int, Block>, a: int, b: int)
    requires a in blocks && b in blocks
  {
    a < b ==> a + blocks[a].size <= b
  }

  /** No two blocks overlap. */
  ghost predicate Apart(blocks: map<int, Block>) {
    forall a, b {:trigger Ordered(blocks, a, b)} :: a in blocks && b in blocks ==> Ordered(blocks, a, b)
  }

  /** The blocks run from the prologue, end to end, to an epilogue ending at brk. */
  ghost predicate Tiled(h: Layout) {
    && h.brk % WORD_SIZE == 0 && 2 * TAGS_SIZE <= h.brk <= MAX_HEAP
    && 0 in h.blocks && h.blocks[0] == Block(TAGS_SIZE, true)
    && h.brk - TAGS_SIZE in h.blocks && h.blocks[h.brk - TAGS_SIZE] == Block(TAGS_SIZE, true)
    && (forall a {:trigger BlockOk(h, a)} :: a in h.blocks ==> BlockOk(h, a))
    && Apart(h.blocks)
  }

  ghost predicate IsFree(blocks: map<int, Block>, a: int) {
    a in blocks && !blocks[a].used
  }

  /** The free list holds every free block exactly once and nothing else. */
  ghost predicate Listed(h: Layout) {
    && Distinct(h.free)
    && (forall i :: 0 <= i < |h.free| ==> IsFree(h.blocks, h.free[i]))
    && (forall a :: IsFree(h.blocks, a) ==> a in h.free)
  }

  ghost predicate Sound(h: Layout) {
    Tiled(h) && Listed(h)
  }

  /** The block at `a` is allocated, or the block after it is. */
  ghost predicate Separated(h: Layout, a: int)
    requires a in h.blocks
  {
    var n := a + h.blocks[a].size;
    h.blocks[a].used || (n in h.blocks && h.blocks[n].used)
  }

  ghost predicate NoAdjacentFree(h: Layout) {
    forall a {:trigger Separated(h, a)} :: a in h.blocks ==> Separated(h, a)
  }

  ghost predicate WellFormed(h: Layout) {
    Sound(h) && NoAdjacentFree(h)
  }

  /** A block handed out to the client: neither free nor one of the two sentinels. */
  ghost predicate IsLive(h: Layout, a: int) {
    0 < a < h.brk - TAGS_SIZE && a in h.blocks && h.blocks[a].used
  }

  // ---------------------------------------------------------------- neighbours

  /** Walking block by block from `p` cannot jump over the block at `a`. */
  lemma PrevExists(h: Layout, p: int, a: int)
    requires Tiled(h) && p in h.blocks && a in h.blocks && 0 <= p < a
    ensures exists q :: q in h.blocks && q + h.blocks[q].size == a
    decreases a - p
  {
    assert BlockOk(h, p) && BlockOk(h, a) && Ordered(h.blocks, p, a);
    if p + h.blocks[p].size != a {
      PrevExists(h, p + h.blocks[p].size, a);
    }
  }

  ghost function Prev(h: Layout, a: int): (p: int)
    requires Tiled(h) && a in h.blocks && 0 < a
    ensures p in h.blocks && p + h.blocks[p].size == a && 0 <= p < a
  {
    PrevExists(h, 0, a);
    var p :| p in h.blocks && p + h.blocks[p].size == a;
    assert BlockOk(h, p);
    p
  }

  // ---------------------------------------------------------------- layout operations

  const INITIAL_LAYOUT: Layout :=
    Layout(map[0 := Block(TAGS_SIZE, true), TAGS_SIZE := Block(TAGS_SIZE, true)], [], 2 * TAGS_SIZE)

  /** Index in the free list, from `i` on, of the first block of at least `adjusted` bytes. */
  ghost function FirstFit(h: Layout, adjusted: int, i: int): (k: int)
    requires 0 <= i <= |h.free| && Listed(h)
    ensures i <= k <= |h.free|
    ensures k < |h.free| ==> h.blocks[h.free[k]].size >= adjusted
    ensures forall j :: i <= j < k ==> h.blocks[h.free[j]].size < adjusted
    decreases |h.free| - i
  {
    if i == |h.free| || h.blocks[h.free[i]].size >= adjusted then i
    else FirstFit(h, adjusted, i + 1)
  }

  /** Free part at the low end, allocated part on top. */
  ghost function Split(h: Layout, c: int, adjusted: int): Layout
    requires c in h.free && c in h.blocks
  {
    var rest := h.blocks[c].size - adjusted;
    h.(blocks := h.blocks[c := Block(rest, false)][c + rest := Block(adjusted, true)],
       free := [c] + Without(h.free, c))
  }

  ghost function Take(h: Layout, c: int): Layout
    requires c in h.free && c in h.blocks
  {
    h.(blocks := h.blocks[c := Block(h.blocks[c].size, true)], free := Without(h.free, c))
  }

  /** The old epilogue becomes the new block; a new epilogue follows it. */
  ghost function Extend(h: Layout, adjusted: int): Layout {
    var e := h.brk - TAGS_SIZE;
    Layout(h.blocks[e := Block(adjusted, true)][e + adjusted := Block(TAGS_SIZE, true)],
           h.free, h.brk + adjusted)
  }

  /** Block `x` swallows the free block `y` that follows it. */
  ghost function Merge(h: Layout, x: int, y: int): Layout
    requires x in h.blocks && y in h.blocks && y in h.free
  {
    h.(blocks := (h.blocks - {y})[x := Block(h.blocks[x].size + h.blocks[y].size, h.blocks[x].used)],
       free := Without(h.free, y))
  }

  ghost function MarkFree(h: Layout, a: int): Layout
    requires a in h.blocks
  {
    h.(blocks := h.blocks[a := Block(h.blocks[a].size, false)], free := [a] + h.free)
  }

  lemma SplitApart(blocks: map<int, Block>, c: int, rest: int, adjusted: int)
    requires Apart(blocks) && c in blocks && 0 < rest && 0 < adjusted && blocks[c].size == rest + adjusted
    ensures c + rest !in blocks
    ensures Apart(blocks[c := Block(rest, false)][c + rest := Block(adjusted, true)])
  {
    var n := c + rest;
    assert n in blocks ==> Ordered(blocks, c, n);
    var after := blocks[c := Block(rest, false)][n := Block(adjusted, true)];
    forall a, b {:trigger Ordered(after, a, b)} | a in after && b in after
      ensures Ordered(after, a, b)
    {
      var a', b' := if a == n then c else a, if b == n then c else b;
      assert Ordered(blocks, a', b') && Ordered(blocks, c, a');
    }
  }

  lemma ShrinkApart(blocks: map<int, Block>, c: int, b: Block)
    requires Apart(blocks) && c in blocks && b.size <= blocks[c].size
    ensures Apart(blocks[c := b])
  {
    var after := blocks[c := b];
    forall x, y {:trigger Ordered(after, x, y)} | x in after && y in after
      ensures Ordered(after, x, y)
    {
      assert Ordered(blocks, x, y);
    }
  }

  lemma LastApart(blocks: map<int, Block>, e: int, b: Block)
    requires Apart(blocks) && e in blocks
    requires forall a :: a in blocks ==> a <= e
    ensures Apart(blocks[e := b])
  {
    var after := blocks[e := b];
    forall x, y {:trigger Ordered(after, x, y)} | x in after && y in after
      ensures Ordered(after, x, y)
    {
      assert Ordered(blocks, x, y);
    }
  }

  lemma ExtendApart(blocks: map<int, Block>, e: int, adjusted: int)
    requires Apart(blocks) && e in blocks && 0 < adjusted
    requires forall a :: a in blocks ==> a <= e
    ensures Apart(blocks[e := Block(adjusted, true)][e + adjusted := Block(TAGS_SIZE, true)])
  {
    var after := blocks[e := Block(adjusted, true)][e + adjusted := Block(TAGS_SIZE, true)];
    forall a, b {:trigger Ordered(after, a, b)} | a in after && b in after
      ensures Ordered(after, a, b)
    {
      var a', b' := if a == e + adjusted then e else a, if b == e + adjusted then e else b;
      assert Ordered(blocks, a', b');
    }
  }

  lemma MergeApart(blocks: map<int, Block>, x: int, y: int, used: bool)
    requires Apart(blocks) && x in blocks && y in blocks && x < y == x + blocks[x].size
    ensures Apart((blocks - {y})[x := Block(blocks[x].size + blocks[y].size, used)])
  {
    var after := (blocks - {y})[x := Block(blocks[x].size + blocks[y].size, used)];
    forall a, b {:trigger Ordered(after, a, b)} | a in after && b in after
      ensures Ordered(after, a, b)
    {
      assert Ordered(blocks, a, b) && Ordered(blocks, x, b) && Ordered(blocks, y, b);
    }
  }

  lemma SplitBlock(h: Layout, c: int, adjusted: int, a: int)
    requires WellFormed(h) && c in h.free && IsFree(h.blocks, c)
    requires adjusted % WORD_SIZE == 0 && MINBLOCKSIZE <= adjusted
    requires MINBLOCKSIZE <= h.blocks[c].size - adjusted
    requires a in Split(h, c, adjusted).blocks
    ensures BlockOk(Split(h, c, adjusted), a) && Separated(Split(h, c, adjusted), a)
  {
    assert BlockOk(h, c) && Separated(h, c) && Ordered(h.blocks, c, h.brk - TAGS_SIZE);
    AlignedDifference(h.blocks[c].size, adjusted);
    AlignedSum(c, h.blocks[c].size - adjusted);
    if a in h.blocks {
      assert BlockOk(h, a) && Separated(h, a);
    }
  }

  lemma SplitListed(h: Layout, c: int, adjusted: int)
    requires Listed(h) && c in h.free && IsFree(h.blocks, c)
    requires c + h.blocks[c].size - adjusted !in h.blocks
    ensures Listed(Split(h, c, adjusted))
  {
    var g := Split(h, c, adjusted);
    WithoutDistinct(h.free, c);
    forall i | 0 <= i < |g.free|
      ensures IsFree(g.blocks, g.free[i])
    {
      assert g.free[i] in h.free;
    }
    forall a | IsFree(g.blocks, a)
      ensures a in g.free
    {
      assert IsFree(h.blocks, a);
    }
  }

  lemma SplitSound(h: Layout, c: int, adjusted: int)
    requires WellFormed(h) && c in h.free && IsFree(h.blocks, c)
    requires adjusted % WORD_SIZE == 0 && MINBLOCKSIZE <= adjusted
    requires MINBLOCKSIZE <= h.blocks[c].size - adjusted
    ensures WellFormed(Split(h, c, adjusted))
    ensures IsLive(Split(h, c, adjusted), c + h.blocks[c].size - adjusted)
  {
    assert BlockOk(h, c) && Ordered(h.blocks, c, h.brk - TAGS_SIZE);
    var g := Split(h, c, adjusted);
    SplitApart(h.blocks, c, h.blocks[c].size - adjusted, adjusted);
    forall a {:trigger BlockOk(g, a)} {:trigger Separated(g, a)} | a in g.blocks
      ensures BlockOk(g, a)
      ensures Separated(g, a)
    {
      SplitBlock(h, c, adjusted, a);
    }
    SplitListed(h, c, adjusted);
  }

  lemma TakeSound(h: Layout, c: int)
    requires WellFormed(h) && c in h.free && IsFree(h.blocks, c)
    ensures WellFormed(Take(h, c))
    ensures IsLive(Take(h, c), c)
  {
    assert BlockOk(h, c) && Ordered(h.blocks, c, h.brk - TAGS_SIZE);
    var g := Take(h, c);
    forall a {:trigger BlockOk(g, a)} {:trigger Separated(g, a)} | a in g.blocks
      ensures BlockOk(g, a)
      ensures Separated(g, a)
    {
      assert BlockOk(h, a) && Separated(h, a);
    }
    ShrinkApart(h.blocks, c, g.blocks[c]);
    assert Listed(g) by {
      WithoutDistinct(h.free, c);
      forall a | IsFree(g.blocks, a)
        ensures a in g.free
      {
        assert IsFree(h.blocks, a);
      }
    }
  }

  lemma ExtendBlock(h: Layout, adjusted: int, a: int)
    requires WellFormed(h)
    requires adjusted % WORD_SIZE == 0 && MINBLOCKSIZE <= adjusted && h.brk + adjusted <= MAX_HEAP
    requires a in Extend(h, adjusted).blocks
    ensures BlockOk(Extend(h, adjusted), a) && Separated(Extend(h, adjusted), a)
  {
    if a in h.blocks {
      assert BlockOk(h, a) && Separated(h, a) && Ordered(h.blocks, a, h.brk - TAGS_SIZE);
    }
  }

  lemma ExtendSound(h: Layout, adjusted: int)
    requires WellFormed(h)
    requires adjusted % WORD_SIZE == 0 && MINBLOCKSIZE <= adjusted && h.brk + adjusted <= MAX_HEAP
    ensures WellFormed(Extend(h, adjusted))
    ensures IsLive(Extend(h, adjusted), h.brk - TAGS_SIZE)
  {
    var e := h.brk - TAGS_SIZE;
    var g := Extend(h, adjusted);
    forall a | a in h.blocks
      ensures a <= e
    {
      assert BlockOk(h, a);
    }
    ExtendApart(h.blocks, e, adjusted);
    forall a {:trigger BlockOk(g, a)} {:trigger Separated(g, a)} | a in g.blocks
      ensures BlockOk(g, a)
      ensures Separated(g, a)
    {
      ExtendBlock(h, adjusted, a);
    }
    assert Listed(g) by {
      forall i | 0 <= i < |g.free|
        ensures IsFree(g.blocks, g.free[i])
      {
        assert IsFree(h.blocks, h.free[i]);
      }
      forall a | IsFree(g.blocks, a)
        ensures a in g.free
      {
        assert IsFree(h.blocks, a);
      }
    }
  }

  lemma MergeBlock(h: Layout, x: int, y: int, a: int)
    requires Sound(h) && x in h.blocks && y in h.free && IsFree(h.blocks, y) && y == x + h.blocks[x].size
    requires 0 < x
    requires a in Merge(h, x, y).blocks
    ensures BlockOk(Merge(h, x, y), a)
  {
    assert BlockOk(h, x) && BlockOk(h, y) && BlockOk(h, a);
    assert Ordered(h.blocks, a, x) && Ordered(h.blocks, a, y);
    assert Ordered(h.blocks, x, a) && Ordered(h.blocks, y, a);
  }

  lemma MergeListed(h: Layout, x: int, y: int)
    requires Listed(h) && x in h.blocks && y in h.free && IsFree(h.blocks, y) && x != y
    ensures Listed(Merge(h, x, y))
  {
    var g := Merge(h, x, y);
    WithoutDistinct(h.free, y);
    forall i | 0 <= i < |g.free|
      ensures IsFree(g.blocks, g.free[i])
    {
      assert g.free[i] in h.free && IsFree(h.blocks, g.free[i]);
    }
    forall a | IsFree(g.blocks, a)
      ensures a in g.free
    {
      assert IsFree(h.blocks, a);
    }
  }

  lemma MergeSound(h: Layout, x: int, y: int)
    requires Sound(h) && x in h.blocks && y in h.free && IsFree(h.blocks, y) && y == x + h.blocks[x].size
    requires 0 < x
    ensures Sound(Merge(h, x, y))
  {
    assert BlockOk(h, x) && BlockOk(h, y);
    var g := Merge(h, x, y);
    MergeApart(h.blocks, x, y, h.blocks[x].used);
    forall a {:trigger BlockOk(g, a)} | a in g.blocks
      ensures BlockOk(g, a)
    {
      MergeBlock(h, x, y, a);
    }
    MergeListed(h, x, y);
  }

  lemma MarkFreeSound(h: Layout, a: int)
    requires Sound(h) && IsLive(h, a)
    ensures Sound(MarkFree(h, a))
  {
    var g := MarkFree(h, a);
    forall b {:trigger BlockOk(g, b)} | b in g.blocks
      ensures BlockOk(g, b)
    {
      assert BlockOk(h, b);
    }
    ShrinkApart(h.blocks, a, g.blocks[a]);
    assert Listed(g) by {
      forall b | IsFree(g.blocks, b)
        ensures b in g.free
      {
        assert b != a ==> IsFree(h.blocks, b);
      }
    }
  }

  lemma InitialWellFormed()
    ensures WellFormed(INITIAL_LAYOUT)
  {
    var h := INITIAL_LAYOUT;
    assert forall a {:trigger BlockOk(h, a)} :: a in h.blocks ==> BlockOk(h, a);
    assert forall a {:trigger Separated(h, a)} :: a in h.blocks ==> Separated(h, a);
    assert forall a, b {:trigger Ordered(h.blocks, a, b)} :: a in h.blocks && b in h.blocks ==> Ordered(h.blocks, a, b);
  }

  // ---------------------------------------------------------------- the three entry points

  /** The layout after a request for `adjusted` bytes, and the block it is served from. */
  datatype Allocation = Allocated(layout: Layout, block: int) | OutOfMemory

  ghost function MallocSpec(h: Layout, adjusted: int): Allocation
    requires WellFormed(h)
  {
    var k := FirstFit(h, adjusted, 0);
    if k < |h.free| then
      var c := h.free[k];
      if h.blocks[c].size - adjusted >= MINBLOCKSIZE then
        Allocated(Split(h, c, adjusted), c + h.blocks[c].size - adjusted)
      else
        Allocated(Take(h, c), c)
    else if h.brk + adjusted <= MAX_HEAP then
      Allocated(Extend(h, adjusted), h.brk - TAGS_SIZE)
    else
      OutOfMemory
  }

  /** The free block `a` joins its predecessor if that one is free. */
  ghost function JoinPrev(h: Layout, a: int): Layout
    requires Sound(h) && IsFree(h.blocks, a) && 0 < a
  {
    if IsFree(h.blocks, Prev(h, a)) then Merge(h, Prev(h, a), a) else h
  }

  /** The free block `a` swallows its successor if that one is free. */
  ghost function JoinNext(h: Layout, a: int): Layout
    requires Listed(h) && a in h.blocks
  {
    var n := a + h.blocks[a].size;
    if IsFree(h.blocks, n) then Merge(h, a, n) else h
  }

  /** Merge with a free predecessor, then with a free successor. */
  ghost function Coalesce(h: Layout, a: int): Layout
    requires Sound(h) && IsFree(h.blocks, a) && 0 < a
  {
    if IsFree(h.blocks, Prev(h, a)) then
      assert BlockOk(h, Prev(h, a));
      MergeSound(h, Prev(h, a), a);
      JoinNext(JoinPrev(h, a), Prev(h, a))
    else
      JoinNext(h, a)
  }

  ghost function FreeSpec(h: Layout, a: int): Layout
    requires WellFormed(h) && IsLive(h, a)
  {
    MarkFreeSound(h, a);
    Coalesce(MarkFree(h, a), a)
  }

  ghost predicate SeparatedExcept(h: Layout, x: int) {
    forall b {:trigger Separated(h, b)} :: b in h.blocks && b != x ==> Separated(h, b)
  }

  /** Merging keeps every other block separated from its successor. */
  lemma MergeSeparated(h: Layout, x: int, y: int)
    requires Sound(h) && x in h.blocks && y in h.free && IsFree(h.blocks, y) && y == x + h.blocks[x].size
    requires 0 < x
    requires forall b {:trigger Separated(h, b)} :: b in h.blocks && b != x && b != y ==> Separated(h, b)
    ensures SeparatedExcept(Merge(h, x, y), x)
  {
    var g := Merge(h, x, y);
    assert BlockOk(h, x);
    forall b {:trigger Separated(g, b)} | b in g.blocks && b != x
      ensures Separated(g, b)
    {
      assert Separated(h, b) && BlockOk(h, b);
      assert Ordered(h.blocks, b, x) && Ordered(h.blocks, x, b) && Ordered(h.blocks, b, y);
    }
  }

  lemma JoinNextWellFormed(h: Layout, a: int)
    requires Sound(h) && IsFree(h.blocks, a) && 0 < a && SeparatedExcept(h, a)
    ensures WellFormed(JoinNext(h, a))
  {
    var n := a + h.blocks[a].size;
    assert BlockOk(h, a) && Ordered(h.blocks, a, h.brk - TAGS_SIZE);
    assert BlockOk(h, n) && Separated(h, n);
    if IsFree(h.blocks, n) {
      MergeSound(h, a, n);
      MergeSeparated(h, a, n);
      assert Separated(Merge(h, a, n), a);
    } else {
      assert Separated(h, a);
    }
  }

  /** One free block with possibly free neighbours: coalescing separates everything again. */
  lemma CoalesceWellFormed(h: Layout, a: int)
    requires Sound(h) && IsFree(h.blocks, a) && 0 < a
    requires forall b {:trigger Separated(h, b)} :: b in h.blocks && b != a && b != Prev(h, a) ==> Separated(h, b)
    ensures WellFormed(Coalesce(h, a))
  {
    var p := Prev(h, a);
    assert BlockOk(h, p);
    if IsFree(h.blocks, p) {
      MergeSound(h, p, a);
      MergeSeparated(h, p, a);
      JoinNextWellFormed(Merge(h, p, a), p);
    } else {
      assert Separated(h, p);
      JoinNextWellFormed(h, a);
    }
  }

  /** Freeing a live block: the heap stays tiled, the list stays exact, no two free blocks touch. */
  lemma FreeWellFormed(h: Layout, a: int)
    requires WellFormed(h) && IsLive(h, a)
    ensures WellFormed(FreeSpec(h, a))
  {
    MarkFreeSound(h, a);
    var g := MarkFree(h, a);
    var n := a + h.blocks[a].size;
    assert BlockOk(h, a) && Ordered(h.blocks, a, h.brk - TAGS_SIZE) && Separated(h, n);
    var p := Prev(g, a);
    forall b {:trigger Separated(g, b)} | b in g.blocks && b != a && b != p
      ensures Separated(g, b)
    {
      assert Separated(h, b) && BlockOk(h, b);
      assert Ordered(g.blocks, b, p) && Ordered(g.blocks, p, b);
    }
    assert Separated(g, n);
    CoalesceWellFormed(g, a);
  }

  lemma MallocWellFormed(h: Layout, adjusted: int)
    requires WellFormed(h) && adjusted % WORD_SIZE == 0 && MINBLOCKSIZE <= adjusted
    ensures var r := MallocSpec(h, adjusted);
      r.Allocated? ==> WellFormed(r.layout) && IsLive(r.layout, r.block)
  {
    var k := FirstFit(h, adjusted, 0);
    if k < |h.free| {
      var c := h.free[k];
      assert BlockOk(h, c);
      if h.blocks[c].size - adjusted >= MINBLOCKSIZE {
        SplitSound(h, c, adjusted);
      } else {
        TakeSound(h, c);
      }
    } else if h.brk + adjusted <= MAX_HEAP {
      ExtendSound(h, adjusted);
    }
  }

  ghost predicate NoFit(h: Layout, adjusted: int) {
    forall a :: IsFree(h.blocks, a) ==> h.blocks[a].size < adjusted
  }

  /** First fit: the heap grows only if no free block is large enough, and then by exactly the block. */
  lemma MallocOutcome(h: Layout, adjusted: int)
    requires WellFormed(h) && 0 < adjusted
    ensures MallocSpec(h, adjusted).OutOfMemory? <==> NoFit(h, adjusted) && MAX_HEAP < h.brk + adjusted
    ensures MallocSpec(h, adjusted).Allocated? ==>
      var g := MallocSpec(h, adjusted).layout;
      g.brk == if NoFit(h, adjusted) then h.brk + adjusted else h.brk
    ensures !NoFit(h, adjusted) ==> exists k ::
      && 0 <= k < |h.free| && h.blocks[h.free[k]].size >= adjusted
      && (forall j :: 0 <= j < k ==> h.blocks[h.free[j]].size < adjusted)
      && MallocSpec(h, adjusted).Allocated?
      && h.free[k] <= MallocSpec(h, adjusted).block < h.free[k] + h.blocks[h.free[k]].size
  {
    var k := FirstFit(h, adjusted, 0);
    if k == |h.free| {
      forall a | IsFree(h.blocks, a)
        ensures h.blocks[a].size < adjusted
      {
        assert a in h.free;
      }
    } else {
      assert IsFree(h.blocks, h.free[k]);
    }
  }

  /** The live blocks of `g` are those of `h` without `gone` and with `come`, and the others keep their size. */
  ghost predicate LiveChange(h: Layout, g: Layout, gone: int, come: int) {
    && (forall x {:trigger IsLive(h, x)} {:trigger IsLive(g, x)} ::
          x != gone && x != come ==> (IsLive(g, x) <==> IsLive(h, x)))
    && (forall x {:trigger IsLive(h, x)} {:trigger IsLive(g, x)} ::
          x != gone && x != come && IsLive(h, x) ==> g.blocks[x] == h.blocks[x])
  }

  lemma SplitLive(h: Layout, c: int, adjusted: int)
    requires WellFormed(h) && c in h.free && IsFree(h.blocks, c)
    requires 0 < adjusted < h.blocks[c].size
    ensures var n := c + h.blocks[c].size - adjusted;
      LiveChange(h, Split(h, c, adjusted), n, n) && !IsLive(h, n)
  {
    var n := c + h.blocks[c].size - adjusted;
    SplitApart(h.blocks, c, h.blocks[c].size - adjusted, adjusted);
  }

  lemma ExtendLive(h: Layout, adjusted: int)
    requires WellFormed(h) && 0 < adjusted
    ensures var e := h.brk - TAGS_SIZE;
      LiveChange(h, Extend(h, adjusted), e, e) && !IsLive(h, e)
  {
    var g := Extend(h, adjusted);
    forall x | x in h.blocks
      ensures x <= h.brk - TAGS_SIZE
    {
      assert BlockOk(h, x);
    }
  }

  /** malloc hands out a block that was not live, and touches no live block. */
  lemma MallocLive(h: Layout, adjusted: int)
    requires WellFormed(h) && adjusted % WORD_SIZE == 0 && MINBLOCKSIZE <= adjusted
    ensures var r := MallocSpec(h, adjusted);
      r.Allocated? ==>
        && !IsLive(h, r.block) && IsLive(r.layout, r.block)
        && adjusted <= r.layout.blocks[r.block].size < adjusted + MINBLOCKSIZE
        && LiveChange(h, r.layout, r.block, r.block)
  {
    MallocWellFormed(h, adjusted);
    var k := FirstFit(h, adjusted, 0);
    if k < |h.free| {
      var c := h.free[k];
      if h.blocks[c].size - adjusted >= MINBLOCKSIZE {
        SplitLive(h, c, adjusted);
      }
    } else if h.brk + adjusted <= MAX_HEAP {
      ExtendLive(h, adjusted);
    }
  }

  lemma MergeLive(h: Layout, x: int, y: int)
    requires Sound(h) && x in h.blocks && y in h.free && IsFree(h.blocks, y) && y == x + h.blocks[x].size
    ensures LiveChange(h, Merge(h, x, y), x, x)
    ensures IsLive(h, x) <==> IsLive(Merge(h, x, y), x)
  {
  }

  ghost predicate SameLive(h: Layout, g: Layout) {
    && (forall x {:trigger IsLive(h, x)} {:trigger IsLive(g, x)} :: IsLive(g, x) <==> IsLive(h, x))
    && (forall x {:trigger IsLive(h, x)} {:trigger IsLive(g, x)} :: IsLive(h, x) ==> g.blocks[x] == h.blocks[x])
  }

  /** Merging two free blocks changes nothing about live ones. */
  lemma MergeFreeLive(h: Layout, x: int, y: int)
    requires IsFree(h.blocks, x) && IsFree(h.blocks, y) && y in h.free && x != y
    ensures SameLive(h, Merge(h, x, y))
  {
  }

  lemma JoinNextLive(h: Layout, a: int)
    requires Listed(h) && IsFree(h.blocks, a) && 0 < h.blocks[a].size
    ensures SameLive(h, JoinNext(h, a))
  {
    var n := a + h.blocks[a].size;
    if IsFree(h.blocks, n) {
      MergeFreeLive(h, a, n);
    }
  }

  lemma CoalesceLive(h: Layout, a: int)
    requires Sound(h) && IsFree(h.blocks, a) && 0 < a
    ensures SameLive(h, Coalesce(h, a))
  {
    var p := Prev(h, a);
    assert BlockOk(h, p) && BlockOk(h, a);
    if IsFree(h.blocks, p) {
      MergeSound(h, p, a);
      MergeFreeLive(h, p, a);
      JoinNextLive(Merge(h, p, a), p);
      SameLiveTrans(h, Merge(h, p, a), JoinNext(Merge(h, p, a), p));
    } else {
      JoinNextLive(h, a);
    }
  }

  lemma SameLiveTrans(h: Layout, g: Layout, f: Layout)
    requires SameLive(h, g) && SameLive(g, f)
    ensures SameLive(h, f)
  {
    forall x {:trigger IsLive(h, x)} {:trigger IsLive(f, x)}
      ensures IsLive(f, x) <==> IsLive(h, x)
      ensures IsLive(h, x) ==> f.blocks[x] == h.blocks[x]
    {
      assert IsLive(g, x) <==> IsLive(h, x);
    }
  }

  /** free removes exactly one live block. */
  lemma FreeLive(h: Layout, a: int)
    requires WellFormed(h) && IsLive(h, a)
    ensures LiveChange(h, FreeSpec(h, a), a, a) && !IsLive(FreeSpec(h, a), a)
  {
    MarkFreeSound(h, a);
    var g := MarkFree(h, a);
    CoalesceLive(g, a);
    FreedLive(h, g, Coalesce(g, a), a);
  }

  lemma FreedLive(h: Layout, g: Layout, f: Layout, a: int)
    requires a in h.blocks && g == MarkFree(h, a) && SameLive(g, f)
    ensures LiveChange(h, f, a, a) && !IsLive(f, a)
  {
    assert !IsLive(g, a);
    forall x | x != a
      ensures IsLive(f, x) <==> IsLive(h, x)
      ensures IsLive(h, x) ==> f.blocks[x] == h.blocks[x]
    {
      assert IsLive(g, x) <==> IsLive(h, x);
    }
  }

  lemma GrowWellFormed(h: Layout, a: int)
    requires WellFormed(h) && IsLive(h, a) && IsFree(h.blocks, a + h.blocks[a].size)
    ensures WellFormed(Merge(h, a, a + h.blocks[a].size))
    ensures IsLive(Merge(h, a, a + h.blocks[a].size), a)
  {
    var n := a + h.blocks[a].size;
    assert BlockOk(h, a);
    MergeSound(h, a, n);
    MergeSeparated(h, a, n);
    assert Separated(Merge(h, a, n), a);
  }

  /** The block after `a` is free and large enough for `a` to grow to `adjusted` bytes. */
  ghost predicate FitsNext(h: Layout, a: int, adjusted: int)
    requires a in h.blocks
  {
    var n := a + h.blocks[a].size;
    IsFree(h.blocks, n) && adjusted <= h.blocks[a].size + h.blocks[n].size
  }

  ghost predicate FitsInPlace(h: Layout, a: int, adjusted: int)
    requires a in h.blocks
  {
    adjusted <= h.blocks[a].size || FitsNext(h, a, adjusted)
  }

  /** A block can be resized in place exactly if it would be large enough once freed, its predecessor being in use. */
  lemma FitsAsIfFreed(h: Layout, a: int, adjusted: int)
    requires WellFormed(h) && IsLive(h, a) && h.blocks[Prev(h, a)].used
    ensures a in FreeSpec(h, a).blocks
    ensures FitsInPlace(h, a, adjusted) <==> adjusted <= FreeSpec(h, a).blocks[a].size
  {
    MarkFreeSound(h, a);
    var g := MarkFree(h, a);
    PrevSame(h, g, a);
    assert BlockOk(h, a);
    assert FreeSpec(h, a) == JoinNext(g, a);
    var n := a + h.blocks[a].size;
    assert n != a && g.blocks[a].size == h.blocks[a].size && (IsFree(g.blocks, n) <==> IsFree(h.blocks, n));
    if IsFree(h.blocks, n) {
      assert g.blocks[n] == h.blocks[n] && BlockOk(h, n);
    }
  }

  lemma PrevSame(h: Layout, g: Layout, a: int)
    requires Tiled(h) && Tiled(g) && 0 < a && a in h.blocks && g == MarkFree(h, a)
    ensures Prev(g, a) == Prev(h, a)
  {
    var p, q := Prev(h, a), Prev(g, a);
    assert Ordered(h.blocks, p, q) && Ordered(h.blocks, q, p);
  }

  /**
    The first block that fits gives up its top, if at least a minimal block remains, and then leads the list; else it
    goes whole.
   */
  lemma ServedPart(h: Layout, adjusted: int, k: int)
    requires WellFormed(h) && 0 < adjusted && 0 <= k < |h.free| && adjusted <= h.blocks[h.free[k]].size
    requires forall j :: 0 <= j < k ==> h.blocks[h.free[j]].size < adjusted
    ensures var c, r := h.free[k], MallocSpec(h, adjusted);
      var size := h.blocks[c].size;
      && r.Allocated?
      && (if size - adjusted >= 32 then
            && r.block == c + size - adjusted && r.layout.free != [] && r.layout.free[0] == c
            && r.layout.blocks == h.blocks[c := Block(size - adjusted, false)][r.block := Block(adjusted, true)]
          else r.block == c && r.layout.blocks == h.blocks[c := Block(size, true)])
  {
    var i := FirstFit(h, adjusted, 0);
    assert i == k;
  }

  /** What is left of the free list when the block at `n` is swallowed, if it is free. */
  ghost function WithoutNext(h: Layout, n: int): seq<int> {
    if n in h.free then Without(h.free, n) else h.free
  }

  /** A freed block goes to the front of the list, without a free successor, which it swallows. */
  lemma FreedFirst(h: Layout, a: int)
    requires WellFormed(h) && IsLive(h, a) && h.blocks[Prev(h, a)].used
    ensures FreeSpec(h, a).free == [a] + WithoutNext(h, a + h.blocks[a].size)
  {
    MarkFreeSound(h, a);
    var g := MarkFree(h, a);
    PrevSame(h, g, a);
    assert BlockOk(h, a);
    JoinNextList(h, g, a);
    assert FreeSpec(h, a) == JoinNext(g, a);
  }

  /** What was freed last is handed out first, if it is large enough. */
  lemma LastFreedFirst(h: Layout, a: int, adjusted: int)
    requires WellFormed(h) && IsLive(h, a) && h.blocks[Prev(h, a)].used && FitsInPlace(h, a, adjusted) && 0 < adjusted
    ensures var f := FreeSpec(h, a);
      && WellFormed(f) && a in f.blocks && MallocSpec(f, adjusted).Allocated?
      && a <= MallocSpec(f, adjusted).block < a + f.blocks[a].size
  {
    FitsAsIfFreed(h, a, adjusted);
    FreedFirst(h, a);
    FreeWellFormed(h, a);
    ServedFirst(FreeSpec(h, a), a, adjusted);
  }

  lemma ServedFirst(f: Layout, a: int, adjusted: int)
    requires WellFormed(f) && f.free != [] && f.free[0] == a && a in f.blocks && adjusted <= f.blocks[a].size
    ensures MallocSpec(f, adjusted).Allocated?
    ensures 0 < adjusted ==> a <= MallocSpec(f, adjusted).block < a + f.blocks[a].size
  {
    assert FirstFit(f, adjusted, 0) == 0;
    assert BlockOk(f, a);
  }

  lemma JoinNextList(h: Layout, g: Layout, a: int)
    requires Listed(h) && Listed(g) && a in h.blocks && h.blocks[a].used && 0 < h.blocks[a].size && g == MarkFree(h, a)
    ensures JoinNext(g, a).free == [a] + WithoutNext(h, a + h.blocks[a].size)
  {
    var n := a + h.blocks[a].size;
    NotListed(h, a);
    FreeIsListed(h, n);
    assert IsFree(g.blocks, n) <==> IsFree(h.blocks, n);
    if n in h.free {
      WithoutLater(h.free, a, n);
    }
  }

  lemma NotListed(h: Layout, a: int)
    requires Listed(h) && a in h.blocks && h.blocks[a].used
    ensures a !in h.free
  {
  }

  lemma FreeIsListed(h: Layout, a: int)
    requires Listed(h)
    ensures IsFree(h.blocks, a) <==> a in h.free
  {
  }

  // ---------------------------------------------------------------- the heap as a whole

  /** The blocks met by stepping from `a` to the end of the heap, size by size. */
  ghost function Walk(h: Layout, a: int): (w: seq<int>)
    requires Tiled(h) && (a in h.blocks || a == h.brk)
    ensures forall i :: 0 <= i < |w| ==> w[i] in h.blocks && a <= w[i]
    decreases h.brk - a
  {
    if a in h.blocks then
      assert BlockOk(h, a);
      [a] + Walk(h, a + h.blocks[a].size)
    else []
  }

  ghost function TotalSize(h: Layout, w: seq<int>): int
    requires forall i :: 0 <= i < |w| ==> w[i] in h.blocks
  {
    if w == [] then 0 else h.blocks[w[0]].size + TotalSize(h, w[1..])
  }

  lemma {:induction false} WalkTotal(h: Layout, a: int)
    requires Tiled(h) && (a in h.blocks || a == h.brk)
    ensures TotalSize(h, Walk(h, a)) == h.brk - a
    decreases h.brk - a
  {
    if a in h.blocks {
      assert BlockOk(h, a);
      WalkTotal(h, a + h.blocks[a].size);
      assert Walk(h, a)[1..] == Walk(h, a + h.blocks[a].size);
    } else {
      assert Walk(h, a) == [];
    }
  }

  lemma {:induction false} WalkReaches(h: Layout, a: int, b: int)
    requires Tiled(h) && a in h.blocks && b in h.blocks && a <= b
    ensures b in Walk(h, a)
    decreases h.brk - a
  {
    assert BlockOk(h, a) && BlockOk(h, b) && Ordered(h.blocks, a, b);
    if a < b {
      WalkReaches(h, a + h.blocks[a].size, b);
    }
  }

  lemma {:induction false} WalkIncreases(h: Layout, a: int)
    requires Tiled(h) && (a in h.blocks || a == h.brk)
    ensures forall i, j :: 0 <= i < j < |Walk(h, a)| ==> Walk(h, a)[i] < Walk(h, a)[j]
    decreases h.brk - a
  {
    if a in h.blocks {
      assert BlockOk(h, a);
      WalkIncreases(h, a + h.blocks[a].size);
    }
  }

  /** The blocks tile the heap: walked from the prologue each is met once, and their sizes sum to the heap size. */
  lemma SizesSumToHeap(h: Layout)
    requires Tiled(h)
    ensures forall b :: b in Walk(h, 0) <==> b in h.blocks
    ensures forall i, j :: 0 <= i < j < |Walk(h, 0)| ==> Walk(h, 0)[i] < Walk(h, 0)[j]
    ensures TotalSize(h, Walk(h, 0)) == h.brk
  {
    WalkTotal(h, 0);
    WalkIncreases(h, 0);
    forall b | b in h.blocks
      ensures b in Walk(h, 0)
    {
      assert BlockOk(h, b);
      WalkReaches(h, 0, b);
    }
  }

  /** The driver's range checks: aligned, inside the heap, disjoint from every other live payload. */
  lemma RangeChecksPass(h: Layout, a: int, size: int)
    requires WellFormed(h) && IsLive(h, a) && 0 < size <= h.blocks[a].size - TAGS_SIZE
    ensures var lo, hi := a + WORD_SIZE, a + WORD_SIZE + size - 1;
      && lo % WORD_SIZE == 0 && 0 <= lo <= hi <= h.brk - 1
      && (forall b {:trigger IsLive(h, b)} :: IsLive(h, b) && b != a ==>
            hi < b + WORD_SIZE || b + h.blocks[b].size - WORD_SIZE <= lo)
  {
    assert BlockOk(h, a);
    AlignedSum(a, WORD_SIZE);
    forall b {:trigger IsLive(h, b)} | IsLive(h, b) && b != a
      ensures a + WORD_SIZE + size - 1 < b + WORD_SIZE || b + h.blocks[b].size - WORD_SIZE <= a + WORD_SIZE
    {
      assert Ordered(h.blocks, a, b) && Ordered(h.blocks, b, a);
    }
  }

  /** With no live block left, everything between the sentinels is one free block. */
  lemma AllFreed(h: Layout)
    requires WellFormed(h) && forall a :: !IsLive(h, a)
    ensures h.brk == 2 * TAGS_SIZE ==> h == INITIAL_LAYOUT
    ensures h.brk != 2 * TAGS_SIZE ==>
      && h.free == [TAGS_SIZE]
      && h.blocks == map[0 := Block(TAGS_SIZE, true),
                         TAGS_SIZE := Block(h.brk - 2 * TAGS_SIZE, false),
                         h.brk - TAGS_SIZE := Block(TAGS_SIZE, true)]
  {
    assert |h.free| > 1 ==> h.free[0] != h.free[1];
    var e := h.brk - TAGS_SIZE;
    assert BlockOk(h, 0);
    assert BlockOk(h, TAGS_SIZE) && Separated(h, TAGS_SIZE);
    var n := TAGS_SIZE + h.blocks[TAGS_SIZE].size;
    assert !IsLive(h, TAGS_SIZE);
    if TAGS_SIZE != e {
      assert Ordered(h.blocks, TAGS_SIZE, e);
      assert !IsLive(h, n);
      assert n == e;
    }
    forall b | b in h.blocks
      ensures b == 0 || b == TAGS_SIZE || b == e
    {
      assert BlockOk(h, b) && Ordered(h.blocks, 0, b) && Ordered(h.blocks, TAGS_SIZE, b);
    }
    assert h.brk != 2 * TAGS_SIZE ==> h.blocks.Keys == {0, TAGS_SIZE, e};
    assert h.brk == 2 * TAGS_SIZE ==> h.blocks.Keys == {0, TAGS_SIZE};
    forall i | 0 <= i < |h.free|
      ensures h.free[i] == TAGS_SIZE
    {
      assert IsFree(h.blocks, h.free[i]);
    }
    if TAGS_SIZE != e {
      assert IsFree(h.blocks, TAGS_SIZE);
      assert h.free == [TAGS_SIZE];
    } else {
      assert |h.free| > 0 ==> IsFree(h.blocks, h.free[0]);
      assert h.blocks == INITIAL_LAYOUT.blocks;
    }
  }

  // ---------------------------------------------------------------- runs

  /** What changes the layout; realloc is a Grow, or an Allocate and a Release, or nothing. */
  datatype Request = Allocate(adjusted: int) | Release(block: int) | Grow(block: int)

  ghost predicate Allowed(h: Layout, q: Request)
    requires WellFormed(h)
  {
    match q
    case Allocate(n) => n % WORD_SIZE == 0 && MINBLOCKSIZE <= n && MallocSpec(h, n).Allocated?
    case Release(a) => IsLive(h, a)
    case Grow(a) => IsLive(h, a) && IsFree(h.blocks, a + h.blocks[a].size)
  }

  ghost function Serve(h: Layout, q: Request): (g: Layout)
    requires WellFormed(h) && Allowed(h, q)
    ensures WellFormed(g)
  {
    match q
    case Allocate(n) => MallocWellFormed(h, n); MallocSpec(h, n).layout
    case Release(a) => FreeWellFormed(h, a); FreeSpec(h, a)
    case Grow(a) => GrowWellFormed(h, a); Merge(h, a, a + h.blocks[a].size)
  }

  ghost predicate Served(h: Layout, q: Request, g: Layout) {
    WellFormed(h) && Allowed(h, q) && g == Serve(h, q)
  }

  /** `trail` is the layout before, between and after the requests of the run. */
  ghost predicate Trail(run: seq<Request>, trail: seq<Layout>) {
    && |trail| == |run| + 1 && trail[0] == INITIAL_LAYOUT
    && (forall i {:trigger Served(trail[i], run[i], trail[i + 1])} ::
          0 <= i < |run| ==> Served(trail[i], run[i], trail[i + 1]))
  }

  /** The requests of the run, one after the other, lead from mm_init to `h`. */
  ghost predicate Leads(run: seq<Request>, h: Layout) {
    exists trail :: Trail(run, trail) && trail[|run|] == h
  }

  lemma LeadsNowhere()
    ensures Leads([], INITIAL_LAYOUT)
  {
    assert Trail([], [INITIAL_LAYOUT]);
  }

  lemma LeadsOn(run: seq<Request>, h: Layout, q: Request, g: Layout)
    requires Leads(run, h) && Served(h, q, g)
    ensures Leads(run + [q], g)
  {
    var trail :| Trail(run, trail) && trail[|run|] == h;
    var run', trail' := run + [q], trail + [g];
    forall i {:trigger Served(trail'[i], run'[i], trail'[i + 1])} | 0 <= i < |run'|
      ensures Served(trail'[i], run'[i], trail'[i + 1])
    {
      if i < |run| { assert Served(trail[i], run[i], trail[i + 1]); }
    }
    assert Trail(run', trail');
  }

  lemma LeadsBefore(run: seq<Request>, trail: seq<Layout>)
    requires Trail(run, trail) && run != []
    ensures var n := |run| - 1; Leads(run[..n], trail[n]) && Served(trail[n], run[n], trail[n + 1])
  {
    var n := |run| - 1;
    var before, trail' := run[..n], trail[..n + 1];
    forall i {:trigger Served(trail'[i], before[i], trail'[i + 1])} | 0 <= i < n
      ensures Served(trail'[i], before[i], trail'[i + 1])
    {
      assert Served(trail[i], run[i], trail[i + 1]);
    }
    assert Trail(before, trail');
    assert Served(trail[n], run[n], trail[n + 1]);
  }

  /** Every layout a run leads to is well formed. */
  lemma LeadsSound(run: seq<Request>, h: Layout)
    requires Leads(run, h)
    ensures WellFormed(h)
  {
    var trail :| Trail(run, trail) && trail[|run|] == h;
    if run == [] {
      InitialWellFormed();
    } else {
      LeadsBefore(run, trail);
    }
  }

  /** The requests alone decide the layout: block addresses, sizes, bits and list order. */
  lemma {:induction false} LeadsOnce(run: seq<Request>, h: Layout, g: Layout)
    requires Leads(run, h) && Leads(run, g)
    ensures h == g
    decreases |run|
  {
    var t :| Trail(run, t) && t[|run|] == h;
    var u :| Trail(run, u) && u[|run|] == g;
    if run != [] {
      var n := |run| - 1;
      LeadsBefore(run, t);
      LeadsBefore(run, u);
      LeadsOnce(run[..n], t[n], u[n]);
    }
  }

  /** One request more takes the layout exactly one step further. */
  lemma ServedBy(run: seq<Request>, h: Layout, q: Request, g: Layout)
    requires Leads(run, h) && Leads(run + [q], g)
    ensures Served(h, q, g)
  {
    var run' := run + [q];
    var trail :| Trail(run', trail) && trail[|run'|] == g;
    LeadsBefore(run', trail);
    assert run'[..|run|] == run;
    LeadsOnce(run, h, trail[|run|]);
  }

  lemma AllocateLeads(run: seq<Request>, h: Layout, adjusted: int, g: Layout, b: int)
    requires Leads(run, h) && WellFormed(h) && adjusted % WORD_SIZE == 0 && MINBLOCKSIZE <= adjusted
    requires MallocSpec(h, adjusted) == Allocated(g, b)
    ensures Leads(run + [Allocate(adjusted)], g)
  {
    LeadsOn(run, h, Allocate(adjusted), g);
  }

  lemma ReleaseLeads(run: seq<Request>, h: Layout, a: int, g: Layout)
    requires Leads(run, h) && WellFormed(h) && IsLive(h, a) && g == FreeSpec(h, a)
    ensures Leads(run + [Release(a)], g)
  {
    LeadsOn(run, h, Release(a), g);
  }

  lemma GrowLeads(run: seq<Request>, h: Layout, a: int, g: Layout)
    requires Leads(run, h) && WellFormed(h) && IsLive(h, a) && IsFree(h.blocks, a + h.blocks[a].size)
    requires g == Merge(h, a, a + h.blocks[a].size)
    ensures Leads(run + [Grow(a)], g)
  {
    LeadsOn(run, h, Grow(a), g);
  }

  /** What resizing the live block `a` asks of the heap: nothing, to grow, to move, or what cannot be had. */
  ghost function ResizeRequests(h: Layout, a: int, adjusted: int): seq<Request>
    requires a in h.blocks
  {
    if adjusted <= h.blocks[a].size then []
    else if FitsNext(h, a, adjusted) then [Grow(a)]
    else if NoFit(h, adjusted) && MAX_HEAP < h.brk + adjusted then []
    else [Allocate(adjusted), Release(a)]
  }
}
