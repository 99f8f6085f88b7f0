/**
  The test driver's validity check, run against the allocator: any trace of
  allocations, reallocations and frees, with every block filled and every
  answer checked for alignment, bounds, overlap and preserved data.

  The driver's own books go wrong in two ways, both modelled.  An index that is
  allocated again while in use loses its old block, which stays allocated and on
  the range list.  A reallocation to size zero frees the block but leaves its
  range on the list, where it is stale.
 */
module MallocDriver {
  import opened MallocLayout
  import opened MallocMemory
  import opened Malloc
  import opened MallocTrace

  // ---------------------------------------------------------------- the driver's books

  ghost predicate StartsWith(s: seq<int>, n: int, v: int) {
    n <= |s| && forall j :: 0 <= j < n ==> s[j] == v
  }

  /** The region is a live payload, large enough. */
  ghost predicate Fits(live: map<int, seq<int>>, r: Region) {
    0 < r.size && r.p - WORD_SIZE in live && r.size <= |live[r.p - WORD_SIZE]|
  }

  /** ... and holds its pattern. */
  ghost predicate Held(live: map<int, seq<int>>, r: Region, pattern: int) {
    Fits(live, r) && StartsWith(live[r.p - WORD_SIZE], r.size, pattern)
  }

  ghost predicate InUse(regions: map<nat, Region>, r: Region) {
    exists i {:trigger regions[i]} :: i in regions && regions[i] == r
  }

  /** Block `a` holds the payload of some index, or one that lost its index. */
  ghost predicate Owned(regions: map<nat, Region>, lost: set<Region>, a: int) {
    || (exists i {:trigger regions[i]} :: i in regions && regions[i].p == a + WORD_SIZE)
    || (exists r :: r in lost && r.p == a + WORD_SIZE)
  }

  /** Every index in use has a live block, filled with its pattern; the other live blocks are the lost ones. */
  ghost predicate Tracked(live: map<int, seq<int>>, regions: map<nat, Region>, lost: set<Region>) {
    && (forall a {:trigger Owned(regions, lost, a)} :: a in live ==> Owned(regions, lost, a))
    && (forall i {:trigger Held(live, regions[i], Pattern(i))} :: i in regions ==> Held(live, regions[i], Pattern(i)))
    && (forall r {:trigger Fits(live, r)} :: r in lost ==> Fits(live, r))
  }

  predicate Differ(r: Region, s: Region) {
    r.p != s.p
  }

  /** No two indices name the same payload, nor one that is listed for another reason. */
  ghost predicate Separate(regions: map<nat, Region>, extra: set<Region>) {
    && (forall i, j {:trigger Differ(regions[i], regions[j])} ::
          i in regions && j in regions && i != j ==> Differ(regions[i], regions[j]))
    && (forall i, r {:trigger Differ(regions[i], r)} :: i in regions && r in extra ==> Differ(regions[i], r))
  }

  ghost predicate Accounted(regions: map<nat, Region>, extra: set<Region>, r: Region) {
    (InUse(regions, r) || r in extra) && 0 < r.size
  }

  predicate OnList(ranges: seq<Region>, r: Region) {
    r in ranges
  }

  /** The ranges on the list are the regions in use and the `extra` ones, each once. */
  ghost predicate RangesOk(ranges: seq<Region>, regions: map<nat, Region>, extra: set<Region>) {
    && (forall k {:trigger Accounted(regions, extra, ranges[k])} ::
          0 <= k < |ranges| ==> Accounted(regions, extra, ranges[k]))
    && (forall k, l {:trigger Differ(ranges[k], ranges[l])} :: 0 <= k < l < |ranges| ==> Differ(ranges[k], ranges[l]))
    && (forall i {:trigger OnList(ranges, regions[i])} :: i in regions ==> OnList(ranges, regions[i]))
    && (forall r {:trigger OnList(ranges, r)} :: r in extra ==> OnList(ranges, r))
  }

  /** Block `b` now starts with `size` times `v`; the other blocks are unchanged. */
  ghost predicate Painted(before: map<int, seq<int>>, after: map<int, seq<int>>, b: int, v: int, size: int) {
    && b in before && b in after && |after[b]| == |before[b]| && StartsWith(after[b], size, v)
    && after - {b} == before - {b}
  }

  /** A block that none of the others owns, once filled, is index i's. */
  lemma TrackedAdd(rest: map<int, seq<int>>, after: map<int, seq<int>>, others: map<nat, Region>, lost: set<Region>,
                   i: nat, b: int, size: int)
    requires Tracked(rest, others, lost) && i !in others && 0 < size
    requires b !in rest && b in after && after - {b} == rest && StartsWith(after[b], size, Pattern(i))
    ensures Tracked(after, others[i := Region(b + WORD_SIZE, size)], lost)
  {
    var regions := others[i := Region(b + WORD_SIZE, size)];
    forall c | c in rest
      ensures c in after && after[c] == rest[c] && c != b
    {
      assert c in after - {b} && (after - {b})[c] == after[c];
    }
    forall c {:trigger Owned(regions, lost, c)} | c in after
      ensures Owned(regions, lost, c)
    {
      if c == b {
        assert regions[i].p == c + WORD_SIZE;
      } else {
        assert c in after - {b};
        assert Owned(others, lost, c);
        if j :| j in others && others[j].p == c + WORD_SIZE {
          assert regions[j].p == c + WORD_SIZE;
        }
      }
    }
    forall j {:trigger Held(after, regions[j], Pattern(j))} | j in regions
      ensures Held(after, regions[j], Pattern(j))
    {
      if j != i { assert Held(rest, others[j], Pattern(j)); }
    }
    forall r {:trigger Fits(after, r)} | r in lost
      ensures Fits(after, r)
    {
      assert Fits(rest, r);
    }
  }

  /** The block of an index is gone, and so is the index. */
  lemma TrackedRemove(live: map<int, seq<int>>, regions: map<nat, Region>, lost: set<Region>, i: nat)
    requires Tracked(live, regions, lost) && i in regions && Separate(regions, lost)
    ensures Tracked(live - {regions[i].p - WORD_SIZE}, regions - {i}, lost)
  {
    var rest, others := live - {regions[i].p - WORD_SIZE}, regions - {i};
    forall c {:trigger Owned(others, lost, c)} | c in rest
      ensures Owned(others, lost, c)
    {
      assert Owned(regions, lost, c);
      if j :| j in regions && regions[j].p == c + WORD_SIZE {
        assert others[j].p == c + WORD_SIZE;
      }
    }
    forall j {:trigger Held(rest, others[j], Pattern(j))} | j in others
      ensures Held(rest, others[j], Pattern(j))
    {
      assert others[j] == regions[j] && Differ(regions[j], regions[i]) && Held(live, regions[j], Pattern(j));
    }
    forall r {:trigger Fits(rest, r)} | r in lost
      ensures Fits(rest, r)
    {
      assert Differ(regions[i], r) && Fits(live, r);
    }
  }

  /** The index is taken away; its block stays. */
  lemma TrackedLose(live: map<int, seq<int>>, regions: map<nat, Region>, lost: set<Region>, i: nat)
    requires Tracked(live, regions, lost) && i in regions
    ensures Tracked(live, regions - {i}, lost + {regions[i]})
  {
    var others, lost' := regions - {i}, lost + {regions[i]};
    forall c {:trigger Owned(others, lost', c)} | c in live
      ensures Owned(others, lost', c)
    {
      assert Owned(regions, lost, c);
      if j :| j in regions && regions[j].p == c + WORD_SIZE {
        if j == i { assert regions[i] in lost'; } else { assert others[j].p == c + WORD_SIZE; }
      } else {
        var r :| r in lost && r.p == c + WORD_SIZE;
        assert r in lost';
      }
    }
    forall j {:trigger Held(live, others[j], Pattern(j))} | j in others
      ensures Held(live, others[j], Pattern(j))
    {
      assert others[j] == regions[j] && Held(live, regions[j], Pattern(j));
    }
    assert Held(live, regions[i], Pattern(i));
  }

  lemma SeparateLose(regions: map<nat, Region>, extra: set<Region>, i: nat)
    requires Separate(regions, extra) && i in regions
    ensures Separate(regions - {i}, extra) && Separate(regions - {i}, extra + {regions[i]})
  {
    var others := regions - {i};
    forall j, k {:trigger Differ(others[j], others[k])} | j in others && k in others && j != k
      ensures Differ(others[j], others[k])
    {
      assert Differ(regions[j], regions[k]);
    }
    forall j, r {:trigger Differ(others[j], r)} | j in others && r in extra + {regions[i]}
      ensures Differ(others[j], r)
    {
      assert Differ(regions[j], r) && Differ(regions[j], regions[i]);
    }
  }

  /** The range of index i stays on the list although the index is gone. */
  lemma RangesLose(ranges: seq<Region>, regions: map<nat, Region>, extra: set<Region>, i: nat)
    requires RangesOk(ranges, regions, extra) && i in regions
    ensures RangesOk(ranges, regions - {i}, extra + {regions[i]})
  {
    var others, extra' := regions - {i}, extra + {regions[i]};
    forall k {:trigger Accounted(others, extra', ranges[k])} | 0 <= k < |ranges|
      ensures Accounted(others, extra', ranges[k])
    {
      assert Accounted(regions, extra, ranges[k]);
      if j :| j in regions && regions[j] == ranges[k] {
        if j != i { assert others[j] == ranges[k]; }
      }
    }
    forall j {:trigger OnList(ranges, others[j])} | j in others
      ensures OnList(ranges, others[j])
    {
      assert others[j] == regions[j] && OnList(ranges, regions[j]);
    }
    assert OnList(ranges, regions[i]);
  }

  // ---------------------------------------------------------------- memset

  lemma PaintedContents(m: seq<int>, m': seq<int>, h: Layout, b: int, v: int, size: int)
    requires WellFormed(h) && IsLive(h, b) && |m| == |m'| == MAX_HEAP && SamePayloads(m, m', h.blocks, b)
    requires BlockOk(h, b)
    requires 0 <= size <= h.blocks[b].size - TAGS_SIZE
    requires forall w :: b + WORD_SIZE <= w < b + WORD_SIZE + size ==> m'[w] == v
    ensures Painted(Contents(m, h), Contents(m', h), b, v, size)
  {
    ContentsChange(m, m', h, h, b, b);
    assert {b, b} == {b};
    assert Contents(m', h)[b] == Cells(m', b + WORD_SIZE, h.blocks[b].size - TAGS_SIZE);
  }

  method MemSet(heap: Heap, p: int, v: int, size: int)
    requires heap.Valid() && IsLive(heap.Heap(), p - WORD_SIZE)
    requires 0 <= size <= heap.blocks[p - WORD_SIZE].size - TAGS_SIZE
    modifies heap.mem
    ensures heap.Valid() && heap.Heap() == old(heap.Heap())
    ensures Painted(old(heap.Live()), heap.Live(), p - WORD_SIZE, v, size)
  {
    ghost var m, b, h := heap.mem[..], p - WORD_SIZE, heap.Heap();
    assert BlockOk(h, b);
    for i := 0 to size
      invariant forall w :: 0 <= w < heap.mem.Length && !(p <= w < p + i) ==> heap.mem[w] == m[w]
      invariant forall w :: p <= w < p + i ==> heap.mem[w] == v
    {
      heap.mem[p + i] := v;
    }
    assert forall w :: 0 <= w < |m| && !InPayload(heap.blocks, b, w) ==> heap.mem[..][w] == m[w];
    PayloadWrite(m, heap.mem[..], heap.blocks, heap.free, b);
    PaintedContents(m, heap.mem[..], h, b, v, size);
  }

  // ---------------------------------------------------------------- the range list

  /** What add_range demands of a new payload. */
  predicate RangeOk(ranges: seq<Region>, brk: int, lo: int, size: int) {
    var hi := lo + size - 1;
    && lo % WORD_SIZE == 0
    && 0 <= lo <= brk - 1 && 0 <= hi <= brk - 1
    && forall k :: 0 <= k < |ranges| ==> !Overlaps(ranges[k], lo, hi)
  }

  /** The source asserts that the size is not negative. */
  method AddRange(ranges: seq<Region>, brk: int, lo: int, size: int) returns (ok: bool, ranges': seq<Region>)
    requires 0 <= size
    ensures ok <==> size == 0 || RangeOk(ranges, brk, lo, size)
    ensures ranges' == if ok && size != 0 then [Region(lo, size)] + ranges else ranges
  {
    ranges' := ranges;
    if size == 0 {
      return true, ranges;
    }
    var hi := lo + size - 1;
    if lo % WORD_SIZE != 0 {
      return false, ranges;
    }
    if lo < 0 || lo > brk - 1 || hi < 0 || hi > brk - 1 {
      return false, ranges;
    }
    for k := 0 to |ranges|
      invariant forall l :: 0 <= l < k ==> !Overlaps(ranges[l], lo, hi)
    {
      if Overlaps(ranges[k], lo, hi) {
        return false, ranges;
      }
    }
    return true, [Region(lo, size)] + ranges;
  }

  /** Takes the first range that starts at `lo` off the list. */
  method RemoveRange(ranges: seq<Region>, lo: int, ghost regions: map<nat, Region>, ghost extra: set<Region>,
                     ghost i: nat)
    returns (ranges': seq<Region>)
    requires RangesOk(ranges, regions, extra) && Separate(regions, extra) && i in regions && regions[i].p == lo
    ensures RangesOk(ranges', regions - {i}, extra)
  {
    var k := 0;
    while k < |ranges| && ranges[k].p != lo
      invariant 0 <= k <= |ranges| && forall l :: 0 <= l < k ==> ranges[l].p != lo
    {
      k := k + 1;
    }
    assert OnList(ranges, regions[i]);
    RangesLeft(ranges, k, regions, extra, i);
    ranges' := if k < |ranges| then ranges[..k] + ranges[k + 1..] else ranges;
  }

  lemma RangesLeft(ranges: seq<Region>, k: nat, regions: map<nat, Region>, extra: set<Region>, i: nat)
    requires RangesOk(ranges, regions, extra) && Separate(regions, extra) && i in regions
    requires k < |ranges| && ranges[k].p == regions[i].p
    ensures RangesOk(ranges[..k] + ranges[k + 1..], regions - {i}, extra)
  {
    var ranges', others := ranges[..k] + ranges[k + 1..], regions - {i};
    forall l {:trigger Accounted(others, extra, ranges'[l])} | 0 <= l < |ranges'|
      ensures Accounted(others, extra, ranges'[l])
    {
      var o := if l < k then l else l + 1;
      assert Accounted(regions, extra, ranges[o]);
      assert Differ(ranges[if o < k then o else k], ranges[if o < k then k else o]);
      if j :| j in regions && regions[j] == ranges[o] {
        assert others[j] == ranges'[l];
      }
    }
    forall l, o {:trigger Differ(ranges'[l], ranges'[o])} | 0 <= l < o < |ranges'|
      ensures Differ(ranges'[l], ranges'[o])
    {
      assert Differ(ranges[if l < k then l else l + 1], ranges[if o < k then o else o + 1]);
    }
    forall r | OnList(ranges, r) && Differ(r, regions[i])
      ensures OnList(ranges', r)
    {
      var l :| 0 <= l < |ranges| && ranges[l] == r;
      assert ranges'[if l < k then l else l - 1] == r;
    }
    forall j {:trigger OnList(ranges', others[j])} | j in others
      ensures OnList(ranges', others[j])
    {
      assert others[j] == regions[j] && Differ(regions[j], regions[i]) && OnList(ranges, regions[j]);
    }
    forall r {:trigger OnList(ranges', r)} | r in extra
      ensures OnList(ranges', r)
    {
      assert Differ(regions[i], r) && OnList(ranges, r) && Differ(r, regions[i]);
    }
  }

  /** The range checks fail on a live payload exactly when a stale range is in its way. */
  lemma RangePasses(h: Layout, ranges: seq<Region>, others: map<nat, Region>, lost: set<Region>, stale: set<Region>,
                    b: int, size: int)
    requires WellFormed(h) && IsLive(h, b) && 0 < size <= h.blocks[b].size - TAGS_SIZE
    requires RangesOk(ranges, others, lost + stale)
    requires forall i {:trigger Elsewhere(h, b, others[i])} :: i in others ==> Elsewhere(h, b, others[i])
    requires forall r {:trigger Elsewhere(h, b, r)} :: r in lost ==> Elsewhere(h, b, r)
    ensures RangeOk(ranges, h.brk, b + WORD_SIZE, size) <==> !HitsStale(stale, b + WORD_SIZE, size)
  {
    RangeChecksPass(h, b, size);
    var lo, hi := b + WORD_SIZE, b + WORD_SIZE + size - 1;
    forall k | 0 <= k < |ranges| && ranges[k] !in stale
      ensures !Overlaps(ranges[k], lo, hi)
    {
      var r := ranges[k];
      assert Accounted(others, lost + stale, ranges[k]);
      if i :| i in others && others[i] == r {
        assert Elsewhere(h, b, others[i]);
      }
      assert Elsewhere(h, b, r);
      RangeChecksPass(h, r.p - WORD_SIZE, r.size);
    }
    if RangeOk(ranges, h.brk, lo, size) {
      forall r | r in stale
        ensures !Overlaps(r, lo, hi)
      {
        assert r in lost + stale && OnList(ranges, r);
      }
    }
  }

  /** The region lies in a live block other than `b`. */
  ghost predicate Elsewhere(h: Layout, b: int, r: Region) {
    var a := r.p - WORD_SIZE;
    a != b && IsLive(h, a) && 0 < r.size <= h.blocks[a].size - TAGS_SIZE
  }

  lemma RangesMore(ranges: seq<Region>, others: map<nat, Region>, extra: set<Region>, i: nat, r: Region)
    requires RangesOk(ranges, others, extra) && Separate(others, extra) && i !in others && 0 < r.size
    requires forall k :: 0 <= k < |ranges| ==> ranges[k].p != r.p
    ensures RangesOk([r] + ranges, others[i := r], extra) && Separate(others[i := r], extra)
  {
    var ranges', regions := [r] + ranges, others[i := r];
    forall k {:trigger Accounted(regions, extra, ranges'[k])} | 0 <= k < |ranges'|
      ensures Accounted(regions, extra, ranges'[k])
    {
      if k == 0 {
        assert regions[i] == ranges'[0];
      } else {
        assert ranges'[k] == ranges[k - 1] && Accounted(others, extra, ranges[k - 1]);
        if j :| j in others && others[j] == ranges[k - 1] {
          assert regions[j] == ranges'[k];
        }
      }
    }
    forall k, l {:trigger Differ(ranges'[k], ranges'[l])} | 0 <= k < l < |ranges'|
      ensures Differ(ranges'[k], ranges'[l])
    {
      assert ranges'[l] == ranges[l - 1];
      if k > 0 { assert ranges'[k] == ranges[k - 1] && Differ(ranges[k - 1], ranges[l - 1]); }
    }
    forall s {:trigger OnList(ranges', s)} {:trigger OnList(ranges, s)} | OnList(ranges, s)
      ensures OnList(ranges', s) && Differ(s, r) && Differ(r, s)
    {
      var k :| 0 <= k < |ranges| && ranges[k] == s;
      assert ranges'[k + 1] == s;
    }
    ListedMore(ranges, ranges', others, extra, i, r);
  }

  lemma ListedMore(ranges: seq<Region>, ranges': seq<Region>, others: map<nat, Region>, extra: set<Region>, i: nat,
                   r: Region)
    requires RangesOk(ranges, others, extra) && Separate(others, extra) && i !in others && OnList(ranges', r)
    requires forall s {:trigger OnList(ranges', s)} ::
      OnList(ranges, s) ==> OnList(ranges', s) && Differ(s, r) && Differ(r, s)
    ensures var regions := others[i := r];
      && (forall j {:trigger OnList(ranges', regions[j])} :: j in regions ==> OnList(ranges', regions[j]))
      && (forall s {:trigger OnList(ranges', s)} :: s in extra ==> OnList(ranges', s))
      && Separate(regions, extra)
  {
    var regions := others[i := r];
    forall s {:trigger OnList(ranges', s)} | s in extra
      ensures OnList(ranges', s) && Differ(r, s)
    {
      assert OnList(ranges, s);
    }
    forall j {:trigger OnList(ranges', regions[j])} | j in regions
      ensures OnList(ranges', regions[j]) && (j != i ==> Differ(regions[j], r))
    {
      if j != i { assert regions[j] == others[j] && OnList(ranges, others[j]); }
    }
    forall j, k {:trigger Differ(regions[j], regions[k])} | j in regions && k in regions && j != k
      ensures Differ(regions[j], regions[k])
    {
      assert OnList(ranges', regions[j]) && OnList(ranges', regions[k]);
      if j != i && k != i { assert Differ(others[j], others[k]); }
    }
    forall j, s {:trigger Differ(regions[j], s)} | j in regions && s in extra
      ensures Differ(regions[j], s)
    {
      if j == i { assert OnList(ranges', s); } else { assert Differ(others[j], s); }
    }
  }

  // ---------------------------------------------------------------- the driver

  /** What fits a live payload lies in a live block of the layout. */
  lemma FitsIsLive(m: seq<int>, h: Layout, r: Region)
    requires WellFormed(h) && |m| == MAX_HEAP && Fits(Contents(m, h), r)
    ensures IsLive(h, r.p - WORD_SIZE) && 0 < r.size <= h.blocks[r.p - WORD_SIZE].size - TAGS_SIZE
  {
    assert BlockOk(h, r.p - WORD_SIZE);
  }

  /** Right after mm_init nothing is live. */
  lemma StartTracked(m: seq<int>, h: Layout)
    requires WellFormed(h) && |m| == MAX_HEAP && h == INITIAL_LAYOUT
    ensures Tracked(Contents(m, h), map[], {}) && RangesOk([], map[], {})
  {
    assert forall a :: !IsLive(h, a);
  }

  lemma SizeFaithful(brk: int, size: int)
    requires size <= INT_MAX && 0 <= brk
    ensures SbrkFaithful(brk, AdjustedSize(size))
  {
  }

  /** What a realloc of the payload at `p` to a size other than zero does to layout and requests. */
  ghost predicate ResizeOutcome(h: Layout, run: seq<Request>, p: int, size: int, newp: int, exhausted: bool,
                                g: Layout, run': seq<Request>) {
    var a, n, adjusted := p - WORD_SIZE, newp - WORD_SIZE, AdjustedSize(size);
    && a in h.blocks
    && (exhausted <==> !FitsInPlace(h, a, adjusted) && NoFit(h, adjusted) && MAX_HEAP < h.brk + adjusted)
    && (FitsInPlace(h, a, adjusted) ==> n == a)
    && (!exhausted ==>
          && run' == run + ResizeRequests(h, a, adjusted)
          && IsLive(g, n) && (IsLive(h, n) ==> n == a))
  }

  /** The block that has come in the place of `a` was not live before, unless it is `a` itself. */
  lemma ReplacedBlock(m: seq<int>, g: Layout, live: map<int, seq<int>>, h: Layout, a: int, n: int, size: int)
    requires WellFormed(h) && WellFormed(g) && |m| == MAX_HEAP && Replaced(live, Contents(m, g), a, n, size)
    requires forall b :: IsLive(h, b) ==> b in live
    ensures IsLive(g, n) && (IsLive(h, n) ==> n == a)
  {
    var rest := Contents(m, g) - {n};
    assert n !in rest && rest == live - {a};
  }

  class Driver {
    const heap: Heap
    const signedChar: bool           // whether the platform's plain char is signed
    var regions: map<nat, Region>    // trace->blocks and trace->block_sizes of the indices in use
    var ranges: seq<Region>
    ghost var lost: set<Region>      // live payloads whose index was allocated again
    ghost var stale: set<Region>     // ranges of blocks freed by a reallocation to size zero

    constructor (heap: Heap, signedChar: bool)
      ensures this.heap == heap && this.signedChar == signedChar
    {
      this.heap, this.signedChar := heap, signedChar;
      regions, ranges, lost, stale := map[], [], {}, {};
    }

    ghost predicate Valid()
      reads this, heap, heap.mem
    {
      && heap.Valid() && Tracked(heap.Live(), regions, lost)
      && RangesOk(ranges, regions, lost + stale) && Separate(regions, lost + stale)
    }

    /** The payload at `p`, in a block none of the others is in, goes on the list unless a stale range is in its way. */
    method Register(i: nat, p: int, size: int, ghost others: map<nat, Region>, ghost lost': set<Region>)
      returns (ok: bool)
      requires heap.Valid() && Fits(heap.Live(), Region(p, size)) && i !in others
      requires Tracked(heap.Live() - {p - WORD_SIZE}, others, lost')
      requires RangesOk(ranges, others, lost' + stale) && Separate(others, lost' + stale)
      modifies this`ranges
      ensures ok <==> !HitsStale(stale, p, size)
      ensures ok ==> RangesOk(ranges, others[i := Region(p, size)], lost' + stale)
      ensures ok ==> Separate(others[i := Region(p, size)], lost' + stale)
      ensures ranges == if ok then [Region(p, size)] + old(ranges) else old(ranges)
    {
      ghost var h := heap.Heap();
      FitsIsLive(heap.mem[..], h, Region(p, size));
      OthersElsewhere(p, others, lost');
      RangePasses(h, ranges, others, lost', stale, p - WORD_SIZE, size);
      ghost var before := ranges;
      ok, ranges := AddRange(ranges, heap.brk, p, size);
      if ok {
        NewStart(before, others, lost' + stale, p, size);
        RangesMore(before, others, lost' + stale, i, Region(p, size));
      }
    }

    lemma NewStart(before: seq<Region>, others: map<nat, Region>, extra: set<Region>, p: int, size: int)
      requires RangesOk(before, others, extra) && RangeOk(before, heap.brk, p, size)
      ensures forall k :: 0 <= k < |before| ==> before[k].p != p
    {
      forall k | 0 <= k < |before|
        ensures before[k].p != p
      {
        assert Accounted(others, extra, before[k]) && !Overlaps(before[k], p, p + size - 1);
      }
    }

    lemma OthersElsewhere(p: int, others: map<nat, Region>, lost': set<Region>)
      requires heap.Valid() && Tracked(heap.Live() - {p - WORD_SIZE}, others, lost')
      ensures forall j {:trigger Elsewhere(heap.Heap(), p - WORD_SIZE, others[j])} ::
        j in others ==> Elsewhere(heap.Heap(), p - WORD_SIZE, others[j])
      ensures forall r {:trigger Elsewhere(heap.Heap(), p - WORD_SIZE, r)} ::
        r in lost' ==> Elsewhere(heap.Heap(), p - WORD_SIZE, r)
    {
      forall j {:trigger Elsewhere(heap.Heap(), p - WORD_SIZE, others[j])} | j in others
        ensures Elsewhere(heap.Heap(), p - WORD_SIZE, others[j])
      {
        assert Held(heap.Live() - {p - WORD_SIZE}, others[j], Pattern(j));
        FitsIsLive(heap.mem[..], heap.Heap(), others[j]);
      }
      forall r {:trigger Elsewhere(heap.Heap(), p - WORD_SIZE, r)} | r in lost'
        ensures Elsewhere(heap.Heap(), p - WORD_SIZE, r)
      {
        assert Fits(heap.Live() - {p - WORD_SIZE}, r);
        FitsIsLive(heap.mem[..], heap.Heap(), r);
      }
    }

    /** Fills the payload at `p` with the pattern of `i` and remembers it. */
    method Remember(i: nat, p: int, size: int, ghost others: map<nat, Region>)
      requires heap.Valid() && Fits(heap.Live(), Region(p, size)) && i !in others && others == regions - {i}
      requires Tracked(heap.Live() - {p - WORD_SIZE}, others, lost)
      requires RangesOk(ranges, others[i := Region(p, size)], lost + stale)
      requires Separate(others[i := Region(p, size)], lost + stale)
      modifies this`regions, heap.mem
      ensures Valid() && regions == old(regions)[i := Region(p, size)]
      ensures heap.Heap() == old(heap.Heap())
    {
      ghost var b, rest := p - WORD_SIZE, heap.Live() - {p - WORD_SIZE};
      FitsIsLive(heap.mem[..], heap.Heap(), Region(p, size));
      MemSet(heap, p, Pattern(i), size);
      TrackedAdd(rest, heap.Live(), others, lost, i, b, size);
      assert others[i := Region(p, size)] == regions[i := Region(p, size)];
      regions := regions[i := Region(p, size)];
    }

    /** What one operation leaves of the books when it fails or has nothing to write down. */
    twostate predicate SameBooks()
      reads this
    {
      regions == old(regions) && ranges == old(ranges) && lost == old(lost) && stale == old(stale)
    }

    method PlayAlloc(i: nat, size: int) returns (outcome: Outcome, p: int)
      requires Valid() && size <= INT_MAX
      modifies this, heap, heap.mem
      ensures heap.mem == old(heap.mem) && heap.Valid() && !outcome.DataLost?
      ensures outcome.Passed? || outcome.Exhausted? ==> Valid()
      ensures outcome.Exhausted? <==>
        size != 0 && NoFit(old(heap.Heap()), AdjustedSize(size)) && MAX_HEAP < old(heap.brk) + AdjustedSize(size)
      ensures outcome.Exhausted? || size == 0 ==> SameBooks() && heap.Heap() == old(heap.Heap())
      ensures !outcome.Exhausted? && size != 0 ==>
        && heap.run == old(heap.run) + [Request.Allocate(AdjustedSize(size))]
        && !IsLive(old(heap.Heap()), p - WORD_SIZE) && IsLive(heap.Heap(), p - WORD_SIZE)
      ensures outcome.Aborted? <==> size < 0 && !outcome.Exhausted?
      ensures outcome.BadRange? <==> 0 < size && !outcome.Exhausted? && HitsStale(old(stale), p, size)
      ensures outcome.Passed? && size != 0 ==>
        && regions == old(regions)[i := Region(p, size)] && ranges == [Region(p, size)] + old(ranges)
        && lost == old(lost) + (if i in old(regions) then {old(regions)[i]} else {}) && stale == old(stale)
    {
      ghost var live := heap.Live();
      SizeFaithful(heap.brk, size);
      var fault: bool;
      p, fault := heap.MmMalloc(size);
      if p == NULL && size != 0 {
        return Exhausted, p;
      }
      if size == 0 {
        return Passed, p;
      }
      assert p - WORD_SIZE !in live;
      if size < 0 {
        return Aborted, p;
      }
      var ok := Place(i, p, size, live);
      return if ok then Passed else BadRange, p;
    }

    /** Checks, fills and remembers the payload that has just been added; `i` loses the one it had. */
    method Place(i: nat, p: int, size: int, ghost live: map<int, seq<int>>) returns (ok: bool)
      requires heap.Valid() && 0 < size && Added(live, heap.Live(), p - WORD_SIZE, size)
      requires Tracked(live, regions, lost) && RangesOk(ranges, regions, lost + stale)
      requires Separate(regions, lost + stale)
      modifies this, heap.mem
      ensures heap.Valid() && heap.Heap() == old(heap.Heap())
      ensures ok <==> !HitsStale(old(stale), p, size)
      ensures ok ==> Valid()
      ensures ok ==>
        && regions == old(regions)[i := Region(p, size)] && ranges == [Region(p, size)] + old(ranges)
        && lost == old(lost) + (if i in old(regions) then {old(regions)[i]} else {}) && stale == old(stale)
    {
      ghost var others := regions - {i};
      LoseIndex(live, i);
      lost := lost + (if i in regions then {regions[i]} else {});
      ok := Register(i, p, size, others, lost);
      if ok {
        Remember(i, p, size, others);
      }
    }

    /** Whether or not `i` is in use: without it the books are still right, its block being lost. */
    lemma LoseIndex(live: map<int, seq<int>>, i: nat)
      requires Tracked(live, regions, lost) && RangesOk(ranges, regions, lost + stale)
      requires Separate(regions, lost + stale)
      ensures var others, lost' := regions - {i}, lost + (if i in regions then {regions[i]} else {});
        Tracked(live, others, lost') && RangesOk(ranges, others, lost' + stale) && Separate(others, lost' + stale)
    {
      if i in regions {
        TrackedLose(live, regions, lost, i);
        RangesLose(ranges, regions, lost + stale, i);
        SeparateLose(regions, lost + stale, i);
        assert lost + stale + {regions[i]} == lost + {regions[i]} + stale;
      } else {
        assert regions - {i} == regions && lost + {} == lost;
      }
    }

    /** The value of a stored byte read through a plain char. */
    function CharValue(byte: int): int {
      if signedChar && 128 <= byte then byte - 256 else byte
    }

    /** Compares the first `n` bytes at `p`, read as chars, with the pattern that was stored there. */
    method CheckData(p: int, n: int, v: int) returns (ok: bool)
      requires heap.Valid() && Fits(heap.Live(), Region(p, n)) && StartsWith(heap.Live()[p - WORD_SIZE], n, v)
      requires 0 <= v < 256
      ensures ok <==> !(signedChar && 128 <= v)
    {
      FitsIsLive(heap.mem[..], heap.Heap(), Region(p, n));
      ghost var b := p - WORD_SIZE;
      assert BlockOk(heap.Heap(), b) && heap.Live()[b] == Cells(heap.mem[..], p, heap.blocks[b].size - TAGS_SIZE);
      for j := 0 to n
        invariant j == 0 || !(signedChar && 128 <= v)
      {
        assert heap.mem[p + j] == heap.Live()[b][j];
        if CharValue(heap.mem[p + j]) != v {
          return false;
        }
      }
      return true;
    }

    /** After a realloc: the old range goes, the new one is checked, and so is the data it should hold. */
    method CheckMoved(i: nat, newp: int, size: int, ghost live: map<int, seq<int>>, ghost others: map<nat, Region>)
      returns (outcome: Outcome)
      requires heap.Valid() && Tracked(live, regions, lost) && i in regions && 0 < size && others == regions - {i}
      requires RangesOk(ranges, regions, lost + stale) && Separate(regions, lost + stale)
      requires Replaced(live, heap.Live(), regions[i].p - WORD_SIZE, newp - WORD_SIZE, size)
      modifies this`ranges
      ensures Tracked(heap.Live() - {newp - WORD_SIZE}, others, lost)
      ensures outcome.BadRange? <==> HitsStale(stale, newp, size)
      ensures outcome.DataLost? <==> !HitsStale(stale, newp, size) && signedChar && 128 <= Pattern(i)
      ensures !outcome.Exhausted? && !outcome.Aborted?
      ensures outcome.Passed? ==>
        && RangesOk(ranges, others[i := Region(newp, size)], lost + stale)
        && Separate(others[i := Region(newp, size)], lost + stale)
    {
      WithoutIndex(live, i);
      assert heap.Live() - {newp - WORD_SIZE} == live - {regions[i].p - WORD_SIZE};
      ranges := RemoveRange(ranges, regions[i].p, regions, lost + stale, i);
      var ok := Register(i, newp, size, others, lost);
      if !ok {
        return BadRange;
      }
      assert Held(live, regions[i], Pattern(i));
      ok := CheckKept(i, newp, size, live);
      return if ok then Passed else DataLost;
    }

    /** Compares what the old and the new payload of `i` have in common with the pattern. */
    method CheckKept(i: nat, newp: int, size: int, ghost live: map<int, seq<int>>) returns (ok: bool)
      requires heap.Valid() && i in regions && 0 < size && Held(live, regions[i], Pattern(i))
      requires Replaced(live, heap.Live(), regions[i].p - WORD_SIZE, newp - WORD_SIZE, size)
      ensures ok <==> !(signedChar && 128 <= Pattern(i))
    {
      ok := CheckData(newp, if size < regions[i].size then size else regions[i].size, Pattern(i));
    }

    method PlayRealloc(i: nat, size: int) returns (outcome: Outcome, newp: int)
      requires Valid() && i in regions && size <= INT_MAX
      modifies this, heap, heap.mem
      ensures heap.mem == old(heap.mem) && heap.Valid() && (outcome.Passed? || outcome.Exhausted? ==> Valid())
      ensures IsLive(old(heap.Heap()), old(regions)[i].p - WORD_SIZE)
      ensures size == 0 ==>
        && outcome.Passed? && regions == old(regions) - {i} && ranges == old(ranges)
        && lost == old(lost) && stale == old(stale) + {old(regions)[i]}
        && heap.run == old(heap.run) + [Request.Release(old(regions)[i].p - WORD_SIZE)]
      ensures outcome.Exhausted? ==> size != 0 && SameBooks() && heap.Heap() == old(heap.Heap())
      ensures size != 0 ==>
        ResizeOutcome(old(heap.Heap()), old(heap.run), old(regions)[i].p, size, newp, outcome.Exhausted?,
                      heap.Heap(), heap.run)
      ensures outcome.Aborted? <==> size < 0 && !outcome.Exhausted?
      ensures outcome.BadRange? <==> 0 < size && !outcome.Exhausted? && HitsStale(old(stale), newp, size)
      ensures outcome.DataLost? <==>
        0 < size && !outcome.Exhausted? && !HitsStale(old(stale), newp, size) && signedChar && 128 <= Pattern(i)
      ensures outcome.Passed? && size != 0 ==>
        regions == old(regions)[i := Region(newp, size)] && lost == old(lost) && stale == old(stale)
    {
      ghost var live := heap.Live();
      BlockOf(i);
      newp := CallRealloc(regions[i].p, size);
      if newp == NULL && size != 0 {
        return Exhausted, newp;
      }
      if size == 0 {
        LeaveStale(i, live);
        return Passed, newp;
      }
      if size < 0 {
        ranges := RemoveRange(ranges, regions[i].p, regions, lost + stale, i);
        return Aborted, newp;
      }
      outcome := Replace(i, newp, size, live);
    }

    /** mm_realloc of a live payload, by what it does to the layout. */
    method CallRealloc(p: int, size: int) returns (newp: int)
      requires heap.Valid() && p != NULL && IsLive(heap.Heap(), p - WORD_SIZE) && size <= INT_MAX
      modifies heap, heap.mem
      ensures heap.mem == old(heap.mem) && heap.Valid()
      ensures size == 0 ==>
        && heap.Live() == old(heap.Live()) - {p - WORD_SIZE}
        && heap.run == old(heap.run) + [Request.Release(p - WORD_SIZE)]
      ensures size != 0 ==>
        ResizeOutcome(old(heap.Heap()), old(heap.run), p, size, newp, newp == NULL, heap.Heap(), heap.run)
      ensures size != 0 && newp == NULL ==> heap.Heap() == old(heap.Heap()) && heap.mem[..] == old(heap.mem[..])
      ensures size != 0 && newp == NULL ==> heap.run == old(heap.run)
      ensures size != 0 && newp != NULL ==>
        Replaced(old(heap.Live()), heap.Live(), p - WORD_SIZE, newp - WORD_SIZE, size)
    {
      ghost var live, h := heap.Live(), heap.Heap();
      SizeFaithful(heap.brk, size);
      var fault: bool;
      newp, fault := heap.MmRealloc(p, size);
      if newp != NULL {
        ReplacedBlock(heap.mem[..], heap.Heap(), live, h, p - WORD_SIZE, newp - WORD_SIZE, size);
      }
    }

    /** Checks, fills and remembers the payload that has come in the place of index i's old one. */
    method Replace(i: nat, newp: int, size: int, ghost live: map<int, seq<int>>) returns (outcome: Outcome)
      requires heap.Valid() && i in regions && 0 < size
      requires Replaced(live, heap.Live(), regions[i].p - WORD_SIZE, newp - WORD_SIZE, size)
      requires Tracked(live, regions, lost) && RangesOk(ranges, regions, lost + stale)
      requires Separate(regions, lost + stale)
      modifies this`ranges, this`regions, heap.mem
      ensures heap.Valid() && heap.Heap() == old(heap.Heap()) && !outcome.Exhausted? && !outcome.Aborted?
      ensures outcome.BadRange? <==> HitsStale(stale, newp, size)
      ensures outcome.DataLost? <==> !HitsStale(stale, newp, size) && signedChar && 128 <= Pattern(i)
      ensures outcome.Passed? ==> Valid() && regions == old(regions)[i := Region(newp, size)]
    {
      ghost var others := regions - {i};
      outcome := CheckMoved(i, newp, size, live, others);
      if outcome.Passed? {
        Remember(i, newp, size, others);
      }
    }

    /**
      The block of `i` is gone and the driver does nothing: the range is stale. The trace may not use the entry again.
     */
    method LeaveStale(i: nat, ghost live: map<int, seq<int>>)
      requires heap.Valid() && i in regions && heap.Live() == live - {regions[i].p - WORD_SIZE}
      requires Tracked(live, regions, lost) && RangesOk(ranges, regions, lost + stale)
      requires Separate(regions, lost + stale)
      modifies this`regions, this`stale
      ensures Valid() && regions == old(regions) - {i} && stale == old(stale) + {old(regions)[i]}
    {
      ForgetIndex(live, i);
      stale := stale + {regions[i]};
      regions := regions - {i};
    }

    lemma WithoutIndex(live: map<int, seq<int>>, i: nat)
      requires Tracked(live, regions, lost) && Separate(regions, lost + stale) && i in regions
      ensures Tracked(live - {regions[i].p - WORD_SIZE}, regions - {i}, lost) && Separate(regions - {i}, lost + stale)
    {
      assert Separate(regions, lost);
      TrackedRemove(live, regions, lost, i);
      SeparateLose(regions, lost + stale, i);
    }

    lemma BlockOf(i: nat)
      requires Valid() && i in regions
      ensures IsLive(heap.Heap(), regions[i].p - WORD_SIZE) && NULL < regions[i].p
    {
      assert Held(heap.Live(), regions[i], Pattern(i));
      FitsIsLive(heap.mem[..], heap.Heap(), regions[i]);
      assert BlockOk(heap.Heap(), regions[i].p - WORD_SIZE);
    }

    /** Once the block of `i` is freed without its range being removed, the range is stale. */
    lemma ForgetIndex(live: map<int, seq<int>>, i: nat)
      requires Tracked(live, regions, lost) && RangesOk(ranges, regions, lost + stale)
      requires Separate(regions, lost + stale)
      requires i in regions
      ensures var others, stale' := regions - {i}, stale + {regions[i]};
        && Tracked(live - {regions[i].p - WORD_SIZE}, others, lost)
        && RangesOk(ranges, others, lost + stale') && Separate(others, lost + stale')
    {
      WithoutIndex(live, i);
      RangesLose(ranges, regions, lost + stale, i);
      SeparateLose(regions, lost + stale, i);
      assert lost + stale + {regions[i]} == lost + (stale + {regions[i]});
    }

    method PlayFree(i: nat)
      requires Valid() && i in regions
      modifies this, heap, heap.mem
      ensures heap.mem == old(heap.mem)
      ensures Valid() && regions == old(regions) - {i} && lost == old(lost) && stale == old(stale)
      ensures IsLive(old(heap.Heap()), old(regions)[i].p - WORD_SIZE)
      ensures heap.run == old(heap.run) + [Request.Release(old(regions)[i].p - WORD_SIZE)]
    {
      var p := regions[i].p;
      ghost var live := heap.Live();
      BlockOf(i);
      WithoutIndex(live, i);
      ranges := RemoveRange(ranges, p, regions, lost + stale, i);
      heap.MmFree(p);
      regions := regions - {i};
    }

    ghost function TheBooks(): Books
      reads this, heap
    {
      Books(heap.Heap(), regions, stale)
    }

    /** One allocation of the trace, by its verdict. */
    method PlayAllocOp(i: nat, size: int) returns (outcome: Outcome)
      requires Valid() && size <= INT_MAX
      modifies this, heap, heap.mem
      ensures heap.mem == old(heap.mem) && heap.Valid() && (outcome.Passed? || outcome.Exhausted? ==> Valid())
      ensures PlaysAlloc(old(TheBooks()), i, size, outcome, TheBooks())
      ensures outcome.Passed? ==> (lost == {} <==> old(lost) == {} && !Loses(Alloc(i, size), old(regions).Keys))
    {
      ghost var b, run := TheBooks(), heap.run;
      var p;
      outcome, p := PlayAlloc(i, size);
      AllocPlays(run, b, i, size, outcome, p, heap.Heap(), TheBooks());
    }

    /** One reallocation of the trace, by its verdict. */
    method PlayReallocOp(i: nat, size: int) returns (outcome: Outcome)
      requires Valid() && i in regions && size <= INT_MAX
      modifies this, heap, heap.mem
      ensures heap.mem == old(heap.mem) && heap.Valid() && (outcome.Passed? || outcome.Exhausted? ==> Valid())
      ensures PlaysRealloc(old(TheBooks()), i, size, signedChar, outcome, TheBooks())
      ensures outcome.Passed? ==> lost == old(lost)
    {
      ghost var b, run := TheBooks(), heap.run;
      var p;
      outcome, p := PlayRealloc(i, size);
      if size == 0 {
        ReleasedAt(run, b.layout, b.regions[i].p - WORD_SIZE, heap.Heap());
      } else {
        ReallocPlays(run, b, i, size, signedChar, outcome, p, heap.Heap(), TheBooks());
      }
    }

    method PlayFreeOp(i: nat)
      requires Valid() && i in regions
      modifies this, heap, heap.mem
      ensures heap.mem == old(heap.mem) && Valid() && lost == old(lost)
      ensures PlaysFree(old(TheBooks()), i, Passed, TheBooks())
    {
      ghost var b, run := TheBooks(), heap.run;
      PlayFree(i);
      ReleasedAt(run, b.layout, b.regions[i].p - WORD_SIZE, heap.Heap());
    }

    method PlayOne(op: TraceOp) returns (outcome: Outcome)
      requires Valid() && PlayableOp(op, regions.Keys)
      modifies this, heap, heap.mem
      ensures heap.mem == old(heap.mem) && heap.Valid() && (outcome.Passed? || outcome.Exhausted? ==> Valid())
      ensures Plays(old(TheBooks()), op, signedChar, outcome, TheBooks())
      ensures outcome.Passed? ==> (lost == {} <==> old(lost) == {} && !Loses(op, old(regions).Keys))
    {
      match op {
        case Alloc(i, size) => outcome := PlayAllocOp(i, size);
        case Realloc(i, size) => outcome := PlayReallocOp(i, size);
        case Free(i) =>
          PlayFreeOp(i);
          outcome := Passed;
      }
    }

    /** The k-th operation, and the books after it. */
    method PlayNext(ops: seq<TraceOp>, k: nat, ghost trail: seq<Books>)
      returns (outcome: Outcome, ghost trail': seq<Books>)
      requires Valid() && k < |ops| && PlayableOp(ops[k], regions.Keys)
      requires |trail| == k + 1 && trail[k] == TheBooks() && Played(ops, signedChar, trail, Passed)
      modifies this, heap, heap.mem
      ensures heap.mem == old(heap.mem) && heap.Valid() && (outcome.Passed? || outcome.Exhausted? ==> Valid())
      ensures |trail'| == k + 2 && trail'[k + 1] == TheBooks() && Played(ops, signedChar, trail', outcome)
      ensures outcome.Passed? ==> regions.Keys == NextUsed(ops[k], old(regions).Keys)
      ensures outcome.Passed? ==> (lost == {} <==> old(lost) == {} && !Loses(ops[k], old(regions).Keys))
    {
      outcome := PlayOne(ops[k]);
      PlaysOn(ops, signedChar, trail, outcome, TheBooks());
      trail' := trail + [TheBooks()];
      if outcome.Passed? { PassedUses(trail[k], ops[k], signedChar, TheBooks()); }
    }

    /** A new trace: empty books, empty heap. */
    method Reset()
      modifies this, heap
      ensures fresh(heap.mem) && Valid() && TheBooks() == NEW_BOOKS && lost == {} && heap.run == []
    {
      ranges, regions, lost, stale := [], map[], {}, {};
      var _ := heap.MmInit();
      StartTracked(heap.mem[..], heap.Heap());
      assert lost + stale == {};
    }

    /** The whole trace ends as its verdict says. */
    method EvalMmValid(ops: seq<TraceOp>) returns (outcome: Outcome)
      requires Playable(ops, {})
      modifies this, heap
      ensures heap.Valid() && (outcome.Passed? || outcome.Exhausted? ==> Valid())
      ensures Verdict(ops, signedChar, outcome)
      ensures outcome.Passed? ==> regions.Keys == UsedAfter(ops, {})
      ensures outcome.Passed? && UsedAfter(ops, {}) == {} ==>
        ((forall a :: !IsLive(heap.Heap(), a)) <==> NoneLost(ops, {}))
      ensures outcome.Passed? && UsedAfter(ops, {}) == {} && NoneLost(ops, {}) ==>
        |heap.free| <= 1 && |heap.blocks| <= 3
    {
      Reset();
      ghost var trail := [NEW_BOOKS];
      assert ops[0..] == ops && regions.Keys == {};
      for k := 0 to |ops|
        invariant fresh(heap.mem) && Valid()
        invariant Playable(ops[k..], regions.Keys) && UsedAfter(ops[k..], regions.Keys) == UsedAfter(ops, {})
        invariant NoneLost(ops, {}) <==> lost == {} && NoneLost(ops[k..], regions.Keys)
        invariant |trail| == k + 1 && trail[k] == TheBooks() && Played(ops, signedChar, trail, Passed)
      {
        assert ops[k..][0] == ops[k] && ops[k..][1..] == ops[k + 1..];
        outcome, trail := PlayNext(ops, k, trail);
        if !outcome.Passed? {
          return;
        }
      }
      if regions.Keys == {} {
        WhatIsLive();
      }
      return Passed;
    }

    /** With no index in use only lost blocks are live; if there are none, all memory is one free block again. */
    lemma WhatIsLive()
      requires Valid() && regions.Keys == {}
      ensures (forall a :: !IsLive(heap.Heap(), a)) <==> lost == {}
      ensures lost == {} ==> |heap.free| <= 1 && |heap.blocks| <= 3
    {
      var h, live := heap.Heap(), heap.Live();
      if lost == {} {
        forall a ensures !IsLive(h, a) {
          assert a in live ==> Owned(regions, lost, a);
        }
        AllFreed(h);
      } else {
        var r :| r in lost;
        assert Fits(live, r);
        FitsIsLive(heap.mem[..], h, r);
      }
    }
  }
}
