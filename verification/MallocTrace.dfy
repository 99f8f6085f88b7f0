/**
  The traces of the test driver, and the verdict on a whole trace as a matter of
  the trace alone: which blocks the allocator's layout gives to the operations,
  and which ranges the driver has forgotten to take off its list.
 */
module MallocTrace {
  import opened MallocLayout

  datatype TraceOp = Alloc(index: nat, size: int) | Realloc(index: nat, size: int) | Free(index: nat)

  /** A payload the driver remembers. */
  datatype Region = Region(p: int, size: int)

  /** How an operation or a trace ends; `Aborted` is the assertion in add_range. */
  datatype Outcome = Passed | Exhausted | BadRange | DataLost | Aborted

  // ---------------------------------------------------------------- traces

  /** Sizes are ints; an index is reallocated or freed only when in use. */
  predicate PlayableOp(op: TraceOp, used: set<nat>) {
    match op
    case Alloc(_, size) => -INT_MAX - 1 <= size <= INT_MAX
    case Realloc(i, size) => i in used && -INT_MAX - 1 <= size <= INT_MAX
    case Free(i) => i in used
  }

  function NextUsed(op: TraceOp, used: set<nat>): set<nat> {
    match op
    case Alloc(i, size) => if size == 0 then used else used + {i}
    case Realloc(i, size) => if size == 0 then used - {i} else used
    case Free(i) => used - {i}
  }

  /** The indices in use after the whole trace. */
  function UsedAfter(ops: seq<TraceOp>, used: set<nat>): set<nat> {
    if ops == [] then used else UsedAfter(ops[1..], NextUsed(ops[0], used))
  }

  predicate Playable(ops: seq<TraceOp>, used: set<nat>) {
    ops != [] ==> PlayableOp(ops[0], used) && Playable(ops[1..], NextUsed(ops[0], used))
  }

  /** The operation leaves the range of a freed block on the list. */
  predicate Zeroes(op: TraceOp) {
    op.Realloc? && op.size == 0
  }

  /** The operation puts a range on the list. */
  predicate Places(op: TraceOp) {
    !op.Free? && op.size != 0
  }

  /** The operation takes an index away from a block it still names. */
  predicate Loses(op: TraceOp, used: set<nat>) {
    op.Alloc? && op.size != 0 && op.index in used
  }

  predicate NoneLost(ops: seq<TraceOp>, used: set<nat>) {
    ops != [] ==> !Loses(ops[0], used) && NoneLost(ops[1..], NextUsed(ops[0], used))
  }

  /** Nothing is placed once a range is stale. */
  predicate PlacesFirst(ops: seq<TraceOp>) {
    forall k, l :: 0 <= k < l < |ops| && Zeroes(ops[k]) ==> !Places(ops[l])
  }

  /** The fill pattern of an index. */
  function Pattern(index: nat): int {
    index % 256
  }

  /** The operation compares data whose bytes have the top bit set. */
  predicate ComparesHigh(op: TraceOp) {
    op.Realloc? && op.size != 0 && 128 <= Pattern(op.index)
  }

  // ---------------------------------------------------------------- overlaps

  /** What add_range takes for an overlap: an end of the new payload lies in the range. */
  predicate Overlaps(r: Region, lo: int, hi: int) {
    (r.p <= lo <= r.p + r.size - 1) || (r.p <= hi <= r.p + r.size - 1)
  }

  predicate Within(w: int, lo: int, hi: int) {
    lo <= w <= hi
  }

  /** The two have a byte in common. */
  ghost predicate Shares(r: Region, lo: int, hi: int) {
    exists w :: Within(w, r.p, r.p + r.size - 1) && Within(w, lo, hi)
  }

  /** The test misses an overlap exactly when the new payload reaches beyond the range on both sides. */
  lemma MissedOverlap(r: Region, lo: int, hi: int)
    requires 0 < r.size && lo <= hi
    ensures Shares(r, lo, hi) && !Overlaps(r, lo, hi) <==> lo < r.p && r.p + r.size - 1 < hi
    ensures Overlaps(r, lo, hi) ==> Shares(r, lo, hi)
  {
    var w := if lo < r.p then r.p else lo;
    assert Shares(r, lo, hi) ==> Within(w, r.p, r.p + r.size - 1) && Within(w, lo, hi);
    assert Within(w, r.p, r.p + r.size - 1) && Within(w, lo, hi) ==> Shares(r, lo, hi);
  }

  /** An end of the new payload lies in a stale range. */
  ghost predicate HitsStale(stale: set<Region>, lo: int, size: int) {
    exists r :: r in stale && Overlaps(r, lo, lo + size - 1)
  }

  // ---------------------------------------------------------------- the verdict

  /** The heap's layout, the payloads of the indices in use, and the ranges that are on the list but should not be. */
  datatype Books = Books(layout: Layout, regions: map<nat, Region>, stale: set<Region>)

  const NEW_BOOKS: Books := Books(INITIAL_LAYOUT, map[], {})

  /** Where realloc leaves a live block that is to have `adjusted` bytes. */
  ghost function Resized(h: Layout, a: int, adjusted: int): Allocation
    requires WellFormed(h) && IsLive(h, a) && adjusted % WORD_SIZE == 0 && MINBLOCKSIZE <= adjusted
  {
    if adjusted <= h.blocks[a].size then Allocated(h, a)
    else if FitsNext(h, a, adjusted) then Allocated(Merge(h, a, a + h.blocks[a].size), a)
    else if MallocSpec(h, adjusted).OutOfMemory? then OutOfMemory
    else
      var r := MallocSpec(h, adjusted);
      MallocWellFormed(h, adjusted);
      MallocLive(h, adjusted);
      assert IsLive(r.layout, a);
      Allocated(FreeSpec(r.layout, a), r.block)
  }

  ghost predicate PlaysAlloc(b: Books, i: nat, size: int, o: Outcome, b': Books) {
    && WellFormed(b.layout)
    && if size == 0 then o.Passed? && b' == b
       else match MallocSpec(b.layout, AdjustedSize(size))
       case OutOfMemory => o.Exhausted?
       case Allocated(g, a) =>
         if size < 0 then o.Aborted?
         else if HitsStale(b.stale, a + WORD_SIZE, size) then o.BadRange?
         else o.Passed? && b' == Books(g, b.regions[i := Region(a + WORD_SIZE, size)], b.stale)
  }

  ghost predicate PlaysRealloc(b: Books, i: nat, size: int, signedChar: bool, o: Outcome, b': Books) {
    && WellFormed(b.layout) && i in b.regions && IsLive(b.layout, b.regions[i].p - WORD_SIZE)
    && var a := b.regions[i].p - WORD_SIZE;
       if size == 0 then
         o.Passed? && b' == Books(FreeSpec(b.layout, a), b.regions - {i}, b.stale + {b.regions[i]})
       else match Resized(b.layout, a, AdjustedSize(size))
       case OutOfMemory => o.Exhausted?
       case Allocated(g, n) =>
         if size < 0 then o.Aborted?
         else if HitsStale(b.stale, n + WORD_SIZE, size) then o.BadRange?
         else if signedChar && 128 <= Pattern(i) then o.DataLost?
         else o.Passed? && b' == Books(g, b.regions[i := Region(n + WORD_SIZE, size)], b.stale)
  }

  ghost predicate PlaysFree(b: Books, i: nat, o: Outcome, b': Books) {
    && WellFormed(b.layout) && i in b.regions && IsLive(b.layout, b.regions[i].p - WORD_SIZE)
    && o.Passed? && b' == Books(FreeSpec(b.layout, b.regions[i].p - WORD_SIZE), b.regions - {i}, b.stale)
  }

  /** The operation ends with `o`; the books are then `b'`, if it passed. */
  ghost predicate Plays(b: Books, op: TraceOp, signedChar: bool, o: Outcome, b': Books) {
    match op
    case Alloc(i, size) => PlaysAlloc(b, i, size, o, b')
    case Realloc(i, size) => PlaysRealloc(b, i, size, signedChar, o, b')
    case Free(i) => PlaysFree(b, i, o, b')
  }

  lemma PlaysOnce(b: Books, op: TraceOp, signedChar: bool, o: Outcome, b1: Books, o': Outcome, b2: Books)
    requires Plays(b, op, signedChar, o, b1) && Plays(b, op, signedChar, o', b2)
    ensures o == o' && (o.Passed? ==> b1 == b2)
  {
  }

  /** What passing operations do to the indices in use and to the stale ranges. */
  lemma PassedUses(b: Books, op: TraceOp, signedChar: bool, b': Books)
    requires Plays(b, op, signedChar, Passed, b')
    ensures b'.regions.Keys == NextUsed(op, b.regions.Keys)
    ensures b'.stale == {} <==> b.stale == {} && !Zeroes(op)
  {
  }

  /**
    The k-th operation takes the books one further; it passes, unless it is the last of the trail, which ends with
    `o`.
   */
  ghost predicate PlayedAt(ops: seq<TraceOp>, signedChar: bool, trail: seq<Books>, o: Outcome, k: nat)
    requires k < |ops| && k + 1 < |trail|
  {
    Plays(trail[k], ops[k], signedChar, if k + 2 == |trail| then o else Passed, trail[k + 1])
  }

  /**
    `trail` is the books before, between and after the first operations of the trace, the last of which ended with
    `o`.
   */
  ghost predicate Played(ops: seq<TraceOp>, signedChar: bool, trail: seq<Books>, o: Outcome) {
    && 0 < |trail| <= |ops| + 1 && trail[0] == NEW_BOOKS
    && (forall k {:trigger PlayedAt(ops, signedChar, trail, o, k)} ::
          0 <= k < |trail| - 1 ==> PlayedAt(ops, signedChar, trail, o, k))
  }

  /** Played from a fresh heap, the trace ends with `o`: all of it passes, or up to an operation that does not. */
  ghost predicate Verdict(ops: seq<TraceOp>, signedChar: bool, o: Outcome) {
    exists trail :: Played(ops, signedChar, trail, o) && if o.Passed? then |trail| == |ops| + 1 else 1 < |trail|
  }

  lemma PlaysOn(ops: seq<TraceOp>, signedChar: bool, trail: seq<Books>, o: Outcome, b: Books)
    requires Played(ops, signedChar, trail, Passed) && |trail| <= |ops|
    requires Plays(trail[|trail| - 1], ops[|trail| - 1], signedChar, o, b)
    ensures Played(ops, signedChar, trail + [b], o)
  {
    var trail' := trail + [b];
    forall k {:trigger PlayedAt(ops, signedChar, trail', o, k)} | 0 <= k < |trail'| - 1
      ensures PlayedAt(ops, signedChar, trail', o, k)
    {
      if k < |trail| - 1 { assert PlayedAt(ops, signedChar, trail, Passed, k); }
    }
  }

  lemma {:induction false} TrailsAgree(ops: seq<TraceOp>, signedChar: bool, t: seq<Books>, o: Outcome,
                                       u: seq<Books>, o': Outcome, k: nat)
    requires Played(ops, signedChar, t, o) && Played(ops, signedChar, u, o') && k + 1 < |t| && k + 1 < |u|
    ensures t[k] == u[k]
  {
    if k > 0 {
      TrailsAgree(ops, signedChar, t, o, u, o', k - 1);
      assert PlayedAt(ops, signedChar, t, o, k - 1) && PlayedAt(ops, signedChar, u, o', k - 1);
      PlaysOnce(t[k - 1], ops[k - 1], signedChar, Passed, t[k], Passed, u[k]);
    }
  }

  /** Where the shorter of two trails stops, both have the same outcome. */
  lemma StopsAlike(ops: seq<TraceOp>, signedChar: bool, t: seq<Books>, o: Outcome, u: seq<Books>, o': Outcome)
    requires Played(ops, signedChar, t, o) && Played(ops, signedChar, u, o') && 1 < |t| <= |u|
    ensures o == if |t| == |u| then o' else Passed
  {
    var k := |t| - 2;
    TrailsAgree(ops, signedChar, t, o, u, o', k);
    assert PlayedAt(ops, signedChar, t, o, k) && PlayedAt(ops, signedChar, u, o', k);
    PlaysOnce(t[k], ops[k], signedChar, o, t[k + 1], if |t| == |u| then o' else Passed, u[k + 1]);
  }

  /** The trace alone decides how it ends. */
  lemma VerdictOnce(ops: seq<TraceOp>, signedChar: bool, o: Outcome, o': Outcome)
    requires Verdict(ops, signedChar, o) && Verdict(ops, signedChar, o')
    ensures o == o'
  {
    var t :| Played(ops, signedChar, t, o) && if o.Passed? then |t| == |ops| + 1 else 1 < |t|;
    var u :| Played(ops, signedChar, u, o') && if o'.Passed? then |u| == |ops| + 1 else 1 < |u|;
    if 1 < |t| <= |u| {
      StopsAlike(ops, signedChar, t, o, u, o');
    } else if 1 < |u| < |t| {
      StopsAlike(ops, signedChar, u, o', t, o);
    }
  }

  // ---------------------------------------------------------------- what a verdict means

  lemma {:induction false} StaleFrom(ops: seq<TraceOp>, signedChar: bool, trail: seq<Books>, o: Outcome, k: nat)
    requires Played(ops, signedChar, trail, o) && k + 1 < |trail| && trail[k].stale != {}
    ensures exists l :: 0 <= l < k && Zeroes(ops[l])
  {
    assert k > 0;
    assert PlayedAt(ops, signedChar, trail, o, k - 1);
    PassedUses(trail[k - 1], ops[k - 1], signedChar, trail[k]);
    if !Zeroes(ops[k - 1]) {
      StaleFrom(ops, signedChar, trail, o, k - 1);
    }
  }

  /** A payload is refused only after a reallocation to zero. */
  lemma RefusedAfterZero(ops: seq<TraceOp>, signedChar: bool)
    requires Verdict(ops, signedChar, BadRange)
    ensures !PlacesFirst(ops)
  {
    var trail :| Played(ops, signedChar, trail, BadRange) && 1 < |trail|;
    var k := |trail| - 2;
    assert PlayedAt(ops, signedChar, trail, BadRange, k);
    BadRangeFacts(trail[k], ops[k], signedChar, trail[k + 1]);
    StaleFrom(ops, signedChar, trail, BadRange, k);
  }

  lemma BadRangeFacts(b: Books, op: TraceOp, signedChar: bool, b': Books)
    requires Plays(b, op, signedChar, BadRange, b')
    ensures Places(op) && b.stale != {}
  {
  }

  /** Data is found lost only where high bytes are compared as signed chars, and no trace passes such a comparison. */
  lemma DataLostExactly(ops: seq<TraceOp>, signedChar: bool)
    ensures Verdict(ops, signedChar, DataLost) ==> signedChar && exists op :: op in ops && ComparesHigh(op)
    ensures Verdict(ops, signedChar, Passed) && signedChar ==> forall op :: op in ops ==> !ComparesHigh(op)
  {
    if Verdict(ops, signedChar, DataLost) {
      var trail :| Played(ops, signedChar, trail, DataLost) && 1 < |trail|;
      var k := |trail| - 2;
      assert PlayedAt(ops, signedChar, trail, DataLost, k) && ops[k] in ops;
    }
    if Verdict(ops, signedChar, Passed) && signedChar {
      var trail :| Played(ops, signedChar, trail, Passed) && |trail| == |ops| + 1;
      forall k | 0 <= k < |ops|
        ensures !ComparesHigh(ops[k])
      {
        assert PlayedAt(ops, signedChar, trail, Passed, k);
      }
    }
  }

  // ---------------------------------------------------------------- from the heap's requests

  /** The block that has come to life is the one first fit chooses. */
  lemma AllocatedAt(run: seq<Request>, h: Layout, adjusted: int, g: Layout, b: int)
    requires Leads(run, h) && Leads(run + [Request.Allocate(adjusted)], g) && !IsLive(h, b) && IsLive(g, b)
    ensures WellFormed(h) && MallocSpec(h, adjusted) == Allocated(g, b)
  {
    ServedBy(run, h, Request.Allocate(adjusted), g);
    MallocLive(h, adjusted);
  }

  lemma ReleasedAt(run: seq<Request>, h: Layout, a: int, g: Layout)
    requires Leads(run, h) && IsLive(h, a) && Leads(run + [Release(a)], g)
    ensures WellFormed(h) && g == FreeSpec(h, a)
  {
    ServedBy(run, h, Release(a), g);
  }

  /** Where the requests of a resize leave the block: in place, perhaps grown, */
  lemma FitsAt(run: seq<Request>, h: Layout, a: int, adjusted: int, g: Layout)
    requires Leads(run, h) && WellFormed(h) && IsLive(h, a) && adjusted % WORD_SIZE == 0 && MINBLOCKSIZE <= adjusted
    requires FitsInPlace(h, a, adjusted) && Leads(run + ResizeRequests(h, a, adjusted), g)
    ensures Resized(h, a, adjusted) == Allocated(g, a)
  {
    if adjusted <= h.blocks[a].size {
      assert run + [] == run;
      LeadsOnce(run, h, g);
    } else {
      ServedBy(run, h, Grow(a), g);
    }
  }

  /** or in the block first fit chooses. */
  lemma MovedAt(run: seq<Request>, h: Layout, a: int, adjusted: int, g: Layout, n: int)
    requires Leads(run, h) && WellFormed(h) && IsLive(h, a) && adjusted % WORD_SIZE == 0 && MINBLOCKSIZE <= adjusted
    requires Leads(run + [Request.Allocate(adjusted), Release(a)], g) && IsLive(g, n) && (IsLive(h, n) ==> n == a)
    ensures var r := MallocSpec(h, adjusted);
      r.Allocated? && WellFormed(r.layout) && IsLive(r.layout, a) && g == FreeSpec(r.layout, a) && n == r.block
  {
    var run', q := run + [Request.Allocate(adjusted)], Release(a);
    assert run' + [q] == run + [Request.Allocate(adjusted), q];
    var trail :| Trail(run' + [q], trail) && trail[|run'| + 1] == g;
    LeadsBefore(run' + [q], trail);
    assert (run' + [q])[..|run'|] == run';
    var mid := trail[|run'|];
    ServedBy(run, h, Request.Allocate(adjusted), mid);
    MallocLive(h, adjusted);
    FreeLive(mid, a);
  }

  /** An allocation whose block came from the heap's next request is the allocation of the verdict. */
  lemma AllocPlays(run: seq<Request>, b: Books, i: nat, size: int, o: Outcome, p: int, g: Layout, b': Books)
    requires Leads(run, b.layout) && !o.DataLost?
    requires o.Exhausted? <==>
      size != 0 && NoFit(b.layout, AdjustedSize(size)) && MAX_HEAP < b.layout.brk + AdjustedSize(size)
    requires !o.Exhausted? && size != 0 ==>
      && Leads(run + [Request.Allocate(AdjustedSize(size))], g)
      && !IsLive(b.layout, p - WORD_SIZE) && IsLive(g, p - WORD_SIZE)
    requires o.Aborted? <==> size < 0 && !o.Exhausted?
    requires o.BadRange? <==> 0 < size && !o.Exhausted? && HitsStale(b.stale, p, size)
    requires o.Passed? ==> b' == if size == 0 then b else Books(g, b.regions[i := Region(p, size)], b.stale)
    ensures PlaysAlloc(b, i, size, o, b')
  {
    LeadsSound(run, b.layout);
    MallocOutcome(b.layout, AdjustedSize(size));
    if !o.Exhausted? && size != 0 {
      AllocatedAt(run, b.layout, AdjustedSize(size), g, p - WORD_SIZE);
    }
  }

  /** The same for a reallocation to a size other than zero. */
  lemma ReallocPlays(run: seq<Request>, b: Books, i: nat, size: int, signedChar: bool, o: Outcome, p: int, g: Layout,
                     b': Books)
    requires Leads(run, b.layout) && size != 0 && i in b.regions && IsLive(b.layout, b.regions[i].p - WORD_SIZE)
    requires var h, a, adjusted := b.layout, b.regions[i].p - WORD_SIZE, AdjustedSize(size);
      && (o.Exhausted? <==> !FitsInPlace(h, a, adjusted) && NoFit(h, adjusted) && MAX_HEAP < h.brk + adjusted)
      && (!o.Exhausted? ==> Leads(run + ResizeRequests(h, a, adjusted), g))
      && (FitsInPlace(h, a, adjusted) ==> p - WORD_SIZE == a)
      && (!o.Exhausted? ==> IsLive(g, p - WORD_SIZE) && (IsLive(h, p - WORD_SIZE) ==> p - WORD_SIZE == a))
    requires o.Aborted? <==> size < 0 && !o.Exhausted?
    requires o.BadRange? <==> 0 < size && !o.Exhausted? && HitsStale(b.stale, p, size)
    requires o.DataLost? <==>
      0 < size && !o.Exhausted? && !HitsStale(b.stale, p, size) && signedChar && 128 <= Pattern(i)
    requires o.Passed? ==> b' == Books(g, b.regions[i := Region(p, size)], b.stale)
    ensures PlaysRealloc(b, i, size, signedChar, o, b')
  {
    var h, a, adjusted := b.layout, b.regions[i].p - WORD_SIZE, AdjustedSize(size);
    LeadsSound(run, h);
    if o.Exhausted? {
      MallocOutcome(h, adjusted);
    } else if FitsInPlace(h, a, adjusted) {
      FitsAt(run, h, a, adjusted, g);
    } else {
      MovedAt(run, h, a, adjusted, g, p - WORD_SIZE);
    }
  }
}
