/**
  Two short traces with their verdicts: one that the driver refuses although the
  allocator is right, one that it accepts although two listed ranges overlap.
 */
module MallocExamples {
  import opened Sequences
  import opened MallocLayout
  import opened MallocHazards
  import opened MallocTrace

  /**
    Allocate `n` bytes, reallocate them to zero, allocate `m` bytes: the overlap check refuses the answer exactly
    when the request fits the freed block, although the allocator has done nothing wrong.
   */
  lemma ReuseVerdict(n: int, m: int, signedChar: bool)
    requires 0 < n && 0 < m && 2 * TAGS_SIZE + AdjustedSize(n) <= MAX_HEAP
    ensures Verdict([Alloc(0, n), Realloc(0, 0), Alloc(1, m)], signedChar,
                    if AdjustedSize(m) <= AdjustedSize(n) then BadRange
                    else if MAX_HEAP < 2 * TAGS_SIZE + AdjustedSize(n) + AdjustedSize(m) then Exhausted else Passed)
  {
    var ops, size := [Alloc(0, n), Realloc(0, 0), Alloc(1, m)], AdjustedSize(n);
    var r := Region(TAGS_SIZE + WORD_SIZE, n);
    var b1, b2 := Books(OneBlock(size, true), map[0 := r], {}), Books(OneBlock(size, false), map[], {r});
    TwoOfReuse(ops, n, signedChar, b1, b2);
    var o, b3 := LastOfReuse(n, m, signedChar);
    PlaysOn(ops, signedChar, [NEW_BOOKS] + [b1] + [b2], o, b3);
  }

  lemma TwoOfReuse(ops: seq<TraceOp>, n: int, signedChar: bool, b1: Books, b2: Books)
    requires 0 < n && 2 * TAGS_SIZE + AdjustedSize(n) <= MAX_HEAP && |ops| > 2
    requires ops[..2] == [Alloc(0, n), Realloc(0, 0)]
    requires var r := Region(TAGS_SIZE + WORD_SIZE, n);
      && b1 == Books(OneBlock(AdjustedSize(n), true), map[0 := r], {})
      && b2 == Books(OneBlock(AdjustedSize(n), false), map[], {r})
    ensures Played(ops, signedChar, [NEW_BOOKS] + [b1] + [b2], Passed)
  {
    assert ops[0] == ops[..2][0] && ops[1] == ops[..2][1];
    FirstOfReuse(n, signedChar);
    PlaysOn(ops, signedChar, [NEW_BOOKS], Passed, b1);
    SecondOfReuse(n, signedChar);
    PlaysOn(ops, signedChar, [NEW_BOOKS] + [b1], Passed, b2);
  }

  lemma FirstOfReuse(n: int, signedChar: bool)
    requires 0 < n && 2 * TAGS_SIZE + AdjustedSize(n) <= MAX_HEAP
    ensures Plays(NEW_BOOKS, Alloc(0, n), signedChar, Passed,
                  Books(OneBlock(AdjustedSize(n), true), map[0 := Region(TAGS_SIZE + WORD_SIZE, n)], {}))
  {
    InitialWellFormed();
    FirstBlock(AdjustedSize(n));
    assert map[][0 := Region(TAGS_SIZE + WORD_SIZE, n)] == map[0 := Region(TAGS_SIZE + WORD_SIZE, n)];
  }

  lemma SecondOfReuse(n: int, signedChar: bool)
    requires 0 < n && 2 * TAGS_SIZE + AdjustedSize(n) <= MAX_HEAP
    ensures var r := Region(TAGS_SIZE + WORD_SIZE, n);
      Plays(Books(OneBlock(AdjustedSize(n), true), map[0 := r], {}), Realloc(0, 0), signedChar, Passed,
            Books(OneBlock(AdjustedSize(n), false), map[], {r}))
  {
    var h, r := OneBlock(AdjustedSize(n), true), Region(TAGS_SIZE + WORD_SIZE, n);
    OneLeads(AdjustedSize(n));
    LeadsSound([Request.Allocate(AdjustedSize(n))], h);
    OnlyOneFreed(h, AdjustedSize(n));
    assert map[0 := r] - {0} == map[] && {} + {r} == {r};
  }

  lemma LastOfReuse(n: int, m: int, signedChar: bool) returns (o: Outcome, b: Books)
    requires 0 < n && 0 < m && 2 * TAGS_SIZE + AdjustedSize(n) <= MAX_HEAP
    ensures Plays(Books(OneBlock(AdjustedSize(n), false), map[], {Region(TAGS_SIZE + WORD_SIZE, n)}), Alloc(1, m),
                  signedChar, o, b)
    ensures o == if AdjustedSize(m) <= AdjustedSize(n) then BadRange
                 else if MAX_HEAP < 2 * TAGS_SIZE + AdjustedSize(n) + AdjustedSize(m) then Exhausted else Passed
  {
    var h, r := OneBlock(AdjustedSize(n), false), Region(TAGS_SIZE + WORD_SIZE, n);
    OneFreed(AdjustedSize(n));
    LeadsSound([Request.Allocate(AdjustedSize(n)), Release(TAGS_SIZE)], h);
    FreedServes(AdjustedSize(n), AdjustedSize(m));
    MallocOutcome(h, AdjustedSize(m));
    ReuseHits(n, m);
    var g := MallocSpec(h, AdjustedSize(m));
    if g.OutOfMemory? {
      o, b := Exhausted, NEW_BOOKS;
    } else if AdjustedSize(m) <= AdjustedSize(n) {
      o, b := BadRange, NEW_BOOKS;
    } else {
      o, b := Passed, Books(g.layout, map[][1 := Region(g.block + WORD_SIZE, m)], {r});
    }
  }

  /** The stale range of the first payload is in the way of the second exactly when that is inside the freed block. */
  lemma ReuseHits(n: int, m: int)
    requires 0 < n && 0 < m
    ensures HitsStale({Region(TAGS_SIZE + WORD_SIZE, n)}, ServedAt(AdjustedSize(n), AdjustedSize(m)) + WORD_SIZE, m)
      <==>
      AdjustedSize(m) <= AdjustedSize(n)
  {
    AdjustedIsAligned(n);
    var r, lo := Region(TAGS_SIZE + WORD_SIZE, n), ServedAt(AdjustedSize(n), AdjustedSize(m)) + WORD_SIZE;
    assert Overlaps(r, lo, lo + m - 1) <==> AdjustedSize(m) <= AdjustedSize(n);
    assert r in {r};
  }

  /** Two blocks of 32 bytes between the sentinels, the second one possibly free. */
  ghost function TwoBlocks(used: bool): Layout {
    Layout(map[0 := Block(TAGS_SIZE, true), 16 := Block(32, true), 48 := Block(32, used), 80 := Block(TAGS_SIZE, true)],
           if used then [] else [48], 96)
  }

  lemma TwoAllocated()
    ensures WellFormed(OneBlock(32, true)) && MallocSpec(OneBlock(32, true), 32) == Allocated(TwoBlocks(true), 48)
    ensures WellFormed(TwoBlocks(true))
  {
    var h := OneBlock(32, true);
    OneLeads(32);
    LeadsSound([Request.Allocate(32)], h);
    assert Extend(h, 32) == TwoBlocks(true);
    MallocWellFormed(h, 32);
  }

  lemma SecondFreed()
    requires WellFormed(TwoBlocks(true))
    ensures IsLive(TwoBlocks(true), 48) && FreeSpec(TwoBlocks(true), 48) == TwoBlocks(false)
    ensures WellFormed(TwoBlocks(false))
  {
    var h := TwoBlocks(true);
    MarkFreeSound(h, 48);
    var g := MarkFree(h, 48);
    assert g == TwoBlocks(false);
    assert Prev(g, 48) == 16;
    FreeWellFormed(h, 48);
  }

  lemma FirstFreed()
    requires WellFormed(TwoBlocks(false))
    ensures IsLive(TwoBlocks(false), 16) && FreeSpec(TwoBlocks(false), 16) == OneBlock(64, false)
  {
    var h := TwoBlocks(false);
    MarkFreeSound(h, 16);
    var g := MarkFree(h, 16);
    assert Prev(g, 16) == 0;
    assert g.free == [16, 48] && IndexOf(g.free, 48) == 1 && Without(g.free, 48) == [16];
    assert Merge(g, 16, 48) == OneBlock(64, false);
  }

  lemma ThirdOfFive(signedChar: bool, r0: Region, r1: Region)
    requires r0 == Region(24, 16) && r1 == Region(56, 8)
    ensures Plays(Books(TwoBlocks(true), map[0 := r0, 1 := r1], {}), Realloc(1, 0), signedChar, Passed,
                  Books(TwoBlocks(false), map[0 := r0], {r1}))
  {
    TwoAllocated();
    SecondFreed();
    assert map[0 := r0, 1 := r1] - {1} == map[0 := r0] && {} + {r1} == {r1};
  }

  lemma FourthOfFive(signedChar: bool, r0: Region, r1: Region)
    requires r0 == Region(24, 16)
    ensures Plays(Books(TwoBlocks(false), map[0 := r0], {r1}), Free(0), signedChar, Passed,
                  Books(OneBlock(64, false), map[], {r1}))
  {
    TwoAllocated();
    SecondFreed();
    FirstFreed();
    assert map[0 := r0] - {0} == map[];
  }

  lemma LastOfFive(signedChar: bool, r1: Region, r2: Region)
    requires r1 == Region(56, 8) && r2 == Region(24, 48)
    ensures Plays(Books(OneBlock(64, false), map[], {r1}), Alloc(2, 48), signedChar, Passed,
                  Books(OneBlock(64, true), map[2 := r2], {r1}))
  {
    WholeTaken();
    assert map[][2 := r2] == map[2 := r2];
    assert !Overlaps(r1, 24, 71);
  }

  lemma WholeTaken()
    ensures var h := OneBlock(64, false);
      WellFormed(h) && MallocSpec(h, 64) == Allocated(OneBlock(64, true), TAGS_SIZE)
  {
    var h := OneBlock(64, false);
    OneFreed(64);
    LeadsSound([Request.Allocate(64), Release(TAGS_SIZE)], h);
    assert Take(h, TAGS_SIZE) == OneBlock(64, true) && FirstFit(h, 64, 0) == 0;
  }

  lemma SecondOfFive(signedChar: bool, r0: Region, r1: Region)
    requires r1 == Region(56, 8)
    ensures Plays(Books(OneBlock(32, true), map[0 := r0], {}), Alloc(1, 8), signedChar, Passed,
                  Books(TwoBlocks(true), map[0 := r0, 1 := r1], {}))
  {
    TwoAllocated();
    assert map[0 := r0][1 := r1] == map[0 := r0, 1 := r1];
  }

  function FiveOps(): (ops: seq<TraceOp>)
    ensures |ops| == 5
  {
    [Alloc(0, 16), Alloc(1, 8), Realloc(1, 0), Free(0), Alloc(2, 48)]
  }

  /** The books after the first k of them. */
  ghost function FiveBooks(k: nat): Books {
    var r0, r1, r2 := Region(24, 16), Region(56, 8), Region(24, 48);
    match k
    case 0 => NEW_BOOKS
    case 1 => Books(OneBlock(32, true), map[0 := r0], {})
    case 2 => Books(TwoBlocks(true), map[0 := r0, 1 := r1], {})
    case 3 => Books(TwoBlocks(false), map[0 := r0], {r1})
    case 4 => Books(OneBlock(64, false), map[], {r1})
    case _ => Books(OneBlock(64, true), map[2 := r2], {r1})
  }

  lemma FiveStep(signedChar: bool, k: nat)
    requires k < 5
    ensures Plays(FiveBooks(k), FiveOps()[k], signedChar, Passed, FiveBooks(k + 1))
  {
    var r0, r1, r2 := Region(24, 16), Region(56, 8), Region(24, 48);
    match k
    case 0 => FirstOfReuse(16, signedChar);
    case 1 => SecondOfFive(signedChar, r0, r1);
    case 2 => ThirdOfFive(signedChar, r0, r1);
    case 3 => FourthOfFive(signedChar, r0, r1);
    case 4 => LastOfFive(signedChar, r1, r2);
  }

  lemma {:induction false} FivePassed(signedChar: bool, k: nat) returns (trail: seq<Books>)
    requires k <= 5
    ensures Played(FiveOps(), signedChar, trail, Passed) && |trail| == k + 1 && trail[k] == FiveBooks(k)
  {
    if k == 0 {
      trail := [NEW_BOOKS];
    } else {
      var before := FivePassed(signedChar, k - 1);
      FiveStep(signedChar, k - 1);
      PlaysOn(FiveOps(), signedChar, before, Passed, FiveBooks(k));
      trail := before + [FiveBooks(k)];
    }
  }

  /** A trace that passes although its last payload, bytes 24 to 71, covers the stale range 56 to 63. */
  lemma EnclosedPasses(signedChar: bool) returns (b: Books)
    ensures Verdict(FiveOps(), signedChar, Passed) && Plays(FiveBooks(4), FiveOps()[4], signedChar, Passed, b)
    ensures 2 in b.regions && b.regions[2] == Region(24, 48) && Region(56, 8) in b.stale
    ensures Shares(Region(56, 8), 24, 71)
  {
    var trail := FivePassed(signedChar, 5);
    FiveStep(signedChar, 4);
    b := FiveBooks(5);
    MissedOverlap(Region(56, 8), 24, 71);
  }

  /** A block of 32 bytes and a free one of 32 after it: the payload grows to 48 bytes where it is, an exact fit. */
  lemma ExactFit()
    ensures Leads([Request.Allocate(32), Request.Allocate(32), Release(48)], TwoBlocks(false)) && AdjustedSize(48) == 64
    ensures WellFormed(TwoBlocks(false)) && IsLive(TwoBlocks(false), 16)
    ensures Resized(TwoBlocks(false), 16, 64) == Allocated(OneBlock(64, true), 16)
    ensures Plays(Books(TwoBlocks(false), map[0 := Region(24, 16)], {}), Realloc(0, 48), false, Passed,
                  Books(OneBlock(64, true), map[0 := Region(24, 48)], {}))
  {
    TwoLead();
    GrownWhole();
    assert map[0 := Region(24, 16)][0 := Region(24, 48)] == map[0 := Region(24, 48)];
  }

  lemma GrownWhole()
    ensures WellFormed(TwoBlocks(false)) && IsLive(TwoBlocks(false), 16)
    ensures Resized(TwoBlocks(false), 16, 64) == Allocated(OneBlock(64, true), 16)
  {
    TwoAllocated();
    SecondFreed();
    var h := TwoBlocks(false);
    assert Without(h.free, 48) == [] by { assert h.free == [48]; }
    assert Merge(h, 16, 48) == OneBlock(64, true);
  }

  lemma TwoLead()
    ensures Leads([Request.Allocate(32), Request.Allocate(32), Release(48)], TwoBlocks(false))
  {
    var q := Request.Allocate(32);
    TwoAllocated();
    SecondFreed();
    OneLeads(32);
    AllocateLeads([q], OneBlock(32, true), 32, TwoBlocks(true), 48);
    assert [q] + [q] == [q, q];
    ReleaseLeads([q, q], TwoBlocks(true), 48, TwoBlocks(false));
    assert [q, q] + [Release(48)] == [q, q, Release(48)];
  }
}
