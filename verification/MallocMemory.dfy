/**
  How a layout is stored in memory.  A memory is a sequence of cells indexed by
  byte address; the cell at an aligned address holds the long stored there.
  Every block keeps its size, with the allocated bit folded in, in its first and
  last word; a free block keeps the addresses of its list neighbours in the two
  words after its first tag.
 */
module MallocMemory {
  import opened Sequences
  import opened MallocLayout

  // ---------------------------------------------------------------- tag words

  function Tag(b: Block): int {
    b.size + if b.used then 1 else 0
  }

  /** `w & -2` */
  function ClearBit(w: int): int {
    w - w % 2
  }

  /** `w | 1` */
  function SetBit(w: int): int {
    w - w % 2 + 1
  }

  predicate UsedBit(w: int) {
    w % 2 == 1
  }

  lemma EvenSize(n: int)
    requires n % WORD_SIZE == 0
    ensures n % 2 == 0 && (n + 1) % 2 == 1
  {
    var q := n / WORD_SIZE;
    assert n == 2 * (4 * q);
  }

  /** Setting or clearing the bit of a tag word leaves the size in it. */
  lemma BitsAgain(w: int)
    requires TAGS_SIZE <= w && ClearBit(w) % WORD_SIZE == 0
    ensures ClearBit(SetBit(w)) == ClearBit(w) == ClearBit(ClearBit(w)) && TAGS_SIZE <= ClearBit(w)
    ensures SetBit(w) == Tag(Block(ClearBit(w), true)) && ClearBit(w) == Tag(Block(ClearBit(w), false))
  {
    EvenSize(ClearBit(w));
  }

  /** Size and allocated bit can both be read back from a tag word. */
  lemma TagBits(b: Block)
    requires b.size % WORD_SIZE == 0
    ensures ClearBit(Tag(b)) == b.size && UsedBit(Tag(b)) == b.used
  {
    EvenSize(b.size);
  }

  // ---------------------------------------------------------------- storage predicates

  ghost predicate HasTags(m: seq<int>, blocks: map<int, Block>, a: int)
    requires a in blocks
  {
    var n := blocks[a].size;
    && 0 <= a && a % WORD_SIZE == 0 && TAGS_SIZE <= n && n % WORD_SIZE == 0 && a + n <= |m|
    && m[a] == Tag(blocks[a])
    && m[a + n - WORD_SIZE] == Tag(blocks[a])
  }

  ghost predicate Tagged(m: seq<int>, blocks: map<int, Block>) {
    forall a {:trigger HasTags(m, blocks, a)} :: a in blocks ==> HasTags(m, blocks, a)
  }

  function SuccIndex(s: seq<int>, i: int): int {
    if i + 1 < |s| then i + 1 else 0
  }

  function PredIndex(s: seq<int>, i: int): int {
    if 0 < i then i - 1 else |s| - 1
  }

  function Succ(s: seq<int>, i: int): int
    requires 0 <= i < |s|
  {
    s[SuccIndex(s, i)]
  }

  function Pred(s: seq<int>, i: int): int
    requires 0 <= i < |s|
  {
    s[PredIndex(s, i)]
  }

  ghost predicate HasLinks(m: seq<int>, s: seq<int>, i: int)
    requires 0 <= i < |s|
  {
    && 0 <= s[i] && s[i] + 3 * WORD_SIZE <= |m|
    && m[s[i] + WORD_SIZE] == Succ(s, i)
    && m[s[i] + 2 * WORD_SIZE] == Pred(s, i)
  }

  /** The blocks of `s` form one circular doubly linked list, in that order. */
  ghost predicate Linked(m: seq<int>, s: seq<int>) {
    forall i {:trigger HasLinks(m, s, i)} :: 0 <= i < |s| ==> HasLinks(m, s, i)
  }

  ghost predicate Linkable(blocks: map<int, Block>, a: int) {
    a in blocks && !blocks[a].used && MINBLOCKSIZE <= blocks[a].size
  }

  /** Tags and links in memory agree with `blocks` and `s`. */
  ghost predicate Coherent(m: seq<int>, blocks: map<int, Block>, s: seq<int>) {
    && Apart(blocks)
    && Tagged(m, blocks)
    && Distinct(s)
    && (forall i :: 0 <= i < |s| ==> Linkable(blocks, s[i]))
    && Linked(m, s)
  }

  function First(s: seq<int>): int {
    if s == [] then 0 else s[0]
  }

  // ---------------------------------------------------------------- payloads

  ghost predicate InPayload(blocks: map<int, Block>, a: int, w: int) {
    a in blocks && blocks[a].used && a + WORD_SIZE <= w < a + blocks[a].size - WORD_SIZE
  }

  /** No cell of an allocated payload differs, except possibly inside block `except`. */
  ghost predicate SamePayloads(m: seq<int>, m': seq<int>, blocks: map<int, Block>, except: int) {
    && |m'| == |m|
    && (forall a, w {:trigger InPayload(blocks, a, w)} ::
          InPayload(blocks, a, w) && a != except && 0 <= w < |m| ==> m'[w] == m[w])
  }

  // ---------------------------------------------------------------- memory writes

  function PullMem(m: seq<int>, b: int): (m': seq<int>)
    requires 0 <= b && b + 3 * WORD_SIZE <= |m|
    requires var next, prev := m[b + WORD_SIZE], m[b + 2 * WORD_SIZE];
      0 <= prev + WORD_SIZE < |m| && 0 <= next + 2 * WORD_SIZE < |m|
    ensures |m'| == |m|
  {
    var next, prev := m[b + WORD_SIZE], m[b + 2 * WORD_SIZE];
    m[prev + WORD_SIZE := next][next + 2 * WORD_SIZE := prev]
  }

  function InsertMem(m: seq<int>, first: int, b: int): (m': seq<int>)
    requires 0 <= b && b + 3 * WORD_SIZE <= |m|
    requires first != 0 ==>
      0 <= first && first + 3 * WORD_SIZE <= |m| && 0 <= m[first + 2 * WORD_SIZE] + WORD_SIZE < |m|
    ensures |m'| == |m|
  {
    if first == 0 then m[b + WORD_SIZE := b][b + 2 * WORD_SIZE := b]
    else
      var last := m[first + 2 * WORD_SIZE];
      m[b + WORD_SIZE := first][b + 2 * WORD_SIZE := last][last + WORD_SIZE := b][first + 2 * WORD_SIZE := b]
  }

  function TagMem(m: seq<int>, a: int, b: Block): (m': seq<int>)
    requires 0 <= a && TAGS_SIZE <= b.size && a + b.size <= |m|
    ensures |m'| == |m|
  {
    m[a := Tag(b)][a + b.size - WORD_SIZE := Tag(b)]
  }

  /** Tagging the two sentinels of a fresh heap makes it the initial layout. */
  lemma InitialCoherent(m: seq<int>, m': seq<int>)
    requires |m| == MAX_HEAP
    requires m' == TagMem(TagMem(m, 0, Block(TAGS_SIZE, true)), TAGS_SIZE, Block(TAGS_SIZE, true))
    ensures Coherent(m', INITIAL_LAYOUT.blocks, []) && WellFormed(INITIAL_LAYOUT) && -1 !in INITIAL_LAYOUT.blocks
  {
    InitialWellFormed();
    var blocks := INITIAL_LAYOUT.blocks;
    assert forall a {:trigger HasTags(m', blocks, a)} :: a in blocks ==> HasTags(m', blocks, a);
  }

  // ---------------------------------------------------------------- frames

  /** A write strictly between the tags of block `x` disturbs no tag and no other payload. */
  lemma WriteInside(m: seq<int>, blocks: map<int, Block>, x: int, w: int, v: int)
    requires Apart(blocks) && Tagged(m, blocks) && x in blocks
    requires x + WORD_SIZE <= w < x + blocks[x].size - WORD_SIZE && 0 <= w < |m|
    ensures Tagged(m[w := v], blocks)
    ensures SamePayloads(m, m[w := v], blocks, x)
  {
    var m' := m[w := v];
    forall a {:trigger HasTags(m', blocks, a)} | a in blocks
      ensures HasTags(m', blocks, a)
    {
      assert HasTags(m, blocks, a) && Ordered(blocks, a, x) && Ordered(blocks, x, a);
    }
    forall a, u {:trigger InPayload(blocks, a, u)} | InPayload(blocks, a, u) && a != x && 0 <= u < |m|
      ensures m'[u] == m[u]
    {
      assert Ordered(blocks, a, x) && Ordered(blocks, x, a);
    }
  }

  /** Every allocated block of `blocks`, except `except`, is also in `more`. */
  ghost predicate Keeps(blocks: map<int, Block>, more: map<int, Block>, except: int) {
    forall a :: a in blocks && a != except && blocks[a].used ==> a in more && more[a] == blocks[a]
  }

  lemma SamePayloadsTrans(m: seq<int>, m': seq<int>, m'': seq<int>,
                          blocks: map<int, Block>, more: map<int, Block>, except: int)
    requires SamePayloads(m, m', blocks, except) && SamePayloads(m', m'', more, -1)
    requires Keeps(blocks, more, except) && -1 !in more
    ensures SamePayloads(m, m'', blocks, except)
  {
    forall a, w {:trigger InPayload(blocks, a, w)} | InPayload(blocks, a, w) && a != except && 0 <= w < |m|
      ensures m''[w] == m[w]
    {
      assert InPayload(more, a, w);
    }
  }

  /** Link cells of different blocks, and tag cells, never collide. */
  lemma ListBlocksApart(blocks: map<int, Block>, s: seq<int>, i: int, j: int)
    requires Apart(blocks) && Distinct(s) && 0 <= i < |s| && 0 <= j < |s| && i != j
    requires Linkable(blocks, s[i]) && Linkable(blocks, s[j])
    ensures s[i] + MINBLOCKSIZE <= s[j] || s[j] + MINBLOCKSIZE <= s[i]
  {
    assert Ordered(blocks, s[i], s[j]) && Ordered(blocks, s[j], s[i]);
  }

  // ---------------------------------------------------------------- pulling a block from the list

  lemma DropAtIndex(s: seq<int>, k: int, j: int)
    requires 0 <= k < |s| && 0 <= j < |s| - 1
    ensures DropAt(s, k)[j] == if j < k then s[j] else s[j + 1]
  {
  }

  /** Dropping element `k` joins its two neighbours and changes no other adjacency. */
  lemma DropNeighbours(s: seq<int>, k: int, j: int)
    requires 0 <= k < |s| && 0 <= j < |s| - 1
    ensures var i := if j < k then j else j + 1;
      && DropAt(s, k)[j] == s[i]
      && Succ(DropAt(s, k), j) == (if i == PredIndex(s, k) then Succ(s, k) else Succ(s, i))
      && Pred(DropAt(s, k), j) == (if i == SuccIndex(s, k) then Pred(s, k) else Pred(s, i))
  {
    DropAtIndex(s, k, j);
    DropAtIndex(s, k, SuccIndex(DropAt(s, k), j));
    DropAtIndex(s, k, PredIndex(DropAt(s, k), j));
  }

  lemma PullLinksAt(m: seq<int>, blocks: map<int, Block>, s: seq<int>, k: int, i: int)
    requires Coherent(m, blocks, s) && 0 <= k < |s| && 0 <= i < |s|
    requires HasLinks(m, s, k)
    requires 0 <= Pred(s, k) && Pred(s, k) + 3 * WORD_SIZE <= |m|
    requires 0 <= Succ(s, k) && Succ(s, k) + 3 * WORD_SIZE <= |m|
    ensures HasLinks(m, s, i)
    ensures var m' := PullMem(m, s[k]);
      && m'[s[i] + WORD_SIZE] == (if i == PredIndex(s, k) then Succ(s, k) else Succ(s, i))
      && m'[s[i] + 2 * WORD_SIZE] == (if i == SuccIndex(s, k) then Pred(s, k) else Pred(s, i))
  {
    var p, n := PredIndex(s, k), SuccIndex(s, k);
    assert HasLinks(m, s, i);
    if i != p { ListBlocksApart(blocks, s, i, p); }
    if i != n { ListBlocksApart(blocks, s, i, n); }
    if p != n { ListBlocksApart(blocks, s, p, n); }
  }

  lemma PullLinked(m: seq<int>, blocks: map<int, Block>, s: seq<int>, k: int)
    requires Coherent(m, blocks, s) && 0 <= k < |s|
    ensures HasLinks(m, s, k)
    ensures 0 <= Pred(s, k) && Pred(s, k) + 3 * WORD_SIZE <= |m|
    ensures 0 <= Succ(s, k) && Succ(s, k) + 3 * WORD_SIZE <= |m|
    ensures Linked(PullMem(m, s[k]), DropAt(s, k))
  {
    assert HasLinks(m, s, k);
    assert HasLinks(m, s, PredIndex(s, k)) && HasLinks(m, s, SuccIndex(s, k));
    var m', t := PullMem(m, s[k]), DropAt(s, k);
    forall j {:trigger HasLinks(m', t, j)} | 0 <= j < |t|
      ensures HasLinks(m', t, j)
    {
      DropNeighbours(s, k, j);
      PullLinksAt(m, blocks, s, k, if j < k then j else j + 1);
    }
  }

  lemma PullCoherent(m: seq<int>, blocks: map<int, Block>, s: seq<int>, k: int)
    requires Coherent(m, blocks, s) && 0 <= k < |s|
    ensures HasLinks(m, s, k)
    ensures 0 <= Pred(s, k) && Pred(s, k) + 3 * WORD_SIZE <= |m|
    ensures 0 <= Succ(s, k) && Succ(s, k) + 3 * WORD_SIZE <= |m|
    ensures Coherent(PullMem(m, s[k]), blocks, DropAt(s, k))
    ensures SamePayloads(m, PullMem(m, s[k]), blocks, -1)
  {
    PullLinked(m, blocks, s, k);
    var prev, next := Pred(s, k), Succ(s, k);
    assert Linkable(blocks, prev) && Linkable(blocks, next);
    var m1 := m[prev + WORD_SIZE := next];
    WriteInside(m, blocks, prev, prev + WORD_SIZE, next);
    WriteInside(m1, blocks, next, next + 2 * WORD_SIZE, prev);
  }

  // ---------------------------------------------------------------- inserting a block at the front

  lemma InsertLinksAt(m: seq<int>, blocks: map<int, Block>, s: seq<int>, b: int, i: int)
    requires Coherent(m, blocks, s) && Linkable(blocks, b) && b !in s && 0 <= i < |s|
    requires 0 <= b && b + 3 * WORD_SIZE <= |m| && First(s) != 0
    requires HasLinks(m, s, 0) && 0 <= Pred(s, 0) && Pred(s, 0) + 3 * WORD_SIZE <= |m|
    ensures HasLinks(m, s, i)
    ensures var m' := InsertMem(m, First(s), b);
      && m'[s[i] + WORD_SIZE] == (if i == |s| - 1 then b else s[i + 1])
      && m'[s[i] + 2 * WORD_SIZE] == (if i == 0 then b else s[i - 1])
      && m'[b + WORD_SIZE] == s[0] && m'[b + 2 * WORD_SIZE] == s[|s| - 1]
  {
    var z := |s| - 1;
    assert HasLinks(m, s, i);
    assert Ordered(blocks, b, s[i]) && Ordered(blocks, s[i], b);
    assert Ordered(blocks, b, s[0]) && Ordered(blocks, s[0], b);
    assert Ordered(blocks, b, s[z]) && Ordered(blocks, s[z], b);
    if i != 0 { ListBlocksApart(blocks, s, i, 0); }
    if i != z { ListBlocksApart(blocks, s, i, z); }
    if z != 0 { ListBlocksApart(blocks, s, 0, z); }
  }

  lemma InsertLinked(m: seq<int>, blocks: map<int, Block>, s: seq<int>, b: int)
    requires Coherent(m, blocks, s) && Linkable(blocks, b) && b !in s && 0 < |s|
    requires 0 <= b && b + 3 * WORD_SIZE <= |m| && First(s) != 0
    ensures HasLinks(m, s, 0) && 0 <= Pred(s, 0) && Pred(s, 0) + 3 * WORD_SIZE <= |m|
    ensures Linked(InsertMem(m, First(s), b), [b] + s)
  {
    assert HasLinks(m, s, 0) && HasLinks(m, s, |s| - 1);
    var m', t := InsertMem(m, First(s), b), [b] + s;
    forall j {:trigger HasLinks(m', t, j)} | 0 <= j < |t|
      ensures HasLinks(m', t, j)
    {
      InsertLinksAt(m, blocks, s, b, if j == 0 then 0 else j - 1);
    }
  }

  lemma InsertCoherent(m: seq<int>, blocks: map<int, Block>, s: seq<int>, b: int)
    requires Coherent(m, blocks, s) && Linkable(blocks, b) && b !in s && 0 !in s
    ensures 0 <= b && b + 3 * WORD_SIZE <= |m|
    ensures s != [] ==> HasLinks(m, s, 0) && 0 <= Pred(s, 0) && Pred(s, 0) + 3 * WORD_SIZE <= |m|
    ensures Coherent(InsertMem(m, First(s), b), blocks, [b] + s)
    ensures SamePayloads(m, InsertMem(m, First(s), b), blocks, -1)
  {
    assert HasTags(m, blocks, b);
    if s == [] {
      var m1 := m[b + WORD_SIZE := b];
      WriteInside(m, blocks, b, b + WORD_SIZE, b);
      WriteInside(m1, blocks, b, b + 2 * WORD_SIZE, b);
    } else {
      InsertLinked(m, blocks, s, b);
      var first, last := s[0], Pred(s, 0);
      assert Linkable(blocks, first) && Linkable(blocks, last);
      var m1 := m[b + WORD_SIZE := first];
      var m2 := m1[b + 2 * WORD_SIZE := last];
      var m3 := m2[last + WORD_SIZE := b];
      WriteInside(m, blocks, b, b + WORD_SIZE, first);
      WriteInside(m1, blocks, b, b + 2 * WORD_SIZE, last);
      WriteInside(m2, blocks, last, last + WORD_SIZE, b);
      WriteInside(m3, blocks, first, first + 2 * WORD_SIZE, b);
    }
  }

  // ---------------------------------------------------------------- rewriting a block's tags

  /** Block `a` gets new tags; it may be new, or take over space no other block uses. */
  lemma RetagCoherent(m: seq<int>, blocks: map<int, Block>, s: seq<int>, a: int, b: Block)
    requires Apart(blocks[a := b]) && Tagged(m, blocks - {a}) && Distinct(s) && Linked(m, s)
    requires 0 <= a && a % WORD_SIZE == 0 && TAGS_SIZE <= b.size && b.size % WORD_SIZE == 0 && a + b.size <= |m|
    requires forall i :: 0 <= i < |s| ==> Linkable(blocks[a := b], s[i])
    ensures Coherent(TagMem(m, a, b), blocks[a := b], s)
    ensures SamePayloads(m, TagMem(m, a, b), blocks[a := b], -1)
  {
    var after, m' := blocks[a := b], TagMem(m, a, b);
    forall x {:trigger HasTags(m', after, x)} | x in after
      ensures HasTags(m', after, x)
    {
      if x != a {
        assert HasTags(m, blocks - {a}, x) && Ordered(after, x, a) && Ordered(after, a, x);
      }
    }
    forall i {:trigger HasLinks(m', s, i)} | 0 <= i < |s|
      ensures HasLinks(m', s, i)
    {
      assert HasLinks(m, s, i) && Linkable(after, s[i]);
      assert Ordered(after, s[i], a) && Ordered(after, a, s[i]);
    }
    forall x, w {:trigger InPayload(after, x, w)} | InPayload(after, x, w) && 0 <= w < |m|
      ensures m'[w] == m[w]
    {
      assert Ordered(after, x, a) && Ordered(after, a, x);
    }
  }

  lemma TaggedSubmap(m: seq<int>, blocks: map<int, Block>, a: int)
    requires Tagged(m, blocks)
    ensures Tagged(m, blocks - {a})
  {
    forall x {:trigger HasTags(m, blocks - {a}, x)} | x in blocks - {a}
      ensures HasTags(m, blocks - {a}, x)
    {
      assert HasTags(m, blocks, x);
    }
  }

  lemma ApartSubmap(blocks: map<int, Block>, a: int)
    requires Apart(blocks)
    ensures Apart(blocks - {a})
  {
    forall x, y {:trigger Ordered(blocks - {a}, x, y)} | x in blocks - {a} && y in blocks - {a}
      ensures Ordered(blocks - {a}, x, y)
    {
      assert Ordered(blocks, x, y);
    }
  }

  // ---------------------------------------------------------------- writes by the owner of a payload

  /** Whatever is written inside one allocated payload, tags, links and other payloads stay. */
  lemma PayloadWrite(m: seq<int>, m': seq<int>, blocks: map<int, Block>, s: seq<int>, b: int)
    requires Coherent(m, blocks, s) && b in blocks && blocks[b].used && |m'| == |m|
    requires forall w :: 0 <= w < |m| && !InPayload(blocks, b, w) ==> m'[w] == m[w]
    ensures Coherent(m', blocks, s)
    ensures SamePayloads(m, m', blocks, b)
  {
    forall a {:trigger HasTags(m', blocks, a)} | a in blocks
      ensures HasTags(m', blocks, a)
    {
      assert HasTags(m, blocks, a) && Ordered(blocks, a, b) && Ordered(blocks, b, a);
    }
    forall i {:trigger HasLinks(m', s, i)} | 0 <= i < |s|
      ensures HasLinks(m', s, i)
    {
      assert HasLinks(m, s, i) && Linkable(blocks, s[i]);
      assert Ordered(blocks, s[i], b) && Ordered(blocks, b, s[i]);
    }
    forall a, w {:trigger InPayload(blocks, a, w)} | InPayload(blocks, a, w) && a != b && 0 <= w < |m|
      ensures m'[w] == m[w]
    {
      assert Ordered(blocks, a, b) && Ordered(blocks, b, a);
    }
  }

  // ---------------------------------------------------------------- what the client sees

  /** The `n` cells of `m` from address `a` on. */
  ghost function Cells(m: seq<int>, a: int, n: int): (r: seq<int>)
    requires 0 <= a && 0 <= n && a + n <= |m|
    ensures |r| == n && forall i :: 0 <= i < n ==> r[i] == m[a + i]
  {
    seq(n, i requires 0 <= i < n => m[a + i])
  }

  /** The payload of every live block, keyed by the address of the block. */
  ghost function Contents(m: seq<int>, h: Layout): map<int, seq<int>>
    requires WellFormed(h) && |m| == MAX_HEAP
  {
    map a | a in h.blocks && IsLive(h, a) ::
      assert BlockOk(h, a); Cells(m, a + WORD_SIZE, h.blocks[a].size - TAGS_SIZE)
  }

  /** No payload cell of a live block, except those of `gone`, differs. */
  ghost predicate LiveSame(m: seq<int>, m': seq<int>, h: Layout, gone: int) {
    && |m| == |m'|
    && (forall a, w {:trigger InPayload(h.blocks, a, w)} ::
          IsLive(h, a) && InPayload(h.blocks, a, w) && a != gone && 0 <= w < |m| ==> m'[w] == m[w])
  }

  /** Unless it is `gone` or `come`, a live block keeps its payload. */
  lemma ContentsChange(m: seq<int>, m': seq<int>, h: Layout, g: Layout, gone: int, come: int)
    requires WellFormed(h) && WellFormed(g) && |m| == |m'| == MAX_HEAP
    requires LiveChange(h, g, gone, come) && LiveSame(m, m', h, gone)
    ensures Contents(m, h) - {gone, come} == Contents(m', g) - {gone, come}
  {
    var c, c' := Contents(m, h) - {gone, come}, Contents(m', g) - {gone, come};
    forall a | a != gone && a != come
      ensures a in c <==> a in c'
      ensures a in c ==> c[a] == c'[a]
    {
      assert IsLive(h, a) <==> IsLive(g, a);
      if IsLive(h, a) {
        assert BlockOk(h, a) && g.blocks[a] == h.blocks[a];
        forall i | 0 <= i < h.blocks[a].size - TAGS_SIZE
          ensures c[a][i] == c'[a][i]
        {
          assert InPayload(h.blocks, a, a + WORD_SIZE + i);
        }
        assert c[a] == c'[a];
      }
    }
    assert c.Keys == c'.Keys;
  }

  /** Block `b` keeps its length and now starts with what `a` held; the other blocks are unchanged. */
  ghost predicate Filled(before: map<int, seq<int>>, after: map<int, seq<int>>, a: int, b: int) {
    && a in before && b in before && b in after
    && |after[b]| == |before[b]| && before[a] <= after[b]
    && after - {b} == before - {b}
  }

  /** Filling live block `b` with the payload of live block `a` changes only `b`. */
  lemma CopiedContents(m: seq<int>, m': seq<int>, h: Layout, a: int, b: int)
    requires WellFormed(h) && IsLive(h, a) && IsLive(h, b) && |m| == |m'| == MAX_HEAP
    requires SamePayloads(m, m', h.blocks, b) && h.blocks[a].size <= h.blocks[b].size
    requires BlockOk(h, a) && BlockOk(h, b)
    requires var n := h.blocks[a].size - TAGS_SIZE;
      Cells(m', b + WORD_SIZE, n) == Cells(m, a + WORD_SIZE, n)
    ensures Filled(Contents(m, h), Contents(m', h), a, b)
  {
    ContentsChange(m, m', h, h, b, b);
    assert {b, b} == {b};
    var n := h.blocks[a].size - TAGS_SIZE;
    var whole := Cells(m', b + WORD_SIZE, h.blocks[b].size - TAGS_SIZE);
    assert Contents(m', h)[b] == whole;
    assert whole[..n] == Cells(m', b + WORD_SIZE, n);
  }

  /** Growing live block `x` in place keeps its payload at the front. */
  lemma GrownContents(m: seq<int>, m': seq<int>, h: Layout, g: Layout, x: int)
    requires WellFormed(h) && WellFormed(g) && IsLive(h, x) && IsLive(g, x) && |m| == |m'| == MAX_HEAP
    requires SamePayloads(m, m', h.blocks, -1) && LiveChange(h, g, x, x)
    requires h.blocks[x].size <= g.blocks[x].size
    ensures Replaced(Contents(m, h), Contents(m', g), x, x, g.blocks[x].size - TAGS_SIZE)
  {
    assert BlockOk(h, x) && BlockOk(g, x);
    ContentsChange(m, m', h, g, x, x);
    assert {x, x} == {x};
    var n := h.blocks[x].size - TAGS_SIZE;
    var c, c' := Contents(m, h)[x], Contents(m', g)[x];
    forall i | 0 <= i < n
      ensures c'[i] == c[i]
    {
      assert InPayload(h.blocks, x, x + WORD_SIZE + i);
    }
    assert c'[..n] == c;
  }

  /** Block `a` has become block `b` of at least `size` payload bytes, old payload first; no other block changed. */
  ghost predicate Replaced(before: map<int, seq<int>>, after: map<int, seq<int>>, a: int, b: int, size: int) {
    && a in before && b in after
    && size <= |after[b]| && before[a] <= after[b]
    && after - {b} == before - {a}
  }

  /** A block `b` of at least `size` payload bytes has come into being; nothing else changed. */
  ghost predicate Added(before: map<int, seq<int>>, after: map<int, seq<int>>, b: int, size: int) {
    b !in before && b in after && size <= |after[b]| && after - {b} == before
  }

  lemma AddedContents(m: seq<int>, m': seq<int>, h: Layout, g: Layout, b: int)
    requires WellFormed(h) && WellFormed(g) && |m| == |m'| == MAX_HEAP
    requires !IsLive(h, b) && IsLive(g, b) && LiveChange(h, g, b, b) && LiveSame(m, m', h, -1)
    ensures Added(Contents(m, h), Contents(m', g), b, g.blocks[b].size - TAGS_SIZE)
  {
    assert BlockOk(g, b);
    ContentsChange(m, m', h, g, b, b);
    assert {b, b} == {b} && Contents(m, h) - {b} == Contents(m, h);
  }

  /** Allocate `b`, fill it from `a`: once `a` is dropped, `a` has become `b`. */
  lemma MovedContents(before: map<int, seq<int>>, mid: map<int, seq<int>>, filled: map<int, seq<int>>,
                      a: int, b: int, size: int)
    requires a in before && a != b
    requires Added(before, mid, b, size) && Filled(mid, filled, a, b)
    ensures Replaced(before, filled - {a}, a, b, size)
  {
    assert before[a] == (mid - {b})[a] == mid[a];
    assert filled - {a} - {b} == filled - {b} - {a};
  }
}
