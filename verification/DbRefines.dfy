/**
  The machine on memory refines the threads on the tree: whatever the interleaving,
  memory stores the tree except for the writes a walking remove has made ahead of
  its last one, and no other thread can see those.
 */
module DbRefines {
  import opened Options
  import opened DbTree
  import opened DbConcurrent
  import opened DbSafety
  import opened DbMachine

  // ---------------------------------------------------------------- spines

  /** A record is found by its own key. */
  lemma {:induction false} FoundById(t: Tree<nat>, x: nat)
    requires Ordered(t) && DistinctIds(t) && x in Ids(t)
    ensures Lookup(t, Shape(t)[x].key).Some? && SubtreeAt(t, Shape(t)[x].key).id == x
  {
    if x != t.id {
      var k := Shape(t)[x].key;
      var s := if x in Ids(t.l) then t.l else t.r;
      FoundById(s, x);
      assert Shape(s)[x] == Shape(t)[x];
      LookupIsMapGet(s, k);
      assert k in Contents(s);
      if s == t.r && x in Ids(t.r) { LessAsymmetric(t.key, k); } else { LessAsymmetric(k, t.key); }
    }
  }

  /** The spine of a tree follows the left links its records store. */
  lemma {:induction false} SpineLinks(t: Tree<nat>, i: nat)
    requires DistinctIds(t) && i < |Spine(t)|
    ensures var sp := Spine(t);
      sp[i] in Ids(t) && Shape(t)[sp[i]].left == if i + 1 < |sp| then Some(sp[i + 1]) else None
  {
    if i > 0 {
      SpineLinks(t.l, i - 1);
    }
  }

  lemma SpineStored(tree: Tree<nat>, k: string)
    requires TreeOk(tree) && Lookup(tree, k).Some? && SubtreeAt(tree, k).r.Fork?
    ensures IsSpine(Cells(HEAD, tree), SubtreeAt(tree, k).id, SpineKey(tree, k))
  {
    var s := SubtreeAt(tree, k);
    SubtreeFacts(tree, k, HEAD);
    var cells, sp := Cells(HEAD, tree), Spine(s.r);
    forall i {:trigger LinkedAt(cells, sp, i)} | 0 <= i < |sp|
      ensures LinkedAt(cells, sp, i)
    {
      SpineLinks(s.r, i);
    }
  }

  lemma {:induction false} SpineUnique(cells: map<nat, Cell<nat>>, x: nat, a: seq<nat>, b: seq<nat>, i: nat)
    requires IsSpine(cells, x, a) && IsSpine(cells, x, b) && i < |a|
    ensures i < |b| && a[i] == b[i] && (i + 1 == |a| ==> |b| == |a|)
  {
    if i > 0 {
      SpineUnique(cells, x, a, b, i - 1);
      assert LinkedAt(cells, a, i - 1) && LinkedAt(cells, b, i - 1);
    }
    assert LinkedAt(cells, a, i) && LinkedAt(cells, b, i);
  }

  lemma SpineOnly(cells: map<nat, Cell<nat>>, x: nat, a: seq<nat>, b: seq<nat>)
    requires IsSpine(cells, x, a) && IsSpine(cells, x, b)
    ensures a == b
  {
    SpineUnique(cells, x, a, b, |a| - 1);
    forall i | 0 <= i < |a| ensures a[i] == b[i] { SpineUnique(cells, x, a, b, i); }
  }

  /** The record of `k` and its spine. */
  function Zone(tree: Tree<nat>, k: string): set<nat> {
    SpineIds(tree, k) + if Lookup(tree, k).Some? then {SubtreeAt(tree, k).id} else {}
  }

  /** A change of the tree that leaves these records as they are leaves the spine as it is. */
  lemma SpineStable(tree: Tree<nat>, tree': Tree<nat>, k: string)
    requires TreeOk(tree) && TreeOk(tree') && Lookup(tree, k).Some? && SubtreeAt(tree, k).r.Fork?
    requires forall y {:trigger CellOf(tree', y)} ::
      y in Zone(tree, k) ==> y in Ids(tree') && CellOf(tree', y) == CellOf(tree, y)
    ensures Lookup(tree', k).Some? && SubtreeAt(tree', k).id == SubtreeAt(tree, k).id
    ensures SubtreeAt(tree', k).r.Fork? && SpineKey(tree', k) == SpineKey(tree, k) && Zone(tree', k) == Zone(tree, k)
  {
    var x, sp := SubtreeAt(tree, k).id, SpineKey(tree, k);
    SpineStored(tree, k);
    RootCell(tree, k);
    assert x in Zone(tree, k) && CellOf(tree', x) == CellOf(tree, x);
    FoundById(tree', x);
    RootCell(tree', k);
    SpineStored(tree', k);
    var cells' := Cells(HEAD, tree');
    assert IsSpine(cells', x, sp) by {
      forall i {:trigger LinkedAt(cells', sp, i)} | 0 <= i < |sp|
        ensures LinkedAt(cells', sp, i)
      {
        assert LinkedAt(Cells(HEAD, tree), sp, i);
        assert sp[i] in Zone(tree, k) && CellOf(tree', sp[i]) == CellOf(tree, sp[i]);
      }
    }
    SpineOnly(Cells(HEAD, tree'), x, sp, SpineKey(tree', k));
  }

  /** What the record of a key stores. */
  lemma RootCell(tree: Tree<nat>, k: string)
    requires TreeOk(tree) && Lookup(tree, k).Some?
    ensures var s := SubtreeAt(tree, k);
      && s.id in Ids(tree) && s.id != HEAD && CellOf(tree, s.id) == Cell(k, s.value, RootOf(s.l), RootOf(s.r))
  {
    SubtreeFacts(tree, k, HEAD);
  }

  /** A spine turns left at every record, so it misses what is right of one. */
  lemma {:induction false} SpineThrough(t: Tree<nat>, k: string)
    requires DistinctIds(t) && Lookup(t, k).Some?
    ensures forall y :: y in Spine(t) ==> y !in Ids(SubtreeAt(t, k).r)
    decreases t
  {
    SubtreeFacts(t, k, HEAD);
    SpineWithin(t.l);
    if k != t.key {
      SubtreeFacts(Side(t, k), k, HEAD);
      if Less(k, t.key) {
        SpineThrough(t.l, k);
      }
    }
  }

  /** The spines of two keys have no record in common. */
  lemma {:induction false} SpinesApart(t: Tree<nat>, k1: string, k2: string)
    requires DistinctIds(t) && Lookup(t, k1).Some? && Lookup(t, k2).Some? && k1 != k2
    ensures forall y :: y in Spine(SubtreeAt(t, k1).r) ==> y !in Spine(SubtreeAt(t, k2).r)
    decreases t
  {
    SpineWithin(SubtreeAt(t, k1).r);
    SpineWithin(SubtreeAt(t, k2).r);
    if k1 == t.key {
      SpineBelowRoot(t, k2);
    } else if k2 == t.key {
      SpineBelowRoot(t, k1);
    } else {
      SubtreeFacts(Side(t, k1), k1, HEAD);
      SubtreeFacts(Side(t, k2), k2, HEAD);
      if Side(t, k1) == Side(t, k2) {
        SpinesApart(Side(t, k1), k1, k2);
      }
    }
  }

  lemma SpineBelowRoot(t: Tree<nat>, k: string)
    requires DistinctIds(t) && Lookup(t, k).Some? && t.key != k
    ensures forall y :: y in Spine(SubtreeAt(t, k).r) ==> y !in Spine(t.r)
  {
    SubtreeFacts(Side(t, k), k, HEAD);
    SpineWithin(SubtreeAt(t, k).r);
    SpineWithin(t.r);
    if !Less(k, t.key) {
      SpineThrough(t.r, k);
    }
  }

  // ---------------------------------------------------------------- the relation

  function Threads(workers: map<nat, Worker>): map<nat, Thread> {
    map t | t in workers :: Thread(workers[t].op, Shown(workers[t].spot))
  }

  ghost predicate AtIndex(sp: seq<nat>, x: nat, h: nat, n: nat, stage: Stage, i: nat) {
    && i < |sp| && sp[i] == n && h == (if i == 0 then x else sp[i - 1])
    && (stage.Seek? || i == |sp| - 1)
  }

  /** A walking remove stands on the spine, which nobody else uses; past its search it stands on the last record. */
  ghost predicate WalkOk(s: State, t: nat, spot: Spot) {
    && AtSuccessorWalk(s, t) && spot.Walk? && s.threads[t].at == Hit(spot.p, spot.x)
    && SpineFree(s, t, s.threads[t].op.key)
    && exists i :: AtIndex(SpineKey(s.tree, s.threads[t].op.key), spot.x, spot.h, spot.n, spot.stage, i)
  }

  /** The records a walking remove has written, or may have, before its last write. */
  predicate Touches(spot: Spot, y: nat) {
    spot.Walk? && (spot.stage.Unlinked? || spot.stage.KeyCopied?) && (y == spot.h || y == spot.x)
  }

  /** What such a record holds in memory, where the tree says CellOf(tree, y). */
  function Written(tree: Tree<nat>, spot: Spot, y: nat): Cell<nat>
    requires spot.Walk?
  {
    var succ, before := CellOf(tree, spot.n), CellOf(tree, y);
    var cell := if y == spot.h then WithLink(before, spot.h == spot.x, succ.right) else before;
    if y == spot.x && spot.stage.KeyCopied? then cell.(key := succ.key) else cell
  }

  ghost predicate Untouched(workers: map<nat, Worker>, y: nat) {
    forall u :: u in workers ==> !Touches(workers[u].spot, y)
  }

  ghost predicate Holds(cells: map<nat, Cell<nat>>, y: nat, cell: Cell<nat>) {
    y in cells && cells[y] == cell
  }

  /** Memory stores the tree, but for what walking removes have written. */
  ghost predicate MemoryOk(cells: map<nat, Cell<nat>>, tree: Tree<nat>, workers: map<nat, Worker>) {
    && (forall y {:trigger Untouched(workers, y)} ::
          (y in Ids(tree) || y == HEAD) && Untouched(workers, y) ==> Holds(cells, y, CellOf(tree, y)))
    && (forall u, y {:trigger Touches(workers[u].spot, y)} :: u in workers && Touches(workers[u].spot, y) ==>
          Holds(cells, y, Written(tree, workers[u].spot, y)))
  }

  ghost predicate WalksOk(s: State, workers: map<nat, Worker>) {
    forall u {:trigger workers[u].spot} :: u in workers && workers[u].spot.Walk? ==> WalkOk(s, u, workers[u].spot)
  }

  ghost predicate Refines(c: Machine, s: State) {
    && s.locks == c.locks && s.history == c.history && s.threads == Threads(c.workers) && s.live == c.cells.Keys
    && MemoryOk(c.cells, s.tree, c.workers) && WalksOk(s, c.workers)
  }

  // ---------------------------------------------------------------- zones

  lemma ZoneWithin(tree: Tree<nat>, k: string)
    requires TreeOk(tree) && Lookup(tree, k).Some?
    ensures Zone(tree, k) <= Ids(tree) && SubtreeAt(tree, k).id !in SpineIds(tree, k)
  {
    SubtreeFacts(tree, k, HEAD);
    SpineWithin(SubtreeAt(tree, k).r);
  }

  lemma WalkZone(s: State, t: nat, spot: Spot)
    requires Good(s) && WalkOk(s, t, spot)
    ensures var k := s.threads[t].op.key;
      && Lookup(s.tree, k).Some? && SubtreeAt(s.tree, k).id == spot.x && SubtreeAt(s.tree, k).r.Fork?
      && spot.n in SpineIds(s.tree, k) && spot.x in Zone(s.tree, k) && spot.h in Zone(s.tree, k) && spot.n != spot.x
      && spot.x in Ids(s.tree) && Zone(s.tree, k) <= Ids(s.tree)
  {
    var k := s.threads[t].op.key;
    WalkFacts(s, t);
    ZoneWithin(s.tree, k);
    var i :| AtIndex(SpineKey(s.tree, k), spot.x, spot.h, spot.n, spot.stage, i);
  }

  /** Nobody else holds a record of a walking remove's zone. */
  lemma ZoneUnheld(s: State, t: nat, spot: Spot, u: nat, y: nat)
    requires Good(s) && WalkOk(s, t, spot) && u in s.threads && u != t && y in HeldIds(s.threads[u].at)
    ensures y !in Zone(s.tree, s.threads[t].op.key)
  {
    WalkZone(s, t, spot);
    Exclusive(s.locks, s.threads, t, u, spot.x);
  }

  /** The record another remove has found is outside the zone of a walking one. */
  lemma FoundOutside(s: State, t: nat, spot: Spot, u: nat, spot': Spot)
    requires Good(s) && WalkOk(s, t, spot) && WalkOk(s, u, spot') && t != u
    ensures var k' := s.threads[u].op.key;
      Lookup(s.tree, k').Some? && SubtreeAt(s.tree, k').id !in Zone(s.tree, s.threads[t].op.key)
  {
    WalkZone(s, u, spot');
    ZoneUnheld(s, t, spot, u, spot'.x);
  }

  /** The zones of two walking removes are apart. */
  lemma ZonesApart(s: State, t: nat, spot: Spot, u: nat, spot': Spot)
    requires Good(s) && WalkOk(s, t, spot) && WalkOk(s, u, spot') && t != u
    ensures Zone(s.tree, s.threads[t].op.key) !! Zone(s.tree, s.threads[u].op.key)
  {
    FoundOutside(s, t, spot, u, spot');
    FoundOutside(s, u, spot', t, spot);
    SpinesApart(s.tree, s.threads[t].op.key, s.threads[u].op.key);
  }

  // ---------------------------------------------------------------- what a thread reads

  /** A record in the tree that a thread holds, and is not itself rewriting, is in memory as in the tree. */
  lemma ReadsHeld(c: Machine, s: State, t: nat, y: nat)
    requires Good(s) && Refines(c, s) && t in c.workers && c.workers[t].spot.Plain?
    requires y in HeldIds(s.threads[t].at) && (y in Ids(s.tree) || y == HEAD)
    ensures y in c.cells && Read(c, y) == CellOf(s.tree, y) && Untouched(c.workers, y)
  {
    forall u | u in c.workers
      ensures !Touches(c.workers[u].spot, y)
    {
      if c.workers[u].spot.Walk? {
        WalkZone(s, u, c.workers[u].spot);
        ZoneUnheld(s, u, c.workers[u].spot, t, y);
      }
    }
    assert Untouched(c.workers, y);
  }

  /** A walking remove reads its spine as the tree has it. */
  lemma ReadsSpine(c: Machine, s: State, t: nat, y: nat)
    requires Good(s) && Refines(c, s) && t in c.workers && c.workers[t].spot.Walk?
    requires y in Zone(s.tree, s.threads[t].op.key) && !Touches(c.workers[t].spot, y)
    ensures y in c.cells && Read(c, y) == CellOf(s.tree, y) && Untouched(c.workers, y)
  {
    WalkZone(s, t, c.workers[t].spot);
    forall u | u in c.workers
      ensures !Touches(c.workers[u].spot, y)
    {
      if c.workers[u].spot.Walk? && u != t {
        WalkZone(s, u, c.workers[u].spot);
        ZonesApart(s, t, c.workers[t].spot, u, c.workers[u].spot);
      }
    }
    assert Untouched(c.workers, y);
  }

  // ---------------------------------------------------------------- keeping off a spine

  predicate LinksTo(cell: Cell<nat>, c: nat) {
    cell.left == Some(c) || cell.right == Some(c)
  }

  lemma {:induction false} ParentUnique(t: Tree<nat>, p: nat, q: nat, c: nat)
    requires DistinctIds(t) && p in Ids(t) && q in Ids(t) && LinksTo(Shape(t)[p], c) && LinksTo(Shape(t)[q], c)
    ensures p == q && c in Ids(t) && c != t.id
  {
    ChildInside(t, p, c);
    ChildInside(t, q, c);
    if p in Ids(t.l) && q in Ids(t.l) {
      ParentUnique(t.l, p, q, c);
    } else if p in Ids(t.r) && q in Ids(t.r) {
      ParentUnique(t.r, p, q, c);
    }
  }

  /** A link leads to a record below, in the same part of the tree. */
  lemma {:induction false} ChildInside(t: Tree<nat>, p: nat, c: nat)
    requires DistinctIds(t) && p in Ids(t) && LinksTo(Shape(t)[p], c)
    ensures c in Ids(t) && c != t.id
    ensures p in Ids(t.l) ==> c in Ids(t.l) && c != t.l.id
    ensures p in Ids(t.r) ==> c in Ids(t.r) && c != t.r.id
  {
    if p in Ids(t.l) {
      ChildInside(t.l, p, c);
    } else if p in Ids(t.r) {
      ChildInside(t.r, p, c);
    }
  }

  /** Only one record, head included, links to a given one. */
  lemma OneParent(tree: Tree<nat>, p: nat, q: nat, c: nat)
    requires TreeOk(tree) && LinksTo(CellOf(tree, p), c) && LinksTo(CellOf(tree, q), c)
    ensures p == q
  {
    if p != HEAD && q != HEAD {
      ParentUnique(tree, p, q, c);
    } else if p != HEAD {
      ChildInside(tree, p, c);
    } else if q != HEAD {
      ChildInside(tree, q, c);
    }
  }

  /** A spine is entered only through its zone. */
  lemma ChildOff(tree: Tree<nat>, k: string, q: nat, c: nat)
    requires TreeOk(tree) && Lookup(tree, k).Some? && SubtreeAt(tree, k).r.Fork?
    requires LinksTo(CellOf(tree, q), c) && q !in Zone(tree, k)
    ensures c !in SpineIds(tree, k)
  {
    var x, sp := SubtreeAt(tree, k).id, SpineKey(tree, k);
    SpineStored(tree, k);
    if c in SpineIds(tree, k) {
      var i :| 0 <= i < |sp| && sp[i] == c;
      if i == 0 {
        OneParent(tree, q, x, c);
      } else {
        assert LinkedAt(Cells(HEAD, tree), sp, i - 1);
        OneParent(tree, q, sp[i - 1], c);
      }
    }
  }

  /**
    Where a step can take a thread: it keeps or gives up records, takes what it awaited, awaits a child of what it
    holds.
   */
  ghost predicate NextPlace(tree: Tree<nat>, at: Place, at': Place) {
    && (forall y :: y in HeldIds(at') ==> y in HeldIds(at) || Awaited(at) == Some(y))
    && (Awaited(at').Some? ==> exists q :: q in HeldIds(at) && LinksTo(CellOf(tree, q), Awaited(at').value))
  }

  lemma StaysOff(s: State, t: nat, spot: Spot, u: nat, at': Place)
    requires Good(s) && WalkOk(s, t, spot) && u in s.threads && u != t && NextPlace(s.tree, s.threads[u].at, at')
    ensures Outside(at', SpineIds(s.tree, s.threads[t].op.key))
  {
    var k, at := s.threads[t].op.key, s.threads[u].at;
    WalkZone(s, t, spot);
    if Awaited(at').Some? {
      var q :| q in HeldIds(at) && LinksTo(CellOf(s.tree, q), Awaited(at').value);
      ZoneUnheld(s, t, spot, u, q);
      ChildOff(s.tree, k, q, Awaited(at').value);
    }
  }

  // ---------------------------------------------------------------- steps that leave the tree alone

  /** The next step of `t` is one of the tree's threads' too. */
  predicate Visible(c: Machine, t: nat)
    requires t in c.workers
  {
    match c.workers[t].spot
    case Walk(_, _, _, _, stage) => stage.KeyCopied?
    case Plain(at) => !(at.Hit? && c.workers[t].op.Remove? && Read(c, at.n).left.Some? && Read(c, at.n).right.Some?)
  }

  /** A step that changes neither memory nor tree. */
  lemma QuietRefines(c: Machine, s: State, t: nat, at: Place, locks: set<Hold>, history: seq<Event>)
    requires Good(s) && Refines(c, s) && t in c.workers && c.workers[t].spot.Plain?
    requires NextPlace(s.tree, s.threads[t].at, at)
    ensures Refines(Stand(c, t, at).(locks := locks, history := history),
                    Go(s, t, at).(locks := locks, history := history))
  {
    var c', s' := Stand(c, t, at).(locks := locks, history := history), Go(s, t, at).(locks := locks,
                        history := history);
    assert s'.threads == Threads(c'.workers);
    QuietMemory(c, t, at, s.tree);
    forall u {:trigger c'.workers[u].spot} | u in c'.workers && c'.workers[u].spot.Walk?
      ensures WalkOk(s', u, c'.workers[u].spot)
    {
      QuietWalk(s, u, c.workers[u].spot, t, at, s');
    }
  }

  lemma QuietMemory(c: Machine, t: nat, at: Place, tree: Tree<nat>)
    requires MemoryOk(c.cells, tree, c.workers) && t in c.workers && c.workers[t].spot.Plain?
    ensures MemoryOk(c.cells, tree, c.workers[t := c.workers[t].(spot := Plain(at))])
  {
    var workers' := c.workers[t := c.workers[t].(spot := Plain(at))];
    forall y {:trigger Untouched(workers', y)} | Untouched(workers', y)
      ensures Untouched(c.workers, y)
    {
      forall u | u in c.workers ensures !Touches(c.workers[u].spot, y) { assert u in workers'; }
    }
  }

  lemma QuietWalk(s: State, u: nat, spot: Spot, t: nat, at: Place, s': State)
    requires Good(s) && WalkOk(s, u, spot) && t in s.threads && t != u && NextPlace(s.tree, s.threads[t].at, at)
    requires s'.tree == s.tree && s'.threads == s.threads[t := s.threads[t].(at := at)]
    ensures WalkOk(s', u, spot)
  {
    StaysOff(s, u, spot, t, at);
  }

  /** What `t` is doing, in the tree's terms. */
  lemma SameThread(c: Machine, s: State, t: nat)
    requires Refines(c, s) && t in c.workers
    ensures t in s.threads && s.threads[t] == Thread(c.workers[t].op, Shown(c.workers[t].spot))
  {
  }

  ghost predicate Simulates(c: Machine, s: State, t: nat, n: nat)
    requires t in c.workers && t in s.threads
  {
    Enabled(s, t, n) && Refines(Step(c, t, n), Act(s, t, n)) && SpinesKept(c, s.tree, t, Act(s, t, n).tree)
  }

  /** The spines the other walks are on stay as they are. */
  ghost predicate SpinesKept(c: Machine, tree: Tree<nat>, t: nat, tree': Tree<nat>) {
    forall u {:trigger c.workers[u].spot} :: u in c.workers && u != t && c.workers[u].spot.Walk? ==>
      SpineKey(tree', KeyOf(c.workers[u].op)) == SpineKey(tree, KeyOf(c.workers[u].op))
  }

  lemma StartRefines(c: Machine, s: State, t: nat, n: nat)
    requires Good(s) && Refines(c, s) && CanStep(c, t, n, true) && c.workers[t].spot == Plain(Start)
    ensures t in s.threads && Simulates(c, s, t, n)
  {
    SameThread(c, s, t);
    var at' := Act(s, t, n).threads[t].at;
    assert StackIds([Frame(HEAD, Left)]) == {[Frame(HEAD, Left)][0].id};
    QuietRefines(c, s, t, at', Act(s, t, n).locks, s.history);
  }

  lemma AtRefines(c: Machine, s: State, t: nat, n: nat)
    requires Good(s) && Refines(c, s) && CanStep(c, t, n, true) && c.workers[t].spot.Plain? && c.workers[t].spot.at.At?
    ensures t in s.threads && Simulates(c, s, t, n)
  {
    SameThread(c, s, t);
    assert ThreadOk(s.tree, s.threads[t]);
    SearchRefs(s.tree, KeyOf(s.threads[t].op), s.threads[t].at.p);
    ReadsHeld(c, s, t, s.threads[t].at.p);
    QuietRefines(c, s, t, Act(s, t, n).threads[t].at, s.locks, s.history);
  }

  lemma WantRefines(c: Machine, s: State, t: nat, n: nat)
    requires Good(s) && Refines(c, s) && CanStep(c, t, n, true) && c.workers[t].spot.Plain?
    requires c.workers[t].spot.at.Want?
    ensures t in s.threads && Simulates(c, s, t, n)
  {
    SameThread(c, s, t);
    QuietRefines(c, s, t, Act(s, t, n).threads[t].at, Act(s, t, n).locks, s.history);
  }

  lemma GotRefines(c: Machine, s: State, t: nat, n: nat)
    requires Good(s) && Refines(c, s) && CanStep(c, t, n, true) && c.workers[t].spot.Plain? && c.workers[t].spot.at.Got?
    ensures t in s.threads && Simulates(c, s, t, n)
  {
    SameThread(c, s, t);
    assert ThreadOk(s.tree, s.threads[t]);
    SearchRefs(s.tree, KeyOf(s.threads[t].op), s.threads[t].at.p);
    ReadsHeld(c, s, t, s.threads[t].at.n);
    QuietRefines(c, s, t, Act(s, t, n).threads[t].at, Act(s, t, n).locks, s.history);
  }

  /** Replies that change nothing: a miss without an add, a hit without a remove. */
  lemma MissRefines(c: Machine, s: State, t: nat, n: nat)
    requires Good(s) && Refines(c, s) && CanStep(c, t, n, true) && c.workers[t].spot.Plain?
    requires c.workers[t].spot.at.Miss? && !c.workers[t].op.Add?
    ensures t in s.threads && Simulates(c, s, t, n)
  {
    SameThread(c, s, t);
    ReplySame(c, s, t, n);
    QuietRefines(c, s, t, Act(s, t, n).threads[t].at, Act(s, t, n).locks, Act(s, t, n).history);
  }

  lemma HitRefines(c: Machine, s: State, t: nat, n: nat)
    requires Good(s) && Refines(c, s) && CanStep(c, t, n, true) && c.workers[t].spot.Plain?
    requires c.workers[t].spot.at.Hit? && !c.workers[t].op.Remove?
    ensures t in s.threads && Simulates(c, s, t, n)
  {
    SameThread(c, s, t);
    ReplySame(c, s, t, n);
    QuietRefines(c, s, t, Act(s, t, n).threads[t].at, Act(s, t, n).locks, Act(s, t, n).history);
  }

  lemma ReplySame(c: Machine, s: State, t: nat, n: nat)
    requires t in c.workers && t in s.threads && c.workers[t].spot == Plain(s.threads[t].at)
    requires c.workers[t].op == s.threads[t].op
    requires c.locks == s.locks && c.history == s.history
    requires (s.threads[t].at.Miss? && !s.threads[t].op.Add?) || (s.threads[t].at.Hit? && !s.threads[t].op.Remove?)
    ensures var at := Act(s, t, n).threads[t].at;
      && Step(c, t, n) == Stand(c, t, at).(locks := Act(s, t, n).locks, history := Act(s, t, n).history)
      && Act(s, t, n) == Go(s, t, at).(locks := Act(s, t, n).locks, history := Act(s, t, n).history)
      && NextPlace(s.tree, s.threads[t].at, at)
  {
  }

  lemma ReadingRefines(c: Machine, s: State, t: nat, n: nat)
    requires Good(s) && Refines(c, s) && CanStep(c, t, n, true) && c.workers[t].spot.Plain?
    requires c.workers[t].spot.at.Reading?
    ensures t in s.threads && Simulates(c, s, t, n)
  {
    SameThread(c, s, t);
    assert ThreadOk(s.tree, s.threads[t]);
    ReadsHeld(c, s, t, s.threads[t].at.n);
    QuietRefines(c, s, t, Act(s, t, n).threads[t].at, s.locks, Act(s, t, n).history);
  }

  lemma UnlockRefines(c: Machine, s: State, t: nat, n: nat)
    requires Good(s) && Refines(c, s) && CanStep(c, t, n, true) && c.workers[t].spot.Plain?
    requires c.workers[t].spot.at.Closing? && c.workers[t].spot.at.nodes != []
    ensures t in s.threads && Simulates(c, s, t, n)
  {
    SameThread(c, s, t);
    QuietRefines(c, s, t, Act(s, t, n).threads[t].at, Act(s, t, n).locks, s.history);
  }

  lemma PrintRefines(c: Machine, s: State, t: nat, n: nat)
    requires Good(s) && Refines(c, s) && CanStep(c, t, n, true) && c.workers[t].spot.Plain?
    requires c.workers[t].spot.at.Printing?
    ensures t in s.threads && Simulates(c, s, t, n)
  {
    SameThread(c, s, t);
    assert ThreadOk(s.tree, s.threads[t]);
    PrintReads(c, s, t);
    PrintNext(s, t, n);
    PrintSame(c, s, t, n);
    QuietRefines(c, s, t, Act(s, t, n).threads[t].at, Act(s, t, n).locks, s.history);
  }

  lemma PrintReads(c: Machine, s: State, t: nat)
    requires Good(s) && Refines(c, s) && t in c.workers && c.workers[t].spot.Plain? && c.workers[t].spot.at.Printing?
    ensures var stack := c.workers[t].spot.at.stack;
      stack != [] ==>
        && stack[|stack| - 1].id in c.cells
        && Read(c, stack[|stack| - 1].id) == CellOf(s.tree, stack[|stack| - 1].id)
  {
    SameThread(c, s, t);
    var stack, pending := s.threads[t].at.stack, s.threads[t].at.pending;
    assert ThreadOk(s.tree, s.threads[t]);
    if stack != [] {
      var last := |stack| - 1;
      assert stack[last].id in StackIds(stack);
      PrintRefs(s.tree, stack, pending, stack[last].id);
      ReadsHeld(c, s, t, stack[last].id);
    }
  }

  lemma PrintSame(c: Machine, s: State, t: nat, n: nat)
    requires t in c.workers && t in s.threads && c.workers[t].spot == Plain(s.threads[t].at)
    requires c.workers[t].op == s.threads[t].op
    requires s.threads[t].at.Printing? && c.locks == s.locks
    requires var stack := s.threads[t].at.stack;
      stack != [] ==> Read(c, stack[|stack| - 1].id) == CellOf(s.tree, stack[|stack| - 1].id)
    ensures t in Act(s, t, n).threads
    ensures Step(c, t, n) == Stand(c, t, Act(s, t, n).threads[t].at).(locks := Act(s, t, n).locks)
    ensures Act(s, t, n) == Go(s, t, Act(s, t, n).threads[t].at).(locks := Act(s, t, n).locks)
  {
  }

  /** A print moves to a place next to its own. */
  lemma PrintNext(s: State, t: nat, n: nat)
    requires t in s.threads && s.threads[t].at.Printing? && ThreadOk(s.tree, s.threads[t])
    ensures NextPlace(s.tree, s.threads[t].at, Act(s, t, n).threads[t].at)
  {
    var stack, pending := s.threads[t].at.stack, s.threads[t].at.pending;
    if pending.Some? {
      StackMore(stack, Frame(pending.value, Left));
    } else if stack != [] {
      AdvanceIds(stack);
      AdvanceIds(stack[..|stack| - 1]);
      TopOfStack(stack);
    }
  }

  // ---------------------------------------------------------------- steps that change memory

  /** The last step of an operation: the record it cut out goes, and nothing the tree needs. */
  lemma DestroyRefines(c: Machine, s: State, t: nat, n: nat)
    requires Good(s) && Refines(c, s) && CanStep(c, t, n, true) && c.workers[t].spot.Plain?
    requires c.workers[t].spot.at.Closing? && c.workers[t].spot.at.nodes == []
    ensures t in s.threads && Simulates(c, s, t, n)
  {
    SameThread(c, s, t);
    var at := s.threads[t].at;
    assert ThreadOk(s.tree, s.threads[t]);
    var c1, s1 := c.(cells := c.cells - (if at.loose.Some? then {at.loose.value} else {})), Act(s, t, n);
    QuietRefines(c, s, t, Done(at.reply), s.locks, s.history);
    var c2 := Stand(c, t, Done(at.reply));
    forall u, y {:trigger Touches(c2.workers[u].spot, y)} | u in c2.workers && Touches(c2.workers[u].spot, y)
      ensures y in Ids(s.tree)
    {
      WalkZone(s, u, c.workers[u].spot);
    }
    LessMemory(c2.cells, s.tree, c2.workers, if at.loose.Some? then {at.loose.value} else {});
    assert s1.live == (c.cells - (if at.loose.Some? then {at.loose.value} else {})).Keys;
    WalksSame(Go(s, t, Done(at.reply)), s1, c2.workers);
  }

  lemma LessMemory(cells: map<nat, Cell<nat>>, tree: Tree<nat>, workers: map<nat, Worker>, gone: set<nat>)
    requires MemoryOk(cells, tree, workers) && gone !! Ids(tree) && HEAD !in gone
    requires forall u, y {:trigger Touches(workers[u].spot, y)} ::
      u in workers && Touches(workers[u].spot, y) ==> y in Ids(tree)
    ensures MemoryOk(cells - gone, tree, workers)
  {
  }

  lemma WalksSame(s: State, s': State, workers: map<nat, Worker>)
    requires WalksOk(s, workers) && s'.tree == s.tree && s'.threads == s.threads
    ensures WalksOk(s', workers)
  {
  }

  // ---------------------------------------------------------------- steps that change the tree

  /**
    From one tree and memory to the next, all but the records in `changed` stay, and those are stored as they should.
   */
  ghost predicate LocalChange(tree: Tree<nat>, cells: map<nat, Cell<nat>>, tree': Tree<nat>,
                              cells': map<nat, Cell<nat>>, changed: set<nat>) {
    && Ids(tree') <= Ids(tree) + changed && Ids(tree) <= Ids(tree') + changed
    && (forall y {:trigger CellOf(tree', y)} ::
          (y in Ids(tree) || y == HEAD) && y !in changed ==> CellOf(tree', y) == CellOf(tree, y))
    && (forall y :: y in cells && y !in changed ==> y in cells' && cells'[y] == cells[y])
    && (forall y {:trigger CellOf(tree', y)} ::
          (y in Ids(tree') || y == HEAD) && y in changed ==> Holds(cells', y, CellOf(tree', y)))
  }

  /** The same, said of the records the two trees store. */
  lemma ChangeOfCells(tree: Tree<nat>, cells: map<nat, Cell<nat>>, tree': Tree<nat>, cells': map<nat, Cell<nat>>,
                      changed: set<nat>)
    requires TreeOk(tree) && TreeOk(tree') && Follows(Cells(HEAD, tree), cells, Cells(HEAD, tree'), cells', changed)
    ensures LocalChange(tree, cells, tree', cells', changed)
  {
    forall y ensures y in Ids(tree') ==> y in Ids(tree) + changed {
      assert y in Cells(HEAD, tree) <==> y in Ids(tree) || y == HEAD;
    }
    forall y ensures y in Ids(tree) ==> y in Ids(tree') + changed {
      assert y in Cells(HEAD, tree') <==> y in Ids(tree') || y == HEAD;
    }
  }

  /** Memory goes from `cells` to `cells'` as the stored records go from `m` to `m'`. */
  ghost predicate Follows(m: map<nat, Cell<nat>>, cells: map<nat, Cell<nat>>, m': map<nat, Cell<nat>>,
                          cells': map<nat, Cell<nat>>, changed: set<nat>) {
    && (forall y {:trigger y in m} {:trigger y in m'} ::
          y !in changed ==> (y in m <==> y in m') && (y in m ==> m'[y] == m[y]))
    && (forall y :: y in cells && y !in changed ==> y in cells' && cells'[y] == cells[y])
    && (forall y :: y in m' && y in changed ==> Holds(cells', y, m'[y]))
  }

  lemma LinkFollows(m: map<nat, Cell<nat>>, cells: map<nat, Cell<nat>>, p: nat, v: Cell<nat>, n: nat, w: Cell<nat>)
    ensures Follows(m, cells, m[p := v][n := w], cells[p := v][n := w], {p, n})
  {
  }

  lemma SpliceFollows(m: map<nat, Cell<nat>>, cells: map<nat, Cell<nat>>, p: nat, v: Cell<nat>, x: nat)
    requires p != x
    ensures Follows(m, cells, m[p := v] - {x}, cells[p := v], {p, x})
  {
  }

  lemma TakeOverFollows(m: map<nat, Cell<nat>>, cells: map<nat, Cell<nat>>, x: nat, h: nat, u: nat)
    requires x in m && h in m && u in m && u != h && u != x && x in cells
    requires Holds(cells, h, TakenOver(m, x, h, u)[h]) || h == x
    requires cells[x].(value := m[u].value) == TakenOver(m, x, h, u)[x]
    ensures Follows(m, cells, TakenOver(m, x, h, u) - {u}, cells[x := cells[x].(value := m[u].value)], {h, x, u})
  {
  }

  /** Another thread's walk is not disturbed. */
  lemma LocalWalk(s: State, u: nat, spot: Spot, t: nat, at: Place, s': State, cells: map<nat, Cell<nat>>,
                  cells': map<nat, Cell<nat>>, changed: set<nat>)
    requires Good(s) && WalkOk(s, u, spot) && t in s.threads && t != u && NextPlace(s.tree, s.threads[t].at, at)
    requires s'.threads == s.threads[t := s.threads[t].(at := at)] && TreeOk(s'.tree)
    requires LocalChange(s.tree, cells, s'.tree, cells', changed) && changed !! Zone(s.tree, s.threads[u].op.key)
    ensures WalkOk(s', u, spot) && SpineKey(s'.tree, s.threads[u].op.key) == SpineKey(s.tree, s.threads[u].op.key)
    ensures forall y :: y in Zone(s.tree, s.threads[u].op.key) ==> CellOf(s'.tree, y) == CellOf(s.tree, y)
  {
    var k := s.threads[u].op.key;
    WalkZone(s, u, spot);
    SpineStable(s.tree, s'.tree, k);
    StaysOff(s, u, spot, t, at);
    assert spot.x in Zone(s.tree, k) && CellOf(s'.tree, spot.x) == CellOf(s.tree, spot.x);
  }

  lemma LocalMemory(s: State, workers: map<nat, Worker>, cells: map<nat, Cell<nat>>, t: nat, at: Place,
                    tree': Tree<nat>, cells': map<nat, Cell<nat>>, changed: set<nat>)
    requires MemoryOk(cells, s.tree, workers) && t in workers && LocalChange(s.tree, cells, tree', cells', changed)
    requires forall y :: Touches(workers[t].spot, y) ==> y in changed
    requires forall u, y {:trigger Touches(workers[u].spot, y)} ::
      u in workers && u != t && Touches(workers[u].spot, y) ==>
      y !in changed && Written(tree', workers[u].spot, y) == Written(s.tree, workers[u].spot, y)
    ensures MemoryOk(cells', tree', workers[t := workers[t].(spot := Plain(at))])
  {
    var workers' := workers[t := workers[t].(spot := Plain(at))];
    forall y {:trigger Untouched(workers', y)} | (y in Ids(tree') || y == HEAD) && Untouched(workers', y)
      ensures Holds(cells', y, CellOf(tree', y))
    {
      if y !in changed {
        assert Untouched(workers, y) by {
          forall u | u in workers ensures !Touches(workers[u].spot, y) { assert u in workers'; }
        }
      }
    }
    forall u, y {:trigger Touches(workers'[u].spot, y)} | u in workers' && Touches(workers'[u].spot, y)
      ensures Holds(cells', y, Written(tree', workers'[u].spot, y))
    {
      assert u != t && Touches(workers[u].spot, y);
    }
  }

  /** What a local change by `t` has to show. */
  ghost predicate Local(c: Machine, s: State, t: nat, at: Place, changed: set<nat>, c': Machine, s': State) {
    && t in c.workers && t in s.threads && NextPlace(s.tree, s.threads[t].at, at) && TreeOk(s'.tree)
    && c'.workers == c.workers[t := c.workers[t].(spot := Plain(at))]
    && s'.threads == s.threads[t := s.threads[t].(at := at)]
    && c'.locks == s'.locks && c'.history == s'.history && s'.live == c'.cells.Keys
    && LocalChange(s.tree, c.cells, s'.tree, c'.cells, changed)
    && (forall y :: Touches(c.workers[t].spot, y) ==> y in changed)
    && (forall u {:trigger c.workers[u].spot} :: u in c.workers && u != t && c.workers[u].spot.Walk? ==>
          changed !! Zone(s.tree, KeyOf(c.workers[u].op)))
  }

  lemma LocalWalkOf(c: Machine, s: State, t: nat, at: Place, changed: set<nat>, c': Machine, s': State, u: nat)
    requires Good(s) && Refines(c, s) && Local(c, s, t, at, changed, c', s') && u in c.workers && u != t
    requires c.workers[u].spot.Walk?
    ensures WalkOk(s', u, c.workers[u].spot)
    ensures SpineKey(s'.tree, KeyOf(c.workers[u].op)) == SpineKey(s.tree, KeyOf(c.workers[u].op))
  {
    LocalWalk(s, u, c.workers[u].spot, t, at, s', c.cells, c'.cells, changed);
  }

  lemma LocalWalks(c: Machine, s: State, t: nat, at: Place, changed: set<nat>, c': Machine, s': State)
    requires Good(s) && Refines(c, s) && Local(c, s, t, at, changed, c', s')
    ensures WalksOk(s', c'.workers) && SpinesKept(c, s.tree, t, s'.tree)
  {
    forall u {:trigger c'.workers[u].spot} | u in c'.workers && c'.workers[u].spot.Walk?
      ensures WalkOk(s', u, c'.workers[u].spot)
    {
      LocalWalkOf(c, s, t, at, changed, c', s', u);
    }
    forall u {:trigger c.workers[u].spot} | u in c.workers && u != t && c.workers[u].spot.Walk?
      ensures SpineKey(s'.tree, KeyOf(c.workers[u].op)) == SpineKey(s.tree, KeyOf(c.workers[u].op))
    {
      LocalWalkOf(c, s, t, at, changed, c', s', u);
    }
  }

  lemma LocalWritten(c: Machine, s: State, t: nat, at: Place, changed: set<nat>, c': Machine, s': State, u: nat, y: nat)
    requires Good(s) && Refines(c, s) && Local(c, s, t, at, changed, c', s')
    requires u in c.workers && u != t && Touches(c.workers[u].spot, y)
    ensures y !in changed && Written(s'.tree, c.workers[u].spot, y) == Written(s.tree, c.workers[u].spot, y)
  {
    WalkZone(s, u, c.workers[u].spot);
    LocalWalk(s, u, c.workers[u].spot, t, at, s', c.cells, c'.cells, changed);
  }

  /** A step of `t` that changes the tree and memory locally, away from every other walk. */
  lemma LocalRefines(c: Machine, s: State, t: nat, at: Place, changed: set<nat>, c': Machine, s': State)
    requires Good(s) && Refines(c, s) && Local(c, s, t, at, changed, c', s')
    ensures Refines(c', s') && SpinesKept(c, s.tree, t, s'.tree)
  {
    assert s'.threads == Threads(c'.workers);
    LocalWalks(c, s, t, at, changed, c', s');
    forall u, y {:trigger Touches(c.workers[u].spot, y)} | u in c.workers && u != t && Touches(c.workers[u].spot, y)
      ensures y !in changed && Written(s'.tree, c.workers[u].spot, y) == Written(s.tree, c.workers[u].spot, y)
    {
      LocalWritten(c, s, t, at, changed, c', s', u, y);
    }
    LocalMemory(s, c.workers, c.cells, t, at, s'.tree, c'.cells, changed);
  }

  // ---------------------------------------------------------------- the writes of add and remove

  /** Adding a record is one write to the link of the record the thread holds, and the new record. */
  lemma LinkIsLocal(s: State, t: nat, n: nat)
    requires Good(s) && Enabled(s, t, n) && s.threads[t].at.Miss? && s.threads[t].op.Add?
    ensures var op, p, m := s.threads[t].op, s.threads[t].at.p, Cells(HEAD, s.tree);
      && p in m
      && Cells(HEAD, Act(s, t, n).tree)
         == m[p := WithChild(m[p], op.key, Some(n))][n := Cell(op.key, op.value, None, None)]
  {
    var op, p := s.threads[t].op, s.threads[t].at.p;
    assert ThreadOk(s.tree, s.threads[t]);
    AheadFacts(s.tree, op.key, p);
    InsertCells(HEAD, s.tree, op.key, n, op.key, op.value);
  }

  /** Cutting out a record with at most one child is one write to the link of the parent the thread holds. */
  lemma SpliceIsLocal(s: State, t: nat, n: nat)
    requires Good(s) && t in s.threads && s.threads[t].at.Hit? && s.threads[t].op.Remove?
    requires !TwoChildren(s.tree, s.threads[t].at.n)
    ensures var k, p, x, m := s.threads[t].op.key, s.threads[t].at.p, s.threads[t].at.n, Cells(HEAD, s.tree);
      && p in m && x in m && p != x
      && Cells(HEAD, Act(s, t, n).tree)
         == m[p := WithChild(m[p], k, if m[x].right.None? then m[x].left else m[x].right)] - {x}
      && Act(s, t, n).threads[t].at == Closing([p, x], Some(x), Flag(true)) && m[x].key == k
  {
    var k, p, x := s.threads[t].op.key, s.threads[t].at.p, s.threads[t].at.n;
    assert ThreadOk(s.tree, s.threads[t]);
    HitFacts(s.tree, k, p, x);
    RootCell(s.tree, k);
    SpliceCells(HEAD, s.tree, k);
  }

  /** The last record of the spine, and the one whose link leads to it. */
  function Successor(sp: seq<nat>): nat
    requires sp != []
  {
    sp[|sp| - 1]
  }

  function Holder(sp: seq<nat>, x: nat): nat {
    if |sp| < 2 then x else sp[|sp| - 2]
  }

  lemma TakeOverCells(tree: Tree<nat>, k: string)
    requires TreeOk(tree) && Lookup(tree, k).Some? && SubtreeAt(tree, k).l.Fork? && SubtreeAt(tree, k).r.Fork?
    ensures var x, sp, m := SubtreeAt(tree, k).id, SpineKey(tree, k), Cells(HEAD, tree);
      && sp != [] && x in m && x !in sp && Successor(sp) in m && Holder(sp, x) in m
      && Successor(sp) != Holder(sp, x) && Successor(sp) in Ids(tree) && Successor(sp) == Freed(SubtreeAt(tree, k))
      && Cells(HEAD, DbTree.Remove(tree, k)) == TakenOver(m, x, Holder(sp, x), Successor(sp)) - {Successor(sp)}
  {
    var d := SubtreeAt(tree, k);
    ZoneWithin(tree, k);
    SpineEnds(d.r, d.id);
    SuccessorCells(HEAD, tree, k);
    SuccessorStored(tree, k);
    RootCell(tree, k);
  }

  /** Taking over the successor is three writes: the link to it, and key and value of the record the thread holds. */
  lemma SuccessorIsLocal(s: State, t: nat, n: nat)
    requires Good(s) && AtSuccessorWalk(s, t)
    ensures var k, p, x, m := s.threads[t].op.key, s.threads[t].at.p, s.threads[t].at.n, Cells(HEAD, s.tree);
      var sp := SpineKey(s.tree, k);
      && sp != [] && x in m && x !in sp && Successor(sp) in m && Holder(sp, x) in m
      && Successor(sp) != Holder(sp, x) && Successor(sp) in Ids(s.tree)
      && Cells(HEAD, Act(s, t, n).tree) == TakenOver(m, x, Holder(sp, x), Successor(sp)) - {Successor(sp)}
      && Act(s, t, n).threads[t].at == Closing([p, x], Some(Successor(sp)), Flag(true))
  {
    WalkFacts(s, t);
    TakeOverCells(s.tree, s.threads[t].op.key);
  }

  lemma SuccessorStored(tree: Tree<nat>, k: string)
    requires TreeOk(tree) && Lookup(tree, k).Some? && SubtreeAt(tree, k).r.Fork?
    ensures var u := Min(SubtreeAt(tree, k).r);
      u.id in Ids(tree) && CellOf(tree, u.id) == Cell(u.key, u.value, None, RootOf(u.r))
  {
    SubtreeFacts(tree, k, HEAD);
    MinCell(SubtreeAt(tree, k).r);
  }

  lemma LinkRefines(c: Machine, s: State, t: nat, n: nat)
    requires Good(s) && Refines(c, s) && CanStep(c, t, n, true) && c.workers[t].spot.Plain?
    requires c.workers[t].spot.at.Miss? && c.workers[t].op.Add?
    ensures t in s.threads && Simulates(c, s, t, n)
  {
    SameThread(c, s, t);
    var p := s.threads[t].at.p;
    LinkChange(c, s, t, n);
    AwayFromZones(c, s, t, {p, n});
    LocalRefines(c, s, t, Closing([p], None, Flag(true)), {p, n}, Step(c, t, n), Act(s, t, n));
  }

  lemma LinkChange(c: Machine, s: State, t: nat, n: nat)
    requires Good(s) && Refines(c, s) && Enabled(s, t, n) && t in c.workers && c.workers[t].spot.Plain?
    requires s.threads[t].at.Miss? && s.threads[t].op.Add?
    ensures TreeOk(Act(s, t, n).tree) && s.threads[t].at.p in c.cells
    ensures LocalChange(s.tree, c.cells, Act(s, t, n).tree, Step(c, t, n).cells, {s.threads[t].at.p, n})
  {
    var p := s.threads[t].at.p;
    assert ThreadOk(s.tree, s.threads[t]);
    SearchRefs(s.tree, KeyOf(s.threads[t].op), p);
    ReadsHeld(c, s, t, p);
    LinkIsLocal(s, t, n);
    LinkOthers(s, t, n);
    var op, m := s.threads[t].op, Cells(HEAD, s.tree);
    LinkFollows(m, c.cells, p, WithChild(m[p], op.key, Some(n)), n, Cell(op.key, op.value, None, None));
    ChangeOfCells(s.tree, c.cells, Act(s, t, n).tree, Step(c, t, n).cells, {p, n});
  }

  /** Records the thread holds, and records that do not exist yet, are in nobody else's zone. */
  lemma AwayFromZones(c: Machine, s: State, t: nat, changed: set<nat>)
    requires Good(s) && Refines(c, s) && t in c.workers
    requires forall y :: y in changed ==> y in HeldIds(s.threads[t].at) || y !in s.live
    ensures forall u {:trigger c.workers[u].spot} :: u in c.workers && u != t && c.workers[u].spot.Walk? ==>
      changed !! Zone(s.tree, KeyOf(c.workers[u].op))
  {
    forall u {:trigger c.workers[u].spot} | u in c.workers && u != t && c.workers[u].spot.Walk?
      ensures changed !! Zone(s.tree, KeyOf(c.workers[u].op))
    {
      WalkZone(s, u, c.workers[u].spot);
      forall y | y in changed
        ensures y !in Zone(s.tree, c.workers[u].op.key)
      {
        if y in HeldIds(s.threads[t].at) { ZoneUnheld(s, u, c.workers[u].spot, t, y); }
      }
    }
  }

  lemma SpliceRefines(c: Machine, s: State, t: nat, n: nat)
    requires Good(s) && Refines(c, s) && CanStep(c, t, n, true) && c.workers[t].spot.Plain?
    requires c.workers[t].spot.at.Hit? && c.workers[t].op.Remove? && Visible(c, t)
    ensures t in s.threads && Simulates(c, s, t, n)
  {
    SameThread(c, s, t);
    OneChildInMemory(c, s, t);
    SpliceChange(c, s, t, n);
    SpliceSteps(c, s, t, n);
    CutAway(c, s, t, Step(c, t, n), Act(s, t, n));
  }

  lemma SpliceSteps(c: Machine, s: State, t: nat, n: nat)
    requires Refines(c, s) && t in c.workers && c.workers[t].spot.Plain? && t in s.threads
    requires c.workers[t].spot.at.Hit? && c.workers[t].op.Remove? && Visible(c, t)
    ensures Step(c, t, n).locks == Act(s, t, n).locks && Step(c, t, n).history == Act(s, t, n).history
    ensures Step(c, t, n).workers == c.workers[t := c.workers[t].(spot := Step(c, t, n).workers[t].spot)]
    ensures t in Act(s, t, n).threads
    ensures Act(s, t, n).threads == s.threads[t := s.threads[t].(at := Act(s, t, n).threads[t].at)]
    ensures Act(s, t, n).live == s.live
  {
  }

  lemma CutAway(c: Machine, s: State, t: nat, c': Machine, s': State)
    requires Good(s) && Refines(c, s) && t in c.workers && c.workers[t].spot.Plain? && c.workers[t].spot.at.Hit?
    requires var p, x := c.workers[t].spot.at.p, c.workers[t].spot.at.n; var at := Closing([p, x], Some(x), Flag(true));
      && c'.workers == c.workers[t := c.workers[t].(spot := Plain(at))]
      && s'.threads == s.threads[t := s.threads[t].(at := at)]
      && LocalChange(s.tree, c.cells, s'.tree, c'.cells, {p, x})
    requires c'.locks == s'.locks && c'.history == s'.history && c'.cells.Keys == c.cells.Keys
    requires s'.live == s.live && TreeOk(s'.tree)
    ensures Refines(c', s') && SpinesKept(c, s.tree, t, s'.tree)
  {
    var p, x := c.workers[t].spot.at.p, c.workers[t].spot.at.n;
    AwayFromZones(c, s, t, {p, x});
    ClosingNext(s.tree, p, x, Some(x), Flag(true));
    LocalRefines(c, s, t, Closing([p, x], Some(x), Flag(true)), {p, x}, c', s');
  }

  lemma OneChildInMemory(c: Machine, s: State, t: nat)
    requires Good(s) && Refines(c, s) && t in c.workers && c.workers[t].spot.Plain? && c.workers[t].spot.at.Hit?
    requires c.workers[t].op.Remove?
    ensures t in s.threads && (Visible(c, t) <==> !TwoChildren(s.tree, s.threads[t].at.n))
    ensures var p, x := s.threads[t].at.p, s.threads[t].at.n;
      p in c.cells && x in c.cells && Read(c, p) == CellOf(s.tree, p) && Read(c, x) == CellOf(s.tree, x)
  {
    SameThread(c, s, t);
    assert ThreadOk(s.tree, s.threads[t]);
    HitFacts(s.tree, s.threads[t].op.key, s.threads[t].at.p, s.threads[t].at.n);
    ReadsHeld(c, s, t, s.threads[t].at.p);
    ReadsHeld(c, s, t, s.threads[t].at.n);
  }

  /** What the parent of a record with at most one child holds once the record is cut out. */
  function SplicedParent(m: map<nat, Cell<nat>>, p: nat, x: nat, k: string): Cell<nat>
    requires p in m && x in m
  {
    WithChild(m[p], k, if m[x].right.None? then m[x].left else m[x].right)
  }

  lemma SpliceStep(c: Machine, s: State, t: nat, n: nat)
    requires Good(s) && Refines(c, s) && t in c.workers && c.workers[t].spot.Plain? && t in s.threads
    requires s.threads[t].at.Hit? && s.threads[t].op.Remove? && !TwoChildren(s.tree, s.threads[t].at.n)
    ensures var k, p, x, m := s.threads[t].op.key, s.threads[t].at.p, s.threads[t].at.n, Cells(HEAD, s.tree);
      && p in m && x in m && p != x && p in c.cells && Step(c, t, n).cells == c.cells[p := SplicedParent(m, p, x, k)]
      && Step(c, t, n).workers[t].spot == Plain(Closing([p, x], Some(x), Flag(true)))
  {
    OneChildInMemory(c, s, t);
    SpliceIsLocal(s, t, n);
  }

  lemma SpliceChange(c: Machine, s: State, t: nat, n: nat)
    requires Good(s) && Refines(c, s) && t in c.workers && c.workers[t].spot.Plain? && t in s.threads
    requires s.threads[t].at.Hit? && s.threads[t].op.Remove? && !TwoChildren(s.tree, s.threads[t].at.n)
    ensures var p, x := s.threads[t].at.p, s.threads[t].at.n;
      && TreeOk(Act(s, t, n).tree) && Act(s, t, n).threads[t].at == Closing([p, x], Some(x), Flag(true))
      && Step(c, t, n).workers[t].spot == Plain(Closing([p, x], Some(x), Flag(true)))
      && Step(c, t, n).cells.Keys == c.cells.Keys
      && LocalChange(s.tree, c.cells, Act(s, t, n).tree, Step(c, t, n).cells, {p, x})
  {
    var k, p, x, m := s.threads[t].op.key, s.threads[t].at.p, s.threads[t].at.n, Cells(HEAD, s.tree);
    SpliceStep(c, s, t, n);
    SpliceIsLocal(s, t, n);
    SpliceOthers(s, t, n);
    SpliceFollows(m, c.cells, p, SplicedParent(m, p, x, k), x);
    ChangeOfCells(s.tree, c.cells, Act(s, t, n).tree, Step(c, t, n).cells, {p, x});
  }

  // ---------------------------------------------------------------- the successor walk, step by step

  /** A step of the walk shows nothing to the others. */
  lemma HiddenRefines(c: Machine, s: State, t: nat, spot: Spot, cells: map<nat, Cell<nat>>)
    requires Good(s) && Refines(c, s) && t in c.workers && Shown(spot) == Shown(c.workers[t].spot) && WalkOk(s, t, spot)
    requires cells.Keys == c.cells.Keys && MemoryOk(cells, s.tree, c.workers[t := c.workers[t].(spot := spot)])
    ensures Refines(To(c, t, spot).(cells := cells), s)
  {
    assert Threads(To(c, t, spot).workers) == Threads(c.workers);
  }

  /** The spine is in memory as in the tree when the walk is about to start. */
  lemma SpineInMemory(c: Machine, s: State, t: nat)
    requires Good(s) && Refines(c, s) && t in c.workers && c.workers[t].spot.Plain? && AtSuccessorWalk(s, t)
    ensures IsSpine(c.cells, s.threads[t].at.n, SpineKey(s.tree, s.threads[t].op.key))
  {
    var k, x := s.threads[t].op.key, s.threads[t].at.n;
    var sp := SpineKey(s.tree, k);
    WalkFacts(s, t);
    ZoneWithin(s.tree, k);
    SpineStored(s.tree, k);
    ReadsHeld(c, s, t, x);
    forall i {:trigger LinkedAt(c.cells, sp, i)} | 0 <= i < |sp|
      ensures LinkedAt(c.cells, sp, i)
    {
      assert LinkedAt(Cells(HEAD, s.tree), sp, i) && sp[i] in SpineIds(s.tree, k);
      LeftInMemory(c, s, t, sp[i]);
    }
  }

  /** No walk touches the left link of a record on the spine of another key. */
  lemma LeftInMemory(c: Machine, s: State, t: nat, y: nat)
    requires Good(s) && Refines(c, s) && t in c.workers && AtSuccessorWalk(s, t) && c.workers[t].spot.Plain?
    requires Lookup(s.tree, s.threads[t].op.key).Some? && y in SpineIds(s.tree, s.threads[t].op.key) && y in Ids(s.tree)
    ensures y in c.cells && c.cells[y].left == CellOf(s.tree, y).left
  {
    if !Untouched(c.workers, y) {
      var u :| u in c.workers && Touches(c.workers[u].spot, y);
      OtherRoot(s, t, u, c.workers[u].spot, y);
    }
  }

  /** Of another walk's zone, only its root can be on this spine. */
  lemma OtherRoot(s: State, t: nat, u: nat, spot: Spot, y: nat)
    requires Good(s) && AtSuccessorWalk(s, t) && u in s.threads && u != t && WalkOk(s, u, spot)
    requires Lookup(s.tree, s.threads[t].op.key).Some? && y in SpineIds(s.tree, s.threads[t].op.key)
    ensures y in Zone(s.tree, s.threads[u].op.key) ==> y == spot.x
    ensures Touches(spot, y) ==> y == spot.x
  {
    var k, k' := s.threads[t].op.key, s.threads[u].op.key;
    WalkZone(s, u, spot);
    WalkFacts(s, t);
    ZoneUnheld(s, u, spot, t, s.threads[t].at.n);
    SpinesApart(s.tree, k, k');
  }

  lemma WalkStarts(c: Machine, s: State, t: nat, n: nat)
    requires Good(s) && Refines(c, s) && CanStep(c, t, n, true) && c.workers[t].spot.Plain? && !Visible(c, t)
    ensures t in s.threads && Enabled(s, t, n) && Refines(Step(c, t, n), s)
  {
    SameThread(c, s, t);
    var k, p, x := s.threads[t].op.key, s.threads[t].at.p, s.threads[t].at.n;
    assert ThreadOk(s.tree, s.threads[t]);
    HitFacts(s.tree, k, p, x);
    ReadsHeld(c, s, t, x);
    WalkFacts(s, t);
    SpineInMemory(c, s, t);
    var sp := SpineKey(s.tree, k);
    assert SpineFree(s, t, k) by {
      assert IsSpine(c.cells, x, sp);
    }
    var spot := Walk(p, x, x, sp[0], Seek);
    assert AtIndex(sp, x, x, sp[0], Seek, 0);
    SilentMemory(c, t, spot, s.tree);
    HiddenRefines(c, s, t, spot, c.cells);
  }

  /** Before its first write a walk leaves memory to the tree. */
  lemma SilentMemory(c: Machine, t: nat, spot: Spot, tree: Tree<nat>)
    requires MemoryOk(c.cells, tree, c.workers) && t in c.workers
    requires forall y :: !Touches(c.workers[t].spot, y) && !Touches(spot, y)
    ensures MemoryOk(c.cells, tree, c.workers[t := c.workers[t].(spot := spot)])
  {
    var workers' := c.workers[t := c.workers[t].(spot := spot)];
    forall y {:trigger Untouched(workers', y)} | Untouched(workers', y)
      ensures Untouched(c.workers, y)
    {
      forall u | u in c.workers ensures !Touches(c.workers[u].spot, y) { assert u in workers'; }
    }
  }

  /** Where a walk stands, in terms of its spine. */
  lemma WalkPlace(s: State, t: nat, spot: Spot) returns (i: nat)
    requires Good(s) && WalkOk(s, t, spot)
    ensures var k := s.threads[t].op.key; var sp := SpineKey(s.tree, k);
      && AtIndex(sp, spot.x, spot.h, spot.n, spot.stage, i) && IsSpine(Cells(HEAD, s.tree), spot.x, sp)
      && (!spot.stage.Seek? ==> spot.n == Successor(sp) && spot.h == Holder(sp, spot.x) && spot.n != spot.h)
  {
    var k := s.threads[t].op.key;
    WalkFacts(s, t);
    SpineStored(s.tree, k);
    TakeOverCells(s.tree, k);
    i :| AtIndex(SpineKey(s.tree, k), spot.x, spot.h, spot.n, spot.stage, i);
  }

  lemma SeekRefines(c: Machine, s: State, t: nat, n: nat)
    requires Good(s) && Refines(c, s) && t in c.workers && c.workers[t].spot.Walk? && c.workers[t].spot.stage.Seek?
    ensures Refines(Step(c, t, n), s)
  {
    SameThread(c, s, t);
    var spot := c.workers[t].spot;
    WalkZone(s, t, spot);
    ReadsSpine(c, s, t, spot.n);
    var i := WalkPlace(s, t, spot);
    var sp, next := SpineKey(s.tree, s.threads[t].op.key), Step(c, t, n).workers[t].spot;
    assert LinkedAt(Cells(HEAD, s.tree), sp, i);
    assert AtIndex(sp, next.x, next.h, next.n, next.stage, if i + 1 < |sp| then i + 1 else i);
    SilentMemory(c, t, next, s.tree);
    HiddenRefines(c, s, t, next, c.cells);
  }

  /** A write of the walk inside its zone. */
  lemma WrittenMemory(c: Machine, s: State, t: nat, spot: Spot, y: nat, cell: Cell<nat>)
    requires Good(s) && Refines(c, s) && t in c.workers && c.workers[t].spot.Walk? && spot.Walk?
    requires spot.x == c.workers[t].spot.x && spot.h == c.workers[t].spot.h
    requires (spot.stage.Unlinked? || spot.stage.KeyCopied?)
    requires y == spot.h || y == spot.x
    requires forall z :: z == spot.h || z == spot.x ==> Holds(c.cells[y := cell], z, Written(s.tree, spot, z))
    ensures MemoryOk(c.cells[y := cell], s.tree, c.workers[t := c.workers[t].(spot := spot)])
  {
    var cells', workers' := c.cells[y := cell], c.workers[t := c.workers[t].(spot := spot)];
    WalkZone(s, t, c.workers[t].spot);
    forall z {:trigger Untouched(workers', z)} | (z in Ids(s.tree) || z == HEAD) && Untouched(workers', z)
      ensures Holds(cells', z, CellOf(s.tree, z))
    {
      assert !Touches(workers'[t].spot, z);
      assert Untouched(c.workers, z) by {
        forall u | u in c.workers ensures !Touches(c.workers[u].spot, z) { assert u in workers'; }
      }
    }
    forall u, z {:trigger Touches(workers'[u].spot, z)} | u in workers' && Touches(workers'[u].spot, z)
      ensures Holds(cells', z, Written(s.tree, workers'[u].spot, z))
    {
      if u != t {
        assert Touches(c.workers[u].spot, z);
        WalkZone(s, u, c.workers[u].spot);
        ZonesApart(s, t, c.workers[t].spot, u, c.workers[u].spot);
      }
    }
  }

  lemma UnlinkRefines(c: Machine, s: State, t: nat, n: nat)
    requires Good(s) && Refines(c, s) && t in c.workers && c.workers[t].spot.Walk? && c.workers[t].spot.stage.Found?
    ensures Refines(Step(c, t, n), s)
  {
    SameThread(c, s, t);
    var spot := c.workers[t].spot;
    WalkZone(s, t, spot);
    var i := WalkPlace(s, t, spot);
    ReadsSpine(c, s, t, spot.n);
    ReadsSpine(c, s, t, spot.h);
    ReadsSpine(c, s, t, spot.x);
    var next := spot.(stage := Unlinked);
    WrittenMemory(c, s, t, next, spot.h, WithLink(Read(c, spot.h), spot.h == spot.x, Read(c, spot.n).right));
    assert AtIndex(SpineKey(s.tree, s.threads[t].op.key), next.x, next.h, next.n, next.stage, i);
    HiddenRefines(c, s, t, next, Step(c, t, n).cells);
  }

  lemma CopyKeyRefines(c: Machine, s: State, t: nat, n: nat)
    requires Good(s) && Refines(c, s) && t in c.workers && c.workers[t].spot.Walk? && c.workers[t].spot.stage.Unlinked?
    ensures Refines(Step(c, t, n), s)
  {
    SameThread(c, s, t);
    var spot := c.workers[t].spot;
    var next, cell := spot.(stage := KeyCopied), Read(c, spot.x).(key := Read(c, spot.n).key);
    CopyKeyWritten(c, s, t);
    WrittenMemory(c, s, t, next, spot.x, cell);
    NextStage(s, t, spot, next);
    HiddenRefines(c, s, t, next, c.cells[spot.x := cell]);
  }

  lemma CopyKeyWritten(c: Machine, s: State, t: nat)
    requires Good(s) && Refines(c, s) && t in c.workers && c.workers[t].spot.Walk? && c.workers[t].spot.stage.Unlinked?
    ensures var spot := c.workers[t].spot;
      var next, cell := spot.(stage := KeyCopied), Read(c, spot.x).(key := Read(c, spot.n).key);
      && spot.x in c.cells
      && forall z :: z == spot.h || z == spot.x ==> Holds(c.cells[spot.x := cell], z, Written(s.tree, next, z))
  {
    SameThread(c, s, t);
    var spot := c.workers[t].spot;
    WalkZone(s, t, spot);
    var i := WalkPlace(s, t, spot);
    ReadsSpine(c, s, t, spot.n);
    assert Touches(c.workers[t].spot, spot.h) && Touches(c.workers[t].spot, spot.x);
  }

  lemma NextStage(s: State, t: nat, spot: Spot, next: Spot)
    requires WalkOk(s, t, spot) && !spot.stage.Seek? && next.Walk? && next == spot.(stage := next.stage)
    ensures WalkOk(s, t, next)
  {
    var sp := SpineKey(s.tree, s.threads[t].op.key);
    var i :| AtIndex(sp, spot.x, spot.h, spot.n, spot.stage, i);
    assert AtIndex(sp, next.x, next.h, next.n, next.stage, i);
  }

  /** What the walk has written so far, next to what it is going to leave. */
  lemma AlmostTakenOver(c: Machine, s: State, t: nat)
    requires Good(s) && Refines(c, s) && t in c.workers && c.workers[t].spot.Walk? && c.workers[t].spot.stage.KeyCopied?
    ensures var spot, m := c.workers[t].spot, Cells(HEAD, s.tree); var x, h, u := spot.x, spot.h, spot.n;
      && t in s.threads && x in m && h in m && u in m && u != h && u != x && x in c.cells
      && (Holds(c.cells, h, TakenOver(m, x, h, u)[h]) || h == x)
      && c.cells[x].(value := m[u].value) == TakenOver(m, x, h, u)[x]
      && Read(c, u) == m[u]
  {
    SameThread(c, s, t);
    var spot := c.workers[t].spot;
    WalkZone(s, t, spot);
    var i := WalkPlace(s, t, spot);
    ReadsSpine(c, s, t, spot.n);
    assert Touches(c.workers[t].spot, spot.h) && Touches(c.workers[t].spot, spot.x);
  }

  lemma TakeOverChange(tree: Tree<nat>, k: string, cells: map<nat, Cell<nat>>)
    requires TreeOk(tree) && Lookup(tree, k).Some? && SubtreeAt(tree, k).l.Fork? && SubtreeAt(tree, k).r.Fork?
    requires var x, sp, m := SubtreeAt(tree, k).id, SpineKey(tree, k), Cells(HEAD, tree);
      && sp != [] && x in m && x in cells && Successor(sp) in m && Holder(sp, x) in m
      && (Holds(cells, Holder(sp, x), TakenOver(m, x, Holder(sp, x), Successor(sp))[Holder(sp, x)])
          || Holder(sp, x) == x)
      && cells[x].(value := m[Successor(sp)].value) == TakenOver(m, x, Holder(sp, x), Successor(sp))[x]
    ensures var x, sp, m := SubtreeAt(tree, k).id, SpineKey(tree, k), Cells(HEAD, tree);
      && TreeOk(DbTree.Remove(tree, k))
      && LocalChange(tree, cells, DbTree.Remove(tree, k), cells[x := cells[x].(value := m[Successor(sp)].value)],
                     {Holder(sp, x), x, Successor(sp)})
  {
    var x, sp, m := SubtreeAt(tree, k).id, SpineKey(tree, k), Cells(HEAD, tree);
    TakeOverCells(tree, k);
    RemoveTreeOk(tree, k);
    TakeOverFollows(m, cells, x, Holder(sp, x), Successor(sp));
    ChangeOfCells(tree, cells, DbTree.Remove(tree, k), cells[x := cells[x].(value := m[Successor(sp)].value)],
                  {Holder(sp, x), x, Successor(sp)});
  }

  lemma CopyValueChange(c: Machine, s: State, t: nat)
    requires Good(s) && Refines(c, s) && t in c.workers && c.workers[t].spot.Walk? && c.workers[t].spot.stage.KeyCopied?
    ensures var spot := c.workers[t].spot;
      && t in s.threads && s.threads[t].op.Remove? && spot.x in c.cells
      && TreeOk(DbTree.Remove(s.tree, s.threads[t].op.key))
      && LocalChange(s.tree, c.cells, DbTree.Remove(s.tree, s.threads[t].op.key),
                     c.cells[spot.x := c.cells[spot.x].(value := Read(c, spot.n).value)], {spot.h, spot.x, spot.n})
  {
    SameThread(c, s, t);
    var spot := c.workers[t].spot;
    AlmostTakenOver(c, s, t);
    var i := WalkPlace(s, t, spot);
    WalkFacts(s, t);
    TakeOverChange(s.tree, s.threads[t].op.key, c.cells);
  }

  /** The step of the tree's thread that the last write is. */
  lemma CopyValueStep(s: State, t: nat, spot: Spot, n: nat)
    requires Good(s) && WalkOk(s, t, spot) && spot.stage.KeyCopied?
    ensures Enabled(s, t, n)
    ensures var s' := Act(s, t, n); var at := Closing([spot.p, spot.x], Some(spot.n), Flag(true));
      && s'.tree == DbTree.Remove(s.tree, s.threads[t].op.key) && s'.threads == s.threads[t := s.threads[t].(at := at)]
      && s'.locks == s.locks && s'.live == s.live && s'.history == s.history + [Event(t, s.threads[t].op, Flag(true))]
  {
    var i := WalkPlace(s, t, spot);
    SuccessorIsLocal(s, t, n);
  }

  /** The last write: now memory stores the tree without the key. */
  lemma CopyValueRefines(c: Machine, s: State, t: nat, n: nat)
    requires Good(s) && Refines(c, s) && t in c.workers && c.workers[t].spot.Walk? && c.workers[t].spot.stage.KeyCopied?
    ensures t in s.threads && Simulates(c, s, t, n)
  {
    SameThread(c, s, t);
    CopyValueChange(c, s, t);
    CopyValueStep(s, t, c.workers[t].spot, n);
    LastWrite(c, t, n);
    TakenAway(c, s, t, Step(c, t, n), Act(s, t, n));
  }

  lemma LastWrite(c: Machine, t: nat, n: nat)
    requires t in c.workers && c.workers[t].spot.Walk? && c.workers[t].spot.stage.KeyCopied?
    requires c.workers[t].spot.x in c.cells
    ensures var spot, c' := c.workers[t].spot, Step(c, t, n);
      var at := Closing([spot.p, spot.x], Some(spot.n), Flag(true));
      && c'.cells == c.cells[spot.x := c.cells[spot.x].(value := Read(c, spot.n).value)]
      && c'.cells.Keys == c.cells.Keys
      && c'.workers == c.workers[t := c.workers[t].(spot := Plain(at))]
      && c'.locks == c.locks && c'.history == c.history + [Event(t, c.workers[t].op, Flag(true))]
  {
  }

  lemma TakenAway(c: Machine, s: State, t: nat, c': Machine, s': State)
    requires Good(s) && Refines(c, s) && t in c.workers && c.workers[t].spot.Walk?
    requires var spot := c.workers[t].spot; var at := Closing([spot.p, spot.x], Some(spot.n), Flag(true));
      && c'.workers == c.workers[t := c.workers[t].(spot := Plain(at))]
      && s'.threads == s.threads[t := s.threads[t].(at := at)]
      && LocalChange(s.tree, c.cells, s'.tree, c'.cells, {spot.h, spot.x, spot.n})
    requires c'.locks == s'.locks && c'.history == s'.history && c'.cells.Keys == c.cells.Keys
    requires s'.live == s.live && TreeOk(s'.tree)
    ensures Refines(c', s') && SpinesKept(c, s.tree, t, s'.tree)
  {
    var spot := c.workers[t].spot;
    SameThread(c, s, t);
    OwnZone(c, s, t);
    ClosingNext(s.tree, spot.p, spot.x, Some(spot.n), Flag(true));
    LocalRefines(c, s, t, Closing([spot.p, spot.x], Some(spot.n), Flag(true)), {spot.h, spot.x, spot.n}, c', s');
  }

  lemma ClosingNext(tree: Tree<nat>, p: nat, x: nat, loose: Option<nat>, reply: Reply)
    ensures NextPlace(tree, Hit(p, x), Closing([p, x], loose, reply))
  {
  }

  lemma OwnZone(c: Machine, s: State, t: nat)
    requires Good(s) && Refines(c, s) && t in c.workers && c.workers[t].spot.Walk?
    ensures var spot := c.workers[t].spot;
      forall u {:trigger c.workers[u].spot} :: u in c.workers && u != t && c.workers[u].spot.Walk? ==>
        {spot.h, spot.x, spot.n} !! Zone(s.tree, KeyOf(c.workers[u].op))
  {
    var spot := c.workers[t].spot;
    WalkZone(s, t, spot);
    forall u {:trigger c.workers[u].spot} | u in c.workers && u != t && c.workers[u].spot.Walk?
      ensures {spot.h, spot.x, spot.n} !! Zone(s.tree, KeyOf(c.workers[u].op))
    {
      ZonesApart(s, t, spot, u, c.workers[u].spot);
    }
  }

  // ---------------------------------------------------------------- every step

  /** Every step of the machine is a step of the tree's threads, or hidden from them. */
  lemma StepRefines(c: Machine, s: State, t: nat, n: nat)
    requires Good(s) && Refines(c, s) && CanStep(c, t, n, true)
    ensures t in s.threads
    ensures if Visible(c, t) then Simulates(c, s, t, n) else Refines(Step(c, t, n), s)
  {
    var w := c.workers[t];
    SameThread(c, s, t);
    if w.spot.Walk? {
      match w.spot.stage
      case Seek => SeekRefines(c, s, t, n);
      case Found => UnlinkRefines(c, s, t, n);
      case Unlinked => CopyKeyRefines(c, s, t, n);
      case KeyCopied => CopyValueRefines(c, s, t, n);
    } else {
      PlainRefines(c, s, t, n);
    }
  }

  lemma PlainRefines(c: Machine, s: State, t: nat, n: nat)
    requires Good(s) && Refines(c, s) && CanStep(c, t, n, true) && c.workers[t].spot.Plain?
    ensures t in s.threads
    ensures if Visible(c, t) then Simulates(c, s, t, n) else Refines(Step(c, t, n), s)
  {
    var op, at := c.workers[t].op, c.workers[t].spot.at;
    SameThread(c, s, t);
    match at
    case Start => StartRefines(c, s, t, n);
    case At(_) => AtRefines(c, s, t, n);
    case Want(_, _) => WantRefines(c, s, t, n);
    case Got(_, _) => GotRefines(c, s, t, n);
    case Miss(_) => if op.Add? { LinkRefines(c, s, t, n); } else { MissRefines(c, s, t, n); }
    case Hit(_, _) =>
      if !op.Remove? {
        HitRefines(c, s, t, n);
      } else if Visible(c, t) {
        SpliceRefines(c, s, t, n);
      } else {
        WalkStarts(c, s, t, n);
      }
    case Reading(_) => ReadingRefines(c, s, t, n);
    case Closing(nodes, _, _) => if nodes != [] { UnlockRefines(c, s, t, n); } else { DestroyRefines(c, s, t, n); }
    case Printing(_, _) => PrintRefines(c, s, t, n);
  }
}
