/**
  The successor walk of a remove runs without locks, and the code does not wait for
  anybody before it starts.  What goes wrong then: were the walk one step, exactly when
  it would keep the invariant; walking link by link, who can make it read a freed
  record or pull a record away from under another thread; and two runs that do go wrong.
 */
module DbSuccessor {
  import opened Options
  import opened Sequences
  import opened DbTree
  import opened DbConcurrent
  import opened DbSafety
  import opened DbHistory
  import opened DbMachine
  import opened DbRefines
  import opened DbMachineRuns

  /** A search to the right for a key up to the successor's has lost its way. */
  lemma {:induction false} TreeLost(t: Tree<nat>, k: string, k': string, p: nat)
    requires Ordered(t) && DistinctIds(t) && Lookup(t, k').Some?
    requires var s := SubtreeAt(t, k'); s.l.Fork? && s.r.Fork? && p in Ids(s.r) && !Less(Min(s.r).key, k)
    ensures !Passes(DbTree.Remove(t, k'), k, p)
    decreases t
  {
    if k' == t.key {
      LessTotal(k, Min(t.r).key);
      if Less(k, Min(t.r).key) && Passes(t.l, k, p) {
        PassesIds(t.l, k, p);
      }
    } else {
      SubtreeFacts(Side(t, k'), k', t.id);
      if Side(t, k) == Side(t, k') {
        TreeLost(Side(t, k'), k, k', p);
      } else if Passes(Side(t, k), k, p) {
        PassesIds(Side(t, k), k, p);
      }
    }
  }

  // ---------------------------------------------------------------- the unguarded step

  /** A thread in the way loses its footing. */
  lemma WalkBreaks(tree: Tree<nat>, k: string, th: Thread)
    requires TreeOk(tree) && Lookup(tree, k).Some? && ThreadOk(tree, th)
    requires var s := SubtreeAt(tree, k); s.l.Fork? && s.r.Fork? && !OutOfTheWay(tree, k, th)
    ensures !ThreadOk(DbTree.Remove(tree, k), th)
  {
    var s, tree' := SubtreeAt(tree, k), DbTree.Remove(tree, k);
    RemoveTreeOk(tree, k);
    if ThreadOk(tree', th) {
      if Min(s.r).id in HeldIds(th.at) || Awaited(th.at) == Some(Min(s.r).id) {
        Referenced(tree', th, Min(s.r).id);
      } else {
        SubtreeFacts(tree, k, HEAD);
        TreeLost(tree, KeyOf(th.op), k, Standing(th.at).value);
      }
    }
  }

  /**
    Were the walk and its writes one step, taking over the successor without waiting for anybody
    would keep the invariant if and only if every other thread is out of the way.
   */
  lemma UnguardedExact(s: State, t: nat, n: nat)
    requires Good(s) && AtSuccessorWalk(s, t) && Lookup(s.tree, s.threads[t].op.key).Some?
    requires SubtreeAt(s.tree, s.threads[t].op.key).r.Fork?
    ensures Good(Act(s, t, n)) <==>
      forall u :: u in s.threads && u != t ==> OutOfTheWay(s.tree, s.threads[t].op.key, s.threads[u])
  {
    var k, s', th := s.threads[t].op.key, Act(s, t, n), s.threads[t];
    WalkFacts(s, t);
    if forall u :: u in s.threads && u != t ==> OutOfTheWay(s.tree, k, s.threads[u]) {
      UnguardedKeeps(s, t, n);
    } else {
      var u :| u in s.threads && u != t && !OutOfTheWay(s.tree, k, s.threads[u]);
      WalkBreaks(s.tree, k, s.threads[u]);
      assert s'.threads[u] == s.threads[u];
    }
  }

  lemma UnguardedKeeps(s: State, t: nat, n: nat)
    requires Good(s) && AtSuccessorWalk(s, t) && Lookup(s.tree, s.threads[t].op.key).Some?
    requires SubtreeAt(s.tree, s.threads[t].op.key).r.Fork?
    requires forall u :: u in s.threads && u != t ==> OutOfTheWay(s.tree, s.threads[t].op.key, s.threads[u])
    ensures Good(Act(s, t, n))
  {
    var s' := Act(s, t, n);
    WalkFacts(s, t);
    SuccessorOthers(s, t, n);
    SameKeeps(s.locks, s.threads, t, s'.threads[t].at);
    CutLive(s, t, s.threads[t].op.key, s'.threads[t].at);
  }

  // ---------------------------------------------------------------- the walk link by link, without waiting

  /** Some run takes the machine there; without waiting, unless `guarded`. */
  ghost predicate Reaches(c: Machine, c': Machine, guarded: bool) {
    exists moves :: MovesOk(c, moves, guarded) && RunOf(c, moves, guarded) == c'
  }

  lemma ReachesHere(c: Machine, guarded: bool)
    ensures Reaches(c, c, guarded)
  {
    assert MovesOk(c, [], guarded) && RunOf(c, [], guarded) == c;
  }

  lemma ReachesFirst(c: Machine, t: nat, c': Machine, guarded: bool)
    requires CanStep(c, t, 0, guarded) && Reaches(Step(c, t, 0), c', guarded)
    ensures Reaches(c, c', guarded)
  {
    var moves :| MovesOk(Step(c, t, 0), moves, guarded) && RunOf(Step(c, t, 0), moves, guarded) == c';
    var all := [Move(t, 0)] + moves;
    assert all[1..] == moves;
    assert MovesOk(c, all, guarded) && RunOf(c, all, guarded) == c';
  }

  lemma {:induction false} ReachesOn(c: Machine, moves: seq<Move>, c': Machine, guarded: bool)
    requires MovesOk(c, moves, guarded) && Reaches(RunOf(c, moves, guarded), c', guarded)
    ensures Reaches(c, c', guarded)
    decreases |moves|
  {
    if moves != [] {
      var c1 := Step(c, moves[0].t, moves[0].n);
      ReachesOn(c1, moves[1..], c', guarded);
      var more :| MovesOk(c1, more, guarded) && RunOf(c1, more, guarded) == c';
      var all := [moves[0]] + more;
      assert all[1..] == more;
      assert MovesOk(c, all, guarded) && RunOf(c, all, guarded) == c';
    }
  }

  lemma ReachesTrans(c: Machine, c1: Machine, c2: Machine, guarded: bool)
    requires Reaches(c, c1, guarded) && Reaches(c1, c2, guarded)
    ensures Reaches(c, c2, guarded)
  {
    var moves :| MovesOk(c, moves, guarded) && RunOf(c, moves, guarded) == c1;
    ReachesOn(c, moves, c2, guarded);
  }

  /** Where the walk of `x` stands when it has come to the k-th record of the spine. */
  function Below(p: nat, x: nat, sp: seq<nat>, k: nat): Spot
    requires k < |sp|
  {
    Walk(p, x, if k == 0 then x else sp[k - 1], sp[k], Seek)
  }

  lemma WalksOne(c: Machine, t: nat, p: nat, x: nat, sp: seq<nat>, i: nat)
    requires t in c.workers && IsSpine(c.cells, x, sp) && i + 1 < |sp| && c.workers[t].spot == Below(p, x, sp, i)
    ensures Step(c, t, 0) == To(c, t, Below(p, x, sp, i + 1))
  {
    assert LinkedAt(c.cells, sp, i);
  }

  /** Nobody can stop the walk: its steps wait for no lock. */
  lemma {:induction false} WalksDown(c: Machine, t: nat, p: nat, x: nat, sp: seq<nat>, i: nat, k: nat)
    requires t in c.workers && IsSpine(c.cells, x, sp) && i <= k < |sp| && c.workers[t].spot == Below(p, x, sp, i)
    ensures Reaches(c, To(c, t, Below(p, x, sp, k)), false)
    decreases k - i
  {
    if i == k {
      assert To(c, t, Below(p, x, sp, k)) == c;
      ReachesHere(c, false);
    } else {
      var c1 := Step(c, t, 0);
      WalksOne(c, t, p, x, sp, i);
      WalksDown(c1, t, p, x, sp, i + 1, k);
      assert To(c1, t, Below(p, x, sp, k)) == To(c, t, Below(p, x, sp, k));
      ReachesFirst(c, t, To(c, t, Below(p, x, sp, k)), false);
    }
  }

  /** A thread that is settled gives its locks back and destroys what it cut out, stopped by nobody. */
  lemma Destroys(c: Machine, u: nat, q: nat, x: nat, y: nat, reply: Reply) returns (c': Machine)
    requires u in c.workers && c.workers[u].spot == Plain(Closing([q, x], Some(y), reply))
    ensures Reaches(c, c', false) && c'.cells == c.cells - {y} && c'.history == c.history
    ensures c'.workers == c.workers[u := c.workers[u].(spot := Plain(Done(reply)))]
  {
    var c1 := Step(c, u, 0);
    var c2 := Step(c1, u, 0);
    c' := Step(c2, u, 0);
    assert [q, x][1..] == [x] && [x][1..] == [];
    ReachesHere(c', false);
    ReachesFirst(c2, u, c', false);
    ReachesFirst(c1, u, c', false);
    ReachesFirst(c, u, c', false);
  }

  /** In memory: `t` has found record x, which has two children, and `sp` is the spine below. */
  ghost predicate FoundIn(c: Machine, t: nat, p: nat, x: nat, sp: seq<nat>) {
    && t in c.workers && c.workers[t].op.Remove? && c.workers[t].spot == Plain(Hit(p, x))
    && IsSpine(c.cells, x, sp) && c.cells[x].left.Some?
  }

  /** Unguarded, the walk begins at once and comes as far down the spine as it likes. */
  lemma WalksTo(c: Machine, t: nat, p: nat, x: nat, sp: seq<nat>, k: nat)
    requires FoundIn(c, t, p, x, sp) && k < |sp|
    ensures Reaches(c, To(c, t, Below(p, x, sp, k)), false)
  {
    var c1 := Step(c, t, 0);
    assert c1 == To(c, t, Below(p, x, sp, 0));
    WalksDown(c1, t, p, x, sp, 0, k);
    assert To(c1, t, Below(p, x, sp, k)) == To(c, t, Below(p, x, sp, k));
    ReachesFirst(c, t, To(c, t, Below(p, x, sp, k)), false);
  }

  /**
    If another thread is about to cut out a record of the spine, the walk can be made to read it after it
    was destroyed, whatever else the state is.
   */
  lemma SpineCutBreaks(c: Machine, t: nat, p: nat, x: nat, sp: seq<nat>, k: nat, u: nat) returns (c': Machine)
    requires FoundIn(c, t, p, x, sp) && k < |sp| && u in c.workers && u != t && c.workers[u].op.Remove? && Visible(c, u)
    requires c.workers[u].spot.Plain? && c.workers[u].spot.at.Hit? && c.workers[u].spot.at.n == sp[k]
    ensures Reaches(c, c', false) && t in c'.workers && c'.workers[t].spot.Walk? && !(Accessed(c', t) <= c'.cells.Keys)
  {
    WalksTo(c, t, p, x, sp, k);
    var c1 := To(c, t, Below(p, x, sp, k));
    c' := CutsOut(c1, u, c.workers[u].spot.at.p, sp[k]);
    ReachesTrans(c, c1, c', false);
    assert c'.workers[t] == c1.workers[t];
  }

  /** A remover that has found a record with at most one child cuts it out and destroys it, stopped by nobody. */
  lemma CutsOut(c: Machine, u: nat, q: nat, y: nat) returns (c': Machine)
    requires u in c.workers && c.workers[u].spot == Plain(Hit(q, y)) && c.workers[u].op.Remove? && Visible(c, u)
    ensures Reaches(c, c', false) && y !in c'.cells
    ensures forall t :: t in c.workers && t != u ==> t in c'.workers && c'.workers[t] == c.workers[t]
  {
    var c1 := Step(c, u, 0);
    assert c1.workers[u].spot == Plain(Closing([q, y], Some(y), Flag(true)));
    c' := Destroys(c1, u, q, y, y, Flag(true));
    ReachesFirst(c, u, c', false);
  }

  /** From the last record of the spine the walk makes its writes and destroys it, stopped by nobody. */
  lemma TakesOver(c: Machine, t: nat, p: nat, x: nat, h: nat, m: nat) returns (c': Machine)
    requires t in c.workers && c.workers[t].spot == Walk(p, x, h, m, Seek) && m in c.cells && c.cells[m].left == None
    ensures Reaches(c, c', false) && m !in c'.cells
    ensures forall u :: u in c.workers && u != t ==> u in c'.workers && c'.workers[u] == c.workers[u]
  {
    var c1 := Step(c, t, 0);
    var c2 := Step(c1, t, 0);
    var c3 := Step(c2, t, 0);
    var c4 := Step(c3, t, 0);
    assert c4.workers[t].spot == Plain(Closing([p, x], Some(m), Flag(true)));
    c' := Destroys(c4, t, p, x, m, Flag(true));
    ReachesFirst(c3, t, c', false);
    ReachesFirst(c2, t, c', false);
    ReachesFirst(c1, t, c', false);
    ReachesFirst(c, t, c', false);
  }

  /** If another thread holds or awaits the successor, the walk can destroy it in the meantime. */
  lemma SuccessorTaken(c: Machine, t: nat, p: nat, x: nat, sp: seq<nat>, u: nat) returns (c': Machine)
    requires FoundIn(c, t, p, x, sp) && u in c.workers && u != t
    requires var m, at := Successor(sp), Shown(c.workers[u].spot); m in HeldIds(at) || Awaited(at) == Some(m)
    ensures Reaches(c, c', false) && u in c'.workers && c'.workers[u] == c.workers[u] && Successor(sp) !in c'.cells
  {
    c' := TakesSpine(c, t, p, x, sp);
  }

  /** The whole walk, stopped by nobody: the last record of the spine is destroyed. */
  lemma TakesSpine(c: Machine, t: nat, p: nat, x: nat, sp: seq<nat>) returns (c': Machine)
    requires FoundIn(c, t, p, x, sp)
    ensures Reaches(c, c', false) && Successor(sp) !in c'.cells
    ensures forall u :: u in c.workers && u != t ==> u in c'.workers && c'.workers[u] == c.workers[u]
  {
    var last := |sp| - 1;
    WalksTo(c, t, p, x, sp, last);
    var c1 := To(c, t, Below(p, x, sp, last));
    assert LinkedAt(c.cells, sp, last);
    c' := TakesOver(c1, t, p, x, if last == 0 then x else sp[last - 1], sp[last]);
    ReachesTrans(c, c1, c', false);
  }

  // ---------------------------------------------------------------- threads on their way down the spine

  lemma {:induction false} NeverTwice(cells: map<nat, Cell<nat>>, x: nat, sp: seq<nat>, i: nat, j: nat)
    requires IsSpine(cells, x, sp) && i < j < |sp|
    ensures sp[i] != sp[j]
    decreases |sp| - j
  {
    assert LinkedAt(cells, sp, i) && LinkedAt(cells, sp, j);
    if j + 1 < |sp| {
      NeverTwice(cells, x, sp, i + 1, j + 1);
    }
  }

  lemma SpineOnce(cells: map<nat, Cell<nat>>, x: nat, sp: seq<nat>)
    requires IsSpine(cells, x, sp)
    ensures Distinct(sp)
  {
    forall i, j | 0 <= i < j < |sp|
      ensures sp[i] != sp[j]
    {
      NeverTwice(cells, x, sp, i, j);
    }
  }

  /** A search for `k` goes left at each of these records, and nobody holds those after the first. */
  ghost predicate WayDown(c: Machine, k: string, sp: seq<nat>, i: nat, j: nat) {
    && i <= j < |sp|
    && (forall a {:trigger sp[a]} :: i <= a < j ==> Less(k, Read(c, sp[a]).key))
    && (forall a, h {:trigger sp[a], h in c.locks} :: i < a <= j && h in c.locks ==> h.id != sp[a])
  }

  /** `u` stands on record `id` and looks for a key. */
  ghost predicate StandsOn(c: Machine, u: nat, id: nat) {
    u in c.workers && !c.workers[u].op.Print? && c.workers[u].spot == Plain(At(id))
  }

  lemma OneDown(c: Machine, u: nat, x: nat, sp: seq<nat>, i: nat, j: nat) returns (c': Machine)
    requires IsSpine(c.cells, x, sp) && Distinct(sp) && i < j < |sp| && StandsOn(c, u, sp[i])
    requires WayDown(c, KeyOf(c.workers[u].op), sp, i, j)
    requires Read(c, sp[i + 1]).key != KeyOf(c.workers[u].op)
    ensures Reaches(c, c', false) && c'.cells == c.cells && StandsOn(c', u, sp[i + 1])
    ensures c'.workers[u].op == c.workers[u].op
    ensures WayDown(c', KeyOf(c.workers[u].op), sp, i + 1, j)
    ensures forall t :: t in c.workers && t != u ==> t in c'.workers && c'.workers[t] == c.workers[t]
  {
    assert LinkedAt(c.cells, sp, i);
    Descends(c, u, sp[i], sp[i + 1], false);
    c' := Stand(Give(Take(c, u, sp[i + 1]), u, sp[i]), u, At(sp[i + 1]));
  }

  /** Undisturbed, the thread comes to the j-th record of the spine. */
  lemma {:induction false} GoesDown(c: Machine, u: nat, x: nat, sp: seq<nat>, i: nat, j: nat) returns (c': Machine)
    requires IsSpine(c.cells, x, sp) && Distinct(sp) && i <= j < |sp| && StandsOn(c, u, sp[i])
    requires WayDown(c, KeyOf(c.workers[u].op), sp, i, j)
    requires Read(c, sp[j]).key != KeyOf(c.workers[u].op)
    ensures Reaches(c, c', false) && c'.cells == c.cells && StandsOn(c', u, sp[j])
    ensures c'.workers[u].op == c.workers[u].op
    ensures forall t :: t in c.workers && t != u ==> t in c'.workers && c'.workers[t] == c.workers[t]
    decreases j - i
  {
    if i == j {
      c' := c;
      ReachesHere(c, false);
    } else {
      LessIrreflexive(KeyOf(c.workers[u].op));
      var c1 := OneDown(c, u, x, sp, i, j);
      c' := GoesDown(c1, u, x, sp, i + 1, j);
      ReachesTrans(c, c1, c', false);
    }
  }

  lemma FoundStill(c: Machine, c': Machine, t: nat, p: nat, x: nat, sp: seq<nat>)
    requires FoundIn(c, t, p, x, sp) && c'.cells == c.cells && t in c'.workers && c'.workers[t] == c.workers[t]
    ensures FoundIn(c', t, p, x, sp)
  {
  }

  /**
    A thread higher up on the spine, with nobody below it, whose key leads it to the successor: it can get as far as
    waiting for the successor's lock, and the walk then frees the lock it waits for.
   */
  lemma HeadingTaken(c: Machine, t: nat, p: nat, x: nat, sp: seq<nat>, u: nat, i: nat) returns (c': Machine)
    requires FoundIn(c, t, p, x, sp) && u != t && i + 1 < |sp| && StandsOn(c, u, sp[i])
    requires var k, j := KeyOf(c.workers[u].op), |sp| - 2; WayDown(c, k, sp, i, j) && Less(k, Read(c, sp[j]).key)
    ensures Reaches(c, c', false) && u in c'.workers && c'.workers[u].spot == Plain(Want(sp[|sp| - 2], Successor(sp)))
    ensures Successor(sp) !in c'.cells && !(Accessed(c', u) <= c'.cells.Keys)
  {
    SpineOnce(c.cells, x, sp);
    var c1 := GoesAndWaits(c, u, x, sp, i);
    FoundStill(c, c1, t, p, x, sp);
    c' := TakesSpine(c1, t, p, x, sp);
    ReachesTrans(c, c1, c', false);
  }

  lemma GoesAndWaits(c: Machine, u: nat, x: nat, sp: seq<nat>, i: nat) returns (c': Machine)
    requires IsSpine(c.cells, x, sp) && Distinct(sp) && i + 1 < |sp| && StandsOn(c, u, sp[i])
    requires var k, j := KeyOf(c.workers[u].op), |sp| - 2; WayDown(c, k, sp, i, j) && Less(k, Read(c, sp[j]).key)
    ensures Reaches(c, c', false) && c'.cells == c.cells && u in c'.workers
    ensures c'.workers[u].spot == Plain(Want(sp[|sp| - 2], Successor(sp)))
    ensures forall t :: t in c.workers && t != u ==> t in c'.workers && c'.workers[t] == c.workers[t]
  {
    var j := |sp| - 2;
    LessIrreflexive(KeyOf(c.workers[u].op));
    var c1 := GoesDown(c, u, x, sp, i, j);
    assert LinkedAt(c1.cells, sp, j);
    c' := Stand(c1, u, Want(sp[j], sp[j + 1]));
    ReadsLeft(c1, u, sp[j], sp[j + 1]);
    ReachesTrans(c, c1, c', false);
  }

  lemma ReadsLeft(c: Machine, u: nat, p: nat, x: nat)
    requires StandsOn(c, u, p) && Read(c, p).left == Some(x) && Less(KeyOf(c.workers[u].op), Read(c, p).key)
    ensures Reaches(c, Stand(c, u, Want(p, x)), false)
  {
    var c' := Step(c, u, 0);
    ReachesHere(c', false);
    ReachesFirst(c, u, c', false);
  }

  /** A remover higher up, on its way to a record of the spine with at most one child: it can free it under the walk. */
  lemma HeadingCuts(c: Machine, t: nat, p: nat, x: nat, sp: seq<nat>, u: nat, i: nat, j: nat) returns (c': Machine)
    requires FoundIn(c, t, p, x, sp) && u != t && i < j < |sp| && StandsOn(c, u, sp[i])
    requires c.workers[u].op.Remove? && WayDown(c, c.workers[u].op.key, sp, i, j)
    requires Read(c, sp[j]).key == c.workers[u].op.key && (Read(c, sp[j]).left.None? || Read(c, sp[j]).right.None?)
    ensures Reaches(c, c', false) && t in c'.workers && c'.workers[t].spot.Walk? && !(Accessed(c', t) <= c'.cells.Keys)
  {
    SpineOnce(c.cells, x, sp);
    var c1 := GoesAndFinds(c, u, x, sp, i, j);
    FoundStill(c, c1, t, p, x, sp);
    c' := SpineCutBreaks(c1, t, p, x, sp, j, u);
    ReachesTrans(c, c1, c', false);
  }

  lemma {:induction false} GoesAndFinds(c: Machine, u: nat, x: nat, sp: seq<nat>, i: nat, j: nat) returns (c': Machine)
    requires IsSpine(c.cells, x, sp) && Distinct(sp) && i < j < |sp| && StandsOn(c, u, sp[i])
    requires WayDown(c, KeyOf(c.workers[u].op), sp, i, j)
    requires Read(c, sp[j]).key == KeyOf(c.workers[u].op)
    ensures Reaches(c, c', false) && c'.cells == c.cells && u in c'.workers && c'.workers[u].op == c.workers[u].op
    ensures c'.workers[u].spot == Plain(Hit(sp[j - 1], sp[j]))
    ensures forall t :: t in c.workers && t != u ==> t in c'.workers && c'.workers[t] == c.workers[t]
    decreases j - i
  {
    if i + 1 == j {
      assert LinkedAt(c.cells, sp, i);
      Descends(c, u, sp[i], sp[j], false);
      c' := Stand(Take(c, u, sp[j]), u, Hit(sp[i], sp[j]));
    } else {
      LessIrreflexive(KeyOf(c.workers[u].op));
      var c1 := OneDown(c, u, x, sp, i, j);
      c' := GoesAndFinds(c1, u, x, sp, i + 1, j);
      ReachesTrans(c, c1, c', false);
    }
  }

  // ---------------------------------------------------------------- two runs that go wrong

  /** From a held record to its child: read the link, take the child's lock, compare the key. */
  lemma Descends(c: Machine, t: nat, p: nat, x: nat, guarded: bool)
    requires t in c.workers && c.workers[t].spot == Plain(At(p))
    requires Child(Read(c, p), KeyOf(c.workers[t].op)) == Some(x) && Grantable(c.locks, x, Writes(c.workers[t].op, x))
    ensures Reaches(c, if Read(c, x).key == KeyOf(c.workers[t].op) then Stand(Take(c, t, x), t, Hit(p, x))
                       else Stand(Give(Take(c, t, x), t, p), t, At(x)), guarded)
  {
    var c1 := Step(c, t, 0);
    var c2 := Step(c1, t, 0);
    var c3 := Step(c2, t, 0);
    ReachesHere(c3, guarded);
    ReachesFirst(c2, t, c3, guarded);
    ReachesFirst(c1, t, c3, guarded);
    ReachesFirst(c, t, c3, guarded);
  }

  /** Two threads on memory `cells`: thread 0 is another operation, thread 1 removes "d". */
  function Pair(cells: map<nat, Cell<nat>>, op: Op, other: Place, remover: Place, locks: set<Hold>): Machine {
    Machine(cells, locks, map[0 := Worker(op, Plain(other)), 1 := Worker(Op.Remove("d"), Plain(remover))], [])
  }

  lemma PairStarts(cells: map<nat, Cell<nat>>, op: Op, t: nat, other: Place, remover: Place, locks: set<Hold>)
    requires t in {0, 1} && !op.Print? && (if t == 0 then other else remover) == Start
    requires forall h :: h in locks ==> h.id != HEAD
    ensures var held := locks + {Hold(t, HEAD, true)};
      Reaches(Pair(cells, op, other, remover, locks),
              if t == 0 then Pair(cells, op, At(HEAD), remover, held) else Pair(cells, op, other, At(HEAD), held), true)
  {
    var c := Pair(cells, op, other, remover, locks);
    var c1 := Step(c, t, 0);
    var held := locks + {Hold(t, HEAD, true)};
    assert c1 == if t == 0 then Pair(cells, op, At(HEAD), remover, held) else Pair(cells, op, other, At(HEAD), held);
    ReachesHere(c1, true);
    ReachesFirst(c, t, c1, true);
  }

  /** Thread 0 goes from `p` to `x`, giving `p` back. */
  lemma OtherDescends(cells: map<nat, Cell<nat>>, op: Op, p: nat, x: nat)
    requires op.Query? || op.Remove?
    requires p in cells && x in cells && p != x && x != HEAD && Child(cells[p], op.key) == Some(x)
    requires cells[x].key != op.key
    ensures Reaches(Pair(cells, op, At(p), Start, {Hold(0, p, Writes(op, p))}),
                    Pair(cells, op, At(x), Start, {Hold(0, x, Writes(op, x))}), true)
  {
    var c := Pair(cells, op, At(p), Start, {Hold(0, p, Writes(op, p))});
    Descends(c, 0, p, x, true);
    assert Stand(Give(Take(c, 0, x), 0, p), 0, At(x)) == Pair(cells, op, At(x), Start, {Hold(0, x, Writes(op, x))});
  }

  /** Thread 1 finds "d" right below the head. */
  lemma RemoverFinds(cells: map<nat, Cell<nat>>, op: Op, other: Place, locks: set<Hold>)
    requires HEAD in cells && 1 in cells && Child(cells[HEAD], "d") == Some(1) && cells[1].key == "d" && !op.Print?
    requires forall h :: h in locks ==> h.id != HEAD && h.id != 1
    ensures Reaches(Pair(cells, op, other, Start, locks),
                    Pair(cells, op, other, Hit(HEAD, 1), locks + {Hold(1, HEAD, true), Hold(1, 1, true)}), true)
  {
    PairStarts(cells, op, 1, other, Start, locks);
    var c1 := Pair(cells, op, other, At(HEAD), locks + {Hold(1, HEAD, true)});
    var c2 := Pair(cells, op, other, Hit(HEAD, 1), locks + {Hold(1, HEAD, true), Hold(1, 1, true)});
    Descends(c1, 1, HEAD, 1, true);
    assert Stand(Take(c1, 1, 1), 1, Hit(HEAD, 1)) == c2;
    ReachesTrans(Pair(cells, op, other, Start, locks), c1, c2, true);
  }

  lemma SampleOrder()
    ensures Less("e", "f") && Less("f", "z") && Less("d", "e") && Less("d", "f") && Less("d", "z")
    ensures Less("a", "d") && Less("e", "z")
    ensures !Less("e", "d") && !Less("f", "d") && !Less("e", "") && !Less("f", "") && !Less("d", "")
  {
  }

  /** "d" with "a" to the left and "f" to the right, and "e", the successor of "d", below "f". */
  function Shallow(): Tree<nat> {
    Fork(1, "d", "1", Fork(2, "a", "2", Leaf, Leaf), Fork(3, "f", "3", Fork(4, "e", "4", Leaf, Leaf), Leaf))
  }

  /** The part of its memory that the run reads. */
  ghost predicate ShallowCells(cells: map<nat, Cell<nat>>) {
    && cells.Keys == {0, 1, 2, 3, 4} && cells[0] == Cell("", "", None, Some(1))
    && cells[1] == Cell("d", "1", Some(2), Some(3))
    && cells[3] == Cell("f", "3", Some(4), None) && cells[4] == Cell("e", "4", None, None)
  }

  lemma ShallowFacts()
    ensures TreeOk(Shallow()) && ShallowCells(Cells(HEAD, Shallow())) && MapGet(Contents(Shallow()), "e") == Some("4")
  {
    SampleOrder();
    OneRecord(2, "a", "2");
    EUnderF();
    var a, f := Fork(2, "a", "2", Leaf, Leaf), Fork(3, "f", "3", Fork(4, "e", "4", Leaf, Leaf), Leaf);
    ShallowJoin("a", "d", "e", "f", a, f);
  }

  lemma EUnderF()
    ensures var f := Fork(3, "f", "3", Fork(4, "e", "4", Leaf, Leaf), Leaf);
      && Ordered(f) && DistinctIds(f) && Ids(f) == {3, 4} && Contents(f) == map["e" := "4", "f" := "3"]
      && Shape(f)[3] == Cell("f", "3", Some(4), None) && Shape(f)[4] == Cell("e", "4", None, None)
  {
    SampleOrder();
    OneRecord(4, "e", "4");
  }

  lemma ShallowJoin(a: string, d: string, e: string, f: string, l: Tree<nat>, r: Tree<nat>)
    requires Less(a, d) && Less(d, e) && Less(d, f) && e != d
    requires Ordered(l) && DistinctIds(l) && Ids(l) == {2} && Contents(l).Keys == {a} && l.Fork? && l.id == 2
    requires Ordered(r) && DistinctIds(r) && Ids(r) == {3, 4} && Contents(r) == map[e := "4", f := "3"] && e != f
    requires r.Fork? && r.id == 3
    ensures var t := Fork(1, d, "1", l, r);
      && TreeOk(t) && Contents(t).Keys == {a, d, e, f} && MapGet(Contents(t), e) == Some("4")
      && Cells(HEAD, t).Keys == {0, 1, 2, 3, 4} && Cells(HEAD, t)[0] == Cell("", "", None, Some(1))
      && Cells(HEAD, t)[1] == Cell(d, "1", Some(2), Some(3))
      && Cells(HEAD, t)[3] == Shape(r)[3] && Cells(HEAD, t)[4] == Shape(r)[4]
  {
    forall x | x in Contents(l) ensures Less(x, d) { assert x in Contents(l).Keys; }
  }

  /** The query for "e" stands on "f", the remover of "d" has found its record. */
  lemma QueryUnderRemover(cells: map<nat, Cell<nat>>)
    requires ShallowCells(cells)
    ensures Reaches(Pair(cells, Query("e"), Start, Start, {}),
                    Pair(cells, Query("e"), At(3), Hit(HEAD, 1),
                         {Hold(0, 3, false)} + {Hold(1, HEAD, true), Hold(1, 1, true)}), true)
  {
    SampleOrder();
    var op := Query("e");
    var c := Pair(cells, op, Start, Start, {});
    PairStarts(cells, op, 0, Start, Start, {});
    assert {} + {Hold(0, HEAD, true)} == {Hold(0, HEAD, true)};
    OtherDescends(cells, op, HEAD, 1);
    OtherDescends(cells, op, 1, 3);
    ReachesTrans(c, Pair(cells, op, At(HEAD), Start, {Hold(0, HEAD, true)}),
                 Pair(cells, op, At(1), Start, {Hold(0, 1, false)}), true);
    ReachesTrans(c, Pair(cells, op, At(1), Start, {Hold(0, 1, false)}),
                 Pair(cells, op, At(3), Start, {Hold(0, 3, false)}), true);
    RemoverFinds(cells, op, At(3), {Hold(0, 3, false)});
    ReachesTrans(c, Pair(cells, op, At(3), Start, {Hold(0, 3, false)}),
                 Pair(cells, op, At(3), Hit(HEAD, 1),
                      {Hold(0, 3, false)} + {Hold(1, HEAD, true), Hold(1, 1, true)}), true);
  }

  /** The remover unlinks "e" before it copies it, and the query finds the link NULL. */
  lemma QueryOvertaken(cells: map<nat, Cell<nat>>, locks: set<Hold>) returns (c': Machine)
    requires ShallowCells(cells)
    ensures Reaches(Pair(cells, Query("e"), At(3), Hit(HEAD, 1), locks), c', false)
    ensures c'.history == [Event(0, Query("e"), NotFound)]
  {
    SampleOrder();
    var c := Pair(cells, Query("e"), At(3), Hit(HEAD, 1), locks);
    var c1 := Step(c, 1, 0);
    var c2 := Step(c1, 1, 0);
    assert c2 == To(c, 1, Walk(HEAD, 1, 3, 4, Seek));
    var c3 := Step(c2, 1, 0);
    var c4 := Step(c3, 1, 0);
    assert Read(c4, 3).left == None && c4.workers[0] == Worker(Query("e"), Plain(At(3)));
    var c5 := Step(c4, 0, 0);
    assert c5.workers[0] == Worker(Query("e"), Plain(Miss(3))) && c5.history == [];
    c' := Step(c5, 0, 0);
    ReachesHere(c', false);
    ReachesFirst(c5, 0, c', false);
    ReachesFirst(c4, 0, c', false);
    ReachesFirst(c3, 1, c', false);
    ReachesFirst(c2, 1, c', false);
    ReachesFirst(c1, 1, c', false);
    ReachesFirst(c, 1, c', false);
  }

  lemma {:induction false} GuardedToo(c: Machine, moves: seq<Move>)
    requires MovesOk(c, moves, true)
    ensures MovesOk(c, moves, false) && RunOf(c, moves, false) == RunOf(c, moves, true)
    decreases |moves|
  {
    if moves != [] {
      GuardedToo(Step(c, moves[0].t, moves[0].n), moves[1..]);
    }
  }

  lemma ReachesUnguarded(c: Machine, c': Machine)
    requires Reaches(c, c', true)
    ensures Reaches(c, c', false)
  {
    var moves :| MovesOk(c, moves, true) && RunOf(c, moves, true) == c';
    GuardedToo(c, moves);
  }

  /**
    A run of the code in which a query replies "not found" although no removal of its key has begun: the run has no
    explanation by a map.
   */
  lemma QueryMissesKey() returns (c: Machine, tree: Tree<nat>, c': Machine)
    ensures Begins(c, tree) && Reaches(c, c', false)
    ensures c'.history == [Event(0, Query("e"), NotFound)] && "e" in Contents(tree)
    ensures forall t :: t in c.workers ==> c.workers[t].op != Op.Remove("e")
    ensures !Replies(Contents(tree), c'.history)
  {
    tree := Shallow();
    ShallowFacts();
    var cells := Cells(HEAD, tree);
    c := Pair(cells, Query("e"), Start, Start, {});
    c' := QueryOvertakenFrom(cells);
    PairOps(cells, Query("e"));
    NotExplained(Contents(tree), c'.history);
  }

  lemma PairOps(cells: map<nat, Cell<nat>>, op: Op)
    requires op != Op.Remove("e")
    ensures var c := Pair(cells, op, Start, Start, {}); forall t :: t in c.workers ==> c.workers[t].op != Op.Remove("e")
  {
  }

  lemma QueryOvertakenFrom(cells: map<nat, Cell<nat>>) returns (c': Machine)
    requires ShallowCells(cells)
    ensures Reaches(Pair(cells, Query("e"), Start, Start, {}), c', false)
    ensures c'.history == [Event(0, Query("e"), NotFound)]
  {
    var c := Pair(cells, Query("e"), Start, Start, {});
    var locks := {Hold(0, 3, false)} + {Hold(1, HEAD, true), Hold(1, 1, true)};
    QueryUnderRemover(cells);
    ReachesUnguarded(c, Pair(cells, Query("e"), At(3), Hit(HEAD, 1), locks));
    c' := QueryOvertaken(cells, locks);
    ReachesTrans(c, Pair(cells, Query("e"), At(3), Hit(HEAD, 1), locks), c', false);
  }

  lemma NotExplained(m: map<string, string>, h: seq<Event>)
    requires h == [Event(0, Query("e"), NotFound)] && MapGet(m, "e").Some?
    ensures !Replies(m, h)
  {
    assert h[..0] == [] && After(m, []) == m;
    assert h[0].reply != ReplyOf(After(m, h[..0]), h[0].op);
  }

  /** "d" with "a" to the left and "z" to the right, "f" below "z" and "e" below "f". */
  function Deep(): Tree<nat> {
    Fork(1, "d", "1", Fork(2, "a", "2", Leaf, Leaf),
         Fork(5, "z", "5", Fork(3, "f", "3", Fork(4, "e", "4", Leaf, Leaf), Leaf), Leaf))
  }

  ghost predicate DeepCells(cells: map<nat, Cell<nat>>) {
    && cells.Keys == {0, 1, 2, 3, 4, 5} && cells[0] == Cell("", "", None, Some(1))
    && cells[1] == Cell("d", "1", Some(2), Some(5))
    && cells[5] == Cell("z", "5", Some(3), None) && cells[3] == Cell("f", "3", Some(4), None)
    && cells[4] == Cell("e", "4", None, None)
  }

  lemma DeepFacts()
    ensures TreeOk(Deep()) && DeepCells(Cells(HEAD, Deep()))
  {
    SampleOrder();
    var f := Fork(3, "f", "3", Fork(4, "e", "4", Leaf, Leaf), Leaf);
    RightOfDeep(f);
    OneRecord(2, "a", "2");
    UnderD(Fork(2, "a", "2", Leaf, Leaf), "a", "d", "e", "f", "z", Fork(5, "z", "5", f, Leaf));
    UnderDStored(Fork(5, "z", "5", f, Leaf));
  }

  lemma RightOfDeep(f: Tree<nat>)
    requires f == Fork(3, "f", "3", Fork(4, "e", "4", Leaf, Leaf), Leaf)
    ensures var z := Fork(5, "z", "5", f, Leaf);
      && Ordered(z) && DistinctIds(z) && Ids(z) == {3, 4, 5} && Contents(z).Keys == {"e", "f", "z"}
      && Shape(z)[5] == Cell("z", "5", Some(3), None) && Shape(z)[3] == Cell("f", "3", Some(4), None)
      && Shape(z)[4] == Cell("e", "4", None, None)
  {
    SampleOrder();
    EUnderF();
  }

  lemma UnderD(l: Tree<nat>, a: string, d: string, e: string, f: string, z: string, t: Tree<nat>)
    requires Less(a, d) && Less(d, e) && Less(d, f) && Less(d, z)
    requires Ordered(l) && DistinctIds(l) && Ids(l) == {2} && Contents(l).Keys == {a}
    requires Ordered(t) && DistinctIds(t) && Ids(t) == {3, 4, 5} && Contents(t).Keys == {e, f, z}
    ensures TreeOk(Fork(1, d, "1", l, t))
  {
    forall x | x in Contents(l) ensures Less(x, d) { assert x in Contents(l).Keys; }
    forall x | x in Contents(t) ensures Less(d, x) { assert x in Contents(t).Keys; }
  }

  lemma OneRecord(id: nat, key: string, value: string)
    ensures var t := Fork(id, key, value, Leaf, Leaf);
      Contents(t) == map[key := value] && Ids(t) == {id} && Ordered(t) && DistinctIds(t)
      && Shape(t) == map[id := Cell(key, value, None, None)]
  {
    assert Contents<nat>(Leaf) == map[] && Ids<nat>(Leaf) == {};
  }

  lemma UnderDStored(z: Tree<nat>)
    requires Ids(z) == {3, 4, 5} && z.Fork? && z.id == 5
    requires Shape(z)[5] == Cell("z", "5", Some(3), None) && Shape(z)[3] == Cell("f", "3", Some(4), None)
    requires Shape(z)[4] == Cell("e", "4", None, None)
    ensures DeepCells(Cells(HEAD, Fork(1, "d", "1", Fork(2, "a", "2", Leaf, Leaf), z)))
  {
    assert Shape(Fork(2, "a", "2", Leaf, Leaf)) == map[2 := Cell("a", "2", None, None)];
  }

  /** One remover has found "f", the other has found "d". */
  lemma TwoRemovers(cells: map<nat, Cell<nat>>)
    requires DeepCells(cells)
    ensures Reaches(Pair(cells, Op.Remove("f"), Start, Start, {}),
                    Pair(cells, Op.Remove("f"), Hit(5, 3), Hit(HEAD, 1),
                         {Hold(0, 5, true), Hold(0, 3, true)} + {Hold(1, HEAD, true), Hold(1, 1, true)}), true)
  {
    SampleOrder();
    var op := Op.Remove("f");
    var c, c1, c2 := Pair(cells, op, Start, Start, {}), Pair(cells, op, At(HEAD), Start,
                          {Hold(0, HEAD, true)}), Pair(cells, op, At(1), Start, {Hold(0, 1, true)});
    var c3, c4 := Pair(cells, op, At(5), Start, {Hold(0, 5, true)}), Pair(cells, op, Hit(5, 3), Start,
                       {Hold(0, 5, true), Hold(0, 3, true)});
    PairStarts(cells, op, 0, Start, Start, {});
    assert {} + {Hold(0, HEAD, true)} == {Hold(0, HEAD, true)};
    OtherDescends(cells, op, HEAD, 1);
    OtherDescends(cells, op, 1, 5);
    Descends(c3, 0, 5, 3, true);
    assert Stand(Take(c3, 0, 3), 0, Hit(5, 3)) == c4;
    ReachesTrans(c, c1, c2, true);
    ReachesTrans(c, c2, c3, true);
    ReachesTrans(c, c3, c4, true);
    RemoverFinds(cells, op, Hit(5, 3), {Hold(0, 5, true), Hold(0, 3, true)});
    ReachesTrans(c, c4,
                 Pair(cells, op, Hit(5, 3), Hit(HEAD, 1),
                      {Hold(0, 5, true), Hold(0, 3, true)} + {Hold(1, HEAD, true), Hold(1, 1, true)}), true);
  }

  /**
    A run of the code in which the walk for the successor of "d" reads "f" after another thread removed and destroyed
    it.
   */
  lemma WalkReadsFreed() returns (c: Machine, tree: Tree<nat>, c': Machine)
    ensures Begins(c, tree) && Reaches(c, c', false)
    ensures 1 in c'.workers && c'.workers[1].spot.Walk? && !(Accessed(c', 1) <= c'.cells.Keys)
  {
    tree := Deep();
    DeepFacts();
    var cells := Cells(HEAD, tree);
    c := Pair(cells, Op.Remove("f"), Start, Start, {});
    var c1 := Pair(cells, Op.Remove("f"), Hit(5, 3), Hit(HEAD, 1),
                   {Hold(0, 5, true), Hold(0, 3, true)} + {Hold(1, HEAD, true), Hold(1, 1, true)});
    TwoRemovers(cells);
    c' := CutUnderWalk(c1);
    ReachesUnguarded(c, c1);
    ReachesTrans(c, c1, c', false);
  }

  lemma CutUnderWalk(c: Machine) returns (c': Machine)
    requires DeepCells(c.cells) && 0 in c.workers && c.workers[0] == Worker(Op.Remove("f"), Plain(Hit(5, 3)))
    requires 1 in c.workers && c.workers[1] == Worker(Op.Remove("d"), Plain(Hit(HEAD, 1)))
    ensures Reaches(c, c', false) && 1 in c'.workers && c'.workers[1].spot.Walk? && !(Accessed(c', 1) <= c'.cells.Keys)
  {
    var sp: seq<nat> := [5, 3, 4];
    assert LinkedAt(c.cells, sp, 0) && LinkedAt(c.cells, sp, 1) && LinkedAt(c.cells, sp, 2);
    c' := SpineCutBreaks(c, 1, HEAD, 1, sp, 1, 0);
  }
}
