/**
  Which records a print locks.  Whatever the other threads do meanwhile, a print
  locks every record that stays in the tree from its first step to its last, once;
  and if nobody else moves, it locks the head and then the records in preorder.
 */
module DbPrint {
  import opened Options
  import opened DbTree
  import opened DbConcurrent
  import opened DbSafety
  import opened DbHistory
  import opened DbBounds
  import opened DbMachine
  import opened DbRefines
  import opened DbMachineRuns

  // ---------------------------------------------------------------- the locks of a run

  /** The record whose lock the next step of `t` takes. */
  function NextLock(c: Machine, t: nat): seq<nat>
    requires t in c.workers
  {
    match c.workers[t].spot
    case Walk(_, _, _, _, _) => []
    case Plain(at) =>
      match at
      case Start => [HEAD]
      case Want(_, x) => [x]
      case Printing(_, pending) => if pending.Some? then [pending.value] else []
      case _ => []
  }

  /** That is what the step adds to the locks held. */
  lemma NextLockExact(c: Machine, t: nat, n: nat)
    requires t in c.workers
    ensures forall h :: h in Step(c, t, n).locks && h !in c.locks ==> h.t == t && NextLock(c, t) == [h.id]
    ensures forall y :: NextLock(c, t) == [y] ==> Hold(t, y, Writes(c.workers[t].op, y)) in Step(c, t, n).locks
  {
  }

  /** The records `t` locks in a run, in order. */
  function LocksOf(c: Machine, moves: seq<Move>, t: nat): seq<nat>
    decreases |moves|
  {
    if moves == [] || moves[0].t !in c.workers then []
    else (if moves[0].t == t then NextLock(c, t) else []) + LocksOf(Step(c, moves[0].t, moves[0].n), moves[1..], t)
  }

  /** The record exists and nobody has cut it out. */
  ghost predicate InTree(c: Machine, y: nat) {
    y in c.cells && forall u :: u in c.workers ==> Loose(Shown(c.workers[u].spot)) != Some(y)
  }

  ghost predicate StaysInTree(c: Machine, moves: seq<Move>, y: nat)
    requires MovesOk(c, moves, true)
    decreases |moves|
  {
    InTree(c, y) && (moves != [] ==> StaysInTree(Step(c, moves[0].t, moves[0].n), moves[1..], y))
  }

  lemma InTreeIds(c: Machine, s: State, y: nat)
    requires Good(s) && Refines(c, s)
    ensures InTree(c, y) <==> y in Ids(s.tree) || y == HEAD
  {
    forall u | u in c.workers
      ensures y in Ids(s.tree) || y == HEAD ==> Loose(Shown(c.workers[u].spot)) != Some(y)
      ensures IsLoose(s.threads, u, y) <==> Loose(Shown(c.workers[u].spot)) == Some(y)
    {
      SameThread(c, s, u);
      assert ThreadOk(s.tree, s.threads[u]);
    }
  }

  // ---------------------------------------------------------------- nothing to visit gets lost

  lemma {:induction false} InsertKeepsKids(t: Tree<nat>, k: string, n: nat, v: string, id: nat, w: Visit)
    requires n !in Ids(t) && DistinctIds(t) && id != n
    ensures Kids(t, id, w) <= Kids(Insert(t, k, Record(n, k, v)), id, w)
  {
    if t.Fork? {
      InsertIds(if Less(k, t.key) then t.l else t.r, k, n, k, v);
      InsertKeepsKids(if Less(k, t.key) then t.l else t.r, k, n, v, id, w);
    }
  }

  lemma {:induction false} RemoveMinKeepsKids(t: Tree<nat>, id: nat, w: Visit)
    requires DistinctIds(t) && t.Fork? && id != Min(t).id
    ensures Ids(t) == Ids(RemoveMin(t)) + {Min(t).id}
    ensures Kids(t, id, w) <= Kids(RemoveMin(t), id, w) + {Min(t).id}
  {
    if t.l.Fork? {
      if id == t.id { KidsOutside(t.l, id, w); }
      MinInside(t.l);
      RemoveMinKeepsIds(t.l);
      RemoveMinKeepsKids(t.l, id, w);
    }
  }

  lemma {:induction false} MinInside(t: Tree<nat>)
    requires t.Fork?
    ensures Min(t).id in Ids(t)
  {
    if t.l.Fork? { MinInside(t.l); }
  }

  lemma {:induction false} RemoveMinKeepsIds(t: Tree<nat>)
    requires t.Fork?
    ensures Ids(t) == Ids(RemoveMin(t)) + {Min(t).id}
  {
    if t.l.Fork? { RemoveMinKeepsIds(t.l); }
  }

  lemma {:induction false} RemoveKeepsKids(t: Tree<nat>, k: string, id: nat, w: Visit)
    requires DistinctIds(t) && Lookup(t, k).Some? && id != Freed(SubtreeAt(t, k))
    ensures Kids(t, id, w) <= Kids(DbTree.Remove(t, k), id, w) + {Freed(SubtreeAt(t, k))}
    decreases t
  {
    if k == t.key {
      if t.l.Fork? && t.r.Fork? {
        RemoveMinKeepsKids(t.r, id, w);
      }
    } else {
      RemoveIds(Side(t, k), k);
      RemoveKeepsKids(Side(t, k), k, id, w);
    }
  }

  lemma InsertKeepsAll(tree: Tree<nat>, k: string, n: nat, v: string)
    requires TreeOk(tree) && n !in Ids(tree)
    ensures GrowsBy(Insert(tree, k, Record(n, k, v)), tree, {n})
  {
    InsertIds(tree, k, n, k, v);
    forall id, w {:trigger Kids(tree, id, w)} | id !in {n}
      ensures Kids(tree, id, w) <= Kids(Insert(tree, k, Record(n, k, v)), id, w) + {n}
    {
      InsertKeepsKids(tree, k, n, v, id, w);
    }
  }

  lemma RemoveKeepsAll(tree: Tree<nat>, k: string)
    requires TreeOk(tree) && Lookup(tree, k).Some?
    ensures GrowsBy(DbTree.Remove(tree, k), tree, {Freed(SubtreeAt(tree, k))})
  {
    RemoveTreeOk(tree, k);
    forall id, w {:trigger Kids(tree, id, w)} | id !in {Freed(SubtreeAt(tree, k))}
      ensures Kids(tree, id, w) <= Kids(DbTree.Remove(tree, k), id, w) + {Freed(SubtreeAt(tree, k))}
    {
      RemoveKeepsKids(tree, k, id, w);
    }
  }

  /** Records that stay are still to be visited exactly if they were, whoever links in or cuts out others. */
  lemma SameToVisit(tree: Tree<nat>, tree': Tree<nat>, more: set<nat>, gone: set<nat>, stack: seq<Frame>, y: nat)
    requires GrowsBy(tree, tree', more) && GrowsBy(tree', tree, gone) && StackIds(stack) !! more + gone
    requires y !in more && y !in gone
    ensures y in ToVisit(tree', stack) <==> y in ToVisit(tree, stack)
  {
    ToVisitGrows(tree, tree', more, stack);
    ToVisitGrows(tree', tree, gone, stack);
  }

  // ---------------------------------------------------------------- once each

  /** The next place of a print on this tree. */
  function NextPrint(tree: Tree<nat>, at: Place): Place {
    if at.Start? then Printing([Frame(HEAD, Left)], None)
    else if !at.Printing? then at
    else if at.pending.Some? then Printing(at.stack + [Frame(at.pending.value, Left)], None)
    else if at.stack == [] then Printed
    else
      var top := at.stack[|at.stack| - 1];
      if top.visit.Up? then Printing(Advance(at.stack[..|at.stack| - 1]), None)
      else
        var child := Branch(CellOf(tree, top.id), top.visit);
        if child.Some? then Printing(at.stack, child) else Printing(Advance(at.stack), None)
  }

  function LockNow(at: Place): seq<nat> {
    if at.Start? then [HEAD] else if at.Printing? && at.pending.Some? then [at.pending.value] else []
  }

  /** Whether a print at this place has still to lock record `y`. */
  function LocksLater(tree: Tree<nat>, at: Place, y: nat): nat {
    match at
    case Start => 1
    case Printing(stack, _) => if y in ToVisit(tree, stack) then 1 else 0
    case _ => 0
  }

  function ToLock(s: State, t: nat, y: nat): nat
    requires t in s.threads
  {
    LocksLater(s.tree, s.threads[t].at, y)
  }

  lemma AdvanceSame(tree: Tree<nat>, stack: seq<Frame>)
    requires stack != [] && KidsOf(tree, stack[|stack| - 1].id, stack[|stack| - 1].visit) == {}
    ensures ToVisit(tree, Advance(stack)) == ToVisit(tree, stack)
  {
    var stack' := Advance(stack);
    assert stack'[..|stack'| - 1] == stack[..|stack| - 1];
    KidsUp(tree, stack[|stack| - 1].id);
  }

  lemma PopSame(tree: Tree<nat>, stack: seq<Frame>)
    requires Chain(tree, stack) && stack != [] && stack[|stack| - 1].visit.Up?
    ensures ToVisit(tree, Advance(stack[..|stack| - 1])) == ToVisit(tree, stack)
  {
    var top, init := stack[|stack| - 1], stack[..|stack| - 1];
    KidsUp(tree, top.id);
    if init != [] {
      var i := |stack| - 1;
      var init', above := Advance(init), init[i - 1];
      assert above == stack[i - 1] && LinkedFrames(tree, stack, i);
      assert init'[..|init'| - 1] == init[..|init| - 1] && (above.visit.Left? || above.visit.Right?);
      KidsUp(tree, above.id);
      assert RightsToCome(tree, stack) == RightsToCome(tree, init);
      assert RightsToCome(tree, init') == RightsToCome(tree, init[..|init| - 1]);
    }
  }

  /** What a print locks is what it has no longer to lock. */
  lemma LocksOne(tree: Tree<nat>, at: Place, y: nat)
    requires TreeOk(tree) && at.Printing? && PrintOk(tree, at.stack, at.pending)
    ensures LocksLater(tree, NextPrint(tree, at), y) + multiset(LockNow(at))[y] == LocksLater(tree, at, y)
  {
    if at.pending.Some? {
      PushToVisit(tree, at.stack, at.pending.value);
    } else {
      SilentSame(tree, at.stack);
    }
  }

  /** A step of the print itself goes to the next place. */
  lemma PrintTakes(s: State, t: nat, n: nat, y: nat)
    requires Good(s) && Enabled(s, t, n) && s.threads[t].at.Printing?
    ensures t in Act(s, t, n).threads
    ensures ToLock(Act(s, t, n), t, y) + multiset(LockNow(s.threads[t].at))[y] == ToLock(s, t, y)
  {
    assert ThreadOk(s.tree, s.threads[t]);
    ActIsNext(s, t, n);
    LocksOne(s.tree, s.threads[t].at, y);
  }

  lemma ActIsNext(s: State, t: nat, n: nat)
    requires t in s.threads && s.threads[t].at.Printing?
    ensures t in Act(s, t, n).threads && Act(s, t, n).tree == s.tree
    ensures Act(s, t, n).threads[t].at == NextPrint(s.tree, s.threads[t].at)
  {
  }

  /** A step of a print that locks nothing: up, on to the other side, or about to lock a child. */
  lemma SilentSame(tree: Tree<nat>, stack: seq<Frame>)
    requires TreeOk(tree) && Chain(tree, stack)
    ensures stack != [] && stack[|stack| - 1].visit.Up? ==>
      ToVisit(tree, Advance(stack[..|stack| - 1])) == ToVisit(tree, stack)
    ensures stack != [] && Branch(CellOf(tree, stack[|stack| - 1].id), stack[|stack| - 1].visit).None? ==>
      ToVisit(tree, Advance(stack)) == ToVisit(tree, stack)
    ensures stack == [] ==> ToVisit(tree, stack) == {}
  {
    if stack != [] {
      var top := stack[|stack| - 1];
      if top.visit.Up? { PopSame(tree, stack); }
      if Branch(CellOf(tree, top.id), top.visit).None? { NothingThere(tree, stack); }
    }
  }

  lemma NothingThere(tree: Tree<nat>, stack: seq<Frame>)
    requires TreeOk(tree) && Chain(tree, stack) && stack != []
    requires Branch(CellOf(tree, stack[|stack| - 1].id), stack[|stack| - 1].visit).None?
    ensures ToVisit(tree, Advance(stack)) == ToVisit(tree, stack)
  {
    ChainLevel(tree, stack, |stack| - 1);
    BranchKids(tree, stack[|stack| - 1].id, stack[|stack| - 1].visit);
    AdvanceSame(tree, stack);
  }

  lemma FirstToVisit(tree: Tree<nat>)
    ensures ToVisit(tree, [Frame(HEAD, Left)]) == Ids(tree)
  {
    var stack := [Frame(HEAD, Left)];
    assert stack[..|stack| - 1] == [] && RightsToCome(tree, []) == {};
    assert RightsToCome(tree, stack) == KidsOf(tree, HEAD, Right);
  }

  /** A step of another thread neither locks for the print nor changes what it has to lock. */
  lemma OthersTakeNothing(s: State, u: nat, n: nat, t: nat, y: nat)
    requires Good(s) && Enabled(s, u, n) && t in s.threads && t != u && s.threads[t].op.Print?
    requires (y in Ids(s.tree) && y in Ids(Act(s, u, n).tree)) || y == HEAD
    ensures t in Act(s, u, n).threads && Act(s, u, n).threads[t] == s.threads[t]
    ensures ToLock(Act(s, u, n), t, y) == ToLock(s, t, y)
  {
    var at := s.threads[u].at;
    if at.Miss? && s.threads[u].op.Add? {
      LinkedElsewhere(s, u, n, t, y);
    } else if at.Hit? && s.threads[u].op.Remove? {
      CutElsewhere(s, u, n, t, y);
    } else {
      QuietSteps(s, u, n, t);
    }
  }

  lemma LinkedElsewhere(s: State, u: nat, n: nat, t: nat, y: nat)
    requires Good(s) && Enabled(s, u, n) && t in s.threads && t != u
    requires s.threads[u].at.Miss? && s.threads[u].op.Add? && (y in Ids(s.tree) || y == HEAD)
    ensures t in Act(s, u, n).threads && Act(s, u, n).threads[t] == s.threads[t]
    ensures ToLock(Act(s, u, n), t, y) == ToLock(s, t, y)
  {
    var op := s.threads[u].op;
    NotFresh(s, t, n);
    InsertGrows(s.tree, op.key, n, op.value);
    InsertKeepsAll(s.tree, op.key, n, op.value);
    if s.threads[t].at.Printing? {
      SameToVisit(s.tree, Act(s, u, n).tree, {n}, {n}, s.threads[t].at.stack, y);
    }
  }

  lemma CutElsewhere(s: State, u: nat, n: nat, t: nat, y: nat)
    requires Good(s) && Enabled(s, u, n) && t in s.threads && t != u
    requires s.threads[u].at.Hit? && s.threads[u].op.Remove? && (y in Ids(Act(s, u, n).tree) || y == HEAD)
    ensures t in Act(s, u, n).threads && Act(s, u, n).threads[t] == s.threads[t]
    ensures ToLock(Act(s, u, n), t, y) == ToLock(s, t, y)
  {
    var k := s.threads[u].op.key;
    CutTree(s, u, n);
    if s.threads[t].at.Printing? {
      StepKeeps(s, u, n);
      assert ThreadOk(Act(s, u, n).tree, Act(s, u, n).threads[t]);
      CutSame(s.tree, k, s.threads[t], y);
    }
  }

  lemma CutTree(s: State, u: nat, n: nat)
    requires Good(s) && u in s.threads && s.threads[u].at.Hit? && s.threads[u].op.Remove?
    ensures var k := s.threads[u].op.key; Lookup(s.tree, k).Some? && Act(s, u, n).tree == DbTree.Remove(s.tree, k)
  {
    assert ThreadOk(s.tree, s.threads[u]);
    HitFacts(s.tree, s.threads[u].op.key, s.threads[u].at.p, s.threads[u].at.n);
  }

  lemma CutSame(tree: Tree<nat>, k: string, th: Thread, y: nat)
    requires TreeOk(tree) && Lookup(tree, k).Some? && th.at.Printing? && ThreadOk(DbTree.Remove(tree, k), th)
    requires y in Ids(DbTree.Remove(tree, k)) || y == HEAD
    ensures y in ToVisit(DbTree.Remove(tree, k), th.at.stack) <==> y in ToVisit(tree, th.at.stack)
  {
    var tree', dead := DbTree.Remove(tree, k), Freed(SubtreeAt(tree, k));
    RemoveTreeOk(tree, k);
    RemoveGrows(tree, k);
    RemoveKeepsAll(tree, k);
    OffStack(tree', th, dead);
    SameToVisit(tree, tree', {}, {dead}, th.at.stack, y);
  }

  /** What is not in the tree is not on the stack of a print. */
  lemma OffStack(tree: Tree<nat>, th: Thread, x: nat)
    requires TreeOk(tree) && ThreadOk(tree, th) && th.at.Printing? && x !in Ids(tree) && x != HEAD
    ensures x !in StackIds(th.at.stack)
  {
    if x in StackIds(th.at.stack) {
      Referenced(tree, th, x);
    }
  }

  // ---------------------------------------------------------------- over a run

  /** A print has no walk, and every step of it is a step of the specification. */
  lemma PrintIsPlain(c: Machine, s: State, t: nat)
    requires Good(s) && Refines(c, s) && t in c.workers && c.workers[t].op.Print?
    ensures t in s.threads && s.threads[t].op.Print? && c.workers[t].spot == Plain(s.threads[t].at)
    ensures Visible(c, t) && (s.threads[t].at.Start? || s.threads[t].at.Printing? || s.threads[t].at.Printed?)
  {
    SameThread(c, s, t);
    assert ThreadOk(s.tree, s.threads[t]);
  }

  lemma OwnTakes(c: Machine, s: State, t: nat, n: nat, y: nat)
    requires Good(s) && Refines(c, s) && CanStep(c, t, n, true) && c.workers[t].op.Print?
    requires y in Ids(s.tree) || y == HEAD
    ensures t in s.threads && t in Act(s, t, n).threads
    ensures ToLock(Act(s, t, n), t, y) + multiset(NextLock(c, t))[y] == ToLock(s, t, y)
  {
    PrintIsPlain(c, s, t);
    StepRefines(c, s, t, n);
    if s.threads[t].at.Start? {
      FirstToVisit(s.tree);
    } else {
      PrintTakes(s, t, n, y);
    }
  }

  lemma MoveTakes(c: Machine, s: State, u: nat, n: nat, s': State, t: nat, y: nat)
    requires Good(s) && Refines(c, s) && CanStep(c, u, n, true) && t in c.workers && c.workers[t].op.Print?
    requires u in s.threads && s' == (if Visible(c, u) then Act(s, u, n) else s)
    requires Good(s') && Refines(Step(c, u, n), s')
    requires InTree(c, y) && InTree(Step(c, u, n), y)
    ensures t in s.threads && t in s'.threads
    ensures ToLock(s', t, y) + multiset(if u == t then NextLock(c, t) else [])[y] == ToLock(s, t, y)
  {
    InTreeIds(c, s, y);
    InTreeIds(Step(c, u, n), s', y);
    PrintIsPlain(c, s, t);
    if u == t {
      OwnTakes(c, s, t, n, y);
    } else if Visible(c, u) {
      StepRefines(c, s, u, n);
      OthersTakeNothing(s, u, n, t, y);
    }
  }

  lemma {:induction false} RunTakes(m: map<string, string>, c: Machine, s: State, moves: seq<Move>, t: nat, y: nat)
    returns (s': State)
    requires Good(s) && Explained(m, s) && Refines(c, s) && MovesOk(c, moves, true) && StaysInTree(c, moves, y)
    requires t in c.workers && c.workers[t].op.Print?
    ensures Good(s') && Refines(RunOf(c, moves, true), s') && t in s.threads && t in s'.threads
    ensures t in RunOf(c, moves, true).workers
    ensures ToLock(s', t, y) + multiset(LocksOf(c, moves, t))[y] == ToLock(s, t, y)
    decreases |moves|
  {
    if moves == [] {
      s' := s;
      SameThread(c, s, t);
    } else {
      var s1 := OneMove(m, c, s, moves[0].t, moves[0].n, t, y);
      s' := RunTakes(m, Step(c, moves[0].t, moves[0].n), s1, moves[1..], t, y);
      LocksCount(c, moves, t, y);
    }
  }

  lemma OneMove(m: map<string, string>, c: Machine, s: State, u: nat, n: nat, t: nat, y: nat) returns (s': State)
    requires Good(s) && Explained(m, s) && Refines(c, s) && CanStep(c, u, n, true) && t in c.workers
    requires c.workers[t].op.Print? && InTree(c, y) && InTree(Step(c, u, n), y)
    ensures Good(s') && Explained(m, s') && Refines(Step(c, u, n), s') && t in s.threads && t in s'.threads
    ensures ToLock(s', t, y) + multiset(if u == t then NextLock(c, t) else [])[y] == ToLock(s, t, y)
    ensures t in Step(c, u, n).workers && Step(c, u, n).workers[t].op == c.workers[t].op
  {
    s' := StepGood(m, c, s, u, n);
    MoveTakes(c, s, u, n, s', t, y);
    StepShape(c, u, n);
  }

  lemma LocksCount(c: Machine, moves: seq<Move>, t: nat, y: nat)
    requires moves != [] && moves[0].t in c.workers && t in c.workers
    ensures var u, n := moves[0].t, moves[0].n;
      multiset(LocksOf(c, moves, t))[y]
      == multiset(if u == t then NextLock(c, t) else [])[y] + multiset(LocksOf(Step(c, u, n), moves[1..], t))[y]
  {
  }

  /**
    A print that has ended has locked every record that was in the tree from its first step on, the head included, and
    each of them once, whatever the others added and removed meanwhile.
   */
  lemma PrintLocksAll(c: Machine, tree: Tree<nat>, before: seq<Move>, during: seq<Move>, t: nat, y: nat)
    requires Begins(c, tree) && MovesOk(c, before, true) && MovesOk(RunOf(c, before, true), during, true)
    requires var c1 := RunOf(c, before, true);
      && t in c1.workers && c1.workers[t].op.Print? && c1.workers[t].spot == Plain(Start)
      && StaysInTree(c1, during, y)
      && var c2 := RunOf(c1, during, true); t in c2.workers && c2.workers[t].spot == Plain(Printed)
    ensures multiset(LocksOf(RunOf(c, before, true), during, t))[y] == 1
  {
    var c1 := RunOf(c, before, true);
    BeginsRefined(c, tree);
    var s1 := RunRefines(Contents(tree), c, Abstract(c, tree), before);
    var s2 := RunTakes(Contents(tree), c1, s1, during, t, y);
    SameThread(c1, s1, t);
    SameThread(RunOf(c1, during, true), s2, t);
  }

  // ---------------------------------------------------------------- alone

  function Preorder(t: Tree<nat>): seq<nat> {
    if t.Leaf? then [] else [t.id] + Preorder(t.l) + Preorder(t.r)
  }

  /** The records below `id` on one side, in preorder. */
  function PreKids(t: Tree<nat>, id: nat, v: Visit): seq<nat> {
    if t.Leaf? then []
    else if t.id == id then (match v case Left => Preorder(t.l) case Right => Preorder(t.r) case Up => [])
    else PreKids(t.l, id, v) + PreKids(t.r, id, v)
  }

  function PreOf(tree: Tree<nat>, id: nat, v: Visit): seq<nat> {
    if id == HEAD then (if v.Right? then Preorder(tree) else []) else PreKids(tree, id, v)
  }

  lemma {:induction false} PreOutside(t: Tree<nat>, id: nat, v: Visit)
    requires id !in Ids(t)
    ensures PreKids(t, id, v) == []
  {
    if t.Fork? {
      PreOutside(t.l, id, v);
      PreOutside(t.r, id, v);
    }
  }

  lemma {:induction false} PreUp(t: Tree<nat>, id: nat)
    ensures PreKids(t, id, Up) == []
  {
    if t.Fork? {
      PreUp(t.l, id);
      PreUp(t.r, id);
    }
  }

  lemma RootPre(s: Tree<nat>)
    requires s.Fork? && DistinctIds(s)
    ensures Preorder(s) == [s.id] + PreKids(s, s.id, Left) + PreKids(s, s.id, Right)
  {
  }

  lemma {:induction false} PreOfChild(t: Tree<nat>, id: nat, v: Visit)
    requires DistinctIds(t) && id in Ids(t)
    ensures var c := Branch(Shape(t)[id], v);
      && (c.None? ==> PreKids(t, id, v) == [])
      && (c.Some? ==> c.value in Ids(t))
      && (c.Some? ==> PreKids(t, id, v) == [c.value] + PreKids(t, c.value, Left) + PreKids(t, c.value, Right))
  {
    var c := Branch(Shape(t)[id], v);
    if id == t.id {
      if c.Some? { ChildPre(t, v, c.value); }
    } else {
      var s := if id in Ids(t.l) then t.l else t.r;
      PreOfChild(s, id, v);
      assert Shape(t)[id] == Shape(s)[id];
      PreInSide(t, s, id, v);
      if c.Some? {
        PreInSide(t, s, c.value, Left);
        PreInSide(t, s, c.value, Right);
      }
    }
  }

  lemma PreInSide(t: Tree<nat>, s: Tree<nat>, id: nat, v: Visit)
    requires DistinctIds(t) && t.Fork? && (s == t.l || s == t.r) && id in Ids(s)
    ensures PreKids(t, id, v) == PreKids(s, id, v)
  {
    if id in Ids(t.l) { PreOutside(t.r, id, v); } else { PreOutside(t.l, id, v); }
  }

  lemma ChildPre(t: Tree<nat>, v: Visit, c: nat)
    requires DistinctIds(t) && t.Fork? && (v.Left? || v.Right?)
    requires var s := if v.Left? then t.l else t.r; s.Fork? && s.id == c
    ensures PreKids(t, t.id, v) == [c] + PreKids(t, c, Left) + PreKids(t, c, Right)
  {
    var s := if v.Left? then t.l else t.r;
    RootPre(s);
    PreInSide(t, s, c, Left);
    PreInSide(t, s, c, Right);
  }

  lemma BranchPre(tree: Tree<nat>, id: nat, v: Visit)
    requires TreeOk(tree) && (id in Ids(tree) || id == HEAD)
    ensures var c := Branch(CellOf(tree, id), v);
      && (c.None? ==> PreOf(tree, id, v) == [])
      && (c.Some? ==> PreOf(tree, id, v) == [c.value] + PreOf(tree, c.value, Left) + PreOf(tree, c.value, Right))
  {
    if id != HEAD {
      PreOfChild(tree, id, v);
    } else if tree.Fork? {
      RootPre(tree);
    }
  }

  /** What a record on the stack has still to come on its right. */
  function RightOf(tree: Tree<nat>, f: Frame): seq<nat> {
    if f.visit.Left? then PreOf(tree, f.id, Right) else []
  }

  /** What the first n records of the stack have still to come on their right, innermost first. */
  function RestAbove(tree: Tree<nat>, stack: seq<Frame>, n: nat): seq<nat>
    requires n <= |stack|
  {
    if n == 0 then [] else RightOf(tree, stack[n - 1]) + RestAbove(tree, stack, n - 1)
  }

  /** The records a print has still to lock, in the order in which it will. */
  function Rest(tree: Tree<nat>, stack: seq<Frame>): seq<nat> {
    if stack == [] then []
    else PreOf(tree, stack[|stack| - 1].id, stack[|stack| - 1].visit) + RestAbove(tree, stack, |stack|)
  }

  lemma {:induction false} SameAbove(tree: Tree<nat>, a: seq<Frame>, b: seq<Frame>, n: nat)
    requires n <= |a| && n <= |b| && forall i :: 0 <= i < n ==> a[i] == b[i]
    ensures RestAbove(tree, a, n) == RestAbove(tree, b, n)
  {
    if n > 0 { SameAbove(tree, a, b, n - 1); }
  }

  /** The rest, by the last frame `f` and what is above the others, `r`. */
  lemma RestBy(tree: Tree<nat>, stack: seq<Frame>, f: Frame, other: seq<Frame>)
    requires stack != [] && stack[|stack| - 1] == f && |stack| - 1 <= |other|
    requires forall i :: 0 <= i < |stack| - 1 ==> stack[i] == other[i]
    ensures Rest(tree, stack)
         == PreOf(tree, f.id, f.visit) + (RightOf(tree, f) + RestAbove(tree, other, |stack| - 1))
  {
    SameAbove(tree, stack, other, |stack| - 1);
  }

  lemma PushRest(tree: Tree<nat>, stack: seq<Frame>, c: nat)
    requires stack != []
    requires var top := stack[|stack| - 1];
      PreOf(tree, top.id, top.visit) == [c] + PreOf(tree, c, Left) + PreOf(tree, c, Right)
    ensures Rest(tree, stack) == [c] + Rest(tree, stack + [Frame(c, Left)])
  {
    RestBy(tree, stack + [Frame(c, Left)], Frame(c, Left), stack);
    Regroup([c], PreOf(tree, c, Left), PreOf(tree, c, Right), RestAbove(tree, stack, |stack|));
  }

  lemma Regroup(a: seq<nat>, b: seq<nat>, c: seq<nat>, d: seq<nat>)
    ensures a + b + c + d == a + (b + (c + d))
  {
  }

  /** On from one side to the next: what comes next on the right is what is being printed then. */
  lemma NextSide(tree: Tree<nat>, f: Frame)
    ensures var f' := Frame(f.id, if f.visit.Left? then Right else Up);
      PreOf(tree, f'.id, f'.visit) == RightOf(tree, f) && RightOf(tree, f') == []
  {
    PreUp(tree, f.id);
  }

  lemma Shift(p: seq<nat>, r: seq<nat>, p': seq<nat>, r': seq<nat>, a: seq<nat>)
    requires p == [] && r' == [] && p' == r
    ensures p + (r + a) == p' + (r' + a)
  {
  }

  lemma AdvanceRest(tree: Tree<nat>, stack: seq<Frame>)
    requires stack != [] && var top := stack[|stack| - 1]; PreOf(tree, top.id, top.visit) == []
    ensures Rest(tree, Advance(stack)) == Rest(tree, stack)
  {
    var f := stack[|stack| - 1];
    SideRest(tree, stack, Advance(stack), f, Frame(f.id, if f.visit.Left? then Right else Up));
  }

  lemma SideRest(tree: Tree<nat>, stack: seq<Frame>, stack': seq<Frame>, f: Frame, f': Frame)
    requires |stack| == |stack'| > 0 && stack[|stack| - 1] == f && stack'[|stack| - 1] == f'
    requires forall i :: 0 <= i < |stack| - 1 ==> stack'[i] == stack[i]
    requires PreOf(tree, f.id, f.visit) == [] && f' == Frame(f.id, if f.visit.Left? then Right else Up)
    ensures Rest(tree, stack') == Rest(tree, stack)
  {
    RestBy(tree, stack, f, stack);
    RestBy(tree, stack', f', stack);
    NextSide(tree, f);
    Shift(PreOf(tree, f.id, f.visit), RightOf(tree, f), PreOf(tree, f'.id, f'.visit), RightOf(tree, f'),
          RestAbove(tree, stack, |stack| - 1));
  }

  lemma PopRest(tree: Tree<nat>, stack: seq<Frame>)
    requires |stack| > 1 && stack[|stack| - 1].visit.Up?
    ensures Rest(tree, Advance(stack[..|stack| - 1])) == Rest(tree, stack)
  {
    var n := |stack| - 1;
    var top, f := stack[n], stack[n - 1];
    var f' := Frame(f.id, if f.visit.Left? then Right else Up);
    RestBy(tree, stack, top, stack);
    RestBy(tree, Advance(stack[..n]), f', stack);
    NextSide(tree, f);
    PreUp(tree, top.id);
    ShiftUp(PreOf(tree, top.id, top.visit), RightOf(tree, top), RestAbove(tree, stack, n),
            RightOf(tree, f), RestAbove(tree, stack, n - 1), PreOf(tree, f'.id, f'.visit), RightOf(tree, f'));
  }

  lemma ShiftUp(p: seq<nat>, r: seq<nat>, b: seq<nat>, x: seq<nat>, a: seq<nat>, p': seq<nat>, r': seq<nat>)
    requires p == [] && r == [] && b == x + a && p' == x && r' == []
    ensures p + (r + b) == p' + (r' + a)
  {
  }

  /** What a print at `at` has still to lock if nobody else moves. */
  function RestOf(tree: Tree<nat>, at: Place): seq<nat> {
    match at
    case Start => [HEAD] + Preorder(tree)
    case Printing(stack, _) => Rest(tree, stack)
    case _ => []
  }

  lemma FirstRest(tree: Tree<nat>)
    ensures Rest(tree, [Frame(HEAD, Left)]) == Preorder(tree)
  {
    var stack := [Frame(HEAD, Left)];
    RestBy(tree, stack, stack[0], stack);
  }

  /** A place of a print that agrees with the tree. */
  ghost predicate PrintPlace(tree: Tree<nat>, at: Place) {
    match at
    case Start => true
    case Printing(stack, pending) => PrintOk(tree, stack, pending)
    case Printed => true
    case _ => false
  }

  /** Where a print goes on from `at`, and what it locks. */
  ghost predicate GoesOn(tree: Tree<nat>, at: Place, now: seq<nat>, at': Place) {
    PrintPlace(tree, at') && RestOf(tree, at) == now + RestOf(tree, at')
  }

  lemma PushGoesOn(tree: Tree<nat>, stack: seq<Frame>, c: nat)
    requires TreeOk(tree) && PrintOk(tree, stack, Some(c))
    ensures GoesOn(tree, Printing(stack, Some(c)), [c], Printing(stack + [Frame(c, Left)], None))
  {
    ChainPush(tree, stack, Frame(c, Left));
    BelowTop(tree, stack);
    PushRest(tree, stack, c);
  }

  lemma BelowTop(tree: Tree<nat>, stack: seq<Frame>)
    requires TreeOk(tree) && Chain(tree, stack) && stack != []
    ensures var top := stack[|stack| - 1];
      var c := Branch(CellOf(tree, top.id), top.visit);
      && (c.None? ==> PreOf(tree, top.id, top.visit) == [])
      && (c.Some? ==> PreOf(tree, top.id, top.visit)
                      == [c.value] + PreOf(tree, c.value, Left) + PreOf(tree, c.value, Right))
  {
    ChainLevel(tree, stack, |stack| - 1);
    BranchPre(tree, stack[|stack| - 1].id, stack[|stack| - 1].visit);
  }

  lemma PopGoesOn(tree: Tree<nat>, stack: seq<Frame>)
    requires TreeOk(tree) && Chain(tree, stack) && stack != [] && stack[|stack| - 1].visit.Up?
    ensures GoesOn(tree, Printing(stack, None), [], Printing(Advance(stack[..|stack| - 1]), None))
  {
    ChainPop(tree, stack);
    ChainAdvance(tree, stack[..|stack| - 1]);
    PoppedRest(tree, stack);
    NothingTaken(tree, stack, Advance(stack[..|stack| - 1]));
  }

  lemma PoppedRest(tree: Tree<nat>, stack: seq<Frame>)
    requires Chain(tree, stack) && stack != [] && stack[|stack| - 1].visit.Up?
    ensures Rest(tree, Advance(stack[..|stack| - 1])) == Rest(tree, stack)
  {
    var n := |stack| - 1;
    if n > 0 {
      PopRest(tree, stack);
    } else {
      RestBy(tree, stack, stack[0], stack);
      PreUp(tree, stack[0].id);
    }
  }

  lemma NothingTaken(tree: Tree<nat>, stack: seq<Frame>, stack': seq<Frame>)
    requires Chain(tree, stack') && Rest(tree, stack') == Rest(tree, stack)
    ensures GoesOn(tree, Printing(stack, None), [], Printing(stack', None))
  {
  }

  lemma AdvanceGoesOn(tree: Tree<nat>, stack: seq<Frame>)
    requires TreeOk(tree) && Chain(tree, stack) && stack != []
    requires Branch(CellOf(tree, stack[|stack| - 1].id), stack[|stack| - 1].visit).None?
    ensures GoesOn(tree, Printing(stack, None), [], Printing(Advance(stack), None))
  {
    ChainAdvance(tree, stack);
    BelowTop(tree, stack);
    AdvanceRest(tree, stack);
    NothingTaken(tree, stack, Advance(stack));
  }

  lemma StartGoesOn(tree: Tree<nat>)
    ensures GoesOn(tree, Start, [HEAD], Printing([Frame(HEAD, Left)], None))
  {
    FirstRest(tree);
  }

  /** Memory stores the tree and `t` prints it. */
  ghost predicate Prints(c: Machine, tree: Tree<nat>, t: nat) {
    && TreeOk(tree) && c.cells == Cells(HEAD, tree) && t in c.workers && c.workers[t].op.Print?
    && c.workers[t].spot.Plain? && PrintPlace(tree, c.workers[t].spot.at)
  }

  lemma PrintGoesOn(tree: Tree<nat>, at: Place)
    requires TreeOk(tree) && PrintPlace(tree, at) && !at.Printed?
    ensures GoesOn(tree, at, LockNow(at), NextPrint(tree, at))
  {
    if at.Start? {
      StartGoesOn(tree);
    } else if at.pending.Some? {
      PushGoesOn(tree, at.stack, at.pending.value);
    } else if at.stack != [] {
      var top := at.stack[|at.stack| - 1];
      if top.visit.Up? {
        PopGoesOn(tree, at.stack);
      } else if Branch(CellOf(tree, top.id), top.visit).None? {
        AdvanceGoesOn(tree, at.stack);
      }
    }
  }

  /** The machine takes a print to that place, and locks that record. */
  lemma StepIsNext(c: Machine, tree: Tree<nat>, t: nat, n: nat)
    requires Prints(c, tree, t) && CanStep(c, t, n, true)
    ensures var at := c.workers[t].spot.at;
      && !at.Printed? && NextLock(c, t) == LockNow(at) && Step(c, t, n).cells == c.cells
      && Step(c, t, n).workers == c.workers[t := Worker(c.workers[t].op, Plain(NextPrint(tree, at)))]
  {
    var at := c.workers[t].spot.at;
    if at.Printing? && at.stack != [] { ChainLevel(tree, at.stack, |at.stack| - 1); }
  }

  lemma AloneStep(c: Machine, tree: Tree<nat>, t: nat, n: nat)
    requires Prints(c, tree, t) && CanStep(c, t, n, true)
    ensures Prints(Step(c, t, n), tree, t)
    ensures GoesOn(tree, c.workers[t].spot.at, NextLock(c, t), Step(c, t, n).workers[t].spot.at)
  {
    StepIsNext(c, tree, t, n);
    PrintGoesOn(tree, c.workers[t].spot.at);
  }

  lemma {:induction false} AloneTakes(c: Machine, tree: Tree<nat>, moves: seq<Move>, t: nat)
    requires Prints(c, tree, t) && MovesOk(c, moves, true) && forall i :: 0 <= i < |moves| ==> moves[i].t == t
    ensures Prints(RunOf(c, moves, true), tree, t)
    ensures LocksOf(c, moves, t) + RestOf(tree, RunOf(c, moves, true).workers[t].spot.at)
         == RestOf(tree, c.workers[t].spot.at)
    decreases |moves|
  {
    if moves != [] {
      var c1 := Step(c, t, moves[0].n);
      AloneStep(c, tree, t, moves[0].n);
      AloneTakes(c1, tree, moves[1..], t);
      JoinRest(LocksOf(c, moves, t), NextLock(c, t), LocksOf(c1, moves[1..], t),
               RestOf(tree, c.workers[t].spot.at), RestOf(tree, c1.workers[t].spot.at),
               RestOf(tree, RunOf(c, moves, true).workers[t].spot.at));
    }
  }

  lemma JoinRest(all: seq<nat>, now: seq<nat>, later: seq<nat>, r: seq<nat>, r1: seq<nat>, r': seq<nat>)
    requires all == now + later && r == now + r1 && later + r' == r1
    ensures all + r' == r
  {
  }

  /** A print that nobody interrupts locks the head and then every record of the tree in preorder. */
  lemma PrintAlone(c: Machine, tree: Tree<nat>, moves: seq<Move>, t: nat)
    requires Begins(c, tree) && MovesOk(c, moves, true) && forall i :: 0 <= i < |moves| ==> moves[i].t == t
    requires t in c.workers && c.workers[t].op.Print?
    requires var c' := RunOf(c, moves, true); t in c'.workers && c'.workers[t].spot == Plain(Printed)
    ensures LocksOf(c, moves, t) == [HEAD] + Preorder(tree)
  {
    AloneTakes(c, tree, moves, t);
  }
}
