/**
  Whole runs of the machine on memory: operations take effect one after the other on
  one map, no step touches a freed record - the unlocked reads of the successor walk
  included - everything taken is given back, nobody is stuck, and every run ends.
 */
module DbMachineRuns {
  import opened Options
  import opened Sequences
  import opened DbTree
  import opened DbConcurrent
  import opened DbSafety
  import opened DbHistory
  import opened DbBounds
  import opened DbMachine
  import opened DbRefines

  ghost predicate MovesOk(c: Machine, moves: seq<Move>, guarded: bool)
    decreases |moves|
  {
    moves != [] ==>
      && CanStep(c, moves[0].t, moves[0].n, guarded)
      && MovesOk(Step(c, moves[0].t, moves[0].n), moves[1..], guarded)
  }

  ghost function RunOf(c: Machine, moves: seq<Move>, guarded: bool): Machine
    requires MovesOk(c, moves, guarded)
    decreases |moves|
  {
    if moves == [] then c else RunOf(Step(c, moves[0].t, moves[0].n), moves[1..], guarded)
  }

  /** Memory holds an ordered tree, and any operations are about to start. */
  ghost predicate Begins(c: Machine, tree: Tree<nat>) {
    && TreeOk(tree) && c.cells == Cells(HEAD, tree) && c.locks == {} && c.history == []
    && forall t :: t in c.workers ==> c.workers[t].spot == Plain(Start)
  }

  /** The tree's threads that the machine starts as. */
  function Abstract(c: Machine, tree: Tree<nat>): State {
    State(tree, c.locks, Threads(c.workers), c.cells.Keys, c.history)
  }

  lemma BeginsRefined(c: Machine, tree: Tree<nat>)
    requires Begins(c, tree)
    ensures var s := Abstract(c, tree); Initial(s) && Good(s) && Explained(Contents(tree), s) && Refines(c, s)
  {
    var s := Abstract(c, tree);
    assert Initial(s);
    InitialGood(s);
    forall u, y ensures u in c.workers ==> !Touches(c.workers[u].spot, y) {}
  }

  lemma StepGood(m: map<string, string>, c: Machine, s: State, t: nat, n: nat) returns (s': State)
    requires Good(s) && Explained(m, s) && Refines(c, s) && CanStep(c, t, n, true)
    ensures Good(s') && Explained(m, s') && Refines(Step(c, t, n), s') && s.history <= s'.history
    ensures s'.threads.Keys == s.threads.Keys
    ensures t in s.threads && s' == if Visible(c, t) then Act(s, t, n) else s
  {
    StepRefines(c, s, t, n);
    if Visible(c, t) {
      s' := Act(s, t, n);
      StepKeeps(s, t, n);
      StepExplained(m, s, t, n);
      ActGrows(s, t, n);
    } else {
      s' := s;
    }
  }

  /** Along every run of the machine there is a good state of the tree's threads that it refines. */
  lemma {:induction false} RunRefines(m: map<string, string>, c: Machine, s: State, moves: seq<Move>)
    returns (s': State)
    requires Good(s) && Explained(m, s) && Refines(c, s) && MovesOk(c, moves, true)
    ensures Good(s') && Explained(m, s') && Refines(RunOf(c, moves, true), s')
    ensures s.history <= s'.history && s'.threads.Keys == s.threads.Keys
    decreases |moves|
  {
    if moves == [] {
      s' := s;
    } else {
      var s1 := StepGood(m, c, s, moves[0].t, moves[0].n);
      s' := RunRefines(m, Step(c, moves[0].t, moves[0].n), s1, moves[1..]);
    }
  }

  // ---------------------------------------------------------------- linearizability

  /** Memory stores `tree`, except for the two records a walk may have written ahead. */
  ghost predicate Stores(c: Machine, tree: Tree<nat>) {
    && TreeOk(tree) && Ids(tree) + {HEAD} <= c.cells.Keys
    && (forall y {:trigger Untouched(c.workers, y)} ::
          (y in Ids(tree) || y == HEAD) && Untouched(c.workers, y) ==> Holds(c.cells, y, CellOf(tree, y)))
  }

  /** The history of `c` is an order of its operations that a map explains from `m` on, up to the tree memory stores. */
  ghost predicate Linearized(m: map<string, string>, c: Machine) {
    && Replies(m, c.history)
    && (forall i, j :: 0 <= i < j < |c.history| ==> c.history[i].t != c.history[j].t)
    && (forall t, r ::
          t in c.workers && c.workers[t].spot == Plain(Done(r)) ==> HasEvent(c.history, t, c.workers[t].op, r))
    && exists tree :: Stores(c, tree) && Contents(tree) == After(m, c.history)
  }

  lemma RefinedStores(c: Machine, s: State)
    requires Good(s) && Refines(c, s)
    ensures Stores(c, s.tree)
  {
  }

  lemma RefinedDone(c: Machine, s: State, t: nat)
    requires Good(s) && Refines(c, s) && Recorded(s.threads, s.history) && t in c.workers
    requires c.workers[t].spot.Plain? && c.workers[t].spot.at.Done?
    ensures HasEvent(c.history, t, c.workers[t].op, c.workers[t].spot.at.reply)
  {
    SameThread(c, s, t);
  }

  lemma RefinedLinearized(m: map<string, string>, c: Machine, s: State)
    requires Good(s) && Explained(m, s) && Refines(c, s)
    ensures Linearized(m, c)
  {
    forall t, r | t in c.workers && c.workers[t].spot == Plain(Done(r))
      ensures HasEvent(c.history, t, c.workers[t].op, r)
    {
      RefinedDone(c, s, t);
    }
    RefinedStores(c, s);
  }

  /** Every run on memory is linearizable. */
  lemma MachineLinearizable(c: Machine, tree: Tree<nat>, moves: seq<Move>)
    requires Begins(c, tree) && MovesOk(c, moves, true)
    ensures Linearized(Contents(tree), RunOf(c, moves, true))
  {
    BeginsRefined(c, tree);
    var s := RunRefines(Contents(tree), c, Abstract(c, tree), moves);
    RefinedLinearized(Contents(tree), RunOf(c, moves, true), s);
  }

  /** The reply of an operation is settled. */
  predicate SettledAt(c: Machine, t: nat) {
    t in c.workers && Committed(Shown(c.workers[t].spot)).Some?
  }

  /** In that order, what was settled at some moment stays before what was not. */
  lemma MachineRealTime(c: Machine, tree: Tree<nat>, before: seq<Move>, after: seq<Move>, t: nat, u: nat, i: nat,
                        j: nat)
    requires Begins(c, tree) && MovesOk(c, before, true) && MovesOk(RunOf(c, before, true), after, true)
    requires var c1 := RunOf(c, before, true); var h := RunOf(c1, after, true).history;
      SettledAt(c1, t) && u in c1.workers && !SettledAt(c1, u) && i < |h| && j < |h| && h[i].t == t && h[j].t == u
    ensures i < j
  {
    BeginsRefined(c, tree);
    var c1 := RunOf(c, before, true);
    var s1 := RunRefines(Contents(tree), c, Abstract(c, tree), before);
    var s2 := RunRefines(Contents(tree), c1, s1, after);
    SameThread(c1, s1, t);
    SameThread(c1, s1, u);
    CommitOrder(s1.threads, s1.history, s2.threads, s2.history, t, u, i, j);
  }

  // ---------------------------------------------------------------- only existing records

  lemma HeldExists(c: Machine, s: State, t: nat, y: nat)
    requires Good(s) && Refines(c, s) && t in c.workers
    requires (y in HeldIds(s.threads[t].at) || Awaited(s.threads[t].at) == Some(y))
    ensures y in c.cells
  {
    Referenced(s.tree, s.threads[t], y);
    if Loose(s.threads[t].at) == Some(y) { assert IsLoose(s.threads, t, y); }
  }

  lemma AccessExists(c: Machine, s: State, t: nat, y: nat)
    requires Good(s) && Refines(c, s) && t in c.workers && y in Accessed(c, t)
    ensures y in c.cells
  {
    SameThread(c, s, t);
    var spot := c.workers[t].spot;
    if spot.Walk? {
      WalkZone(s, t, spot);
    } else {
      if spot.at.Printing? { TopOfStack(spot.at.stack); }
      if Loose(spot.at) == Some(y) {
        assert IsLoose(s.threads, t, y);
      } else {
        HeldExists(c, s, t, y);
      }
    }
  }

  /** No step of any thread touches a freed record or its lock, not even the unlocked steps of the successor walk. */
  lemma NoUseAfterFree(c: Machine, tree: Tree<nat>, moves: seq<Move>, t: nat, y: nat)
    requires Begins(c, tree) && MovesOk(c, moves, true)
    requires var c' := RunOf(c, moves, true); t in c'.workers && y in Accessed(c', t)
    ensures y in RunOf(c, moves, true).cells
  {
    BeginsRefined(c, tree);
    var s := RunRefines(Contents(tree), c, Abstract(c, tree), moves);
    AccessExists(RunOf(c, moves, true), s, t, y);
  }

  /** Worker `u` has nothing to do with record `x`. */
  predicate Unconcerned(spot: Spot, x: nat) {
    && x !in HeldIds(Shown(spot)) && Awaited(Shown(spot)) != Some(x)
    && (spot.Walk? ==> spot.n != x && spot.h != x)
  }

  /** A record about to be destroyed is held, awaited and walked over by nobody, and no lock on it is held. */
  lemma MachineDestroysUnused(c: Machine, tree: Tree<nat>, moves: seq<Move>, t: nat, x: nat, reply: Reply, u: nat)
    requires Begins(c, tree) && MovesOk(c, moves, true)
    requires var c' := RunOf(c, moves, true);
      t in c'.workers && u in c'.workers && c'.workers[t].spot == Plain(Closing([], Some(x), reply))
    ensures var c' := RunOf(c, moves, true);
      x in c'.cells && Unconcerned(c'.workers[u].spot, x) && (forall h :: h in c'.locks ==> h.id != x)
  {
    BeginsRefined(c, tree);
    var c' := RunOf(c, moves, true);
    var s := RunRefines(Contents(tree), c, Abstract(c, tree), moves);
    LooseUnused(c', s, t, x, reply);
    assert Unconcerned(c'.workers[u].spot, x);
  }

  lemma LooseUnused(c: Machine, s: State, t: nat, x: nat, reply: Reply)
    requires Good(s) && Refines(c, s) && t in c.workers && c.workers[t].spot == Plain(Closing([], Some(x), reply))
    ensures x in c.cells && (forall h :: h in c.locks ==> h.id != x)
    ensures forall u :: u in c.workers ==> Unconcerned(c.workers[u].spot, x)
  {
    SameThread(c, s, t);
    assert IsLoose(s.threads, t, x) && ThreadOk(s.tree, s.threads[t]);
    forall u | u in c.workers
      ensures Unconcerned(c.workers[u].spot, x) && x !in HeldIds(s.threads[u].at)
    {
      SameThread(c, s, u);
      LooseOf(s, t, x, u);
      if c.workers[u].spot.Walk? { WalkZone(s, u, c.workers[u].spot); }
    }
  }

  lemma LooseOf(s: State, t: nat, x: nat, u: nat)
    requires Good(s) && IsLoose(s.threads, t, x) && s.threads[t].at.Closing? && s.threads[t].at.nodes == []
    requires u in s.threads
    ensures x !in HeldIds(s.threads[u].at) && Awaited(s.threads[u].at) != Some(x)
  {
    assert ThreadOk(s.tree, s.threads[t]) && ThreadOk(s.tree, s.threads[u]);
    if x in HeldIds(s.threads[u].at) || Awaited(s.threads[u].at) == Some(x) {
      Referenced(s.tree, s.threads[u], x);
      assert IsLoose(s.threads, u, x);
    }
  }

  predicate Ended(spot: Spot) {
    Finished(Shown(spot))
  }

  /** Finished operations hold no lock; when all are finished none is held and memory is exactly the tree's records. */
  lemma MachineGivesBack(c: Machine, tree: Tree<nat>, moves: seq<Move>)
    requires Begins(c, tree) && MovesOk(c, moves, true)
    ensures var c' := RunOf(c, moves, true);
      && (forall h :: h in c'.locks ==> h.t in c'.workers && !Ended(c'.workers[h.t].spot))
      && ((forall t :: t in c'.workers ==> Ended(c'.workers[t].spot)) ==>
            c'.locks == {} && exists tree' :: TreeOk(tree') && c'.cells == Cells(HEAD, tree'))
  {
    BeginsRefined(c, tree);
    var s := RunRefines(Contents(tree), c, Abstract(c, tree), moves);
    GivenBack(s);
    AllEnded(RunOf(c, moves, true), s);
  }

  lemma AllEnded(c: Machine, s: State)
    requires Good(s) && Refines(c, s)
    ensures (forall t :: t in c.workers ==> Ended(c.workers[t].spot)) ==>
      c.locks == {} && c.cells == Cells(HEAD, s.tree)
  {
    if forall t :: t in c.workers ==> Ended(c.workers[t].spot) {
      GivenBack(s);
      forall t | t in s.threads ensures Finished(s.threads[t].at) { SameThread(c, s, t); }
      forall y | y in c.cells
        ensures y in Cells(HEAD, s.tree) && c.cells[y] == Cells(HEAD, s.tree)[y]
      {
        assert Untouched(c.workers, y);
      }
    }
  }

  // ---------------------------------------------------------------- progress

  /** Whatever the tree's threads can do, the machine's can. */
  lemma CanMove(c: Machine, s: State, t: nat, n: nat)
    requires Good(s) && Refines(c, s) && Enabled(s, t, n)
    ensures CanStep(c, t, n, true)
  {
    SameThread(c, s, t);
    var spot := c.workers[t].spot;
    if spot.Plain? && spot.at.Hit? && c.workers[t].op.Remove? {
      OneChildInMemory(c, s, t);
      if !Visible(c, t) {
        MemorySpineUnused(c, s, t);
      }
    }
  }

  lemma MemorySpineUnused(c: Machine, s: State, t: nat)
    requires Good(s) && Refines(c, s) && t in c.workers && c.workers[t].spot.Plain? && AtSuccessorWalk(s, t)
    requires SpineFree(s, t, s.threads[t].op.key)
    ensures SpineUnused(c, t, s.threads[t].at.n)
  {
    var k, x := s.threads[t].op.key, s.threads[t].at.n;
    SpineInMemory(c, s, t);
    forall sp {:trigger IsSpine(c.cells, x, sp)} | IsSpine(c.cells, x, sp)
      ensures forall u :: u in c.workers && u != t ==> Outside(Shown(c.workers[u].spot), set y | y in sp)
    {
      SpineOnly(c.cells, x, sp, SpineKey(s.tree, k));
      forall u | u in c.workers && u != t
        ensures Outside(Shown(c.workers[u].spot), set y | y in sp)
      {
        SameThread(c, s, u);
        assert (set y | y in sp) == SpineIds(s.tree, k);
      }
    }
  }

  /** No deadlock: while an operation is unfinished some thread can take its next step. */
  lemma MachineProgress(c: Machine, tree: Tree<nat>, moves: seq<Move>)
    requires Begins(c, tree) && MovesOk(c, moves, true)
    requires exists t :: t in RunOf(c, moves, true).workers && !Ended(RunOf(c, moves, true).workers[t].spot)
    ensures exists t, n :: CanStep(RunOf(c, moves, true), t, n, true)
  {
    BeginsRefined(c, tree);
    var c' := RunOf(c, moves, true);
    var s := RunRefines(Contents(tree), c, Abstract(c, tree), moves);
    var t :| t in c'.workers && !Ended(c'.workers[t].spot);
    SameThread(c', s, t);
    SomeoneMoves(s);
    var u, n :| Enabled(s, u, n);
    CanMove(c', s, u, n);
  }

  // ---------------------------------------------------------------- every run ends

  function WalkSteps(sp: seq<nat>, n: nat, stage: Stage): int {
    match stage
    case Seek => if n in sp then |sp| - IndexOf(sp, n) + 3 else 4
    case Found => 3
    case Unlinked => 2
    case KeyCopied => 1
  }

  /** The operation may still have a successor walk before it. */
  predicate MayWalk(at: Place) {
    at.Start? || at.At? || at.Want? || at.Got? || at.Hit?
  }

  /** A bound on the steps a thread still takes if nobody else moves. */
  function StepsAhead(tree: Tree<nat>, w: Worker): int {
    match w.spot
    case Plain(at) => StepsLeft(tree, Thread(w.op, at)) + if MayWalk(at) then |Ids(tree)| + 4 else 0
    case Walk(_, _, _, n, stage) => 9 + WalkSteps(SpineKey(tree, KeyOf(w.op)), n, stage)
  }

  lemma {:induction false} SpineDistinct(t: Tree<nat>)
    requires DistinctIds(t)
    ensures Distinct(Spine(t))
  {
    if t.Fork? {
      SpineDistinct(t.l);
      SpineWithin(t.l);
    }
  }

  lemma WalkIndex(s: State, t: nat, spot: Spot) returns (i: nat)
    requires Good(s) && WalkOk(s, t, spot)
    ensures var sp := SpineKey(s.tree, s.threads[t].op.key);
      AtIndex(sp, spot.x, spot.h, spot.n, spot.stage, i) && Distinct(sp) && IsSpine(Cells(HEAD, s.tree), spot.x, sp)
  {
    i := WalkPlace(s, t, spot);
    WalkFacts(s, t);
    SpineSize(s.tree, s.threads[t].op.key);
  }

  lemma SpineSize(tree: Tree<nat>, k: string)
    requires TreeOk(tree) && Lookup(tree, k).Some?
    ensures Distinct(SpineKey(tree, k)) && |SpineKey(tree, k)| <= |Ids(tree)|
  {
    var r := SubtreeAt(tree, k).r;
    SubtreeFacts(tree, k, HEAD);
    SpineDistinct(r);
    SpineWithin(r);
    Fewer(Ids(r), Ids(tree));
  }

  lemma SeekUses(c: Machine, s: State, t: nat, n: nat)
    requires Good(s) && Refines(c, s) && t in c.workers && c.workers[t].spot.Walk? && c.workers[t].spot.stage.Seek?
    ensures t in Step(c, t, n).workers
    ensures StepsAhead(s.tree, Step(c, t, n).workers[t]) < StepsAhead(s.tree, c.workers[t])
  {
    SameThread(c, s, t);
    var spot := c.workers[t].spot;
    var i := WalkIndex(s, t, spot);
    WalkZone(s, t, spot);
    ReadsSpine(c, s, t, spot.n);
    var sp := SpineKey(s.tree, s.threads[t].op.key);
    assert LinkedAt(Cells(HEAD, s.tree), sp, i);
    OneFurther(sp, i);
  }

  lemma OneFurther(sp: seq<nat>, i: nat)
    requires Distinct(sp) && i < |sp|
    ensures WalkSteps(sp, sp[i], Seek) == |sp| - i + 3
    ensures i + 1 < |sp| ==> WalkSteps(sp, sp[i + 1], Seek) == |sp| - i + 2
  {
    IndexOfDistinct(sp, i);
    if i + 1 < |sp| { IndexOfDistinct(sp, i + 1); }
  }

  lemma WalkUses(c: Machine, t: nat, n: nat, tree: Tree<nat>, tree': Tree<nat>)
    requires t in c.workers && c.workers[t].spot.Walk? && !c.workers[t].spot.stage.Seek?
    ensures t in Step(c, t, n).workers && StepsAhead(tree', Step(c, t, n).workers[t]) < StepsAhead(tree, c.workers[t])
  {
  }

  lemma StartUses(c: Machine, s: State, t: nat, n: nat)
    requires Good(s) && Refines(c, s) && CanStep(c, t, n, true) && c.workers[t].spot.Plain? && !Visible(c, t)
    ensures t in Step(c, t, n).workers
    ensures StepsAhead(s.tree, Step(c, t, n).workers[t]) < StepsAhead(s.tree, c.workers[t])
  {
    SameThread(c, s, t);
    WalkStarts(c, s, t, n);
    WalkAhead(Step(c, t, n), s, t);
    HitAhead(s.tree, c.workers[t]);
  }

  lemma HitAhead(tree: Tree<nat>, w: Worker)
    requires w.spot.Plain? && w.spot.at.Hit?
    ensures StepsAhead(tree, w) == |Ids(tree)| + 13
  {
  }

  lemma WalkAhead(c: Machine, s: State, t: nat)
    requires Good(s) && Refines(c, s) && t in c.workers && c.workers[t].spot.Walk?
    ensures StepsAhead(s.tree, c.workers[t]) <= |Ids(s.tree)| + 12
  {
    SameThread(c, s, t);
    var spot, k := c.workers[t].spot, s.threads[t].op.key;
    WalkZone(s, t, spot);
    SpineSize(s.tree, k);
    WalkStepsAtMost(SpineKey(s.tree, k), spot.n, spot.stage);
  }

  lemma WalkStepsAtMost(sp: seq<nat>, n: nat, stage: Stage)
    requires sp != []
    ensures WalkSteps(sp, n, stage) <= |sp| + 3
  {
  }

  lemma PlainUses(c: Machine, s: State, t: nat, n: nat)
    requires Good(s) && Refines(c, s) && CanStep(c, t, n, true) && c.workers[t].spot.Plain? && Visible(c, t)
    ensures t in s.threads && t in Step(c, t, n).workers
    ensures StepsAhead(Act(s, t, n).tree, Step(c, t, n).workers[t]) < StepsAhead(s.tree, c.workers[t])
  {
    SameThread(c, s, t);
    StepRefines(c, s, t, n);
    OwnStep(s, t, n);
    PlainStays(c, t, n);
    SameThread(Step(c, t, n), Act(s, t, n), t);
    StillBefore(s, t, n);
  }

  lemma PlainStays(c: Machine, t: nat, n: nat)
    requires t in c.workers && c.workers[t].spot.Plain? && Visible(c, t)
    ensures t in Step(c, t, n).workers && Step(c, t, n).workers[t].spot.Plain?
    ensures Step(c, t, n).workers[t].op == c.workers[t].op
  {
  }

  lemma StillBefore(s: State, t: nat, n: nat)
    requires t in s.threads
    ensures t in Act(s, t, n).threads
    ensures MayWalk(Act(s, t, n).threads[t].at) ==> MayWalk(s.threads[t].at) && Act(s, t, n).tree == s.tree
  {
  }

  /** A step of its own uses up one of a thread's steps. */
  lemma OwnUses(c: Machine, s: State, t: nat, n: nat)
    requires Good(s) && Refines(c, s) && CanStep(c, t, n, true)
    ensures t in s.threads && t in Step(c, t, n).workers
    ensures StepsAhead(if Visible(c, t) then Act(s, t, n).tree else s.tree, Step(c, t, n).workers[t])
      < StepsAhead(s.tree, c.workers[t])
  {
    SameThread(c, s, t);
    if c.workers[t].spot.Walk? {
      if c.workers[t].spot.stage.Seek? {
        SeekUses(c, s, t, n);
      } else {
        WalkUses(c, t, n, s.tree, if Visible(c, t) then Act(s, t, n).tree else s.tree);
      }
    } else if Visible(c, t) {
      PlainUses(c, s, t, n);
    } else {
      StartUses(c, s, t, n);
    }
  }

  /** A step of another thread adds at most seven, and none unless it takes effect. */
  lemma OtherAdds(c: Machine, s: State, u: nat, n: nat, t: nat)
    requires Good(s) && Refines(c, s) && CanStep(c, u, n, true) && t in c.workers && t != u && Visible(c, u)
    ensures u in s.threads && t in Step(c, u, n).workers && Step(c, u, n).workers[t] == c.workers[t]
    ensures StepsAhead(Act(s, u, n).tree, c.workers[t])
      <= StepsAhead(s.tree, c.workers[t]) + 7 * (|Act(s, u, n).history| - |s.history|)
  {
    SameThread(c, s, t);
    SameThread(c, s, u);
    StepRefines(c, s, u, n);
    ActGrows(s, u, n);
    OthersStay(c, u, n, t);
    if c.workers[t].spot.Plain? {
      OtherStep(s, u, n, t);
    }
  }

  /** A step changes no worker but its own. */
  lemma StepShape(c: Machine, t: nat, n: nat)
    requires t in c.workers
    ensures t in Step(c, t, n).workers
    ensures Step(c, t, n).workers == c.workers[t := Worker(c.workers[t].op, Step(c, t, n).workers[t].spot)]
  {
    match c.workers[t].spot
    case Walk(p, x, h, y, stage) => WalkShape(c, t, p, x, h, y, stage);
    case Plain(at) =>
      match at
      case Hit(p, x) => HitShape(c, t, p, x);
      case Miss(p) => MissShape(c, t, n, p);
      case Printing(stack, pending) => PrintShape(c, t, stack, pending);
      case _ =>
  }

  lemma WalkShape(c: Machine, t: nat, p: nat, x: nat, h: nat, y: nat, stage: Stage)
    requires t in c.workers
    ensures var c' := StepWalk(c, t, p, x, h, y, stage);
      t in c'.workers && c'.workers == c.workers[t := Worker(c.workers[t].op, c'.workers[t].spot)]
  {
  }

  lemma HitShape(c: Machine, t: nat, p: nat, x: nat)
    requires t in c.workers
    ensures var c' := StepHit(c, t, p, x);
      t in c'.workers && c'.workers == c.workers[t := Worker(c.workers[t].op, c'.workers[t].spot)]
  {
  }

  lemma MissShape(c: Machine, t: nat, n: nat, p: nat)
    requires t in c.workers
    ensures var c' := StepMiss(c, t, n, p);
      t in c'.workers && c'.workers == c.workers[t := Worker(c.workers[t].op, c'.workers[t].spot)]
  {
  }

  lemma PrintShape(c: Machine, t: nat, stack: seq<Frame>, pending: Option<nat>)
    requires t in c.workers
    ensures var c' := StepPrint(c, t, stack, pending);
      t in c'.workers && c'.workers == c.workers[t := Worker(c.workers[t].op, c'.workers[t].spot)]
  {
  }

  lemma OthersStay(c: Machine, u: nat, n: nat, t: nat)
    requires u in c.workers && t in c.workers && t != u
    ensures t in Step(c, u, n).workers && Step(c, u, n).workers[t] == c.workers[t]
  {
    StepShape(c, u, n);
  }

  /** How many of these moves are t's own. */
  function StepsOf(moves: seq<Move>, t: nat): nat {
    if moves == [] then 0 else (if moves[0].t == t then 1 else 0) + StepsOf(moves[1..], t)
  }

  lemma MoveUses(c: Machine, s: State, u: nat, n: nat, t: nat)
    requires Good(s) && Refines(c, s) && CanStep(c, u, n, true) && t in c.workers
    ensures u in s.threads && t in Step(c, u, n).workers
    ensures var s' := if Visible(c, u) then Act(s, u, n) else s;
      (if u == t then 1 else 0) + StepsAhead(s'.tree, Step(c, u, n).workers[t])
      <= StepsAhead(s.tree, c.workers[t]) + 7 * (|s'.history| - |s.history|)
  {
    SameThread(c, s, u);
    ActGrows(s, u, n);
    if u == t {
      OwnUses(c, s, t, n);
    } else if Visible(c, u) {
      OtherAdds(c, s, u, n, t);
    } else {
      OthersStay(c, u, n, t);
    }
  }

  lemma {:induction false} RunUses(m: map<string, string>, c: Machine, s: State, moves: seq<Move>, t: nat)
    returns (s': State)
    requires Good(s) && Explained(m, s) && Refines(c, s) && MovesOk(c, moves, true) && t in c.workers
    ensures Good(s') && Explained(m, s') && Refines(RunOf(c, moves, true), s') && s'.threads.Keys == s.threads.Keys
    ensures t in RunOf(c, moves, true).workers
    ensures StepsOf(moves, t) + StepsAhead(s'.tree, RunOf(c, moves, true).workers[t])
      <= StepsAhead(s.tree, c.workers[t]) + 7 * (|s'.history| - |s.history|)
    decreases |moves|
  {
    if moves == [] {
      s' := s;
    } else {
      MoveUses(c, s, moves[0].t, moves[0].n, t);
      var s1 := StepGood(m, c, s, moves[0].t, moves[0].n);
      s' := RunUses(m, Step(c, moves[0].t, moves[0].n), s1, moves[1..], t);
    }
  }

  lemma StepsRemain(tree: Tree<nat>, w: Worker)
    ensures StepsAhead(tree, w) >= 0
  {
  }

  /** The most steps one operation takes, in a tree of `records` records shared by `threads` threads. */
  function StepBound(records: nat, threads: nat): nat {
    7 * (records + threads) + 15
  }

  lemma StartAhead(tree: Tree<nat>, w: Worker)
    requires w.spot == Plain(Start)
    ensures StepsAhead(tree, w) == 7 * |Ids(tree)| + 15
  {
  }

  /** However the others change the tree meanwhile, every operation takes a bounded number of its own steps. */
  lemma StepsBounded(c: Machine, tree: Tree<nat>, moves: seq<Move>, t: nat)
    requires Begins(c, tree) && MovesOk(c, moves, true) && t in c.workers
    ensures StepsOf(moves, t) <= StepBound(|Ids(tree)|, |c.workers.Keys|)
  {
    BeginsRefined(c, tree);
    StartAhead(tree, c.workers[t]);
    BoundedFrom(Contents(tree), c, Abstract(c, tree), moves, t);
  }

  lemma BoundedFrom(m: map<string, string>, c: Machine, s: State, moves: seq<Move>, t: nat)
    requires Good(s) && Explained(m, s) && Refines(c, s) && MovesOk(c, moves, true) && t in c.workers && s.history == []
    ensures StepsOf(moves, t) <= StepsAhead(s.tree, c.workers[t]) + 7 * |c.workers.Keys|
  {
    var events := RunEvents(m, c, s, moves, t);
    SameKeys(c, s);
  }

  lemma SameKeys(c: Machine, s: State)
    requires Refines(c, s)
    ensures s.threads.Keys == c.workers.Keys
  {
  }

  /** As many as the operations that take effect. */
  lemma RunEvents(m: map<string, string>, c: Machine, s: State, moves: seq<Move>, t: nat) returns (events: nat)
    requires Good(s) && Explained(m, s) && Refines(c, s) && MovesOk(c, moves, true) && t in c.workers && s.history == []
    ensures StepsOf(moves, t) <= StepsAhead(s.tree, c.workers[t]) + 7 * events && events <= |s.threads.Keys|
  {
    var s' := RunUses(m, c, s, moves, t);
    StepsRemain(s'.tree, RunOf(c, moves, true).workers[t]);
    EventsBounded(s');
    events := |s'.history|;
  }

  function MovesBy(moves: seq<Move>, ts: set<nat>): nat {
    if moves == [] then 0 else (if moves[0].t in ts then 1 else 0) + MovesBy(moves[1..], ts)
  }

  lemma {:induction false} MovesSplit(moves: seq<Move>, ts: set<nat>, t: nat)
    requires t in ts
    ensures MovesBy(moves, ts) == MovesBy(moves, ts - {t}) + StepsOf(moves, t)
  {
    if moves != [] {
      MovesSplit(moves[1..], ts, t);
    }
  }

  lemma {:induction false} MovesTotal(moves: seq<Move>, ts: set<nat>, bound: nat)
    requires forall t :: t in ts ==> StepsOf(moves, t) <= bound
    ensures MovesBy(moves, ts) <= |ts| * bound
    decreases |ts|
  {
    if ts == {} {
      NoMoves(moves);
    } else {
      var t :| t in ts;
      MovesSplit(moves, ts, t);
      MovesTotal(moves, ts - {t}, bound);
      OneMoreShare(|ts|, bound);
    }
  }

  lemma OneMoreShare(n: int, bound: int)
    ensures (n - 1) * bound + bound == n * bound
  {
  }

  lemma {:induction false} NoMoves(moves: seq<Move>)
    ensures MovesBy(moves, {}) == 0
  {
    if moves != [] {
      NoMoves(moves[1..]);
    }
  }

  lemma {:induction false} AllMoves(c: Machine, moves: seq<Move>, ts: set<nat>)
    requires MovesOk(c, moves, true) && c.workers.Keys == ts
    ensures MovesBy(moves, ts) == |moves|
    decreases |moves|
  {
    if moves != [] {
      SameWorkers(c, moves[0].t, moves[0].n);
      AllMoves(Step(c, moves[0].t, moves[0].n), moves[1..], ts);
    }
  }

  lemma SameWorkers(c: Machine, t: nat, n: nat)
    requires t in c.workers
    ensures Step(c, t, n).workers.Keys == c.workers.Keys
  {
    StepShape(c, t, n);
  }

  /** Every run ends, and when no thread can step any more every operation has finished. */
  lemma EveryRunEnds(c: Machine, tree: Tree<nat>, moves: seq<Move>)
    requires Begins(c, tree) && MovesOk(c, moves, true)
    ensures |moves| <= |c.workers.Keys| * StepBound(|Ids(tree)|, |c.workers.Keys|)
    ensures (forall t, n :: !CanStep(RunOf(c, moves, true), t, n, true)) ==>
      forall t :: t in RunOf(c, moves, true).workers ==> Ended(RunOf(c, moves, true).workers[t].spot)
  {
    var bound := StepBound(|Ids(tree)|, |c.workers.Keys|);
    forall t | t in c.workers.Keys ensures StepsOf(moves, t) <= bound { StepsBounded(c, tree, moves, t); }
    MovesTotal(moves, c.workers.Keys, bound);
    AllMoves(c, moves, c.workers.Keys);
    if exists t :: t in RunOf(c, moves, true).workers && !Ended(RunOf(c, moves, true).workers[t].spot) {
      MachineProgress(c, tree, moves);
    }
  }

  // ---------------------------------------------------------------- who shares a lock

  /** The operation only reads records. */
  predicate Reads(op: Op) {
    op.Query? || op.Print?
  }

  /** Two threads hold a record at the same time only if both only read; the head only if both print. */
  lemma SharedByReaders(c: Machine, tree: Tree<nat>, moves: seq<Move>, h: Hold, g: Hold)
    requires Begins(c, tree) && MovesOk(c, moves, true)
    requires var c' := RunOf(c, moves, true); h in c'.locks && g in c'.locks && h.t != g.t && h.id == g.id
    ensures var c' := RunOf(c, moves, true);
      && h.t in c'.workers && g.t in c'.workers && Reads(c'.workers[h.t].op) && Reads(c'.workers[g.t].op)
      && (h.id == HEAD ==> c'.workers[h.t].op.Print? && c'.workers[g.t].op.Print?)
  {
    BeginsRefined(c, tree);
    var s := RunRefines(Contents(tree), c, Abstract(c, tree), moves);
    SharedIn(RunOf(c, moves, true), s, h, g);
  }

  lemma SharedIn(c: Machine, s: State, h: Hold, g: Hold)
    requires Good(s) && Refines(c, s) && h in c.locks && g in c.locks && h.t != g.t && h.id == g.id
    ensures h.t in c.workers && g.t in c.workers && Reads(c.workers[h.t].op) && Reads(c.workers[g.t].op)
    ensures h.id == HEAD ==> c.workers[h.t].op.Print? && c.workers[g.t].op.Print?
  {
    SameThread(c, s, h.t);
    SameThread(c, s, g.t);
    assert !Clash(h, g.id, g.write) && !Clash(g, h.id, h.write);
  }

  /** Readers do not wait for readers: a query gets a record that only queries and prints hold. */
  lemma ReadersShare(c: Machine, tree: Tree<nat>, moves: seq<Move>, t: nat, p: nat, x: nat)
    requires Begins(c, tree) && MovesOk(c, moves, true)
    requires var c' := RunOf(c, moves, true);
      && t in c'.workers && c'.workers[t].op.Query? && c'.workers[t].spot == Plain(Want(p, x)) && x != HEAD
      && forall h :: h in c'.locks && h.id == x ==> h.t in c'.workers && Reads(c'.workers[h.t].op)
    ensures CanStep(RunOf(c, moves, true), t, 0, true)
  {
    BeginsRefined(c, tree);
    var c' := RunOf(c, moves, true);
    var s := RunRefines(Contents(tree), c, Abstract(c, tree), moves);
    forall h | h in c'.locks && h.id == x
      ensures !h.write
    {
      SameThread(c', s, h.t);
    }
  }

  // ---------------------------------------------------------------- the code as it is

  /** No operation removes, or there is only one. */
  ghost predicate NoneInTheWay(c: Machine) {
    || (forall t :: t in c.workers ==> !c.workers[t].op.Remove?)
    || (forall t, u :: t in c.workers && u in c.workers ==> t == u)
  }

  /** Then the code never starts a walk where the guard would have waited. */
  lemma {:induction false} NeverWaits(c: Machine, moves: seq<Move>)
    requires MovesOk(c, moves, false) && NoneInTheWay(c)
    ensures MovesOk(c, moves, true) && RunOf(c, moves, true) == RunOf(c, moves, false)
    decreases |moves|
  {
    if moves != [] {
      var t, n := moves[0].t, moves[0].n;
      StepShape(c, t, n);
      SameWorkers(c, t, n);
      NeverWaits(Step(c, t, n), moves[1..]);
    }
  }

  /** Every run of the code without removes, or of one operation alone, is linearizable and touches no freed record. */
  lemma CodeRuns(c: Machine, tree: Tree<nat>, moves: seq<Move>)
    requires Begins(c, tree) && MovesOk(c, moves, false) && NoneInTheWay(c)
    ensures var c' := RunOf(c, moves, false);
      Linearized(Contents(tree), c') && forall t :: t in c'.workers ==> Accessed(c', t) <= c'.cells.Keys
  {
    NeverWaits(c, moves);
    MachineLinearizable(c, tree, moves);
    var c' := RunOf(c, moves, true);
    forall t, y | t in c'.workers && y in Accessed(c', t)
      ensures y in c'.cells
    {
      NoUseAfterFree(c, tree, moves, t, y);
    }
  }
}
