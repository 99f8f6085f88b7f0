/**
  What every interleaving of the database's threads keeps: the tree stays ordered,
  locks are held exactly as each thread's place says, no thread uses a freed record,
  and the operations take effect one after the other on one map.
 */
module DbSafety {
  import opened Options
  import opened DbTree
  import opened DbConcurrent

  // ---------------------------------------------------------------- invariants

  ghost predicate SearchOk(tree: Tree<nat>, k: string, p: nat, next: Option<nat>) {
    Stands(tree, k, p) && Child(CellOf(tree, p), k) == next
  }

  /** The stack of a print is a path of links from the head. */
  ghost predicate Chain(tree: Tree<nat>, stack: seq<Frame>) {
    && (stack != [] ==> stack[0].id == HEAD)
    && (forall i {:trigger LinkedFrames(tree, stack, i)} :: 0 < i < |stack| ==> LinkedFrames(tree, stack, i))
  }

  /** The i-th record is the child of the one before it on the side being printed. */
  ghost predicate LinkedFrames(tree: Tree<nat>, stack: seq<Frame>, i: int)
    requires 0 < i < |stack|
  {
    Branch(CellOf(tree, stack[i - 1].id), stack[i - 1].visit) == Some(stack[i].id)
  }

  ghost predicate PrintOk(tree: Tree<nat>, stack: seq<Frame>, pending: Option<nat>) {
    && Chain(tree, stack)
    && (pending.Some? ==>
          stack != [] && Branch(CellOf(tree, stack[|stack| - 1].id), stack[|stack| - 1].visit) == pending)
  }

  ghost predicate ClosingOk(tree: Tree<nat>, nodes: seq<nat>, loose: Option<nat>) {
    && (nodes == [] || |nodes| == 1 || (|nodes| == 2 && nodes[0] != nodes[1]))
    && (forall x :: x in nodes ==> x in Ids(tree) || x == HEAD || loose == Some(x))
    && (loose.Some? ==> loose.value !in Ids(tree) && loose.value != HEAD)
  }

  /** A thread's place agrees with the tree. */
  ghost predicate ThreadOk(tree: Tree<nat>, th: Thread) {
    var k := KeyOf(th.op);
    && (th.op.Print? <==> th.at.Printing? || th.at.Printed? || (th.at.Start? && th.op.Print?))
    && match th.at
       case At(p) => Stands(tree, k, p)
       case Want(p, n) => SearchOk(tree, k, p, Some(n))
       case Got(p, n) => SearchOk(tree, k, p, Some(n))
       case Miss(p) => SearchOk(tree, k, p, None)
       case Hit(p, n) => SearchOk(tree, k, p, Some(n)) && CellOf(tree, n).key == k
       case Reading(n) => th.op.Query? && n in Ids(tree) && CellOf(tree, n).key == k
       case Closing(nodes, loose, _) => ClosingOk(tree, nodes, loose)
       case Printing(stack, pending) => PrintOk(tree, stack, pending)
       case _ => true
  }

  ghost predicate ThreadsOk(tree: Tree<nat>, threads: map<nat, Thread>) {
    forall u :: u in threads ==> ThreadOk(tree, threads[u])
  }

  /** Locks are held exactly where the threads' places say, and never against each other. */
  ghost predicate LocksOk(locks: set<Hold>, threads: map<nat, Thread>) {
    && (forall h :: h in locks ==>
          h.t in threads && h.id in HeldIds(threads[h.t].at) && h.write == Writes(threads[h.t].op, h.id))
    && (forall t, id ::
          t in threads && id in HeldIds(threads[t].at) ==> Hold(t, id, Writes(threads[t].op, id)) in locks)
    && (forall h, g :: h in locks && g in locks && h.t != g.t ==> !Clash(h, g.id, g.write))
  }

  ghost predicate IsLoose(threads: map<nat, Thread>, t: nat, x: nat) {
    t in threads && Loose(threads[t].at) == Some(x)
  }

  /** The records in existence are those of the tree and those some thread will destroy, each once. */
  ghost predicate LiveOk(tree: Tree<nat>, threads: map<nat, Thread>, live: set<nat>) {
    && Ids(tree) + {HEAD} <= live
    && (forall t, x :: IsLoose(threads, t, x) ==> x in live)
    && (forall t, u, x :: IsLoose(threads, t, x) && IsLoose(threads, u, x) ==> t == u)
    && (forall x :: x in live ==> x in Ids(tree) || x == HEAD || exists t :: IsLoose(threads, t, x))
  }

  ghost predicate Good(s: State) {
    TreeOk(s.tree) && ThreadsOk(s.tree, s.threads) && LocksOk(s.locks, s.threads) && LiveOk(s.tree, s.threads, s.live)
  }

  // ---------------------------------------------------------------- levels

  /** How far below the head a record is. */
  function Level(t: Tree<nat>, x: nat): nat
    requires x in Ids(t)
  {
    if x == t.id then 1 else if x in Ids(t.l) then 1 + Level(t.l, x) else 1 + Level(t.r, x)
  }

  function LevelOf(tree: Tree<nat>, x: nat): nat {
    if x in Ids(tree) then Level(tree, x) else 0
  }

  lemma {:induction false} ChildLevel(t: Tree<nat>, p: nat, c: nat)
    requires DistinctIds(t) && p in Ids(t) && Some(c) in {Shape(t)[p].left, Shape(t)[p].right}
    ensures c in Ids(t) && Level(t, c) == Level(t, p) + 1
  {
    if p in Ids(t.l) {
      ChildLevel(t.l, p, c);
    } else if p in Ids(t.r) {
      ChildLevel(t.r, p, c);
    }
  }

  /** A link leads to a record of the tree one level down. */
  lemma LinkLevel(tree: Tree<nat>, p: nat, c: nat)
    requires TreeOk(tree) && Some(c) in {CellOf(tree, p).left, CellOf(tree, p).right}
    ensures c in Ids(tree) && c != HEAD && LevelOf(tree, c) == LevelOf(tree, p) + 1
  {
    if p != HEAD {
      ChildLevel(tree, p, c);
    }
  }

  lemma {:induction false} ChainLevel(tree: Tree<nat>, stack: seq<Frame>, i: nat)
    requires TreeOk(tree) && Chain(tree, stack) && i < |stack|
    ensures LevelOf(tree, stack[i].id) == i && (stack[i].id in Ids(tree) || stack[i].id == HEAD)
  {
    if i > 0 {
      ChainLevel(tree, stack, i - 1);
      assert LinkedFrames(tree, stack, i);
      LinkLevel(tree, stack[i - 1].id, stack[i].id);
    }
  }

  /** The records of a search are in the tree, the child one level below. */
  lemma SearchRefs(tree: Tree<nat>, k: string, p: nat)
    requires TreeOk(tree) && Stands(tree, k, p)
    ensures p in Ids(tree) || p == HEAD
    ensures var c := Child(CellOf(tree, p), k);
      c.Some? ==> c.value in Ids(tree) && c.value != HEAD && LevelOf(tree, c.value) == LevelOf(tree, p) + 1
  {
    AheadFacts(tree, k, p);
    var c := Child(CellOf(tree, p), k);
    if c.Some? {
      LinkLevel(tree, p, c.value);
    }
  }

  lemma PrintRefs(tree: Tree<nat>, stack: seq<Frame>, pending: Option<nat>, x: nat)
    requires TreeOk(tree) && PrintOk(tree, stack, pending)
    requires x in StackIds(stack) || pending == Some(x)
    ensures x in Ids(tree) || x == HEAD
    ensures pending == Some(x) ==> LevelOf(tree, x) == |stack|
    ensures x in StackIds(stack) ==> LevelOf(tree, x) < |stack|
  {
    if x in StackIds(stack) {
      var i :| 0 <= i < |stack| && stack[i].id == x;
      ChainLevel(tree, stack, i);
    }
    if pending == Some(x) {
      LinkLevel(tree, stack[|stack| - 1].id, x);
      ChainLevel(tree, stack, |stack| - 1);
    }
  }

  /** Every record a thread holds or awaits is in the tree, or is its own to destroy. */
  lemma Referenced(tree: Tree<nat>, th: Thread, x: nat)
    requires TreeOk(tree) && ThreadOk(tree, th)
    requires x in HeldIds(th.at) || Awaited(th.at) == Some(x)
    ensures x in Ids(tree) || x == HEAD || Loose(th.at) == Some(x)
  {
    var k := KeyOf(th.op);
    match th.at
    case At(p) => SearchRefs(tree, k, p);
    case Want(p, n) => SearchRefs(tree, k, p);
    case Got(p, n) => SearchRefs(tree, k, p);
    case Miss(p) => SearchRefs(tree, k, p);
    case Hit(p, n) => SearchRefs(tree, k, p);
    case Printing(stack, pending) => PrintRefs(tree, stack, pending, x);
    case _ =>
  }

  // ---------------------------------------------------------------- steps that leave the tree alone

  lemma LockKeeps(locks: set<Hold>, threads: map<nat, Thread>, t: nat, id: nat, at: Place)
    requires LocksOk(locks, threads) && t in threads
    requires HeldIds(at) == HeldIds(threads[t].at) + {id} && Grantable(locks, id, Writes(threads[t].op, id))
    ensures LocksOk(locks + {Hold(t, id, Writes(threads[t].op, id))}, threads[t := threads[t].(at := at)])
  {
  }

  lemma UnlockKeeps(locks: set<Hold>, threads: map<nat, Thread>, t: nat, id: nat, at: Place)
    requires LocksOk(locks, threads) && t in threads && HeldIds(at) == HeldIds(threads[t].at) - {id}
    ensures LocksOk(locks - {Hold(t, id, Writes(threads[t].op, id))}, threads[t := threads[t].(at := at)])
  {
  }

  lemma SameKeeps(locks: set<Hold>, threads: map<nat, Thread>, t: nat, at: Place)
    requires LocksOk(locks, threads) && t in threads && HeldIds(at) == HeldIds(threads[t].at)
    ensures LocksOk(locks, threads[t := threads[t].(at := at)])
  {
  }

  /** A step of `t` that leaves tree and records alone concerns `t` and the locks only. */
  lemma QuietKeeps(s: State, t: nat, at: Place, locks: set<Hold>)
    requires Good(s) && t in s.threads && Loose(at) == Loose(s.threads[t].at)
    requires ThreadOk(s.tree, s.threads[t].(at := at))
    requires LocksOk(locks, s.threads[t := s.threads[t].(at := at)])
    ensures Good(Go(s, t, at).(locks := locks))
  {
    var threads := Go(s, t, at).threads;
    forall u, x ensures IsLoose(threads, u, x) <==> IsLoose(s.threads, u, x) {}
  }

  lemma StartKeeps(s: State, t: nat, n: nat)
    requires Good(s) && Enabled(s, t, n) && s.threads[t].at.Start?
    ensures Good(Act(s, t, n))
  {
    var s' := Act(s, t, n);
    assert StackIds([Frame(HEAD, Left)]) == {[Frame(HEAD, Left)][0].id};
    LockKeeps(s.locks, s.threads, t, HEAD, s'.threads[t].at);
    QuietKeeps(s, t, s'.threads[t].at, s'.locks);
  }

  lemma AtKeeps(s: State, t: nat, n: nat)
    requires Good(s) && Enabled(s, t, n) && s.threads[t].at.At?
    ensures Good(Act(s, t, n))
  {
    var s' := Act(s, t, n);
    SameKeeps(s.locks, s.threads, t, s'.threads[t].at);
    QuietKeeps(s, t, s'.threads[t].at, s'.locks);
  }

  lemma WantKeeps(s: State, t: nat, n: nat)
    requires Good(s) && Enabled(s, t, n) && s.threads[t].at.Want?
    ensures Good(Act(s, t, n))
  {
    var s' := Act(s, t, n);
    LockKeeps(s.locks, s.threads, t, s.threads[t].at.n, s'.threads[t].at);
    QuietKeeps(s, t, s'.threads[t].at, s'.locks);
  }

  /** Letting the parent go once the child is held: the search path goes on through the child. */
  lemma GotKeeps(s: State, t: nat, n: nat)
    requires Good(s) && Enabled(s, t, n) && s.threads[t].at.Got?
    ensures Good(Act(s, t, n))
  {
    var s', th := Act(s, t, n), s.threads[t];
    var p, x := th.at.p, th.at.n;
    SearchRefs(s.tree, KeyOf(th.op), p);
    if CellOf(s.tree, x).key == KeyOf(th.op) {
      SameKeeps(s.locks, s.threads, t, s'.threads[t].at);
    } else {
      PassesOn(s.tree, KeyOf(th.op), p);
      UnlockKeeps(s.locks, s.threads, t, p, s'.threads[t].at);
    }
    QuietKeeps(s, t, s'.threads[t].at, s'.locks);
  }

  lemma PassesOn(tree: Tree<nat>, k: string, p: nat)
    requires TreeOk(tree) && Stands(tree, k, p) && Child(CellOf(tree, p), k).Some?
    requires CellOf(tree, Child(CellOf(tree, p), k).value).key != k
    ensures Stands(tree, k, Child(CellOf(tree, p), k).value)
  {
    AheadFacts(tree, k, p);
    if p != HEAD {
      PassesDown(tree, k, p);
    }
  }

  lemma {:induction false} PassesDown(t: Tree<nat>, k: string, p: nat)
    requires Passes(t, k, p) && AheadBelow(t, k, p).Fork? && AheadBelow(t, k, p).key != k
    ensures Passes(t, k, AheadBelow(t, k, p).id)
  {
    if t.id != p {
      PassesDown(Side(t, k), k, p);
    }
  }

  lemma ReadingKeeps(s: State, t: nat, n: nat)
    requires Good(s) && Enabled(s, t, n) && s.threads[t].at.Reading?
    ensures Good(Act(s, t, n))
  {
    var s' := Act(s, t, n);
    SameKeeps(s.locks, s.threads, t, s'.threads[t].at);
    QuietKeeps(s, t, s'.threads[t].at, s'.locks);
  }

  lemma HitQueryKeeps(s: State, t: nat, n: nat)
    requires Good(s) && Enabled(s, t, n) && s.threads[t].at.Hit? && s.threads[t].op.Query?
    ensures Good(Act(s, t, n))
  {
    var s', th := Act(s, t, n), s.threads[t];
    SearchRefs(s.tree, KeyOf(th.op), th.at.p);
    UnlockKeeps(s.locks, s.threads, t, th.at.p, s'.threads[t].at);
    QuietKeeps(s, t, s'.threads[t].at, s'.locks);
  }

  lemma HitAddKeeps(s: State, t: nat, n: nat)
    requires Good(s) && Enabled(s, t, n) && s.threads[t].at.Hit? && s.threads[t].op.Add?
    ensures Good(Act(s, t, n))
  {
    var s', th := Act(s, t, n), s.threads[t];
    SearchRefs(s.tree, KeyOf(th.op), th.at.p);
    SameKeeps(s.locks, s.threads, t, s'.threads[t].at);
    QuietKeeps(s, t, s'.threads[t].at, s'.locks);
  }

  lemma MissKeeps(s: State, t: nat, n: nat)
    requires Good(s) && Enabled(s, t, n) && s.threads[t].at.Miss? && !s.threads[t].op.Add?
    ensures Good(Act(s, t, n))
  {
    var s', th := Act(s, t, n), s.threads[t];
    SearchRefs(s.tree, KeyOf(th.op), th.at.p);
    SameKeeps(s.locks, s.threads, t, s'.threads[t].at);
    QuietKeeps(s, t, s'.threads[t].at, s'.locks);
  }

  lemma UnlockingKeeps(s: State, t: nat, n: nat)
    requires Good(s) && Enabled(s, t, n) && s.threads[t].at.Closing? && s.threads[t].at.nodes != []
    ensures Good(Act(s, t, n))
  {
    var s', nodes := Act(s, t, n), s.threads[t].at.nodes;
    assert nodes == [nodes[0]] + nodes[1..];
    UnlockKeeps(s.locks, s.threads, t, nodes[0], s'.threads[t].at);
    QuietKeeps(s, t, s'.threads[t].at, s'.locks);
  }

  /** The last step of an operation: the record it cut out, if any, is destroyed. */
  lemma DestroyKeeps(s: State, t: nat, n: nat)
    requires Good(s) && Enabled(s, t, n) && s.threads[t].at.Closing? && s.threads[t].at.nodes == []
    ensures Good(Act(s, t, n))
  {
    var s', at := Act(s, t, n), s.threads[t].at;
    SameKeeps(s.locks, s.threads, t, s'.threads[t].at);
    assert ThreadsOk(s'.tree, s'.threads);
    assert at.loose.Some? ==> IsLoose(s.threads, t, at.loose.value);
    forall u, x
      ensures IsLoose(s'.threads, u, x) <==> u != t && IsLoose(s.threads, u, x)
    {
    }
    forall x | x in s'.live
      ensures x in Ids(s.tree) || x == HEAD || exists u :: IsLoose(s'.threads, u, x)
    {
      if x !in Ids(s.tree) && x != HEAD {
        var u :| IsLoose(s.threads, u, x);
        assert IsLoose(s'.threads, u, x);
      }
    }
  }

  lemma AdvanceIds(stack: seq<Frame>)
    ensures StackIds(Advance(stack)) == StackIds(stack)
  {
    var a := Advance(stack);
    assert forall i {:trigger a[i]} {:trigger stack[i]} :: 0 <= i < |stack| ==> a[i].id == stack[i].id;
  }

  lemma TopOfStack(stack: seq<Frame>)
    requires stack != []
    ensures stack[|stack| - 1].id in StackIds(stack) && StackIds(stack[..|stack| - 1]) <= StackIds(stack)
  {
    var init, top := stack[..|stack| - 1], stack[|stack| - 1];
    assert stack == init + [top];
    StackMore(init, top);
  }

  lemma StackMore(a: seq<Frame>, f: Frame)
    ensures StackIds(a + [f]) == StackIds(a) + {f.id}
  {
    var b := a + [f];
    assert b[|a|] == f;
    assert forall i {:trigger a[i]} {:trigger b[i]} :: 0 <= i < |a| ==> a[i] == b[i];
  }

  lemma ChainAdvance(tree: Tree<nat>, stack: seq<Frame>)
    requires Chain(tree, stack)
    ensures Chain(tree, Advance(stack)) && StackIds(Advance(stack)) == StackIds(stack)
    ensures |Advance(stack)| == |stack|
  {
    AdvanceIds(stack);
    var a := Advance(stack);
    assert forall i {:trigger a[i]} {:trigger stack[i]} :: 0 <= i < |stack| ==> a[i].id == stack[i].id;
    assert forall i {:trigger a[i]} :: 0 <= i < |stack| - 1 ==> a[i] == stack[i];
    forall i {:trigger LinkedFrames(tree, a, i)} | 0 < i < |a|
      ensures LinkedFrames(tree, a, i)
    {
      assert LinkedFrames(tree, stack, i);
    }
  }

  lemma ChainPush(tree: Tree<nat>, stack: seq<Frame>, f: Frame)
    requires Chain(tree, stack) && stack != []
    requires Branch(CellOf(tree, stack[|stack| - 1].id), stack[|stack| - 1].visit) == Some(f.id)
    ensures Chain(tree, stack + [f]) && StackIds(stack + [f]) == StackIds(stack) + {f.id}
  {
    StackMore(stack, f);
    var a := stack + [f];
    forall i {:trigger LinkedFrames(tree, a, i)} | 0 < i < |a|
      ensures LinkedFrames(tree, a, i)
    {
      if i < |stack| { assert LinkedFrames(tree, stack, i); }
    }
  }

  lemma ChainPop(tree: Tree<nat>, stack: seq<Frame>)
    requires TreeOk(tree) && Chain(tree, stack) && stack != []
    ensures Chain(tree, stack[..|stack| - 1])
    ensures StackIds(stack[..|stack| - 1]) == StackIds(stack) - {stack[|stack| - 1].id}
  {
    var last := |stack| - 1;
    ChainPrefix(tree, stack);
    forall i | 0 <= i < last
      ensures stack[i].id != stack[last].id
    {
      ChainLevel(tree, stack, i);
      ChainLevel(tree, stack, last);
    }
    StackPop(stack);
  }

  lemma ChainPrefix(tree: Tree<nat>, stack: seq<Frame>)
    requires Chain(tree, stack) && stack != []
    ensures Chain(tree, stack[..|stack| - 1])
  {
    var a := stack[..|stack| - 1];
    forall i {:trigger LinkedFrames(tree, a, i)} | 0 < i < |a|
      ensures LinkedFrames(tree, a, i)
    {
      assert LinkedFrames(tree, stack, i);
    }
  }

  lemma StackPop(stack: seq<Frame>)
    requires stack != [] && forall i :: 0 <= i < |stack| - 1 ==> stack[i].id != stack[|stack| - 1].id
    ensures StackIds(stack[..|stack| - 1]) == StackIds(stack) - {stack[|stack| - 1].id}
  {
    var a := stack[..|stack| - 1];
    assert stack == a + [stack[|stack| - 1]];
    StackMore(a, stack[|stack| - 1]);
  }

  lemma PrintingKeeps(s: State, t: nat, n: nat)
    requires Good(s) && Enabled(s, t, n) && s.threads[t].at.Printing?
    ensures Good(Act(s, t, n))
  {
    var s', stack, pending := Act(s, t, n), s.threads[t].at.stack, s.threads[t].at.pending;
    var at' := s'.threads[t].at;
    if pending.Some? {
      ChainPush(s.tree, stack, Frame(pending.value, Left));
      LockKeeps(s.locks, s.threads, t, pending.value, at');
    } else if stack == [] {
      SameKeeps(s.locks, s.threads, t, at');
    } else if stack[|stack| - 1].visit.Up? {
      ChainPop(s.tree, stack);
      ChainAdvance(s.tree, stack[..|stack| - 1]);
      UnlockKeeps(s.locks, s.threads, t, stack[|stack| - 1].id, at');
    } else {
      ChainAdvance(s.tree, stack);
      SameKeeps(s.locks, s.threads, t, at');
    }
    QuietKeeps(s, t, at', s'.locks);
  }

  // ---------------------------------------------------------------- steps that change the tree

  /** From one tree to the next, records outside `changed` and the paths through them stay. */
  ghost predicate Undisturbed(tree: Tree<nat>, tree': Tree<nat>, changed: set<nat>) {
    && (forall x {:trigger CellOf(tree', x)} {:trigger x in Ids(tree')} ::
          (x in Ids(tree) || x == HEAD) && x !in changed ==>
          CellOf(tree', x) == CellOf(tree, x) && (x in Ids(tree') || x == HEAD))
    && (forall k, p {:trigger Stands(tree', k, p)} :: p !in changed && Stands(tree, k, p) ==> Stands(tree', k, p))
  }

  lemma SearchUndisturbed(tree: Tree<nat>, tree': Tree<nat>, changed: set<nat>, k: string, p: nat)
    requires TreeOk(tree) && Undisturbed(tree, tree', changed) && Stands(tree, k, p) && p !in changed
    ensures Stands(tree', k, p) && CellOf(tree', p) == CellOf(tree, p)
  {
    SearchRefs(tree, k, p);
  }

  lemma PrintUndisturbed(tree: Tree<nat>, tree': Tree<nat>, changed: set<nat>, stack: seq<Frame>, pending: Option<nat>)
    requires TreeOk(tree) && Undisturbed(tree, tree', changed)
    requires PrintOk(tree, stack, pending) && StackIds(stack) !! changed
    ensures PrintOk(tree', stack, pending)
  {
    forall i {:trigger stack[i]} | 0 <= i < |stack|
      ensures CellOf(tree', stack[i].id) == CellOf(tree, stack[i].id)
    {
      assert stack[i].id in StackIds(stack);
      PrintRefs(tree, stack, pending, stack[i].id);
    }
    forall i {:trigger LinkedFrames(tree', stack, i)} | 0 < i < |stack|
      ensures LinkedFrames(tree', stack, i)
    {
      assert LinkedFrames(tree, stack, i);
    }
  }

  /** A thread that holds none of the changed records keeps its footing. */
  lemma OtherKeeps(tree: Tree<nat>, tree': Tree<nat>, changed: set<nat>, th: Thread)
    requires TreeOk(tree) && Undisturbed(tree, tree', changed) && ThreadOk(tree, th) && HeldIds(th.at) !! changed
    requires Loose(th.at).Some? ==> Loose(th.at).value !in Ids(tree')
    ensures ThreadOk(tree', th)
  {
    var k := KeyOf(th.op);
    match th.at
    case At(p) => SearchUndisturbed(tree, tree', changed, k, p);
    case Want(p, n) => SearchUndisturbed(tree, tree', changed, k, p);
    case Got(p, n) => SearchUndisturbed(tree, tree', changed, k, p);
    case Miss(p) => SearchUndisturbed(tree, tree', changed, k, p);
    case Hit(p, n) => SearchUndisturbed(tree, tree', changed, k, p); SearchRefs(tree, k, p);
    case Printing(stack, pending) => PrintUndisturbed(tree, tree', changed, stack, pending);
    case _ =>
  }

  /** What one thread holds for writing no other thread holds. */
  lemma Exclusive(locks: set<Hold>, threads: map<nat, Thread>, t: nat, u: nat, x: nat)
    requires LocksOk(locks, threads) && t in threads && u in threads && t != u
    requires x in HeldIds(threads[t].at) && Writes(threads[t].op, x)
    ensures x !in HeldIds(threads[u].at)
  {
    if x in HeldIds(threads[u].at) {
      assert Clash(Hold(t, x, true), x, Writes(threads[u].op, x));
    }
  }

  lemma OthersKeep(s: State, t: nat, tree': Tree<nat>, changed: set<nat>, at: Place)
    requires TreeOk(s.tree) && ThreadsOk(s.tree, s.threads) && Undisturbed(s.tree, tree', changed) && t in s.threads
    requires forall u :: u in s.threads && u != t ==> HeldIds(s.threads[u].at) !! changed
    requires forall u, x :: IsLoose(s.threads, u, x) ==> x !in Ids(tree')
    requires ThreadOk(tree', s.threads[t].(at := at))
    ensures ThreadsOk(tree', s.threads[t := s.threads[t].(at := at)])
  {
    forall u | u in s.threads && u != t
      ensures ThreadOk(tree', s.threads[u])
    {
      var l := Loose(s.threads[u].at);
      assert l.Some? ==> IsLoose(s.threads, u, l.value);
      OtherKeeps(s.tree, tree', changed, s.threads[u]);
    }
  }

  lemma InsertUndisturbed(tree: Tree<nat>, k: string, v: string, n: nat)
    requires TreeOk(tree) && Find(tree, k, HEAD).1.None? && n !in Ids(tree) && n != HEAD
    ensures Undisturbed(tree, Insert(tree, k, Record(n, k, v)), {Find(tree, k, HEAD).0})
  {
    InsertIds(tree, k, n, k, v);
    InsertCells(HEAD, tree, k, n, k, v);
    forall q, p | Passes(tree, q, p)
      ensures Passes(Insert(tree, k, Record(n, k, v)), q, p)
    {
      InsertPasses(tree, q, p, k, Record(n, k, v));
    }
  }

  lemma InsertTreeOk(tree: Tree<nat>, k: string, v: string, n: nat)
    requires TreeOk(tree) && Find(tree, k, HEAD).1.None? && n !in Ids(tree) && n != HEAD
    ensures var tree' := Insert(tree, k, Record(n, k, v));
      && TreeOk(tree') && Ids(tree') == Ids(tree) + {n}
      && k !in Contents(tree) && Contents(tree') == Contents(tree)[k := v]
  {
    FindIsLookup(tree, k, HEAD);
    LookupIsMapGet(tree, k);
    InsertIds(tree, k, n, k, v);
    InsertOrdered(tree, k, n, v);
    InsertContents(tree, k, n, k, v);
  }

  lemma LooseOutside(s: State)
    requires Good(s)
    ensures forall u, x :: IsLoose(s.threads, u, x) ==> x !in Ids(s.tree) && x != HEAD && x in s.live
  {
    forall u, x | IsLoose(s.threads, u, x)
      ensures x !in Ids(s.tree) && x != HEAD
    {
      assert ThreadOk(s.tree, s.threads[u]);
    }
  }

  lemma LinkOthers(s: State, t: nat, n: nat)
    requires Good(s) && Enabled(s, t, n) && s.threads[t].at.Miss? && s.threads[t].op.Add?
    ensures var s' := Act(s, t, n);
      TreeOk(s'.tree) && Ids(s'.tree) == Ids(s.tree) + {n} && ThreadsOk(s'.tree, s'.threads)
  {
    var th, s' := s.threads[t], Act(s, t, n);
    var k, v, p := th.op.key, th.op.value, th.at.p;
    AheadFacts(s.tree, k, p);
    InsertTreeOk(s.tree, k, v, n);
    InsertUndisturbed(s.tree, k, v, n);
    LooseOutside(s);
    forall u | u in s.threads && u != t
      ensures HeldIds(s.threads[u].at) !! {p}
    {
      Exclusive(s.locks, s.threads, t, u, p);
    }
    OthersKeep(s, t, s'.tree, {p}, s'.threads[t].at);
  }

  lemma LinkKeeps(s: State, t: nat, n: nat)
    requires Good(s) && Enabled(s, t, n) && s.threads[t].at.Miss? && s.threads[t].op.Add?
    ensures Good(Act(s, t, n))
  {
    var s' := Act(s, t, n);
    LinkOthers(s, t, n);
    SameKeeps(s.locks, s.threads, t, s'.threads[t].at);
    forall u, x ensures IsLoose(s'.threads, u, x) <==> IsLoose(s.threads, u, x) {}
  }

  lemma SpliceUndisturbed(tree: Tree<nat>, k: string)
    requires TreeOk(tree) && Lookup(tree, k).Some? && (SubtreeAt(tree, k).l.Leaf? || SubtreeAt(tree, k).r.Leaf?)
    ensures Undisturbed(tree, DbTree.Remove(tree, k), {Find(tree, k, HEAD).0, SubtreeAt(tree, k).id})
  {
    var tree' := DbTree.Remove(tree, k);
    RemoveTreeOk(tree, k);
    SpliceCells(HEAD, tree, k);
    forall q, p {:trigger Stands(tree', q, p)} | p != SubtreeAt(tree, k).id && Stands(tree, q, p)
      ensures Stands(tree', q, p)
    {
      if p != HEAD { RemovePasses(tree, q, p, k); }
    }
  }

  lemma RemoveTreeOk(tree: Tree<nat>, k: string)
    requires TreeOk(tree) && Lookup(tree, k).Some?
    ensures var tree', dead := DbTree.Remove(tree, k), Freed(SubtreeAt(tree, k));
      && TreeOk(tree') && dead in Ids(tree) && Ids(tree') == Ids(tree) - {dead}
      && k in Contents(tree) && Contents(tree') == Contents(tree) - {k}
  {
    LookupIsMapGet(tree, k);
    RemoveContents(tree, k);
    RemoveIds(tree, k);
  }

  /** What a thread that found its key for removal knows. */
  lemma HitFacts(tree: Tree<nat>, k: string, p: nat, x: nat)
    requires TreeOk(tree) && SearchOk(tree, k, p, Some(x)) && CellOf(tree, x).key == k
    ensures Lookup(tree, k).Some? && Find(tree, k, HEAD) == (p, Some(x)) && SubtreeAt(tree, k).id == x
    ensures var s := SubtreeAt(tree, k);
      && x in Ids(tree) && p != x && (p in Ids(tree) || p == HEAD)
      && (TwoChildren(tree, x) <==> s.l.Fork? && s.r.Fork?)
      && p !in Ids(s) && Freed(s) in Ids(s)
  {
    AheadFacts(tree, k, p);
    SearchRefs(tree, k, p);
    FindIsLookup(tree, k, HEAD);
    SubtreeFacts(tree, k, HEAD);
    RemoveRootIds(SubtreeAt(tree, k));
    ParentOutside(tree, k, HEAD);
  }

  lemma {:induction false} ParentOutside(t: Tree<nat>, k: string, parent: nat)
    requires DistinctIds(t) && Lookup(t, k).Some? && parent !in Ids(t)
    ensures Find(t, k, parent).0 !in Ids(SubtreeAt(t, k))
    decreases t
  {
    if k != t.key {
      ParentOutside(Side(t, k), k, t.id);
    }
  }

  lemma CutThread(tree: Tree<nat>, k: string, p: nat, x: nat)
    requires TreeOk(tree) && SearchOk(tree, k, p, Some(x)) && CellOf(tree, x).key == k
    ensures Lookup(tree, k).Some? && ClosingOk(DbTree.Remove(tree, k), [p, x], Some(Freed(SubtreeAt(tree, k))))
  {
    HitFacts(tree, k, p, x);
    RemoveTreeOk(tree, k);
  }

  /** A thread still searching, and the record it stands on. */
  function Standing(at: Place): Option<nat> {
    match at
    case At(p) => Some(p)
    case Want(p, _) => Some(p)
    case Got(p, _) => Some(p)
    case Miss(p) => Some(p)
    case Hit(p, _) => Some(p)
    case _ => None
  }

  /**
    A thread is out of the way of a removal of `k` at a record with two children: it neither holds
    nor awaits the successor, and if it searches to the right of the record, it is for a key beyond the successor's.
   */
  ghost predicate OutOfTheWay(tree: Tree<nat>, k: string, th: Thread)
    requires Lookup(tree, k).Some? && SubtreeAt(tree, k).r.Fork?
  {
    var s := SubtreeAt(tree, k);
    var m := Min(s.r);
    && m.id !in HeldIds(th.at) && Awaited(th.at) != Some(m.id)
    && (Standing(th.at).Some? && Standing(th.at).value in Ids(s.r) ==> Less(m.key, KeyOf(th.op)))
  }

  // ---------------------------------------------------------------- paths through the changed part

  lemma {:induction false} RemoveMinPasses(t: Tree<nat>, k: string, p: nat)
    requires Ordered(t) && t.Fork? && Passes(t, k, p) && p != Min(t).id && Less(Min(t).key, k)
    ensures Passes(RemoveMin(t), k, p)
  {
    if t.l.Leaf? {
      LessAsymmetric(t.key, k);
    } else if t.id != p && Less(k, t.key) {
      RemoveMinPasses(t.l, k, p);
    }
  }

  /** Searches for smaller keys, and for keys beyond the successor, find their way as before. */
  lemma RootPasses(s: Tree<nat>, k: string, p: nat)
    requires Ordered(s) && DistinctIds(s) && s.Fork? && s.l.Fork? && s.r.Fork?
    requires Passes(s, k, p) && p != s.id && p != Min(s.r).id
    requires p in Ids(s.r) ==> Less(Min(s.r).key, k)
    ensures Passes(RemoveRoot(s), k, p)
  {
    PassesIds(Side(s, k), k, p);
    MinIsLeast(s.r);
    var m := Min(s.r);
    if Less(k, s.key) {
      LessTrans(k, s.key, m.key);
      LessAsymmetric(k, m.key);
    } else {
      LessAsymmetric(m.key, k);
      RemoveMinPasses(s.r, k, p);
    }
  }

  lemma {:induction false} TreePasses(t: Tree<nat>, k: string, k': string, p: nat)
    requires Ordered(t) && DistinctIds(t) && Lookup(t, k').Some? && Passes(t, k, p)
    requires var s := SubtreeAt(t, k');
      s.l.Fork? && s.r.Fork? && p != s.id && p != Min(s.r).id && (p in Ids(s.r) ==> Less(Min(s.r).key, k))
    ensures Passes(DbTree.Remove(t, k'), k, p)
    decreases t
  {
    if k' == t.key {
      RootPasses(t, k, p);
    } else if t.id != p && Side(t, k) == Side(t, k') {
      TreePasses(Side(t, k), k, k', p);
    }
  }

  /** Only the record, the successor and the record above the successor change what they store. */
  lemma WalkCells(tree: Tree<nat>, k: string, y: nat)
    requires TreeOk(tree) && Lookup(tree, k).Some? && (y in Ids(tree) || y == HEAD)
    requires var s := SubtreeAt(tree, k); s.l.Fork? && s.r.Fork? && y != s.id && y != Min(s.r).id
    ensures var s, tree' := SubtreeAt(tree, k), DbTree.Remove(tree, k);
      && (y in Ids(tree') || y == HEAD)
      && CellOf(tree', y).key == CellOf(tree, y).key && CellOf(tree', y).right == CellOf(tree, y).right
      && (CellOf(tree', y).left != CellOf(tree, y).left ==> CellOf(tree, y).left == Some(Min(s.r).id))
  {
    var s := SubtreeAt(tree, k);
    SuccessorCells(HEAD, tree, k);
    RemoveTreeOk(tree, k);
    if y == MinHolder(s.r, s.id) {
      SubtreeFacts(tree, k, HEAD);
      HolderCell(s.r, s.id);
    }
  }

  lemma {:induction false} HolderCell(t: Tree<nat>, parent: nat)
    requires DistinctIds(t) && t.Fork? && MinHolder(t, parent) != parent
    ensures MinHolder(t, parent) in Ids(t) && Shape(t)[MinHolder(t, parent)].left == Some(Min(t).id)
    decreases t
  {
    if t.l.Fork? && t.l.l.Fork? {
      HolderInside(t.l, t.id);
      HolderCell(t.l, t.id);
    }
  }

  lemma {:induction false} HolderInside(t: Tree<nat>, parent: nat)
    requires t.Fork?
    ensures if t.l.Leaf? then MinHolder(t, parent) == parent else MinHolder(t, parent) in Ids(t)
    decreases t
  {
    if t.l.Fork? {
      HolderInside(t.l, t.id);
    }
  }

  lemma WalkSearch(tree: Tree<nat>, k': string, k: string, p: nat)
    requires TreeOk(tree) && Lookup(tree, k').Some? && Stands(tree, k, p)
    requires var s := SubtreeAt(tree, k');
      s.l.Fork? && s.r.Fork? && p != s.id && p != Min(s.r).id && (p in Ids(s.r) ==> Less(Min(s.r).key, k))
    ensures var s, tree' := SubtreeAt(tree, k'), DbTree.Remove(tree, k');
      && Stands(tree', k, p)
      && (Child(CellOf(tree', p), k) == Child(CellOf(tree, p), k) || Child(CellOf(tree, p), k) == Some(Min(s.r).id))
  {
    SearchRefs(tree, k, p);
    WalkCells(tree, k', p);
    if p != HEAD {
      TreePasses(tree, k, k', p);
    }
  }

  lemma WalkPrint(tree: Tree<nat>, k: string, stack: seq<Frame>, pending: Option<nat>)
    requires TreeOk(tree) && Lookup(tree, k).Some? && PrintOk(tree, stack, pending)
    requires var s := SubtreeAt(tree, k);
      && s.l.Fork? && s.r.Fork? && s.id !in StackIds(stack)
      && Min(s.r).id !in StackIds(stack) && pending != Some(Min(s.r).id)
    ensures PrintOk(DbTree.Remove(tree, k), stack, pending)
  {
    var tree', m := DbTree.Remove(tree, k), Min(SubtreeAt(tree, k).r).id;
    forall i {:trigger stack[i]} | 0 <= i < |stack|
      ensures stack[i].id != m
      ensures Branch(CellOf(tree', stack[i].id), stack[i].visit) == Branch(CellOf(tree, stack[i].id), stack[i].visit)
           || Branch(CellOf(tree, stack[i].id), stack[i].visit) == Some(m)
    {
      assert stack[i].id in StackIds(stack);
      PrintRefs(tree, stack, pending, stack[i].id);
      WalkCells(tree, k, stack[i].id);
    }
    forall i {:trigger LinkedFrames(tree', stack, i)} | 0 < i < |stack|
      ensures LinkedFrames(tree', stack, i)
    {
      assert LinkedFrames(tree, stack, i) && stack[i].id != m;
    }
  }

  /** A thread out of the way keeps its footing. */
  lemma WalkKeeps(tree: Tree<nat>, k: string, th: Thread)
    requires TreeOk(tree) && Lookup(tree, k).Some? && ThreadOk(tree, th)
    requires var s := SubtreeAt(tree, k); s.l.Fork? && s.r.Fork? && s.id !in HeldIds(th.at) && OutOfTheWay(tree, k, th)
    ensures ThreadOk(DbTree.Remove(tree, k), th)
  {
    RemoveTreeOk(tree, k);
    var q := KeyOf(th.op);
    match th.at
    case At(p) => WalkSearch(tree, k, q, p);
    case Want(p, n) => WalkSearch(tree, k, q, p);
    case Got(p, n) => WalkSearch(tree, k, q, p);
    case Miss(p) => WalkSearch(tree, k, q, p);
    case Hit(p, n) =>
      WalkSearch(tree, k, q, p);
      SearchRefs(tree, q, p);
      WalkCells(tree, k, n);
    case Reading(n) => WalkCells(tree, k, n);
    case Printing(stack, pending) => WalkPrint(tree, k, stack, pending);
    case _ =>
  }

  /** Thread `t` is about to remove a record with two children. */
  ghost predicate AtSuccessorWalk(s: State, t: nat) {
    && t in s.threads && s.threads[t].op.Remove? && s.threads[t].at.Hit?
    && TwoChildren(s.tree, s.threads[t].at.n)
  }

  lemma WalkFacts(s: State, t: nat)
    requires Good(s) && AtSuccessorWalk(s, t)
    ensures var k, x := s.threads[t].op.key, s.threads[t].at.n;
      && Lookup(s.tree, k).Some? && SubtreeAt(s.tree, k).id == x
      && SubtreeAt(s.tree, k).l.Fork? && SubtreeAt(s.tree, k).r.Fork?
      && Freed(SubtreeAt(s.tree, k)) == Min(SubtreeAt(s.tree, k).r).id
  {
    assert ThreadOk(s.tree, s.threads[t]);
    HitFacts(s.tree, s.threads[t].op.key, s.threads[t].at.p, s.threads[t].at.n);
  }

  lemma {:induction false} OffSpine(t: Tree<nat>, k: string, q: nat)
    requires Ordered(t) && Passes(t, k, q) && q !in Spine(t)
    ensures Less(Min(t).key, k)
  {
    MinIsLeast(t);
    if Less(k, t.key) {
      OffSpine(t.l, k, q);
    } else {
      LessTotal(k, t.key);
      if Min(t).key != t.key { LessTrans(Min(t).key, t.key, k); }
    }
  }

  lemma {:induction false} PassesRight(t: Tree<nat>, k: string, k': string, q: nat)
    requires Ordered(t) && DistinctIds(t) && Lookup(t, k').Some? && Passes(t, k, q) && q in Ids(SubtreeAt(t, k').r)
    ensures Passes(SubtreeAt(t, k').r, k, q)
    decreases t
  {
    SubtreeFacts(t, k', HEAD);
    PassesIds(t, k, q);
    if k' == t.key {
      PassesIds(Side(t, k), k, q);
    } else {
      SubtreeFacts(Side(t, k'), k', HEAD);
      PassesIds(Side(t, k), k, q);
      assert Side(t, k) == Side(t, k');
      PassesRight(Side(t, k'), k, k', q);
    }
  }

  /** A thread that is not on the spine is out of the way. */
  lemma SpineClear(tree: Tree<nat>, k: string, th: Thread)
    requires TreeOk(tree) && ThreadOk(tree, th) && Lookup(tree, k).Some? && SubtreeAt(tree, k).r.Fork?
    requires Outside(th.at, SpineIds(tree, k))
    ensures OutOfTheWay(tree, k, th)
  {
    var r := SubtreeAt(tree, k).r;
    SubtreeFacts(tree, k, HEAD);
    SpineEnds(r, HEAD);
    assert Spine(r)[|Spine(r)| - 1] in SpineIds(tree, k);
    var q := Standing(th.at);
    if q.Some? && q.value in Ids(r) {
      assert q.value in HeldIds(th.at);
      PassesRight(tree, KeyOf(th.op), k, q.value);
      OffSpine(r, KeyOf(th.op), q.value);
    }
  }

  /** Cutting out a record with at most one child. */
  lemma SpliceOthers(s: State, t: nat, n: nat)
    requires Good(s) && t in s.threads && s.threads[t].at.Hit? && s.threads[t].op.Remove?
    requires !TwoChildren(s.tree, s.threads[t].at.n)
    ensures var s' := Act(s, t, n); TreeOk(s'.tree) && ThreadsOk(s'.tree, s'.threads)
  {
    var th, s' := s.threads[t], Act(s, t, n);
    var k, p, x := th.op.key, th.at.p, th.at.n;
    assert ThreadOk(s.tree, th);
    HitFacts(s.tree, k, p, x);
    RemoveTreeOk(s.tree, k);
    SpliceUndisturbed(s.tree, k);
    LooseOutside(s);
    CutThread(s.tree, k, p, x);
    forall u | u in s.threads && u != t
      ensures HeldIds(s.threads[u].at) !! {p, x}
    {
      Exclusive(s.locks, s.threads, t, u, p);
      Exclusive(s.locks, s.threads, t, u, x);
    }
    OthersKeep(s, t, s'.tree, {p, x}, s'.threads[t].at);
  }

  /** Taking over the successor, when every other thread is out of the way. */
  lemma SuccessorOthers(s: State, t: nat, n: nat)
    requires Good(s) && AtSuccessorWalk(s, t) && Lookup(s.tree, s.threads[t].op.key).Some?
    requires SubtreeAt(s.tree, s.threads[t].op.key).r.Fork?
    requires forall u :: u in s.threads && u != t ==> OutOfTheWay(s.tree, s.threads[t].op.key, s.threads[u])
    ensures var s' := Act(s, t, n); TreeOk(s'.tree) && ThreadsOk(s'.tree, s'.threads)
  {
    var k, s', th := s.threads[t].op.key, Act(s, t, n), s.threads[t];
    WalkFacts(s, t);
    RemoveTreeOk(s.tree, k);
    CutThread(s.tree, k, th.at.p, th.at.n);
    forall u | u in s'.threads
      ensures ThreadOk(s'.tree, s'.threads[u])
    {
      if u != t {
        Exclusive(s.locks, s.threads, t, u, th.at.n);
        WalkKeeps(s.tree, k, s.threads[u]);
      }
    }
  }

  lemma CutOthers(s: State, t: nat, n: nat)
    requires Good(s) && Enabled(s, t, n) && s.threads[t].at.Hit? && s.threads[t].op.Remove?
    ensures var s' := Act(s, t, n); TreeOk(s'.tree) && ThreadsOk(s'.tree, s'.threads)
  {
    if TwoChildren(s.tree, s.threads[t].at.n) {
      SpineFreeClear(s, t);
      SuccessorOthers(s, t, n);
    } else {
      SpliceOthers(s, t, n);
    }
  }

  lemma SpineFreeClear(s: State, t: nat)
    requires Good(s) && AtSuccessorWalk(s, t) && SpineFree(s, t, s.threads[t].op.key)
    ensures Lookup(s.tree, s.threads[t].op.key).Some? && SubtreeAt(s.tree, s.threads[t].op.key).r.Fork?
    ensures forall u :: u in s.threads && u != t ==> OutOfTheWay(s.tree, s.threads[t].op.key, s.threads[u])
  {
    WalkFacts(s, t);
    forall u | u in s.threads && u != t
      ensures OutOfTheWay(s.tree, s.threads[t].op.key, s.threads[u])
    {
      assert ThreadOk(s.tree, s.threads[u]);
      SpineClear(s.tree, s.threads[t].op.key, s.threads[u]);
    }
  }

  lemma CutKeeps(s: State, t: nat, n: nat)
    requires Good(s) && Enabled(s, t, n) && s.threads[t].at.Hit? && s.threads[t].op.Remove?
    ensures Good(Act(s, t, n))
  {
    var th, s' := s.threads[t], Act(s, t, n);
    HitFacts(s.tree, th.op.key, th.at.p, th.at.n);
    CutOthers(s, t, n);
    SameKeeps(s.locks, s.threads, t, s'.threads[t].at);
    CutLive(s, t, th.op.key, s'.threads[t].at);
  }

  lemma CutLive(s: State, t: nat, k: string, at: Place)
    requires Good(s) && t in s.threads && Loose(s.threads[t].at).None? && Lookup(s.tree, k).Some?
    requires Loose(at) == Some(Freed(SubtreeAt(s.tree, k)))
    ensures LiveOk(DbTree.Remove(s.tree, k), s.threads[t := s.threads[t].(at := at)], s.live)
  {
    var threads, dead := s.threads[t := s.threads[t].(at := at)], Freed(SubtreeAt(s.tree, k));
    RemoveTreeOk(s.tree, k);
    forall u, x
      ensures IsLoose(threads, u, x) <==> IsLoose(s.threads, u, x) || (u == t && x == dead)
    {
    }
    LooseOutside(s);
    assert IsLoose(threads, t, dead);
  }

  // ---------------------------------------------------------------- every step, every run

  /** Every step of every thread keeps the invariant. */
  lemma StepKeeps(s: State, t: nat, n: nat)
    requires Good(s) && Enabled(s, t, n)
    ensures Good(Act(s, t, n))
  {
    var th := s.threads[t];
    match th.at
    case Start => StartKeeps(s, t, n);
    case At(_) => AtKeeps(s, t, n);
    case Want(_, _) => WantKeeps(s, t, n);
    case Got(_, _) => GotKeeps(s, t, n);
    case Miss(_) => if th.op.Add? { LinkKeeps(s, t, n); } else { MissKeeps(s, t, n); }
    case Hit(_, _) =>
      if th.op.Remove? {
        CutKeeps(s, t, n);
      } else if th.op.Add? {
        HitAddKeeps(s, t, n);
      } else {
        HitQueryKeeps(s, t, n);
      }
    case Reading(_) => ReadingKeeps(s, t, n);
    case Closing(nodes, _, _) => if nodes != [] { UnlockingKeeps(s, t, n); } else { DestroyKeeps(s, t, n); }
    case Printing(_, _) => PrintingKeeps(s, t, n);
  }
}
