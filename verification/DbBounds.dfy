/**
  How long an operation can take: however the other threads change the tree while it
  searches, a query, an add or a remove finishes after a bounded number of its own steps.
 */
module DbBounds {
  import opened Options
  import opened DbTree
  import opened DbConcurrent
  import opened DbSafety
  import opened DbHistory

  // ---------------------------------------------------------------- what lies ahead of a thread

  /** How many records the search for `k` still has below `p`. */
  function AheadSize(t: Tree<nat>, k: string, p: nat): nat {
    if Stands(t, k, p) then |Ids(Ahead(t, k, p))| else 0
  }

  /** An insertion adds at most its own record to what lies ahead. */
  lemma {:induction false} InsertAhead(t: Tree<nat>, k: string, p: nat, k': string, n: nat, v: string)
    requires DistinctIds(t) && n !in Ids(t) && Passes(t, k, p)
    ensures Passes(Insert(t, k', Record(n, k', v)), k, p)
    ensures Ids(AheadBelow(Insert(t, k', Record(n, k', v)), k, p)) <= Ids(AheadBelow(t, k, p)) + {n}
  {
    InsertPasses(t, k, p, k', Record(n, k', v));
    if t.id == p {
      InsertIds(Side(t, k'), k', n, k', v);
    } else {
      InsertAhead(Side(t, k), k, p, k', n, v);
    }
  }

  /** A removal elsewhere adds nothing to what lies ahead. */
  lemma {:induction false} RemoveAhead(t: Tree<nat>, k: string, p: nat, k': string)
    requires DistinctIds(t) && Passes(t, k, p) && Lookup(t, k').Some?
    requires var s := SubtreeAt(t, k'); p !in Ids(s) || ((s.l.Leaf? || s.r.Leaf?) && p != s.id)
    ensures Passes(DbTree.Remove(t, k'), k, p)
    ensures Ids(AheadBelow(DbTree.Remove(t, k'), k, p)) <= Ids(AheadBelow(t, k, p))
    decreases t
  {
    RemovePasses(t, k, p, k');
    if k' == t.key {
      PassesIds(t, k, p);
    } else if t.id == p {
      RemoveIds(Side(t, k'), k');
    } else if Side(t, k) == Side(t, k') {
      RemoveAhead(Side(t, k), k, p, k');
    }
  }

  lemma {:induction false} RemoveMinIds(t: Tree<nat>)
    requires t.Fork?
    ensures Ids(RemoveMin(t)) <= Ids(t)
  {
    if t.l.Fork? {
      RemoveMinIds(t.l);
    }
  }

  lemma {:induction false} RemoveMinAhead(t: Tree<nat>, k: string, p: nat)
    requires Ordered(t) && t.Fork? && Passes(t, k, p) && p != Min(t).id && Less(Min(t).key, k)
    ensures Passes(RemoveMin(t), k, p) && Ids(AheadBelow(RemoveMin(t), k, p)) <= Ids(AheadBelow(t, k, p))
  {
    RemoveMinPasses(t, k, p);
    if t.l.Leaf? {
      LessAsymmetric(t.key, k);
    } else {
      RemoveMinIds(t.l);
      if t.id != p && Less(k, t.key) {
        RemoveMinAhead(t.l, k, p);
      }
    }
  }

  lemma RootAhead(s: Tree<nat>, k: string, p: nat)
    requires Ordered(s) && DistinctIds(s) && s.Fork? && s.l.Fork? && s.r.Fork?
    requires Passes(s, k, p) && p != s.id && p != Min(s.r).id
    requires p in Ids(s.r) ==> Less(Min(s.r).key, k)
    ensures Passes(RemoveRoot(s), k, p) && Ids(AheadBelow(RemoveRoot(s), k, p)) <= Ids(AheadBelow(s, k, p))
  {
    RootPasses(s, k, p);
    PassesIds(Side(s, k), k, p);
    MinIsLeast(s.r);
    var m := Min(s.r);
    if Less(k, s.key) {
      LessTrans(k, s.key, m.key);
    } else {
      LessAsymmetric(m.key, k);
      RemoveMinAhead(s.r, k, p);
    }
  }

  /** Nor does taking over a successor, for a thread out of the way. */
  lemma {:induction false} TreeAhead(t: Tree<nat>, k: string, k': string, p: nat)
    requires Ordered(t) && DistinctIds(t) && Lookup(t, k').Some? && Passes(t, k, p)
    requires var s := SubtreeAt(t, k');
      s.l.Fork? && s.r.Fork? && p != s.id && p != Min(s.r).id && (p in Ids(s.r) ==> Less(Min(s.r).key, k))
    ensures Passes(DbTree.Remove(t, k'), k, p)
    ensures Ids(AheadBelow(DbTree.Remove(t, k'), k, p)) <= Ids(AheadBelow(t, k, p))
    decreases t
  {
    TreePasses(t, k, k', p);
    if k' == t.key {
      RootAhead(t, k, p);
    } else if t.id == p {
      RemoveIds(Side(t, k'), k');
    } else if Side(t, k) == Side(t, k') {
      TreeAhead(Side(t, k), k, k', p);
    }
  }

  /** Entering the child leaves strictly less ahead. */
  lemma AheadShrinks(t: Tree<nat>, k: string, p: nat)
    requires TreeOk(t) && Stands(t, k, p) && Ahead(t, k, p).Fork?
    ensures 0 < AheadSize(t, k, p)
    ensures Ahead(t, k, p).key != k ==> AheadSize(t, k, Ahead(t, k, p).id) < AheadSize(t, k, p)
  {
    var a := Ahead(t, k, p);
    AheadDistinct(t, k, p);
    assert a.id in Ids(a);
    if a.key != k {
      AheadNext(t, k, p);
      assert Ids(Side(a, k)) < Ids(a);
      StrictlyFewer(Ids(Side(a, k)), Ids(a));
    }
  }

  lemma StrictlyFewer(a: set<nat>, b: set<nat>)
    requires a < b
    ensures |a| < |b|
  {
    var x :| x in b && x !in a;
    assert a <= b - {x};
    Fewer(a, b - {x});
  }

  lemma {:induction false} Fewer(a: set<nat>, b: set<nat>)
    requires a <= b
    ensures |a| <= |b|
    decreases |b|
  {
    if x :| x in a {
      Fewer(a - {x}, b - {x});
    }
  }

  lemma AheadNext(t: Tree<nat>, k: string, p: nat)
    requires TreeOk(t) && Stands(t, k, p) && Ahead(t, k, p).Fork? && Ahead(t, k, p).key != k
    ensures var a := Ahead(t, k, p); a.id != HEAD && Stands(t, k, a.id) && Ahead(t, k, a.id) == Side(a, k)
  {
    AheadFacts(t, k, p);
    if p != HEAD {
      AheadNextBelow(t, k, p);
    }
  }

  lemma {:induction false} AheadNextBelow(t: Tree<nat>, k: string, p: nat)
    requires DistinctIds(t) && Passes(t, k, p) && AheadBelow(t, k, p).Fork? && AheadBelow(t, k, p).key != k
    ensures var a := AheadBelow(t, k, p);
      a.id in Ids(t) && a.id != t.id && Passes(t, k, a.id) && AheadBelow(t, k, a.id) == Side(a, k)
  {
    if t.id != p {
      AheadNextBelow(Side(t, k), k, p);
    }
  }

  lemma {:induction false} AheadDistinctBelow(t: Tree<nat>, k: string, p: nat)
    requires DistinctIds(t) && Passes(t, k, p)
    ensures DistinctIds(AheadBelow(t, k, p))
  {
    if t.id != p {
      AheadDistinctBelow(Side(t, k), k, p);
    }
  }

  lemma AheadDistinct(t: Tree<nat>, k: string, p: nat)
    requires TreeOk(t) && Stands(t, k, p)
    ensures DistinctIds(Ahead(t, k, p))
  {
    if p != HEAD {
      AheadDistinctBelow(t, k, p);
    }
  }

  // ---------------------------------------------------------------- what a print has still to visit

  /** The records below `id` on one side. */
  function Kids(t: Tree<nat>, id: nat, v: Visit): set<nat> {
    if t.Leaf? then {}
    else if t.id == id then (match v case Left => Ids(t.l) case Right => Ids(t.r) case Up => {})
    else Kids(t.l, id, v) + Kids(t.r, id, v)
  }

  function KidsOf(tree: Tree<nat>, id: nat, v: Visit): set<nat> {
    if id == HEAD then (if v.Right? then Ids(tree) else {}) else Kids(tree, id, v)
  }

  lemma {:induction false} KidsOutside(t: Tree<nat>, id: nat, v: Visit)
    requires id !in Ids(t)
    ensures Kids(t, id, v) == {}
  {
    if t.Fork? {
      KidsOutside(t.l, id, v);
      KidsOutside(t.r, id, v);
    }
  }

  lemma {:induction false} KidsInside(t: Tree<nat>, id: nat, v: Visit)
    ensures Kids(t, id, v) <= Ids(t)
  {
    if t.Fork? {
      KidsInside(t.l, id, v);
      KidsInside(t.r, id, v);
    }
  }

  lemma {:induction false} KidsUp(t: Tree<nat>, id: nat)
    ensures Kids(t, id, Up) == {}
  {
    if t.Fork? {
      KidsUp(t.l, id);
      KidsUp(t.r, id);
    }
  }

  /** Below a link are the record it leads to and what is below that. */
  lemma {:induction false} KidsOfChild(t: Tree<nat>, id: nat, v: Visit)
    requires DistinctIds(t) && id in Ids(t)
    ensures var c := Branch(Shape(t)[id], v);
      && (c.None? ==> Kids(t, id, v) == {})
      && (c.Some? ==> Kids(t, id, v) == {c.value} + Kids(t, c.value, Left) + Kids(t, c.value, Right))
      && (c.Some? ==> c.value in Ids(t) && c.value !in Kids(t, c.value, Left) + Kids(t, c.value, Right))
  {
    var c := Branch(Shape(t)[id], v);
    if id == t.id {
      if c.Some? { ChildKids(t, c.value); }
    } else {
      var s, o := if id in Ids(t.l) then t.l else t.r, if id in Ids(t.l) then t.r else t.l;
      KidsOfChild(s, id, v);
      assert Shape(t)[id] == Shape(s)[id];
      KidsOutside(o, id, v);
      if c.Some? {
        KidsInside(s, id, v);
        KidsOutside(o, c.value, Left);
        KidsOutside(o, c.value, Right);
      }
    }
  }

  lemma ChildKids(t: Tree<nat>, c: nat)
    requires DistinctIds(t) && t.Fork? && ((t.l.Fork? && c == t.l.id) || (t.r.Fork? && c == t.r.id))
    ensures var s := if t.l.Fork? && c == t.l.id then t.l else t.r;
      Kids(t, c, Left) == Ids(s.l) && Kids(t, c, Right) == Ids(s.r)
  {
    if t.l.Fork? && c == t.l.id {
      KidsOutside(t.r, c, Left);
      KidsOutside(t.r, c, Right);
    } else {
      KidsOutside(t.l, c, Left);
      KidsOutside(t.l, c, Right);
    }
  }

  lemma BranchKids(tree: Tree<nat>, id: nat, v: Visit)
    requires TreeOk(tree) && (id in Ids(tree) || id == HEAD)
    ensures var c := Branch(CellOf(tree, id), v);
      && (c.None? ==> KidsOf(tree, id, v) == {})
      && (c.Some? ==> KidsOf(tree, id, v) == {c.value} + KidsOf(tree, c.value, Left) + KidsOf(tree, c.value, Right))
      && (c.Some? ==> c.value in Ids(tree) && c.value !in KidsOf(tree, c.value, Left) + KidsOf(tree, c.value, Right))
  {
    if id != HEAD {
      KidsOfChild(tree, id, v);
    }
  }

  lemma {:induction false} KidsApart(t: Tree<nat>, id: nat)
    requires DistinctIds(t)
    ensures Kids(t, id, Left) !! Kids(t, id, Right)
  {
    if t.Fork? {
      KidsInside(t.l, id, Left);
      KidsInside(t.l, id, Right);
      KidsInside(t.r, id, Left);
      KidsInside(t.r, id, Right);
      KidsApart(t.l, id);
      KidsApart(t.r, id);
    }
  }

  /** The right sides still to come of the records whose left side is being printed. */
  function RightsToCome(tree: Tree<nat>, stack: seq<Frame>): set<nat> {
    if stack == [] then {}
    else
      var top := stack[|stack| - 1];
      RightsToCome(tree, stack[..|stack| - 1]) + if top.visit.Left? then KidsOf(tree, top.id, Right) else {}
  }

  /** The records a print has not entered yet. */
  function ToVisit(tree: Tree<nat>, stack: seq<Frame>): set<nat> {
    RightsToCome(tree, stack)
    + if stack == [] then {} else KidsOf(tree, stack[|stack| - 1].id, stack[|stack| - 1].visit)
  }

  function VisitWeight(v: Visit): nat {
    match v
    case Left => 3
    case Right => 2
    case Up => 1
  }

  function StackWeight(stack: seq<Frame>): nat {
    if stack == [] then 0 else StackWeight(stack[..|stack| - 1]) + VisitWeight(stack[|stack| - 1].visit)
  }

  function PrintLeft(tree: Tree<nat>, stack: seq<Frame>, pending: Option<nat>): nat {
    6 * |ToVisit(tree, stack)| + StackWeight(stack) + if pending.None? then 1 else 0
  }

  /** What is below the top of the stack is below the record above it, on the side being printed. */
  lemma BelowAbove(tree: Tree<nat>, stack: seq<Frame>, y: nat)
    requires TreeOk(tree) && Chain(tree, stack) && 1 < |stack|
    requires var top := stack[|stack| - 1]; y in KidsOf(tree, top.id, top.visit)
    ensures var above := stack[|stack| - 2]; y in KidsOf(tree, above.id, above.visit)
  {
    var i := |stack| - 1;
    var top, above := stack[i], stack[i - 1];
    assert LinkedFrames(tree, stack, i);
    KidsUp(tree, top.id);
    ChainLevel(tree, stack, i - 1);
    BranchKids(tree, above.id, above.visit);
    assert top.visit == Left || top.visit == Right;
  }

  /** What is being printed on one side of the top is not on the other. */
  lemma NotBoth(tree: Tree<nat>, top: Frame, y: nat)
    requires TreeOk(tree) && y in KidsOf(tree, top.id, top.visit)
    ensures top.visit.Left? ==> y !in KidsOf(tree, top.id, Right)
  {
    KidsApart(tree, top.id);
  }

  /** What is about to be entered is not among the right sides to come. */
  lemma {:induction false} ChildNotToCome(tree: Tree<nat>, stack: seq<Frame>, y: nat)
    requires TreeOk(tree) && Chain(tree, stack)
    requires stack != [] ==> y in KidsOf(tree, stack[|stack| - 1].id, stack[|stack| - 1].visit)
    ensures y !in RightsToCome(tree, stack)
    decreases |stack|
  {
    if stack != [] {
      var top, init := stack[|stack| - 1], stack[..|stack| - 1];
      NotBoth(tree, top, y);
      ChainPrefix(tree, stack);
      if init != [] { BelowAbove(tree, stack, y); }
      ChildNotToCome(tree, init, y);
    }
  }

  lemma PushToVisit(tree: Tree<nat>, stack: seq<Frame>, c: nat)
    requires TreeOk(tree) && PrintOk(tree, stack, Some(c))
    ensures ToVisit(tree, stack + [Frame(c, Left)]) == ToVisit(tree, stack) - {c} && c in ToVisit(tree, stack)
    ensures StackWeight(stack + [Frame(c, Left)]) == StackWeight(stack) + 3
  {
    var top, stack' := stack[|stack| - 1], stack + [Frame(c, Left)];
    assert stack'[..|stack' | - 1] == stack;
    ChainLevel(tree, stack, |stack| - 1);
    BranchKids(tree, top.id, top.visit);
    ChildNotToCome(tree, stack, c);
  }

  lemma AdvanceToVisit(tree: Tree<nat>, stack: seq<Frame>)
    requires stack != [] && !stack[|stack| - 1].visit.Up?
    ensures ToVisit(tree, Advance(stack)) <= RightsToCome(tree, stack)
    ensures StackWeight(Advance(stack)) + 1 == StackWeight(stack)
  {
    var stack' := Advance(stack);
    assert stack'[..|stack'| - 1] == stack[..|stack| - 1];
    KidsUp(tree, stack[|stack| - 1].id);
  }

  lemma ReadsNothing(tree: Tree<nat>, stack: seq<Frame>)
    requires stack != [] && !stack[|stack| - 1].visit.Up?
    ensures PrintLeft(tree, Advance(stack), None) < PrintLeft(tree, stack, None)
  {
    AdvanceToVisit(tree, stack);
    Fewer(ToVisit(tree, Advance(stack)), ToVisit(tree, stack));
  }

  lemma Pops(tree: Tree<nat>, stack: seq<Frame>)
    requires Chain(tree, stack) && stack != []
    ensures PrintLeft(tree, Advance(stack[..|stack| - 1]), None) < PrintLeft(tree, stack, None)
  {
    var top, init := stack[|stack| - 1], stack[..|stack| - 1];
    if init != [] {
      assert init[|init| - 1] == stack[|stack| - 2];
      assert LinkedFrames(tree, stack, |stack| - 1);
      AdvanceToVisit(tree, init);
      Fewer(ToVisit(tree, Advance(init)), ToVisit(tree, stack));
    } else {
      assert Advance(init) == [];
    }
  }

  lemma Pushes(tree: Tree<nat>, stack: seq<Frame>, c: nat)
    requires TreeOk(tree) && PrintOk(tree, stack, Some(c))
    ensures PrintLeft(tree, stack + [Frame(c, Left)], None) < PrintLeft(tree, stack, Some(c))
  {
    PushToVisit(tree, stack, c);
  }

  /** Every step of a print uses up one of its steps. */
  lemma PrintStep(s: State, t: nat, n: nat)
    requires TreeOk(s.tree) && t in s.threads && s.threads[t].at.Printing? && ThreadOk(s.tree, s.threads[t])
    ensures t in Act(s, t, n).threads && Act(s, t, n).tree == s.tree
    ensures var at, at' := s.threads[t].at, Act(s, t, n).threads[t].at;
      if at'.Printing? then PrintLeft(s.tree, at'.stack, at'.pending) < PrintLeft(s.tree, at.stack, at.pending)
      else at'.Printed? && 0 < PrintLeft(s.tree, at.stack, at.pending)
  {
    var stack, pending := s.threads[t].at.stack, s.threads[t].at.pending;
    if pending.Some? {
      Pushes(s.tree, stack, pending.value);
    } else if stack != [] {
      if stack[|stack| - 1].visit.Up? {
        Pops(s.tree, stack);
      } else {
        ReadsNothing(s.tree, stack);
      }
    }
  }

  // ---------------------------------------------------------------- what others add to it

  lemma {:induction false} InsertKids(t: Tree<nat>, k: string, n: nat, v: string, id: nat, w: Visit)
    requires n !in Ids(t) && DistinctIds(t) && id != n
    ensures Kids(Insert(t, k, Record(n, k, v)), id, w) <= Kids(t, id, w) + {n}
  {
    if t.Fork? {
      InsertIds(if Less(k, t.key) then t.l else t.r, k, n, k, v);
      InsertKids(if Less(k, t.key) then t.l else t.r, k, n, v, id, w);
    }
  }

  lemma {:induction false} RemoveMinKids(t: Tree<nat>, id: nat, w: Visit)
    requires DistinctIds(t) && t.Fork?
    ensures Kids(RemoveMin(t), id, w) <= Kids(t, id, w)
  {
    if t.l.Leaf? {
      if id == t.id { KidsOutside(t.r, id, w); }
    } else {
      RemoveMinIds(t.l);
      RemoveMinKids(t.l, id, w);
    }
  }

  lemma {:induction false} RemoveKids(t: Tree<nat>, k: string, id: nat, w: Visit)
    requires DistinctIds(t) && Lookup(t, k).Some?
    ensures Kids(DbTree.Remove(t, k), id, w) <= Kids(t, id, w)
    decreases t
  {
    if k == t.key {
      if id == t.id {
        KidsOutside(t.l, id, w);
        KidsOutside(t.r, id, w);
      }
      if t.r.Fork? {
        RemoveMinIds(t.r);
        RemoveMinKids(t.r, id, w);
      }
    } else {
      RemoveIds(Side(t, k), k);
      RemoveKids(Side(t, k), k, id, w);
    }
  }

  /** What is below any record on any side grows at most by `more`. */
  ghost predicate GrowsBy(tree: Tree<nat>, tree': Tree<nat>, more: set<nat>) {
    && Ids(tree') <= Ids(tree) + more
    && forall id, w {:trigger Kids(tree', id, w)} :: id !in more ==> Kids(tree', id, w) <= Kids(tree, id, w) + more
  }

  lemma {:induction false} ToVisitGrows(tree: Tree<nat>, tree': Tree<nat>, more: set<nat>, stack: seq<Frame>)
    requires GrowsBy(tree, tree', more) && StackIds(stack) !! more
    ensures RightsToCome(tree', stack) <= RightsToCome(tree, stack) + more
    ensures ToVisit(tree', stack) <= ToVisit(tree, stack) + more
    decreases |stack|
  {
    if stack != [] {
      var init, top := stack[..|stack| - 1], stack[|stack| - 1];
      assert forall i {:trigger init[i]} :: 0 <= i < |init| ==> init[i] == stack[i];
      assert top.id in StackIds(stack);
      ToVisitGrows(tree, tree', more, init);
      assert top.id !in more;
    }
  }

  lemma InsertGrows(tree: Tree<nat>, k: string, n: nat, v: string)
    requires TreeOk(tree) && n !in Ids(tree)
    ensures GrowsBy(tree, Insert(tree, k, Record(n, k, v)), {n})
  {
    InsertIds(tree, k, n, k, v);
    var tree' := Insert(tree, k, Record(n, k, v));
    forall id, w {:trigger Kids(tree', id, w)} | id !in {n}
      ensures Kids(tree', id, w) <= Kids(tree, id, w) + {n}
    {
      InsertKids(tree, k, n, v, id, w);
    }
  }

  lemma RemoveGrows(tree: Tree<nat>, k: string)
    requires TreeOk(tree) && Lookup(tree, k).Some?
    ensures GrowsBy(tree, DbTree.Remove(tree, k), {})
  {
    RemoveTreeOk(tree, k);
    var tree' := DbTree.Remove(tree, k);
    forall id, w {:trigger Kids(tree', id, w)}
      ensures Kids(tree', id, w) <= Kids(tree, id, w) + {}
    {
      RemoveKids(tree, k, id, w);
    }
  }

  // ---------------------------------------------------------------- steps left

  /** A bound on the steps an operation still takes if nobody else moves. */
  function StepsLeft(tree: Tree<nat>, th: Thread): nat {
    var k := KeyOf(th.op);
    match th.at
    case Start => 6 * |Ids(tree)| + 11
    case At(p) => 4 * AheadSize(tree, k, p) + 10
    case Want(p, _) => 4 * AheadSize(tree, k, p) + 9
    case Got(p, _) => 4 * AheadSize(tree, k, p) + 8
    case Miss(_) => 9
    case Hit(_, _) => 9
    case Reading(_) => 8
    case Closing(nodes, _, _) => |nodes| + 1
    case Printing(stack, pending) => PrintLeft(tree, stack, pending)
    case Done(_) => 0
    case Printed => 0
  }

  /** The record a searching thread stands on. */
  function Searching(at: Place): Option<nat> {
    match at
    case At(p) => Some(p)
    case Want(p, _) => Some(p)
    case Got(p, _) => Some(p)
    case _ => None
  }

  /** Each step of a thread uses up one of its steps. */
  lemma OwnStep(s: State, t: nat, n: nat)
    requires Good(s) && Enabled(s, t, n)
    ensures t in Act(s, t, n).threads
    ensures StepsLeft(Act(s, t, n).tree, Act(s, t, n).threads[t]) < StepsLeft(s.tree, s.threads[t])
  {
    assert ThreadOk(s.tree, s.threads[t]);
    var at := s.threads[t].at;
    if at.Got? {
      GotAhead(s.tree, KeyOf(s.threads[t].op), at.p, at.n);
      GotStep(s, t, n);
    } else if at.Start? {
      StartStep(s, t, n);
    } else if at.Printing? {
      PrintStep(s, t, n);
    } else if at.At? || at.Want? {
      SeekStep(s, t, n);
    } else if at.Closing? {
      ClosingStep(s, t, n);
    } else {
      LastStep(s, t, n);
    }
  }

  lemma StartStep(s: State, t: nat, n: nat)
    requires t in s.threads && s.threads[t].at.Start?
    ensures t in Act(s, t, n).threads
    ensures StepsLeft(Act(s, t, n).tree, Act(s, t, n).threads[t]) < StepsLeft(s.tree, s.threads[t])
  {
    FirstFrame(s.tree);
  }

  lemma FirstFrame(tree: Tree<nat>)
    ensures PrintLeft(tree, [Frame(HEAD, Left)], None) == 6 * |Ids(tree)| + 4
  {
    var stack := [Frame(HEAD, Left)];
    var init := stack[..|stack| - 1];
    assert init == [] && stack[|stack| - 1] == Frame(HEAD, Left);
    assert RightsToCome(tree, init) == {} && StackWeight(init) == 0;
    assert RightsToCome(tree, stack) == Ids(tree);
    assert ToVisit(tree, stack) == Ids(tree);
  }

  lemma SeekStep(s: State, t: nat, n: nat)
    requires t in s.threads && (s.threads[t].at.At? || s.threads[t].at.Want?)
    ensures t in Act(s, t, n).threads
    ensures StepsLeft(Act(s, t, n).tree, Act(s, t, n).threads[t]) < StepsLeft(s.tree, s.threads[t])
  {
  }

  /** Taking the child's lock pays off: less lies ahead of it. */
  lemma GotStep(s: State, t: nat, n: nat)
    requires t in s.threads && s.threads[t].at.Got?
    requires var k, p, x := KeyOf(s.threads[t].op), s.threads[t].at.p, s.threads[t].at.n;
      0 < AheadSize(s.tree, k, p) && (CellOf(s.tree, x).key != k ==> AheadSize(s.tree, k, x) < AheadSize(s.tree, k, p))
    ensures t in Act(s, t, n).threads
    ensures StepsLeft(Act(s, t, n).tree, Act(s, t, n).threads[t]) < StepsLeft(s.tree, s.threads[t])
  {
  }

  lemma GotAhead(tree: Tree<nat>, k: string, p: nat, x: nat)
    requires TreeOk(tree) && SearchOk(tree, k, p, Some(x))
    ensures 0 < AheadSize(tree, k, p)
    ensures CellOf(tree, x).key != k ==> AheadSize(tree, k, x) < AheadSize(tree, k, p)
  {
    AheadFacts(tree, k, p);
    AheadShrinks(tree, k, p);
  }

  lemma LastStep(s: State, t: nat, n: nat)
    requires t in s.threads && (s.threads[t].at.Miss? || s.threads[t].at.Hit? || s.threads[t].at.Reading?)
    ensures t in Act(s, t, n).threads
    ensures StepsLeft(Act(s, t, n).tree, Act(s, t, n).threads[t]) < StepsLeft(s.tree, s.threads[t])
  {
    var at' := Act(s, t, n).threads[t].at;
    assert at'.Reading? || (at'.Closing? && |at'.nodes| <= 2);
  }

  lemma ClosingStep(s: State, t: nat, n: nat)
    requires t in s.threads && s.threads[t].at.Closing?
    ensures t in Act(s, t, n).threads
    ensures StepsLeft(Act(s, t, n).tree, Act(s, t, n).threads[t]) < StepsLeft(s.tree, s.threads[t])
  {
  }

  /** A step of another thread adds at most six steps, and none unless it takes effect. */
  lemma OtherStep(s: State, u: nat, n: nat, t: nat)
    requires Good(s) && Enabled(s, u, n) && t in s.threads && t != u
    ensures var s' := Act(s, u, n);
      && t in s'.threads && s'.threads[t] == s.threads[t]
      && StepsLeft(s'.tree, s'.threads[t]) <= StepsLeft(s.tree, s.threads[t]) + 6 * (|s'.history| - |s.history|)
      && |Ids(s'.tree)| <= |Ids(s.tree)| + (|s'.history| - |s.history|)
  {
    var at := s.threads[u].at;
    if at.Miss? && s.threads[u].op.Add? {
      LinkSteps(s, u, n, t);
    } else if at.Hit? && s.threads[u].op.Remove? {
      CutSteps(s, u, n, t);
    } else {
      QuietSteps(s, u, n, t);
    }
  }

  lemma QuietSteps(s: State, u: nat, n: nat, t: nat)
    requires u in s.threads && t in s.threads && t != u
    requires !(s.threads[u].at.Miss? && s.threads[u].op.Add?) && !(s.threads[u].at.Hit? && s.threads[u].op.Remove?)
    ensures var s' := Act(s, u, n);
      t in s'.threads && s'.threads[t] == s.threads[t] && s'.tree == s.tree && |s.history| <= |s'.history|
  {
  }

  /** One record more at most, everywhere. */
  lemma OneMoreSteps(tree: Tree<nat>, tree': Tree<nat>, more: set<nat>, th: Thread)
    requires GrowsBy(tree, tree', more) && |more| <= 1 && HeldIds(th.at) !! more
    requires var p := Searching(th.at);
      p.Some? ==> AheadSize(tree', KeyOf(th.op), p.value) <= AheadSize(tree, KeyOf(th.op), p.value) + 1
    ensures StepsLeft(tree', th) <= StepsLeft(tree, th) + 6 && |Ids(tree')| <= |Ids(tree)| + 1
  {
    OneMore(Ids(tree'), Ids(tree), more);
    if th.at.Printing? { OneMorePrint(tree, tree', more, th.at.stack, th.at.pending); }
    CountedSteps(tree, tree', th);
  }

  lemma CountedSteps(tree: Tree<nat>, tree': Tree<nat>, th: Thread)
    requires |Ids(tree')| <= |Ids(tree)| + 1
    requires var p := Searching(th.at);
      p.Some? ==> AheadSize(tree', KeyOf(th.op), p.value) <= AheadSize(tree, KeyOf(th.op), p.value) + 1
    requires th.at.Printing? ==>
      PrintLeft(tree', th.at.stack, th.at.pending) <= PrintLeft(tree, th.at.stack, th.at.pending) + 6
    ensures StepsLeft(tree', th) <= StepsLeft(tree, th) + 6
  {
  }

  lemma OneMorePrint(tree: Tree<nat>, tree': Tree<nat>, more: set<nat>, stack: seq<Frame>, pending: Option<nat>)
    requires GrowsBy(tree, tree', more) && |more| <= 1 && StackIds(stack) !! more
    ensures PrintLeft(tree', stack, pending) <= PrintLeft(tree, stack, pending) + 6
  {
    ToVisitGrows(tree, tree', more, stack);
    OneMore(ToVisit(tree', stack), ToVisit(tree, stack), more);
  }

  lemma OneMore(a: set<nat>, b: set<nat>, more: set<nat>)
    requires a <= b + more && |more| <= 1
    ensures |a| <= |b| + 1
  {
    Fewer(a, b + more);
    assert |b + more| <= |b| + |more|;
  }

  lemma LinkSteps(s: State, u: nat, n: nat, t: nat)
    requires Good(s) && Enabled(s, u, n) && s.threads[u].at.Miss? && s.threads[u].op.Add? && t in s.threads && t != u
    ensures var s' := Act(s, u, n);
      && t in s'.threads && s'.threads[t] == s.threads[t] && |s'.history| == |s.history| + 1
      && StepsLeft(s'.tree, s.threads[t]) <= StepsLeft(s.tree, s.threads[t]) + 6 && |Ids(s'.tree)| <= |Ids(s.tree)| + 1
  {
    var op := s.threads[u].op;
    NotFresh(s, t, n);
    LinkAhead(s, t, op.key, op.value, n);
    InsertGrows(s.tree, op.key, n, op.value);
    OneMoreSteps(s.tree, Insert(s.tree, op.key, Record(n, op.key, op.value)), {n}, s.threads[t]);
  }

  lemma LinkAhead(s: State, t: nat, k: string, v: string, n: nat)
    requires Good(s) && t in s.threads && n !in s.live
    ensures var th := s.threads[t]; var p := Searching(th.at);
      p.Some? ==>
        AheadSize(Insert(s.tree, k, Record(n, k, v)), KeyOf(th.op), p.value)
        <= AheadSize(s.tree, KeyOf(th.op), p.value) + 1
  {
    assert ThreadOk(s.tree, s.threads[t]);
    var p := Searching(s.threads[t].at);
    if p.Some? { InsertSize(s.tree, k, n, v, KeyOf(s.threads[t].op), p.value); }
  }

  /** What a thread holds exists, so malloc does not return it. */
  lemma NotFresh(s: State, t: nat, n: nat)
    requires Good(s) && t in s.threads && n !in s.live
    ensures n !in HeldIds(s.threads[t].at)
  {
    if n in HeldIds(s.threads[t].at) {
      Referenced(s.tree, s.threads[t], n);
      assert IsLoose(s.threads, t, n);
    }
  }

  lemma CutSteps(s: State, u: nat, n: nat, t: nat)
    requires Good(s) && Enabled(s, u, n) && s.threads[u].at.Hit? && s.threads[u].op.Remove? && t in s.threads && t != u
    ensures var s' := Act(s, u, n);
      && t in s'.threads && s'.threads[t] == s.threads[t] && |s'.history| == |s.history| + 1
      && StepsLeft(s'.tree, s.threads[t]) <= StepsLeft(s.tree, s.threads[t]) + 6 && |Ids(s'.tree)| <= |Ids(s.tree)| + 1
  {
    assert ThreadOk(s.tree, s.threads[u]);
    CutFound(s.tree, s.threads[u]);
    CutAhead(s, u, n, t);
    RemoveGrows(s.tree, s.threads[u].op.key);
    OneMoreSteps(s.tree, DbTree.Remove(s.tree, s.threads[u].op.key), {}, s.threads[t]);
  }

  lemma CutAhead(s: State, u: nat, n: nat, t: nat)
    requires Good(s) && Enabled(s, u, n) && s.threads[u].at.Hit? && s.threads[u].op.Remove? && t in s.threads && t != u
    ensures var tree', th := DbTree.Remove(s.tree, s.threads[u].op.key), s.threads[t];
      Searching(th.at).Some? ==>
        AheadSize(tree', KeyOf(th.op), Searching(th.at).value)
        <= AheadSize(s.tree, KeyOf(th.op), Searching(th.at).value)
  {
    var th, hit := s.threads[t], s.threads[u];
    assert ThreadOk(s.tree, th) && ThreadOk(s.tree, hit);
    HitFacts(s.tree, hit.op.key, hit.at.p, hit.at.n);
    var p := Searching(th.at);
    if p.Some? {
      Exclusive(s.locks, s.threads, u, t, hit.at.n);
      if TwoChildren(s.tree, hit.at.n) {
        SpineFreeClear(s, u);
        assert Standing(th.at) == p;
        TakeOverSize(s.tree, hit.op.key, KeyOf(th.op), p.value);
      } else {
        SpliceSize(s.tree, hit.op.key, KeyOf(th.op), p.value);
      }
    }
  }

  lemma CutFound(tree: Tree<nat>, th: Thread)
    requires TreeOk(tree) && ThreadOk(tree, th) && th.at.Hit? && th.op.Remove?
    ensures Lookup(tree, th.op.key).Some?
  {
    HitFacts(tree, th.op.key, th.at.p, th.at.n);
  }

  lemma InsertSize(tree: Tree<nat>, k': string, n: nat, v: string, k: string, p: nat)
    requires TreeOk(tree) && n !in Ids(tree) && n != HEAD
    ensures Stands(tree, k, p) ==> AheadSize(Insert(tree, k', Record(n, k', v)), k, p) <= AheadSize(tree, k, p) + 1
  {
    InsertIds(tree, k', n, k', v);
    if p != HEAD && Passes(tree, k, p) {
      InsertAhead(tree, k, p, k', n, v);
      Fewer(Ids(AheadBelow(Insert(tree, k', Record(n, k', v)), k, p)), Ids(AheadBelow(tree, k, p)) + {n});
    }
  }

  lemma SpliceSize(tree: Tree<nat>, k': string, k: string, p: nat)
    requires TreeOk(tree) && Lookup(tree, k').Some? && Stands(tree, k, p) && p != SubtreeAt(tree, k').id
    requires SubtreeAt(tree, k').l.Leaf? || SubtreeAt(tree, k').r.Leaf?
    ensures AheadSize(DbTree.Remove(tree, k'), k, p) <= AheadSize(tree, k, p)
  {
    RemoveTreeOk(tree, k');
    if p == HEAD {
      Fewer(Ids(DbTree.Remove(tree, k')), Ids(tree));
    } else {
      RemoveAhead(tree, k, p, k');
      Fewer(Ids(AheadBelow(DbTree.Remove(tree, k'), k, p)), Ids(AheadBelow(tree, k, p)));
    }
  }

  lemma TakeOverSize(tree: Tree<nat>, k': string, k: string, p: nat)
    requires TreeOk(tree) && Lookup(tree, k').Some? && Stands(tree, k, p)
    requires var s := SubtreeAt(tree, k');
      s.l.Fork? && s.r.Fork? && p != s.id && p != Min(s.r).id && (p in Ids(s.r) ==> Less(Min(s.r).key, k))
    ensures AheadSize(DbTree.Remove(tree, k'), k, p) <= AheadSize(tree, k, p)
  {
    RemoveTreeOk(tree, k');
    if p == HEAD {
      Fewer(Ids(DbTree.Remove(tree, k')), Ids(tree));
    } else {
      TreeAhead(tree, k, k', p);
      Fewer(Ids(AheadBelow(DbTree.Remove(tree, k'), k, p)), Ids(AheadBelow(tree, k, p)));
    }
  }

  // ---------------------------------------------------------------- how many operations can take effect

  ghost function Actors(h: seq<Event>): set<nat> {
    set i | 0 <= i < |h| :: h[i].t
  }

  lemma {:induction false} ActorCount(h: seq<Event>)
    requires forall i, j {:trigger h[i], h[j]} :: 0 <= i < j < |h| ==> h[i].t != h[j].t
    ensures |Actors(h)| == |h|
  {
    if h != [] {
      var g, last := h[..|h| - 1], h[|h| - 1];
      assert forall i {:trigger g[i]} {:trigger h[i]} :: 0 <= i < |g| ==> g[i] == h[i];
      ActorCount(g);
      assert Actors(h) == Actors(g) + {last.t};
      assert last.t !in Actors(g);
    } else {
      assert Actors(h) == {};
    }
  }

  lemma EventsBounded(s: State)
    requires Recorded(s.threads, s.history)
    ensures |s.history| <= |s.threads.Keys|
  {
    ActorCount(s.history);
    Fewer(Actors(s.history), s.threads.Keys);
  }
}
