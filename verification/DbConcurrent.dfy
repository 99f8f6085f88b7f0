/**
  The database shared by threads, as a specification: what threads do to the tree as a
  value.  Every record has a read-write lock; a search holds a record while it waits for
  the lock of the child it will enter, and lets the record go once it holds the child.
  A state gives the tree, the locks held, what each thread is doing, the records in
  existence and the order in which operations took effect.  Here the removal of a record
  with two children is one step; DbMachine takes it apart into the reads and writes of the
  code, over records in memory, and DbRefines shows that it does the same.
 */
module DbConcurrent {
  import opened Options
  import opened DbTree

  /** The dummy head, which is never freed. */
  const HEAD: nat := 0

  datatype Op = Query(key: string) | Add(key: string, value: string) | Remove(key: string) | Print

  datatype Reply = Value(value: string) | NotFound | Flag(ok: bool)

  datatype Visit = Left | Right | Up

  /** A record whose print is under way, and how far it has got. */
  datatype Frame = Frame(id: nat, visit: Visit)

  datatype Place =
    | Start                          // waits for the head
    | At(p: nat)                     // holds p, about to read its link
    | Want(p: nat, n: nat)           // holds p, waits for its child n
    | Got(p: nat, n: nat)            // holds both, about to compare n's key
    | Miss(p: nat)                   // holds p, whose link is NULL
    | Hit(p: nat, n: nat)            // holds both, n has the key
    | Reading(n: nat)                // a query that let the parent go
    | Closing(nodes: seq<nat>, loose: Option<nat>, reply: Reply)   // unlocks the nodes in turn, then destroys `loose`
    | Printing(stack: seq<Frame>, pending: Option<nat>)
    | Done(reply: Reply)
    | Printed

  datatype Thread = Thread(op: Op, at: Place)

  datatype Hold = Hold(t: nat, id: nat, write: bool)

  datatype Event = Event(t: nat, op: Op, reply: Reply)

  datatype State = State(tree: Tree<nat>, locks: set<Hold>, threads: map<nat, Thread>, live: set<nat>,
                         history: seq<Event>)

  // ---------------------------------------------------------------- locks

  /** Search takes the head for writing, and other records for writing unless it serves a query; print only reads. */
  predicate Writes(op: Op, id: nat) {
    match op
    case Print => false
    case Query(_) => id == HEAD
    case _ => true
  }

  predicate Clash(h: Hold, id: nat, write: bool) {
    h.id == id && (h.write || write)
  }

  /** The lock can be granted now. */
  ghost predicate Grantable(locks: set<Hold>, id: nat, write: bool) {
    forall h :: h in locks ==> !Clash(h, id, write)
  }

  function StackIds(stack: seq<Frame>): set<nat> {
    set i | 0 <= i < |stack| :: stack[i].id
  }

  function HeldIds(at: Place): set<nat> {
    match at
    case Start => {}
    case At(p) => {p}
    case Want(p, _) => {p}
    case Got(p, n) => {p, n}
    case Miss(p) => {p}
    case Hit(p, n) => {p, n}
    case Reading(n) => {n}
    case Closing(nodes, _, _) => set x | x in nodes
    case Printing(stack, _) => StackIds(stack)
    case Done(_) => {}
    case Printed => {}
  }

  function Awaited(at: Place): Option<nat> {
    match at
    case Start => Some(HEAD)
    case Want(_, n) => Some(n)
    case Printing(_, pending) => pending
    case _ => None
  }

  /** The record a thread has cut out of the tree and not yet destroyed. */
  function Loose(at: Place): Option<nat> {
    if at.Closing? then at.loose else None
  }

  // ---------------------------------------------------------------- steps

  function CellOf(tree: Tree<nat>, id: nat): Cell<nat> {
    if id in Cells(HEAD, tree) then Cells(HEAD, tree)[id] else Cell("", "", None, None)
  }

  function KeyOf(op: Op): string {
    if op.Print? then "" else op.key
  }

  predicate TwoChildren(tree: Tree<nat>, id: nat) {
    CellOf(tree, id).left.Some? && CellOf(tree, id).right.Some?
  }

  /** The left spine of the right subtree of the record that holds key `k`: where its successor is sought. */
  function SpineKey(tree: Tree<nat>, k: string): seq<nat> {
    if Lookup(tree, k).None? then [] else Spine(SubtreeAt(tree, k).r)
  }

  /** No other thread holds or awaits a record on that spine. */
  ghost predicate SpineFree(s: State, t: nat, k: string) {
    forall u :: u in s.threads && u != t ==> Outside(s.threads[u].at, SpineIds(s.tree, k))
  }

  function SpineIds(tree: Tree<nat>, k: string): set<nat> {
    set y | y in SpineKey(tree, k)
  }

  ghost predicate Outside(at: Place, ids: set<nat>) {
    HeldIds(at) !! ids && (Awaited(at).Some? ==> Awaited(at).value !in ids)
  }

  /**
    Thread `t` can take its next step.  `n` is the record malloc returns if the step makes one.
    The successor walk of a remove runs without locks: its step waits until no other thread is on the spine it reads.
   */
  ghost predicate Enabled(s: State, t: nat, n: nat) {
    && t in s.threads
    && var th := s.threads[t];
       match th.at
       case Start => Grantable(s.locks, HEAD, Writes(th.op, HEAD))
       case Want(_, x) => Grantable(s.locks, x, Writes(th.op, x))
       case Miss(_) => th.op.Add? ==> n !in s.live
       case Hit(_, x) => th.op.Remove? && TwoChildren(s.tree, x) ==> SpineFree(s, t, th.op.key)
       case Printing(_, pending) => pending.Some? ==> Grantable(s.locks, pending.value, false)
       case Done(_) => false
       case Printed => false
       case _ => true
  }

  function Go(s: State, t: nat, at: Place): State
    requires t in s.threads
  {
    s.(threads := s.threads[t := s.threads[t].(at := at)])
  }

  function Lock(s: State, t: nat, id: nat): State
    requires t in s.threads
  {
    s.(locks := s.locks + {Hold(t, id, Writes(s.threads[t].op, id))})
  }

  function Unlock(s: State, t: nat, id: nat): State
    requires t in s.threads
  {
    s.(locks := s.locks - {Hold(t, id, Writes(s.threads[t].op, id))})
  }

  /** The operation takes effect: its reply is settled. */
  function Commit(s: State, t: nat, reply: Reply, tree: Tree<nat>, nodes: seq<nat>, loose: Option<nat>): State
    requires t in s.threads
  {
    Go(s, t, Closing(nodes, loose, reply)).(tree := tree, history := s.history + [Event(t, s.threads[t].op, reply)])
  }

  function ActAtMiss(s: State, t: nat, n: nat): State
    requires t in s.threads && s.threads[t].at.Miss?
  {
    var op, p := s.threads[t].op, s.threads[t].at.p;
    match op
    case Add(k, v) =>
      Commit(s, t, Flag(true), Insert<nat>(s.tree, k, Record<nat>(n, k, v)), [p], None).(live := s.live + {n})
    case Remove(_) => Commit(s, t, Flag(false), s.tree, [p], None)
    case _ => Commit(s, t, NotFound, s.tree, [p], None)
  }

  function ActAtHit(s: State, t: nat): State
    requires t in s.threads && s.threads[t].at.Hit?
  {
    var op, p, x := s.threads[t].op, s.threads[t].at.p, s.threads[t].at.n;
    match op
    case Remove(k) =>
      var dead: nat := if Lookup(s.tree, k).Some? then Freed<nat>(SubtreeAt(s.tree, k)) else x;
      Commit(s, t, Flag(true), DbTree.Remove<nat>(s.tree, k), [p, x], Some(dead))
    case Add(_, _) => Commit(s, t, Flag(false), s.tree, [p, x], None)
    case _ => Go(Unlock(s, t, p), t, Reading(x))
  }

  /** The next step of one print: enter the pending child, read a link, or leave a finished record. */
  function ActPrinting(s: State, t: nat): State
    requires t in s.threads && s.threads[t].at.Printing?
  {
    var stack, pending := s.threads[t].at.stack, s.threads[t].at.pending;
    if pending.Some? then
      Go(Lock(s, t, pending.value), t, Printing(stack + [Frame(pending.value, Left)], None))
    else if stack == [] then Go(s, t, Printed)
    else
      var top := stack[|stack| - 1];
      if top.visit.Up? then Go(Unlock(s, t, top.id), t, Printing(Advance(stack[..|stack| - 1]), None))
      else
        var child := Branch(CellOf(s.tree, top.id), top.visit);
        if child.Some? then Go(s, t, Printing(stack, child)) else Go(s, t, Printing(Advance(stack), None))
  }

  function Branch(c: Cell<nat>, v: Visit): Option<nat> {
    match v
    case Left => c.left
    case Right => c.right
    case Up => None
  }

  /** The record on top is done with the child it was visiting. */
  function Advance(stack: seq<Frame>): seq<Frame> {
    if stack == [] then []
    else
      var top := stack[|stack| - 1];
      stack[..|stack| - 1] + [Frame(top.id, if top.visit.Left? then Right else Up)]
  }

  function Act(s: State, t: nat, n: nat): State
    requires t in s.threads
  {
    var op := s.threads[t].op;
    match s.threads[t].at
    case Start =>
      Go(Lock(s, t, HEAD), t, if op.Print? then Printing([Frame(HEAD, Left)], None) else At(HEAD))
    case At(p) =>
      var next := Child(CellOf(s.tree, p), KeyOf(op));
      Go(s, t, if next.None? then Miss(p) else Want(p, next.value))
    case Want(p, x) => Go(Lock(s, t, x), t, Got(p, x))
    case Got(p, x) =>
      if CellOf(s.tree, x).key == KeyOf(op) then Go(s, t, Hit(p, x)) else Go(Unlock(s, t, p), t, At(x))
    case Miss(_) => ActAtMiss(s, t, n)
    case Hit(_, _) => ActAtHit(s, t)
    case Reading(x) => Commit(s, t, Value(CellOf(s.tree, x).value), s.tree, [x], None)
    case Closing(nodes, loose, reply) =>
      if nodes != [] then Go(Unlock(s, t, nodes[0]), t, Closing(nodes[1..], loose, reply))
      else Go(s.(live := s.live - (if loose.Some? then {loose.value} else {})), t, Done(reply))
    case Printing(_, _) => ActPrinting(s, t)
    case Done(_) => s
    case Printed => s
  }

  // ---------------------------------------------------------------- the search path

  /** A search for `k` in `t` goes on from record `p`. */
  predicate Passes(t: Tree<nat>, k: string, p: nat) {
    t.Fork? && k != t.key && (t.id == p || Passes(Side(t, k), k, p))
  }

  predicate Stands(t: Tree<nat>, k: string, p: nat) {
    p == HEAD || Passes(t, k, p)
  }

  /** The subtree such a search enters from `p`. */
  function Ahead(t: Tree<nat>, k: string, p: nat): Tree<nat>
    requires Stands(t, k, p)
  {
    if p == HEAD then t else AheadBelow(t, k, p)
  }

  function AheadBelow(t: Tree<nat>, k: string, p: nat): Tree<nat>
    requires Passes(t, k, p)
  {
    if t.id == p then Side(t, k) else AheadBelow(Side(t, k), k, p)
  }

  lemma {:induction false} AheadBelowFacts(t: Tree<nat>, k: string, p: nat, q: nat)
    requires DistinctIds(t) && Ordered(t) && Passes(t, k, p)
    ensures var a := AheadBelow(t, k, p);
      && p in Ids(t) && Child(Shape(t)[p], k) == RootOf(a)
      && MapGet(Contents(t), k) == MapGet(Contents(a), k)
      && Find(t, k, q) == Find(a, k, p)
      && Ids(a) <= Ids(t)
      && (forall x :: x in Ids(a) ==> Shape(t)[x] == Shape(a)[x])
    decreases t
  {
    SideHolds(t, k);
    if t.id != p {
      AheadBelowFacts(Side(t, k), k, p, t.id);
    }
  }

  /** Tree order under the head. */
  ghost predicate TreeOk(t: Tree<nat>) {
    Ordered(t) && DistinctIds(t) && HEAD !in Ids(t)
  }

  /**
    Wherever a thread stands on its way to `k`: if `k` is anywhere in the tree, it is in the
    subtree the thread will enter next, and the search from here ends where one from the head would.
   */
  lemma AheadFacts(t: Tree<nat>, k: string, p: nat)
    requires TreeOk(t) && Stands(t, k, p)
    ensures var a, m := Ahead(t, k, p), Cells(HEAD, t);
      && p in m && Child(m[p], k) == RootOf(a)
      && MapGet(Contents(t), k) == MapGet(Contents(a), k)
      && Find(t, k, HEAD) == Find(a, k, p)
      && (a.Fork? ==> a.id in Ids(t) && m[a.id] == Cell(a.key, a.value, RootOf(a.l), RootOf(a.r)))
  {
    if p != HEAD {
      AheadBelowFacts(t, k, p, HEAD);
    }
  }

  lemma {:induction false} InsertPasses(t: Tree<nat>, k: string, p: nat, k': string, node: Tree<nat>)
    requires Passes(t, k, p)
    ensures Passes(Insert(t, k', node), k, p)
  {
    if t.id != p {
      InsertPasses(Side(t, k), k, p, k', node);
    }
  }

  /** Removing a key leaves every search path as it was for records outside the part that changes. */
  lemma {:induction false} RemovePasses(t: Tree<nat>, k: string, p: nat, k': string)
    requires DistinctIds(t) && Passes(t, k, p) && Lookup(t, k').Some?
    requires var s := SubtreeAt(t, k'); p !in Ids(s) || ((s.l.Leaf? || s.r.Leaf?) && p != s.id)
    ensures Passes(DbTree.Remove(t, k'), k, p)
    decreases t
  {
    if k' == t.key {
      PassesIds(t, k, p);
    } else if t.id != p && Side(t, k) == Side(t, k') {
      RemovePasses(Side(t, k), k, p, k');
    }
  }

  lemma {:induction false} PassesIds(t: Tree<nat>, k: string, p: nat)
    requires Passes(t, k, p)
    ensures p in Ids(t)
  {
    if t.id != p {
      PassesIds(Side(t, k), k, p);
    }
  }
}
