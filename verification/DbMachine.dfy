/**
  The threads of the database as the code runs them: over the records in memory, one
  lock operation or one access to a record per step.  A remove of a record with two
  children walks down the spine link by link without locks, then makes its three writes.
 */
module DbMachine {
  import opened Options
  import opened DbTree
  import opened DbConcurrent

  /** How far the removal of a record with two children has got. */
  datatype Stage =
    | Seek         // about to read next->lchild
    | Found        // next is the successor; about to write *pnext
    | Unlinked     // about to copy the key
    | KeyCopied    // about to copy the value

  /** A place as before, or the successor walk of a remove that holds p and x; `h` has the link that led to `n`. */
  datatype Spot = Plain(at: Place) | Walk(p: nat, x: nat, h: nat, n: nat, stage: Stage)

  datatype Worker = Worker(op: Op, spot: Spot)

  /** Memory, locks, threads, and the order in which operations took effect. */
  datatype Machine = Machine(cells: map<nat, Cell<nat>>, locks: set<Hold>, workers: map<nat, Worker>,
                             history: seq<Event>)

  /** Where a walking thread stands for the others: it has found its record and holds it. */
  function Shown(spot: Spot): Place {
    match spot
    case Plain(at) => at
    case Walk(p, x, _, _, _) => Hit(p, x)
  }

  function Read(c: Machine, id: nat): Cell<nat> {
    if id in c.cells then c.cells[id] else Cell("", "", None, None)
  }

  /** The records that the next step reads, writes, locks, unlocks or frees; a record's lock is part of it. */
  function Accessed(c: Machine, t: nat): set<nat>
    requires t in c.workers
  {
    match c.workers[t].spot
    case Walk(_, x, h, n, stage) =>
      (match stage
       case Seek => {n}
       case Found => {n, h}
       case Unlinked => {n, x}
       case KeyCopied => {n, x})
    case Plain(at) =>
      match at
      case Start => {HEAD}
      case At(p) => {p}
      case Want(_, x) => {x}
      case Got(p, x) => {p, x}
      case Miss(p) => if c.workers[t].op.Add? then {p} else {}
      case Hit(p, x) => if c.workers[t].op.Remove? then {p, x} else if c.workers[t].op.Add? then {} else {p}
      case Reading(x) => {x}
      case Closing(nodes, loose, _) => if nodes != [] then {nodes[0]} else if loose.Some? then {loose.value} else {}
      case Printing(stack, pending) =>
        if pending.Some? then {pending.value} else if stack != [] then {stack[|stack| - 1].id} else {}
      case Done(_) => {}
      case Printed => {}
  }

  /** The left link of the i-th record leads to the next one, if there is one. */
  ghost predicate LinkedAt(cells: map<nat, Cell<nat>>, sp: seq<nat>, i: nat)
    requires i < |sp|
  {
    sp[i] in cells && cells[sp[i]].left == if i + 1 < |sp| then Some(sp[i + 1]) else None
  }

  /** In memory, `sp` are the records from x's right child down the left links. */
  ghost predicate IsSpine(cells: map<nat, Cell<nat>>, x: nat, sp: seq<nat>) {
    && sp != [] && x in cells && cells[x].right == Some(sp[0])
    && (forall i {:trigger LinkedAt(cells, sp, i)} :: 0 <= i < |sp| ==> LinkedAt(cells, sp, i))
  }

  /** No other thread holds or awaits a record of that spine. */
  ghost predicate SpineUnused(c: Machine, t: nat, x: nat) {
    forall sp {:trigger IsSpine(c.cells, x, sp)} :: IsSpine(c.cells, x, sp) ==>
      forall u :: u in c.workers && u != t ==> Outside(Shown(c.workers[u].spot), set y | y in sp)
  }

  /**
    Thread `t` can take its next step; `n` is the record malloc returns.  The code starts the
    successor walk at once; `guarded`, it first waits until no other thread uses the spine.
   */
  ghost predicate CanStep(c: Machine, t: nat, n: nat, guarded: bool) {
    && t in c.workers
    && var w := c.workers[t];
       match w.spot
       case Walk(_, _, _, _, _) => true
       case Plain(at) =>
         match at
         case Start => Grantable(c.locks, HEAD, Writes(w.op, HEAD))
         case Want(_, x) => Grantable(c.locks, x, Writes(w.op, x))
         case Miss(_) => w.op.Add? ==> n !in c.cells
         case Hit(_, x) =>
           guarded && w.op.Remove? && Read(c, x).left.Some? && Read(c, x).right.Some? ==> SpineUnused(c, t, x)
         case Printing(_, pending) => pending.Some? ==> Grantable(c.locks, pending.value, false)
         case Done(_) => false
         case Printed => false
         case _ => true
  }

  function To(c: Machine, t: nat, spot: Spot): Machine
    requires t in c.workers
  {
    c.(workers := c.workers[t := c.workers[t].(spot := spot)])
  }

  function Stand(c: Machine, t: nat, at: Place): Machine
    requires t in c.workers
  {
    To(c, t, Plain(at))
  }

  function Take(c: Machine, t: nat, id: nat): Machine
    requires t in c.workers
  {
    c.(locks := c.locks + {Hold(t, id, Writes(c.workers[t].op, id))})
  }

  function Give(c: Machine, t: nat, id: nat): Machine
    requires t in c.workers
  {
    c.(locks := c.locks - {Hold(t, id, Writes(c.workers[t].op, id))})
  }

  function Write(c: Machine, id: nat, cell: Cell<nat>): Machine {
    c.(cells := c.cells[id := cell])
  }

  /** The reply is settled; the nodes are unlocked next, then `loose` is destroyed. */
  function Settle(c: Machine, t: nat, reply: Reply, nodes: seq<nat>, loose: Option<nat>): Machine
    requires t in c.workers
  {
    Stand(c, t, Closing(nodes, loose, reply)).(history := c.history + [Event(t, c.workers[t].op, reply)])
  }

  function StepMiss(c: Machine, t: nat, n: nat, p: nat): Machine
    requires t in c.workers
  {
    match c.workers[t].op
    case Add(k, v) =>
      Settle(Write(Write(c, p, WithChild(Read(c, p), k, Some(n))), n, Cell(k, v, None, None)), t, Flag(true), [p], None)
    case Remove(_) => Settle(c, t, Flag(false), [p], None)
    case _ => Settle(c, t, NotFound, [p], None)
  }

  function StepHit(c: Machine, t: nat, p: nat, x: nat): Machine
    requires t in c.workers
  {
    match c.workers[t].op
    case Remove(_) =>
      var d := Read(c, x);
      if d.right.None? then Settle(Write(c, p, WithChild(Read(c, p), d.key, d.left)), t, Flag(true), [p, x], Some(x))
      else if d.left.None? then
        Settle(Write(c, p, WithChild(Read(c, p), d.key, d.right)), t, Flag(true), [p, x], Some(x))
      else To(c, t, Walk(p, x, x, d.right.value, Seek))
    case Add(_, _) => Settle(c, t, Flag(false), [p, x], None)
    case _ => Stand(Give(c, t, p), t, Reading(x))
  }

  function StepWalk(c: Machine, t: nat, p: nat, x: nat, h: nat, n: nat, stage: Stage): Machine
    requires t in c.workers
  {
    match stage
    case Seek =>
      var next := Read(c, n).left;
      To(c, t, if next.Some? then Walk(p, x, n, next.value, Seek) else Walk(p, x, h, n, Found))
    case Found => To(Write(c, h, WithLink(Read(c, h), h == x, Read(c, n).right)), t, Walk(p, x, h, n, Unlinked))
    case Unlinked => To(Write(c, x, Read(c, x).(key := Read(c, n).key)), t, Walk(p, x, h, n, KeyCopied))
    case KeyCopied => Settle(Write(c, x, Read(c, x).(value := Read(c, n).value)), t, Flag(true), [p, x], Some(n))
  }

  function StepPrint(c: Machine, t: nat, stack: seq<Frame>, pending: Option<nat>): Machine
    requires t in c.workers
  {
    if pending.Some? then Stand(Take(c, t, pending.value), t, Printing(stack + [Frame(pending.value, Left)], None))
    else if stack == [] then Stand(c, t, Printed)
    else
      var top := stack[|stack| - 1];
      if top.visit.Up? then Stand(Give(c, t, top.id), t, Printing(Advance(stack[..|stack| - 1]), None))
      else
        var child := Branch(Read(c, top.id), top.visit);
        if child.Some? then Stand(c, t, Printing(stack, child)) else Stand(c, t, Printing(Advance(stack), None))
  }

  function Step(c: Machine, t: nat, n: nat): Machine
    requires t in c.workers
  {
    var op := c.workers[t].op;
    match c.workers[t].spot
    case Walk(p, x, h, y, stage) => StepWalk(c, t, p, x, h, y, stage)
    case Plain(at) =>
      match at
      case Start => Stand(Take(c, t, HEAD), t, if op.Print? then Printing([Frame(HEAD, Left)], None) else At(HEAD))
      case At(p) =>
        var next := Child(Read(c, p), KeyOf(op));
        Stand(c, t, if next.None? then Miss(p) else Want(p, next.value))
      case Want(p, x) => Stand(Take(c, t, x), t, Got(p, x))
      case Got(p, x) =>
        if Read(c, x).key == KeyOf(op) then Stand(c, t, Hit(p, x)) else Stand(Give(c, t, p), t, At(x))
      case Miss(p) => StepMiss(c, t, n, p)
      case Hit(p, x) => StepHit(c, t, p, x)
      case Reading(x) => Settle(c, t, Value(Read(c, x).value), [x], None)
      case Closing(nodes, loose, reply) =>
        if nodes != [] then Stand(Give(c, t, nodes[0]), t, Closing(nodes[1..], loose, reply))
        else Stand(c.(cells := c.cells - (if loose.Some? then {loose.value} else {})), t, Done(reply))
      case Printing(stack, pending) => StepPrint(c, t, stack, pending)
      case Done(_) => c
      case Printed => c
  }
}
