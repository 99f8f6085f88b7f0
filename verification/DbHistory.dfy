/**
  What the history of the threaded database explains: every step keeps it an order of
  operations on one map that gives every reply and the tree's contents; and as long as
  a thread is unfinished some thread can move.
 */
module DbHistory {
  import opened Options
  import opened DbTree
  import opened DbConcurrent
  import opened DbSafety
  import DbCommands

  // ---------------------------------------------------------------- one operation on the map

  function ReplyOf(m: map<string, string>, op: Op): Reply {
    match op
    case Query(k) => if k in m then Value(m[k]) else NotFound
    case Add(k, _) => Flag(k !in m)
    case Remove(k) => Flag(k in m)
    case Print => NotFound
  }

  function Effect(m: map<string, string>, op: Op): map<string, string> {
    match op
    case Add(k, v) => if k in m then m else m[k := v]
    case Remove(k) => m - {k}
    case _ => m
  }

  /** A thread's operation does to the map, and replies, what the command without threads does and answers. */
  lemma SameAsCommands(m: map<string, string>, k: string, v: string)
    ensures var (s, answer) := DbCommands.OnAdd(DbCommands.Store(m, 0), k, v, (n: nat) => true);
      Effect(m, Add(k, v)) == s.data && ReplyOf(m, Add(k, v)) == Flag(answer == "added")
    ensures var (s, answer) := DbCommands.OnDelete(DbCommands.Store(m, 0), k);
      Effect(m, Op.Remove(k)) == s.data && ReplyOf(m, Op.Remove(k)) == Flag(answer == "removed")
    ensures var (s, answer) := DbCommands.OnQuery(DbCommands.Store(m, 0), k);
      && Effect(m, Query(k)) == s.data
      && (k in m && m[k] != "" ==> ReplyOf(m, Query(k)) == Value(answer))
      && (k !in m ==> ReplyOf(m, Query(k)) == NotFound && answer == "not found")
  {
    assert "removed" != "not in database" && "added" != "already in database" by {
      assert |"removed"| != |"not in database"| && |"added"| != |"already in database"|;
    }
  }

  /** The map after a history of operations, one after the other. */
  function After(m: map<string, string>, h: seq<Event>): map<string, string> {
    if h == [] then m else Effect(After(m, h[..|h| - 1]), h[|h| - 1].op)
  }

  // ---------------------------------------------------------------- the history explains the state

  function Committed(at: Place): Option<Reply> {
    match at
    case Closing(_, _, reply) => Some(reply)
    case Done(reply) => Some(reply)
    case _ => None
  }

  ghost predicate Replies(m: map<string, string>, h: seq<Event>) {
    forall i {:trigger h[i]} :: 0 <= i < |h| ==> h[i].reply == ReplyOf(After(m, h[..i]), h[i].op)
  }

  ghost predicate HasEvent(h: seq<Event>, t: nat, op: Op, reply: Reply) {
    exists i :: 0 <= i < |h| && h[i] == Event(t, op, reply)
  }

  /** Exactly the operations that took effect are in the history, each once and with its reply. */
  ghost predicate Recorded(threads: map<nat, Thread>, h: seq<Event>) {
    && (forall i {:trigger h[i]} :: 0 <= i < |h| ==>
          && h[i].t in threads && h[i].op == threads[h[i].t].op
          && Committed(threads[h[i].t].at) == Some(h[i].reply))
    && (forall i, j {:trigger h[i], h[j]} :: 0 <= i < j < |h| ==> h[i].t != h[j].t)
    && (forall t :: t in threads && Committed(threads[t].at).Some? ==>
          HasEvent(h, t, threads[t].op, Committed(threads[t].at).value))
  }

  ghost predicate Explained(m: map<string, string>, s: State) {
    Contents(s.tree) == After(m, s.history) && Replies(m, s.history) && Recorded(s.threads, s.history)
  }

  lemma RepliesOneMore(m: map<string, string>, h: seq<Event>, e: Event)
    requires Replies(m, h) && e.reply == ReplyOf(After(m, h), e.op)
    ensures Replies(m, h + [e]) && After(m, h + [e]) == Effect(After(m, h), e.op)
  {
    var g := h + [e];
    assert g[..|h|] == h;
    forall i {:trigger g[i]} | 0 <= i < |g|
      ensures g[i].reply == ReplyOf(After(m, g[..i]), g[i].op)
    {
      if i < |h| { assert g[i] == h[i] && g[..i] == h[..i]; }
    }
  }

  lemma RecordedOneMore(threads: map<nat, Thread>, h: seq<Event>, t: nat, at: Place)
    requires Recorded(threads, h) && t in threads && Committed(threads[t].at).None? && Committed(at).Some?
    ensures Recorded(threads[t := threads[t].(at := at)], h + [Event(t, threads[t].op, Committed(at).value)])
  {
    var e := Event(t, threads[t].op, Committed(at).value);
    var g, threads' := h + [e], threads[t := threads[t].(at := at)];
    assert forall i {:trigger g[i]} {:trigger h[i]} :: 0 <= i < |h| ==> g[i] == h[i];
    assert g[|h|] == e;
    forall u | u in threads' && Committed(threads'[u].at).Some?
      ensures HasEvent(g, u, threads'[u].op, Committed(threads'[u].at).value)
    {
      if u != t {
        var i :| 0 <= i < |h| && h[i] == Event(u, threads[u].op, Committed(threads[u].at).value);
        assert g[i] == h[i];
      }
    }
  }

  lemma CommitExplained(m: map<string, string>, s: State, t: nat, reply: Reply, tree: Tree<nat>, nodes: seq<nat>,
                        loose: Option<nat>)
    requires Explained(m, s) && t in s.threads && Committed(s.threads[t].at).None?
    requires reply == ReplyOf(Contents(s.tree), s.threads[t].op)
    requires Contents(tree) == Effect(Contents(s.tree), s.threads[t].op)
    ensures Explained(m, Commit(s, t, reply, tree, nodes, loose))
  {
    RepliesOneMore(m, s.history, Event(t, s.threads[t].op, reply));
    RecordedOneMore(s.threads, s.history, t, Closing(nodes, loose, reply));
  }

  /** A step that settles no reply leaves tree and history as they are. */
  lemma QuietExplained(m: map<string, string>, s: State, t: nat, at: Place, s': State)
    requires Explained(m, s) && t in s.threads && Committed(s.threads[t].at) == Committed(at)
    requires s'.tree == s.tree && s'.history == s.history && s'.threads == s.threads[t := s.threads[t].(at := at)]
    ensures Explained(m, s')
  {
  }

  lemma {:induction false} CellContents(t: Tree<nat>, x: nat)
    requires Ordered(t) && DistinctIds(t) && x in Ids(t)
    ensures MapGet(Contents(t), Shape(t)[x].key) == Some(Shape(t)[x].value)
  {
    PartsDisjoint(t);
    if x in Ids(t.l) {
      CellContents(t.l, x);
    } else if x in Ids(t.r) {
      CellContents(t.r, x);
    }
  }

  /** A thread that met NULL replies as the map does: its key is nowhere in the tree. */
  lemma MissExplained(m: map<string, string>, s: State, t: nat, n: nat)
    requires Good(s) && Explained(m, s) && Enabled(s, t, n) && s.threads[t].at.Miss?
    ensures Explained(m, Act(s, t, n))
  {
    var op, p := s.threads[t].op, s.threads[t].at.p;
    AheadFacts(s.tree, op.key, p);
    match op
    case Add(k, v) =>
      InsertTreeOk(s.tree, k, v, n);
      CommitExplained(m, s, t, Flag(true), Insert(s.tree, k, Record(n, k, v)), [p], None);
    case Remove(k) =>
      assert Contents(s.tree) - {k} == Contents(s.tree);
      CommitExplained(m, s, t, Flag(false), s.tree, [p], None);
    case Query(k) =>
      CommitExplained(m, s, t, NotFound, s.tree, [p], None);
  }

  lemma HitExplained(m: map<string, string>, s: State, t: nat, n: nat)
    requires Good(s) && Explained(m, s) && Enabled(s, t, n) && s.threads[t].at.Hit?
    ensures Explained(m, Act(s, t, n))
  {
    var op, p, x := s.threads[t].op, s.threads[t].at.p, s.threads[t].at.n;
    HitFacts(s.tree, op.key, p, x);
    LookupIsMapGet(s.tree, op.key);
    match op
    case Remove(k) =>
      RemoveTreeOk(s.tree, k);
      CommitExplained(m, s, t, Flag(true), DbTree.Remove(s.tree, k), [p, x], Some(Freed(SubtreeAt(s.tree, k))));
    case Add(k, v) =>
      CommitExplained(m, s, t, Flag(false), s.tree, [p, x], None);
    case Query(k) =>
      QuietExplained(m, s, t, Reading(x), Act(s, t, n));
  }

  lemma ReadingExplained(m: map<string, string>, s: State, t: nat, n: nat)
    requires Good(s) && Explained(m, s) && Enabled(s, t, n) && s.threads[t].at.Reading?
    ensures Explained(m, Act(s, t, n))
  {
    var x := s.threads[t].at.n;
    CellContents(s.tree, x);
    CommitExplained(m, s, t, Value(CellOf(s.tree, x).value), s.tree, [x], None);
  }

  lemma ActQuiet(s: State, t: nat, n: nat)
    requires t in s.threads && !s.threads[t].at.Miss? && !s.threads[t].at.Hit? && !s.threads[t].at.Reading?
    ensures var s' := Act(s, t, n);
      && s'.tree == s.tree && s'.history == s.history && t in s'.threads
      && Committed(s.threads[t].at) == Committed(s'.threads[t].at)
      && s'.threads == s.threads[t := s.threads[t].(at := s'.threads[t].at)]
  {
  }

  lemma ActGrows(s: State, t: nat, n: nat)
    requires t in s.threads
    ensures s.history <= Act(s, t, n).history && Act(s, t, n).threads.Keys == s.threads.Keys
  {
  }

  /** Every step keeps the history an explanation of the state. */
  lemma StepExplained(m: map<string, string>, s: State, t: nat, n: nat)
    requires Good(s) && Explained(m, s) && Enabled(s, t, n)
    ensures Explained(m, Act(s, t, n))
  {
    var at := s.threads[t].at;
    if at.Miss? {
      MissExplained(m, s, t, n);
    } else if at.Hit? {
      HitExplained(m, s, t, n);
    } else if at.Reading? {
      ReadingExplained(m, s, t, n);
    } else {
      ActQuiet(s, t, n);
      QuietExplained(m, s, t, Act(s, t, n).threads[t].at, Act(s, t, n));
    }
  }

  // ---------------------------------------------------------------- starting, and the order of time

  /** Thread `t` moves; `n` is the record malloc hands out if it asks for one. */
  datatype Move = Move(t: nat, n: nat)

  /** Any ordered tree, any operations about to start. */
  ghost predicate Initial(s: State) {
    && TreeOk(s.tree) && s.live == Ids(s.tree) + {HEAD} && s.locks == {} && s.history == []
    && forall t :: t in s.threads ==> s.threads[t].at.Start?
  }

  lemma InitialGood(s: State)
    requires Initial(s)
    ensures Good(s) && Explained(Contents(s.tree), s)
  {
  }

  /** Between two states of a run, what has taken effect in the first stays before what has not. */
  lemma CommitOrder(threads: map<nat, Thread>, h1: seq<Event>, threads': map<nat, Thread>, h2: seq<Event>, t: nat,
                    u: nat, i: nat, j: nat)
    requires Recorded(threads, h1) && Recorded(threads', h2) && h1 <= h2 && t in threads && u in threads
    requires Committed(threads[t].at).Some? && Committed(threads[u].at).None?
    requires i < |h2| && j < |h2| && h2[i].t == t && h2[j].t == u
    ensures i < j
  {
    assert HasEvent(h1, t, threads[t].op, Committed(threads[t].at).value);
    var a :| 0 <= a < |h1| && h1[a].t == t;
    assert h2[a] == h1[a];
    forall b | 0 <= b < |h1|
      ensures h2[b].t != u
    {
      assert h2[b] == h1[b];
    }
  }

  // ---------------------------------------------------------------- locks given back, records freed

  predicate Finished(at: Place) {
    at.Done? || at.Printed?
  }

  /** A finished thread holds no lock; when all have finished none is held and no record is lost. */
  lemma GivenBack(s: State)
    requires Good(s)
    ensures forall h :: h in s.locks ==> h.t in s.threads && !Finished(s.threads[h.t].at)
    ensures (forall t :: t in s.threads ==> Finished(s.threads[t].at)) ==>
      s.locks == {} && s.live == Ids(s.tree) + {HEAD}
  {
    if forall t :: t in s.threads ==> Finished(s.threads[t].at) {
      forall t, x ensures !IsLoose(s.threads, t, x) {}
    }
  }

  // ---------------------------------------------------------------- progress

  /** How deep the record is that a stuck thread waits for. */
  function Rank(tree: Tree<nat>, at: Place): nat {
    match at
    case Want(_, n) => 2 * LevelOf(tree, n)
    case Hit(_, n) => 2 * LevelOf(tree, n) + 1
    case Printing(_, pending) => if pending.Some? then 2 * LevelOf(tree, pending.value) else 0
    case _ => 0
  }

  ghost predicate Stuck(s: State, t: nat, n: nat) {
    t in s.threads && !Finished(s.threads[t].at) && !Enabled(s, t, n)
  }

  /** A stuck thread waits below everything it holds. */
  lemma HolderRank(s: State, t: nat, n: nat, x: nat)
    requires Good(s) && Stuck(s, t, n) && n !in s.live && x in HeldIds(s.threads[t].at)
    ensures Rank(s.tree, s.threads[t].at) > 2 * LevelOf(s.tree, x)
  {
    var at, k := s.threads[t].at, KeyOf(s.threads[t].op);
    match at
    case Want(p, _) => SearchRefs(s.tree, k, p);
    case Hit(p, _) => SearchRefs(s.tree, k, p);
    case Printing(stack, pending) =>
      PrintRefs(s.tree, stack, pending, x);
      PrintRefs(s.tree, stack, pending, pending.value);
    case _ =>
  }

  lemma AwaiterRank(s: State, t: nat, x: nat)
    requires Good(s) && t in s.threads && Awaited(s.threads[t].at) == Some(x)
    ensures Rank(s.tree, s.threads[t].at) == 2 * LevelOf(s.tree, x)
  {
  }

  lemma {:induction false} BelowLevel(t: Tree<nat>, k: string, y: nat)
    requires DistinctIds(t) && Lookup(t, k).Some? && y in Ids(SubtreeAt(t, k).r)
    ensures SubtreeAt(t, k).id in Ids(t) && y in Ids(t) && Level(t, y) > Level(t, SubtreeAt(t, k).id)
    decreases t
  {
    SubtreeFacts(t, k, HEAD);
    if k != t.key {
      BelowLevel(Side(t, k), k, y);
    }
  }

  lemma SpineLevel(t: Tree<nat>, k: string, y: nat)
    requires DistinctIds(t) && Lookup(t, k).Some? && y in SpineIds(t, k)
    ensures SubtreeAt(t, k).id in Ids(t) && y in Ids(t) && Level(t, y) > Level(t, SubtreeAt(t, k).id)
  {
    SpineWithin(SubtreeAt(t, k).r);
    BelowLevel(t, k, y);
  }

  ghost predicate AllStuck(s: State, n: nat) {
    forall t {:trigger Stuck(s, t, n)} :: t in s.threads && !Finished(s.threads[t].at) ==> Stuck(s, t, n)
  }

  /** A thread is stuck on a lock, or on the spine below the record it removes. */
  lemma StuckWhy(s: State, t: nat, n: nat)
    requires Good(s) && Stuck(s, t, n) && n !in s.live
    ensures var op, at := s.threads[t].op, s.threads[t].at;
      if at.Hit? then op.Remove? && !SpineFree(s, t, op.key)
      else Awaited(at).Some? && !Grantable(s.locks, Awaited(at).value, Writes(op, Awaited(at).value))
  {
    assert ThreadOk(s.tree, s.threads[t]);
  }

  /** If everyone is stuck, the thread in t's way waits for something deeper than t does. */
  lemma BlockedBy(s: State, t: nat, n: nat) returns (u: nat)
    requires Good(s) && n !in s.live && Stuck(s, t, n) && AllStuck(s, n)
    ensures u in s.threads && !Finished(s.threads[u].at)
    ensures Rank(s.tree, s.threads[u].at) > Rank(s.tree, s.threads[t].at)
  {
    var op, at := s.threads[t].op, s.threads[t].at;
    StuckWhy(s, t, n);
    if at.Hit? {
      u :| u in s.threads && u != t && !Outside(s.threads[u].at, SpineIds(s.tree, op.key));
      BlockedHit(s, t, n, u);
    } else {
      var x := Awaited(at).value;
      var h :| h in s.locks && Clash(h, x, Writes(op, x));
      u := h.t;
      BlockedLock(s, t, n, u, x);
    }
  }

  lemma BlockedLock(s: State, t: nat, n: nat, u: nat, x: nat)
    requires Good(s) && n !in s.live && AllStuck(s, n) && t in s.threads && Awaited(s.threads[t].at) == Some(x)
    requires u in s.threads && x in HeldIds(s.threads[u].at)
    ensures !Finished(s.threads[u].at) && Rank(s.tree, s.threads[u].at) > Rank(s.tree, s.threads[t].at)
  {
    assert Stuck(s, u, n);
    AwaiterRank(s, t, x);
    HolderRank(s, u, n, x);
  }

  lemma BlockedHit(s: State, t: nat, n: nat, u: nat)
    requires Good(s) && n !in s.live && AllStuck(s, n) && t in s.threads && s.threads[t].at.Hit?
    requires u in s.threads && !Outside(s.threads[u].at, SpineIds(s.tree, KeyOf(s.threads[t].op)))
    ensures !Finished(s.threads[u].at) && Rank(s.tree, s.threads[u].at) > Rank(s.tree, s.threads[t].at)
  {
    var k, at := KeyOf(s.threads[t].op), s.threads[u].at;
    assert Stuck(s, u, n);
    assert ThreadOk(s.tree, s.threads[t]);
    HitFacts(s.tree, k, s.threads[t].at.p, s.threads[t].at.n);
    if y :| y in HeldIds(at) && y in SpineIds(s.tree, k) {
      SpineLevel(s.tree, k, y);
      HolderRank(s, u, n, y);
    } else {
      SpineLevel(s.tree, k, Awaited(at).value);
      AwaiterRank(s, u, Awaited(at).value);
    }
  }

  lemma {:induction false} Deepest(s: State, ts: set<nat>) returns (t: nat)
    requires ts != {} && ts <= s.threads.Keys
    ensures t in ts && forall u :: u in ts ==> Rank(s.tree, s.threads[u].at) <= Rank(s.tree, s.threads[t].at)
    decreases |ts|
  {
    t :| t in ts;
    if ts != {t} {
      var u := Deepest(s, ts - {t});
      if Rank(s.tree, s.threads[u].at) > Rank(s.tree, s.threads[t].at) {
        t := u;
      }
    }
  }

  lemma {:induction false} SomeFresh(live: set<nat>) returns (n: nat)
    ensures forall x :: x in live ==> x < n
    decreases |live|
  {
    if live == {} {
      n := 0;
    } else {
      var x :| x in live;
      n := SomeFresh(live - {x});
      if n <= x { n := x + 1; }
      forall y | y in live ensures y < n { assert y == x || y in live - {x}; }
    }
  }

  /** While a thread is unfinished some thread can take its next step. */
  lemma SomeoneMoves(s: State)
    requires Good(s) && exists t :: t in s.threads && !Finished(s.threads[t].at)
    ensures exists t, n :: Enabled(s, t, n)
  {
    var n := SomeFresh(s.live);
    if AllStuck(s, n) {
      var w :| w in s.threads && !Finished(s.threads[w].at);
      var waiting := set t | t in s.threads && !Finished(s.threads[t].at);
      assert w in waiting;
      var t := Deepest(s, waiting);
      assert Stuck(s, t, n);
      var u := BlockedBy(s, t, n);
    } else {
      var t :| t in s.threads && !Finished(s.threads[t].at) && !Stuck(s, t, n);
      assert Enabled(s, t, n);
    }
  }
}
