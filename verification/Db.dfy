/**
  The database run by one thread: records linked in memory under a dummy head,
  searched, extended and cut as db.c does.  Each operation is proved against the
  tree value it represents, and through it against a finite map.
 */
module Db {
  import opened Options
  import opened DbTree

  const MAXLEN: int := 256

  /** What snprintf leaves in a buffer of `size` bytes. */
  function Clip(s: string, size: int): (r: string)
    requires 0 < size
    ensures |r| < size && r <= s && (|s| < size ==> r == s) && (|s| >= size ==> |r| == size - 1)
  {
    if |s| < size then s else s[..size - 1]
  }

  /** NULL, or the record itself. */
  function Deref(o: Option<Node>): Node? {
    if o.None? then null else o.value
  }

  function Wrap(n: Node?): (o: Option<Node>)
    ensures Deref(o) == n
  {
    if n == null then None else Some(n)
  }

  class Node {
    var key: string
    var value: string
    var lchild: Node?
    var rchild: Node?

    constructor (key: string, value: string, lchild: Node?, rchild: Node?)
      ensures this.key == key && this.value == value && this.lchild == lchild && this.rchild == rchild
    {
      this.key, this.value, this.lchild, this.rchild := key, value, lchild, rchild;
    }

    ghost predicate Stores(c: Cell<Node>)
      reads this
    {
      key == c.key && value == c.value && lchild == Deref(c.left) && rchild == Deref(c.right)
    }
  }

  /** NULL for a key or value over MAXLEN, or without memory; both are stored clipped to a buffer of MAXLEN bytes. */
  method NodeConstructor(key: string, value: string, lchild: Node?, rchild: Node?, memory: bool) returns (node: Node?)
    ensures node == null <==> |key| > MAXLEN || |value| > MAXLEN || !memory
    ensures node != null ==> fresh(node)
    ensures node != null ==> node.Stores(Cell(Clip(key, MAXLEN), Clip(value, MAXLEN), Wrap(lchild), Wrap(rchild)))
  {
    if |key| > MAXLEN || |value| > MAXLEN {
      return null;
    }
    if !memory {
      return null;
    }
    node := new Node(Clip(key, MAXLEN), Clip(value, MAXLEN), lchild, rchild);
  }

  /** Every record fits the buffers it is copied through. */
  ghost predicate Fits<I>(cells: map<I, Cell<I>>) {
    forall n {:trigger cells[n]} :: n in cells ==> |cells[n].key| < MAXLEN && |cells[n].value| < MAXLEN
  }

  /** The subtree `t` is stored by these records. */
  ghost predicate Within<I>(t: Tree<I>, cells: map<I, Cell<I>>) {
    forall n {:trigger n in Ids(t)} {:trigger n in cells} :: n in Ids(t) ==> n in cells && cells[n] == Shape(t)[n]
  }

  /** The map's own answers to the three operations. */
  function Queried(m: map<string, string>, k: string): string {
    if k in m then m[k] else "not found"
  }

  ghost predicate AddedTo(m: map<string, string>, k: string, v: string, added: bool, m': map<string, string>) {
    (added <==> k !in m) && m' == if added then m[k := v] else m
  }

  ghost predicate RemovedFrom(m: map<string, string>, k: string, removed: bool, m': map<string, string>) {
    (removed <==> k in m) && m' == m - {k}
  }

  /** These are the records of the tree `t` under the head, each of them once. */
  ghost predicate Represents<I>(head: I, t: Tree<I>, cells: map<I, Cell<I>>) {
    head !in Ids(t) && DistinctIds(t) && cells == Cells(head, t) && Fits(cells)
  }

  class Database {
    const head: Node
    /** The tree the records represent, and what each of them stores. */
    ghost var tree: Tree<Node>
    ghost var cells: map<Node, Cell<Node>>

    constructor ()
      ensures Linked() && tree == Leaf && fresh(cells.Keys)
    {
      head := new Node("", "", null, null);
      new;
      tree := Leaf;
      cells := Cells(head, tree);
    }

    ghost predicate Stored()
      reads this, cells.Keys
    {
      forall n {:trigger cells[n]} :: n in cells ==> n.Stores(cells[n])
    }

    /** The records reachable from head are exactly those of the tree, linked as it says. */
    ghost predicate Linked()
      reads this, cells.Keys
    {
      Represents(head, tree, cells) && Stored()
    }

    /** Linked, and ordered as a search tree. */
    ghost predicate Valid()
      reads this, cells.Keys
    {
      Linked() && Ordered(tree)
    }

    /** The records now represent the tree `t`. */
    ghost method Adopt(t: Tree<Node>)
      requires Represents(head, t, cells) && Stored()
      modifies this`tree
      ensures Linked() && tree == t
    {
      tree := t;
    }

    method Search(key: string, parent: Node, ghost t: Tree<Node>) returns (result: Node?, parentp: Node)
      requires Stored() && DistinctIds(t) && Within(t, cells)
      requires parent in cells && Child(cells[parent], key) == RootOf(t)
      ensures parentp == Find(t, key, parent).0 && result == Deref(Find(t, key, parent).1)
      decreases t
    {
      var next := if Less(key, parent.key) then parent.lchild else parent.rchild;
      if next == null {
        return null, parent;
      }
      assert cells[next] == Shape(t)[next];
      if key == next.key {
        return next, parent;
      }
      SideWithin(t, key, cells);
      result, parentp := Search(key, next, Side(t, key));
    }

    /** The search from the head, as every operation starts. */
    method SearchHead(key: string) returns (result: Node?, parentp: Node)
      requires Linked()
      ensures parentp == Find(tree, key, head).0 && result == Deref(Find(tree, key, head).1)
      ensures parentp in cells && (result != null ==> result in cells)
      ensures result != null <==> Lookup(tree, key).Some?
    {
      TreeWithin(head, tree);
      FindIsLookup(tree, key, head);
      result, parentp := Search(key, head, tree);
    }

    method DbQuery(key: string, len: int) returns (result: string)
      requires Linked() && 0 < len
      ensures result == Clip(if Lookup(tree, key).Some? then Lookup(tree, key).value else "not found", len)
      ensures Valid() ==> result == Clip(Queried(Contents(tree), key), len)
    {
      if Valid() { LookupIsMapGet(tree, key); }
      var target, _ := SearchHead(key);
      if target == null {
        result := Clip("not found", len);
      } else {
        FoundCell(head, tree, key);
        result := Clip(target.value, len);
      }
    }

    /** Points the link of `parent` on the side of `key` to `child`. */
    method SetChild(parent: Node, key: string, child: Node?)
      requires Stored() && parent in cells
      modifies this`cells, parent
      ensures cells == old(cells)[parent := WithChild(old(cells)[parent], key, Wrap(child))]
      ensures Stored()
    {
      assert parent.Stores(cells[parent]);
      if Less(key, parent.key) {
        parent.lchild := child;
      } else {
        parent.rchild := child;
      }
      cells := cells[parent := WithChild(cells[parent], key, Wrap(child))];
    }

    /** Links the record `node`, made for `key`, where the search for `key` fell off the tree. */
    method LinkNew(key: string, parent: Node, node: Node, ghost k': string, ghost v: string)
      requires Linked() && Find(tree, key, head) == (parent, None)
      requires node !in cells && node.Stores(Cell(k', v, None, None)) && |k'| < MAXLEN && |v| < MAXLEN
      modifies this`cells, this`tree, cells.Keys
      ensures Linked() && tree == Insert(old(tree), key, Record(node, k', v)) && cells.Keys == old(cells.Keys) + {node}
    {
      InsertedCells(head, tree, key, node, k', v);
      SetChild(parent, key, node);
      cells := cells[node := Cell(k', v, None, None)];
      Adopt(Insert(tree, key, Record(node, k', v)));
    }

    /**
      Adds the key unless it is there; `node` is the new record, null if none was made, as when `memory` runs out.
      The report is of an addition then too.
     */
    method DbAdd(key: string, value: string, memory: bool) returns (added: bool, ghost node: Node?)
      requires Linked()
      modifies this`cells, this`tree, cells.Keys
      ensures Linked()
      ensures added <==> old(Lookup(tree, key)).None?
      ensures node != null <==> added && |key| <= MAXLEN && |value| <= MAXLEN && memory
      ensures node == null ==> tree == old(tree) && cells == old(cells)
      ensures node != null ==> fresh(node) && cells.Keys == old(cells.Keys) + {node}
      ensures node != null ==> tree == Insert(old(tree), key, Record(node, Clip(key, MAXLEN), Clip(value, MAXLEN)))
      ensures old(Valid()) && |key| < MAXLEN && |value| < MAXLEN && memory ==>
        Valid() && AddedTo(old(Contents(tree)), key, value, added, Contents(tree))
      ensures old(Valid()) && node == null ==> Valid()
    {
      if Valid() { LookupIsMapGet(tree, key); }
      var target, parent := SearchHead(key);
      if target != null {
        return false, null;
      }
      assert Find(tree, key, head) == (parent, None);
      var newnode := NodeConstructor(key, value, null, null, memory);
      if newnode != null {
        if Ordered(tree) && |key| < MAXLEN {
          InsertOrdered(tree, key, newnode, Clip(value, MAXLEN));
          InsertContents(tree, key, newnode, key, Clip(value, MAXLEN));
        }
        LinkNew(key, parent, newnode, Clip(key, MAXLEN), Clip(value, MAXLEN));
      } else {
        OpenCell(head, tree, key);
        SetChild(parent, key, null);
        assert cells == old(cells);
      }
      return true, newnode;
    }

    /** Cuts out a found record with at most one child. */
    method Splice(key: string, parent: Node, dnode: Node, child: Node?)
      requires Linked() && Lookup(tree, key).Some?
      requires dnode == SubtreeAt(tree, key).id && parent == Find(tree, key, head).0
      requires var s := SubtreeAt(tree, key); (s.l.Leaf? || s.r.Leaf?) && child == Deref(RootOf(RemoveRoot(s)))
      requires dnode in cells && dnode.key == key
      modifies this`cells, this`tree, cells.Keys
      ensures Linked() && tree == Remove(old(tree), key) && cells.Keys == old(cells.Keys) - {dnode}
    {
      SplicedCells(head, tree, key);
      SetChild(parent, dnode.key, child);
      NodeDestructor(dnode);
      Adopt(Remove(tree, key));
    }

    /** The record with the smallest key below `next`, and the link that leads to it. */
    method FindSuccessor(dnode: Node, ghost s: Tree<Node>) returns (next: Node, holder: Node)
      requires Stored() && DistinctIds(s) && Within(s, cells) && s.Fork? && s.id == dnode && s.r.Fork?
      ensures next == Min(s.r).id && holder == MinHolder(s.r, dnode)
    {
      assert dnode in cells && cells[dnode] == Shape(s)[dnode];
      next, holder := dnode.rchild, dnode;
      ghost var t := s.r;
      RightWithin(s, cells);
      assert next in cells && cells[next] == Shape(t)[next];
      while next.lchild != null
        invariant t.Fork? && t.id == next && DistinctIds(t) && Within(t, cells)
        invariant next in cells && cells[next] == Shape(t)[next]
        invariant Min(t) == Min(s.r) && MinHolder(t, holder) == MinHolder(s.r, dnode)
        decreases t
      {
        LeftWithin(t, cells);
        holder, next, t := next, next.lchild, t.l;
        assert next in cells && cells[next] == Shape(t)[next];
      }
    }

    /** `*pnext = child`, where pnext is one of the two links of `holder`. */
    method SetLink(holder: Node, right: bool, child: Node?)
      requires Stored() && holder in cells
      modifies this`cells, holder
      ensures Stored()
      ensures cells == Relinked(old(cells), holder, right, Wrap(child))
    {
      assert holder.Stores(cells[holder]);
      if right {
        holder.rchild := child;
        cells := cells[holder := cells[holder].(right := Wrap(child))];
      } else {
        holder.lchild := child;
        cells := cells[holder := cells[holder].(left := Wrap(child))];
      }
    }

    /** Copies key and value of `next` into `dnode`, through buffers that hold them whole. */
    method CopyRecord(dnode: Node, next: Node)
      requires Stored() && dnode in cells && next in cells && dnode != next
      requires |cells[next].key| < MAXLEN && |cells[next].value| < MAXLEN
      modifies this`cells, dnode
      ensures Stored()
      ensures cells == Copied(old(cells), dnode, next)
    {
      assert dnode.Stores(cells[dnode]) && next.Stores(cells[next]);
      dnode.key := Clip(next.key, MAXLEN);
      dnode.value := Clip(next.value, MAXLEN);
      cells := cells[dnode := cells[dnode].(key := dnode.key, value := dnode.value)];
    }

    /** The record `next` leaves the tree and is destroyed. */
    method NodeDestructor(ghost next: Node)
      requires Stored()
      modifies this`cells
      ensures Stored() && cells == old(cells) - {next}
    {
      cells := cells - {next};
    }

    /** `dnode` takes over key and value of `next`, whose right child takes its place below `holder`. */
    method Bypass(dnode: Node, next: Node, holder: Node)
      requires Stored() && dnode in cells && next in cells && holder in cells && next !in {dnode, holder}
      requires |cells[next].key| < MAXLEN && |cells[next].value| < MAXLEN
      modifies this`cells, dnode, holder
      ensures Stored() && cells == TakenOver(old(cells), dnode, holder, next) - {next}
    {
      assert next.Stores(cells[next]);
      SetLink(holder, holder == dnode, next.rchild);
      CopyRecord(dnode, next);
      NodeDestructor(next);
    }

    /** `dnode` takes over its successor's key and value, and the successor is cut out. */
    method ReplaceBySuccessor(key: string, dnode: Node)
      requires Linked() && Lookup(tree, key).Some? && dnode == SubtreeAt(tree, key).id
      requires SubtreeAt(tree, key).l.Fork? && SubtreeAt(tree, key).r.Fork?
      modifies this`cells, this`tree, cells.Keys
      ensures Linked() && tree == Remove(old(tree), key)
      ensures cells.Keys == old(cells.Keys) - {Freed(SubtreeAt(old(tree), key))}
    {
      SubtreeWithin(head, tree, key);
      var next, holder := FindSuccessor(dnode, SubtreeAt(tree, key));
      TakenOverCells(head, tree, key);
      Bypass(dnode, next, holder);
      Adopt(Remove(tree, key));
    }

    /** Removes the key if it is there, and with it exactly one record. */
    method DbRemove(key: string) returns (removed: bool)
      requires Linked()
      modifies this`cells, this`tree, cells.Keys
      ensures Linked()
      ensures removed <==> old(Lookup(tree, key)).Some?
      ensures !removed ==> tree == old(tree) && cells == old(cells)
      ensures removed ==> tree == Remove(old(tree), key)
      ensures removed ==> cells.Keys == old(cells.Keys) - {Freed(SubtreeAt(old(tree), key))}
      ensures old(Valid()) ==> Valid() && RemovedFrom(old(Contents(tree)), key, removed, Contents(tree))
    {
      if Valid() {
        LookupIsMapGet(tree, key);
        RemoveContents(tree, key);
      }
      var dnode, parent := SearchHead(key);
      if dnode == null {
        return false;
      }
      SubtreeFacts(tree, key, head);
      FoundCell(head, tree, key);
      assert dnode.Stores(cells[dnode]);
      if dnode.rchild == null {
        Splice(key, parent, dnode, dnode.lchild);
      } else if dnode.lchild == null {
        Splice(key, parent, dnode, dnode.rchild);
      } else {
        ReplaceBySuccessor(key, dnode);
      }
      return true;
    }
  }

  // ---------------------------------------------------------------- records of subtrees

  lemma TreeWithin<I>(head: I, t: Tree<I>)
    requires head !in Ids(t)
    ensures Within(t, Cells(head, t))
  {
  }

  lemma SubtreeWithin<I>(head: I, t: Tree<I>, k: string)
    requires DistinctIds(t) && head !in Ids(t) && Lookup(t, k).Some?
    ensures var s := SubtreeAt(t, k); DistinctIds(s) && Within(s, Cells(head, t))
  {
    SubtreeFacts(t, k, head);
  }

  lemma SideWithin<I>(t: Tree<I>, k: string, cells: map<I, Cell<I>>)
    requires t.Fork? && DistinctIds(t) && Within(t, cells)
    ensures Within(Side(t, k), cells)
  {
  }

  lemma LeftWithin<I>(t: Tree<I>, cells: map<I, Cell<I>>)
    requires t.Fork? && DistinctIds(t) && Within(t, cells)
    ensures Within(t.l, cells)
  {
  }

  lemma RightWithin<I>(t: Tree<I>, cells: map<I, Cell<I>>)
    requires t.Fork? && DistinctIds(t) && Within(t, cells)
    ensures Within(t.r, cells)
  {
  }

  /** What the record found for `k` stores. */
  lemma FoundCell<I>(head: I, t: Tree<I>, k: string)
    requires DistinctIds(t) && head !in Ids(t) && Lookup(t, k).Some?
    ensures var s := SubtreeAt(t, k);
      && Find(t, k, head).1 == Some(s.id)
      && s.id in Cells(head, t) && Cells(head, t)[s.id] == Cell(k, Lookup(t, k).value, RootOf(s.l), RootOf(s.r))
  {
    SubtreeFacts(t, k, head);
    SubtreeValue(t, k);
  }

  lemma {:induction false} SubtreeValue<I>(t: Tree<I>, k: string)
    requires Lookup(t, k).Some?
    ensures Lookup(t, k) == Some(SubtreeAt(t, k).value)
    decreases t
  {
    if k != t.key {
      SubtreeValue(Side(t, k), k);
    }
  }

  lemma TakenOverFits<I>(m: map<I, Cell<I>>, d: I, n: I, h: I)
    requires d in m && n in m && h in m && Fits(m)
    ensures Fits(TakenOver(m, d, h, n) - {n})
  {
  }

  lemma TakenOverIs<I>(m: map<I, Cell<I>>, d: I, n: I, h: I)
    requires d in m && n in m && h in m && n != d && n != h
    ensures TakenOver(m, d, h, n) - {n} ==
      (if h == d then m[d := Cell(m[n].key, m[n].value, m[d].left, m[n].right)]
       else m[h := m[h].(left := m[n].right)][d := Cell(m[n].key, m[n].value, m[d].left, m[d].right)]) - {n}
  {
  }

  /** Taking over the successor is what removing a record with two children means for the records. */
  lemma TakenOverCells<I>(head: I, t: Tree<I>, k: string)
    requires Represents(head, t, Cells(head, t)) && Lookup(t, k).Some?
    requires SubtreeAt(t, k).l.Fork? && SubtreeAt(t, k).r.Fork?
    ensures var s, m := SubtreeAt(t, k), Cells(head, t); var n, h := Min(s.r).id, MinHolder(s.r, s.id);
      && s.id in m && n in m && h in m && n !in {s.id, h} && n == Freed(s) && n != head
      && Represents(head, Remove(t, k), TakenOver(m, s.id, h, n) - {n})
      && (TakenOver(m, s.id, h, n) - {n}).Keys == m.Keys - {n}
  {
    var s := SubtreeAt(t, k);
    SuccessorCells(head, t, k);
    SubtreeWithin(head, t, k);
    RightWithin(s, Cells(head, t));
    MinCell(s.r);
    RemoveIds(t, k);
    var m, n, h := Cells(head, t), Min(s.r).id, MinHolder(s.r, s.id);
    assert m[n] == Cell(Min(s.r).key, Min(s.r).value, None, RootOf(Min(s.r).r));
    TakenOverIs(m, s.id, n, h);
    TakenOverFits(m, s.id, n, h);
  }

  lemma InsertedCells<I>(head: I, t: Tree<I>, k: string, id: I, k': string, v: string)
    requires Represents(head, t, Cells(head, t)) && Find(t, k, head).1.None?
    requires id !in Cells(head, t) && |k'| < MAXLEN && |v| < MAXLEN
    ensures var p, m := Find(t, k, head).0, Cells(head, t);
      && p in m
      && Represents(head, Insert(t, k, Record(id, k', v)),
                    m[p := WithChild(m[p], k, Some(id))][id := Cell(k', v, None, None)])
  {
    InsertIds(t, k, id, k', v);
    InsertCells(head, t, k, id, k', v);
  }

  /** Cutting out a record with at most one child, for the records. */
  lemma SplicedCells<I>(head: I, t: Tree<I>, k: string)
    requires Represents(head, t, Cells(head, t)) && Lookup(t, k).Some?
    requires SubtreeAt(t, k).l.Leaf? || SubtreeAt(t, k).r.Leaf?
    ensures var s, p, m := SubtreeAt(t, k), Find(t, k, head).0, Cells(head, t);
      && p in m && p != s.id && s.id != head
      && Represents(head, Remove(t, k), m[p := WithChild(m[p], k, RootOf(RemoveRoot(s)))] - {s.id})
  {
    SpliceCells(head, t, k);
    RemoveIds(t, k);
  }

  /** Writing NULL where a search fell off changes nothing. */
  lemma OpenCell<I>(head: I, t: Tree<I>, k: string)
    requires DistinctIds(t) && head !in Ids(t) && Find(t, k, head).1.None?
    ensures var m, p := Cells(head, t), Find(t, k, head).0; p in m && m[p := WithChild(m[p], k, None)] == m
  {
    if t.Fork? {
      FindOpenSide(t, k, head);
    }
  }
}
