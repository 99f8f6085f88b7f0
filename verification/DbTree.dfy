/** How updates and removals move through the union that builds a tree's map from its parts. */
module MapParts {

  lemma PlusLeft<K, V>(a: map<K, V>, b: map<K, V>, k: K, v: V, m: K, w: V)
    requires m != k && m !in b
    ensures (a[m := w] + b)[k := v] == (a + b)[k := v][m := w]
  {
  }

  lemma PlusRight<K, V>(a: map<K, V>, b: map<K, V>, k: K, v: V, m: K, w: V)
    requires m != k
    ensures (a + b[m := w])[k := v] == (a + b)[k := v][m := w]
  {
  }

  lemma MinusLeft<K, V>(a: map<K, V>, b: map<K, V>, k: K, v: V, m: K)
    requires m != k && m !in b
    ensures (a - {m} + b)[k := v] == (a + b)[k := v] - {m}
  {
  }

  lemma MinusRight<K, V>(a: map<K, V>, b: map<K, V>, k: K, v: V, m: K)
    requires m != k && m !in a
    ensures (a + (b - {m}))[k := v] == (a + b)[k := v] - {m}
  {
  }

  lemma MinusRoot<K, V>(a: map<K, V>, b: map<K, V>, k: K, v: V)
    requires k !in a && k !in b
    ensures (a + b)[k := v] - {k} == a + b
  {
  }

  lemma UpdateMinus<K, V>(a: map<K, V>, k: K, v: V, w: V, m: K)
    requires m != k
    ensures a[k := v] - {m} == (a[k := w] - {m})[k := v]
  {
  }

  lemma ReplaceLeft<K, V>(a: map<K, V>, b: map<K, V>, k: K, v: V, d: set<K>, n: map<K, V>)
    requires k !in d && d !! b.Keys && n.Keys <= d
    ensures (a - d + n + b)[k := v] == (a + b)[k := v] - d + n
  {
  }

  lemma ReplaceRight<K, V>(a: map<K, V>, b: map<K, V>, k: K, v: V, d: set<K>, n: map<K, V>)
    requires k !in d && d !! a.Keys && n.Keys <= d
    ensures (a + (b - d + n))[k := v] == (a + b)[k := v] - d + n
  {
  }

  lemma MoveRoot<K, V>(a: map<K, V>, b: map<K, V>, m: K)
    requires m in b && m !in a
    ensures (a + (b - {m}))[m := b[m]] == a + b
  {
  }

  lemma InsertUnderHead<K, V>(a: map<K, V>, head: K, c: V, p: K, x: V, n: K, y: V)
    requires head != p && head != n && p != n
    ensures a[p := x][n := y][head := c] == a[head := c][p := x][n := y]
  {
  }

  lemma SpliceUnderHead<K, V>(a: map<K, V>, head: K, c: V, p: K, x: V, d: K)
    requires head != p && head != d && p != d
    ensures (a - {d})[p := x][head := c] == a[head := c][p := x] - {d}
  {
  }

  lemma ChildUnderHead<K, V>(a: map<K, V>, b: map<K, V>, head: K, c: V, s: K, x: V, d: K)
    requires head !in b && s in b && d in b && s != d && b.Keys <= a.Keys
    requires forall i :: i in b ==> a[i] == b[i]
    ensures (a - b.Keys + (b - {d})[s := x])[head := c] == a[head := c][s := x] - {d}
  {
  }

  lemma BelowUnderHead<K, V>(a: map<K, V>, b: map<K, V>, head: K, c: V, s: K, x: V, h: K, y: V, d: K)
    requires head !in b && s in b && d in b && h in b && s != d && h != d && h != s && b.Keys <= a.Keys
    requires forall i :: i in b ==> a[i] == b[i]
    ensures (a - b.Keys + (b - {d})[s := x][h := y])[head := c] == a[head := c][h := y][s := x] - {d}
  {
  }
}

/**
  The database's binary search tree as a value.  Every node carries the identity
  of the record that stores it, so the same laws serve records linked in memory
  and records locked by threads.
 */
module DbTree {
  import opened Options
  import opened MapParts

  // ---------------------------------------------------------------- strcmp

  /** strcmp(s, t) < 0 */
  predicate Less(s: string, t: string) {
    t != [] && (s == [] || s[0] < t[0] || (s[0] == t[0] && Less(s[1..], t[1..])))
  }

  lemma LessIrreflexive(s: string)
    ensures !Less(s, s)
  {
  }

  lemma LessTotal(s: string, t: string)
    ensures Less(s, t) || s == t || Less(t, s)
  {
    if s != [] && t != [] && s[0] == t[0] {
      LessTotal(s[1..], t[1..]);
      assert s == [s[0]] + s[1..] && t == [t[0]] + t[1..];
    }
  }

  lemma {:induction false} LessTrans(s: string, t: string, u: string)
    requires Less(s, t) && Less(t, u)
    ensures Less(s, u)
  {
    if s != [] && s[0] == t[0] == u[0] {
      LessTrans(s[1..], t[1..], u[1..]);
    }
  }

  lemma LessAsymmetric(s: string, t: string)
    requires Less(s, t)
    ensures !Less(t, s) && s != t
  {
    LessIrreflexive(s);
    if Less(t, s) { LessTrans(s, t, s); }
  }

  /** The strings agree before position i, where `s` ends or has the smaller character. */
  predicate SmallerAt(s: string, t: string, i: int) {
    0 <= i <= |s| && i < |t| && s[..i] == t[..i] && (i == |s| || s[i] < t[i])
  }

  /** The first difference decides. */
  lemma {:induction false} LessExact(s: string, t: string)
    ensures Less(s, t) <==> exists i :: SmallerAt(s, t, i)
  {
    if s != [] && t != [] && s[0] == t[0] {
      LessExact(s[1..], t[1..]);
      if Less(s, t) {
        var i :| SmallerAt(s[1..], t[1..], i);
        assert s[..i + 1] == [s[0]] + s[1..][..i] && t[..i + 1] == [t[0]] + t[1..][..i];
        assert SmallerAt(s, t, i + 1);
      }
      if i :| SmallerAt(s, t, i) {
        assert i > 0;
        assert s[1..][..i - 1] == s[..i][1..] && t[1..][..i - 1] == t[..i][1..];
        assert SmallerAt(s[1..], t[1..], i - 1);
      }
    } else if Less(s, t) {
      assert SmallerAt(s, t, 0);
    } else {
      forall i
        ensures !SmallerAt(s, t, i)
      {
        if 0 < i <= |s| && i < |t| { assert s[..i][0] == s[0] && t[..i][0] == t[0]; }
      }
    }
  }

  // ---------------------------------------------------------------- trees

  datatype Tree<I> = Leaf | Fork(id: I, key: string, value: string, l: Tree<I>, r: Tree<I>)

  function Ids<I>(t: Tree<I>): set<I> {
    if t.Leaf? then {} else {t.id} + Ids(t.l) + Ids(t.r)
  }

  /** No record occurs twice. */
  ghost predicate DistinctIds<I>(t: Tree<I>) {
    t.Fork? ==>
      && t.id !in Ids(t.l) && t.id !in Ids(t.r) && Ids(t.l) !! Ids(t.r)
      && DistinctIds(t.l) && DistinctIds(t.r)
  }

  /** The abstract database: what the tree maps keys to. */
  function Contents<I>(t: Tree<I>): map<string, string> {
    if t.Leaf? then map[] else (Contents(t.l) + Contents(t.r))[t.key := t.value]
  }

  ghost predicate Ordered<I>(t: Tree<I>) {
    t.Fork? ==>
      && (forall k :: k in Contents(t.l) ==> Less(k, t.key))
      && (forall k :: k in Contents(t.r) ==> Less(t.key, k))
      && Ordered(t.l) && Ordered(t.r)
  }

  /** The subtree a search for `k` enters from the root of `t`. */
  function Side<I>(t: Tree<I>, k: string): Tree<I>
    requires t.Fork?
  {
    if Less(k, t.key) then t.l else t.r
  }

  /** Binary search: where it ends, and the record met there, if any. */
  function Find<I>(t: Tree<I>, k: string, parent: I): (I, Option<I>) {
    if t.Leaf? then (parent, None)
    else if k == t.key then (parent, Some(t.id))
    else Find(Side(t, k), k, t.id)
  }

  function Lookup<I>(t: Tree<I>, k: string): Option<string> {
    if t.Leaf? then None
    else if k == t.key then Some(t.value)
    else Lookup(Side(t, k), k)
  }

  function MapGet(m: map<string, string>, k: string): Option<string> {
    if k in m then Some(m[k]) else None
  }

  /** The three parts of an ordered tree have no key in common. */
  lemma PartsDisjoint<I>(t: Tree<I>)
    requires Ordered(t) && t.Fork?
    ensures t.key !in Contents(t.l) && t.key !in Contents(t.r)
    ensures Contents(t.l).Keys !! Contents(t.r).Keys
  {
    LessIrreflexive(t.key);
    forall k | k in Contents(t.l)
      ensures k !in Contents(t.r)
    {
      LessAsymmetric(k, t.key);
    }
  }

  /** A key other than the root's is in the tree exactly if it is on the side a search takes. */
  lemma SideHolds<I>(t: Tree<I>, k: string)
    requires Ordered(t) && t.Fork? && k != t.key
    ensures MapGet(Contents(t), k) == MapGet(Contents(Side(t, k)), k)
    ensures k !in Contents(if Less(k, t.key) then t.r else t.l)
  {
    LessTotal(k, t.key);
    if Less(k, t.key) {
      LessAsymmetric(k, t.key);
    } else {
      LessAsymmetric(t.key, k);
    }
  }

  /** In an ordered tree binary search finds a key exactly if the map has it. */
  lemma {:induction false} LookupIsMapGet<I>(t: Tree<I>, k: string)
    requires Ordered(t)
    ensures Lookup(t, k) == MapGet(Contents(t), k)
    decreases t
  {
    if t.Fork? && k != t.key {
      SideHolds(t, k);
      LookupIsMapGet(Side(t, k), k);
    }
  }

  lemma {:induction false} FindIsLookup<I>(t: Tree<I>, k: string, parent: I)
    ensures Find(t, k, parent).1.Some? <==> Lookup(t, k).Some?
    ensures Find(t, k, parent).1.Some? ==> Find(t, k, parent).1.value in Ids(t)
    ensures Find(t, k, parent).0 in Ids(t) + {parent}
    decreases t
  {
    if t.Fork? && k != t.key {
      FindIsLookup(Side(t, k), k, t.id);
    }
  }

  // ---------------------------------------------------------------- insertion

  /** A new record at the place where a search for `k` falls off the tree. */
  function Insert<I>(t: Tree<I>, k: string, node: Tree<I>): Tree<I> {
    if t.Leaf? then node
    else if Less(k, t.key) then t.(l := Insert(t.l, k, node))
    else t.(r := Insert(t.r, k, node))
  }

  function Record<I>(id: I, k: string, v: string): Tree<I> {
    Fork(id, k, v, Leaf, Leaf)
  }

  lemma {:induction false} InsertContents<I>(t: Tree<I>, k: string, id: I, k': string, v: string)
    requires k' !in Contents(t)
    ensures Contents(Insert(t, k, Record(id, k', v))) == Contents(t)[k' := v]
  {
    if t.Fork? {
      if Less(k, t.key) {
        InsertContents(t.l, k, id, k', v);
        PlusLeft(Contents(t.l), Contents(t.r), t.key, t.value, k', v);
      } else {
        InsertContents(t.r, k, id, k', v);
        PlusRight(Contents(t.l), Contents(t.r), t.key, t.value, k', v);
      }
    }
  }

  lemma {:induction false} InsertIds<I>(t: Tree<I>, k: string, id: I, k': string, v: string)
    requires DistinctIds(t) && id !in Ids(t)
    ensures Ids(Insert(t, k, Record(id, k', v))) == Ids(t) + {id}
    ensures DistinctIds(Insert(t, k, Record(id, k', v)))
  {
    if t.Fork? {
      InsertIds(if Less(k, t.key) then t.l else t.r, k, id, k', v);
    }
  }

  /** Adding an absent key keeps the order and adds exactly that binding. */
  lemma {:induction false} InsertOrdered<I>(t: Tree<I>, k: string, id: I, v: string)
    requires Ordered(t) && k !in Contents(t)
    ensures Ordered(Insert(t, k, Record(id, k, v)))
  {
    if t.Fork? {
      LessTotal(k, t.key);
      if Less(k, t.key) {
        InsertOrdered(t.l, k, id, v);
        InsertContents(t.l, k, id, k, v);
      } else {
        InsertOrdered(t.r, k, id, v);
        InsertContents(t.r, k, id, k, v);
      }
    }
  }

  // ---------------------------------------------------------------- removal

  /** The record with the smallest key. */
  function Min<I>(t: Tree<I>): (m: Tree<I>)
    requires t.Fork?
    ensures m.Fork? && m.l.Leaf?
  {
    if t.l.Leaf? then t else Min(t.l)
  }

  /** The smallest record replaced by its right child. */
  function RemoveMin<I>(t: Tree<I>): Tree<I>
    requires t.Fork?
  {
    if t.l.Leaf? then t.r else t.(l := RemoveMin(t.l))
  }

  /** The root goes: a single child takes its place, or the successor's key and value do. */
  function RemoveRoot<I>(t: Tree<I>): Tree<I>
    requires t.Fork?
  {
    if t.r.Leaf? then t.l
    else if t.l.Leaf? then t.r
    else Fork(t.id, Min(t.r).key, Min(t.r).value, t.l, RemoveMin(t.r))
  }

  function Remove<I>(t: Tree<I>, k: string): Tree<I> {
    if t.Leaf? then t
    else if k == t.key then RemoveRoot(t)
    else if Less(k, t.key) then t.(l := Remove(t.l, k))
    else t.(r := Remove(t.r, k))
  }

  lemma {:induction false} MinIsLeast<I>(t: Tree<I>)
    requires Ordered(t) && t.Fork?
    ensures Min(t).key in Contents(t) && Contents(t)[Min(t).key] == Min(t).value
    ensures forall k :: k in Contents(t) && k != Min(t).key ==> Less(Min(t).key, k)
  {
    PartsDisjoint(t);
    if t.l.Fork? {
      MinIsLeast(t.l);
      forall k | k in Contents(t.r)
        ensures Less(Min(t).key, k)
      {
        LessTrans(Min(t).key, t.key, k);
      }
    }
  }

  lemma {:induction false} RemoveMinContents<I>(t: Tree<I>)
    requires Ordered(t) && t.Fork?
    ensures Contents(RemoveMin(t)) == Contents(t) - {Min(t).key}
    ensures Ordered(RemoveMin(t))
  {
    PartsDisjoint(t);
    if t.l.Leaf? {
      MinusRoot(map[], Contents(t.r), t.key, t.value);
    } else {
      MinIsLeast(t.l);
      RemoveMinContents(t.l);
      MinusLeft(Contents(t.l), Contents(t.r), t.key, t.value, Min(t).key);
    }
  }

  lemma SuccessorOrdered<I>(t: Tree<I>)
    requires Ordered(t) && t.Fork? && t.l.Fork? && t.r.Fork?
    ensures Ordered(RemoveRoot(t))
    ensures Contents(RemoveRoot(t)) == Contents(t) - {t.key}
  {
    var m := Min(t.r);
    PartsDisjoint(t);
    MinIsLeast(t.r);
    RemoveMinContents(t.r);
    forall k | k in Contents(t.l)
      ensures Less(k, m.key)
    {
      LessTrans(k, t.key, m.key);
    }
    MoveRoot(Contents(t.l), Contents(t.r), m.key);
    MinusRoot(Contents(t.l), Contents(t.r), t.key, t.value);
  }

  lemma RemoveRootContents<I>(t: Tree<I>)
    requires Ordered(t) && t.Fork?
    ensures Ordered(RemoveRoot(t))
    ensures Contents(RemoveRoot(t)) == Contents(t) - {t.key}
  {
    PartsDisjoint(t);
    if t.r.Fork? && t.l.Fork? {
      SuccessorOrdered(t);
    } else {
      MinusRoot(Contents(t.l), Contents(t.r), t.key, t.value);
    }
  }

  /** Removal keeps the order and deletes exactly the given key. */
  lemma {:induction false} RemoveContents<I>(t: Tree<I>, k: string)
    requires Ordered(t)
    ensures Ordered(Remove(t, k))
    ensures Contents(Remove(t, k)) == Contents(t) - {k}
  {
    if t.Fork? {
      if k == t.key {
        RemoveRootContents(t);
      } else {
        SideHolds(t, k);
        RemoveContents(Side(t, k), k);
        if Less(k, t.key) {
          MinusLeft(Contents(t.l), Contents(t.r), t.key, t.value, k);
        } else {
          MinusRight(Contents(t.l), Contents(t.r), t.key, t.value, k);
        }
      }
    }
  }

  // ---------------------------------------------------------------- the tree as linked records

  /** What a record stores: key, value and the records of its two children. */
  datatype Cell<I> = Cell(key: string, value: string, left: Option<I>, right: Option<I>)

  function RootOf<I>(t: Tree<I>): Option<I> {
    if t.Leaf? then None else Some(t.id)
  }

  function Shape<I>(t: Tree<I>): (m: map<I, Cell<I>>)
    ensures m.Keys == Ids(t)
  {
    if t.Leaf? then map[]
    else (Shape(t.l) + Shape(t.r))[t.id := Cell(t.key, t.value, RootOf(t.l), RootOf(t.r))]
  }

  /** The record `c` with the child on the side of key `k` replaced. */
  function WithChild<I>(c: Cell<I>, k: string, child: Option<I>): Cell<I> {
    if Less(k, c.key) then c.(left := child) else c.(right := child)
  }

  /** Inserting below an existing record changes one link of one record and adds one. */
  lemma {:induction false} InsertShape<I>(t: Tree<I>, k: string, id: I, k': string, v: string, parent: I)
    requires DistinctIds(t) && id !in Ids(t) && t.Fork? && Find(t, k, parent).1.None?
    ensures var p := Find(t, k, parent).0;
      && p in Ids(t)
      && Shape(Insert(t, k, Record(id, k', v)))
         == Shape(t)[p := WithChild(Shape(t)[p], k, Some(id))][id := Cell(k', v, None, None)]
    decreases t
  {
    var c := Cell(t.key, t.value, RootOf(t.l), RootOf(t.r));
    var s := Side(t, k);
    var leaf := Cell(k', v, None, None);
    if s.Leaf? {
      assert Find(s, k, t.id) == (t.id, None);
      if Less(k, t.key) {
        assert Shape(Record(id, k', v)) == map[id := leaf];
        assert (map[id := leaf] + Shape(t.r))[t.id := c.(left := Some(id))]
            == Shape(t)[t.id := c.(left := Some(id))][id := leaf];
      } else {
        assert Shape(Record(id, k', v)) == map[id := leaf];
        assert (Shape(t.l) + map[id := leaf])[t.id := c.(right := Some(id))]
            == Shape(t)[t.id := c.(right := Some(id))][id := leaf];
      }
    } else {
      InsertShape(s, k, id, k', v, t.id);
      var p := Find(t, k, parent).0;
      var x := WithChild(Shape(s)[p], k, Some(id));
      if Less(k, t.key) {
        PlusLeft(Shape(t.l)[p := x], Shape(t.r), t.id, c, id, leaf);
        PlusLeft(Shape(t.l), Shape(t.r), t.id, c, p, x);
      } else {
        PlusRight(Shape(t.l), Shape(t.r)[p := x], t.id, c, id, leaf);
        PlusRight(Shape(t.l), Shape(t.r), t.id, c, p, x);
      }
    }
  }

  /** The subtree whose root holds key `k`. */
  function SubtreeAt<I>(t: Tree<I>, k: string): (s: Tree<I>)
    requires Lookup(t, k).Some?
    ensures s.Fork? && s.key == k
  {
    if k == t.key then t else SubtreeAt(Side(t, k), k)
  }

  lemma {:induction false} SubtreeFacts<I>(t: Tree<I>, k: string, parent: I)
    requires DistinctIds(t) && Lookup(t, k).Some?
    ensures var s := SubtreeAt(t, k);
      && DistinctIds(s) && Ids(s) <= Ids(t)
      && Find(t, k, parent).1 == Some(s.id)
      && (forall i :: i in Ids(s) ==> Shape(t)[i] == Shape(s)[i])
      && (Ordered(t) ==> Ordered(s))
    decreases t
  {
    if k != t.key {
      SubtreeFacts(Side(t, k), k, t.id);
    }
  }

  /** The removed record is the child of the root on the side of `k`. */
  lemma SpliceChildShape<I>(t: Tree<I>, k: string)
    requires DistinctIds(t) && t.Fork? && k != t.key && Side(t, k).Fork? && Side(t, k).key == k
    requires var u := Side(t, k); Shape(RemoveRoot(u)) == Shape(u) - {u.id}
    ensures var u := Side(t, k);
      Shape(Remove(t, k)) == (Shape(t) - {u.id})[t.id := WithChild(Shape(t)[t.id], k, RootOf(RemoveRoot(u)))]
  {
    var c := Cell(t.key, t.value, RootOf(t.l), RootOf(t.r));
    var u := Side(t, k);
    var x := WithChild(c, k, RootOf(RemoveRoot(u)));
    if Less(k, t.key) {
      MinusLeft(Shape(t.l), Shape(t.r), t.id, x, u.id);
    } else {
      MinusRight(Shape(t.l), Shape(t.r), t.id, x, u.id);
    }
    UpdateMinus(Shape(t.l) + Shape(t.r), t.id, x, c, u.id);
  }

  /** Splicing out a record with at most one child changes one link of its parent. */
  lemma {:induction false} SpliceShape<I>(t: Tree<I>, k: string, parent: I)
    requires DistinctIds(t) && Lookup(t, k).Some? && parent !in Ids(t)
    requires var s := SubtreeAt(t, k); s.l.Leaf? || s.r.Leaf?
    ensures var s, p := SubtreeAt(t, k), Find(t, k, parent).0;
      && s.id in Ids(t) && p != s.id
      && (k == t.key ==> p == parent && Remove(t, k) == RemoveRoot(s) && Shape(Remove(t, k)) == Shape(t) - {s.id})
      && (k != t.key ==>
            && p in Ids(t) && RootOf(Remove(t, k)) == RootOf(t)
            && Shape(Remove(t, k)) == (Shape(t) - {s.id})[p := WithChild(Shape(t)[p], k, RootOf(RemoveRoot(s)))])
    decreases t
  {
    var c := Cell(t.key, t.value, RootOf(t.l), RootOf(t.r));
    if k == t.key {
      MinusRoot(Shape(t.l), Shape(t.r), t.id, c);
    } else {
      var u := Side(t, k);
      SpliceShape(u, k, t.id);
      if k == u.key {
        SpliceChildShape(t, k);
      } else {
        var s, p := SubtreeAt(t, k), Find(t, k, parent).0;
        var x := WithChild(Shape(u)[p], k, RootOf(RemoveRoot(s)));
        if Less(k, t.key) {
          PlusLeft(Shape(t.l) - {s.id}, Shape(t.r), t.id, c, p, x);
          MinusLeft(Shape(t.l), Shape(t.r), t.id, c, s.id);
        } else {
          PlusRight(Shape(t.l), Shape(t.r) - {s.id}, t.id, c, p, x);
          MinusRight(Shape(t.l), Shape(t.r), t.id, c, s.id);
        }
      }
    }
  }

  /** The record whose link leads to the smallest one; `parent` if that is the root. */
  function MinHolder<I>(t: Tree<I>, parent: I): I
    requires t.Fork?
  {
    if t.l.Leaf? then parent else MinHolder(t.l, t.id)
  }

  /** The records from the root down the left links; the last one has the smallest key. */
  function Spine<I>(t: Tree<I>): (sp: seq<I>)
    ensures (sp == [] <==> t.Leaf?) && (t.Fork? ==> sp[0] == t.id)
  {
    if t.Leaf? then [] else [t.id] + Spine(t.l)
  }

  lemma {:induction false} SpineEnds<I>(t: Tree<I>, parent: I)
    requires t.Fork?
    ensures var sp := Spine(t);
      && sp[|sp| - 1] == Min(t).id
      && MinHolder(t, parent) == (if |sp| == 1 then parent else sp[|sp| - 2])
    decreases t
  {
    if t.l.Fork? {
      SpineEnds(t.l, t.id);
    }
  }

  lemma {:induction false} SpineWithin<I>(t: Tree<I>)
    ensures forall y :: y in Spine(t) ==> y in Ids(t)
    ensures |Spine(t)| <= |Ids(t)| || !DistinctIds(t)
  {
    if t.Fork? {
      SpineWithin(t.l);
      if DistinctIds(t) {
        assert {t.id} + Ids(t.l) !! Ids(t.r) && t.id !in Ids(t.l);
        assert |Ids(t)| == |{t.id} + Ids(t.l)| + |Ids(t.r)|;
      }
    }
  }

  lemma {:induction false} RemoveMinShape<I>(t: Tree<I>, parent: I)
    requires DistinctIds(t) && t.Fork? && parent !in Ids(t)
    ensures var m, h := Min(t), MinHolder(t, parent);
      && m.id in Ids(t) && h != m.id && (h == parent <==> t.l.Leaf?)
      && Ids(RemoveMin(t)) == Ids(t) - {m.id} && DistinctIds(RemoveMin(t))
      && (t.l.Leaf? ==> Shape(RemoveMin(t)) == Shape(t) - {m.id})
      && (t.l.Fork? ==>
            && h in Ids(t) && RootOf(RemoveMin(t)) == RootOf(t)
            && Shape(RemoveMin(t)) == (Shape(t) - {m.id})[h := Shape(t)[h].(left := RootOf(m.r))])
    decreases t
  {
    var c := Cell(t.key, t.value, RootOf(t.l), RootOf(t.r));
    if t.l.Leaf? {
      MinusRoot(Shape(t.l), Shape(t.r), t.id, c);
    } else {
      RemoveMinShape(t.l, t.id);
      var m, h := Min(t), MinHolder(t, parent);
      if t.l.l.Leaf? {
        var x := c.(left := RootOf(m.r));
        MinusLeft(Shape(t.l), Shape(t.r), t.id, x, m.id);
        UpdateMinus(Shape(t.l) + Shape(t.r), t.id, x, c, m.id);
      } else {
        PlusLeft(Shape(t.l) - {m.id}, Shape(t.r), t.id, c, h, Shape(t)[h].(left := RootOf(m.r)));
        MinusLeft(Shape(t.l), Shape(t.r), t.id, c, m.id);
      }
    }
  }

  lemma {:induction false} MinCell<I>(t: Tree<I>)
    requires DistinctIds(t) && t.Fork?
    ensures Min(t).id in Ids(t)
    ensures Shape(t)[Min(t).id] == Cell(Min(t).key, Min(t).value, None, RootOf(Min(t).r))
  {
    if t.l.Fork? {
      MinCell(t.l);
    }
  }

  /** A record that takes over key and value of its successor `m`, which is its right child. */
  lemma SuccessorIsChildShape<I>(s: Tree<I>)
    requires DistinctIds(s) && s.Fork? && s.l.Fork? && s.r.Fork? && s.r.l.Leaf?
    ensures var m := s.r;
      Shape(RemoveRoot(s)) == (Shape(s) - {m.id})[s.id := Cell(m.key, m.value, RootOf(s.l), RootOf(m.r))]
  {
    var m := s.r;
    RemoveMinShape(m, s.id);
    var c := Cell(m.key, m.value, RootOf(s.l), RootOf(m.r));
    MinusRight(Shape(s.l), Shape(s.r), s.id, c, m.id);
    UpdateMinus(Shape(s.l) + Shape(s.r), s.id, c, Cell(s.key, s.value, RootOf(s.l), RootOf(s.r)), m.id);
  }

  /** The successor is further down: the record above it loses its left child to the successor's right one. */
  lemma SuccessorBelowShape<I>(s: Tree<I>)
    requires DistinctIds(s) && s.Fork? && s.l.Fork? && s.r.Fork? && s.r.l.Fork?
    ensures var m, h := Min(s.r), MinHolder(s.r, s.id);
      && h in Ids(s)
      && Shape(RemoveRoot(s)) ==
         (Shape(s) - {m.id})[s.id := Cell(m.key, m.value, RootOf(s.l), RootOf(s.r))]
                            [h := Shape(s)[h].(left := RootOf(m.r))]
  {
    RemoveMinShape(s.r, s.id);
    var m, h := Min(s.r), MinHolder(s.r, s.id);
    var c := Cell(m.key, m.value, RootOf(s.l), RootOf(s.r));
    PlusRight(Shape(s.l), Shape(s.r) - {m.id}, s.id, c, h, Shape(s)[h].(left := RootOf(m.r)));
    MinusRight(Shape(s.l), Shape(s.r), s.id, c, m.id);
    UpdateMinus(Shape(s.l) + Shape(s.r), s.id, c, Cell(s.key, s.value, RootOf(s.l), RootOf(s.r)), m.id);
  }

  lemma SuccessorIds<I>(s: Tree<I>)
    requires DistinctIds(s) && s.Fork? && s.l.Fork? && s.r.Fork?
    ensures var m := Min(s.r);
      && m.id in Ids(s) && m.id != s.id
      && Ids(RemoveRoot(s)) == Ids(s) - {m.id} && DistinctIds(RemoveRoot(s))
  {
    RemoveMinShape(s.r, s.id);
  }

  /** Replacing a subtree by one with the same root changes only the subtree's records. */
  lemma {:induction false} ReplaceShape<I>(t: Tree<I>, k: string)
    requires DistinctIds(t) && Lookup(t, k).Some?
    requires var s := SubtreeAt(t, k); RootOf(RemoveRoot(s)) == RootOf(s) && Ids(RemoveRoot(s)) <= Ids(s)
    ensures var s := SubtreeAt(t, k);
      && RootOf(Remove(t, k)) == RootOf(t)
      && Shape(Remove(t, k)) == Shape(t) - Ids(s) + Shape(RemoveRoot(s))
    decreases t
  {
    var s := SubtreeAt(t, k);
    if k == t.key {
      assert Shape(t) - Ids(t) == map[];
    } else {
      ReplaceShape(Side(t, k), k);
      SubtreeFacts(Side(t, k), k, t.id);
      var c := Cell(t.key, t.value, RootOf(t.l), RootOf(t.r));
      if Less(k, t.key) {
        ReplaceLeft(Shape(t.l), Shape(t.r), t.id, c, Ids(s), Shape(RemoveRoot(s)));
      } else {
        ReplaceRight(Shape(t.l), Shape(t.r), t.id, c, Ids(s), Shape(RemoveRoot(s)));
      }
    }
  }

  /** The record freed when the root of `s` is removed: its own, or its successor's. */
  function Freed<I>(s: Tree<I>): I
    requires s.Fork?
  {
    if s.l.Leaf? || s.r.Leaf? then s.id else Min(s.r).id
  }

  lemma RemoveRootIds<I>(s: Tree<I>)
    requires DistinctIds(s) && s.Fork?
    ensures Freed(s) in Ids(s)
    ensures DistinctIds(RemoveRoot(s)) && Ids(RemoveRoot(s)) == Ids(s) - {Freed(s)}
  {
    if s.l.Fork? && s.r.Fork? {
      SuccessorIds(s);
    }
  }

  /** Removal keeps records distinct and drops exactly one of them. */
  lemma {:induction false} RemoveIds<I>(t: Tree<I>, k: string)
    requires DistinctIds(t) && Lookup(t, k).Some?
    ensures Freed(SubtreeAt(t, k)) in Ids(t)
    ensures DistinctIds(Remove(t, k)) && Ids(Remove(t, k)) == Ids(t) - {Freed(SubtreeAt(t, k))}
    decreases t
  {
    if k == t.key {
      RemoveRootIds(t);
    } else {
      RemoveIds(Side(t, k), k);
    }
  }

  // ---------------------------------------------------------------- the records under the head

  /** The records of the tree together with the dummy head above it. */
  function Cells<I>(head: I, t: Tree<I>): map<I, Cell<I>> {
    Shape(t)[head := Cell("", "", None, RootOf(t))]
  }

  function Child<I>(c: Cell<I>, k: string): Option<I> {
    if Less(k, c.key) then c.left else c.right
  }

  /** Adding a record changes one link of the record where the search ended. */
  lemma InsertCells<I>(head: I, t: Tree<I>, k: string, id: I, k': string, v: string)
    requires DistinctIds(t) && head !in Ids(t) && id !in Ids(t) && id != head && Find(t, k, head).1.None?
    ensures var p := Find(t, k, head).0; var m := Cells(head, t);
      && p in m
      && Cells(head, Insert(t, k, Record(id, k', v)))
         == m[p := WithChild(m[p], k, Some(id))][id := Cell(k', v, None, None)]
  {
    if t.Fork? {
      InsertShape(t, k, id, k', v, head);
      var p := Find(t, k, head).0;
      InsertUnderHead(Shape(t), head, Cell("", "", None, RootOf(t)), p, WithChild(Shape(t)[p], k, Some(id)), id,
                      Cell(k', v, None, None));
    } else {
      assert Shape(Record(id, k', v)) == map[id := Cell(k', v, None, None)];
    }
  }

  /** Where a search falls off the tree the link on that side is already empty. */
  lemma {:induction false} FindOpenSide<I>(t: Tree<I>, k: string, parent: I)
    requires DistinctIds(t) && Find(t, k, parent).1.None? && t.Fork?
    ensures var p := Find(t, k, parent).0; p in Ids(t) && Child(Shape(t)[p], k).None?
    decreases t
  {
    if Side(t, k).Fork? {
      FindOpenSide(Side(t, k), k, t.id);
    }
  }

  lemma SpliceCells<I>(head: I, t: Tree<I>, k: string)
    requires DistinctIds(t) && Lookup(t, k).Some? && head !in Ids(t)
    requires var s := SubtreeAt(t, k); s.l.Leaf? || s.r.Leaf?
    ensures var s, p, m := SubtreeAt(t, k), Find(t, k, head).0, Cells(head, t);
      && p in m && p != s.id
      && Cells(head, Remove(t, k)) == m[p := WithChild(m[p], k, RootOf(RemoveRoot(s)))] - {s.id}
  {
    SpliceShape(t, k, head);
    var s, p := SubtreeAt(t, k), Find(t, k, head).0;
    if k != t.key {
      SpliceUnderHead(Shape(t), head, Cell("", "", None, RootOf(t)), p,
                      WithChild(Shape(t)[p], k, RootOf(RemoveRoot(s))), s.id);
    }
  }

  /** The record with its right or its left link replaced. */
  function WithLink<I>(cell: Cell<I>, right: bool, child: Option<I>): Cell<I> {
    if right then cell.(right := child) else cell.(left := child)
  }

  function Relinked<I>(m: map<I, Cell<I>>, h: I, right: bool, child: Option<I>): map<I, Cell<I>>
    requires h in m
  {
    m[h := WithLink(m[h], right, child)]
  }

  function Copied<I>(m: map<I, Cell<I>>, d: I, n: I): map<I, Cell<I>>
    requires d in m && n in m
  {
    m[d := m[d].(key := m[n].key, value := m[n].value)]
  }

  /** The three writes: `h` loses its child `n` to n's right child, and `d` takes over key and value of `n`. */
  function TakenOver<I>(m: map<I, Cell<I>>, d: I, h: I, n: I): map<I, Cell<I>>
    requires d in m && n in m && h in m
  {
    Copied(Relinked(m, h, h == d, m[n].right), d, n)
  }

  lemma SuccessorCells<I>(head: I, t: Tree<I>, k: string)
    requires DistinctIds(t) && Lookup(t, k).Some? && head !in Ids(t)
    requires var s := SubtreeAt(t, k); s.l.Fork? && s.r.Fork?
    ensures var s, m := SubtreeAt(t, k), Cells(head, t); var u, h := Min(s.r), MinHolder(s.r, s.id);
      && s.id in m && h in m && h != u.id && s.id != u.id
      && Cells(head, Remove(t, k)) ==
         (if h == s.id then m[s.id := Cell(u.key, u.value, m[s.id].left, RootOf(u.r))]
          else m[h := m[h].(left := RootOf(u.r))][s.id := Cell(u.key, u.value, m[s.id].left, m[s.id].right)]) - {u.id}
  {
    var s := SubtreeAt(t, k);
    var u, h := Min(s.r), MinHolder(s.r, s.id);
    SubtreeFacts(t, k, head);
    SuccessorIds(s);
    ReplaceShape(t, k);
    RemoveMinShape(s.r, s.id);
    var c := Cell("", "", None, RootOf(t));
    if s.r.l.Leaf? {
      SuccessorIsChildShape(s);
      ChildUnderHead(Shape(t), Shape(s), head, c, s.id, Cell(u.key, u.value, RootOf(s.l), RootOf(u.r)), u.id);
    } else {
      SuccessorBelowShape(s);
      BelowUnderHead(Shape(t), Shape(s), head, c, s.id, Cell(u.key, u.value, RootOf(s.l), RootOf(s.r)),
                     h, Shape(s)[h].(left := RootOf(u.r)), u.id);
    }
  }
}
