/**
  The drunken walk that carves a maze: from a room it tries the four sides in any
  order, opens the way to rooms not yet visited and walks on from them.  Whatever
  the order, the openings end up as a spanning tree of the grid.
 */
module MazeGenerator {
  import opened Sequences
  import opened Options
  import opened MazeGrid

  // ---------------------------------------------------------------- what the walk keeps

  /**
    One side of one room, while the rooms in `active` are being walked and those in `entering` are about to be:
    undecided in rooms not visited, decided in rooms left, a wall at the border, the same from both rooms that
    share it, and decided only when the room beyond has been visited.
   */
  ghost predicate SideOk(rows: nat, cols: nat, g: Grid, active: set<Pos>, entering: set<Pos>, p: Pos, d: Direction)
    requires p in g
  {
    var v, q := Side(g[p], d), GetNeighbor(rows, cols, p, d);
    && v in {-1, 0, 1}
    && (!g[p].visited ==> v == -1)
    && (g[p].visited && p !in active ==> v != -1)
    && (q.None? && v != -1 ==> v == 1)
    && (q.Some? && v != -1 ==>
          && q.value in g && (g[q.value].visited || (v == 0 && q.value in entering))
          && (Side(g[q.value], Opposite(d)) != -1 ==> Side(g[q.value], Opposite(d)) == v))
  }

  ghost predicate WalkOk(rows: nat, cols: nat, g: Grid, active: set<Pos>, entering: set<Pos>) {
    && g.Keys == Rooms(rows, cols)
    && (forall p :: p in g ==> g[p].row == p.row && g[p].col == p.col)
    && (forall p :: p in active ==> p in g && g[p].visited)
    && (forall p :: p in entering ==> p in g && !g[p].visited)
    && (forall p, d {:trigger SideOk(rows, cols, g, active, entering, p, d)} ::
          p in g ==> SideOk(rows, cols, g, active, entering, p, d))
  }

  ghost function Visited(g: Grid): set<Pos> {
    set p | p in g && g[p].visited
  }

  ghost function Unvisited(g: Grid): set<Pos> {
    set p | p in g && !g[p].visited
  }

  // ---------------------------------------------------------------- one step of the walk

  ghost function Decided(g: Grid, p: Pos, d: Direction, v: int): Grid
    requires p in g
  {
    g[p := WithSide(g[p], d, v)]
  }

  lemma RoomsHold(rows: nat, cols: nat, p: Pos)
    ensures p in Rooms(rows, cols) <==> IsInRange(p.row, p.col, rows, cols)
  {
  }

  lemma EnterOk(rows: nat, cols: nat, g: Grid, active: set<Pos>, p: Pos)
    requires WalkOk(rows, cols, g, active, {p})
    ensures WalkOk(rows, cols, g[p := g[p].(visited := true)], active + {p}, {})
  {
    var g' := g[p := g[p].(visited := true)];
    forall q, d {:trigger SideOk(rows, cols, g', active + {p}, {}, q, d)} | q in g'
      ensures SideOk(rows, cols, g', active + {p}, {}, q, d)
    {
      assert SideOk(rows, cols, g, active, {p}, q, d);
    }
  }

  /** The value the walk gives to a side it does not open. */
  function Settled(rows: nat, cols: nat, g: Grid, p: Pos, d: Direction): int {
    var q := GetNeighbor(rows, cols, p, d);
    if q.None? || q.value !in g || Side(g[q.value], Opposite(d)) == -1 then 1 else Side(g[q.value], Opposite(d))
  }

  lemma SettleOk(rows: nat, cols: nat, g: Grid, active: set<Pos>, p: Pos, d: Direction)
    requires WalkOk(rows, cols, g, active, {}) && p in active && Side(g[p], d) == -1
    requires var q := GetNeighbor(rows, cols, p, d); q.Some? ==> q.value in g && g[q.value].visited
    ensures WalkOk(rows, cols, Decided(g, p, d, Settled(rows, cols, g, p, d)), active, {})
  {
    var g' := Decided(g, p, d, Settled(rows, cols, g, p, d));
    var n := GetNeighbor(rows, cols, p, d);
    if n.Some? { NeighborBack(rows, cols, p, d); assert SideOk(rows, cols, g, active, {}, n.value, Opposite(d)); }
    forall q, e {:trigger SideOk(rows, cols, g', active, {}, q, e)} | q in g'
      ensures SideOk(rows, cols, g', active, {}, q, e)
    {
      assert SideOk(rows, cols, g, active, {}, q, e);
      if GetNeighbor(rows, cols, q, e).Some? { NeighborBack(rows, cols, q, e); }
    }
  }

  lemma OpenOk(rows: nat, cols: nat, g: Grid, active: set<Pos>, p: Pos, d: Direction)
    requires WalkOk(rows, cols, g, active, {}) && p in active && Side(g[p], d) == -1
    requires var q := GetNeighbor(rows, cols, p, d); q.Some? && q.value in g && !g[q.value].visited
    ensures WalkOk(rows, cols, Decided(g, p, d, 0), active, {GetNeighbor(rows, cols, p, d).value})
  {
    var g', n := Decided(g, p, d, 0), GetNeighbor(rows, cols, p, d).value;
    NeighborBack(rows, cols, p, d);
    assert SideOk(rows, cols, g, active, {}, n, Opposite(d));
    forall q, e {:trigger SideOk(rows, cols, g', active, {n}, q, e)} | q in g'
      ensures SideOk(rows, cols, g', active, {n}, q, e)
    {
      assert SideOk(rows, cols, g, active, {}, q, e);
      if GetNeighbor(rows, cols, q, e).Some? { NeighborBack(rows, cols, q, e); }
    }
  }

  lemma LeaveOk(rows: nat, cols: nat, g: Grid, active: set<Pos>, p: Pos)
    requires WalkOk(rows, cols, g, active + {p}, {}) && forall d :: Side(g[p], d) != -1
    ensures WalkOk(rows, cols, g, active, {})
  {
    forall q, d {:trigger SideOk(rows, cols, g, active, {}, q, d)} | q in g
      ensures SideOk(rows, cols, g, active, {}, q, d)
    {
      assert SideOk(rows, cols, g, active + {p}, {}, q, d);
    }
  }

  // ---------------------------------------------------------------- counting edges

  ghost predicate Carved(rows: nat, cols: nat, g: Grid, e: Edge) {
    exists p, d :: p in g && Side(g[p], d) == 0 && EdgeOf(rows, cols, p, d) == e
  }

  lemma EdgesAre(rows: nat, cols: nat, g: Grid, e: Edge)
    ensures e in OpenEdges(rows, cols, g) <==> Carved(rows, cols, g, e)
  {
    if Carved(rows, cols, g, e) {
      var p, d :| p in g && Side(g[p], d) == 0 && EdgeOf(rows, cols, p, d) == e;
      assert d in {NORTH, SOUTH, WEST, EAST};
    }
  }

  /** Two sides are the same edge only if they are the same side or face each other. */
  lemma EdgeTwoSides(rows: nat, cols: nat, p: Pos, d: Direction, q: Pos, e: Direction)
    requires EdgeOf(rows, cols, p, d) == EdgeOf(rows, cols, q, e)
    ensures (p == q && d == e) || (GetNeighbor(rows, cols, p, d) == Some(q) && e == Opposite(d))
  {
    if GetNeighbor(rows, cols, p, d).Some? { NeighborBack(rows, cols, p, d); }
    if GetNeighbor(rows, cols, q, e).Some? { NeighborBack(rows, cols, q, e); }
  }

  lemma EdgeFacing(rows: nat, cols: nat, p: Pos, d: Direction)
    requires GetNeighbor(rows, cols, p, d).Some?
    ensures EdgeOf(rows, cols, GetNeighbor(rows, cols, p, d).value, Opposite(d)) == EdgeOf(rows, cols, p, d)
  {
    NeighborBack(rows, cols, p, d);
  }

  lemma EnterEdges(rows: nat, cols: nat, g: Grid, p: Pos)
    requires p in g && !g[p].visited
    ensures var g' := g[p := g[p].(visited := true)];
      OpenEdges(rows, cols, g') == OpenEdges(rows, cols, g) && |Visited(g')| == |Visited(g)| + 1
  {
    var g' := g[p := g[p].(visited := true)];
    assert forall q, d {:trigger Side(g'[q], d)} {:trigger Side(g[q], d)} :: q in g ==> Side(g'[q], d) == Side(g[q], d);
    assert Visited(g') == Visited(g) + {p};
  }

  /** Settling a side carves nothing new: an opening it copies was already an edge. */
  lemma SettleEdges(rows: nat, cols: nat, g: Grid, p: Pos, d: Direction)
    requires p in g && Side(g[p], d) == -1
    ensures OpenEdges(rows, cols, Decided(g, p, d, Settled(rows, cols, g, p, d))) == OpenEdges(rows, cols, g)
    ensures Visited(Decided(g, p, d, Settled(rows, cols, g, p, d))) == Visited(g)
  {
    var g' := Decided(g, p, d, Settled(rows, cols, g, p, d));
    forall e
      ensures e in OpenEdges(rows, cols, g') <==> e in OpenEdges(rows, cols, g)
    {
      EdgesAre(rows, cols, g, e);
      EdgesAre(rows, cols, g', e);
      if Carved(rows, cols, g, e) {
        var q, f :| q in g && Side(g[q], f) == 0 && EdgeOf(rows, cols, q, f) == e;
        assert Side(g'[q], f) == 0;
      }
      if Carved(rows, cols, g', e) {
        var q, f :| q in g' && Side(g'[q], f) == 0 && EdgeOf(rows, cols, q, f) == e;
        if q == p && f == d {
          EdgeFacing(rows, cols, p, d);
        } else {
          assert Side(g[q], f) == 0;
        }
      }
    }
  }

  /** Opening the way to a room not yet visited carves exactly one new edge. */
  lemma OpenEdgesGrow(rows: nat, cols: nat, g: Grid, active: set<Pos>, p: Pos, d: Direction)
    requires WalkOk(rows, cols, g, active, {}) && p in active && Side(g[p], d) == -1
    requires var q := GetNeighbor(rows, cols, p, d); q.Some? && q.value in g && !g[q.value].visited
    ensures |OpenEdges(rows, cols, Decided(g, p, d, 0))| == |OpenEdges(rows, cols, g)| + 1
    ensures Visited(Decided(g, p, d, 0)) == Visited(g)
  {
    var g', added := Decided(g, p, d, 0), EdgeOf(rows, cols, p, d);
    forall e
      ensures e in OpenEdges(rows, cols, g') <==> e in OpenEdges(rows, cols, g) || e == added
    {
      EdgesAre(rows, cols, g, e);
      EdgesAre(rows, cols, g', e);
      if Carved(rows, cols, g, e) {
        var q, f :| q in g && Side(g[q], f) == 0 && EdgeOf(rows, cols, q, f) == e;
        assert Side(g'[q], f) == 0;
      }
      if e == added {
        assert Side(g'[p], d) == 0;
      } else if Carved(rows, cols, g', e) {
        var q, f :| q in g' && Side(g'[q], f) == 0 && EdgeOf(rows, cols, q, f) == e;
        assert Side(g[q], f) == 0;
      }
    }
    NewEdge(rows, cols, g, active, p, d);
    assert OpenEdges(rows, cols, g') == OpenEdges(rows, cols, g) + {added};
  }

  lemma NewEdge(rows: nat, cols: nat, g: Grid, active: set<Pos>, p: Pos, d: Direction)
    requires WalkOk(rows, cols, g, active, {}) && p in active && Side(g[p], d) == -1
    requires var q := GetNeighbor(rows, cols, p, d); q.Some? && q.value in g && !g[q.value].visited
    ensures EdgeOf(rows, cols, p, d) !in OpenEdges(rows, cols, g)
  {
    var e := EdgeOf(rows, cols, p, d);
    EdgesAre(rows, cols, g, e);
    forall q, f | q in g && Side(g[q], f) == 0
      ensures EdgeOf(rows, cols, q, f) != e
    {
      assert SideOk(rows, cols, g, active, {}, q, f);
      if EdgeOf(rows, cols, q, f) == e {
        EdgeTwoSides(rows, cols, p, d, q, f);
      }
    }
  }

  // ---------------------------------------------------------------- what later steps keep

  /** Visited rooms stay visited and openings stay open. */
  ghost predicate Grows(g: Grid, g': Grid) {
    && g.Keys == g'.Keys
    && (forall p :: p in g && g[p].visited ==> g'[p].visited)
    && (forall p, d {:trigger Side(g'[p], d)} :: p in g && Side(g[p], d) == 0 ==> Side(g'[p], d) == 0)
  }

  lemma ReachableGrows(rows: nat, cols: nat, g: Grid, g': Grid, p: Pos, q: Pos)
    requires Grows(g, g') && Reachable(rows, cols, g, p, q)
    ensures Reachable(rows, cols, g', p, q)
  {
    var s :| WalkFrom(rows, cols, g, p, q, s);
    forall i {:trigger StepAt(rows, cols, g', s, i)} | 0 < i < |s|
      ensures StepAt(rows, cols, g', s, i)
    {
      assert StepAt(rows, cols, g, s, i);
      var d :| s[i - 1] in g && GetNeighbor(rows, cols, s[i - 1], d) == Some(s[i]) && Side(g[s[i - 1]], d) == 0;
      assert Side(g'[s[i - 1]], d) == 0;
    }
    assert WalkFrom(rows, cols, g', p, q, s);
  }

  /** Rooms visited before keep everything; rooms visited since can be reached from `p`. */
  ghost predicate Explored(rows: nat, cols: nat, g: Grid, p: Pos, g': Grid) {
    && g.Keys == g'.Keys && p in g && g'[p].visited
    && (forall q :: q in g && g[q].visited ==> g'[q] == g[q])
    && (forall q :: q in g && g'[q].visited && !g[q].visited ==> Reachable(rows, cols, g', p, q))
  }

  lemma ExploredGrows(rows: nat, cols: nat, g: Grid, active: set<Pos>, entering: set<Pos>, p: Pos, g': Grid)
    requires WalkOk(rows, cols, g, active, entering) && Explored(rows, cols, g, p, g')
    ensures Grows(g, g') && Unvisited(g') <= Unvisited(g)
  {
    forall q, d {:trigger Side(g'[q], d)} | q in g && Side(g[q], d) == 0
      ensures Side(g'[q], d) == 0
    {
      assert SideOk(rows, cols, g, active, entering, q, d);
    }
  }

  /** Deciding one more side of the room being walked keeps what has been explored from it. */
  lemma DecidedExplored(rows: nat, cols: nat, g0: Grid, p: Pos, g: Grid, d: Direction, v: int)
    requires Explored(rows, cols, g0, p, g) && !g0[p].visited && Side(g[p], d) == -1
    ensures Explored(rows, cols, g0, p, Decided(g, p, d, v))
  {
    var g' := Decided(g, p, d, v);
    assert Grows(g, g');
    forall q | q in g0 && g'[q].visited && !g0[q].visited
      ensures Reachable(rows, cols, g', p, q)
    {
      ReachableGrows(rows, cols, g, g', p, q);
    }
  }

  /** A walk from the neighbour behind an opening extends what has been explored from `p`. */
  lemma DeeperExplored(rows: nat, cols: nat, g0: Grid, p: Pos, g: Grid, n: Pos, g': Grid)
    requires Explored(rows, cols, g0, p, g) && Explored(rows, cols, g, n, g') && Grows(g, g') && !g0[p].visited
    requires Step(rows, cols, g, p, n)
    ensures Explored(rows, cols, g0, p, g')
  {
    ReachableStep(rows, cols, g, p, n);
    ReachableGrows(rows, cols, g, g', p, n);
    forall q | q in g0 && g'[q].visited && !g0[q].visited
      ensures Reachable(rows, cols, g', p, q)
    {
      if g[q].visited {
        ReachableGrows(rows, cols, g, g', p, q);
      } else {
        ReachableTrans(rows, cols, g', p, n, q);
      }
    }
  }

  // ---------------------------------------------------------------- the order of the walk

  /**
    An opening joins two rooms of which one was entered from the other, or leads from `from` to a room about to be
    entered.
   */
  ghost predicate OpeningOk(rows: nat, cols: nat, g: Grid, o: Order, entering: set<Pos>, from: Pos, p: Pos,
                            d: Direction)
    requires p in g
  {
    var q := GetNeighbor(rows, cols, p, d);
    Side(g[p], d) == 0 && q.Some? ==> Related(o, p, q.value) || (q.value in entering && p == from && p in o.stamp)
  }

  ghost predicate Ranked(rows: nat, cols: nat, g: Grid, o: Order, entering: set<Pos>, from: Pos) {
    && (forall p :: p in g ==> (g[p].visited <==> p in o.stamp))
    && (forall p :: p in o.stamp ==> p in g && o.stamp[p] < o.clock)
    && (forall p, d {:trigger OpeningOk(rows, cols, g, o, entering, from, p, d)} ::
          p in g ==> OpeningOk(rows, cols, g, o, entering, from, p, d))
  }

  function Entered(o: Order, p: Pos, from: Pos): Order {
    Order(o.up[p := from], o.stamp[p := o.clock], o.clock + 1)
  }

  lemma EnterRanked(rows: nat, cols: nat, g: Grid, o: Order, p: Pos, from: Pos)
    requires p in g && !g[p].visited && Ranked(rows, cols, g, o, {p}, from)
    ensures Ranked(rows, cols, g[p := g[p].(visited := true)], Entered(o, p, from), {}, p)
  {
    var g', o' := g[p := g[p].(visited := true)], Entered(o, p, from);
    forall q, d {:trigger OpeningOk(rows, cols, g', o', {}, p, q, d)} | q in g'
      ensures OpeningOk(rows, cols, g', o', {}, p, q, d)
    {
      assert OpeningOk(rows, cols, g, o, {p}, from, q, d);
      assert Side(g'[q], d) == Side(g[q], d);
    }
  }

  lemma SettleRanked(rows: nat, cols: nat, g: Grid, o: Order, p: Pos, d: Direction)
    requires p in g && Ranked(rows, cols, g, o, {}, p)
    ensures Ranked(rows, cols, Decided(g, p, d, Settled(rows, cols, g, p, d)), o, {}, p)
  {
    var g', n := Decided(g, p, d, Settled(rows, cols, g, p, d)), GetNeighbor(rows, cols, p, d);
    if n.Some? { NeighborBack(rows, cols, p, d); }
    forall q, e {:trigger OpeningOk(rows, cols, g', o, {}, p, q, e)} | q in g'
      ensures OpeningOk(rows, cols, g', o, {}, p, q, e)
    {
      assert OpeningOk(rows, cols, g, o, {}, p, q, e);
      if q == p && e == d && n.Some? && n.value in g {
        assert OpeningOk(rows, cols, g, o, {}, p, n.value, Opposite(d));
      }
    }
  }

  lemma OpenRanked(rows: nat, cols: nat, g: Grid, o: Order, p: Pos, d: Direction)
    requires p in g && p in o.stamp && Ranked(rows, cols, g, o, {}, p) && GetNeighbor(rows, cols, p, d).Some?
    ensures Ranked(rows, cols, Decided(g, p, d, 0), o, {GetNeighbor(rows, cols, p, d).value}, p)
  {
    var g', n := Decided(g, p, d, 0), GetNeighbor(rows, cols, p, d).value;
    forall q, e {:trigger OpeningOk(rows, cols, g', o, {n}, p, q, e)} | q in g'
      ensures OpeningOk(rows, cols, g', o, {n}, p, q, e)
    {
      assert OpeningOk(rows, cols, g, o, {}, p, q, e);
    }
  }

  /** With no room about to be entered it does not matter who is being walked. */
  lemma AnyFrom(rows: nat, cols: nat, g: Grid, o: Order, from: Pos, to: Pos)
    requires Ranked(rows, cols, g, o, {}, from)
    ensures Ranked(rows, cols, g, o, {}, to)
  {
    forall q, e {:trigger OpeningOk(rows, cols, g, o, {}, to, q, e)} | q in g
      ensures OpeningOk(rows, cols, g, o, {}, to, q, e)
    {
      assert OpeningOk(rows, cols, g, o, {}, from, q, e);
    }
  }

  lemma RankedRooted(rows: nat, cols: nat, g: Grid, o: Order, from: Pos)
    requires Ranked(rows, cols, g, o, {}, from)
    ensures Rooted(rows, cols, g, o)
  {
    forall p, q | Step(rows, cols, g, p, q)
      ensures Related(o, p, q)
    {
      var d :| p in g && GetNeighbor(rows, cols, p, d) == Some(q) && Side(g[p], d) == 0;
      assert OpeningOk(rows, cols, g, o, {}, from, p, d);
    }
  }

  // ---------------------------------------------------------------- the walk

  /** Some order of the four directions. */
  predicate AllFour(s: seq<Direction>) {
    |s| == 4 && NORTH in s && SOUTH in s && WEST in s && EAST in s
  }

  lemma AllFourDistinct(s: seq<Direction>)
    requires AllFour(s)
    ensures forall i, j :: 0 <= i < j < 4 ==> s[i] != s[j]
    ensures forall d :: d in s
  {
    assert s == [s[0], s[1], s[2], s[3]];
    forall d ensures d in s { match d case NORTH => case SOUTH => case WEST => case EAST => }
  }

  /** Four swaps with positions drawn at random leave some order of what was there. */
  method ShuffleArray(directions: array<Direction>)
    requires AllFour(directions[..])
    modifies directions
    ensures AllFour(directions[..])
  {
    for i := 0 to 4
      invariant AllFour(directions[..])
    {
      var r :| 0 <= r < 4;
      ghost var s := directions[..];
      directions[i], directions[r] := directions[r], directions[i];
      assert directions[..][r] == s[i] && directions[..][i] == s[r];
      assert forall k {:trigger s[k]} :: 0 <= k < 4 ==> s[k] in directions[..] by {
        forall k {:trigger s[k]} | 0 <= k < 4
          ensures s[k] in directions[..]
        {
          var at := if k == i then r else if k == r then i else k;
          assert directions[..][at] == s[k];
        }
      }
    }
  }

  /** The sides of a room are decided in the first `done` of these directions and in no other. */
  ghost predicate DoneSides(room: Room, dirs: seq<Direction>, done: nat)
    requires |dirs| == 4
  {
    forall j {:trigger dirs[j]} :: 0 <= j < 4 ==> (Side(room, dirs[j]) != -1 <==> j < done)
  }

  lemma OneMoreSide(room: Room, dirs: seq<Direction>, i: nat, v: int)
    requires AllFour(dirs) && i < 4 && DoneSides(room, dirs, i) && v != -1
    ensures DoneSides(WithSide(room, dirs[i], v), dirs, i + 1)
  {
    AllFourDistinct(dirs);
  }

  lemma EverySide(room: Room, dirs: seq<Direction>)
    requires AllFour(dirs) && DoneSides(room, dirs, 4)
    ensures forall d :: Side(room, d) != -1
  {
    AllFourDistinct(dirs);
    forall d ensures Side(room, d) != -1 { assert d in dirs; }
  }

  /** Room `p`, entered in grid `g0`, is being walked: `done` sides are decided, the others not. */
  ghost predicate Walking(rows: nat, cols: nat, g0: Grid, active: set<Pos>, p: Pos, dirs: seq<Direction>, done: nat,
                          g: Grid)
    requires |dirs| == 4
  {
    && WalkOk(rows, cols, g, active + {p}, {})
    && |OpenEdges(rows, cols, g)| + 1 == |Visited(g)|
    && p in g0 && !g0[p].visited && Explored(rows, cols, g0, p, g)
    && DoneSides(g[p], dirs, done)
  }

  lemma WalkingStarts(rows: nat, cols: nat, g0: Grid, active: set<Pos>, p: Pos, dirs: seq<Direction>)
    requires |dirs| == 4 && Enterable(rows, cols, g0, active, p)
    ensures Walking(rows, cols, g0, active, p, dirs, 0, g0[p := g0[p].(visited := true)])
  {
    EnterOk(rows, cols, g0, active, p);
    EnterEdges(rows, cols, g0, p);
    ReachableHere(rows, cols, g0[p := g0[p].(visited := true)], p);
    forall d ensures Side(g0[p].(visited := true), d) == -1 { assert SideOk(rows, cols, g0, active, {p}, p, d); }
  }

  lemma WalkingSettles(rows: nat, cols: nat, g0: Grid, active: set<Pos>, p: Pos, dirs: seq<Direction>, i: nat, g: Grid)
    requires AllFour(dirs) && i < 4 && Walking(rows, cols, g0, active, p, dirs, i, g)
    requires var q := GetNeighbor(rows, cols, p, dirs[i]); q.Some? ==> q.value in g && g[q.value].visited
    ensures Walking(rows, cols, g0, active, p, dirs, i + 1, Decided(g, p, dirs[i], Settled(rows, cols, g, p, dirs[i])))
  {
    var d, v := dirs[i], Settled(rows, cols, g, p, dirs[i]);
    SettleOk(rows, cols, g, active + {p}, p, d);
    SettleEdges(rows, cols, g, p, d);
    DecidedExplored(rows, cols, g0, p, g, d, v);
    OneMoreSide(g[p], dirs, i, v);
  }

  lemma WalkingDeepens(rows: nat, cols: nat, g0: Grid, active: set<Pos>, p: Pos, dirs: seq<Direction>, i: nat,
                       g: Grid, n: Pos, g': Grid)
    requires AllFour(dirs) && i < 4 && Walking(rows, cols, g0, active, p, dirs, i, g)
    requires GetNeighbor(rows, cols, p, dirs[i]) == Some(n) && n in g && !g[n].visited
    requires Walked(rows, cols, Decided(g, p, dirs[i], 0), active + {p}, n, g')
    ensures Walking(rows, cols, g0, active, p, dirs, i + 1, g')
  {
    var g1 := Decided(g, p, dirs[i], 0);
    OneMoreSide(g[p], dirs, i, 0);
    ExploredDeepens(rows, cols, g0, active, p, g, dirs[i], n, g');
    assert g'[p] == g1[p];
  }

  lemma ExploredDeepens(rows: nat, cols: nat, g0: Grid, active: set<Pos>, p: Pos, g: Grid, d: Direction, n: Pos,
                        g': Grid)
    requires WalkOk(rows, cols, g, active + {p}, {}) && p in g0 && !g0[p].visited && Explored(rows, cols, g0, p, g)
    requires Side(g[p], d) == -1 && GetNeighbor(rows, cols, p, d) == Some(n) && n in g && !g[n].visited
    requires Explored(rows, cols, Decided(g, p, d, 0), n, g')
    ensures Explored(rows, cols, g0, p, g')
  {
    var g1 := Decided(g, p, d, 0);
    OpenOk(rows, cols, g, active + {p}, p, d);
    DecidedExplored(rows, cols, g0, p, g, d, 0);
    ExploredGrows(rows, cols, g1, active + {p}, {n}, n, g');
    assert Step(rows, cols, g1, p, n) by { assert Side(g1[p], d) == 0; }
    DeeperExplored(rows, cols, g0, p, g1, n, g');
  }

  lemma WalkingEnds(rows: nat, cols: nat, g0: Grid, active: set<Pos>, p: Pos, dirs: seq<Direction>, g: Grid)
    requires AllFour(dirs) && Walking(rows, cols, g0, active, p, dirs, 4, g)
    ensures Walked(rows, cols, g0, active, p, g)
  {
    EverySide(g[p], dirs);
    LeaveOk(rows, cols, g, active, p);
  }

  /** Room `p` may be entered: it has not been visited, and the edge to it, if it is not the first room, is carved. */
  ghost predicate Enterable(rows: nat, cols: nat, g: Grid, active: set<Pos>, p: Pos) {
    WalkOk(rows, cols, g, active, {p}) && |OpenEdges(rows, cols, g)| == |Visited(g)|
  }

  /**
    The walk from `p` took `g` to `g'`: all rooms but those in `active` are left with every side decided, rooms
    visited before are untouched, rooms visited since can be reached from `p`, and carved edges are one fewer than
    visited rooms.
   */
  ghost predicate Walked(rows: nat, cols: nat, g: Grid, active: set<Pos>, p: Pos, g': Grid) {
    && WalkOk(rows, cols, g', active, {})
    && |OpenEdges(rows, cols, g')| + 1 == |Visited(g')|
    && Explored(rows, cols, g, p, g')
  }

  lemma WalkingOpens(rows: nat, cols: nat, g0: Grid, active: set<Pos>, p: Pos, dirs: seq<Direction>, i: nat, g: Grid,
                     n: Pos)
    requires AllFour(dirs) && i < 4 && Walking(rows, cols, g0, active, p, dirs, i, g)
    requires GetNeighbor(rows, cols, p, dirs[i]) == Some(n) && n in g && !g[n].visited
    requires Enterable(rows, cols, g0, active, p)
    ensures Enterable(rows, cols, Decided(g, p, dirs[i], 0), active + {p}, n)
    ensures Unvisited(Decided(g, p, dirs[i], 0)) < Unvisited(g0)
  {
    OpenOk(rows, cols, g, active + {p}, p, dirs[i]);
    OpenEdgesGrow(rows, cols, g, active + {p}, p, dirs[i]);
    ExploredGrows(rows, cols, g0, active, {p}, p, g);
    assert Unvisited(Decided(g, p, dirs[i], 0)) == Unvisited(g);
    assert p in Unvisited(g0) && p !in Unvisited(g);
  }

  /** Stores `v` in room `p` on side `dir`. */
  method SetSide(maze: array2<Room>, p: Pos, dir: Direction, v: int)
    requires IsInRange(p.row, p.col, maze.Length0, maze.Length1)
    modifies maze
    ensures p in old(Snap(maze)) && Snap(maze) == Decided(old(Snap(maze)), p, dir, v)
  {
    RoomsHold(maze.Length0, maze.Length1, p);
    SetRoom(maze, p, WithSide(maze[p.row, p.col], dir, v));
  }

  /** Walks from a room not yet visited, coming from room `from`; rooms in `active` are those the walk came through. */
  method DrunkenWalk(row: int, col: int, maze: array2<Room>, ghost active: set<Pos>, ghost from: Pos, ghost o: Order)
    returns (ghost o': Order)
    requires IsInRange(row, col, maze.Length0, maze.Length1) ==>
      && Enterable(maze.Length0, maze.Length1, Snap(maze), active, Pos(row, col))
      && Ranked(maze.Length0, maze.Length1, Snap(maze), o, {Pos(row, col)}, from)
    modifies maze
    ensures if IsInRange(row, col, maze.Length0, maze.Length1)
      then Walked(maze.Length0, maze.Length1, old(Snap(maze)), active, Pos(row, col), Snap(maze))
        && Ranked(maze.Length0, maze.Length1, Snap(maze), o', {}, Pos(row, col))
      else Snap(maze) == old(Snap(maze))
    decreases Unvisited(Snap(maze)), 2
  {
    o' := o;
    ghost var g0 := Snap(maze);
    var directions := new Direction[4] [NORTH, SOUTH, EAST, WEST];
    if !IsInRange(row, col, maze.Length0, maze.Length1) {
      return;
    }
    var rows, cols, p := maze.Length0, maze.Length1, Pos(row, col);
    assert directions[..] == [NORTH, SOUTH, EAST, WEST];
    ShuffleArray(directions);
    ghost var dirs := directions[..];
    assert Snap(maze) == g0;
    RoomsHold(rows, cols, p);
    SetRoom(maze, p, maze[row, col].(visited := true));
    WalkingStarts(rows, cols, g0, active, p, dirs);
    EnterRanked(rows, cols, g0, o, p, from);
    o' := Entered(o, p, from);
    o' := WalkSides(row, col, maze, active, directions, g0, o');
  }

  /** The four sides of the room being walked, in the order drawn. */
  method WalkSides(row: int, col: int, maze: array2<Room>, ghost active: set<Pos>, directions: array<Direction>,
                   ghost g0: Grid, ghost o: Order) returns (ghost o': Order)
    requires AllFour(directions[..]) && IsInRange(row, col, maze.Length0, maze.Length1)
    requires Enterable(maze.Length0, maze.Length1, g0, active, Pos(row, col))
    requires Walking(maze.Length0, maze.Length1, g0, active, Pos(row, col), directions[..], 0, Snap(maze))
    requires Ranked(maze.Length0, maze.Length1, Snap(maze), o, {}, Pos(row, col))
    modifies maze
    ensures Walked(maze.Length0, maze.Length1, g0, active, Pos(row, col), Snap(maze))
    ensures Ranked(maze.Length0, maze.Length1, Snap(maze), o', {}, Pos(row, col))
    decreases Unvisited(g0), 1
  {
    ghost var dirs := directions[..];
    o' := o;
    for i := 0 to 4
      invariant directions[..] == dirs
      invariant Walking(maze.Length0, maze.Length1, g0, active, Pos(row, col), dirs, i, Snap(maze))
      invariant Ranked(maze.Length0, maze.Length1, Snap(maze), o', {}, Pos(row, col))
    {
      var dir := directions[i];
      o' := WalkSide(row, col, maze, active, dir, dirs, i, g0, o');
    }
    WalkingEnds(maze.Length0, maze.Length1, g0, active, Pos(row, col), dirs, Snap(maze));
  }

  /** One side of the room being walked. */
  method WalkSide(row: int, col: int, maze: array2<Room>, ghost active: set<Pos>, dir: Direction,
                  ghost dirs: seq<Direction>, ghost i: nat, ghost g0: Grid, ghost o: Order) returns (ghost o': Order)
    requires AllFour(dirs) && i < 4 && dir == dirs[i] && IsInRange(row, col, maze.Length0, maze.Length1)
    requires Enterable(maze.Length0, maze.Length1, g0, active, Pos(row, col))
    requires Walking(maze.Length0, maze.Length1, g0, active, Pos(row, col), dirs, i, Snap(maze))
    requires Ranked(maze.Length0, maze.Length1, Snap(maze), o, {}, Pos(row, col))
    modifies maze
    ensures Walking(maze.Length0, maze.Length1, g0, active, Pos(row, col), dirs, i + 1, Snap(maze))
    ensures Ranked(maze.Length0, maze.Length1, Snap(maze), o', {}, Pos(row, col))
    decreases Unvisited(g0), 0
  {
    var rows, cols, p := maze.Length0, maze.Length1, Pos(row, col);
    ghost var g := Snap(maze);
    o' := o;
    assert maze[row, col] == g[p];
    var neighbor := GetNeighbor(rows, cols, Pos(maze[row, col].row, maze[row, col].col), dir);
    if neighbor.None? {
      WalkingSettles(rows, cols, g0, active, p, dirs, i, g);
      SettleRanked(rows, cols, g, o, p, dir);
      SetSide(maze, p, dir, 1);
    } else {
      var n := neighbor.value;
      RoomsHold(rows, cols, n);
      assert maze[n.row, n.col] == g[n];
      if !maze[n.row, n.col].visited {
        WalkingOpens(rows, cols, g0, active, p, dirs, i, g, n);
        OpenRanked(rows, cols, g, o, p, dir);
        SetSide(maze, p, dir, 0);
        o' := DrunkenWalk(maze[n.row, n.col].row, maze[n.row, n.col].col, maze, active + {p}, p, o);
        AnyFrom(rows, cols, Snap(maze), o', n, p);
        WalkingDeepens(rows, cols, g0, active, p, dirs, i, g, n, Snap(maze));
      } else {
        WalkingSettles(rows, cols, g0, active, p, dirs, i, g);
        SettleRanked(rows, cols, g, o, p, dir);
        var beyond := Side(maze[n.row, n.col], Opposite(dir));
        SetSide(maze, p, dir, if beyond != -1 then beyond else 1);
      }
    }
  }

  // ---------------------------------------------------------------- the whole maze

  lemma BlankEnterable(rows: nat, cols: nat, g: Grid)
    requires 0 < rows && 0 < cols && g.Keys == Rooms(rows, cols) && forall p :: p in g ==> g[p] == Blank(p)
    ensures Enterable(rows, cols, g, {}, Pos(0, 0))
  {
    RoomsHold(rows, cols, Pos(0, 0));
    assert forall p, d :: p in g ==> Side(g[p], d) == -1;
    assert OpenEdges(rows, cols, g) == {} && Visited(g) == {};
  }

  /** Once nothing is being walked, the rooms next to a visited room are visited. */
  lemma {:induction false} AllVisited(rows: nat, cols: nat, g: Grid, r: nat, c: nat)
    requires WalkOk(rows, cols, g, {}, {}) && r < rows && c < cols && Pos(0, 0) in g && g[Pos(0, 0)].visited
    ensures Pos(r, c) in g && g[Pos(r, c)].visited
    decreases r + c
  {
    if r > 0 {
      AllVisited(rows, cols, g, r - 1, c);
      assert SideOk(rows, cols, g, {}, {}, Pos(r - 1, c), SOUTH);
    } else if c > 0 {
      AllVisited(rows, cols, g, r, c - 1);
      assert SideOk(rows, cols, g, {}, {}, Pos(r, c - 1), EAST);
    }
  }

  lemma BlankRanked(rows: nat, cols: nat, g: Grid, from: Pos)
    requires g.Keys == Rooms(rows, cols) && forall p :: p in g ==> g[p] == Blank(p)
    ensures Ranked(rows, cols, g, Order(map[], map[], 0), {Pos(0, 0)}, from)
  {
    assert forall p, d :: p in g ==> Side(g[p], d) == -1;
  }

  lemma ConnectedOneWay(rows: nat, cols: nat, g: Grid, o: Order, p: Pos, q: Pos)
    requires Rooted(rows, cols, g, o) && Reachable(rows, cols, g, p, q)
    ensures OneWay(rows, cols, g, p, q)
  {
    var s :| WalkFrom(rows, cols, g, p, q, s);
    var u := ShortWalk(rows, cols, g, p, q, s);
    forall s, u | SimpleWalk(rows, cols, g, p, q, s) && SimpleWalk(rows, cols, g, p, q, u)
      ensures s == u
    {
      OneWalk(rows, cols, g, o, p, q, s, u);
    }
  }

  /** Whatever the shuffles, a walk from the first room of a fresh grid carves a spanning tree. */
  lemma WalkedSpans(rows: nat, cols: nat, g: Grid, g': Grid, o: Order)
    requires 0 < rows && 0 < cols && g.Keys == Rooms(rows, cols) && forall p :: p in g ==> g[p] == Blank(p)
    requires Walked(rows, cols, g, {}, Pos(0, 0), g') && Ranked(rows, cols, g', o, {}, Pos(0, 0))
    ensures SpanningTree(rows, cols, g') && forall p :: p in g' ==> g'[p].visited
  {
    forall p | p in g'
      ensures g'[p].visited
    {
      RoomsHold(rows, cols, p);
      AllVisited(rows, cols, g', p.row, p.col);
    }
    forall p, d {:trigger SideMatches(rows, cols, g', p, d)} | p in g'
      ensures SideMatches(rows, cols, g', p, d)
    {
      WalkedMatches(rows, cols, g', p, d);
    }
    RankedRooted(rows, cols, g', o, Pos(0, 0));
    forall p, q | p in g' && q in g'
      ensures OneWay(rows, cols, g', p, q)
    {
      ReachableBack(rows, cols, g', Pos(0, 0), p);
      ReachableTrans(rows, cols, g', p, Pos(0, 0), q);
      ConnectedOneWay(rows, cols, g', o, p, q);
    }
    RoomCount(rows, cols);
    assert Visited(g') == Rooms(rows, cols);
  }

  lemma WalkedMatches(rows: nat, cols: nat, g: Grid, p: Pos, d: Direction)
    requires WalkOk(rows, cols, g, {}, {}) && p in g && forall q :: q in g ==> g[q].visited
    ensures SideMatches(rows, cols, g, p, d)
  {
    assert SideOk(rows, cols, g, {}, {}, p, d);
    var q := GetNeighbor(rows, cols, p, d);
    if q.Some? {
      RoomsHold(rows, cols, q.value);
      assert SideOk(rows, cols, g, {}, {}, q.value, Opposite(d));
    }
  }

  // ---------------------------------------------------------------- encoding

  /** Whether bit `k` of a number is set. */
  predicate Bit(n: int, k: nat) {
    k < 4 && (n / [1, 2, 4, 8][k]) % 2 == 1
  }

  /** One hexadecimal digit whose bits are the walls. */
  function EncodeRoom(room: Room): (sum: int)
    ensures 0 <= sum < 16
    ensures Bit(sum, 0) <==> room.upRoom == 1
    ensures Bit(sum, 1) <==> room.downRoom == 1
    ensures Bit(sum, 2) <==> room.leftRoom == 1
    ensures Bit(sum, 3) <==> room.rightRoom == 1
  {
    (if room.upRoom == 1 then 1 else 0) + (if room.downRoom == 1 then 2 else 0)
    + (if room.leftRoom == 1 then 4 else 0) + (if room.rightRoom == 1 then 8 else 0)
  }

  ghost predicate EncodedUpTo(maze: array2<Room>, result: array2<int>, i: int, j: int)
    requires result.Length0 == maze.Length0 && result.Length1 == maze.Length1
    reads maze, result
  {
    forall r, c :: 0 <= r < maze.Length0 && 0 <= c < maze.Length1 && (r < i || (r == i && c < j)) ==>
      result[r, c] == EncodeRoom(maze[r, c])
  }

  method EncodeMaze(maze: array2<Room>, result: array2<int>)
    requires result.Length0 == maze.Length0 && result.Length1 == maze.Length1
    modifies result
    ensures EncodedUpTo(maze, result, maze.Length0, 0)
  {
    for i := 0 to maze.Length0
      invariant EncodedUpTo(maze, result, i, 0)
    {
      for j := 0 to maze.Length1
        invariant EncodedUpTo(maze, result, i, j)
      {
        result[i, j] := EncodeRoom(maze[i, j]);
      }
    }
  }

  /** A step through a direction whose side is open, by coordinates. */
  lemma StepByCoordinates(rows: nat, cols: nat, g: Grid, p: Pos, q: Pos)
    requires g.Keys == Rooms(rows, cols)
    ensures Step(rows, cols, g, p, q) <==>
      && IsInRange(p.row, p.col, rows, cols) && IsInRange(q.row, q.col, rows, cols) && p in g
      && (|| (q == Pos(p.row - 1, p.col) && g[p].upRoom == 0)
          || (q == Pos(p.row + 1, p.col) && g[p].downRoom == 0)
          || (q == Pos(p.row, p.col - 1) && g[p].leftRoom == 0)
          || (q == Pos(p.row, p.col + 1) && g[p].rightRoom == 0))
  {
    if p in g {
      RoomsHold(rows, cols, p);
      if q == Pos(p.row - 1, p.col) && g[p].upRoom == 0 && q.row >= 0 {
        assert GetNeighbor(rows, cols, p, NORTH) == Some(q) && Side(g[p], NORTH) == 0;
      }
      if q == Pos(p.row + 1, p.col) && g[p].downRoom == 0 && q.row < rows {
        assert GetNeighbor(rows, cols, p, SOUTH) == Some(q) && Side(g[p], SOUTH) == 0;
      }
      if q == Pos(p.row, p.col - 1) && g[p].leftRoom == 0 && q.col >= 0 {
        assert GetNeighbor(rows, cols, p, WEST) == Some(q) && Side(g[p], WEST) == 0;
      }
      if q == Pos(p.row, p.col + 1) && g[p].rightRoom == 0 && q.col < cols {
        assert GetNeighbor(rows, cols, p, EAST) == Some(q) && Side(g[p], EAST) == 0;
      }
    }
  }

  /** The numbers a maze is written as open the same ways as its rooms. */
  lemma EncodedOpens(maze: array2<Room>, encoded: array2<int>, p: Pos, q: Pos)
    requires encoded.Length0 == maze.Length0 && encoded.Length1 == maze.Length1
    requires EncodedUpTo(maze, encoded, maze.Length0, 0) && WallsMatch(maze.Length0, maze.Length1, Snap(maze))
    ensures Step(maze.Length0, maze.Length1, Snap(maze), p, q) <==> OpenTo(encoded, p, q)
  {
    var rows, cols, g := maze.Length0, maze.Length1, Snap(maze);
    StepByCoordinates(rows, cols, g, p, q);
    if IsInRange(p.row, p.col, rows, cols) {
      RoomsHold(rows, cols, p);
      var room := maze[p.row, p.col];
      assert g[p] == room && encoded[p.row, p.col] == EncodeRoom(room);
      assert SideMatches(rows, cols, g, p, NORTH) && SideMatches(rows, cols, g, p, SOUTH);
      assert SideMatches(rows, cols, g, p, WEST) && SideMatches(rows, cols, g, p, EAST);
      NumberBits(room);
    }
  }

  lemma NumberBits(room: Room)
    ensures var n := EncodeRoom(room);
      && (n % 2 == 0 <==> room.upRoom != 1) && ((n / 2) % 2 == 0 <==> room.downRoom != 1)
      && ((n / 4) % 2 == 0 <==> room.leftRoom != 1) && ((n / 8) % 2 == 0 <==> room.rightRoom != 1)
  {
    var n := EncodeRoom(room);
    assert Bit(n, 0) <==> n % 2 == 1;
    assert Bit(n, 1) <==> (n / 2) % 2 == 1;
    assert Bit(n, 2) <==> (n / 4) % 2 == 1;
    assert Bit(n, 3) <==> (n / 8) % 2 == 1;
  }

  /** The generator: for a grid with rooms, the encoding of a spanning tree, else nothing. */
  method Generate(rows: int, cols: int) returns (maze: array2?<Room>, encoded: array2?<int>)
    ensures (maze != null <==> rows > 0 && cols > 0) && (encoded != null <==> maze != null)
    ensures maze != null ==>
      && fresh(maze) && maze.Length0 == rows && maze.Length1 == cols
      && SpanningTree(rows, cols, Snap(maze))
    ensures maze != null ==>
      fresh(encoded) && encoded.Length0 == rows && encoded.Length1 == cols && EncodedUpTo(maze, encoded, rows, 0)
    ensures maze != null ==> forall p, q :: Step(rows, cols, Snap(maze), p, q) <==> OpenTo(encoded, p, q)
  {
    if rows <= 0 || cols <= 0 {
      return null, null;
    }
    var rooms := new Room[rows, cols]((r, c) => Blank(Pos(r, c)));
    InitializeMaze(rooms);
    ghost var g := Snap(rooms);
    BlankEnterable(rows, cols, g);
    BlankRanked(rows, cols, g, Pos(0, 0));
    ghost var o := DrunkenWalk(0, 0, rooms, {}, Pos(0, 0), Order(map[], map[], 0));
    WalkedSpans(rows, cols, g, Snap(rooms), o);
    var numbers := new int[rows, cols]((r, c) => 0);
    EncodeMaze(rooms, numbers);
    forall p, q
      ensures Step(rows, cols, Snap(rooms), p, q) <==> OpenTo(numbers, p, q)
    {
      EncodedOpens(rooms, numbers, p, q);
    }
    return rooms, numbers;
  }
}
