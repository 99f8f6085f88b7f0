/**
  The depth-first solver: rooms decoded from hexadecimal digits, a search that leaves
  its path in the rooms' `next` links and prints every room it enters or comes back
  to, and the printer that follows the links.
 */
module MazeSolver {
  import opened Sequences
  import opened Options
  import opened MazeGrid
  import opened MazeGenerator

  // ---------------------------------------------------------------- decoding

  function CreateRoomConnections(room: Room, hex: int): Room {
    room.(upRoom := if Bit(hex, 0) then 1 else 0, downRoom := if Bit(hex, 1) then 1 else 0,
          leftRoom := if Bit(hex, 2) then 1 else 0, rightRoom := if Bit(hex, 3) then 1 else 0)
  }

  /** Decoding an encoded room gives back its walls, if every side was decided. */
  lemma RoomRoundTrip(room: Room, blank: Room, d: Direction)
    requires Side(room, d) in {0, 1}
    ensures Side(CreateRoomConnections(blank, EncodeRoom(room)), d) == Side(room, d)
  {
  }

  ghost predicate DecodedUpTo(before: Grid, maze: array2<Room>, encoded: array2<int>, i: int, j: int)
    requires before.Keys == Rooms(maze.Length0, maze.Length1)
    requires encoded.Length0 == maze.Length0 && encoded.Length1 == maze.Length1
    reads maze, encoded
  {
    forall r, c {:trigger maze[r, c]} :: 0 <= r < maze.Length0 && 0 <= c < maze.Length1 ==>
      maze[r, c] ==
        if r < i || (r == i && c < j) then CreateRoomConnections(before[Pos(r, c)], encoded[r, c])
        else before[Pos(r, c)]
  }

  method DecodeMaze(maze: array2<Room>, encoded: array2<int>)
    requires encoded.Length0 == maze.Length0 && encoded.Length1 == maze.Length1
    modifies maze
    ensures DecodedUpTo(old(Snap(maze)), maze, encoded, maze.Length0, 0)
  {
    ghost var before := Snap(maze);
    for i := 0 to maze.Length0
      invariant DecodedUpTo(before, maze, encoded, i, 0)
    {
      for j := 0 to maze.Length1
        invariant DecodedUpTo(before, maze, encoded, i, j)
      {
        maze[i, j] := CreateRoomConnections(maze[i, j], encoded[i, j]);
      }
    }
  }

  // ---------------------------------------------------------------- what the search keeps

  /** The grid during a search, and when each visited room was entered. */
  datatype Trail = Trail(g: Grid, stamp: map<Pos, nat>, clock: nat)

  /** A `next` link follows an opening, to a room entered later or not at all. */
  ghost predicate NextOk(rows: nat, cols: nat, t: Trail, p: Pos)
    requires p in t.g
  {
    var n := t.g[p].next;
    n.Some? ==>
      && p in t.stamp && n.value in t.g && Step(rows, cols, t.g, p, n.value)
      && (n.value in t.stamp ==> t.stamp[p] < t.stamp[n.value])
  }

  ghost predicate TrailOk(rows: nat, cols: nat, t: Trail, goal: Pos) {
    && t.g.Keys == Rooms(rows, cols) && t.stamp.Keys <= t.g.Keys && goal !in t.stamp
    && (forall p :: p in t.g ==> t.g[p].row == p.row && t.g[p].col == p.col && (t.g[p].visited <==> p in t.stamp))
    && (forall p :: p in t.stamp ==> t.stamp[p] < t.clock)
    && (forall p {:trigger NextOk(rows, cols, t, p)} :: p in t.g ==> NextOk(rows, cols, t, p))
  }

  /** Later in the same search: rooms visited before are as they were, others were entered since. */
  ghost predicate Later(t: Trail, t': Trail) {
    && SameWalls(t.g, t'.g) && t.clock <= t'.clock
    && (forall p :: p in t.stamp ==> p in t'.stamp && t'.stamp[p] == t.stamp[p])
    && (forall p :: p in t.stamp && p in t.g ==> t'.g[p] == t.g[p])
    && (forall p :: p in t'.stamp && p !in t.stamp ==> t'.stamp[p] >= t.clock)
  }

  /** Every step from a room entered since leads to a visited room; `but` is still being searched. */
  ghost predicate Closed(rows: nat, cols: nat, t: Trail, t': Trail, but: set<Pos>) {
    forall a, b {:trigger Step(rows, cols, t.g, a, b)} ::
      a in t'.stamp && a !in t.stamp && a !in but && Step(rows, cols, t.g, a, b) ==> b in t'.stamp
  }

  /** The links from `p` lead along openings, through rooms entered since, to the goal. */
  ghost predicate Solved(rows: nat, cols: nat, t: Trail, t': Trail, p: Pos, goal: Pos, path: seq<Pos>) {
    && WalkFrom(rows, cols, t.g, p, goal, path)
    && (forall i {:trigger path[i]} :: 0 <= i < |path| - 1 ==>
          path[i] in t'.stamp && path[i] !in t.stamp && path[i] in t'.g && t'.g[path[i]].next == Some(path[i + 1]))
  }

  /** A walk that takes openings forwards or backwards. */
  ghost predicate Contiguous(rows: nat, cols: nat, g: Grid, s: seq<Pos>) {
    forall i {:trigger JoinedAt(rows, cols, g, s, i)} :: 0 < i < |s| ==> JoinedAt(rows, cols, g, s, i)
  }

  ghost predicate JoinedAt(rows: nat, cols: nat, g: Grid, s: seq<Pos>, i: int)
    requires 0 < i < |s|
  {
    Step(rows, cols, g, s[i - 1], s[i]) || Step(rows, cols, g, s[i], s[i - 1])
  }

  ghost predicate TraceOk(rows: nat, cols: nat, g: Grid, trace: seq<Pos>, p: Pos, q: Pos) {
    trace != [] && trace[0] == p && trace[|trace| - 1] == q && Contiguous(rows, cols, g, trace)
  }

  /** The outcome of searching from `p`. */
  ghost predicate Searched(rows: nat, cols: nat, t: Trail, p: Pos, goal: Pos, found: bool, path: seq<Pos>,
                           trace: seq<Pos>, t': Trail) {
    && TrailOk(rows, cols, t', goal) && Later(t, t')
    && TraceOk(rows, cols, t.g, trace, p, if found then goal else p)
    && (if found then Solved(rows, cols, t, t', p, goal, path) else p in t'.stamp && Closed(rows, cols, t, t', {}))
  }

  const DIRECTIONS: seq<Direction> := [NORTH, SOUTH, EAST, WEST]

  /** While the search tries the sides of `p`, entered at the start of `t0`. */
  ghost predicate Searching(rows: nat, cols: nat, t0: Trail, p: Pos, goal: Pos, done: nat, trace: seq<Pos>, t: Trail) {
    && done <= 4 && p in t0.g && p !in t0.stamp && p in t.stamp && t.stamp[p] == t0.clock
    && TrailOk(rows, cols, t, goal) && Later(t0, t)
    && TraceOk(rows, cols, t0.g, trace, p, p)
    && Closed(rows, cols, t0, t, {p})
    && (forall j :: 0 <= j < done ==> Tried(rows, cols, t, p, DIRECTIONS[j]))
  }

  ghost predicate Tried(rows: nat, cols: nat, t: Trail, p: Pos, d: Direction)
    requires p in t.g
  {
    var n := GetNeighbor(rows, cols, p, d);
    n.Some? && Side(t.g[p], d) == 0 ==> n.value in t.stamp
  }

  /** Every room entered since is in the report. */
  ghost predicate Reported(t: Trail, t': Trail, trace: seq<Pos>) {
    forall p :: p in t'.stamp && p !in t.stamp ==> p in trace
  }

  function Marked(t: Trail, p: Pos): Trail
    requires p in t.g
  {
    Trail(t.g[p := t.g[p].(visited := true)], t.stamp[p := t.clock], t.clock + 1)
  }

  function Pointed(t: Trail, p: Pos, n: Pos): Trail
    requires p in t.g
  {
    t.(g := t.g[p := t.g[p].(next := Some(n))])
  }

  // ---------------------------------------------------------------- one step of the search

  lemma MarkedSame(t: Trail, p: Pos)
    requires p in t.g
    ensures SameWalls(t.g, Marked(t, p).g)
  {
  }

  lemma PointedSame(t: Trail, p: Pos, n: Pos)
    requires p in t.g
    ensures SameWalls(t.g, Pointed(t, p, n).g)
  {
  }

  lemma SearchStarts(rows: nat, cols: nat, t: Trail, p: Pos, goal: Pos)
    requires TrailOk(rows, cols, t, goal) && p in t.g && p !in t.stamp && p != goal
    ensures Searching(rows, cols, t, p, goal, 0, [p], Marked(t, p))
  {
    var t' := Marked(t, p);
    MarkedSame(t, p);
    forall q {:trigger NextOk(rows, cols, t', q)} | q in t'.g
      ensures NextOk(rows, cols, t', q)
    {
      assert NextOk(rows, cols, t, q);
      if t.g[q].next.Some? { StepSame(rows, cols, t.g, t'.g, q, t.g[q].next.value); }
    }
  }

  /** Pointing `p` at an unvisited room behind an opening. */
  lemma PointedOk(rows: nat, cols: nat, t: Trail, p: Pos, goal: Pos, n: Pos)
    requires TrailOk(rows, cols, t, goal) && p in t.stamp && n in t.g && n !in t.stamp && Step(rows, cols, t.g, p, n)
    ensures TrailOk(rows, cols, Pointed(t, p, n), goal)
  {
    var t' := Pointed(t, p, n);
    PointedSame(t, p, n);
    forall q {:trigger NextOk(rows, cols, t', q)} | q in t'.g
      ensures NextOk(rows, cols, t', q)
    {
      assert NextOk(rows, cols, t, q);
      if t'.g[q].next.Some? { StepSame(rows, cols, t.g, t'.g, q, t'.g[q].next.value); }
    }
  }

  lemma SameTrans(g: Grid, g1: Grid, g2: Grid)
    requires SameWalls(g, g1) && SameWalls(g1, g2)
    ensures SameWalls(g, g2)
  {
    forall p, d {:trigger Side(g2[p], d)} | p in g
      ensures Side(g2[p], d) == Side(g[p], d)
    {
      assert Side(g1[p], d) == Side(g[p], d);
    }
  }

  lemma LaterTrans(t: Trail, t1: Trail, t2: Trail)
    requires Later(t, t1) && Later(t1, t2)
    ensures Later(t, t2)
  {
    SameTrans(t.g, t1.g, t2.g);
  }

  lemma LaterPointed(t0: Trail, t: Trail, p: Pos, n: Pos)
    requires Later(t0, t) && p in t.g && p !in t0.stamp
    ensures Later(t0, Pointed(t, p, n))
  {
    PointedSame(t, p, n);
    SameTrans(t0.g, t.g, Pointed(t, p, n).g);
  }

  lemma SearchSkips(rows: nat, cols: nat, t0: Trail, p: Pos, goal: Pos, i: nat, trace: seq<Pos>, t: Trail)
    requires i < 4 && Searching(rows, cols, t0, p, goal, i, trace, t) && Tried(rows, cols, t, p, DIRECTIONS[i])
    ensures Searching(rows, cols, t0, p, goal, i + 1, trace, t)
  {
  }

  lemma ClosedDeepens(rows: nat, cols: nat, t0: Trail, t: Trail, p: Pos, n: Pos, t': Trail)
    requires Closed(rows, cols, t0, t, {p}) && p in t.g && p in t.stamp && Later(t0, t) && t.stamp.Keys <= t.g.Keys
    requires Closed(rows, cols, Pointed(t, p, n), t', {}) && Later(Pointed(t, p, n), t')
    ensures Closed(rows, cols, t0, t', {p})
  {
    var t1 := Pointed(t, p, n);
    PointedSame(t, p, n);
    SameTrans(t0.g, t.g, t1.g);
    forall a, b {:trigger Step(rows, cols, t0.g, a, b)}
      | a in t'.stamp && a !in t0.stamp && a != p && Step(rows, cols, t0.g, a, b)
      ensures b in t'.stamp
    {
      StepSame(rows, cols, t0.g, t1.g, a, b);
    }
  }

  lemma TraceSame(rows: nat, cols: nat, g: Grid, g': Grid, trace: seq<Pos>, p: Pos, q: Pos)
    requires SameWalls(g, g') && TraceOk(rows, cols, g, trace, p, q)
    ensures TraceOk(rows, cols, g', trace, p, q)
  {
    forall i {:trigger JoinedAt(rows, cols, g', trace, i)} | 0 < i < |trace|
      ensures JoinedAt(rows, cols, g', trace, i)
    {
      assert JoinedAt(rows, cols, g, trace, i);
      StepSame(rows, cols, g, g', trace[i - 1], trace[i]);
      StepSame(rows, cols, g, g', trace[i], trace[i - 1]);
    }
  }

  lemma TraceJoin(rows: nat, cols: nat, g: Grid, s: seq<Pos>, p: Pos, q: Pos, u: seq<Pos>, r: Pos, z: Pos)
    requires TraceOk(rows, cols, g, s, p, q) && TraceOk(rows, cols, g, u, r, z)
    requires Step(rows, cols, g, q, r) || Step(rows, cols, g, r, q)
    ensures TraceOk(rows, cols, g, s + u, p, z)
  {
    var w := s + u;
    forall i {:trigger JoinedAt(rows, cols, g, w, i)} | 0 < i < |w|
      ensures JoinedAt(rows, cols, g, w, i)
    {
      if i < |s| {
        assert JoinedAt(rows, cols, g, s, i) && w[i] == s[i] && w[i - 1] == s[i - 1];
      } else if i > |s| {
        assert JoinedAt(rows, cols, g, u, i - |s|) && w[i] == u[i - |s|] && w[i - 1] == u[i - |s| - 1];
      }
    }
  }

  /** The search behind one side failed: everything behind it is visited, and the trace is back at `p`. */
  lemma SearchFails(rows: nat, cols: nat, t0: Trail, p: Pos, goal: Pos, i: nat, trace: seq<Pos>, t: Trail,
                    n: Pos, deeper: seq<Pos>, t': Trail)
    requires i < 4 && Searching(rows, cols, t0, p, goal, i, trace, t)
    requires GetNeighbor(rows, cols, p, DIRECTIONS[i]) == Some(n) && Step(rows, cols, t.g, p, n) && n !in t.stamp
    requires Searched(rows, cols, Pointed(t, p, n), n, goal, false, [], deeper, t')
    ensures Searching(rows, cols, t0, p, goal, i + 1, trace + deeper + [p], t')
  {
    var t1 := Pointed(t, p, n);
    LaterPointed(t0, t, p, n);
    LaterTrans(t0, t1, t');
    ClosedDeepens(rows, cols, t0, t, p, n, t');
    FailTrace(rows, cols, t0.g, t.g, t1.g, trace, p, deeper, n);
    forall j | 0 <= j < i + 1
      ensures Tried(rows, cols, t', p, DIRECTIONS[j])
    {
      if j < i {
        assert Tried(rows, cols, t, p, DIRECTIONS[j]);
        assert t'.g[p] == t1.g[p];
      }
    }
  }

  lemma FailTrace(rows: nat, cols: nat, g0: Grid, g: Grid, g1: Grid, trace: seq<Pos>, p: Pos, deeper: seq<Pos>, n: Pos)
    requires SameWalls(g0, g) && SameWalls(g0, g1) && TraceOk(rows, cols, g0, trace, p, p)
    requires TraceOk(rows, cols, g1, deeper, n, n)
    requires Step(rows, cols, g, p, n)
    ensures TraceOk(rows, cols, g0, trace + deeper + [p], p, p)
  {
    StepSame(rows, cols, g0, g, p, n);
    TraceSame(rows, cols, g1, g0, deeper, n, n);
    TraceJoin(rows, cols, g0, trace, p, p, deeper, n, n);
    TraceJoin(rows, cols, g0, trace + deeper, p, n, [p], p, p);
  }

  /** The search behind one side found the goal: so did the search from `p`. */
  lemma SearchFinds(rows: nat, cols: nat, t0: Trail, p: Pos, goal: Pos, i: nat, trace: seq<Pos>, t: Trail,
                    n: Pos, path: seq<Pos>, deeper: seq<Pos>, t': Trail)
    requires i < 4 && Searching(rows, cols, t0, p, goal, i, trace, t)
    requires Step(rows, cols, t.g, p, n)
    requires Searched(rows, cols, Pointed(t, p, n), n, goal, true, path, deeper, t')
    ensures Searched(rows, cols, t0, p, goal, true, [p] + path, trace + deeper, t')
  {
    var t1 := Pointed(t, p, n);
    LaterPointed(t0, t, p, n);
    LaterTrans(t0, t1, t');
    StepSame(rows, cols, t0.g, t.g, p, n);
    TraceSame(rows, cols, t1.g, t0.g, deeper, n, goal);
    TraceJoin(rows, cols, t0.g, trace, p, p, deeper, n, goal);
    SolvedDeepens(rows, cols, t0, t, p, goal, n, path, t');
  }

  lemma SolvedDeepens(rows: nat, cols: nat, t0: Trail, t: Trail, p: Pos, goal: Pos, n: Pos, path: seq<Pos>, t': Trail)
    requires Later(t0, t) && p in t.g && p in t.stamp && p !in t0.stamp && Step(rows, cols, t0.g, p, n)
    requires Later(Pointed(t, p, n), t') && Solved(rows, cols, Pointed(t, p, n), t', n, goal, path)
    ensures Solved(rows, cols, t0, t', p, goal, [p] + path)
  {
    var t1 := Pointed(t, p, n);
    PointedSame(t, p, n);
    SameTrans(t0.g, t.g, t1.g);
    WalkSame(rows, cols, t1.g, t0.g, path);
    WalkPrepend(rows, cols, t0.g, p, n, goal, path);
    assert t'.g[p] == t1.g[p];
    LinksDeepen(t0, t1, t', p, path);
  }

  lemma LinksDeepen(t0: Trail, t1: Trail, t': Trail, p: Pos, path: seq<Pos>)
    requires path != [] && p in t'.stamp && p !in t0.stamp && p in t'.g && t'.g[p].next == Some(path[0])
    requires t0.stamp.Keys <= t1.stamp.Keys
    requires forall i {:trigger path[i]} :: 0 <= i < |path| - 1 ==>
      path[i] in t'.stamp && path[i] !in t1.stamp && path[i] in t'.g && t'.g[path[i]].next == Some(path[i + 1])
    ensures var w := [p] + path; forall i {:trigger w[i]} :: 0 <= i < |w| - 1 ==>
      w[i] in t'.stamp && w[i] !in t0.stamp && w[i] in t'.g && t'.g[w[i]].next == Some(w[i + 1])
  {
    var w := [p] + path;
    forall i {:trigger w[i]} | 0 <= i < |w| - 1
      ensures w[i] in t'.stamp && w[i] !in t0.stamp && w[i] in t'.g && t'.g[w[i]].next == Some(w[i + 1])
    {
      assert w[i + 1] == path[i];
      assert i > 0 ==> w[i] == path[i - 1];
    }
  }

  lemma SearchEnds(rows: nat, cols: nat, t0: Trail, p: Pos, goal: Pos, trace: seq<Pos>, t: Trail)
    requires Searching(rows, cols, t0, p, goal, 4, trace, t)
    ensures Searched(rows, cols, t0, p, goal, false, [], trace, t)
  {
    forall b | Step(rows, cols, t0.g, p, b)
      ensures b in t.stamp
    {
      var d :| p in t0.g && GetNeighbor(rows, cols, p, d) == Some(b) && Side(t0.g[p], d) == 0;
      var j := match d case NORTH => 0 case SOUTH => 1 case EAST => 2 case WEST => 3;
      assert DIRECTIONS[j] == d && Tried(rows, cols, t, p, DIRECTIONS[j]);
      assert Side(t.g[p], d) == 0;
    }
  }

  // ---------------------------------------------------------------- which path is found

  /** Up comes before down, down before right, right before left. */
  function Rank(p: Pos, q: Pos): int {
    if q.row < p.row then 0 else if q.row > p.row then 1 else if q.col > p.col then 2 else 3
  }

  /** Where the two part, `a` goes the way that comes first. */
  ghost predicate Before(a: seq<Pos>, b: seq<Pos>) {
    exists i :: PartsAt(a, b, i)
  }

  predicate PartsAt(a: seq<Pos>, b: seq<Pos>, i: int) {
    0 < i < |a| && i < |b| && a[..i] == b[..i] && Rank(a[i - 1], a[i]) < Rank(b[i - 1], b[i])
  }

  /** Every other walk without repeats from `p` to the goal, through rooms not visited yet, comes after `path`. */
  ghost predicate Least(rows: nat, cols: nat, t: Trail, p: Pos, goal: Pos, path: seq<Pos>) {
    forall s {:trigger WalkFrom(rows, cols, t.g, p, goal, s)} ::
      WalkFrom(rows, cols, t.g, p, goal, s) && Distinct(s) && (forall i :: 0 <= i < |s| ==> s[i] !in t.stamp) ==>
        s == path || Before(path, s)
  }

  /** A walk that enters a part already searched cannot get to the goal from there. */
  lemma {:induction false} NoWayOut(rows: nat, cols: nat, t0: Trail, t: Trail, p: Pos, goal: Pos, s: seq<Pos>, j: nat)
    requires Closed(rows, cols, t0, t, {p}) && Walk(rows, cols, t0.g, s) && 0 < j < |s| && s[|s| - 1] == goal
    requires goal !in t.stamp && forall i :: j <= i < |s| ==> s[i] !in t0.stamp && s[i] != p
    ensures s[j] !in t.stamp
    decreases |s| - j
  {
    if j + 1 < |s| {
      NoWayOut(rows, cols, t0, t, p, goal, s, j + 1);
      assert StepAt(rows, cols, t0.g, s, j + 1);
    }
  }

  lemma RankOf(rows: int, cols: int, p: Pos, j: nat, q: Pos)
    requires j < 4 && GetNeighbor(rows, cols, p, DIRECTIONS[j]) == Some(q)
    ensures Rank(p, q) == j
  {
  }

  lemma BeforeBehind(p: Pos, a: seq<Pos>, b: seq<Pos>)
    requires Before(a, b)
    ensures Before([p] + a, [p] + b)
  {
    var i :| PartsAt(a, b, i);
    assert ([p] + a)[..i + 1] == [p] + a[..i] && ([p] + b)[..i + 1] == [p] + b[..i];
    assert PartsAt([p] + a, [p] + b, i + 1);
  }

  lemma StepDirection(rows: nat, cols: nat, g: Grid, p: Pos, q: Pos) returns (j: nat)
    requires Step(rows, cols, g, p, q)
    ensures j < 4 && p in g && GetNeighbor(rows, cols, p, DIRECTIONS[j]) == Some(q) && Side(g[p], DIRECTIONS[j]) == 0
  {
    var d :| p in g && GetNeighbor(rows, cols, p, d) == Some(q) && Side(g[p], d) == 0;
    j := match d case NORTH => 0 case SOUTH => 1 case EAST => 2 case WEST => 3;
    assert DIRECTIONS[j] == d;
  }

  /** A walk that the search passes over on its way behind side i of `p` comes after the path it finds there. */
  lemma LaterWalk(rows: nat, cols: nat, t0: Trail, p: Pos, goal: Pos, i: nat, trace: seq<Pos>, t: Trail,
                  n: Pos, path: seq<Pos>, s: seq<Pos>)
    requires i < 4 && Searching(rows, cols, t0, p, goal, i, trace, t) && p != goal && path != [] && path[0] == n
    requires GetNeighbor(rows, cols, p, DIRECTIONS[i]) == Some(n) && Least(rows, cols, Pointed(t, p, n), n, goal, path)
    requires WalkFrom(rows, cols, t0.g, p, goal, s) && Distinct(s) && forall k :: 0 <= k < |s| ==> s[k] !in t0.stamp
    ensures s == [p] + path || Before([p] + path, s)
  {
    assert StepAt(rows, cols, t0.g, s, 1);
    var j := StepDirection(rows, cols, t0.g, p, s[1]);
    RankOf(rows, cols, p, j, s[1]);
    RankOf(rows, cols, p, i, n);
    assert Side(t.g[p], DIRECTIONS[j]) == 0;
    assert j < i ==> Tried(rows, cols, t, p, DIRECTIONS[j]);
    forall k | 0 < k < |s|
      ensures s[k] !in t.stamp
    {
      NoWayOut(rows, cols, t0, t, p, goal, s, k);
    }
    if j == i {
      TailLater(rows, cols, t0, t, p, goal, n, path, s);
    } else {
      assert ([p] + path)[..1] == s[..1];
      assert PartsAt([p] + path, s, 1);
    }
  }

  lemma TailLater(rows: nat, cols: nat, t0: Trail, t: Trail, p: Pos, goal: Pos, n: Pos, path: seq<Pos>, s: seq<Pos>)
    requires Later(t0, t) && p in t.g && Least(rows, cols, Pointed(t, p, n), n, goal, path)
    requires WalkFrom(rows, cols, t0.g, p, goal, s) && Distinct(s) && |s| > 1 && s[1] == n
    requires forall k :: 0 < k < |s| ==> s[k] !in t.stamp
    ensures s == [p] + path || Before([p] + path, s)
  {
    var t1, u := Pointed(t, p, n), s[1..];
    PointedSame(t, p, n);
    SameTrans(t0.g, t.g, t1.g);
    forall k {:trigger StepAt(rows, cols, t0.g, u, k)} | 0 < k < |u|
      ensures StepAt(rows, cols, t0.g, u, k)
    {
      assert StepAt(rows, cols, t0.g, s, k + 1);
    }
    WalkSame(rows, cols, t0.g, t1.g, u);
    assert WalkFrom(rows, cols, t1.g, n, goal, u) && s == [p] + u;
    if u != path { BeforeBehind(p, path, u); }
  }

  lemma LeastDeepens(rows: nat, cols: nat, t0: Trail, p: Pos, goal: Pos, i: nat, trace: seq<Pos>, t: Trail,
                     n: Pos, path: seq<Pos>)
    requires i < 4 && Searching(rows, cols, t0, p, goal, i, trace, t) && p != goal && path != [] && path[0] == n
    requires GetNeighbor(rows, cols, p, DIRECTIONS[i]) == Some(n) && Least(rows, cols, Pointed(t, p, n), n, goal, path)
    ensures Least(rows, cols, t0, p, goal, [p] + path)
  {
    forall s {:trigger WalkFrom(rows, cols, t0.g, p, goal, s)}
      | WalkFrom(rows, cols, t0.g, p, goal, s) && Distinct(s) && forall k :: 0 <= k < |s| ==> s[k] !in t0.stamp
      ensures s == [p] + path || Before([p] + path, s)
    {
      LaterWalk(rows, cols, t0, p, goal, i, trace, t, n, path, s);
    }
  }

  // ---------------------------------------------------------------- the search

  /** Depth-first search from an unvisited room; `trace` is what the full report prints. */
  method Dfs(row: int, col: int, goal: Pos, maze: array2<Room>, ghost t: Trail)
    returns (found: bool, trace: seq<Pos>, ghost path: seq<Pos>, ghost t': Trail)
    requires IsInRange(row, col, maze.Length0, maze.Length1)
    requires t.g == Snap(maze) && TrailOk(maze.Length0, maze.Length1, t, goal) && !maze[row, col].visited
    modifies maze
    ensures t'.g == Snap(maze) && Searched(maze.Length0, maze.Length1, t, Pos(row, col), goal, found, path, trace, t')
    ensures found ==> Least(maze.Length0, maze.Length1, t, Pos(row, col), goal, path)
    ensures Reported(t, t', trace)
    decreases t.g.Keys - t.stamp.Keys
  {
    var rows, cols, p := maze.Length0, maze.Length1, Pos(row, col);
    RoomsHold(rows, cols, p);
    assert maze[row, col] == t.g[p];
    trace := [p];
    path, t' := [], t;
    if p == goal {
      path := [p];
      return true, trace, path, t;
    }
    SearchStarts(rows, cols, t, p, goal);
    SetRoom(maze, p, maze[row, col].(visited := true));
    t' := Marked(t, p);
    found := false;
    for i := 0 to 4
      invariant t'.g == Snap(maze) && Searching(rows, cols, t, p, goal, i, trace, t')
      invariant Reported(t, t', trace)
    {
      var dir := DIRECTIONS[i];
      assert maze[row, col] == t'.g[p];
      var neighbor := GetNeighbor(rows, cols, Pos(maze[row, col].row, maze[row, col].col), dir);
      if neighbor.Some? && !maze[neighbor.value.row, neighbor.value.col].visited && Side(maze[row, col], dir) == 0 {
        var n := neighbor.value;
        RoomsHold(rows, cols, n);
        assert maze[n.row, n.col] == t'.g[n];
        assert Step(rows, cols, t'.g, p, n);
        PointedOk(rows, cols, t', p, goal, n);
        SetRoom(maze, p, maze[row, col].(next := Some(n)));
        ghost var t1 := t';
        var deeper;
        found, deeper, path, t' := Dfs(maze[n.row, n.col].row, maze[n.row, n.col].col, goal, maze, Pointed(t1, p, n));
        if found {
          SearchFinds(rows, cols, t, p, goal, i, trace, t1, n, path, deeper, t');
          LeastDeepens(rows, cols, t, p, goal, i, trace, t1, n, path);
          return true, trace + deeper, [p] + path, t';
        }
        SearchFails(rows, cols, t, p, goal, i, trace, t1, n, deeper, t');
        trace := trace + deeper + [p];
      } else {
        if neighbor.Some? {
          RoomsHold(rows, cols, neighbor.value);
          assert maze[neighbor.value.row, neighbor.value.col] == t'.g[neighbor.value];
        }
        SearchSkips(rows, cols, t, p, goal, i, trace, t');
      }
    }
    SearchEnds(rows, cols, t, p, goal, trace, t');
    return false, trace, [], t';
  }

  // ---------------------------------------------------------------- following the links

  /** The rooms met by following `next` from the first of them until it is NULL. */
  ghost predicate IsChain(g: Grid, s: seq<Pos>) {
    && s != [] && (forall i :: 0 <= i < |s| ==> s[i] in g)
    && (forall i {:trigger s[i]} :: 0 <= i < |s| - 1 ==> g[s[i]].next == Some(s[i + 1]))
    && g[s[|s| - 1]].next == None
  }

  lemma {:induction false} ChainStamps(rows: nat, cols: nat, t: Trail, goal: Pos, s: seq<Pos>, i: nat, j: nat)
    requires TrailOk(rows, cols, t, goal) && i < j < |s| && (forall k :: 0 <= k < |s| ==> s[k] in t.g)
    requires forall k {:trigger s[k]} :: 0 <= k < |s| - 1 ==> t.g[s[k]].next == Some(s[k + 1])
    ensures s[i] in t.stamp && (s[j] in t.stamp ==> t.stamp[s[i]] < t.stamp[s[j]])
    decreases j
  {
    assert NextOk(rows, cols, t, s[i]);
    if i < j - 1 {
      ChainStamps(rows, cols, t, goal, s, i, j - 1);
      assert s[j - 1 + 1] == s[j];
      assert NextOk(rows, cols, t, s[j - 1]);
    } else {
      assert s[i + 1] == s[j];
    }
  }

  /** Links never come round: every chain of `next` links is free of repeats and follows openings. */
  lemma ChainAcyclic(rows: nat, cols: nat, t: Trail, goal: Pos, s: seq<Pos>)
    requires TrailOk(rows, cols, t, goal) && IsChain(t.g, s)
    ensures Distinct(s) && Walk(rows, cols, t.g, s)
  {
    forall i, j | 0 <= i < j < |s|
      ensures s[i] != s[j]
    {
      ChainStamps(rows, cols, t, goal, s, i, j);
    }
    forall i {:trigger StepAt(rows, cols, t.g, s, i)} | 0 < i < |s|
      ensures StepAt(rows, cols, t.g, s, i)
    {
      assert NextOk(rows, cols, t, s[i - 1]);
      assert s[i - 1 + 1] == s[i];
    }
  }

  lemma {:induction false} ChainUnique(g: Grid, s: seq<Pos>, u: seq<Pos>)
    requires IsChain(g, s) && IsChain(g, u) && s[0] == u[0]
    ensures s == u
  {
    if |s| > 1 && |u| > 1 {
      assert s[0 + 1] == u[0 + 1];
      ChainTail(g, s);
      ChainTail(g, u);
      ChainUnique(g, s[1..], u[1..]);
      assert s == [s[0]] + s[1..] && u == [u[0]] + u[1..];
    }
  }

  lemma ChainTail(g: Grid, s: seq<Pos>)
    requires IsChain(g, s) && |s| > 1
    ensures IsChain(g, s[1..])
  {
    var u := s[1..];
    forall i {:trigger u[i]} | 0 <= i < |u| - 1
      ensures g[u[i]].next == Some(u[i + 1])
    {
      assert u[i] == s[i + 1] && u[i + 1] == s[i + 1 + 1];
    }
  }

  /** How many links can still be followed. */
  ghost function LinksLeft(t: Trail, room: Option<Pos>): nat {
    if room.None? then 0
    else if room.value !in t.stamp then 1
    else if t.stamp[room.value] < t.clock then t.clock - t.stamp[room.value] + 1
    else 2
  }

  /** Prints the rooms along `next` until NULL; it always gets there. */
  method PrintPrunedPath(maze: array2<Room>, start: Pos, ghost t: Trail, ghost goal: Pos) returns (printed: seq<Pos>)
    requires t.g == Snap(maze) && TrailOk(maze.Length0, maze.Length1, t, goal)
    requires IsInRange(start.row, start.col, maze.Length0, maze.Length1)
    ensures IsChain(t.g, printed) && printed[0] == start
  {
    ghost var rows, cols := maze.Length0, maze.Length1;
    RoomsHold(rows, cols, start);
    var room := Some(start);
    printed := [];
    while room.Some?
      invariant room.Some? ==> room.value in t.g
      invariant forall i :: 0 <= i < |printed| ==> printed[i] in t.g
      invariant forall i {:trigger printed[i]} ::
        0 <= i < |printed| - 1 ==> t.g[printed[i]].next == Some(printed[i + 1])
      invariant
        if printed == [] then room == Some(start)
        else printed[0] == start && t.g[printed[|printed| - 1]].next == room
      decreases LinksLeft(t, room)
    {
      var p := room.value;
      RoomsHold(rows, cols, p);
      assert maze[p.row, p.col] == t.g[p] && NextOk(rows, cols, t, p);
      ghost var before := printed;
      printed := printed + [Pos(maze[p.row, p.col].row, maze[p.row, p.col].col)];
      assert forall i {:trigger printed[i]} :: 0 <= i < |before| ==> printed[i] == before[i];
      room := maze[p.row, p.col].next;
    }
  }

  // ---------------------------------------------------------------- the solver and the generator together

  /** The rooms a solver starts with: the walls the numbers give, nothing visited. */
  ghost function DecodedGrid(encoded: array2<int>): (g: Grid)
    reads encoded
    ensures g.Keys == Rooms(encoded.Length0, encoded.Length1)
  {
    map p | p in Rooms(encoded.Length0, encoded.Length1) :: CreateRoomConnections(Blank(p), encoded[p.row, p.col])
  }

  /** The decoded grid opens the ways the numbers say. */
  lemma DecodedOpens(encoded: array2<int>, p: Pos, q: Pos)
    ensures Step(encoded.Length0, encoded.Length1, DecodedGrid(encoded), p, q) <==> OpenTo(encoded, p, q)
  {
    var rows, cols, g := encoded.Length0, encoded.Length1, DecodedGrid(encoded);
    StepByCoordinates(rows, cols, g, p, q);
    if IsInRange(p.row, p.col, rows, cols) {
      RoomsHold(rows, cols, p);
      var n := encoded[p.row, p.col];
      assert g[p] == CreateRoomConnections(Blank(p), n);
      assert Bit(n, 0) <==> n % 2 == 1;
      assert Bit(n, 1) <==> (n / 2) % 2 == 1;
      assert Bit(n, 2) <==> (n / 4) % 2 == 1;
      assert Bit(n, 3) <==> (n / 8) % 2 == 1;
    }
  }

  /** The two reports and the outcome, by the numbers alone. */
  ghost predicate SolvedByNumbers(encoded: array2<int>, start: Pos, goal: Pos, found: bool, full: seq<Pos>,
                                  pruned: seq<Pos>)
    reads encoded
  {
    && (found <==> OpenWay(encoded, start, goal))
    && OpenWalk(encoded, pruned)
    && (forall i :: 0 < i < |full| ==> OpenTo(encoded, full[i - 1], full[i]) || OpenTo(encoded, full[i], full[i - 1]))
  }

  /**
    On success the pruned report is the first way in the order of the directions; on failure the full one misses no room
    that can be reached.
   */
  ghost predicate ReportsExact(encoded: array2<int>, start: Pos, goal: Pos, found: bool, full: seq<Pos>,
                               pruned: seq<Pos>)
    reads encoded
  {
    && (found ==> forall s {:trigger OpenWalk(encoded, s)} ::
          OpenWalk(encoded, s) && s != [] && s[0] == start && s[|s| - 1] == goal && Distinct(s) ==>
            s == pruned || Before(pruned, s))
    && (!found ==> forall q :: OpenWay(encoded, start, q) ==> q in full)
  }

  lemma ReportsByNumbers(encoded: array2<int>, start: Pos, goal: Pos, found: bool, full: seq<Pos>, path: seq<Pos>,
                         t: Trail)
    requires var rows, cols, g := encoded.Length0, encoded.Length1, DecodedGrid(encoded);
      && Searched(rows, cols, Trail(g, map[], 0), start, goal, found, path, full, t)
      && Reported(Trail(g, map[], 0), t, full) && (found ==> Least(rows, cols, Trail(g, map[], 0), start, goal, path))
    ensures ReportsExact(encoded, start, goal, found, full, path)
  {
    var rows, cols, g := encoded.Length0, encoded.Length1, DecodedGrid(encoded);
    forall p, q
      ensures Step(rows, cols, g, p, q) <==> OpenTo(encoded, p, q)
    {
      DecodedOpens(encoded, p, q);
    }
    if found {
      forall s {:trigger OpenWalk(encoded, s)}
        | OpenWalk(encoded, s) && s != [] && s[0] == start && s[|s| - 1] == goal && Distinct(s)
        ensures s == path || Before(path, s)
      {
        WalkByNumbers(encoded, g, s);
        assert WalkFrom(rows, cols, g, start, goal, s);
      }
    } else {
      forall q | OpenWay(encoded, start, q)
        ensures q in full
      {
        ReachableByNumbers(encoded, g, start, q);
        ClosedHolds(rows, cols, g, t.stamp.Keys, start, q);
      }
    }
  }

  lemma SameByNumbers(encoded: array2<int>, start: Pos, goal: Pos, found: bool, full: seq<Pos>, pruned: seq<Pos>)
    requires found <==> Reachable(encoded.Length0, encoded.Length1, DecodedGrid(encoded), start, goal)
    requires Walk(encoded.Length0, encoded.Length1, DecodedGrid(encoded), pruned)
    requires Contiguous(encoded.Length0, encoded.Length1, DecodedGrid(encoded), full)
    ensures SolvedByNumbers(encoded, start, goal, found, full, pruned)
  {
    var rows, cols, g := encoded.Length0, encoded.Length1, DecodedGrid(encoded);
    forall p, q
      ensures Step(rows, cols, g, p, q) <==> OpenTo(encoded, p, q)
    {
      DecodedOpens(encoded, p, q);
    }
    ReachableByNumbers(encoded, g, start, goal);
    WalkByNumbers(encoded, g, pruned);
    forall i | 0 < i < |full|
      ensures OpenTo(encoded, full[i - 1], full[i]) || OpenTo(encoded, full[i], full[i - 1])
    {
      assert JoinedAt(rows, cols, g, full, i);
    }
  }

  lemma FreshTrailOk(rows: nat, cols: nat, g: Grid, goal: Pos)
    requires g.Keys == Rooms(rows, cols)
    requires forall p :: p in g ==> g[p].row == p.row && g[p].col == p.col && !g[p].visited && g[p].next == None
    ensures TrailOk(rows, cols, Trail(g, map[], 0), goal)
  {
  }

  /** The search succeeds exactly if the goal can be reached through openings. */
  lemma SearchExact(rows: nat, cols: nat, g: Grid, start: Pos, goal: Pos, found: bool, path: seq<Pos>,
                    trace: seq<Pos>, t: Trail)
    requires Searched(rows, cols, Trail(g, map[], 0), start, goal, found, path, trace, t)
    ensures found <==> Reachable(rows, cols, g, start, goal)
  {
    if found {
      assert WalkFrom(rows, cols, g, start, goal, path);
    } else if Reachable(rows, cols, g, start, goal) {
      ClosedHolds(rows, cols, g, t.stamp.Keys, start, goal);
    }
  }

  /** What is printed is the path itself when the goal was found. */
  lemma PrintedIsPath(rows: nat, cols: nat, t0: Trail, start: Pos, goal: Pos, path: seq<Pos>, trace: seq<Pos>,
                      t: Trail, printed: seq<Pos>)
    requires Searched(rows, cols, t0, start, goal, true, path, trace, t)
    requires IsChain(t.g, printed) && printed[0] == start && goal in t.g
    ensures printed == path
  {
    assert NextOk(rows, cols, t, goal);
    assert IsChain(t.g, path) by {
      forall i | 0 <= i < |path| ensures path[i] in t.g { if i < |path| - 1 { assert path[i] in t.g; } }
    }
    ChainUnique(t.g, printed, path);
  }

  /**
    The solver, on any maze: it succeeds exactly if the goal can be reached; the full report walks along openings
    from the start to the goal, or back to the start; the pruned report is a walk without repeats, to the goal if
    there is a way.
   */
  method Solve(encoded: array2<int>, start: Pos, goal: Pos)
    returns (ok: bool, found: bool, full: seq<Pos>, pruned: seq<Pos>)
    ensures ok <==> (IsInRange(start.row, start.col, encoded.Length0, encoded.Length1)
                     && IsInRange(goal.row, goal.col, encoded.Length0, encoded.Length1))
    ensures ok ==> (found <==> Reachable(encoded.Length0, encoded.Length1, DecodedGrid(encoded), start, goal))
    ensures ok ==>
      TraceOk(encoded.Length0, encoded.Length1, DecodedGrid(encoded), full, start, if found then goal else start)
    ensures ok ==> pruned != [] && pruned[0] == start && Distinct(pruned)
    ensures ok ==> Walk(encoded.Length0, encoded.Length1, DecodedGrid(encoded), pruned)
    ensures ok && found ==> pruned[|pruned| - 1] == goal
    ensures ok ==> SolvedByNumbers(encoded, start, goal, found, full, pruned)
    ensures ok ==> ReportsExact(encoded, start, goal, found, full, pruned)
  {
    var rows, cols := encoded.Length0, encoded.Length1;
    ok := IsInRange(start.row, start.col, rows, cols) && IsInRange(goal.row, goal.col, rows, cols);
    if !ok {
      return false, false, [], [];
    }
    var maze := new Room[rows, cols]((r, c) => Blank(Pos(r, c)));
    InitializeMaze(maze);
    DecodeMaze(maze, encoded);
    ghost var g := Snap(maze);
    assert g == DecodedGrid(encoded) by {
      forall p | p in g ensures g[p] == DecodedGrid(encoded)[p] { RoomsHold(rows, cols, p); }
    }
    FreshTrailOk(rows, cols, g, goal);
    RoomsHold(rows, cols, start);
    assert maze[start.row, start.col] == g[start];
    ghost var path, t;
    found, full, path, t := Dfs(start.row, start.col, goal, maze, Trail(g, map[], 0));
    SearchExact(rows, cols, g, start, goal, found, path, full, t);
    pruned := PrintPrunedPath(maze, start, t, goal);
    ChainAcyclic(rows, cols, t, goal, pruned);
    WalkSame(rows, cols, t.g, g, pruned);
    if found {
      RoomsHold(rows, cols, goal);
      PrintedIsPath(rows, cols, Trail(g, map[], 0), start, goal, path, full, t, pruned);
    }
    SameByNumbers(encoded, start, goal, found, full, pruned);
    ReportsByNumbers(encoded, start, goal, found, full, path, t);
  }

  /** Decoding the encoding of a maze with matching walls gives back the same walls. */
  lemma MazeRoundTrip(maze: array2<Room>, encoded: array2<int>)
    requires encoded.Length0 == maze.Length0 && encoded.Length1 == maze.Length1
    requires WallsMatch(maze.Length0, maze.Length1, Snap(maze)) && EncodedUpTo(maze, encoded, maze.Length0, 0)
    ensures SameWalls(Snap(maze), DecodedGrid(encoded))
  {
    forall p, d {:trigger Side(Snap(maze)[p], d)} | p in Snap(maze)
      ensures Side(DecodedGrid(encoded)[p], d) == Side(Snap(maze)[p], d)
    {
      RoomsHold(maze.Length0, maze.Length1, p);
      assert SideMatches(maze.Length0, maze.Length1, Snap(maze), p, d);
      RoomRoundTrip(Snap(maze)[p], Blank(p), d);
    }
  }

  /** Every generated maze is solved between any two of its rooms, by the one walk without repeats that joins them. */
  method GenerateAndSolve(rows: int, cols: int, start: Pos, goal: Pos)
    returns (maze: array2?<Room>, found: bool, pruned: seq<Pos>)
    ensures found <==> IsInRange(start.row, start.col, rows, cols) && IsInRange(goal.row, goal.col, rows, cols)
    ensures maze != null <==> rows > 0 && cols > 0
    ensures maze != null ==> maze.Length0 == rows && maze.Length1 == cols && SpanningTree(rows, cols, Snap(maze))
    ensures found ==> maze != null && SimpleWalk(rows, cols, Snap(maze), start, goal, pruned)
  {
    var encoded;
    maze, encoded := Generate(rows, cols);
    if maze == null {
      return null, false, [];
    }
    var ok, full;
    ok, found, full, pruned := Solve(encoded, start, goal);
    if ok {
      MazeRoundTrip(maze, encoded);
      RoomsHold(rows, cols, start);
      RoomsHold(rows, cols, goal);
      OneWayReaches(rows, cols, Snap(maze), start, goal);
      ReachableSame(rows, cols, Snap(maze), DecodedGrid(encoded), start, goal);
      WalkBack(rows, cols, Snap(maze), DecodedGrid(encoded), pruned);
    }
    found := ok && found;
  }

  lemma WalkBack(rows: nat, cols: nat, g: Grid, g': Grid, s: seq<Pos>)
    requires SameWalls(g, g') && Walk(rows, cols, g', s)
    ensures Walk(rows, cols, g, s)
  {
    WalkSame(rows, cols, g', g, s);
  }
}
