/** Rooms, walls and adjacency of a rectangular maze, and the walls as openings between rooms. */
module MazeGrid {
  import opened Sequences
  import opened Options

  datatype Direction = NORTH | SOUTH | WEST | EAST

  datatype Pos = Pos(row: int, col: int)

  /** A side is 1 for a wall, 0 for an opening and -1 while undecided. */
  datatype Room = Room(row: int, col: int, visited: bool,
                       upRoom: int, downRoom: int, leftRoom: int, rightRoom: int,
                       next: Option<Pos>)

  /** The contents of a maze array. */
  type Grid = map<Pos, Room>

  predicate IsInRange(row: int, col: int, rows: int, cols: int) {
    0 <= row < rows && 0 <= col < cols
  }

  ghost function Rooms(rows: nat, cols: nat): set<Pos> {
    set r, c | 0 <= r < rows && 0 <= c < cols :: Pos(r, c)
  }

  /** The position next to `p`, or None at the border. */
  function GetNeighbor(rows: int, cols: int, p: Pos, dir: Direction): (q: Option<Pos>)
    ensures q.Some? ==> IsInRange(q.value.row, q.value.col, rows, cols)
  {
    if !IsInRange(p.row, p.col, rows, cols) then None
    else match dir
      case NORTH => if p.row - 1 >= 0 then Some(Pos(p.row - 1, p.col)) else None
      case SOUTH => if p.row + 1 < rows then Some(Pos(p.row + 1, p.col)) else None
      case WEST => if p.col - 1 >= 0 then Some(Pos(p.row, p.col - 1)) else None
      case EAST => if p.col + 1 < cols then Some(Pos(p.row, p.col + 1)) else None
  }

  predicate Adjacent(p: Pos, q: Pos) {
    || (p.row == q.row && (p.col == q.col + 1 || q.col == p.col + 1))
    || (p.col == q.col && (p.row == q.row + 1 || q.row == p.row + 1))
  }

  /** The rooms one can name by a direction are exactly the rooms of the grid one row or one column away. */
  lemma NeighborsAreAdjacent(rows: int, cols: int, p: Pos, q: Pos)
    ensures (exists d :: GetNeighbor(rows, cols, p, d) == Some(q)) <==>
      (IsInRange(p.row, p.col, rows, cols) && IsInRange(q.row, q.col, rows, cols) && Adjacent(p, q))
  {
    if IsInRange(p.row, p.col, rows, cols) && IsInRange(q.row, q.col, rows, cols) && Adjacent(p, q) {
      var d := if q.row < p.row then NORTH else if p.row < q.row then SOUTH else if q.col < p.col then WEST else EAST;
      assert GetNeighbor(rows, cols, p, d) == Some(q);
    }
  }

  /** Adjacency is mutual, across opposite sides. */
  lemma NeighborBack(rows: int, cols: int, p: Pos, dir: Direction)
    requires GetNeighbor(rows, cols, p, dir).Some?
    ensures GetNeighbor(rows, cols, GetNeighbor(rows, cols, p, dir).value, Opposite(dir)) == Some(p)
    ensures GetNeighbor(rows, cols, p, dir).value != p && IsInRange(p.row, p.col, rows, cols)
    ensures forall d :: GetNeighbor(rows, cols, p, d) == GetNeighbor(rows, cols, p, dir) ==> d == dir
  {
  }

  function Opposite(dir: Direction): (o: Direction)
    ensures o != dir
  {
    match dir
    case NORTH => SOUTH
    case SOUTH => NORTH
    case WEST => EAST
    case EAST => WEST
  }

  function Side(room: Room, dir: Direction): int {
    match dir
    case NORTH => room.upRoom
    case SOUTH => room.downRoom
    case WEST => room.leftRoom
    case EAST => room.rightRoom
  }

  function WithSide(room: Room, dir: Direction, v: int): (r: Room)
    ensures Side(r, dir) == v && forall d :: d != dir ==> Side(r, d) == Side(room, d)
    ensures r.row == room.row && r.col == room.col && r.visited == room.visited && r.next == room.next
  {
    match dir
    case NORTH => room.(upRoom := v)
    case SOUTH => room.(downRoom := v)
    case WEST => room.(leftRoom := v)
    case EAST => room.(rightRoom := v)
  }

  // ---------------------------------------------------------------- the array

  ghost function Snap(maze: array2<Room>): (g: Grid)
    reads maze
    ensures g.Keys == Rooms(maze.Length0, maze.Length1)
  {
    map p | p in Rooms(maze.Length0, maze.Length1) :: maze[p.row, p.col]
  }

  method SetRoom(maze: array2<Room>, p: Pos, room: Room)
    requires IsInRange(p.row, p.col, maze.Length0, maze.Length1)
    modifies maze
    ensures Snap(maze) == old(Snap(maze))[p := room]
  {
    maze[p.row, p.col] := room;
  }

  /** A fresh room: nothing visited, nothing decided. */
  function Blank(p: Pos): Room {
    Room(p.row, p.col, false, -1, -1, -1, -1, None)
  }

  ghost predicate Blanked(maze: array2<Room>, i: int, j: int)
    reads maze
  {
    forall r, c :: 0 <= r < maze.Length0 && 0 <= c < maze.Length1 && (r < i || (r == i && c < j)) ==>
      maze[r, c] == Blank(Pos(r, c))
  }

  method InitializeMaze(maze: array2<Room>)
    modifies maze
    ensures forall p :: p in Snap(maze) ==> Snap(maze)[p] == Blank(p)
  {
    for i := 0 to maze.Length0
      invariant Blanked(maze, i, 0)
    {
      for j := 0 to maze.Length1
        invariant Blanked(maze, i, j)
      {
        maze[i, j] := Room(i, j, false, -1, -1, -1, -1, None);
      }
    }
  }

  // ---------------------------------------------------------------- openings

  /** One can step from `p` to `q`: `p` has an opening on the side of its neighbour `q`. */
  ghost predicate Step(rows: nat, cols: nat, g: Grid, p: Pos, q: Pos) {
    exists d :: p in g && GetNeighbor(rows, cols, p, d) == Some(q) && Side(g[p], d) == 0
  }

  ghost predicate StepAt(rows: nat, cols: nat, g: Grid, s: seq<Pos>, i: int)
    requires 0 < i < |s|
  {
    Step(rows, cols, g, s[i - 1], s[i])
  }

  /** A walk through openings. */
  ghost predicate Walk(rows: nat, cols: nat, g: Grid, s: seq<Pos>) {
    forall i {:trigger StepAt(rows, cols, g, s, i)} :: 0 < i < |s| ==> StepAt(rows, cols, g, s, i)
  }

  ghost predicate WalkFrom(rows: nat, cols: nat, g: Grid, p: Pos, q: Pos, s: seq<Pos>) {
    s != [] && s[0] == p && s[|s| - 1] == q && Walk(rows, cols, g, s)
  }

  ghost predicate Reachable(rows: nat, cols: nat, g: Grid, p: Pos, q: Pos) {
    exists s :: WalkFrom(rows, cols, g, p, q, s)
  }

  // ---------------------------------------------------------------- openings by numbers and coordinates

  /**
    One can go from `p` to `q` by the number of `p`: up if it is even, down if it has no 2 in it, left if it has no 4,
    right if it has no 8.
   */
  predicate OpenTo(encoded: array2<int>, p: Pos, q: Pos)
    reads encoded
  {
    && 0 <= p.row < encoded.Length0 && 0 <= p.col < encoded.Length1
    && 0 <= q.row < encoded.Length0 && 0 <= q.col < encoded.Length1
    && var n := encoded[p.row, p.col];
       || (q.row == p.row - 1 && q.col == p.col && n % 2 == 0)
       || (q.row == p.row + 1 && q.col == p.col && (n / 2) % 2 == 0)
       || (q.row == p.row && q.col == p.col - 1 && (n / 4) % 2 == 0)
       || (q.row == p.row && q.col == p.col + 1 && (n / 8) % 2 == 0)
  }

  ghost predicate OpenAt(encoded: array2<int>, s: seq<Pos>, i: int)
    requires 0 < i < |s|
    reads encoded
  {
    OpenTo(encoded, s[i - 1], s[i])
  }

  ghost predicate OpenWalk(encoded: array2<int>, s: seq<Pos>)
    reads encoded
  {
    forall i {:trigger OpenAt(encoded, s, i)} :: 0 < i < |s| ==> OpenAt(encoded, s, i)
  }

  /** There is a walk by numbers from `p` to `q`. */
  ghost predicate OpenWay(encoded: array2<int>, p: Pos, q: Pos)
    reads encoded
  {
    exists s :: OpenWalk(encoded, s) && s != [] && s[0] == p && s[|s| - 1] == q
  }

  /** If the steps through a grid are those by the numbers, so are the walks. */
  lemma WalkByNumbers(encoded: array2<int>, g: Grid, s: seq<Pos>)
    requires forall p, q :: Step(encoded.Length0, encoded.Length1, g, p, q) <==> OpenTo(encoded, p, q)
    ensures Walk(encoded.Length0, encoded.Length1, g, s) <==> OpenWalk(encoded, s)
  {
    var rows, cols := encoded.Length0, encoded.Length1;
    if Walk(rows, cols, g, s) {
      forall i {:trigger OpenAt(encoded, s, i)} | 0 < i < |s|
        ensures OpenAt(encoded, s, i)
      {
        assert StepAt(rows, cols, g, s, i);
      }
    }
    if OpenWalk(encoded, s) {
      forall i {:trigger StepAt(rows, cols, g, s, i)} | 0 < i < |s|
        ensures StepAt(rows, cols, g, s, i)
      {
        assert OpenAt(encoded, s, i);
      }
    }
  }

  lemma ReachableByNumbers(encoded: array2<int>, g: Grid, p: Pos, q: Pos)
    requires forall a, b :: Step(encoded.Length0, encoded.Length1, g, a, b) <==> OpenTo(encoded, a, b)
    ensures Reachable(encoded.Length0, encoded.Length1, g, p, q) <==> OpenWay(encoded, p, q)
  {
    if s :| WalkFrom(encoded.Length0, encoded.Length1, g, p, q, s) {
      WalkByNumbers(encoded, g, s);
    }
    if s :| OpenWalk(encoded, s) && s != [] && s[0] == p && s[|s| - 1] == q {
      WalkByNumbers(encoded, g, s);
      assert WalkFrom(encoded.Length0, encoded.Length1, g, p, q, s);
    }
  }

  // ---------------------------------------------------------------- walls

  /** The same rooms with the same walls. */
  ghost predicate SameWalls(g: Grid, g': Grid) {
    && g.Keys == g'.Keys
    && forall p, d {:trigger Side(g[p], d)} {:trigger Side(g'[p], d)} :: p in g ==> Side(g'[p], d) == Side(g[p], d)
  }

  lemma StepSame(rows: nat, cols: nat, g: Grid, g': Grid, p: Pos, q: Pos)
    requires SameWalls(g, g')
    ensures Step(rows, cols, g, p, q) <==> Step(rows, cols, g', p, q)
  {
    if Step(rows, cols, g, p, q) {
      var d :| p in g && GetNeighbor(rows, cols, p, d) == Some(q) && Side(g[p], d) == 0;
      assert Side(g'[p], d) == 0;
    }
    if Step(rows, cols, g', p, q) {
      var d :| p in g' && GetNeighbor(rows, cols, p, d) == Some(q) && Side(g'[p], d) == 0;
      assert Side(g[p], d) == 0;
    }
  }

  lemma WalkSame(rows: nat, cols: nat, g: Grid, g': Grid, s: seq<Pos>)
    requires SameWalls(g, g') && Walk(rows, cols, g, s)
    ensures Walk(rows, cols, g', s)
  {
    forall i {:trigger StepAt(rows, cols, g', s, i)} | 0 < i < |s|
      ensures StepAt(rows, cols, g', s, i)
    {
      assert StepAt(rows, cols, g, s, i);
      StepSame(rows, cols, g, g', s[i - 1], s[i]);
    }
  }

  lemma ReachableSame(rows: nat, cols: nat, g: Grid, g': Grid, p: Pos, q: Pos)
    requires SameWalls(g, g')
    ensures Reachable(rows, cols, g, p, q) <==> Reachable(rows, cols, g', p, q)
  {
    if Reachable(rows, cols, g, p, q) {
      var s :| WalkFrom(rows, cols, g, p, q, s);
      WalkSame(rows, cols, g, g', s);
      assert WalkFrom(rows, cols, g', p, q, s);
    }
    if Reachable(rows, cols, g', p, q) {
      var s :| WalkFrom(rows, cols, g', p, q, s);
      WalkSame(rows, cols, g', g, s);
      assert WalkFrom(rows, cols, g, p, q, s);
    }
  }

  lemma WalkJoin(rows: nat, cols: nat, g: Grid, p: Pos, q: Pos, r: Pos, s: seq<Pos>, u: seq<Pos>)
    requires WalkFrom(rows, cols, g, p, q, s) && WalkFrom(rows, cols, g, q, r, u)
    ensures WalkFrom(rows, cols, g, p, r, s + u[1..])
  {
    var w := s + u[1..];
    forall i {:trigger StepAt(rows, cols, g, w, i)} | 0 < i < |w|
      ensures StepAt(rows, cols, g, w, i)
    {
      if i < |s| {
        assert StepAt(rows, cols, g, s, i) && w[i] == s[i] && w[i - 1] == s[i - 1];
      } else {
        assert StepAt(rows, cols, g, u, i - |s| + 1) && w[i] == u[i - |s| + 1] && w[i - 1] == u[i - |s|];
      }
    }
  }

  lemma WalkPrepend(rows: nat, cols: nat, g: Grid, p: Pos, q: Pos, r: Pos, u: seq<Pos>)
    requires Step(rows, cols, g, p, q) && WalkFrom(rows, cols, g, q, r, u)
    ensures WalkFrom(rows, cols, g, p, r, [p] + u)
  {
    var s := [p, q];
    assert s[1 - 1] == p && s[1] == q;
    WalkJoin(rows, cols, g, p, q, r, s, u);
    assert s + u[1..] == [p] + u;
  }

  lemma ReachableTrans(rows: nat, cols: nat, g: Grid, p: Pos, q: Pos, r: Pos)
    requires Reachable(rows, cols, g, p, q) && Reachable(rows, cols, g, q, r)
    ensures Reachable(rows, cols, g, p, r)
  {
    var s :| WalkFrom(rows, cols, g, p, q, s);
    var u :| WalkFrom(rows, cols, g, q, r, u);
    WalkJoin(rows, cols, g, p, q, r, s, u);
  }

  lemma ReachableHere(rows: nat, cols: nat, g: Grid, p: Pos)
    ensures Reachable(rows, cols, g, p, p)
  {
    assert WalkFrom(rows, cols, g, p, p, [p]);
  }

  lemma ReachableStep(rows: nat, cols: nat, g: Grid, p: Pos, q: Pos)
    requires Step(rows, cols, g, p, q)
    ensures Reachable(rows, cols, g, p, q)
  {
    var s := [p, q];
    assert s[1 - 1] == p && s[1] == q;
    assert WalkFrom(rows, cols, g, p, q, s);
  }

  /** A set of rooms that no step leaves holds everything reachable from it. */
  lemma ClosedHolds(rows: nat, cols: nat, g: Grid, closed: set<Pos>, p: Pos, q: Pos)
    requires p in closed && Reachable(rows, cols, g, p, q)
    requires forall a, b :: a in closed && Step(rows, cols, g, a, b) ==> b in closed
    ensures q in closed
  {
    var s :| WalkFrom(rows, cols, g, p, q, s);
    for i := 1 to |s|
      invariant s[i - 1] in closed
    {
      assert StepAt(rows, cols, g, s, i);
    }
  }

  // ---------------------------------------------------------------- spanning trees

  /** An edge of the grid, named by its northern or western room. */
  datatype Edge = Edge(p: Pos, d: Direction)

  function EdgeOf(rows: nat, cols: nat, p: Pos, d: Direction): Edge {
    var q := GetNeighbor(rows, cols, p, d);
    if q.None? || d == SOUTH || d == EAST then Edge(p, d) else Edge(q.value, Opposite(d))
  }

  /** The grid edges with an opening, seen from either room. */
  ghost function OpenEdges(rows: nat, cols: nat, g: Grid): set<Edge> {
    set p, d | p in g && d in {NORTH, SOUTH, WEST, EAST} && Side(g[p], d) == 0 :: EdgeOf(rows, cols, p, d)
  }

  /** A side is decided, a wall at the border, and the same from the room beyond. */
  ghost predicate SideMatches(rows: nat, cols: nat, g: Grid, p: Pos, d: Direction)
    requires p in g
  {
    var v, q := Side(g[p], d), GetNeighbor(rows, cols, p, d);
    && v in {0, 1}
    && (q.None? ==> v == 1)
    && (q.Some? ==> q.value in g && Side(g[q.value], Opposite(d)) == v)
  }

  ghost predicate WallsMatch(rows: nat, cols: nat, g: Grid) {
    && g.Keys == Rooms(rows, cols)
    && forall p, d {:trigger SideMatches(rows, cols, g, p, d)} :: p in g ==> SideMatches(rows, cols, g, p, d)
  }

  /** A walk from `p` to `q` that enters no room twice. */
  ghost predicate SimpleWalk(rows: nat, cols: nat, g: Grid, p: Pos, q: Pos, s: seq<Pos>) {
    WalkFrom(rows, cols, g, p, q, s) && Distinct(s)
  }

  ghost predicate OneWay(rows: nat, cols: nat, g: Grid, p: Pos, q: Pos) {
    && (exists s :: SimpleWalk(rows, cols, g, p, q, s))
    && (forall s, u :: SimpleWalk(rows, cols, g, p, q, s) && SimpleWalk(rows, cols, g, p, q, u) ==> s == u)
  }

  /**
    Walls agree, between any two rooms there is exactly one walk without repeats, and there is one edge less than
    there are rooms.
   */
  ghost predicate SpanningTree(rows: nat, cols: nat, g: Grid) {
    && WallsMatch(rows, cols, g)
    && (forall p, q :: p in g && q in g ==> OneWay(rows, cols, g, p, q))
    && |OpenEdges(rows, cols, g)| + 1 == rows * cols
  }

  lemma OneWayReaches(rows: nat, cols: nat, g: Grid, p: Pos, q: Pos)
    requires OneWay(rows, cols, g, p, q)
    ensures Reachable(rows, cols, g, p, q)
  {
    var s :| SimpleWalk(rows, cols, g, p, q, s);
  }

  /** Whatever can be reached can be reached without repeats. */
  lemma {:induction false} ShortWalk(rows: nat, cols: nat, g: Grid, p: Pos, q: Pos, s: seq<Pos>) returns (u: seq<Pos>)
    requires WalkFrom(rows, cols, g, p, q, s)
    ensures SimpleWalk(rows, cols, g, p, q, u)
    decreases |s|
  {
    if Distinct(s) {
      u := s;
    } else {
      var i, j :| 0 <= i < j < |s| && s[i] == s[j];
      var cut := Shortcut(rows, cols, g, p, q, s, i, j);
      u := ShortWalk(rows, cols, g, p, q, cut);
    }
  }

  lemma Shortcut(rows: nat, cols: nat, g: Grid, p: Pos, q: Pos, s: seq<Pos>, i: nat, j: nat) returns (cut: seq<Pos>)
    requires WalkFrom(rows, cols, g, p, q, s) && i < j < |s| && s[i] == s[j]
    ensures WalkFrom(rows, cols, g, p, q, cut) && |cut| < |s|
  {
    var head := WalkPart(rows, cols, g, s, 0, i + 1);
    var tail := WalkPart(rows, cols, g, s, j, |s|);
    cut := head + tail[1..];
    JoinParts(rows, cols, g, p, s[i], q, head, tail);
  }

  lemma JoinParts(rows: nat, cols: nat, g: Grid, p: Pos, r: Pos, q: Pos, head: seq<Pos>, tail: seq<Pos>)
    requires WalkFrom(rows, cols, g, p, r, head) && WalkFrom(rows, cols, g, r, q, tail)
    ensures WalkFrom(rows, cols, g, p, q, head + tail[1..]) && |head + tail[1..]| == |head| + |tail| - 1
  {
    WalkJoin(rows, cols, g, p, r, q, head, tail);
  }

  lemma WalkPart(rows: nat, cols: nat, g: Grid, s: seq<Pos>, a: nat, b: nat) returns (u: seq<Pos>)
    requires Walk(rows, cols, g, s) && a < b <= |s|
    ensures WalkFrom(rows, cols, g, s[a], s[b - 1], u) && |u| == b - a
  {
    u := s[a..b];
    forall k {:trigger StepAt(rows, cols, g, u, k)} | 0 < k < |u|
      ensures StepAt(rows, cols, g, u, k)
    {
      assert StepAt(rows, cols, g, s, a + k) && u[k] == s[a + k] && u[k - 1] == s[a + k - 1];
    }
  }

  // ---------------------------------------------------------------- rooms in the order of a walk

  /** From which room each room was first entered, and when. */
  datatype Order = Order(up: map<Pos, Pos>, stamp: map<Pos, nat>, clock: nat)

  /** One of the two rooms was entered from the other. */
  ghost predicate Related(o: Order, p: Pos, q: Pos) {
    && p in o.stamp && q in o.stamp
    && (|| (p in o.up && o.up[p] == q && o.stamp[q] < o.stamp[p])
        || (q in o.up && o.up[q] == p && o.stamp[p] < o.stamp[q]))
  }

  /** Openings join rooms only to the room they were entered from. */
  ghost predicate Rooted(rows: nat, cols: nat, g: Grid, o: Order) {
    forall p, q :: Step(rows, cols, g, p, q) ==> Related(o, p, q)
  }

  lemma {:induction false} LatestOf(o: Order, s: seq<Pos>) returns (i: nat)
    requires s != [] && forall k :: 0 <= k < |s| ==> s[k] in o.stamp
    ensures i < |s| && forall k :: 0 <= k < |s| ==> o.stamp[s[k]] <= o.stamp[s[i]]
  {
    if |s| == 1 {
      i := 0;
    } else {
      var j := LatestOf(o, s[1..]);
      i := if o.stamp[s[0]] > o.stamp[s[1..][j]] then 0 else j + 1;
      forall k | 0 <= k < |s| ensures o.stamp[s[k]] <= o.stamp[s[i]] { if k > 0 { assert s[k] == s[1..][k - 1]; } }
    }
  }

  lemma WalkStamped(rows: nat, cols: nat, g: Grid, o: Order, s: seq<Pos>)
    requires Rooted(rows, cols, g, o) && Walk(rows, cols, g, s) && |s| > 1
    ensures forall k :: 0 <= k < |s| ==> s[k] in o.stamp
  {
    forall k | 0 <= k < |s|
      ensures s[k] in o.stamp
    {
      var j := if k == 0 then 1 else k;
      assert StepAt(rows, cols, g, s, j);
    }
  }

  /**
    The room of a repeat-free walk that was entered last is one of its ends, and its neighbour is where it was entered
    from.
   */
  lemma LatestIsEnd(rows: nat, cols: nat, g: Grid, o: Order, s: seq<Pos>, i: nat)
    requires Rooted(rows, cols, g, o) && Walk(rows, cols, g, s) && Distinct(s) && |s| > 1 && i < |s|
    requires forall k :: 0 <= k < |s| ==> s[k] in o.stamp && s[i] in o.stamp && o.stamp[s[k]] <= o.stamp[s[i]]
    ensures i == 0 || i == |s| - 1
    ensures s[i] in o.up && o.up[s[i]] == if i == 0 then s[1] else s[|s| - 2]
  {
    if i > 0 {
      assert StepAt(rows, cols, g, s, i);
    }
    if i + 1 < |s| {
      assert StepAt(rows, cols, g, s, i + 1);
    }
  }

  /** In such a maze two repeat-free walks with the same ends are the same. */
  lemma {:induction false} OneWalk(rows: nat, cols: nat, g: Grid, o: Order, p: Pos, q: Pos, s: seq<Pos>, u: seq<Pos>)
    requires Rooted(rows, cols, g, o) && SimpleWalk(rows, cols, g, p, q, s) && SimpleWalk(rows, cols, g, p, q, u)
    ensures s == u
    decreases |s| + |u|
  {
    if |s| == 1 || |u| == 1 {
      OneRoom(s, u);
    } else {
      var front := EndsAgree(rows, cols, g, o, p, q, s, u);
      if front {
        TailWalk(rows, cols, g, p, q, s);
        TailWalk(rows, cols, g, p, q, u);
        OneWalk(rows, cols, g, o, s[1], q, s[1..], u[1..]);
        SameTails(s, u);
      } else {
        InitWalk(rows, cols, g, p, q, s);
        InitWalk(rows, cols, g, p, q, u);
        OneWalk(rows, cols, g, o, p, s[|s| - 2], s[..|s| - 1], u[..|u| - 1]);
        SameInits(s, u);
      }
    }
  }

  lemma SameTails(s: seq<Pos>, u: seq<Pos>)
    requires s != [] && u != [] && s[0] == u[0] && s[1..] == u[1..]
    ensures s == u
  {
    assert s == [s[0]] + s[1..] && u == [u[0]] + u[1..];
  }

  lemma SameInits(s: seq<Pos>, u: seq<Pos>)
    requires s != [] && u != [] && s[|s| - 1] == u[|u| - 1] && s[..|s| - 1] == u[..|u| - 1]
    ensures s == u
  {
    assert s == s[..|s| - 1] + [s[|s| - 1]] && u == u[..|u| - 1] + [u[|u| - 1]];
  }

  lemma OneRoom(s: seq<Pos>, u: seq<Pos>)
    requires s != [] && u != [] && s[0] == u[0] && s[|s| - 1] == u[|u| - 1] && Distinct(s) && Distinct(u)
    requires |s| == 1 || |u| == 1
    ensures s == u
  {
    assert |s| == 1 && |u| == 1;
  }

  /** The walks agree next to the end that was entered last. */
  lemma EndsAgree(rows: nat, cols: nat, g: Grid, o: Order, p: Pos, q: Pos, s: seq<Pos>, u: seq<Pos>)
    returns (front: bool)
    requires Rooted(rows, cols, g, o) && SimpleWalk(rows, cols, g, p, q, s) && SimpleWalk(rows, cols, g, p, q, u)
    requires |s| > 1 && |u| > 1
    ensures if front then s[1] == u[1] else s[|s| - 2] == u[|u| - 2]
  {
    WalkStamped(rows, cols, g, o, s);
    WalkStamped(rows, cols, g, o, u);
    var i := LatestOf(o, s);
    var j := LatestOf(o, u);
    LatestIsEnd(rows, cols, g, o, s, i);
    LatestIsEnd(rows, cols, g, o, u, j);
    if o.stamp[s[i]] >= o.stamp[u[j]] {
      SameEnd(rows, cols, g, o, p, q, s, i, u);
      front := i == 0;
    } else {
      SameEnd(rows, cols, g, o, p, q, u, j, s);
      front := j == 0;
    }
  }

  lemma SameEnd(rows: nat, cols: nat, g: Grid, o: Order, p: Pos, q: Pos, s: seq<Pos>, i: nat, u: seq<Pos>)
    requires Rooted(rows, cols, g, o) && SimpleWalk(rows, cols, g, p, q, s) && SimpleWalk(rows, cols, g, p, q, u)
    requires |s| > 1 && |u| > 1
    requires (i == 0 || i == |s| - 1) && s[i] in o.stamp && s[i] in o.up
    requires o.up[s[i]] == if i == 0 then s[1] else s[|s| - 2]
    requires forall k :: 0 <= k < |u| ==> u[k] in o.stamp && o.stamp[u[k]] <= o.stamp[s[i]]
    ensures if i == 0 then s[1] == u[1] else s[|s| - 2] == u[|u| - 2]
  {
    assert StepAt(rows, cols, g, u, 1) && StepAt(rows, cols, g, u, |u| - 1);
  }

  lemma TailWalk(rows: nat, cols: nat, g: Grid, p: Pos, q: Pos, s: seq<Pos>)
    requires SimpleWalk(rows, cols, g, p, q, s) && |s| > 1
    ensures SimpleWalk(rows, cols, g, s[1], q, s[1..])
  {
    var u := s[1..];
    forall i {:trigger StepAt(rows, cols, g, u, i)} | 0 < i < |u|
      ensures StepAt(rows, cols, g, u, i)
    {
      assert StepAt(rows, cols, g, s, i + 1) && u[i] == s[i + 1] && u[i - 1] == s[i];
    }
  }

  lemma InitWalk(rows: nat, cols: nat, g: Grid, p: Pos, q: Pos, s: seq<Pos>)
    requires SimpleWalk(rows, cols, g, p, q, s) && |s| > 1
    ensures SimpleWalk(rows, cols, g, p, s[|s| - 2], s[..|s| - 1])
  {
    var u := s[..|s| - 1];
    forall i {:trigger StepAt(rows, cols, g, u, i)} | 0 < i < |u|
      ensures StepAt(rows, cols, g, u, i)
    {
      assert StepAt(rows, cols, g, s, i) && u[i] == s[i] && u[i - 1] == s[i - 1];
    }
  }

  lemma StepBack(rows: nat, cols: nat, g: Grid, p: Pos, q: Pos)
    requires WallsMatch(rows, cols, g) && Step(rows, cols, g, p, q)
    ensures Step(rows, cols, g, q, p)
  {
    var d :| p in g && GetNeighbor(rows, cols, p, d) == Some(q) && Side(g[p], d) == 0;
    NeighborBack(rows, cols, p, d);
    assert SideMatches(rows, cols, g, p, d);
  }

  /** Where walls agree, every walk can be walked back. */
  lemma ReachableBack(rows: nat, cols: nat, g: Grid, p: Pos, q: Pos)
    requires WallsMatch(rows, cols, g) && Reachable(rows, cols, g, p, q)
    ensures Reachable(rows, cols, g, q, p)
  {
    var s :| WalkFrom(rows, cols, g, p, q, s);
    ReachableHere(rows, cols, g, p);
    for i := 1 to |s|
      invariant Reachable(rows, cols, g, s[i - 1], p)
    {
      assert StepAt(rows, cols, g, s, i);
      StepBack(rows, cols, g, s[i - 1], s[i]);
      ReachableStep(rows, cols, g, s[i], s[i - 1]);
      ReachableTrans(rows, cols, g, s[i], s[i - 1], p);
    }
  }

  ghost function Row(r: int, cols: nat): set<Pos> {
    set c | 0 <= c < cols :: Pos(r, c)
  }

  lemma {:induction false} RowCount(r: int, cols: nat)
    ensures |Row(r, cols)| == cols
  {
    if cols > 0 {
      RowCount(r, cols - 1);
      assert Row(r, cols) == Row(r, cols - 1) + {Pos(r, cols - 1)};
    } else {
      assert Row(r, cols) == {};
    }
  }

  lemma RoomsSplit(rows: nat, cols: nat)
    requires rows > 0
    ensures Rooms(rows, cols) == Rooms(rows - 1, cols) + Row(rows - 1, cols)
    ensures Rooms(rows - 1, cols) !! Row(rows - 1, cols)
  {
    forall p ensures p in Rooms(rows, cols) <==> p in Rooms(rows - 1, cols) || p in Row(rows - 1, cols) {
      assert p == Pos(p.row, p.col);
    }
  }

  lemma OneMoreRow(rows: int, cols: int)
    ensures (rows - 1) * cols + cols == rows * cols
  {
  }

  lemma {:induction false} RoomCount(rows: nat, cols: nat)
    ensures |Rooms(rows, cols)| == rows * cols
  {
    if rows > 0 {
      RoomCount(rows - 1, cols);
      RowCount(rows - 1, cols);
      RoomsSplit(rows, cols);
      OneMoreRow(rows, cols);
    } else {
      assert Rooms(rows, cols) == {};
    }
  }
}
