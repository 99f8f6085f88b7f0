/**
  The server's registry of client threads: a doubly linked list under one mutex, a
  count of threads under another, the sweeps that cancel every listed client, and
  the main thread's wait for the count to reach zero.  Each write of a critical
  section is a step of its own.
 */
module ServerRegistry {
  import opened Options
  import opened Sequences

  // ---------------------------------------------------------------- the list

  datatype Link = Link(prev: Option<nat>, next: Option<nat>)

  /** The clients' links, the list head, and the clients the list stands for. */
  datatype Registry = Registry(links: map<nat, Link>, head: Option<nat>, list: seq<nat>)

  function LinkOf(r: Registry, c: nat): Link {
    if c in r.links then r.links[c] else Link(None, None)
  }

  function PrevOf(list: seq<nat>, i: nat): Option<nat>
    requires i < |list|
  {
    if i == 0 then None else Some(list[i - 1])
  }

  function NextOf(list: seq<nat>, i: nat): Option<nat>
    requires i < |list|
  {
    if i + 1 < |list| then Some(list[i + 1]) else None
  }

  ghost predicate LinkedAt(r: Registry, i: nat)
    requires i < |r.list|
  {
    r.list[i] in r.links && r.links[r.list[i]] == Link(PrevOf(r.list, i), NextOf(r.list, i))
  }

  /** The links are those of a doubly linked list of distinct clients. */
  ghost predicate Linked(r: Registry) {
    && Distinct(r.list)
    && r.head == (if r.list == [] then None else Some(r.list[0]))
    && (forall i {:trigger LinkedAt(r, i)} :: 0 <= i < |r.list| ==> LinkedAt(r, i))
  }

  /** The list once `c` is out of it. */
  function Remaining(list: seq<nat>, c: nat): seq<nat> {
    if c in list then Without(list, c) else list
  }

  // The writes of an insertion at the head, in order

  function WriteNext(r: Registry, c: nat): Registry {
    r.(links := r.links[c := LinkOf(r, c).(next := r.head)])
  }

  function WriteHeadPrev(r: Registry, c: nat): Registry {
    if r.head.None? then r else r.(links := r.links[r.head.value := LinkOf(r, r.head.value).(prev := Some(c))])
  }

  function WriteHead(r: Registry, c: nat): Registry {
    r.(head := Some(c), list := [c] + r.list)
  }

  // The writes of a removal, in order

  function WriteNextPrev(r: Registry, c: nat): Registry {
    var l := LinkOf(r, c);
    if l.next.None? then r else r.(links := r.links[l.next.value := LinkOf(r, l.next.value).(prev := l.prev)])
  }

  function WritePrevNext(r: Registry, c: nat): Registry {
    var l := LinkOf(r, c);
    if l.prev.None? then r.(head := l.next, list := Remaining(r.list, c))
    else r.(links := r.links[l.prev.value := LinkOf(r, l.prev.value).(next := l.next)], list := Remaining(r.list, c))
  }

  /** The three writes put a client that is not listed in front. */
  lemma InsertLinked(r: Registry, c: nat)
    requires Linked(r) && c !in r.list && LinkOf(r, c).prev == None
    ensures Linked(WriteHead(WriteHeadPrev(WriteNext(r, c), c), c))
  {
    var r' := WriteHead(WriteHeadPrev(WriteNext(r, c), c), c);
    forall i {:trigger LinkedAt(r', i)} | 0 <= i < |r'.list|
      ensures LinkedAt(r', i)
    {
      if i > 0 {
        assert LinkedAt(r, i - 1);
        assert i > 1 ==> r.list[0] != r.list[i - 1];
      } else if r.list != [] {
        assert LinkedAt(r, 0);
      }
    }
  }

  lemma WithoutAt(list: seq<nat>, c: nat, j: nat)
    requires c in list && Distinct(list) && j < |Without(list, c)|
    ensures |Without(list, c)| == |list| - 1
    ensures var i := IndexOf(list, c); Without(list, c)[j] == list[if j < i then j else j + 1] != c
  {
  }

  /** The two writes take a listed client out and link its neighbours. */
  lemma RemoveLinked(r: Registry, c: nat)
    requires Linked(r) && c in r.list
    ensures Linked(WritePrevNext(WriteNextPrev(r, c), c))
  {
    var i := IndexOf(r.list, c);
    assert LinkedAt(r, i);
    WithoutDistinct(r.list, c);
    var r' := WritePrevNext(WriteNextPrev(r, c), c);
    forall j {:trigger LinkedAt(r', j)} | 0 <= j < |r'.list|
      ensures LinkedAt(r', j)
    {
      RemovedAt(r, c, j);
    }
  }

  /** Neighbours in the list without `c`: those of `c` meet, all others stay. */
  lemma WithoutNeighbors(list: seq<nat>, c: nat, j: nat)
    requires c in list && Distinct(list) && j < |Without(list, c)|
    ensures |Without(list, c)| == |list| - 1
    ensures var i, w := IndexOf(list, c), Without(list, c);
      && PrevOf(w, j) == (if j == i then PrevOf(list, i) else PrevOf(list, if j < i then j else j + 1))
      && NextOf(w, j) == (if j + 1 == i then NextOf(list, i) else NextOf(list, if j < i then j else j + 1))
  {
    WithoutAt(list, c, j);
    if j > 0 { WithoutAt(list, c, j - 1); }
    if j + 1 < |Without(list, c)| { WithoutAt(list, c, j + 1); }
  }

  lemma RemovedAt(r: Registry, c: nat, j: nat)
    requires Linked(r) && c in r.list && j < |Without(r.list, c)|
    ensures LinkedAt(WritePrevNext(WriteNextPrev(r, c), c), j)
  {
    var i := IndexOf(r.list, c);
    var k := if j < i then j else j + 1;
    WithoutAt(r.list, c, j);
    WithoutNeighbors(r.list, c, j);
    assert LinkedAt(r, i) && LinkedAt(r, k);
    var l := r.links[c];
    assert l == Link(PrevOf(r.list, i), NextOf(r.list, i));
    assert l.prev == Some(r.list[k]) <==> j + 1 == i;
    assert l.next == Some(r.list[k]) <==> j == i;
  }

  // ---------------------------------------------------------------- threads

  /** Where a client thread is. */
  datatype At =
    | Born                                   // about to test accepting_clients
    | Refused
    | CountWait | CountIn | CountOut         // the increment, under the server mutex
    | ListWait | Ins1 | Ins2 | Ins3 | InsOut // the insertion, under the list mutex
    | Serving
    | RemWait | Rem1 | Rem2 | RemOut         // thread_cleanup: the removal
    | UncWait | Unc1 | Unc2 | Unc3           // thread_cleanup: the decrement and the destruction
    | Gone

  /** Where a delete_all is. */
  datatype Sweep = Idle | Waiting | On(cur: Option<nat>) | Swept

  /** Where the main thread is; asleep on the condition variable, signalled or not. */
  datatype Main = Commands | Sweeping | WaitLock | Test | Asleep(signalled: bool) | Leaving | Exited

  datatype Holder = Free | ByClient(t: nat) | BySweep(k: nat) | ByMain

  datatype State = State(
    clients: map<nat, At>, reg: Registry, freed: set<nat>, count: int, accepting: bool,
    listMutex: Holder, serverMutex: Holder, sweeps: map<nat, Sweep>, cancelled: set<nat>, main: Main)

  /** The main thread's own delete_all; the others are those of the signal thread. */
  const MAIN: nat := 0

  predicate InList(at: At) {
    at.Ins1? || at.Ins2? || at.Ins3? || at.InsOut? || at.Rem1? || at.Rem2? || at.RemOut?
  }

  predicate InServer(at: At) {
    at.CountIn? || at.CountOut? || at.Unc1? || at.Unc2? || at.Unc3?
  }

  /** The thread has incremented the count and not yet decremented it. */
  predicate Counted(at: At) {
    !(at.Born? || at.Refused? || at.CountWait? || at.CountIn? || at.Unc2? || at.Unc3? || at.Gone?)
  }

  predicate Listed(at: At) {
    at.InsOut? || at.Serving? || at.RemWait? || at.Rem1? || at.Rem2?
  }

  /** Its links have not been written yet. */
  predicate Unlinked(at: At) {
    at.Born? || at.Refused? || at.CountWait? || at.CountIn? || at.CountOut? || at.ListWait? || at.Ins1?
  }

  function CountedSet(clients: map<nat, At>): set<nat> {
    set t | t in clients && Counted(clients[t])
  }

  datatype Action = Client(t: nat) | StartSweep(k: nat) | SweepOn(k: nat) | Eof | MainOn

  predicate Enabled(s: State, a: Action) {
    match a
    case Client(t) =>
      && t in s.clients
      && (match s.clients[t]
          case Refused => false
          case Gone => false
          case CountWait => s.serverMutex.Free?
          case UncWait => s.serverMutex.Free?
          case ListWait => s.listMutex.Free?
          case RemWait => s.listMutex.Free?
          case _ => true)
    case StartSweep(k) => k in s.sweeps && k != MAIN && (s.sweeps[k].Idle? || s.sweeps[k].Swept?)
    case SweepOn(k) => k in s.sweeps && (s.sweeps[k].On? || (s.sweeps[k].Waiting? && s.listMutex.Free?))
    case Eof => s.main.Commands? && MAIN in s.sweeps && s.sweeps[MAIN].Idle?
    case MainOn =>
      match s.main
      case Sweeping => MAIN in s.sweeps && s.sweeps[MAIN].Swept?
      case WaitLock => s.serverMutex.Free?
      case Asleep(_) => s.serverMutex.Free?    // signalled or spurious: it wakes up holding the mutex
      case Test => true
      case Leaving => true
      case _ => false
  }

  function Move(s: State, t: nat, at: At): State {
    s.(clients := s.clients[t := at])
  }

  /** pthread_cond_signal, to a main thread that may be asleep. */
  function Signal(main: Main): Main {
    if main.Asleep? then Asleep(true) else main
  }

  function ActClient(s: State, t: nat): State
    requires t in s.clients
  {
    match s.clients[t]
    case Born => Move(s, t, if s.accepting then CountWait else Refused)
    case CountWait => Move(s, t, CountIn).(serverMutex := ByClient(t))
    case CountIn => Move(s, t, CountOut).(count := s.count + 1)
    case CountOut => Move(s, t, ListWait).(serverMutex := Free)
    case ListWait => Move(s, t, Ins1).(listMutex := ByClient(t))
    case Ins1 => Move(s, t, Ins2).(reg := WriteNext(s.reg, t))
    case Ins2 => Move(s, t, Ins3).(reg := WriteHeadPrev(s.reg, t))
    case Ins3 => Move(s, t, InsOut).(reg := WriteHead(s.reg, t))
    case InsOut => Move(s, t, Serving).(listMutex := Free)
    case Serving => Move(s, t, RemWait)
    case RemWait => Move(s, t, Rem1).(listMutex := ByClient(t))
    case Rem1 => Move(s, t, Rem2).(reg := WriteNextPrev(s.reg, t))
    case Rem2 => Move(s, t, RemOut).(reg := WritePrevNext(s.reg, t))
    case RemOut => Move(s, t, UncWait).(listMutex := Free)
    case UncWait => Move(s, t, Unc1).(serverMutex := ByClient(t))
    case Unc1 => Move(s, t, Unc2).(count := s.count - 1)
    case Unc2 => Move(s, t, Unc3).(freed := s.freed + {t})
    case Unc3 => Move(s, t, Gone).(serverMutex := Free, main := Signal(s.main))
    case Refused => s
    case Gone => s
  }

  function ActSweep(s: State, k: nat): State
    requires k in s.sweeps
  {
    match s.sweeps[k]
    case Waiting => s.(sweeps := s.sweeps[k := On(s.reg.head)], listMutex := BySweep(k))
    case On(cur) =>
      if cur.None? then s.(sweeps := s.sweeps[k := Swept], listMutex := Free)
      else s.(sweeps := s.sweeps[k := On(LinkOf(s.reg, cur.value).next)], cancelled := s.cancelled + {cur.value})
    case _ => s
  }

  function ActMain(s: State): State {
    match s.main
    case Sweeping => s.(main := WaitLock)
    case WaitLock => s.(main := Test, serverMutex := ByMain)
    case Test => if s.count > 0 then s.(main := Asleep(false), serverMutex := Free) else s.(main := Leaving)
    case Asleep(_) => s.(main := Test, serverMutex := ByMain)
    case Leaving => s.(main := Exited, serverMutex := Free)
    case _ => s
  }

  function Act(s: State, a: Action): State
    requires Enabled(s, a)
  {
    match a
    case Client(t) => ActClient(s, t)
    case StartSweep(k) => s.(sweeps := s.sweeps[k := Waiting])
    case SweepOn(k) => ActSweep(s, k)
    case Eof => s.(main := Sweeping, accepting := false, sweeps := s.sweeps[MAIN := Waiting])
    case MainOn => ActMain(s)
  }

  // ---------------------------------------------------------------- what every step keeps

  /** What is left of the list section's writes for a thread at this place. */
  function Settle(r: Registry, t: nat, at: At): Registry {
    match at
    case Ins1 => WriteHead(WriteHeadPrev(WriteNext(r, t), t), t)
    case Ins2 => WriteHead(WriteHeadPrev(r, t), t)
    case Ins3 => WriteHead(r, t)
    case Rem1 => WritePrevNext(WriteNextPrev(r, t), t)
    case Rem2 => WritePrevNext(r, t)
    case _ => r
  }

  /** The list is linked, but for the writes the holder of its mutex still has to make. */
  ghost predicate ShapeOk(r: Registry, clients: map<nat, At>, listMutex: Holder) {
    && Distinct(r.list) && r.head == (if r.list == [] then None else Some(r.list[0]))
    && (if listMutex.ByClient? && listMutex.t in clients then
          var at := clients[listMutex.t];
          Linked(Settle(r, listMutex.t, at)) && (at.Ins3? || at.Rem2? || Linked(r))
        else Linked(r))
  }

  /** The list mutex is held exactly by the thread inside the section it protects. */
  ghost predicate ListMutexOk(clients: map<nat, At>, sweeps: map<nat, Sweep>, m: Holder) {
    && (forall t :: t in clients && InList(clients[t]) ==> m == ByClient(t))
    && (m.ByClient? ==> m.t in clients && InList(clients[m.t]))
    && (forall k :: k in sweeps && sweeps[k].On? ==> m == BySweep(k))
    && (m.BySweep? ==> m.k in sweeps && sweeps[m.k].On?)
    && !m.ByMain?
  }

  ghost predicate ServerMutexOk(clients: map<nat, At>, main: Main, m: Holder) {
    && (forall t :: t in clients && InServer(clients[t]) ==> m == ByClient(t))
    && (m.ByClient? ==> m.t in clients && InServer(clients[m.t]))
    && (main.Test? || main.Leaving? <==> m.ByMain?)
    && !m.BySweep?
  }

  /** The listed clients are exactly the threads between insertion and removal. */
  ghost predicate ListOk(clients: map<nat, At>, r: Registry) {
    && (forall t :: t in r.list <==> t in clients && Listed(clients[t]))
    && (forall t :: t in clients && Unlinked(clients[t]) ==> LinkOf(r, t).prev == None)
  }

  /** A client is freed from its destruction on. */
  ghost predicate FreedOk(clients: map<nat, At>, freed: set<nat>) {
    forall t :: t in freed <==> t in clients && (clients[t].Unc3? || clients[t].Gone?)
  }

  /** A sweep stands on a listed client, or past the last; those before it are cancelled. */
  ghost predicate SweptTo(list: seq<nat>, cancelled: set<nat>, cur: Option<nat>, i: nat) {
    && i <= |list| && cur == (if i < |list| then Some(list[i]) else None)
    && forall j :: 0 <= j < i ==> list[j] in cancelled
  }

  ghost predicate SweepOk(list: seq<nat>, cancelled: set<nat>, sweep: Sweep) {
    sweep.On? ==> exists i: nat :: SweptTo(list, cancelled, sweep.cur, i)
  }

  ghost predicate SweepsOk(list: seq<nat>, cancelled: set<nat>, sweeps: map<nat, Sweep>) {
    forall k :: k in sweeps ==> SweepOk(list, cancelled, sweeps[k])
  }

  ghost predicate MainOk(accepting: bool, main: Main, count: int) {
    (accepting <==> main.Commands?) && (main.Leaving? ==> count <= 0)
  }

  /** The client has decremented the count and not yet signalled the main thread. */
  predicate Signals(at: At) {
    at.Unc2? || at.Unc3?
  }

  /** If the main thread sleeps without a signal, there is a client left to send it one. */
  ghost predicate WakeOk(clients: map<nat, At>, main: Main, count: int) {
    main == Asleep(false) ==> count > 0 || exists t :: t in clients && Signals(clients[t])
  }

  ghost predicate Good(s: State) {
    && WakeOk(s.clients, s.main, s.count)
    && ShapeOk(s.reg, s.clients, s.listMutex)
    && ListMutexOk(s.clients, s.sweeps, s.listMutex) && ServerMutexOk(s.clients, s.main, s.serverMutex)
    && ListOk(s.clients, s.reg) && FreedOk(s.clients, s.freed)
    && s.count == |CountedSet(s.clients)|
    && SweepsOk(s.reg.list, s.cancelled, s.sweeps)
    && MainOk(s.accepting, s.main, s.count)
  }

  // ---------------------------------------------------------------- the count

  lemma CountKept(clients: map<nat, At>, t: nat, at: At)
    requires t in clients ==> Counted(clients[t]) == Counted(at)
    requires t !in clients ==> !Counted(at)
    ensures |CountedSet(clients[t := at])| == |CountedSet(clients)|
  {
    assert CountedSet(clients[t := at]) == CountedSet(clients);
  }

  lemma CountMoved(clients: map<nat, At>, t: nat, at: At)
    requires t in clients && Counted(clients[t]) != Counted(at)
    ensures |CountedSet(clients[t := at])| == |CountedSet(clients)| + if Counted(at) then 1 else -1
  {
    if Counted(at) {
      assert CountedSet(clients[t := at]) == CountedSet(clients) + {t};
    } else {
      assert CountedSet(clients) == CountedSet(clients[t := at]) + {t};
    }
  }

  // ---------------------------------------------------------------- the mutexes

  lemma ListMutexKept(clients: map<nat, At>, sweeps: map<nat, Sweep>, m: Holder, t: nat, at: At)
    requires ListMutexOk(clients, sweeps, m) && InList(at) == (t in clients && InList(clients[t]))
    ensures ListMutexOk(clients[t := at], sweeps, m)
  {
  }

  lemma ListMutexTaken(clients: map<nat, At>, sweeps: map<nat, Sweep>, t: nat, at: At)
    requires ListMutexOk(clients, sweeps, Free) && InList(at)
    ensures ListMutexOk(clients[t := at], sweeps, ByClient(t))
  {
  }

  lemma ListMutexGiven(clients: map<nat, At>, sweeps: map<nat, Sweep>, m: Holder, t: nat, at: At)
    requires ListMutexOk(clients, sweeps, m) && t in clients && InList(clients[t]) && !InList(at)
    ensures ListMutexOk(clients[t := at], sweeps, Free)
  {
  }

  lemma ServerMutexKept(clients: map<nat, At>, main: Main, m: Holder, t: nat, at: At)
    requires ServerMutexOk(clients, main, m) && InServer(at) == (t in clients && InServer(clients[t]))
    ensures ServerMutexOk(clients[t := at], main, m)
  {
  }

  lemma ServerMutexTaken(clients: map<nat, At>, main: Main, t: nat, at: At)
    requires ServerMutexOk(clients, main, Free) && InServer(at)
    ensures ServerMutexOk(clients[t := at], main, ByClient(t))
  {
  }

  lemma ServerMutexGiven(clients: map<nat, At>, main: Main, m: Holder, t: nat, at: At)
    requires ServerMutexOk(clients, main, m) && t in clients && InServer(clients[t]) && !InServer(at)
    ensures ServerMutexOk(clients[t := at], main, Free)
  {
  }

  // ---------------------------------------------------------------- client steps

  /** Moving on without a change of what the list, the links and the store know of the thread. */
  lemma PlaceKept(clients: map<nat, At>, r: Registry, freed: set<nat>, t: nat, at: At)
    requires ListOk(clients, r) && FreedOk(clients, freed) && t in clients
    requires Listed(at) == Listed(clients[t]) && (Unlinked(at) ==> Unlinked(clients[t]))
    ensures ListOk(clients[t := at], r)
    ensures FreedOk(clients[t := at], if at.Unc3? || at.Gone? then freed + {t} else freed - {t})
  {
  }

  /** What a step of `t` outside the list section has to show. */
  lemma OutsideGood(s: State, t: nat, s': State)
    requires Good(s) && t in s.clients && t in s'.clients && !InList(s.clients[t]) && !InList(s'.clients[t])
    requires Listed(s'.clients[t]) == Listed(s.clients[t]) && (Unlinked(s'.clients[t]) ==> Unlinked(s.clients[t]))
    requires s' == s.(clients := s.clients[t := s'.clients[t]], freed := s'.freed, count := s'.count,
                      serverMutex := s'.serverMutex, main := s'.main)
    requires (s'.main == s.main || s'.main == Signal(s.main)) && WakeOk(s'.clients, s'.main, s'.count)
    requires s'.freed == if s'.clients[t].Unc3? || s'.clients[t].Gone? then s.freed + {t} else s.freed - {t}
    requires s'.count - s.count == (if Counted(s'.clients[t]) then 1 else 0) - (if Counted(s.clients[t]) then 1 else 0)
    requires ServerMutexOk(s'.clients, s.main, s'.serverMutex) && (s.main.Leaving? ==> s'.count == s.count)
    ensures Good(s')
  {
    var at' := s'.clients[t];
    if Counted(s.clients[t]) == Counted(at') { CountKept(s.clients, t, at'); } else { CountMoved(s.clients, t, at'); }
    ListMutexKept(s.clients, s.sweeps, s.listMutex, t, at');
    PlaceKept(s.clients, s.reg, s.freed, t, at');
    OutsideShape(s.reg, s.clients, s.listMutex, s.sweeps, t, at');
  }

  lemma WakeKept(clients: map<nat, At>, main: Main, count: int, t: nat, at: At, count': int)
    requires WakeOk(clients, main, count) && t in clients
    requires Signals(at) || (!Signals(clients[t]) && count <= count')
    ensures WakeOk(clients[t := at], main, count')
  {
    if main == Asleep(false) && count <= 0 {
      var u :| u in clients && Signals(clients[u]);
      assert u in clients[t := at];
      assert t in clients[t := at];
    } else {
      assert t in clients[t := at] && clients[t := at][t] == at;
    }
  }

  lemma NotFreed(s: State, t: nat)
    requires FreedOk(s.clients, s.freed) && t in s.clients
    ensures s.freed == if s.clients[t].Unc3? || s.clients[t].Gone? then s.freed + {t} else s.freed - {t}
  {
  }

  /** Steps of a client outside both sections. */
  lemma OutsideKeeps(s: State, t: nat)
    requires Good(s) && Enabled(s, Client(t)) && (s.clients[t].Born? || s.clients[t].Serving?)
    ensures Good(Act(s, Client(t)))
  {
    var s' := Act(s, Client(t));
    NotFreed(s, t);
    WakeKept(s.clients, s.main, s.count, t, s'.clients[t], s'.count);
    ServerMutexKept(s.clients, s.main, s.serverMutex, t, s'.clients[t]);
    OutsideGood(s, t, s');
  }

  /** Into and out of the server section. */
  lemma ServerEntryKeeps(s: State, t: nat)
    requires Good(s) && Enabled(s, Client(t)) && (s.clients[t].CountWait? || s.clients[t].UncWait?)
    ensures Good(Act(s, Client(t)))
  {
    var s' := Act(s, Client(t));
    NotFreed(s, t);
    WakeKept(s.clients, s.main, s.count, t, s'.clients[t], s'.count);
    ServerMutexTaken(s.clients, s.main, t, s'.clients[t]);
    OutsideGood(s, t, s');
  }

  lemma ServerExitKeeps(s: State, t: nat)
    requires Good(s) && Enabled(s, Client(t)) && (s.clients[t].CountOut? || s.clients[t].Unc3?)
    ensures Good(Act(s, Client(t)))
  {
    var s' := Act(s, Client(t));
    NotFreed(s, t);
    if s.clients[t].CountOut? { WakeKept(s.clients, s.main, s.count, t, s'.clients[t], s'.count); }
    ServerMutexGiven(s.clients, s.main, s.serverMutex, t, s'.clients[t]);
    OutsideGood(s, t, s');
  }

  /** The increment, the decrement and the destruction, under the server mutex. */
  lemma ServerKeeps(s: State, t: nat)
    requires Good(s) && Enabled(s, Client(t)) && (s.clients[t].CountIn? || s.clients[t].Unc1? || s.clients[t].Unc2?)
    ensures Good(Act(s, Client(t)))
  {
    var s' := Act(s, Client(t));
    NotFreed(s, t);
    assert s.serverMutex == ByClient(t);
    WakeKept(s.clients, s.main, s.count, t, s'.clients[t], s'.count);
    ServerMutexKept(s.clients, s.main, s.serverMutex, t, s'.clients[t]);
    OutsideGood(s, t, s');
  }

  lemma OutsideShape(r: Registry, clients: map<nat, At>, m: Holder, sweeps: map<nat, Sweep>, t: nat, at: At)
    requires ShapeOk(r, clients, m) && ListMutexOk(clients, sweeps, m) && t in clients && !InList(clients[t])
    ensures ShapeOk(r, clients[t := at], m)
  {
  }

  /** Entering the list section: the writes to come will leave a linked list. */
  lemma AcquireKeeps(s: State, t: nat)
    requires Good(s) && Enabled(s, Client(t)) && (s.clients[t].ListWait? || s.clients[t].RemWait?)
    ensures Good(Act(s, Client(t)))
  {
    var at' := if s.clients[t].ListWait? then Ins1 else Rem1;
    NotFreed(s, t);
    CountKept(s.clients, t, at');
    ListMutexTaken(s.clients, s.sweeps, t, at');
    ServerMutexKept(s.clients, s.main, s.serverMutex, t, at');
    PlaceKept(s.clients, s.reg, s.freed, t, at');
    WakeKept(s.clients, s.main, s.count, t, at', s.count);
    AcquireShape(s.reg, s.clients, t, at');
  }

  lemma AcquireShape(r: Registry, clients: map<nat, At>, t: nat, at: At)
    requires ShapeOk(r, clients, Free) && ListOk(clients, r) && t in clients
    requires (clients[t].ListWait? && at.Ins1?) || (clients[t].RemWait? && at.Rem1?)
    ensures ShapeOk(r, clients[t := at], ByClient(t))
  {
    if at.Ins1? {
      InsertLinked(r, t);
    } else {
      RemoveLinked(r, t);
    }
  }

  /** The writes of the list section: each keeps what the section was going to leave. */
  lemma WriteKeeps(s: State, t: nat)
    requires Good(s) && Enabled(s, Client(t)) && InList(s.clients[t]) && !s.clients[t].InsOut? && !s.clients[t].RemOut?
    ensures Good(Act(s, Client(t)))
  {
    var s', at := Act(s, Client(t)), s.clients[t];
    assert s.listMutex == ByClient(t);
    match at
    case Ins1 => Ins1Writes(s.reg, s.clients, t); WriteGood(s, t, Ins2, s');
    case Ins2 => Ins2Writes(s.reg, s.clients, t); WriteGood(s, t, Ins3, s');
    case Ins3 => Ins3Writes(s.reg, s.clients, t); WriteGood(s, t, InsOut, s');
    case Rem1 => Rem1Writes(s.reg, s.clients, t); WriteGood(s, t, Rem2, s');
    case Rem2 => Rem2Writes(s.reg, s.clients, t); WriteGood(s, t, RemOut, s');
  }

  lemma WriteGood(s: State, t: nat, at: At, s': State)
    requires Good(s) && s.listMutex == ByClient(t) && InList(at)
    requires s' == s.(clients := s.clients[t := at], reg := s'.reg)
    requires ListOk(s'.clients, s'.reg) && ShapeOk(s'.reg, s'.clients, s.listMutex)
    ensures Good(s')
  {
    CountKept(s.clients, t, at);
    ListMutexKept(s.clients, s.sweeps, s.listMutex, t, at);
    ServerMutexKept(s.clients, s.main, s.serverMutex, t, at);
    WakeKept(s.clients, s.main, s.count, t, at, s.count);
    assert FreedOk(s'.clients, s'.freed);
    assert forall k :: k in s.sweeps ==> !s.sweeps[k].On?;
  }

  lemma Ins1Writes(r: Registry, clients: map<nat, At>, t: nat)
    requires t in clients && clients[t].Ins1? && ListOk(clients, r) && ShapeOk(r, clients, ByClient(t))
    ensures ListOk(clients[t := Ins2], WriteNext(r, t)) && ShapeOk(WriteNext(r, t), clients[t := Ins2], ByClient(t))
  {
    var r' := WriteNext(r, t);
    forall i {:trigger LinkedAt(r', i)} | 0 <= i < |r'.list| ensures LinkedAt(r', i) { assert LinkedAt(r, i); }
  }

  lemma Ins2Writes(r: Registry, clients: map<nat, At>, t: nat)
    requires t in clients && clients[t].Ins2? && ListOk(clients, r) && ShapeOk(r, clients, ByClient(t))
    ensures ListOk(clients[t := Ins3], WriteHeadPrev(r, t))
    ensures ShapeOk(WriteHeadPrev(r, t), clients[t := Ins3], ByClient(t))
  {
    if r.head.Some? { assert r.list[0] in r.list; }
  }

  lemma Ins3Writes(r: Registry, clients: map<nat, At>, t: nat)
    requires t in clients && clients[t].Ins3? && ListOk(clients, r) && ShapeOk(r, clients, ByClient(t))
    ensures ListOk(clients[t := InsOut], WriteHead(r, t)) && ShapeOk(WriteHead(r, t), clients[t := InsOut], ByClient(t))
  {
  }

  lemma Rem1Writes(r: Registry, clients: map<nat, At>, t: nat)
    requires t in clients && clients[t].Rem1? && ListOk(clients, r) && ShapeOk(r, clients, ByClient(t))
    ensures ListOk(clients[t := Rem2], WriteNextPrev(r, t))
    ensures ShapeOk(WriteNextPrev(r, t), clients[t := Rem2], ByClient(t))
  {
    Rem1Next(r, t);
    Rem1List(r, clients, t);
  }

  lemma Rem1List(r: Registry, clients: map<nat, At>, t: nat)
    requires t in clients && clients[t].Rem1? && ListOk(clients, r)
    requires LinkOf(r, t).next.Some? ==> LinkOf(r, t).next.value in r.list
    ensures ListOk(clients[t := Rem2], WriteNextPrev(r, t))
  {
    var r', n := WriteNextPrev(r, t), LinkOf(r, t).next;
    assert r'.list == r.list;
    forall c | c in clients[t := Rem2] && Unlinked(clients[t := Rem2][c])
      ensures LinkOf(r', c).prev == None
    {
      assert c !in r.list;
    }
  }

  lemma Rem1Next(r: Registry, t: nat)
    requires Linked(r) && t in r.list
    ensures LinkOf(r, t).next.Some? ==> LinkOf(r, t).next.value in r.list
  {
    assert LinkedAt(r, IndexOf(r.list, t));
  }

  lemma Rem2Writes(r: Registry, clients: map<nat, At>, t: nat)
    requires t in clients && clients[t].Rem2? && ListOk(clients, r) && ShapeOk(r, clients, ByClient(t))
    ensures ListOk(clients[t := RemOut], WritePrevNext(r, t))
    ensures ShapeOk(WritePrevNext(r, t), clients[t := RemOut], ByClient(t))
  {
    Rem2List(r, clients, t);
  }

  lemma Rem2List(r: Registry, clients: map<nat, At>, t: nat)
    requires t in clients && clients[t].Rem2? && ListOk(clients, r) && Distinct(r.list)
    ensures ListOk(clients[t := RemOut], WritePrevNext(r, t))
  {
    var r' := WritePrevNext(r, t);
    WithoutDistinct(r.list, t);
    assert r'.list == Without(r.list, t);
    forall c | c in clients[t := RemOut] && Unlinked(clients[t := RemOut][c])
      ensures LinkOf(r', c).prev == None
    {
      assert LinkOf(r', c).prev == LinkOf(r, c).prev;
    }
  }

  lemma ReleaseKeeps(s: State, t: nat)
    requires Good(s) && Enabled(s, Client(t)) && (s.clients[t].InsOut? || s.clients[t].RemOut?)
    ensures Good(Act(s, Client(t)))
  {
    var at' := if s.clients[t].InsOut? then Serving else UncWait;
    assert s.listMutex == ByClient(t);
    NotFreed(s, t);
    CountKept(s.clients, t, at');
    ListMutexGiven(s.clients, s.sweeps, s.listMutex, t, at');
    ServerMutexKept(s.clients, s.main, s.serverMutex, t, at');
    PlaceKept(s.clients, s.reg, s.freed, t, at');
    WakeKept(s.clients, s.main, s.count, t, at', s.count);
  }

  // ---------------------------------------------------------------- sweeps and the main thread

  lemma SweepMutex(clients: map<nat, At>, sweeps: map<nat, Sweep>, m: Holder, k: nat, sweep: Sweep)
    requires ListMutexOk(clients, sweeps, m) && k in sweeps && (sweeps[k].On? || m.Free? || !sweep.On?)
    ensures ListMutexOk(clients, sweeps[k := sweep],
                        if sweep.On? then BySweep(k) else if sweeps[k].On? then Free else m)
  {
  }

  /** A sweep takes the list from its head, one client after the other; no step of it changes the list. */
  lemma SweepKeeps(s: State, k: nat)
    requires Good(s) && Enabled(s, SweepOn(k))
    ensures Good(Act(s, SweepOn(k)))
  {
    var s', cur := Act(s, SweepOn(k)), s.sweeps[k];
    SweepMutex(s.clients, s.sweeps, s.listMutex, k, s'.sweeps[k]);
    assert ShapeOk(s'.reg, s'.clients, s'.listMutex);
    if cur.Waiting? {
      assert SweptTo(s.reg.list, s.cancelled, s.reg.head, 0);
    } else if cur.cur.Some? {
      assert SweepOk(s.reg.list, s.cancelled, s.sweeps[k]);
      var i: nat :| SweptTo(s.reg.list, s.cancelled, cur.cur, i);
      assert LinkedAt(s.reg, i);
      assert SweptTo(s.reg.list, s'.cancelled, s'.sweeps[k].cur, i + 1);
    }
    assert SweepsOk(s'.reg.list, s'.cancelled, s'.sweeps) by {
      forall j | j in s'.sweeps
        ensures SweepOk(s'.reg.list, s'.cancelled, s'.sweeps[j])
      {
        assert j != k ==> !s'.sweeps[j].On?;
      }
    }
  }

  lemma StartSweepKeeps(s: State, k: nat)
    requires Good(s) && k in s.sweeps && !s.sweeps[k].On?
    ensures Good(s.(sweeps := s.sweeps[k := Waiting]))
  {
    SweepMutex(s.clients, s.sweeps, s.listMutex, k, Waiting);
  }

  lemma MainKeeps(s: State)
    requires Good(s) && Enabled(s, MainOn)
    ensures Good(Act(s, MainOn))
  {
    assert ServerMutexOk(s.clients, Act(s, MainOn).main, Act(s, MainOn).serverMutex);
  }

  /** Every step of every thread keeps the invariant. */
  lemma StepKeeps(s: State, a: Action)
    requires Good(s) && Enabled(s, a)
    ensures Good(Act(s, a))
  {
    match a
    case Client(t) => ClientKeeps(s, t);
    case StartSweep(k) => StartSweepKeeps(s, k);
    case SweepOn(k) => SweepKeeps(s, k);
    case Eof => StartSweepKeeps(s, MAIN); EofKeeps(s.(sweeps := s.sweeps[MAIN := Waiting]));
    case MainOn => MainKeeps(s);
  }

  lemma EofKeeps(s: State)
    requires Good(s) && s.main.Commands?
    ensures Good(s.(main := Sweeping, accepting := false))
  {
  }

  lemma ClientKeeps(s: State, t: nat)
    requires Good(s) && Enabled(s, Client(t))
    ensures Good(Act(s, Client(t)))
  {
    var at := s.clients[t];
    if at.ListWait? || at.RemWait? {
      AcquireKeeps(s, t);
    } else if at.InsOut? || at.RemOut? {
      ReleaseKeeps(s, t);
    } else if InList(at) {
      WriteKeeps(s, t);
    } else if at.CountIn? || at.Unc1? || at.Unc2? {
      ServerKeeps(s, t);
    } else if at.CountWait? || at.UncWait? {
      ServerEntryKeeps(s, t);
    } else if at.CountOut? || at.Unc3? {
      ServerExitKeeps(s, t);
    } else {
      OutsideKeeps(s, t);
    }
  }

  // ---------------------------------------------------------------- every run

  /** Any clients about to start, nothing registered. */
  ghost predicate Initial(s: State) {
    && (forall t :: t in s.clients ==> s.clients[t].Born?)
    && s.reg == Registry(map[], None, []) && s.freed == {} && s.count == 0 && s.accepting
    && s.listMutex.Free? && s.serverMutex.Free? && s.main.Commands?
    && MAIN in s.sweeps && forall k :: k in s.sweeps ==> s.sweeps[k].Idle?
  }

  predicate Possible(s: State, run: seq<Action>)
    decreases |run|
  {
    run != [] ==> Enabled(s, run[0]) && Possible(Act(s, run[0]), run[1..])
  }

  function Run(s: State, run: seq<Action>): State
    requires Possible(s, run)
    decreases |run|
  {
    if run == [] then s else Run(Act(s, run[0]), run[1..])
  }

  lemma InitialGood(s: State)
    requires Initial(s)
    ensures Good(s)
  {
    assert CountedSet(s.clients) == {};
  }

  lemma {:induction false} RunKeeps(s: State, run: seq<Action>)
    requires Good(s) && Possible(s, run)
    ensures Good(Run(s, run))
    decreases |run|
  {
    if run != [] {
      StepKeeps(s, run[0]);
      RunKeeps(Act(s, run[0]), run[1..]);
    }
  }

  /**
    In every reachable state: the count is the number of threads between increment and decrement, every listed
    client is one of them and is not freed, every client being served is listed, and whenever no client is inside the
    list section the list is linked.
   */
  lemma RegistrySound(s: State, run: seq<Action>)
    requires Initial(s) && Possible(s, run)
    ensures var s' := Run(s, run);
      && s'.count == |CountedSet(s'.clients)|
      && (forall c :: c in s'.reg.list ==> c in CountedSet(s'.clients) && c !in s'.freed)
      && (forall c :: c in s'.clients && s'.clients[c].Serving? ==> c in s'.reg.list)
      && Distinct(s'.reg.list)
      && (!s'.listMutex.ByClient? ==> Linked(s'.reg))
  {
    InitialGood(s);
    RunKeeps(s, run);
  }

  /** When the main thread's wait loop exits, no client is listed: the list head is NULL. */
  lemma EmptyAtExit(s: State, run: seq<Action>)
    requires Initial(s) && Possible(s, run) && Run(s, run).main.Leaving?
    ensures Run(s, run).reg.list == [] && Run(s, run).reg.head == None && Run(s, run).count == 0
    ensures forall t :: t in Run(s, run).clients ==> !Counted(Run(s, run).clients[t])
  {
    InitialGood(s);
    RunKeeps(s, run);
    NobodyCounted(Run(s, run));
  }

  lemma NobodyCounted(s: State)
    requires Good(s) && s.main.Leaving?
    ensures s.reg.list == [] && s.reg.head == None && s.count == 0
    ensures forall t :: t in s.clients ==> !Counted(s.clients[t])
  {
    FirstIn(s.reg.list);
    assert CountedSet(s.clients) == {};
    forall t | t in s.clients ensures !Counted(s.clients[t]) { assert t !in CountedSet(s.clients); }
  }

  lemma FirstIn(list: seq<nat>)
    ensures list != [] ==> list[0] in list
  {
  }

  /** delete_all visits only clients that are listed and not freed, and has cancelled every one of them when it ends. */
  lemma SweepSound(s: State, run: seq<Action>, k: nat)
    requires Initial(s) && Possible(s, run) && k in Run(s, run).sweeps && Run(s, run).sweeps[k].On?
    ensures var s', cur := Run(s, run), Run(s, run).sweeps[k].cur;
      if cur.Some? then cur.value in s'.reg.list && cur.value !in s'.freed
      else forall c :: c in s'.reg.list ==> c in s'.cancelled
  {
    InitialGood(s);
    RunKeeps(s, run);
    SweepPlace(Run(s, run), k);
  }

  lemma SweepPlace(s: State, k: nat)
    requires Good(s) && k in s.sweeps && s.sweeps[k].On?
    ensures var cur := s.sweeps[k].cur;
      if cur.Some? then cur.value in s.reg.list && cur.value !in s.freed
      else forall c :: c in s.reg.list ==> c in s.cancelled
  {
    assert SweepOk(s.reg.list, s.cancelled, s.sweeps[k]);
    var i: nat :| SweptTo(s.reg.list, s.cancelled, s.sweeps[k].cur, i);
  }

  /**
    The last decrement wakes the main thread: with the count at zero and no client about to signal, it does not sleep
    unsignalled.
   */
  lemma MainIsWoken(s: State, run: seq<Action>)
    requires Initial(s) && Possible(s, run) && Run(s, run).count == 0 && !Run(s, run).serverMutex.ByClient?
    ensures Run(s, run).main != Asleep(false)
  {
    InitialGood(s);
    RunKeeps(s, run);
    NobodySignals(Run(s, run));
  }

  lemma NobodySignals(s: State)
    requires Good(s) && s.count == 0 && !s.serverMutex.ByClient?
    ensures s.main != Asleep(false)
  {
    forall t | t in s.clients
      ensures !Signals(s.clients[t])
    {
      assert InServer(s.clients[t]) ==> s.serverMutex == ByClient(t);
    }
  }
}
