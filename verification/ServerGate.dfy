/**
  The stop/go gate of the server: clients pass it before each command, under a mutex
  and a condition variable; the main thread stops and releases it.
 */
module ServerGate {

  /** Where a client thread is in its serving loop. */
  datatype At =
    | Serving                    // in comm_serve
    | GateWait                   // a command has come; wants the mutex
    | GateTest                   // holds the mutex, about to test `stopped`
    | Asleep(signalled: bool)    // in pthread_cond_wait, without the mutex
    | GateOut                    // holds the mutex, has seen the gate open
    | Passed                     // about to call interpret_command
    | Interpreting
    | Cleaning                   // cancelled in the wait: holds the mutex, about to give it up
    | Left

  datatype Main = Ready | StopWait | StopIn | StopOut | GoWait | GoIn | GoCast | GoOut

  datatype Holder = Free | ByClient(t: nat) | ByMain

  datatype State = State(clients: map<nat, At>, stopped: bool, mutex: Holder, main: Main)

  /** `go` on a client's own path; leave by disconnection or cancellation; wake with or without a signal. */
  datatype Action = Go(t: nat) | Leave(t: nat) | StopCommand | GoCommand | MainOn

  predicate Enabled(s: State, a: Action) {
    match a
    case Go(t) =>
      t in s.clients && !s.clients[t].Left? && (s.clients[t].GateWait? || s.clients[t].Asleep? ==> s.mutex.Free?)
    case Leave(t) => t in s.clients && (s.clients[t].Serving? || (s.clients[t].Asleep? && s.mutex.Free?))
    case StopCommand => s.main.Ready?
    case GoCommand => s.main.Ready?
    case MainOn => !s.main.Ready? && (s.main.StopWait? || s.main.GoWait? ==> s.mutex.Free?)
  }

  function Move(s: State, t: nat, at: At, mutex: Holder): State {
    s.(clients := s.clients[t := at], mutex := mutex)
  }

  function Signalled(clients: map<nat, At>): map<nat, At> {
    map t | t in clients :: if clients[t].Asleep? then Asleep(true) else clients[t]
  }

  function Act(s: State, a: Action): State
    requires Enabled(s, a)
  {
    match a
    case Go(t) =>
      (match s.clients[t]
       case Serving => Move(s, t, GateWait, s.mutex)
       case GateWait => Move(s, t, GateTest, ByClient(t))
       case GateTest => if s.stopped then Move(s, t, Asleep(false), Free) else Move(s, t, GateOut, s.mutex)
       case Asleep(_) => Move(s, t, GateTest, ByClient(t))
       case GateOut => Move(s, t, Passed, Free)
       case Passed => Move(s, t, Interpreting, s.mutex)
       case Interpreting => Move(s, t, Serving, s.mutex)
       case Cleaning => Move(s, t, Left, Free)
       case Left => s)
    case Leave(t) => if s.clients[t].Asleep? then Move(s, t, Cleaning, ByClient(t)) else Move(s, t, Left, s.mutex)
    case StopCommand => s.(main := StopWait)
    case GoCommand => s.(main := GoWait)
    case MainOn =>
      match s.main
      case StopWait => s.(main := StopIn, mutex := ByMain)
      case StopIn => s.(main := StopOut, stopped := true)
      case StopOut => s.(main := Ready, mutex := Free)
      case GoWait => s.(main := GoIn, mutex := ByMain)
      case GoIn => s.(main := GoCast, stopped := false)
      case GoCast => s.(main := GoOut, clients := Signalled(s.clients))
      case GoOut => s.(main := Ready, mutex := Free)
      case Ready => s
  }

  // ---------------------------------------------------------------- what every step keeps

  predicate Inside(at: At) {
    at.GateTest? || at.GateOut? || at.Cleaning?
  }

  predicate MainInside(main: Main) {
    main.StopIn? || main.StopOut? || main.GoIn? || main.GoCast? || main.GoOut?
  }

  ghost predicate Good(s: State) {
    && (forall t :: t in s.clients && Inside(s.clients[t]) ==> s.mutex == ByClient(t))
    && (s.mutex.ByClient? ==> s.mutex.t in s.clients && Inside(s.clients[s.mutex.t]))
    && (MainInside(s.main) <==> s.mutex.ByMain?)
    && (s.main.StopOut? ==> s.stopped) && (s.main.GoCast? || s.main.GoOut? ==> !s.stopped)
    && (!s.stopped && !s.main.GoCast? ==> forall t :: t in s.clients ==> s.clients[t] != Asleep(false))
  }

  /** Every step keeps the mutex exclusive and loses no wake-up. */
  lemma StepKeeps(s: State, a: Action)
    requires Good(s) && Enabled(s, a)
    ensures Good(Act(s, a))
  {
  }

  ghost predicate Initial(s: State) {
    s.main.Ready? && s.mutex.Free? && !s.stopped && forall t :: t in s.clients ==> s.clients[t].Serving?
  }

  predicate Possible(s: State, run: seq<Action>)
    decreases |run|
  {
    run != [] ==> Enabled(s, run[0]) && Possible(Act(s, run[0]), run[1..])
  }

  function Run(s: State, run: seq<Action>): State
    requires Possible(s, run)
    decreases |run|
  {
    if run == [] then s else Run(Act(s, run[0]), run[1..])
  }

  lemma {:induction false} RunKeeps(s: State, run: seq<Action>)
    requires Good(s) && Possible(s, run)
    ensures Good(Run(s, run))
    decreases |run|
  {
    if run != [] {
      StepKeeps(s, run[0]);
      RunKeeps(Act(s, run[0]), run[1..]);
    }
  }

  // ---------------------------------------------------------------- stopping

  /** How often client `t` starts interpret_command in this run. */
  function Starts(s: State, run: seq<Action>, t: nat): nat
    requires Possible(s, run)
    decreases |run|
  {
    if run == [] then 0
    else (if run[0] == Go(t) && s.clients[t].Passed? then 1 else 0) + Starts(Act(s, run[0]), run[1..], t)
  }

  /** No release opens the gate in this run. */
  predicate NoRelease(s: State, run: seq<Action>)
    requires Possible(s, run)
    decreases |run|
  {
    run != [] ==> !(run[0].MainOn? && s.main.GoIn?) && NoRelease(Act(s, run[0]), run[1..])
  }

  /** The client has seen the gate open and has not used it yet. */
  predicate PastGate(s: State, t: nat) {
    t in s.clients && (s.clients[t].GateOut? || s.clients[t].Passed?)
  }

  /** While the gate is stopped, only a client already past it can start, and only once. */
  lemma {:induction false} StoppedStarts(s: State, run: seq<Action>, t: nat)
    requires s.stopped && Possible(s, run) && NoRelease(s, run)
    ensures Starts(s, run, t) <= if PastGate(s, t) then 1 else 0
    decreases |run|
  {
    if run != [] {
      StoppedStarts(Act(s, run[0]), run[1..], t);
    }
  }

  /**
    From a stop whose write is done to the next release, whatever else happens - other stops, spurious wake-ups,
    any number of clients - each client starts at most one command, and none if it had not passed the gate before.
   */
  lemma StopHolds(s: State, before: seq<Action>, during: seq<Action>, t: nat)
    requires Initial(s) && Possible(s, before) && Run(s, before).main.StopOut?
    requires Possible(Run(s, before), during) && NoRelease(Run(s, before), during)
    ensures Starts(Run(s, before), during, t) <= 1
    ensures !PastGate(Run(s, before), t) ==> Starts(Run(s, before), during, t) == 0
  {
    RunKeeps(s, before);
    StoppedStarts(Run(s, before), during, t);
  }

  /**
    No client sleeps through a release: when the gate is open and the main thread is done, every sleeper has been
    signalled.
   */
  lemma NoLostWakeup(s: State, run: seq<Action>, t: nat)
    requires Initial(s) && Possible(s, run) && t in Run(s, run).clients
    requires !Run(s, run).stopped && Run(s, run).main.Ready?
    ensures Run(s, run).clients[t] != Asleep(false)
  {
    RunKeeps(s, run);
  }

  // ---------------------------------------------------------------- what the commands decide

  /** Whether the last stop or go command of the run is a stop; `w` if there is none. */
  function LastIsStop(w: bool, run: seq<Action>): bool
    decreases |run|
  {
    if run == [] then w
    else LastIsStop(if run[0].StopCommand? then true else if run[0].GoCommand? then false else w, run[1..])
  }

  /** How far the main thread has got with the last command, if `w` says what that was. */
  ghost predicate Follows(s: State, w: bool) {
    match s.main
    case Ready => s.stopped == w
    case StopWait => w
    case StopIn => w
    case StopOut => w && s.stopped
    case GoWait => !w
    case GoIn => !w
    case GoCast => !w && !s.stopped
    case GoOut => !w && !s.stopped
  }

  lemma {:induction false} RunFollows(s: State, w: bool, run: seq<Action>)
    requires Possible(s, run) && Follows(s, w)
    ensures Follows(Run(s, run), LastIsStop(w, run))
    decreases |run|
  {
    if run != [] {
      var w' := if run[0].StopCommand? then true else if run[0].GoCommand? then false else w;
      RunFollows(Act(s, run[0]), w', run[1..]);
    }
  }

  /** Whenever the main thread is done, the gate is stopped exactly if its last command was a stop. */
  lemma StoppedExactly(s: State, run: seq<Action>)
    requires Initial(s) && Possible(s, run) && Run(s, run).main.Ready?
    ensures Run(s, run).stopped <==> LastIsStop(false, run)
  {
    RunFollows(s, false, run);
  }

  // ---------------------------------------------------------------- getting through

  /** Client `t` does `n` steps in a row. */
  function Steps(t: nat, n: nat): (run: seq<Action>)
    ensures |run| == n
  {
    seq(n, i => Go(t))
  }

  /** How many own steps a client is away from interpreting its command while the gate is open. */
  function Distance(at: At): nat {
    match at
    case Interpreting => 0
    case Passed => 1
    case GateOut => 2
    case GateTest => 3
    case GateWait => 4
    case Asleep(_) => 4
    case Serving => 5
    case Cleaning => 0
    case Left => 0
  }

  /** With the gate open and the mutex free or its own, nothing keeps a client from starting its command. */
  lemma {:induction false} GetsThrough(s: State, t: nat)
    requires Good(s) && !s.stopped && t in s.clients && !s.clients[t].Cleaning? && !s.clients[t].Left?
    requires s.mutex.Free? || s.mutex == ByClient(t)
    ensures var run := Steps(t, Distance(s.clients[t]));
      && Possible(s, run) && Run(s, run).clients == s.clients[t := Interpreting]
      && (!s.clients[t].Interpreting? ==> Starts(s, run, t) == 1)
    decreases Distance(s.clients[t])
  {
    var run := Steps(t, Distance(s.clients[t]));
    if Distance(s.clients[t]) > 0 {
      var s' := Act(s, Go(t));
      StepKeeps(s, Go(t));
      assert run[0] == Go(t) && run[1..] == Steps(t, Distance(s'.clients[t]));
      GetsThrough(s', t);
    }
  }

  lemma {:induction false} RunConcat(s: State, a: seq<Action>, b: seq<Action>, t: nat)
    requires Possible(s, a) && Possible(Run(s, a), b)
    ensures Possible(s, a + b) && Run(s, a + b) == Run(Run(s, a), b)
    ensures Starts(s, a + b, t) == Starts(s, a, t) + Starts(Run(s, a), b, t)
    decreases |a|
  {
    if a == [] {
      assert a + b == b;
    } else {
      assert (a + b)[1..] == a[1..] + b;
      RunConcat(Act(s, a[0]), a[1..], b, t);
    }
  }

  lemma OneStep(s: State, a: Action, t: nat)
    requires Enabled(s, a)
    ensures Possible(s, [a]) && Run(s, [a]) == Act(s, a)
    ensures Starts(s, [a], t) == if a == Go(t) && s.clients[t].Passed? then 1 else 0
  {
    assert [a][1..] == [];
  }

  /** Whoever holds the mutex gives it back by its own steps. */
  lemma GivesBack(s: State, u: nat, t: nat) returns (run: seq<Action>)
    requires Good(s) && !s.stopped && s.mutex == ByClient(u) && t in s.clients && t != u
    ensures Possible(s, run) && Starts(s, run, t) == 0 && forall i :: 0 <= i < |run| ==> run[i] == Go(u)
    ensures var s' := Run(s, run);
      Good(s') && s'.mutex.Free? && !s'.stopped && t in s'.clients && s'.clients[t] == s.clients[t]
  {
    var s1 := Act(s, Go(u));
    StepKeeps(s, Go(u));
    OneStep(s, Go(u), t);
    run := [Go(u)];
    if s.clients[u].GateTest? {
      StepKeeps(s1, Go(u));
      OneStep(s1, Go(u), t);
      RunConcat(s, [Go(u)], [Go(u)], t);
      run := [Go(u)] + [Go(u)];
    }
  }

  /** In an open gate a client can start a command, after whoever is inside. */
  lemma StartsWhenOpen(s: State, t: nat) returns (run: seq<Action>)
    requires Good(s) && !s.stopped && s.main.Ready? && t in s.clients && !s.clients[t].Cleaning? && !s.clients[t].Left?
    ensures Possible(s, run) && Starts(s, run, t) == 1
    ensures t in Run(s, run).clients && Run(s, run).clients[t].Interpreting?
    ensures forall i :: 0 <= i < |run| ==> run[i].Go?
  {
    if s.mutex.ByClient? && s.mutex.t != t {
      var before := GivesBack(s, s.mutex.t, t);
      var s1 := Run(s, before);
      var after := StartsFree(s1, t);
      RunConcat(s, before, after, t);
      run := before + after;
    } else {
      run := StartsFree(s, t);
    }
  }

  lemma StartsFree(s: State, t: nat) returns (run: seq<Action>)
    requires Good(s) && !s.stopped && t in s.clients && !s.clients[t].Cleaning? && !s.clients[t].Left?
    requires s.mutex.Free? || s.mutex == ByClient(t)
    ensures Possible(s, run) && Starts(s, run, t) == 1
    ensures t in Run(s, run).clients && Run(s, run).clients[t].Interpreting?
    ensures forall i :: 0 <= i < |run| ==> run[i] == Go(t)
  {
    if s.clients[t].Interpreting? {
      var s1 := Act(s, Go(t));
      StepKeeps(s, Go(t));
      OneStep(s, Go(t), t);
      GetsThrough(s1, t);
      run := [Go(t)] + Steps(t, Distance(s1.clients[t]));
      RunConcat(s, [Go(t)], Steps(t, Distance(s1.clients[t])), t);
    } else {
      GetsThrough(s, t);
      run := Steps(t, Distance(s.clients[t]));
    }
  }

  /**
    After any run whose last command was a go, or that had none, every client that has not left can be brought to start
    a command by steps of clients alone.
   */
  lemma ReleaseOpens(s: State, run: seq<Action>, t: nat) returns (more: seq<Action>)
    requires Initial(s) && Possible(s, run) && Run(s, run).main.Ready? && !LastIsStop(false, run)
    requires var s1 := Run(s, run); t in s1.clients && !s1.clients[t].Cleaning? && !s1.clients[t].Left?
    ensures Possible(Run(s, run), more) && Starts(Run(s, run), more, t) == 1
    ensures forall i :: 0 <= i < |more| ==> more[i].Go?
  {
    RunKeeps(s, run);
    StoppedExactly(s, run);
    more := StartsWhenOpen(Run(s, run), t);
  }

  // ---------------------------------------------------------------- every sixth step

  /** Own steps from here to the next start of a command, if the gate is open. */
  function ToStart(at: At): nat {
    if at.Interpreting? then 6 else Distance(at)
  }

  function OwnSteps(run: seq<Action>, t: nat): nat {
    if run == [] then 0 else (if run[0] == Go(t) then 1 else 0) + OwnSteps(run[1..], t)
  }

  /**
    While no stop is given, a client that does not leave starts a command with every sixth of its own steps, whatever
    the others do.
   */
  lemma {:induction false} EverySixth(s: State, run: seq<Action>, t: nat)
    requires !s.stopped && !s.main.StopWait? && !s.main.StopIn? && Possible(s, run)
    requires t in s.clients && !s.clients[t].Cleaning? && !s.clients[t].Left?
    requires StopCommand !in run && Leave(t) !in run
    ensures t in Run(s, run).clients
    ensures OwnSteps(run, t) + ToStart(Run(s, run).clients[t]) == 6 * Starts(s, run, t) + ToStart(s.clients[t])
    decreases |run|
  {
    if run != [] {
      EverySixth(Act(s, run[0]), run[1..], t);
    }
  }

  /** A client in an open gate is never stuck: it can step, or whoever holds the mutex can. */
  lemma NobodyStuck(s: State, run: seq<Action>, t: nat)
    requires Initial(s) && Possible(s, run) && t in Run(s, run).clients && !Run(s, run).clients[t].Left?
    ensures var s1 := Run(s, run);
      || Enabled(s1, Go(t))
      || (s1.mutex.ByClient? && Enabled(s1, Go(s1.mutex.t)))
      || (s1.mutex.ByMain? && Enabled(s1, MainOn))
  {
    RunKeeps(s, run);
  }
}
