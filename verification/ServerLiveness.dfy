/**
  What the registry lets happen: a client that comes while the server accepts gets
  served and listed, and a shutdown never gets stuck, even if nobody wakes up without
  a signal.
 */
module ServerLiveness {
  import opened Options
  import opened Sequences
  import opened ServerRegistry

  /** How many own steps a client is away from serving. */
  function ToServe(at: At): nat {
    match at
    case Born => 9
    case CountWait => 8
    case CountIn => 7
    case CountOut => 6
    case ListWait => 5
    case Ins1 => 4
    case Ins2 => 3
    case Ins3 => 2
    case InsOut => 1
    case _ => 0
  }

  predicate Arriving(at: At) {
    ToServe(at) > 0
  }

  function OwnSteps(t: nat, n: nat): (run: seq<Action>)
    ensures |run| == n
  {
    seq(n, i => Client(t))
  }

  /** Nobody is in the way of `t`: both mutexes are free, unless it is itself inside. */
  ghost predicate Clear(s: State, t: nat)
    requires t in s.clients
  {
    && (if InServer(s.clients[t]) then s.serverMutex == ByClient(t) else s.serverMutex.Free?)
    && (if InList(s.clients[t]) then s.listMutex == ByClient(t) else s.listMutex.Free?)
  }

  lemma OneCloser(s: State, t: nat)
    requires t in s.clients && Arriving(s.clients[t]) && Clear(s, t) && (s.clients[t].Born? ==> s.accepting)
    ensures Enabled(s, Client(t))
    ensures var s' := Act(s, Client(t));
      && t in s'.clients && !s'.clients[t].Born? && ToServe(s'.clients[t]) == ToServe(s.clients[t]) - 1
      && (Arriving(s'.clients[t]) || s'.clients[t].Serving?) && Clear(s', t)
  {
  }

  lemma {:induction false} Arrives(s: State, t: nat)
    requires t in s.clients && (Arriving(s.clients[t]) || s.clients[t].Serving?) && Clear(s, t)
    requires s.clients[t].Born? ==> s.accepting
    ensures var run := OwnSteps(t, ToServe(s.clients[t]));
      Possible(s, run) && t in Run(s, run).clients && Run(s, run).clients[t].Serving?
    decreases ToServe(s.clients[t])
  {
    var run := OwnSteps(t, ToServe(s.clients[t]));
    if Arriving(s.clients[t]) {
      var s' := Act(s, Client(t));
      OneCloser(s, t);
      assert run[0] == Client(t) && run[1..] == OwnSteps(t, ToServe(s'.clients[t]));
      Arrives(s', t);
    }
  }

  /** A client that comes while the server accepts, with nobody in its way, gets counted, listed and served. */
  lemma GetsServed(s: State, run: seq<Action>, t: nat)
    requires Initial(s) && Possible(s, run) && t in Run(s, run).clients
    requires var s1 := Run(s, run);
      Arriving(s1.clients[t]) && Clear(s1, t) && (s1.clients[t].Born? ==> s1.accepting)
    ensures var s1 := Run(s, run); var more := OwnSteps(t, ToServe(s1.clients[t]));
      && Possible(s1, more) && t in Run(s1, more).clients && Run(s1, more).clients[t].Serving?
      && t in Run(s1, more).reg.list
  {
    var s1 := Run(s, run);
    InitialGood(s);
    RunKeeps(s, run);
    Arrives(s1, t);
    RunKeeps(s1, OwnSteps(t, ToServe(s1.clients[t])));
  }

  /** An action that is not the main thread waking up without a signal. */
  predicate Honest(s: State, a: Action) {
    Enabled(s, a) && !(a.MainOn? && s.main == Asleep(false))
  }

  /** Whoever holds the list mutex can go on. */
  lemma ListHolderGoes(s: State) returns (a: Action)
    requires Good(s) && !s.listMutex.Free?
    ensures Honest(s, a) && (a.Client? || a.SweepOn?)
  {
    a := if s.listMutex.ByClient? then Client(s.listMutex.t) else SweepOn(s.listMutex.k);
  }

  /** So can any client that is counted, or whoever is in its way. */
  lemma CountedGoes(s: State, t: nat) returns (a: Action)
    requires Good(s) && t in s.clients && (Counted(s.clients[t]) || Signals(s.clients[t])) && !s.serverMutex.ByMain?
    ensures Honest(s, a) && (a.Client? || a.SweepOn?)
  {
    var at := s.clients[t];
    if (at.ListWait? || at.RemWait?) && !s.listMutex.Free? {
      a := ListHolderGoes(s);
    } else if at.UncWait? && !s.serverMutex.Free? {
      a := Client(s.serverMutex.t);
    } else {
      a := Client(t);
    }
  }

  /** Until the main thread has exited, a shutdown under way can always go on. */
  lemma ShutdownGoesOn(s: State, run: seq<Action>) returns (a: Action)
    requires Initial(s) && Possible(s, run) && !Run(s, run).main.Commands? && !Run(s, run).main.Exited?
    ensures Honest(Run(s, run), a)
  {
    InitialGood(s);
    RunKeeps(s, run);
    MainSweeps(s, run);
    a := GoesOn(Run(s, run));
  }

  /** The main thread waits for its own delete_all only after it has begun. */
  ghost predicate SweepBegun(s: State) {
    MAIN in s.sweeps && (s.main.Sweeping? ==> !s.sweeps[MAIN].Idle?)
  }

  lemma {:induction false} MainSweeps(s: State, run: seq<Action>)
    requires SweepBegun(s) && Possible(s, run)
    ensures SweepBegun(Run(s, run))
    decreases |run|
  {
    if run != [] {
      MainSweeps(Act(s, run[0]), run[1..]);
    }
  }

  lemma GoesOn(s: State) returns (a: Action)
    requires Good(s) && SweepBegun(s) && !s.main.Commands? && !s.main.Exited?
    ensures Honest(s, a)
  {
    match s.main
    case Sweeping =>
      if s.sweeps[MAIN].Waiting? && !s.listMutex.Free? {
        a := ListHolderGoes(s);
      } else {
        a := if s.sweeps[MAIN].Swept? then MainOn else SweepOn(MAIN);
      }
    case WaitLock => a := if s.serverMutex.Free? then MainOn else Client(s.serverMutex.t);
    case Test => a := MainOn;
    case Leaving => a := MainOn;
    case Asleep(signalled) =>
      if signalled {
        a := if s.serverMutex.Free? then MainOn else Client(s.serverMutex.t);
      } else {
        var t := Somebody(s);
        a := CountedGoes(s, t);
      }
  }

  /** While the main thread sleeps unsignalled there is a client that will signal it. */
  lemma Somebody(s: State) returns (t: nat)
    requires Good(s) && s.main == Asleep(false)
    ensures t in s.clients && (Counted(s.clients[t]) || Signals(s.clients[t]))
  {
    if s.count > 0 {
      assert CountedSet(s.clients) != {};
      t :| t in CountedSet(s.clients);
    } else {
      t :| t in s.clients && Signals(s.clients[t]);
    }
  }
}
