/**
  Registration after shutdown.  A client tests `accepting_clients` before it is
  counted, and without a lock: exactly which clients can still get into the list
  after the main thread has found the count zero.
 */
module ServerShutdown {
  import opened Options
  import opened Sequences
  import opened ServerRegistry

  /** The client has passed the test and has not been counted yet. */
  ghost predicate Late(s: State, t: nat) {
    t in s.clients && s.clients[t].CountWait?
  }

  /** Nobody is registered or on the way to it, and nobody new will be accepted. */
  ghost predicate Closed(s: State) {
    && !s.accepting && !s.main.Commands? && s.reg.list == []
    && forall t :: t in s.clients ==>
         var at := s.clients[t]; at.Born? || at.Refused? || at.Unc2? || at.Unc3? || at.Gone?
  }

  lemma ClosedStep(s: State, a: Action)
    requires Closed(s) && Enabled(s, a)
    ensures Closed(Act(s, a))
  {
  }

  lemma {:induction false} ClosedRun(s: State, run: seq<Action>)
    requires Closed(s) && Possible(s, run)
    ensures Run(s, run).reg.list == []
    decreases |run|
  {
    if run != [] {
      ClosedStep(s, run[0]);
      ClosedRun(Act(s, run[0]), run[1..]);
    }
  }

  ghost predicate CanFill(s: State) {
    exists run :: Possible(s, run) && Run(s, run).reg.list != []
  }

  lemma StepFills(s: State, a: Action)
    requires Enabled(s, a) && CanFill(Act(s, a))
    ensures CanFill(s)
  {
    var run :| Possible(Act(s, a), run) && Run(Act(s, a), run).reg.list != [];
    assert ([a] + run)[1..] == run;
    assert Possible(s, [a] + run) && Run(s, [a] + run) == Run(Act(s, a), run);
  }

  /** A client inside the insertion gets listed by its own steps. */
  lemma InsertFills(s: State, t: nat)
    requires t in s.clients && (s.clients[t].Ins1? || s.clients[t].Ins2? || s.clients[t].Ins3? || s.clients[t].InsOut?)
    requires s.clients[t].InsOut? ==> s.reg.list != []
    ensures CanFill(s)
    decreases match s.clients[t] case Ins1 => 3 case Ins2 => 2 case Ins3 => 1 case _ => 0
  {
    if s.clients[t].InsOut? {
      assert Possible(s, []) && Run(s, []) == s;
    } else {
      InsertFills(Act(s, Client(t)), t);
      StepFills(s, Client(t));
    }
  }

  /** A client waiting to be counted gets counted and listed once both mutexes are free. */
  lemma CountFills(s: State, t: nat)
    requires t in s.clients && s.serverMutex.Free? && s.listMutex.Free? && s.clients[t].CountWait?
    ensures CanFill(s)
  {
    var s1 := Act(s, Client(t));
    var s2 := Act(s1, Client(t));
    var s3 := Act(s2, Client(t));
    var s4 := Act(s3, Client(t));
    InsertFills(s4, t);
    StepFills(s3, Client(t));
    StepFills(s2, Client(t));
    StepFills(s1, Client(t));
    StepFills(s, Client(t));
  }

  /** With an empty list the holder of its mutex can only be a sweep that is past its end. */
  lemma HolderAtExit(s: State)
    requires Good(s) && s.main.Leaving?
    ensures
      || s.listMutex.Free?
      || (s.listMutex.BySweep? && s.listMutex.k in s.sweeps && s.sweeps[s.listMutex.k] == On(None))
  {
    NobodyCounted(s);
    if s.listMutex.BySweep? {
      var k := s.listMutex.k;
      assert SweepOk(s.reg.list, s.cancelled, s.sweeps[k]);
    }
  }

  lemma LateFills(s: State, t: nat)
    requires Good(s) && s.main.Leaving? && Late(s, t)
    ensures CanFill(s)
  {
    HolderAtExit(s);
    var s1 := Act(s, MainOn);
    if s.listMutex.Free? {
      CountFills(s1, t);
    } else {
      var k := s.listMutex.k;
      CountFills(Act(s1, SweepOn(k)), t);
      StepFills(s1, SweepOn(k));
    }
    StepFills(s, MainOn);
  }

  lemma NotLateClosed(s: State)
    requires Good(s) && s.main.Leaving? && forall t :: !Late(s, t)
    ensures Closed(s)
  {
    NobodyCounted(s);
    forall t | t in s.clients
      ensures var at := s.clients[t]; at.Born? || at.Refused? || at.Unc2? || at.Unc3? || at.Gone?
    {
      assert !Late(s, t);
    }
  }

  /**
    The list, empty when the main thread's wait loop exits, can fill again after it
    if and only if some client has passed the accepting test and not been counted yet.
   */
  lemma RegistersAfterExit(s: State, run: seq<Action>)
    requires Initial(s) && Possible(s, run) && Run(s, run).main.Leaving?
    ensures Run(s, run).reg.list == []
    ensures CanFill(Run(s, run)) <==> exists t :: Late(Run(s, run), t)
  {
    InitialGood(s);
    RunKeeps(s, run);
    var s' := Run(s, run);
    NobodyCounted(s');
    if t :| Late(s', t) {
      LateFills(s', t);
    } else if CanFill(s') {
      var more :| Possible(s', more) && Run(s', more).reg.list != [];
      NotLateClosed(s');
      ClosedRun(s', more);
    }
  }

  lemma OneMore(s: State, a: Action, run: seq<Action>)
    requires Enabled(s, a) && Possible(Act(s, a), run)
    ensures Possible(s, [a] + run) && Run(s, [a] + run) == Run(Act(s, a), run)
  {
    assert ([a] + run)[1..] == run;
  }

  /** Such a client exists in some run: it passes the test, then the main thread shuts down around it. */
  lemma LateReachable() returns (s: State, run: seq<Action>)
    ensures Initial(s) && Possible(s, run) && Run(s, run).main.Leaving? && Late(Run(s, run), 1)
  {
    s := State(map[1 := Born], Registry(map[], None, []), {}, 0, true, Free, Free, map[MAIN := Idle], {}, Commands);
    var s1 := Act(s, Client(1));
    var s2 := Act(s1, Eof);
    var s3 := Act(s2, SweepOn(MAIN));
    var s4 := Act(s3, SweepOn(MAIN));
    var s5 := Act(s4, MainOn);
    var s6 := Act(s5, MainOn);
    var s7 := Act(s6, MainOn);
    assert Possible(s7, []) && Run(s7, []) == s7;
    OneMore(s6, MainOn, []);
    OneMore(s5, MainOn, [MainOn] + []);
    run := [MainOn] + ([MainOn] + []);
    OneMore(s4, MainOn, run);
    run := [MainOn] + run;
    OneMore(s3, SweepOn(MAIN), run);
    run := [SweepOn(MAIN)] + run;
    OneMore(s2, SweepOn(MAIN), run);
    run := [SweepOn(MAIN)] + run;
    OneMore(s1, Eof, run);
    run := [Eof] + run;
    OneMore(s, Client(1), run);
    run := [Client(1)] + run;
  }
}
