/** What can still be popped, and what main can still do, once stop is requested. */
module AfterStop {
  import opened Wrappers
  import opened Protocol
  import opened WakeUps
  import opened Shutdown
  import opened Lifo

  function Pops(h: seq<Op>): nat {
    if h == [] then 0 else Pops(h[..|h| - 1]) + if h[|h| - 1].PopOp? then 1 else 0
  }

  function Pushes(h: seq<Op>): nat {
    if h == [] then 0 else Pushes(h[..|h| - 1]) + if h[|h| - 1].PushOp? then 1 else 0
  }

  lemma CountsSnoc(h: seq<Op>, op: Op)
    ensures Pops(h + [op]) == Pops(h) + if op.PopOp? then 1 else 0
    ensures Pushes(h + [op]) == Pushes(h) + if op.PushOp? then 1 else 0
  {
    assert (h + [op])[..|h|] == h;
  }

  // A late pop

  /** A worker has passed its test of stop and is about to pop. */
  ghost predicate SomeoneTakes(s: State) {
    exists w :: 0 <= w < |s.workers| && s.workers[w].Taking?
  }

  /** It will find something to pop. */
  ghost predicate PopPending(s: State) {
    SomeoneTakes(s) && s.stack != []
  }

  /** The socket it will pop, unless it is null. */
  ghost function PendingSocket(s: State): set<Sock> {
    if PopPending(s) && Top(s).Some? then {Top(s).value} else {}
  }

  ghost predicate AtMostOneLate(s: State) {
    && |s.latePops| <= 1
    && (!s.stop || SomeoneTakes(s) ==> s.latePops == {})
  }

  /** Only a worker that sees no stop gets to the pop, and only the one that has the mutex is there. */
  lemma TakersAfter(s: State, w: nat, m: Move)
    requires Mutex(s) && w < |s.workers| && CanMove(s, s.workers[w], m) && s.stop
    ensures SomeoneTakes(DoMove(s, w, m)) ==> SomeoneTakes(s) && !m.Take?
  {
    var s' := DoMove(s, w, m);
    if SomeoneTakes(s') {
      var v :| 0 <= v < |s'.workers| && s'.workers[v].Taking?;
      assert !NextPhase(s, s.workers[w], m).Taking?;
      assert v != w && s'.workers[v] == s.workers[v];
      assert Holds(s.workers[v]);
    }
  }

  lemma LateAfter(s: State, w: nat, m: Move)
    requires w < |s.workers| == |s.late| && CanMove(s, s.workers[w], m)
    ensures var s' := DoMove(s, w, m);
            && s'.stop == s.stop && (m.Take? ==> s.workers[w].Taking?)
            && s'.latePops == s.latePops +
                              if m.Take? && s.stop && s.stack != [] && Top(s).Some? then {Top(s).value} else {}
  {
    hide NextPhase, NextLock, Released;
  }

  lemma AtMostOneLateStep(s: State, a: Action)
    requires Enabled(s, a) && Mutex(s) && AtMostOneLate(s)
    ensures AtMostOneLate(Do(s, a))
  {
    hide CanMove, DoMove;
    match a {
      case Worker(w, m) =>
        LateAfter(s, w, m);
        if s.stop {
          TakersAfter(s, w, m);
        }
      case Notify(to) =>
        if to.Some? {
          var s' := Do(s, a);
          assert forall v :: 0 <= v < |s.workers| && s'.workers[v].Taking? ==> s.workers[v].Taking?;
        }
      case Close => DestroyAllKeeps(s, s.stack);
      case _ =>
    }
  }

  /** Whoever is about to pop has the mutex, so nothing is pushed meanwhile. */
  lemma TakerLocks(s: State)
    requires Mutex(s) && SomeoneTakes(s)
    ensures s.lock.Some?
  {
    var w :| 0 <= w < |s.workers| && s.workers[w].Taking?;
    assert Holds(s.workers[w]);
  }

  /** After stop, a step pops only what was about to be popped before it. */
  lemma LatePopStep(s: State, a: Action)
    requires Enabled(s, a) && Mutex(s) && s.stop
    ensures var s' := Do(s, a);
            && s'.stop
            && Pops(s'.history) + (if PopPending(s') then 1 else 0) <= Pops(s.history) + (if PopPending(s) then 1 else 0)
            && s'.latePops + PendingSocket(s') <= s.latePops + PendingSocket(s)
  {
    StopStays(s, a);
    StackChanges(s, a);
    hide CanMove, DoMove, DestroyAll, Pops;
    match a {
      case Worker(w, m) =>
        LateAfter(s, w, m);
        TakersAfter(s, w, m);
        if m.Take? && s.stack != [] {
          CountsSnoc(s.history, PopOp(Top(s)));
        }
      case Push =>
        CountsSnoc(s.history, PushOp(s.main.entry));
        if SomeoneTakes(s) {
          TakerLocks(s);
        }
      case Notify(to) =>
        if to.Some? {
          var s' := Do(s, a);
          assert forall v :: 0 <= v < |s.workers| && s'.workers[v].Taking? ==> s.workers[v].Taking?;
        }
      case Close => DestroyAllKeeps(s, s.stack);
      case _ =>
    }
  }

  // main

  /** The pushes main may still make before it sees stop. */
  function PushesLeft(m: Main): nat {
    if m.Accepting? || m.Hand? then 1 else 0
  }

  function MainWeight(m: Main, workers: nat): nat {
    match m
    case Accepting => workers + 5
    case Hand(_) => workers + 4
    case Pushed => workers + 3
    case MainTest => workers + 2
    case Joining(k) => if k <= workers then workers - k + 1 else 1
    case Closed => 0
  }

  predicate OfMain(a: Action) {
    !a.Worker? && !a.RequestStop?
  }

  lemma MainStep(s: State, a: Action)
    requires Enabled(s, a) && s.stop
    ensures var s' := Do(s, a);
            && s'.stop && |s'.workers| == |s.workers|
            && Pushes(s'.history) + PushesLeft(s'.main) <= Pushes(s.history) + PushesLeft(s.main)
            && MainWeight(s'.main, |s.workers|) + (if OfMain(a) then 1 else 0) <= MainWeight(s.main, |s.workers|)
  {
    StopStays(s, a);
    StackChanges(s, a);
    hide CanMove, NextPhase, NextLock, Released, DestroyAll, Pushes;
    match a {
      case Worker(w, m) =>
        if m.Take? && s.stack != [] {
          CountsSnoc(s.history, PopOp(Top(s)));
        }
      case Push => CountsSnoc(s.history, PushOp(s.main.entry));
      case Close => DestroyAllKeeps(s, s.stack);
      case _ =>
    }
  }

  function MainSteps(run: seq<Action>): nat {
    if run == [] then 0 else (if OfMain(run[0]) then 1 else 0) + MainSteps(run[1..])
  }

  /** Once stop is requested main pushes at most one more entry, and takes a bounded number of steps. */
  lemma {:induction false} MainDrains(s: State, run: seq<Action>)
    requires s.stop && Possible(s, run)
    ensures var s' := After(s, run);
            && Pushes(s'.history) + PushesLeft(s'.main) <= Pushes(s.history) + PushesLeft(s.main)
            && MainSteps(run) + MainWeight(s'.main, |s.workers|) <= MainWeight(s.main, |s.workers|)
    decreases |run|
  {
    hide Do, Enabled, Pushes, MainWeight, PushesLeft;
    if run == [] {
    } else {
      MainStep(s, run[0]);
      MainDrains(Do(s, run[0]), run[1..]);
    }
  }

  /** When every worker has exited, main can move until it has left its block. */
  lemma MainMoves(s: State) returns (a: Action)
    requires Mutex(s) && Joined(s) && s.main != Closed && forall w :: 0 <= w < |s.workers| ==> s.workers[w].Exited?
    ensures OfMain(a) && Enabled(s, a)
  {
    match s.main {
      case Accepting => a := AcceptNothing;
      case Hand(_) => a := Push;
      case Pushed => a := Notify(None);
      case MainTest => a := TestStop;
      case Joining(k) => a := if k == |s.workers| then Close else Join;
    }
  }
}
