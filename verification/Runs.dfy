/** What holds in every state of every run of main and its workers. */
module Runs {
  import opened Wrappers
  import opened Protocol
  import opened Ownership
  import opened WakeUps
  import opened Shutdown
  import opened Lifo
  import opened AfterStop

  ghost predicate Safe(s: State) {
    && Mutex(s) && NoLostWakeUp(s)
    && OneOwner(s) && ClosedOnce(s)
    && StackIsLinear(s)
    && OneMoreRequest(s) && LateIsNotServed(s) && AtMostOneLate(s) && Joined(s)
  }

  lemma {:induction false} AllOutside(n: nat, x: Sock)
    ensures InWorkers(seq(n, _ => Outside), x) == 0
  {
    if n == 0 {
    } else {
      assert seq(n, _ => Outside)[1..] == seq(n - 1, _ => Outside);
      AllOutside(n - 1, x);
    }
  }

  lemma InitIsSafe(workers: nat, longest: nat)
    ensures Safe(Init(workers, longest))
  {
    var s := Init(workers, longest);
    forall x: Sock ensures Places(s, x) == 0 {
      AllOutside(workers, x);
    }
    assert Linear(s.history, s.stack);
  }

  lemma StepIsSafe(s: State, a: Action)
    requires Safe(s) && Enabled(s, a)
    ensures Safe(Do(s, a))
  {
    MutexStep(s, a);
    WakeUpStep(s, a);
    OwnershipStep(s, a);
    StackIsLinearStep(s, a);
    OneMoreRequestStep(s, a);
    LateIsNotServedStep(s, a);
    AtMostOneLateStep(s, a);
    JoinedStep(s, a);
    hide Do, Enabled, Mutex, NoLostWakeUp, OneOwner, ClosedOnce, StackIsLinear, OneMoreRequest, LateIsNotServed;
    hide AtMostOneLate, Joined;
  }

  /** Whatever the number of workers, the interleaving, and the moment of stop. */
  lemma {:induction false} EveryRun(s: State, run: seq<Action>)
    requires Safe(s) && Possible(s, run)
    ensures Safe(After(s, run))
    decreases |run|
  {
    hide Safe, Do, Enabled;
    if run == [] {
    } else {
      StepIsSafe(s, run[0]);
      EveryRun(Do(s, run[0]), run[1..]);
    }
  }

  // In a reader's terms: for any run from the start

  lemma {:induction false} AwakeWorker(workers: seq<Phase>) returns (w: nat)
    requires AwakeCount(workers) > 0
    ensures w < |workers| && Awake(workers[w]) > 0
  {
    if Awake(workers[0]) > 0 {
      w := 0;
    } else {
      var v := AwakeWorker(workers[1..]);
      w := v + 1;
    }
  }

  /** No socket waits on the stack while workers sleep and none has been or will be woken. */
  lemma SomeoneIsComing(workers: nat, longest: nat, run: seq<Action>)
    requires Possible(Init(workers, longest), run)
    ensures var s := After(Init(workers, longest), run);
            !s.stop && s.stack != [] && Parked in s.workers ==>
              s.main.Pushed? || exists w :: 0 <= w < |s.workers| && Awake(s.workers[w]) > 0
  {
    InitIsSafe(workers, longest);
    EveryRun(Init(workers, longest), run);
    var s := After(Init(workers, longest), run);
    hide After, Possible;
    if AwakeCount(s.workers) > 0 {
      var w := AwakeWorker(s.workers);
    }
  }

  lemma {:induction false} TwoWorkers(workers: seq<Phase>, v: nat, w: nat, x: Sock)
    requires v < w < |workers|
    ensures InWorkers(workers, x) >= InWorker(workers[v], x) + InWorker(workers[w], x)
  {
    hide InWorker;
    if v == 0 {
      HeldByWorker(workers[1..], w - 1, x);
    } else {
      TwoWorkers(workers[1..], v - 1, w - 1, x);
    }
  }

  /** No two workers hold the same socket, and none holds one that is on the stack, in main's hand or destroyed. */
  lemma OwnersAreApart(workers: nat, longest: nat, run: seq<Action>, v: nat, w: nat, x: Sock)
    requires Possible(Init(workers, longest), run)
    requires var s := After(Init(workers, longest), run);
             v < w < |s.workers| && InWorker(s.workers[w], x) > 0
    ensures var s := After(Init(workers, longest), run);
            && InWorker(s.workers[v], x) == InStack(s.stack, x) == InMain(s.main, x) == s.destroyed[x] == 0
            && x < s.accepted
  {
    InitIsSafe(workers, longest);
    EveryRun(Init(workers, longest), run);
    var s := After(Init(workers, longest), run);
    hide After, Possible, InWorker, InStack, InMain;
    TwoWorkers(s.workers, v, w, x);
    assert Places(s, x) <= 1;
  }

  lemma {:induction false} AllExited(workers: seq<Phase>, x: Sock)
    requires forall w :: 0 <= w < |workers| ==> workers[w].Exited?
    ensures InWorkers(workers, x) == 0
  {
    if workers == [] {
    } else {
      AllExited(workers[1..], x);
    }
  }

  /** When main has left its block, every worker has exited, every accepted socket is destroyed once, and exactly the
      plain ones have been closed, once. */
  lemma AtTheEnd(workers: nat, longest: nat, run: seq<Action>)
    requires Possible(Init(workers, longest), run) && After(Init(workers, longest), run).main == Closed
    ensures var s := After(Init(workers, longest), run);
            && (forall w :: 0 <= w < |s.workers| ==> s.workers[w].Exited?)
            && (forall x: Sock :: s.destroyed[x] == if x < s.accepted then 1 else 0)
            && (forall x: Sock :: s.closed[x] == if x < s.accepted && x !in s.secure then 1 else 0)
  {
    InitIsSafe(workers, longest);
    EveryRun(Init(workers, longest), run);
    var s := After(Init(workers, longest), run);
    hide After, Possible;
    forall x: Sock ensures Places(s, x) == s.destroyed[x] {
      AllExited(s.workers, x);
    }
  }

  /** Of the connections accepted so far, which were accepted with TLS. */
  function Accepted(run: seq<Action>): seq<bool> {
    if run == [] then []
    else
      var last := run[|run| - 1];
      Accepted(run[..|run| - 1]) + if last.Accept? then [last.secure] else []
  }

  /** The sockets, in the order in which they are accepted, and those of them with TLS. */
  ghost predicate Labelled(s: State, secure: seq<bool>) {
    s.accepted == |secure| && forall x: Sock :: x in s.secure <==> x < |secure| && secure[x]
  }

  lemma LabelledStep(s: State, a: Action, secure: seq<bool>)
    requires Enabled(s, a) && Labelled(s, secure)
    ensures Labelled(Do(s, a), secure + if a.Accept? then [a.secure] else [])
  {
    hide CanMove, NextPhase, NextLock, Released;
    if a.Close? {
      DestroyAllKeeps(s, s.stack);
    }
  }

  lemma {:induction false} LabelledRun(s: State, before: seq<Action>, run: seq<Action>)
    requires Labelled(s, Accepted(before)) && Possible(s, run)
    ensures Labelled(After(s, run), Accepted(before + run))
    decreases |run|
  {
    hide Do, Enabled, Labelled;
    if run == [] {
      assert before + run == before;
    } else {
      LabelledStep(s, run[0], Accepted(before));
      assert (before + [run[0]])[..|before|] == before;
      assert before + [run[0]] + run[1..] == before + run;
      LabelledRun(Do(s, run[0]), before + [run[0]], run[1..]);
    }
  }

  /** In every run: a socket counts as TLS if and only if it was accepted with TLS. */
  lemma SecureMeans(workers: nat, longest: nat, run: seq<Action>)
    requires Possible(Init(workers, longest), run)
    ensures var s := After(Init(workers, longest), run);
            && s.accepted == |Accepted(run)|
            && forall x: Sock :: x in s.secure <==> x < |Accepted(run)| && Accepted(run)[x]
  {
    LabelledRun(Init(workers, longest), [], run);
    assert [] + run == run;
  }

  /** A TLS socket's descriptor is never closed, even when the socket is destroyed; a plain one's when it is. */
  lemma TlsStaysOpen(workers: nat, longest: nat, run: seq<Action>, x: Sock)
    requires Possible(Init(workers, longest), run)
    ensures var s := After(Init(workers, longest), run);
            && (x in s.secure ==> s.closed[x] == 0)
            && (x !in s.secure ==> s.closed[x] == s.destroyed[x])
            && (x < |Accepted(run)| ==> s.closed[x] == if Accepted(run)[x] then 0 else s.destroyed[x])
  {
    SecureMeans(workers, longest, run);
    InitIsSafe(workers, longest);
    EveryRun(Init(workers, longest), run);
    var s := After(Init(workers, longest), run);
    hide After, Possible;
    DestroyedIsAPlace(s, x);
    assert x in s.destroyed <==> s.destroyed[x] > 0;
  }

  ghost predicate NoWorkerCanMove(s: State) {
    forall a: Action :: a.Worker? ==> !Enabled(s, a)
  }

  /** Once stop is requested the workers take a bounded number of steps together, and when none of them can move any
      more they have all exited. */
  lemma WorkersDrain(workers: nat, longest: nat, run: seq<Action>, more: seq<Action>)
    requires Possible(Init(workers, longest), run) && After(Init(workers, longest), run).stop
    requires Possible(After(Init(workers, longest), run), more)
    ensures var s := After(Init(workers, longest), run);
            var s' := After(s, more);
            && WorkerSteps(more) <= TotalWeight(s.workers, s.longest)
            && (NoWorkerCanMove(s') ==> forall w :: 0 <= w < |s'.workers| ==> s'.workers[w].Exited?)
  {
    InitIsSafe(workers, longest);
    EveryRun(Init(workers, longest), run);
    var s := After(Init(workers, longest), run);
    EveryRun(s, more);
    BoundedDrain(s, more);
    var s' := After(s, more);
    hide After, Possible, Enabled;
    forall w | 0 <= w < |s'.workers| && !s'.workers[w].Exited? ensures !NoWorkerCanMove(s') {
      var a := SomeoneMoves(s', w);
    }
  }

  predicate OfAThread(a: Action) {
    !a.RequestStop?
  }

  lemma MutexOf(s: State)
    requires Safe(s)
    ensures Mutex(s) && Joined(s) && AtMostOneLate(s)
  {
    hide Mutex, Joined, AtMostOneLate;
  }

  /** And when main cannot move either, it has left its block: after stop the whole process comes to its end. */
  lemma EverythingEnds(workers: nat, longest: nat, run: seq<Action>, more: seq<Action>)
    requires Possible(Init(workers, longest), run) && After(Init(workers, longest), run).stop
    requires Possible(After(Init(workers, longest), run), more)
    ensures var s := After(Init(workers, longest), run);
            var s' := After(s, more);
            && WorkerSteps(more) + MainSteps(more) <= TotalWeight(s.workers, s.longest) + MainWeight(s.main, |s.workers|)
            && Pushes(s'.history) <= Pushes(s.history) + PushesLeft(s.main)
            && ((forall a: Action :: OfAThread(a) ==> !Enabled(s', a)) ==> s'.main == Closed)
  {
    WorkersDrain(workers, longest, run, more);
    InitIsSafe(workers, longest);
    EveryRun(Init(workers, longest), run);
    var s := After(Init(workers, longest), run);
    EveryRun(s, more);
    MainDrains(s, more);
    var s' := After(s, more);
    hide After, Possible, Safe, WorkerSteps, MainSteps, TotalWeight, MainWeight, Pushes;
    if s'.main != Closed && forall w :: 0 <= w < |s'.workers| ==> s'.workers[w].Exited? {
      MutexOf(s');
      var a := MainMoves(s');
      assert OfAThread(a);
    } else if forall a: Action :: OfAThread(a) ==> !Enabled(s', a) {
      assert forall a: Action :: a.Worker? ==> OfAThread(a);
      assert NoWorkerCanMove(s');
    }
  }

  // Requests read after stop

  predicate ReadsLate(s: State, a: Action, w: nat) {
    s.stop && a == Worker(w, Complete)
  }

  ghost function LateReads(s: State, run: seq<Action>, w: nat): nat
    requires Possible(s, run)
    decreases |run|
  {
    if run == [] then 0 else (if ReadsLate(s, run[0], w) then 1 else 0) + LateReads(Do(s, run[0]), run[1..], w)
  }

  lemma LateStep(s: State, a: Action, w: nat)
    requires Enabled(s, a) && w < |s.late|
    ensures var s' := Do(s, a);
            |s'.late| == |s.late| && s'.late[w] == s.late[w] + if ReadsLate(s, a, w) then 1 else 0
  {
    hide CanMove, NextPhase, NextLock, Released;
    if a.Close? {
      DestroyAllKeeps(s, s.stack);
    }
  }

  lemma {:induction false} LateCounts(s: State, run: seq<Action>, w: nat)
    requires Possible(s, run) && w < |s.late|
    ensures var s' := After(s, run); |s'.late| == |s.late| && s'.late[w] == s.late[w] + LateReads(s, run, w)
    decreases |run|
  {
    hide Do, Enabled, ReadsLate;
    if run == [] {
    } else {
      LateStep(s, run[0], w);
      LateCounts(Do(s, run[0]), run[1..], w);
    }
  }

  /** In any run, a worker reads at most one request to its end after stop. */
  lemma AtMostOneLateRead(workers: nat, longest: nat, run: seq<Action>, w: nat)
    requires Possible(Init(workers, longest), run) && w < workers
    ensures LateReads(Init(workers, longest), run, w) <= 1
  {
    InitIsSafe(workers, longest);
    EveryRun(Init(workers, longest), run);
    LateCounts(Init(workers, longest), run, w);
    var s := After(Init(workers, longest), run);
    hide After, Possible, Mutex, NoLostWakeUp, OneOwner, ClosedOnce, StackIsLinear, LateIsNotServed, AtMostOneLate, Joined;
    assert OneMoreRequest(s);
  }

  // Pops after stop

  lemma {:induction false} LatePops(s: State, run: seq<Action>)
    requires Safe(s) && s.stop && Possible(s, run)
    ensures var s' := After(s, run);
            && Pops(s'.history) <= Pops(s.history) + (if PopPending(s) then 1 else 0)
            && s'.latePops <= s.latePops + PendingSocket(s)
    decreases |run|
  {
    hide Safe, Do, Enabled, Pops, PopPending, PendingSocket;
    if run == [] {
    } else {
      MutexOf(s);
      LatePopStep(s, run[0]);
      StepIsSafe(s, run[0]);
      LatePops(Do(s, run[0]), run[1..]);
    }
  }

  lemma StepBefore(s: State, a: Action, rest: seq<Action>)
    requires Enabled(s, a) && Possible(Do(s, a), rest)
    ensures Possible(s, [a] + rest) && After(s, [a] + rest) == After(Do(s, a), rest)
  {
    hide Do, Enabled;
    assert ([a] + rest)[1..] == rest;
  }

  lemma PendingPop(s: State) returns (run: seq<Action>)
    requires Safe(s) && s.stop && PopPending(s)
    ensures Possible(s, run) && Pops(After(s, run).history) == Pops(s.history) + 1
    ensures After(s, run).latePops == PendingSocket(s) && s.latePops == {}
  {
    MutexOf(s);
    var w :| 0 <= w < |s.workers| && s.workers[w].Taking?;
    run := [Worker(w, Take)] + [];
    LateAfter(s, w, Take);
    StackChanges(s, Worker(w, Take));
    CountsSnoc(s.history, PopOp(Top(s)));
    hide Do, Pops;
    StepBefore(s, Worker(w, Take), []);
  }

  ghost predicate PopsMore(s: State, run: seq<Action>) {
    Possible(s, run) && Pops(After(s, run).history) > Pops(s.history)
  }

  ghost predicate PopsLate(s: State, run: seq<Action>) {
    Possible(s, run) && After(s, run).latePops > s.latePops
  }

  /** After stop an entry may still be popped if and only if a worker has passed its test of stop and the stack is not
      empty, and a socket if and only if, besides, that is what is on top. */
  lemma WhenAPopIsLate(s: State)
    requires Safe(s) && s.stop
    ensures (exists run :: PopsMore(s, run)) <==> SomeoneTakes(s) && s.stack != []
    ensures (exists run :: PopsLate(s, run)) <==> SomeoneTakes(s) && s.stack != [] && Top(s).Some?
  {
    if PopPending(s) {
      var run := PendingPop(s);
      assert PopsMore(s, run);
      assert Top(s).Some? ==> PopsLate(s, run);
    }
    hide Safe;
    forall run | Possible(s, run)
      ensures PopsMore(s, run) ==> PopPending(s)
      ensures PopsLate(s, run) ==> PendingSocket(s) != {}
    {
      LatePops(s, run);
    }
  }

  /** In any run, at most one socket is popped after stop. */
  lemma AtMostOneLatePop(workers: nat, longest: nat, run: seq<Action>)
    requires Possible(Init(workers, longest), run)
    ensures |After(Init(workers, longest), run).latePops| <= 1
  {
    InitIsSafe(workers, longest);
    EveryRun(Init(workers, longest), run);
    hide After, Possible;
    MutexOf(After(Init(workers, longest), run));
  }

  lemma ThreeSteps(s: State, a: Action, b: Action, c: Action, rest: seq<Action>)
    requires Enabled(s, a) && Enabled(Do(s, a), b) && Enabled(Do(Do(s, a), b), c)
    requires Possible(Do(Do(Do(s, a), b), c), rest)
    ensures Possible(s, [a, b, c] + rest) && After(s, [a, b, c] + rest) == After(Do(Do(Do(s, a), b), c), rest)
  {
    hide Do, Enabled, Possible, After;
    StepBefore(Do(Do(s, a), b), c, rest);
    StepBefore(Do(s, a), b, [c] + rest);
    StepBefore(s, a, [b] + ([c] + rest));
    assert [a] + ([b] + ([c] + rest)) == [a, b, c] + rest;
  }

  ghost predicate Three(s: State, a: Action, b: Action, c: Action, s': State) {
    && Enabled(s, a) && Enabled(Do(s, a), b) && Enabled(Do(Do(s, a), b), c)
    && Do(Do(Do(s, a), b), c) == s'
  }

  lemma ToTheStack(s: State, s': State)
    requires s.main == Accepting && s.lock == None && s.stack == [] && s.accepted == 0 && s.history == []
    requires s.workers == [Outside]
    requires s' == s.(main := MainTest, stack := [Some(0)], accepted := 1, history := [PushOp(Some(0))])
    ensures Three(s, Accept(false), Push, Notify(None), s')
  {
  }

  lemma ToThePop(s: State, s': State)
    requires !s.stop && s.lock == None && s.stack == [Some(0)] && s.workers == [Outside] && s.late == [0]
    requires s' == s.(lock := Some(0), workers := [Taking(false)])
    ensures Three(s, Worker(0, Enter), Worker(0, Test), Worker(0, SeeStop), s')
  {
  }

  lemma PastStop(s: State, s': State)
    requires s.stack == [Some(0)] && s.workers == [Taking(false)] && s.late == [0] && s.history == [PushOp(Some(0))]
    requires s.secure == {} && s.destroyed == s.closed == multiset{} && s.latePops == {}
    requires s' == s.(stop := true, lock := None, stack := [], workers := [Exited], destroyed := multiset{0},
                      closed := multiset{0}, history := [PushOp(Some(0)), PopOp(Some(0))], latePops := {0})
    ensures Three(s, RequestStop, Worker(0, Take), Worker(0, Check), s')
  {
  }

  /** stop does not take the mutex: a worker that has passed its test may still pop. The socket is then dropped. */
  lemma StopMayOvertakeAPop(longest: nat)
    ensures var run := [Accept(false), Push, Notify(None)] + ([Worker(0, Enter), Worker(0, Test), Worker(0, SeeStop)]
                       + ([RequestStop, Worker(0, Take), Worker(0, Check)] + []));
            && Possible(Init(1, longest), run)
            && var s := After(Init(1, longest), run);
               s.latePops == {0} && s.served == {} && s.closed == multiset{0} && s.workers == [Exited]
  {
    var s0 := Init(1, longest);
    assert s0.workers == [Outside] && s0.late == [0];
    var s1 := s0.(main := MainTest, stack := [Some(0)], accepted := 1, history := [PushOp(Some(0))]);
    var s2 := s1.(lock := Some(0), workers := [Taking(false)]);
    var s3 := s2.(stop := true, lock := None, stack := [], workers := [Exited], destroyed := multiset{0},
                  closed := multiset{0}, history := [PushOp(Some(0)), PopOp(Some(0))], latePops := {0});
    ToTheStack(s0, s1);
    ToThePop(s1, s2);
    PastStop(s2, s3);
    hide Do, Enabled, Init;
    ThreeSteps(s2, RequestStop, Worker(0, Take), Worker(0, Check), []);
    ThreeSteps(s1, Worker(0, Enter), Worker(0, Test), Worker(0, SeeStop),
               [RequestStop, Worker(0, Take), Worker(0, Check)] + []);
    ThreeSteps(s0, Accept(false), Push, Notify(None),
               [Worker(0, Enter), Worker(0, Test), Worker(0, SeeStop)]
               + ([RequestStop, Worker(0, Take), Worker(0, Check)] + []));
  }
}
