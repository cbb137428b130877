/** What is left of a run once stop is requested. */
module Shutdown {
  import opened Wrappers
  import Transport
  import opened Protocol
  import opened Ownership
  import opened WakeUps

  // At most one more request each, and nothing popped late is served

  /** A worker that may still read the request it set out for. */
  function Outstanding(p: Phase): nat {
    if p.Probing? || p.Reading? then 1 else 0
  }

  /** After stop a worker has read at most one request, counting the one it may be reading. */
  ghost predicate OneMoreRequest(s: State) {
    && |s.late| == |s.workers|
    && forall w :: 0 <= w < |s.workers| ==>
         s.late[w] + (if s.stop then Outstanding(s.workers[w]) else 0) <= if s.stop then 1 else 0
  }

  /** What is served is with a worker or destroyed, and nothing popped after stop is ever served. */
  ghost predicate LateIsNotServed(s: State) {
    && (forall x :: x in s.served ==> InWorkers(s.workers, x) + s.destroyed[x] > 0)
    && s.latePops !! s.served
    && (!s.stop ==> s.latePops == {})
  }

  lemma LateMove(s: State, w: nat, m: Move)
    requires w < |s.workers| && CanMove(s, s.workers[w], m) && OneMoreRequest(s)
    ensures OneMoreRequest(DoMove(s, w, m))
  {
    assert s.stop ==> Outstanding(NextPhase(s, s.workers[w], m)) + (if m.Complete? then 1 else 0)
                      <= Outstanding(s.workers[w]);
    hide NextPhase, NextLock, Released, Outstanding;
  }

  lemma OneMoreRequestStep(s: State, a: Action)
    requires Enabled(s, a) && OneMoreRequest(s)
    ensures OneMoreRequest(Do(s, a))
  {
    hide DoMove, CanMove;
    match a {
      case Worker(w, m) => LateMove(s, w, m);
      case Close => DestroyAllKeeps(s, s.stack);
      case _ =>
    }
  }

  lemma ServedMove(s: State, w: nat, m: Move, x: Sock)
    requires w < |s.workers| == |s.late| && CanMove(s, s.workers[w], m)
    ensures var s' := DoMove(s, w, m);
            && s'.stop == s.stop
            && (x in s'.served <==> x in s.served || (!s.stop && m.Check? && s.workers[w].entry == Some(x)))
            && (x in s'.latePops <==> x in s.latePops || (s.stop && m.Take? && s.stack != [] && Top(s) == Some(x)))
            && (m.Check? ==> s.workers[w].Returned?)
  {
    hide NextPhase, NextLock, Released;
  }

  /** A worker's sockets stay with it or are destroyed. */
  lemma WorkersKeep(s: State, w: nat, m: Move, x: Sock)
    requires w < |s.workers| == |s.late| && CanMove(s, s.workers[w], m)
    ensures var s' := DoMove(s, w, m);
            InWorkers(s'.workers, x) + s'.destroyed[x] >= InWorkers(s.workers, x) + s.destroyed[x]
  {
    hide InWorkers, InWorker, NextPhase, NextLock, Released, CanMove;
    MoveKeepsSocket(s, s.workers[w], m, x);
    InWorkersUpdate(s.workers, w, NextPhase(s, s.workers[w], m), x);
  }

  lemma HeldByWorker(workers: seq<Phase>, w: nat, x: Sock)
    requires w < |workers|
    ensures InWorker(workers[w], x) <= InWorkers(workers, x)
  {
    hide InWorker;
    if w == 0 {
    } else {
      HeldByWorker(workers[1..], w - 1, x);
    }
  }

  lemma OnStackIsNowhereElse(s: State, x: Sock)
    requires OneOwner(s) && s.stack != [] && Top(s) == Some(x)
    ensures InWorkers(s.workers, x) + s.destroyed[x] == 0
  {
    assert Places(s, x) <= 1;
  }

  lemma LateMoveIsNotServed(s: State, w: nat, m: Move)
    requires w < |s.workers| == |s.late| && CanMove(s, s.workers[w], m) && LateIsNotServed(s) && OneOwner(s)
    ensures LateIsNotServed(DoMove(s, w, m))
  {
    hide DoMove, CanMove, InWorkers, OneOwner;
    var s' := DoMove(s, w, m);
    assert s'.stop == s.stop by { ServedMove(s, w, m, 0); }
    forall x: Sock
      ensures x in s'.served ==> InWorkers(s'.workers, x) + s'.destroyed[x] > 0
      ensures !(x in s'.latePops && x in s'.served)
      ensures !s.stop ==> x !in s'.latePops
    {
      ServedMove(s, w, m, x);
      WorkersKeep(s, w, m, x);
      HeldByWorker(s.workers, w, x);
      if s.stack != [] && Top(s) == Some(x) {
        OnStackIsNowhereElse(s, x);
      }
    }
  }

  lemma LateIsNotServedStep(s: State, a: Action)
    requires Enabled(s, a) && LateIsNotServed(s) && OneOwner(s)
    ensures LateIsNotServed(Do(s, a))
  {
    hide DoMove, CanMove, InWorkers, InWorker, OneOwner;
    match a {
      case Worker(w, m) => LateMoveIsNotServed(s, w, m);
      case Notify(to) =>
        forall x: Sock | to.Some? ensures InWorkers(s.workers[to.value := Woken(false)], x) == InWorkers(s.workers, x) {
          InWorkersUpdate(s.workers, to.value, Woken(false), x);
          NoSocketAsleep(x);
        }
      case Close =>
        forall x: Sock ensures DestroyAll(s, s.stack).destroyed[x] >= s.destroyed[x] {
          DestroysAll(s, s.stack, x);
        }
        DestroyAllKeeps(s, s.stack);
      case _ =>
    }
  }

  // main joins every worker before the stack dies

  ghost predicate Joined(s: State) {
    match s.main
    case Joining(k) => s.stop && k <= |s.workers| && forall w :: 0 <= w < k ==> s.workers[w].Exited?
    case Closed => s.stop && s.stack == [] && forall w :: 0 <= w < |s.workers| ==> s.workers[w].Exited?
    case _ => true
  }

  lemma ExitedStays(s: State, w: nat, m: Move)
    requires w < |s.workers| == |s.late| && CanMove(s, s.workers[w], m) && Joined(s)
    ensures Joined(DoMove(s, w, m))
  {
    assert !s.workers[w].Exited?;
    hide CanMove, NextPhase, NextLock, Released;
  }

  lemma JoinedStep(s: State, a: Action)
    requires Enabled(s, a) && Joined(s)
    ensures Joined(Do(s, a))
  {
    match a {
      case Worker(w, m) => ExitedStays(s, w, m);
      case Close => DestroyAllKeeps(s, s.stack);
      case _ =>
    }
  }

  // A worker's own steps come to an end

  /** How many steps of its own a worker may take after stop, when no response is longer than `longest`. */
  function Weight(p: Phase, longest: nat): nat {
    match p
    case Exited => 0
    case OuterTest => 1
    case Returned(_) => 1
    case LoopTest(_) => 2
    case Taking(_) => 2
    case Waited(_) => 2
    case Testing(_) => 3
    case Locking(_) => 4
    case Outside => 4
    case Woken(_) => 5
    case Parked => 6
    case Writing(_, left, fallback) => 3 + left + if fallback then longest + 1 else 0
    case Deciding(_) => 2 * longest + 5
    case Reading(_, offset) => 2 * longest + 6 + if offset <= Transport.BUFFER_SIZE then Transport.BUFFER_SIZE - offset else 0
    case Probing(_) => 2 * longest + 7 + Transport.BUFFER_SIZE
  }

  function TotalWeight(workers: seq<Phase>, longest: nat): nat {
    if workers == [] then 0 else Weight(workers[0], longest) + TotalWeight(workers[1..], longest)
  }

  lemma {:induction false} WeightUpdate(workers: seq<Phase>, w: nat, p: Phase, longest: nat)
    requires w < |workers|
    ensures TotalWeight(workers[w := p], longest) + Weight(workers[w], longest) ==
            TotalWeight(workers, longest) + Weight(p, longest)
  {
    hide Weight;
    if w == 0 {
      assert workers[w := p][1..] == workers[1..];
    } else {
      assert workers[w := p][1..] == workers[1..][w - 1 := p];
      WeightUpdate(workers[1..], w - 1, p, longest);
    }
  }

  lemma MoveIsLighter(s: State, p: Phase, m: Move)
    requires s.stop && CanMove(s, p, m)
    ensures Weight(NextPhase(s, p, m), s.longest) < Weight(p, s.longest)
  {
  }

  lemma WokenIsLighter(longest: nat)
    ensures Weight(Woken(false), longest) < Weight(Parked, longest)
  {
  }

  lemma StepIsLighter(s: State, a: Action)
    requires Enabled(s, a) && s.stop
    ensures var s' := Do(s, a);
            && s'.stop && s'.longest == s.longest
            && TotalWeight(s'.workers, s.longest) + (if a.Worker? then 1 else 0) <= TotalWeight(s.workers, s.longest)
  {
    hide CanMove, NextPhase, Weight, Released, NextLock;
    match a {
      case Worker(w, m) =>
        MoveIsLighter(s, s.workers[w], m);
        WeightUpdate(s.workers, w, NextPhase(s, s.workers[w], m), s.longest);
      case Notify(to) =>
        if to.Some? {
          WeightUpdate(s.workers, to.value, Woken(false), s.longest);
          WokenIsLighter(s.longest);
        }
      case Close => DestroyAllKeeps(s, s.stack);
      case _ =>
    }
  }

  function WorkerSteps(run: seq<Action>): nat {
    if run == [] then 0 else (if run[0].Worker? then 1 else 0) + WorkerSteps(run[1..])
  }

  /** From a stopped state, the steps of all workers together are bounded, whatever else happens. */
  lemma {:induction false} BoundedDrain(s: State, run: seq<Action>)
    requires s.stop && Possible(s, run)
    ensures WorkerSteps(run) + TotalWeight(After(s, run).workers, s.longest) <= TotalWeight(s.workers, s.longest)
    decreases |run|
  {
    hide Do, TotalWeight;
    if run == [] {
    } else {
      StepIsLighter(s, run[0]);
      BoundedDrain(Do(s, run[0]), run[1..]);
    }
  }

  /** A move that needs at most the mutex. */
  function NextMove(p: Phase): Move {
    match p
    case Outside => Enter
    case Parked => Wake(true)
    case Woken(_) => Resume
    case Locking(_) => Relock
    case Returned(_) => Check
    case LoopTest(_) => Loop
    case Probing(_) => Probe(false)
    case Reading(_, offset) => if offset <= Transport.BUFFER_SIZE then Receive(0) else Complete
    case Deciding(_) => Decide(Raise)
    case Writing(_, _, _) => EndWrite(Drop)
    case OuterTest => Outer
    case Testing(_) => Test
    case Waited(_) => SeeStop
    case Taking(_) => Take
    case Exited => Outer
  }

  /** And as long as a worker has not exited, some worker can move, so they all do exit. */
  lemma SomeoneMoves(s: State, w: nat) returns (a: Action)
    requires Mutex(s) && w < |s.workers| && !s.workers[w].Exited?
    ensures a.Worker? && Enabled(s, a)
  {
    if s.lock.Some? {
      var h := s.lock.value;
      a := Worker(h, if s.workers[h].Testing? then Test else if s.workers[h].Waited? then SeeStop else Take);
    } else {
      a := Worker(w, NextMove(s.workers[w]));
    }
  }
}
