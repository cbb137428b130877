/** Every accepted socket has one owner, and a plain one is closed when its owner lets it go. */
module Ownership {
  import opened Wrappers
  import opened Protocol

  // How often a socket occurs in each place

  function InEntry(e: Entry, x: Sock): nat {
    if e == Some(x) then 1 else 0
  }

  function InStack(stack: seq<Entry>, x: Sock): nat {
    if stack == [] then 0 else InStack(stack[..|stack| - 1], x) + InEntry(stack[|stack| - 1], x)
  }

  function InMain(m: Main, x: Sock): nat {
    if m.Hand? then InEntry(m.entry, x) else 0
  }

  function InWorker(p: Phase, x: Sock): nat {
    match p
    case Returned(e) => InEntry(e, x)
    case LoopTest(y) => InEntry(Some(y), x)
    case Probing(y) => InEntry(Some(y), x)
    case Reading(y, _) => InEntry(Some(y), x)
    case Deciding(y) => InEntry(Some(y), x)
    case Writing(y, _, _) => InEntry(Some(y), x)
    case _ => 0
  }

  function InWorkers(workers: seq<Phase>, x: Sock): nat {
    if workers == [] then 0 else InWorker(workers[0], x) + InWorkers(workers[1..], x)
  }

  /** The producer's hand, the stack, the workers and the destroyed, together. */
  function Places(s: State, x: Sock): nat {
    InMain(s.main, x) + InStack(s.stack, x) + InWorkers(s.workers, x) + s.destroyed[x]
  }

  /** Each accepted socket is in exactly one place, once, and nothing else is anywhere. */
  ghost predicate OneOwner(s: State) {
    forall x: Sock :: Places(s, x) == if x < s.accepted then 1 else 0
  }

  /** close has been called once for each destroyed plain socket, and never for another. */
  ghost predicate ClosedOnce(s: State) {
    forall x: Sock :: s.closed[x] == if x in s.destroyed && x !in s.secure then 1 else 0
  }

  lemma {:induction false} InWorkersUpdate(workers: seq<Phase>, w: nat, p: Phase, x: Sock)
    requires w < |workers|
    ensures InWorkers(workers[w := p], x) + InWorker(workers[w], x) == InWorkers(workers, x) + InWorker(p, x)
  {
    hide InWorker;
    if w == 0 {
      assert workers[w := p][1..] == workers[1..];
    } else {
      assert workers[w := p][1..] == workers[1..][w - 1 := p];
      InWorkersUpdate(workers[1..], w - 1, p, x);
    }
  }

  lemma InStackSnoc(stack: seq<Entry>, e: Entry, x: Sock)
    ensures InStack(stack + [e], x) == InStack(stack, x) + InEntry(e, x)
  {
    assert (stack + [e])[..|stack|] == stack;
  }

  lemma {:induction false} DestroysAll(s: State, entries: seq<Entry>, x: Sock)
    ensures var s' := DestroyAll(s, entries);
            && s' == s.(destroyed := s'.destroyed, closed := s'.closed)
            && s'.destroyed[x] == s.destroyed[x] + InStack(entries, x)
            && s'.closed[x] == s.closed[x] + if x in s.secure then 0 else InStack(entries, x)
  {
    if entries == [] {
    } else {
      DestroysAll(s, entries[..|entries| - 1], x);
    }
  }

  /** A move hands over what the worker owned: on to its next phase, or to the destructor; Take brings the top. */
  lemma MoveKeepsSocket(s: State, p: Phase, m: Move, x: Sock)
    requires CanMove(s, p, m)
    ensures InWorker(NextPhase(s, p, m), x) + InEntry(Released(s, p, m), x) ==
            InWorker(p, x) + if m.Take? && s.stack != [] then InEntry(Top(s), x) else 0
  {
  }

  /** The stack, the worker that moves and the destroyed exchange sockets. */
  lemma MoveConserves(s: State, w: nat, m: Move, x: Sock)
    requires w < |s.workers| == |s.late| && CanMove(s, s.workers[w], m)
    ensures var s' := DoMove(s, w, m);
            && s'.workers == s.workers[w := s'.workers[w]] && s'.main == s.main
            && InStack(s'.stack, x) + InWorker(s'.workers[w], x) + s'.destroyed[x] ==
               InStack(s.stack, x) + InWorker(s.workers[w], x) + s.destroyed[x]
  {
    hide CanMove, NextPhase, Released, InWorker;
    MoveKeepsSocket(s, s.workers[w], m, x);
  }

  lemma MoveCloses(s: State, w: nat, m: Move, x: Sock)
    requires w < |s.workers| == |s.late| && CanMove(s, s.workers[w], m)
    ensures var s' := DoMove(s, w, m);
            && s'.destroyed[x] >= s.destroyed[x] && s'.accepted == s.accepted && s'.secure == s.secure
            && s'.closed[x] == s.closed[x] + (if x in s.secure then 0 else s'.destroyed[x] - s.destroyed[x])
  {
    hide CanMove, NextPhase, Released;
  }

  lemma NoSocketAsleep(x: Sock)
    ensures InWorker(Parked, x) == InWorker(Woken(false), x) == 0
  {
  }

  /** Accepting adds the new socket; no other step creates or loses one. */
  lemma StepConserves(s: State, a: Action, x: Sock)
    requires Enabled(s, a)
    ensures Places(Do(s, a), x) == Places(s, x) + if a.Accept? && x == s.accepted then 1 else 0
  {
    hide DoMove, InWorkers, InWorker, CanMove;
    match a {
      case Worker(w, m) =>
        MoveConserves(s, w, m, x);
        InWorkersUpdate(s.workers, w, DoMove(s, w, m).workers[w], x);
      case Push => InStackSnoc(s.stack, s.main.entry, x);
      case Notify(to) =>
        if to.Some? {
          InWorkersUpdate(s.workers, to.value, Woken(false), x);
          NoSocketAsleep(x);
        }
      case Close => DestroysAll(s, s.stack, x);
      case _ =>
    }
  }

  /** Only a destructor closes, once for each plain socket it destroys. */
  lemma StepCloses(s: State, a: Action, x: Sock)
    requires Enabled(s, a)
    ensures var s' := Do(s, a);
            && s'.destroyed[x] >= s.destroyed[x]
            && s'.closed[x] == s.closed[x] + (if x in s.secure then 0 else s'.destroyed[x] - s.destroyed[x])
            && s'.accepted == s.accepted + (if a.Accept? then 1 else 0)
            && (a.Accept? ==> s'.destroyed == s.destroyed)
            && (x < s.accepted ==> (x in s'.secure <==> x in s.secure))
  {
    hide DoMove, InWorker, InStack, CanMove;
    match a {
      case Worker(w, m) => MoveCloses(s, w, m, x);
      case Close => DestroysAll(s, s.stack, x);
      case _ =>
    }
  }

  lemma DestroyedIsAPlace(s: State, x: Sock)
    ensures s.destroyed[x] <= Places(s, x)
  {
  }

  lemma OwnershipStep(s: State, a: Action)
    requires Enabled(s, a) && OneOwner(s) && ClosedOnce(s)
    ensures OneOwner(Do(s, a)) && ClosedOnce(Do(s, a))
  {
    hide Do, Places;
    var s' := Do(s, a);
    forall x: Sock
      ensures Places(s', x) == if x < s'.accepted then 1 else 0
      ensures s'.closed[x] == if x in s'.destroyed && x !in s'.secure then 1 else 0
    {
      StepConserves(s, a, x);
      StepCloses(s, a, x);
      DestroyedIsAPlace(s, x);
      DestroyedIsAPlace(s', x);
      assert x in s.destroyed <==> s.destroyed[x] == 1;
      assert x in s'.destroyed <==> s'.destroyed[x] == 1;
    }
  }
}
