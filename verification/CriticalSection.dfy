/** While a worker has the mutex the others cannot touch the stack, so the end of GetSocket is one step. */
module CriticalSection {
  import opened Wrappers
  import opened Protocol
  import opened WakeUps
  import opened Shutdown
  import opened Runs
  import opened SocketStack

  predicate IsOf(a: Action, w: nat) {
    a.Worker? && a.w == w
  }

  ghost predicate Without(run: seq<Action>, w: nat) {
    forall i :: 0 <= i < |run| ==> !IsOf(run[i], w)
  }

  ghost predicate SameStack(s: State, s': State, w: nat) {
    && s'.stack == s.stack && s'.history == s.history && s'.lock == s.lock
    && w < |s.workers| == |s'.workers| && s'.workers[w] == s.workers[w]
  }

  lemma OtherMove(s: State, v: nat, m: Move, w: nat)
    requires Mutex(s) && v < |s.workers| && CanMove(s, s.workers[v], m) && s.lock == Some(w) && v != w
    ensures SameStack(s, DoMove(s, v, m), w)
  {
    assert !Holds(s.workers[v]);
  }

  /** Pushing and popping need the mutex, and main does not destroy the stack under a worker. */
  lemma OthersKeep(s: State, a: Action, w: nat)
    requires Mutex(s) && Joined(s) && Enabled(s, a) && s.lock == Some(w) && !IsOf(a, w)
    ensures SameStack(s, Do(s, a), w)
  {
    assert Holds(s.workers[w]);
    match a {
      case Worker(v, m) => OtherMove(s, v, m, w);
      case _ =>
    }
  }

  lemma {:induction false} CriticalSection(s: State, w: nat, run: seq<Action>)
    requires Safe(s) && Possible(s, run) && Without(run, w) && s.lock == Some(w)
    ensures SameStack(s, After(s, run), w)
    decreases |run|
  {
    assert Mutex(s) && Joined(s);
    hide Safe, Do, Enabled;
    if run != [] {
      OthersKeep(s, run[0], w);
      StepIsSafe(s, run[0]);
      CriticalSection(Do(s, run[0]), w, run[1..]);
    } else {
      assert Holds(s.workers[w]);
    }
  }

  lemma TestsStop(s: State, w: nat)
    requires Enabled(s, Worker(w, SeeStop))
    ensures var s' := Do(s, Worker(w, SeeStop));
            && s'.stack == s.stack && w < |s'.workers| == |s'.late|
            && (if s.stop then s'.workers[w] == Returned(None) else s'.workers[w].Taking? && s'.lock == s.lock)
  {
  }

  lemma TakesTop(s: State, w: nat)
    requires w < |s.workers| == |s.late| && s.workers[w].Taking?
    ensures Enabled(s, Worker(w, Take))
    ensures var s' := Do(s, Worker(w, Take));
            && w < |s'.workers| && s'.workers[w].Returned?
            && Got(s'.workers[w].entry, s'.stack) == Taken(s.stack, false)
  {
  }

  /** From the end of wait_for: whatever the others do meanwhile, GetSocket returns and leaves what the stack held at
      its last turn with the mutex calls for. Only the test of stop is sensitive to its moment. */
  lemma LastTurn(s: State, w: nat, before: seq<Action>, after: seq<Action>)
    requires Safe(s) && w < |s.workers| && s.workers[w].Waited?
    requires Possible(s, before) && Without(before, w)
    requires Enabled(After(s, before), Worker(w, SeeStop))
    requires Possible(Do(After(s, before), Worker(w, SeeStop)), after) && Without(after, w)
    ensures var s1 := After(s, before);
            var s2 := Do(s1, Worker(w, SeeStop));
            if s1.stop then Taken(s.stack, true) == Got(None, s2.stack) && s2.workers[w] == Returned(None)
            else
              var s3 := After(s2, after);
              && Enabled(s3, Worker(w, Take))
              && var s4 := Do(s3, Worker(w, Take));
                 Taken(s.stack, false) == Got(s4.workers[w].entry, s4.stack) && s4.workers[w].Returned?
  {
    assert Mutex(s) && Holds(s.workers[w]);
    CriticalSection(s, w, before);
    EveryRun(s, before);
    var s1 := After(s, before);
    TestsStop(s1, w);
    StepIsSafe(s1, Worker(w, SeeStop));
    var s2 := Do(s1, Worker(w, SeeStop));
    if !s1.stop {
      CriticalSection(s2, w, after);
      EveryRun(s2, after);
      assert Mutex(After(s2, after));
      TakesTop(After(s2, after), w);
    }
    hide After, Possible, Do, Enabled;
  }
}
