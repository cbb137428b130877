/** GetSocket, as the steps of the protocol that interleave with those of the others, is GetSocket of the stack. */
module Waiting {
  import opened Wrappers
  import opened Protocol
  import opened WakeUps
  import opened Shutdown
  import opened Runs
  import opened CriticalSection
  import opened SocketStack

  /** What worker `w` has seen of the stack since it called GetSocket: the stack it found, its sleeps, whether its last
      sleep has ended by a timeout, and whether its last test of stop in wait_for said yes. */
  datatype Record = Record(first: seq<Entry>, turns: seq<Turn<Sock>>, timedOut: bool, stopped: bool)

  function Last(r: Record): seq<Entry> {
    Seen(r.first, r.turns, |r.turns|)
  }

  /** It has slept only on an empty stack, without stop and with time left. */
  predicate Calm(first: seq<Entry>, turns: seq<Turn<Sock>>) {
    forall j :: 0 <= j < |turns| ==> Seen(first, turns, j) == [] && !TimedOut(turns, j)
  }

  /** It need not sleep again. */
  predicate Done(r: Record) {
    r.stopped || TimedOut(r.turns, |r.turns|) || Last(r) != []
  }

  /** The record is right for the phase of the worker. */
  predicate Right(s: State, p: Phase, r: Record) {
    && Calm(r.first, r.turns)
    && (r.stopped ==> s.stop && !TimedOut(r.turns, |r.turns|))
    && match p
       case Testing(_) => s.stack == Last(r) && !TimedOut(r.turns, |r.turns|) && !r.stopped
       case Parked => Last(r) == [] && !TimedOut(r.turns, |r.turns|) && !r.stopped
       case Woken(_) => Last(r) == [] && !TimedOut(r.turns, |r.turns|) && !r.stopped
       case Locking(leave) =>
         && Last(r) == [] && !TimedOut(r.turns, |r.turns|) && !r.stopped
         && leave == r.timedOut
       case Waited(_) => s.stack == Last(r) && Done(r)
       case Taking(_) => s.stack == Last(r) && Done(r) && !r.stopped
       case _ => false
  }

  /** What the class's GetSocket makes of it: so many sleeps, whatever might come after them, and then this entry and
      this stack. */
  ghost predicate AsGetSocket(r: Record, polls: nat, entry: Entry, stack: seq<Entry>) {
    var k := |r.turns|;
    && (forall more: seq<Turn<Sock>> :: Sleeps(r.first, polls, r.turns + more, k))
    && Got(entry, stack) == Taken(Last(r), PollsLeft(polls, r.turns, k) == 0)
  }

  lemma SleepsRight(r: Record, polls: nat, more: seq<Turn<Sock>>)
    requires Calm(r.first, r.turns) && polls >= |r.turns|
    requires polls == |r.turns| || TimedOut(r.turns, |r.turns|) || Last(r) != []
    ensures Sleeps(r.first, polls, r.turns + more, |r.turns|)
  {
    var all := r.turns + more;
    forall j: nat | j <= |r.turns|
      ensures Seen(r.first, all, j) == Seen(r.first, r.turns, j) && TimedOut(all, j) == TimedOut(r.turns, j)
    {
    }
  }

  /** The test of stop that follows wait_for says yes. */
  lemma ReturnsForStop(s: State, w: nat, r: Record) returns (polls: nat)
    requires w < |s.workers| == |s.late| && s.workers[w].Waited? && Right(s, s.workers[w], r) && s.stop
    ensures var s' := DoMove(s, w, SeeStop);
            s'.workers[w] == Returned(None) && AsGetSocket(r, polls, None, s'.stack)
  {
    polls := if !r.stopped && !TimedOut(r.turns, |r.turns|) then |r.turns| + 1 else |r.turns|;
    hide Calm, Sleeps;
    forall more: seq<Turn<Sock>> ensures Sleeps(r.first, polls, r.turns + more, |r.turns|) {
      SleepsRight(r, polls, more);
    }
  }

  /** It says no, and the stack is looked at. */
  lemma ReturnsTop(s: State, w: nat, r: Record) returns (polls: nat)
    requires w < |s.workers| == |s.late| && s.workers[w].Taking? && Right(s, s.workers[w], r)
    ensures var s' := DoMove(s, w, Take);
            s'.workers[w].Returned? && AsGetSocket(r, polls, s'.workers[w].entry, s'.stack)
  {
    polls := |r.turns| + 2;
    hide Calm, Sleeps;
    forall more: seq<Turn<Sock>> ensures Sleeps(r.first, polls, r.turns + more, |r.turns|) {
      SleepsRight(r, polls, more);
    }
  }

  /** What the record becomes in the other moves. */
  function RecordAfter(s: State, p: Phase, m: Move, r: Record): Record {
    match m
    case Test => r.(stopped := s.stop)
    case Resume => if p.Woken? then r.(timedOut := p.timedOut) else r
    case Relock =>
      r.(turns := r.turns + [Turn(s.stack, r.timedOut)])
    case _ => r
  }

  lemma SleepsOn(r: Record, turn: Turn<Sock>)
    requires Calm(r.first, r.turns) && Last(r) == [] && !TimedOut(r.turns, |r.turns|)
    ensures Calm(r.first, r.turns + [turn])
  {
    var all := r.turns + [turn];
    forall j | 0 <= j < |all| ensures Seen(r.first, all, j) == [] && !TimedOut(all, j) {
      assert Seen(r.first, all, j) == Seen(r.first, r.turns, j) && TimedOut(all, j) == TimedOut(r.turns, j);
    }
  }

  lemma StaysRight(s: State, w: nat, m: Move, r: Record)
    requires w < |s.workers| == |s.late| && CanMove(s, s.workers[w], m) && Right(s, s.workers[w], r)
    requires !m.Take? && !(m.SeeStop? && s.stop)
    ensures var s' := DoMove(s, w, m);
            var r' := RecordAfter(s, s.workers[w], m, r);
            Right(s', s'.workers[w], r') && r'.first == r.first && r.turns <= r'.turns
  {
    if m.Relock? {
      SleepsOn(r, Turn(s.stack, r.timedOut));
    }
    hide Calm;
  }

  lemma ReturnsOnly(s: State, w: nat, m: Move, r: Record)
    requires w < |s.workers| == |s.late| && CanMove(s, s.workers[w], m)
    ensures var s' := DoMove(s, w, m); Right(s', s'.workers[w], r) ==> !s'.workers[w].Returned?
  {
    hide DoMove;
  }

  /** The worker's own move. */
  lemma OwnMove(s: State, w: nat, m: Move, r: Record) returns (r': Record, polls: nat)
    requires w < |s.workers| == |s.late| && CanMove(s, s.workers[w], m) && Right(s, s.workers[w], r)
    ensures var s' := DoMove(s, w, m);
            if s'.workers[w].Returned? then r' == r && AsGetSocket(r, polls, s'.workers[w].entry, s'.stack)
            else Right(s', s'.workers[w], r') && r'.first == r.first && r.turns <= r'.turns
  {
    r', polls := r, 0;
    if m.Take? {
      polls := ReturnsTop(s, w, r);
    } else if m.SeeStop? && s.stop {
      polls := ReturnsForStop(s, w, r);
    } else {
      StaysRight(s, w, m, r);
      r' := RecordAfter(s, s.workers[w], m, r);
      ReturnsOnly(s, w, m, r');
    }
    hide DoMove, Right, AsGetSocket, RecordAfter;
  }

  lemma OthersLeave(s: State, a: Action, w: nat)
    requires Enabled(s, a) && !IsOf(a, w) && w < |s.workers|
    ensures |Do(s, a).workers| == |s.workers|
    ensures Do(s, a).workers[w] == s.workers[w] || (s.workers[w].Parked? && Do(s, a).workers[w] == Woken(false))
  {
    hide CanMove, NextPhase, NextLock, Released;
    if a.Close? {
      DestroyAllKeeps(s, s.stack);
    }
  }

  /** The others cannot make the record wrong. */
  lemma OtherStep(s: State, a: Action, w: nat, r: Record)
    requires Mutex(s) && Joined(s) && Enabled(s, a) && !IsOf(a, w) && w < |s.workers| && Right(s, s.workers[w], r)
    ensures w < |Do(s, a).workers| && Right(Do(s, a), Do(s, a).workers[w], r)
  {
    StopStays(s, a);
    if Holds(s.workers[w]) {
      OthersKeep(s, a, w);
    } else {
      OthersLeave(s, a, w);
    }
    hide Do, Enabled, Calm;
  }

  /** A run in which worker `w`, inside GetSocket, comes to return from it, at the end. */
  ghost predicate Returning(s: State, run: seq<Action>, w: nat)
    decreases |run|
  {
    && w < |s.workers|
    && if run == [] then s.workers[w].Returned?
       else !s.workers[w].Returned? && Enabled(s, run[0]) && Returning(Do(s, run[0]), run[1..], w)
  }

  lemma {:induction false} ReturningIsPossible(s: State, run: seq<Action>, w: nat)
    requires Returning(s, run, w)
    ensures Possible(s, run) && w < |After(s, run).workers| && After(s, run).workers[w].Returned?
    decreases |run|
  {
    hide Do, Enabled;
    if run == [] {
    } else {
      ReturningIsPossible(Do(s, run[0]), run[1..], w);
    }
  }

  lemma EndsHere(s: State, run: seq<Action>, w: nat)
    requires Returning(s, run, w) && s.workers[w].Returned?
    ensures run == []
  {
  }

  lemma OwnAction(s: State, w: nat, a: Action, r: Record) returns (r': Record, polls: nat)
    requires Enabled(s, a) && IsOf(a, w) && Right(s, s.workers[w], r)
    ensures var s' := Do(s, a);
            && w < |s'.workers| && r'.first == r.first
            && (s'.workers[w].Returned? ==> AsGetSocket(r', polls, s'.workers[w].entry, s'.stack))
            && (!s'.workers[w].Returned? ==> Right(s', s'.workers[w], r'))
  {
    r', polls := OwnMove(s, w, a.m, r);
    hide Right, AsGetSocket;
  }

  lemma {:induction false} ReturnsRight(s: State, w: nat, run: seq<Action>, r: Record) returns (r': Record, polls: nat)
    requires Safe(s) && Returning(s, run, w) && Right(s, s.workers[w], r)
    ensures Possible(s, run) && w < |After(s, run).workers| && After(s, run).workers[w].Returned?
    ensures r'.first == r.first
    ensures AsGetSocket(r', polls, After(s, run).workers[w].entry, After(s, run).stack)
    decreases |run|
  {
    ReturningIsPossible(s, run, w);
    MutexOf(s);
    assert !s.workers[w].Returned?;
    var a := run[0];
    StepIsSafe(s, a);
    hide Safe, Right, AsGetSocket, Do, Enabled, Mutex, Joined;
    if IsOf(a, w) {
      r', polls := OwnAction(s, w, a, r);
      if !Do(s, a).workers[w].Returned? {
        r', polls := ReturnsRight(Do(s, a), w, run[1..], r');
      } else {
        EndsHere(Do(s, a), run[1..], w);
      }
    } else {
      OtherStep(s, a, w, r);
      r', polls := ReturnsRight(Do(s, a), w, run[1..], r);
    }
  }

  lemma Enters(s: State, w: nat, r: Record)
    requires Enabled(s, Worker(w, Enter)) && r == Record(s.stack, [], false, false)
    ensures var s' := Do(s, Worker(w, Enter)); w < |s'.workers| && Right(s', s'.workers[w], r)
  {
  }

  /** Every call of GetSocket, in any run, by any worker, among any steps of the others: there are sleeps and a moment of
      stop with which the GetSocket of the stack, called on the stack that the worker found, returns what it returned and
      leaves the stack that it left. */
  lemma GetSocketIsTheStacks(s: State, w: nat, run: seq<Action>) returns (turns: seq<Turn<Sock>>, polls: nat)
    requires Safe(s) && Returning(s, run, w) && run != [] && run[0] == Worker(w, Enter)
    ensures Possible(s, run) && w < |After(s, run).workers| && After(s, run).workers[w].Returned?
    ensures forall more: seq<Turn<Sock>> :: Sleeps(s.stack, polls, turns + more, |turns|)
    ensures Got(After(s, run).workers[w].entry, After(s, run).stack) ==
            Taken(Seen(s.stack, turns, |turns|), PollsLeft(polls, turns, |turns|) == 0)
  {
    ReturningIsPossible(s, run, w);
    StepIsSafe(s, run[0]);
    var r := Record(s.stack, [], false, false);
    Enters(s, w, r);
    hide Do, Enabled, Safe, Right, Sleeps, Taken, PollsLeft;
    var r';
    r', polls := ReturnsRight(Do(s, run[0]), w, run[1..], r);
    turns := r'.turns;
  }

  /** And main's push is AddSocket of the stack, which one notification follows. */
  lemma PushIsTheStacks(s: State)
    requires Enabled(s, Push)
    ensures Do(s, Push).stack == Added(s.stack, s.main.entry) && Do(s, Push).main == Pushed
    ensures forall a :: Enabled(Do(s, Push), a) && !a.Worker? && !a.RequestStop? ==> a.Notify?
  {
  }
}
