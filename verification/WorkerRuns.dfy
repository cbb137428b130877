/** A whole worker, GetSocket and the outer loop included, takes the steps of the protocol. */
module WorkerRuns {
  import opened Wrappers
  import opened Transport
  import opened Protocol
  import opened Runs
  import opened Simulation
  import Session
  import Workers

  // Runs, end to end

  ghost predicate Reaches(s: State, run: seq<Action>, s': State) {
    Possible(s, run) && After(s, run) == s'
  }

  lemma {:induction false} Chained(s: State, run: seq<Action>, s1: State, more: seq<Action>, s2: State)
    requires Reaches(s, run, s1) && Reaches(s1, more, s2)
    ensures Reaches(s, run + more, s2) && OfRun(run + more) == OfRun(run) + OfRun(more)
    decreases |run|
  {
    hide Do, Enabled, OfAction;
    if run == [] {
      assert run + more == more;
    } else {
      Chained(Do(s, run[0]), run[1..], s1, more, s2);
      assert (run + more)[1..] == run[1..] + more;
    }
  }

  lemma Double(s: State, a: Action, b: Action)
    requires Enabled(s, a) && Enabled(Do(s, a), b)
    ensures Reaches(s, [a, b], Do(Do(s, a), b)) && OfRun([a, b]) == OfAction(a) + OfAction(b)
  {
    hide Do, Enabled, OfAction;
    RunOfOne(s, a);
    RunOfOne(Do(s, a), b);
    Chained(s, [a], Do(s, a), [b], Do(Do(s, a), b));
    assert [a] + [b] == [a, b];
  }

  lemma Triple(s: State, a: Action, b: Action, c: Action)
    requires Enabled(s, a) && Enabled(Do(s, a), b) && Enabled(Do(Do(s, a), b), c)
    ensures Reaches(s, [a, b, c], Do(Do(Do(s, a), b), c))
    ensures OfRun([a, b, c]) == OfAction(a) + OfAction(b) + OfAction(c)
  {
    hide Do, Enabled, OfAction;
    Double(s, a, b);
    RunOfOne(Do(Do(s, a), b), c);
    Chained(s, [a, b], Do(Do(s, a), b), [c], Do(Do(Do(s, a), b), c));
    assert [a, b] + [c] == [a, b, c];
  }

  /** Nothing of it concerns a socket in use. */
  ghost predicate Silently(s: State, run: seq<Action>, s': State) {
    Reaches(s, run, s') && OfRun(run) == []
  }

  lemma SilentlyOn(s: State, run: seq<Action>, s1: State, more: seq<Action>, s2: State)
    requires Silently(s, run, s1) && Silently(s1, more, s2)
    ensures Silently(s, run + more, s2)
  {
    Chained(s, run, s1, more, s2);
  }

  // Getting a socket

  /** Between two sockets: nothing is on the stack, nobody sleeps, main waits for clients. */
  ghost predicate Settled(s: State, w: nat, p: Phase) {
    && w < |s.workers| == |s.late| && s.workers[w] == p && s.main == Accepting
    && s.stack == [] && s.lock == None && Parked !in s.workers
  }

  ghost predicate Ready(s: State, w: nat) {
    Settled(s, w, Outside)
  }

  lemma Parks(s: State, w: nat)
    requires Ready(s, w) && !s.stop
    ensures var a, b, c := Worker(w, Enter), Worker(w, Test), Worker(w, Wake(true));
            Three(s, a, b, c, s.(workers := s.workers[w := Woken(true)]))
  {
  }

  lemma WakesUp(s: State, w: nat)
    requires w < |s.workers| == |s.late| && s.workers[w] == Woken(true) && s.lock == None && !s.stop
    ensures var a, b, c := Worker(w, Resume), Worker(w, Relock), Worker(w, SeeStop);
            Three(s, a, b, c, s.(lock := Some(w), workers := s.workers[w := Taking(true)]))
  {
  }

  lemma FindsNothing(s: State, w: nat)
    requires w < |s.workers| == |s.late| && s.workers[w] == Taking(true) && !s.stop && s.stack == []
    ensures var a, b := Worker(w, Take), Worker(w, Check);
            && Enabled(s, a) && Enabled(Do(s, a), b)
            && Do(Do(s, a), b) == s.(lock := None, workers := s.workers[w := OuterTest])
  {
  }

  /** GetSocket sleeps, and wakes up when its time is over. */
  lemma Sleeps(s: State, w: nat) returns (run: seq<Action>)
    requires Ready(s, w) && !s.stop
    ensures Silently(s, run, s.(lock := Some(w), workers := s.workers[w := Taking(true)]))
  {
    var s1 := s.(workers := s.workers[w := Woken(true)]);
    var s2 := s.(lock := Some(w), workers := s.workers[w := Taking(true)]);
    Parks(s, w);
    WakesUp(s1, w);
    assert s1.workers[w := Taking(true)] == s2.workers;
    hide Do, Enabled;
    var parks := [Worker(w, Enter), Worker(w, Test), Worker(w, Wake(true))];
    var wakes := [Worker(w, Resume), Worker(w, Relock), Worker(w, SeeStop)];
    Triple(s, parks[0], parks[1], parks[2]);
    Triple(s1, wakes[0], wakes[1], wakes[2]);
    SilentlyOn(s, parks, s1, wakes, s2);
    run := parks + wakes;
  }

  /** It returns null. */
  lemma GetsNothing(s: State, w: nat) returns (run: seq<Action>)
    requires Ready(s, w) && !s.stop
    ensures Silently(s, run, s.(workers := s.workers[w := OuterTest]))
  {
    var s1 := s.(lock := Some(w), workers := s.workers[w := Taking(true)]);
    var s2 := s.(workers := s.workers[w := OuterTest]);
    run := Sleeps(s, w);
    FindsNothing(s1, w);
    assert s1.workers[w := OuterTest] == s2.workers;
    hide Do, Enabled;
    Double(s1, Worker(w, Take), Worker(w, Check));
    SilentlyOn(s, run, s1, [Worker(w, Take), Worker(w, Check)], s2);
    run := run + [Worker(w, Take), Worker(w, Check)];
  }

  /** What main pushes: a new socket, with TLS or without, or null when nothing was accepted. */
  datatype Given = Socket(secure: bool) | Null

  function EntryOf(s: State, what: Given): Entry {
    match what case Socket(_) => Some(s.accepted) case Null => None
  }

  /** main's turn. */
  function WithEntry(s: State, what: Given): State {
    var s1 := s.(stack := [EntryOf(s, what)], history := s.history + [PushOp(EntryOf(s, what))]);
    match what
    case Null => s1
    case Socket(secure) =>
      s1.(accepted := s.accepted + 1, secure := if secure then s.secure + {s.accepted} else s.secure)
  }

  function AcceptOf(what: Given): Action {
    match what case Socket(secure) => Accept(secure) case Null => AcceptNothing
  }

  lemma Accepts(s: State, w: nat, what: Given)
    requires Ready(s, w) && !s.stop
    ensures Three(s, AcceptOf(what), Push, Notify(None), WithEntry(s, what).(main := MainTest))
    ensures Enabled(WithEntry(s, what).(main := MainTest), TestStop)
    ensures Do(WithEntry(s, what).(main := MainTest), TestStop) == WithEntry(s, what)
  {
  }

  lemma Delivers(s: State, w: nat, what: Given) returns (run: seq<Action>)
    requires Ready(s, w) && !s.stop
    ensures Silently(s, run, WithEntry(s, what))
  {
    var s1 := WithEntry(s, what);
    Accepts(s, w, what);
    hide Do, Enabled, WithEntry;
    Triple(s, AcceptOf(what), Push, Notify(None));
    RunOfOne(s1.(main := MainTest), TestStop);
    SilentlyOn(s, [AcceptOf(what), Push, Notify(None)], s1.(main := MainTest), [TestStop], s1);
    run := [AcceptOf(what), Push, Notify(None)] + [TestStop];
  }

  lemma PassesStop(s: State, w: nat)
    requires w < |s.workers| == |s.late| && s.workers[w] == Outside && s.lock == None && !s.stop && s.stack != []
    ensures var a, b, c := Worker(w, Enter), Worker(w, Test), Worker(w, SeeStop);
            Three(s, a, b, c, s.(lock := Some(w), workers := s.workers[w := Taking(false)]))
  {
  }

  /** The worker has taken the entry: it is about to enter its keep-alive loop, or has nothing to serve. */
  function InHand(s: State, w: nat, e: Entry): State
    requires w < |s.workers|
  {
    var s1 := s.(lock := None, stack := [], history := s.history + [PopOp(e)]);
    match e
    case None => s1.(workers := s.workers[w := OuterTest])
    case Some(x) => s1.(workers := s.workers[w := LoopTest(x)], served := s.served + {x})
  }

  lemma TakesIt(s: State, w: nat, e: Entry)
    requires w < |s.workers| == |s.late| && s.workers[w] == Taking(false) && !s.stop && s.stack == [e]
    ensures var a, b := Worker(w, Take), Worker(w, Check);
            && Enabled(s, a) && Enabled(Do(s, a), b)
            && Do(Do(s, a), b) == InHand(s, w, e)
  {
    assert s.stack[..0] == [];
  }

  lemma InHandSame(s: State, s': State, w: nat, e: Entry)
    requires w < |s.workers| && s.lock == None
    requires s' == s.(lock := Some(w), workers := s.workers[w := Taking(false)])
    ensures InHand(s', w, e) == InHand(s, w, e)
  {
    assert s'.workers[w := OuterTest] == s.workers[w := OuterTest];
    match e {
      case None =>
      case Some(x) => assert s'.workers[w := LoopTest(x)] == s.workers[w := LoopTest(x)];
    }
  }

  /** main pushes, and GetSocket returns what it pushed. */
  lemma GetsEntry(s: State, w: nat, what: Given) returns (run: seq<Action>)
    requires Ready(s, w) && !s.stop
    ensures Silently(s, run, InHand(WithEntry(s, what), w, EntryOf(s, what)))
  {
    var s1, e := WithEntry(s, what), EntryOf(s, what);
    var s2 := s1.(lock := Some(w), workers := s1.workers[w := Taking(false)]);
    var s3 := InHand(s1, w, e);
    var first := Delivers(s, w, what);
    PassesStop(s1, w);
    TakesIt(s2, w, e);
    InHandSame(s1, s2, w, e);
    hide Do, Enabled, WithEntry, InHand;
    Triple(s1, Worker(w, Enter), Worker(w, Test), Worker(w, SeeStop));
    Double(s2, Worker(w, Take), Worker(w, Check));
    SilentlyOn(s, first, s1, [Worker(w, Enter), Worker(w, Test), Worker(w, SeeStop)], s2);
    run := first + [Worker(w, Enter), Worker(w, Test), Worker(w, SeeStop)];
    SilentlyOn(s, run, s2, [Worker(w, Take), Worker(w, Check)], s3);
    run := run + [Worker(w, Take), Worker(w, Check)];
  }

  lemma SeesStop(s: State, w: nat)
    requires Ready(s, w) && s.stop
    ensures var a, b, c := Worker(w, Enter), Worker(w, Test), Worker(w, SeeStop);
            var s' := s.(workers := s.workers[w := Returned(None)]);
            && Three(s, a, b, c, s')
            && Enabled(s', Worker(w, Check)) && Do(s', Worker(w, Check)) == s.(workers := s.workers[w := Exited])
  {
  }

  /** With stop requested the worker returns. */
  lemma Returns(s: State, w: nat) returns (run: seq<Action>)
    requires Ready(s, w) && s.stop
    ensures Silently(s, run, s.(workers := s.workers[w := Exited]))
  {
    var s1 := s.(workers := s.workers[w := Returned(None)]);
    SeesStop(s, w);
    hide Do, Enabled;
    Triple(s, Worker(w, Enter), Worker(w, Test), Worker(w, SeeStop));
    RunOfOne(s1, Worker(w, Check));
    run := [Worker(w, Enter), Worker(w, Test), Worker(w, SeeStop)];
    SilentlyOn(s, run, s1, [Worker(w, Check)], s.(workers := s.workers[w := Exited]));
    run := run + [Worker(w, Check)];
  }

  /** stop is requested when the worker has made the last test that says no. */
  lemma StopsAt(s: State, polls: nat) returns (run: seq<Action>)
    requires !s.stop
    ensures Silently(s, run, s.(stop := polls == 0))
  {
    if polls == 0 {
      run := [RequestStop];
      RunOfOne(s, RequestStop);
    } else {
      run := [];
    }
  }

  /** The test at the foot of the outer loop, and stop itself if this was the last test that says no. */
  lemma OuterRuns(s: State, w: nat, polls: nat) returns (run: seq<Action>, s': State)
    requires w < |s.workers| == |s.late| && s.workers[w] == OuterTest && s.stop == (polls == 0)
    ensures Silently(s, run, s')
    ensures s' == s.(stop := polls <= 1, workers := s.workers[w := if polls == 0 then Exited else Outside])
  {
    var s1 := s.(workers := s.workers[w := if s.stop then Exited else Outside]);
    assert Do(s, Worker(w, Outer)) == s1;
    RunOfOne(s, Worker(w, Outer));
    run, s' := [Worker(w, Outer)], s1;
    if polls > 0 {
      var more := StopsAt(s1, polls - 1);
      SilentlyOn(s, run, s1, more, s1.(stop := polls == 1));
      run, s' := run + more, s1.(stop := polls == 1);
    }
  }

  // What a worker does to its sockets

  /** `shown[i]` is what the worker adds to the history of its `i`-th socket. */
  ghost predicate Adds(nets: seq<Option<Net>>, left: seq<Option<Net>>, shown: seq<seq<Sight>>) {
    && |shown| == |nets| == |left|
    && forall i :: 0 <= i < |nets| ==>
         if nets[i].None? then left[i].None? && shown[i] == []
         else left[i].Some? && OfLog(left[i].value.log) == OfLog(nets[i].value.log) + shown[i]
  }

  function Flat(shown: seq<seq<Sight>>): seq<Sight> {
    if shown == [] then [] else shown[0] + Flat(shown[1..])
  }

  function Nothing(n: nat): (shown: seq<seq<Sight>>)
    ensures |shown| == n && forall i :: 0 <= i < n ==> shown[i] == []
  {
    seq(n, _ => [])
  }

  lemma {:induction false} NothingIsFlat(n: nat)
    ensures Flat(Nothing(n)) == []
  {
    if n == 0 {
    } else {
      assert Nothing(n)[1..] == Nothing(n - 1);
      NothingIsFlat(n - 1);
    }
  }

  lemma AddsNothing(nets: seq<Option<Net>>)
    ensures Adds(nets, nets, Nothing(|nets|))
  {
  }

  lemma AddsOne(
      net: Option<Net>, left: Option<Net>, sights: seq<Sight>,
      nets: seq<Option<Net>>, lefts: seq<Option<Net>>, shown: seq<seq<Sight>>)
    requires Adds(nets, lefts, shown)
    requires if net.None? then left.None? && sights == []
             else left.Some? && OfLog(left.value.log) == OfLog(net.value.log) + sights
    ensures Adds([net] + nets, [left] + lefts, [sights] + shown) && Flat([sights] + shown) == sights + Flat(shown)
  {
    hide OfLog;
    assert ([sights] + shown)[1..] == shown;
    var ns, ls, ss := [net] + nets, [left] + lefts, [sights] + shown;
    forall i | 0 <= i < |ns|
      ensures if ns[i].None? then ls[i].None? && ss[i] == []
              else ls[i].Some? && OfLog(ls[i].value.log) == OfLog(ns[i].value.log) + ss[i]
    {
      if i > 0 {
        assert ns[i] == nets[i - 1] && ls[i] == lefts[i - 1] && ss[i] == shown[i - 1];
      }
    }
  }

  lemma ReachesSafe(s: State, run: seq<Action>, s': State)
    requires Safe(s) && Reaches(s, run, s')
    ensures Safe(s')
  {
    hide Safe, Possible, After;
    EveryRun(s, run);
  }

  /** What the others see when a session is over. */
  lemma AfterSession(s: State, w: nat, x: Sock, run: seq<Action>, p: Phase, stop: bool)
    requires Safe(s) && Settled(s, w, LoopTest(x)) && Goes(s, w, run, p, stop) && (p == Exited || p == OuterTest)
    ensures var s' := After(s, run); Safe(s') && Settled(s', w, p) && s'.stop == stop && s'.longest == s.longest
  {
    EveryRun(s, run);
    OwnRun(s, w, run);
    MutexOf(After(s, run));
    MutexOf(s);
    hide Possible, After, Safe;
    var s' := After(s, run);
  }

  lemma NobodySleeps(s: State, w: nat, p: Phase)
    requires w < |s.workers| && Parked !in s.workers && !p.Parked?
    ensures Parked !in s.workers[w := p]
  {
  }

  /** One socket: accepted, taken, served. */
  lemma OneSocket(s: State, w: nat, secure: bool, net: Net, polls: nat, site: Session.Site)
    returns (run: seq<Action>, s': State, sights: seq<Sight>)
    requires Safe(s) && Ready(s, w) && !s.stop && Fits(site, s.longest)
    ensures var left := Session.KeepAlive(net, polls, site);
            && Reaches(s, run, s') && OfRun(run) == sights && OfLog(left.net.log) == OfLog(net.log) + sights
            && Safe(s') && Settled(s', w, if left.error.Some? then Exited else OuterTest)
            && s'.stop == (left.polls == 0) && s'.longest == s.longest
  {
    hide Safe, Fits, Session.KeepAlive, OfLog, OfRun, Possible, After;
    var x, left := s.accepted, Session.KeepAlive(net, polls, site);
    var first := GetsEntry(s, w, Socket(secure));
    var s1 := InHand(WithEntry(s, Socket(secure)), w, Some(x));
    var second := StopsAt(s1, polls);
    var s2 := s1.(stop := polls == 0);
    SilentlyOn(s, first, s1, second, s2);
    ReachesSafe(s, first + second, s2);
    assert Settled(s2, w, LoopTest(x)) by { NobodySleeps(s, w, LoopTest(x)); }
    var last := SessionIsARun(s2, w, x, polls, site, net);
    AfterSession(s2, w, x, last, if left.error.Some? then Exited else OuterTest, left.polls == 0);
    s' := After(s2, last);
    Chained(s, first + second, s2, last, s');
    run, sights := first + second + last, OfRun(last);
  }

  lemma SilentlyReaches(s: State, run: seq<Action>, s': State)
    requires Silently(s, run, s')
    ensures Reaches(s, run, s') && OfRun(run) == []
  {
  }

  /** GetSocket returns null, which was pushed or because it has timed out. */
  lemma GetsNull(s: State, w: nat, pushed: bool) returns (run: seq<Action>, s': State)
    requires Ready(s, w) && !s.stop
    ensures Silently(s, run, s') && Settled(s', w, OuterTest) && !s'.stop && s'.longest == s.longest
  {
    NobodySleeps(s, w, OuterTest);
    if pushed {
      run := GetsEntry(s, w, Null);
      s' := InHand(WithEntry(s, Null), w, None);
    } else {
      run := GetsNothing(s, w);
      s' := s.(workers := s.workers[w := OuterTest]);
    }
  }

  /** And the worker tests stop twice. */
  lemma NoSocket(s: State, w: nat, pushed: bool, polls: nat) returns (run: seq<Action>, s': State)
    requires Safe(s) && Ready(s, w) && !s.stop && polls > 0
    ensures Silently(s, run, s') && Safe(s') && s'.stop == (polls <= 2) && s'.longest == s.longest
    ensures Settled(s', w, if polls == 1 then Exited else Outside)
  {
    hide Safe, Reaches, OfRun;
    var first, s1 := GetsNull(s, w, pushed);
    var s2 := s1.(stop := polls == 1);
    var second := StopsAt(s1, polls - 1);
    SilentlyOn(s, first, s1, second, s2);
    var last;
    last, s' := OuterRuns(s2, w, polls - 1);
    SilentlyOn(s, first + second, s2, last, s');
    run := first + second + last;
    SilentlyReaches(s, run, s');
    ReachesSafe(s, run, s');
    NobodySleeps(s2, w, if polls == 1 then Exited else Outside);
  }

  /** From one socket to the next, or to the end. */
  lemma FootOfLoop(s: State, w: nat, polls: nat) returns (run: seq<Action>, s': State)
    requires Safe(s) && Settled(s, w, OuterTest) && s.stop == (polls == 0)
    ensures Silently(s, run, s') && Safe(s') && s'.stop == (polls <= 1) && s'.longest == s.longest
    ensures Settled(s', w, if polls == 0 then Exited else Outside)
  {
    hide Safe, Reaches, OfRun;
    run, s' := OuterRuns(s, w, polls);
    SilentlyReaches(s, run, s');
    ReachesSafe(s, run, s');
    NobodySleeps(s, w, if polls == 0 then Exited else Outside);
  }

  lemma Continues(s: State, run: seq<Action>, s1: State, more: seq<Action>, s2: State, sights: seq<Sight>, later: seq<Sight>)
    requires Reaches(s, run, s1) && Reaches(s1, more, s2) && OfRun(run) == sights && OfRun(more) == later
    ensures Reaches(s, run + more, s2) && OfRun(run + more) == sights + later
  {
    hide Reaches, OfRun;
    Chained(s, run, s1, more, s2);
  }

  /** The turn of the outer loop that serves a socket. */
  lemma OneTurn(s: State, w: nat, secure: bool, net: Net, polls: nat, site: Session.Site)
    returns (run: seq<Action>, s': State, sights: seq<Sight>)
    requires Safe(s) && Ready(s, w) && !s.stop && Fits(site, s.longest)
    ensures var left := Session.KeepAlive(net, polls, site);
            && Reaches(s, run, s') && OfRun(run) == sights && OfLog(left.net.log) == OfLog(net.log) + sights
            && Safe(s') && Settled(s', w, if left.error.Some? || left.polls == 0 then Exited else Outside)
            && s'.stop == (if left.error.Some? then left.polls == 0 else left.polls <= 1) && s'.longest == s.longest
  {
    hide Safe, Fits, Session.KeepAlive, OfRun, Reaches, OfLog, Settled;
    var left := Session.KeepAlive(net, polls, site);
    run, s', sights := OneSocket(s, w, secure, net, polls, site);
    if left.error.None? {
      var foot, s2 := FootOfLoop(s', w, left.polls);
      SilentlyReaches(s', foot, s2);
      Continues(s, run, s', foot, s2, sights, []);
      assert sights + [] == sights;
      run, s' := run + foot, s2;
    }
  }

  /** The whole of Worker: whatever sockets it is to get, with TLS or without, whatever nulls, pushed or for a timeout, as
      the flags say, whatever the kernel answers and whenever stop comes, some run of the protocol gives it these sockets, shows what it does to them, one after the other, and ends with
      its exit. */
  lemma {:induction false} WorkerIsARun(
      s: State, w: nat, nets: seq<Option<Net>>, flags: seq<bool>, polls: nat, site: Session.Site)
    returns (run: seq<Action>, s': State, shown: seq<seq<Sight>>)
    requires Safe(s) && Ready(s, w) && s.stop == (polls == 0) && Fits(site, s.longest) && |flags| == |nets|
    ensures Reaches(s, run, s') && Safe(s') && Settled(s', w, Exited)
    ensures Adds(nets, Workers.Run(nets, polls, site).nets, shown) && OfRun(run) == Flat(shown)
    ensures s'.stop == (Workers.Run(nets, polls, site).polls == 0)
    decreases polls
  {
    hide Safe, Fits, Session.KeepAlive, OfRun, Reaches, Adds, Flat, OfLog, Silently;
    shown := Nothing(|nets|);
    AddsNothing(nets);
    NothingIsFlat(|nets|);
    if polls == 0 {
      run := Returns(s, w);
      s' := s.(workers := s.workers[w := Exited]);
      SilentlyReaches(s, run, s');
      ReachesSafe(s, run, s');
      NobodySleeps(s, w, Exited);
    } else if nets == [] || nets[0].None? {
      run, s' := NoSocket(s, w, nets != [] && flags[0], polls);
      SilentlyReaches(s, run, s');
      if polls > 1 {
        var rest := if nets == [] then [] else nets[1..];
        var restFlags := if nets == [] then [] else flags[1..];
        var more, s2, later := WorkerIsARun(s', w, rest, restFlags, polls - 2, site);
        Continues(s, run, s', more, s2, [], Flat(later));
        run, s' := run + more, s2;
        if nets == [] {
          shown := later;
        } else {
          AddsOne(None, None, [], rest, Workers.Run(rest, polls - 2, site).nets, later);
          assert nets == [nets[0]] + rest;
          shown := [[]] + later;
        }
      }
    } else {
      var net, rest := nets[0].value, nets[1..];
      var left := Session.KeepAlive(net, polls - 1, site);
      assert nets == [Some(net)] + rest;
      var sights;
      run, s', sights := OneTurn(s, w, flags[0], net, polls - 1, site);
      var lefts, later := rest, Nothing(|rest|);
      AddsNothing(rest);
      NothingIsFlat(|rest|);
      if left.error.None? && left.polls > 0 {
        var more, s2, l := WorkerIsARun(s', w, rest, flags[1..], left.polls - 1, site);
        lefts, later := Workers.Run(rest, left.polls - 1, site).nets, l;
        Continues(s, run, s', more, s2, sights, Flat(later));
        run, s' := run + more, s2;
      }
      assert sights + [] == sights;
      AddsOne(Some(net), Some(left.net), sights, rest, lefts, later);
      shown := [sights] + later;
    }
  }

  /** From the start, for any number of workers and any of them, once responses may be as long as the site's are. */
  lemma EveryWorkerIsARun(
      workers: nat, w: nat, nets: seq<Option<Net>>, flags: seq<bool>, polls: nat, site: Session.Site)
    returns (longest: nat, run: seq<Action>, s': State, shown: seq<seq<Sight>>)
    requires w < workers && polls > 0 && |flags| == |nets|
    ensures Reaches(Init(workers, longest), run, s') && Settled(s', w, Exited)
    ensures Adds(nets, Workers.Run(nets, polls, site).nets, shown) && OfRun(run) == Flat(shown)
  {
    longest := SomeLongest(site);
    InitIsSafe(workers, longest);
    assert Ready(Init(workers, longest), w);
    hide Safe, Fits, Reaches, Adds, Flat, OfRun, Init;
    run, s', shown := WorkerIsARun(Init(workers, longest), w, nets, flags, polls, site);
  }
}
