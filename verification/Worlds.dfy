/** The whole server with its bytes: any number of workers, any interleaving, any sockets. */
module Worlds {
  import opened Wrappers
  import opened Transport
  import opened Protocol
  import opened Ownership
  import opened WakeUps
  import opened Shutdown
  import opened Runs
  import opened Delivery
  import opened Simulation
  import opened Threads
  import Session

  /** How a session ended: after how many tests of stop, and by which exception, if any. */
  datatype Ended = Ended(polls: nat, error: Option<Exception>)

  /** The state of the protocol, the sockets that have been used, and of each worker where it is in its session and the
      tests of stop it has passed there. */
  datatype World = World(s: State, nets: map<Sock, Net>, places: seq<Place>, tests: seq<nat>, ended: map<Sock, Ended>)

  /** A socket nobody has used is as it was accepted. */
  function Now(c: World, x: Sock, start: Sock -> Net): Net {
    if x in c.nets then c.nets[x] else start(x)
  }

  predicate Placed(c: World, w: nat) {
    w < |c.s.workers| == |c.places| == |c.tests| && Matches(c.s.workers[w], c.places[w])
  }

  function NextOf(c: World, w: nat, start: Sock -> Net, site: Session.Site): Plan
    requires Placed(c, w) && InSession(c.s.workers[w])
  {
    Next(c.places[w], Now(c, c.s.workers[w].sock, start), c.s.stop, site)
  }

  /** A step of the protocol; in a session, the one that the code takes with these bytes. */
  predicate CanStep(c: World, a: Action, start: Sock -> Net, site: Session.Site) {
    && Enabled(c.s, a)
    && (a.Worker? ==> Placed(c, a.w))
    && (a.Worker? && InSession(c.s.workers[a.w]) ==> a.m == NextOf(c, a.w, start, site).move)
  }

  function Step(c: World, a: Action, start: Sock -> Net, site: Session.Site): World
    requires CanStep(c, a, start, site)
  {
    if !a.Worker? then c.(s := Do(c.s, a))
    else
      var w, p := a.w, c.s.workers[a.w];
      if InSession(p) then
        var plan := NextOf(c, w, start, site);
        World(Do(c.s, a), c.nets[p.sock := plan.net], c.places[w := plan.next],
              if plan.next.AtProbe? then c.tests[w := c.tests[w] + 1] else c.tests,
              if plan.next.Away? then c.ended[p.sock := Ended(c.tests[w], plan.error)] else c.ended)
      else if NextPhase(c.s, p, a.m).LoopTest? then
        c.(s := Do(c.s, a), places := c.places[w := AtTest], tests := c.tests[w := 0])
      else c.(s := Do(c.s, a))
  }

  // What the bytes have come to

  /** With `polls` more tests of stop to pass, what is left from `d` on leads where the whole session from `n0` would,
      of which `k` tests have been passed. */
  predicate LeadsOn(n0: Net, k: nat, d: Place, n: Net, polls: nat, site: Session.Site) {
    Sound(d) && Session.KeepAlive(n0, k + polls, site) == Rest(d, n, polls, site)
  }

  ghost predicate IsAtPlace(n0: Net, k: nat, d: Place, n: Net, site: Session.Site) {
    Sound(d) && forall polls: nat :: LeadsOn(n0, k, d, n, polls, site)
  }

  /** The session of worker `w` is under way. */
  ghost predicate Tracks(c: World, w: nat, start: Sock -> Net, site: Session.Site) {
    && Placed(c, w) && InSession(c.s.workers[w])
    && var x := c.s.workers[w].sock;
       x in c.s.served && IsAtPlace(start(x), c.tests[w], c.places[w], Now(c, x, start), site)
  }

  /** The session of `x` is over, and has left what the keep-alive loop leaves. */
  ghost predicate Over(c: World, x: Sock, start: Sock -> Net, site: Session.Site) {
    && x in c.ended && c.s.destroyed[x] > 0
    && Session.KeepAlive(start(x), c.ended[x].polls, site) == Session.Left(Now(c, x, start), 0, c.ended[x].error)
  }

  predicate Serves(c: World, w: nat, x: Sock) {
    w < |c.s.workers| && InSession(c.s.workers[w]) && c.s.workers[w].sock == x
  }

  ghost predicate Known(c: World, x: Sock) {
    x in c.ended || exists w :: Serves(c, w, x)
  }

  ghost predicate Faithful(c: World, start: Sock -> Net, site: Session.Site) {
    && |c.s.workers| == |c.places| == |c.tests|
    && (forall w :: 0 <= w < |c.s.workers| ==> Placed(c, w))
    && (forall w :: 0 <= w < |c.s.workers| && InSession(c.s.workers[w]) ==> Tracks(c, w, start, site))
    && (forall x :: x in c.nets ==> x in c.s.served)
    && (forall x :: x in c.ended ==> Over(c, x, start, site))
    && (forall x :: x in c.s.served ==> Known(c, x))
  }

  // The next step leaves the same

  lemma NextLeaves(d: Place, n: Net, stop: bool, polls: nat, site: Session.Site)
    requires Sound(d) && !d.Away?
    ensures var plan := Next(d, n, stop, site);
            && Sound(plan.next)
            && (plan.next.Away? ==> Rest(d, n, if d.AtTest? then 0 else polls, site) ==
                                    Session.Left(plan.net, if d.AtTest? then 0 else polls, plan.error))
            && (!plan.next.Away? ==> Rest(d, n, if d.AtTest? then polls + 1 else polls, site) ==
                                     Rest(plan.next, plan.net, polls, site))
            && (plan.next.AtProbe? <==> d.AtTest? && !stop) && (d.AtTest? && stop ==> plan.next.Away?)
  {
    hide Session.KeepAlive, RestOfRead, RestOfReply, RestOfWrite;
    match d {
      case AtTest => TestLeaves(n, polls, site);
      case AtProbe =>
      case InRead(got) => ReadLeaves(got, n, stop, polls, site);
      case AtReply(request) => ReplyLeaves(request, n, stop, polls, site);
      case InWrite(m, offset, file, keep) => WriteLeaves(m, offset, file, keep, n, stop, polls, site);
    }
  }

  // Sockets are not shared

  predicate HoldsSock(p: Phase, x: Sock) {
    (InSession(p) && p.sock == x) || p == Returned(Some(x))
  }

  lemma HolderIsOwner(p: Phase, x: Sock)
    ensures HoldsSock(p, x) ==> InWorker(p, x) == 1
  {
  }

  /** The worker that holds a socket is the only one, and the socket is not destroyed. */
  lemma OnlyHolder(s: State, w: nat, x: Sock)
    requires OneOwner(s) && w < |s.workers| && HoldsSock(s.workers[w], x)
    ensures s.destroyed[x] == 0
    ensures forall v :: 0 <= v < |s.workers| && v != w ==> !HoldsSock(s.workers[v], x)
  {
    hide InWorker, InStack, InMain, InWorkers, HoldsSock;
    HolderIsOwner(s.workers[w], x);
    HeldByWorker(s.workers, w, x);
    assert Places(s, x) <= 1;
    forall v | 0 <= v < |s.workers| && v != w ensures !HoldsSock(s.workers[v], x) {
      HolderIsOwner(s.workers[v], x);
      if v < w {
        TwoWorkers(s.workers, v, w, x);
      } else {
        TwoWorkers(s.workers, w, v, x);
      }
    }
  }

  /** What a step of the protocol does to the sockets of the others. */
  lemma StepSees(s: State, a: Action, x: Sock)
    requires Enabled(s, a)
    ensures var s' := Do(s, a);
            && |s'.workers| == |s.workers| && s'.destroyed[x] >= s.destroyed[x]
            && (forall v :: 0 <= v < |s.workers| && !(a.Worker? && a.w == v) ==>
                  s'.workers[v] == s.workers[v] || (s.workers[v].Parked? && s'.workers[v].Woken?))
    ensures a.Worker? ==>
              Do(s, a).workers == s.workers[a.w := NextPhase(s, s.workers[a.w], a.m)] && Do(s, a).stop == s.stop
  {
    StepCloses(s, a, x);
    hide CanMove, NextPhase, NextLock, Released, DestroyAll;
    if a.Close? {
      DestroyAllKeeps(s, s.stack);
    }
  }

  lemma StepServes(s: State, a: Action)
    requires Enabled(s, a)
    ensures var entered := if a.Worker? && a.m.Check? && !s.stop && s.workers[a.w].entry.Some?
                           then {s.workers[a.w].entry.value} else {};
            Do(s, a).served == s.served + entered
  {
    hide NextPhase, NextLock, Released, DestroyAll;
    if a.Close? {
      DestroyAllKeeps(s, s.stack);
    }
  }

  lemma StepDestroys(s: State, w: nat, m: Move, x: Sock)
    requires w < |s.workers| == |s.late| && CanMove(s, s.workers[w], m) && Released(s, s.workers[w], m) == Some(x)
    ensures DoMove(s, w, m).destroyed[x] > 0
  {
    hide CanMove, NextPhase, NextLock, Released;
  }

  // One step in a session

  lemma LeadsToNext(n0: Net, k: nat, d: Place, n: Net, stop: bool, polls: nat, site: Session.Site)
    requires Sound(d) && !d.Away? && !Next(d, n, stop, site).next.Away?
    requires LeadsOn(n0, k, d, n, if d.AtTest? then polls + 1 else polls, site)
    ensures var plan := Next(d, n, stop, site);
            LeadsOn(n0, if plan.next.AtProbe? then k + 1 else k, plan.next, plan.net, polls, site)
  {
    hide Next, Rest, Session.KeepAlive;
    NextLeaves(d, n, stop, polls, site);
    if d.AtTest? {
      assert k + (polls + 1) == k + 1 + polls;
    }
  }

  lemma LeadsToTheEnd(n0: Net, k: nat, d: Place, n: Net, stop: bool, site: Session.Site)
    requires Sound(d) && !d.Away? && Next(d, n, stop, site).next.Away? && LeadsOn(n0, k, d, n, 0, site)
    ensures var plan := Next(d, n, stop, site);
            Session.KeepAlive(n0, k, site) == Session.Left(plan.net, 0, plan.error)
  {
    hide Next, Rest, Session.KeepAlive;
    NextLeaves(d, n, stop, 0, site);
  }

  lemma PlaceGoesOn(n0: Net, k: nat, d: Place, n: Net, stop: bool, site: Session.Site)
    requires IsAtPlace(n0, k, d, n, site) && !d.Away?
    ensures var plan := Next(d, n, stop, site);
            if plan.next.Away? then Session.KeepAlive(n0, k, site) == Session.Left(plan.net, 0, plan.error)
            else IsAtPlace(n0, if plan.next.AtProbe? then k + 1 else k, plan.next, plan.net, site)
  {
    hide Next, Session.KeepAlive, LeadsOn;
    var plan := Next(d, n, stop, site);
    NextLeaves(d, n, stop, 0, site);
    if plan.next.Away? {
      LeadsToTheEnd(n0, k, d, n, stop, site);
    } else {
      var k' := if plan.next.AtProbe? then k + 1 else k;
      forall polls: nat ensures LeadsOn(n0, k', plan.next, plan.net, polls, site) {
        LeadsToNext(n0, k, d, n, stop, polls, site);
      }
    }
  }

  lemma AwayIsOut(p: Phase, d: Place)
    requires Matches(p, d)
    ensures d.Away? <==> !InSession(p)
  {
  }

  /** The worker that moves, after the move. */
  lemma SessionMove(c: World, a: Action, start: Sock -> Net, site: Session.Site)
    requires CanStep(c, a, start, site) && a.Worker? && InSession(c.s.workers[a.w])
    ensures var c', x, plan := Step(c, a, start, site), c.s.workers[a.w].sock, NextOf(c, a.w, start, site);
            && Placed(c', a.w) && c'.s.served == c.s.served && c'.s.stop == c.s.stop
            && (if plan.next.Away? then !InSession(c'.s.workers[a.w]) && c'.s.destroyed[x] > 0
                else InSession(c'.s.workers[a.w]) && c'.s.workers[a.w].sock == x)
  {
    var w, p := a.w, c.s.workers[a.w];
    var plan := NextOf(c, w, start, site);
    NextMatches(c.s, p, c.places[w], Now(c, p.sock, start), site);
    StepSees(c.s, a, p.sock);
    StepServes(c.s, a);
    if plan.next.Away? {
      StepDestroys(c.s, w, a.m, p.sock);
      AwayIsOut(NextPhase(c.s, p, a.m), plan.next);
    }
    hide Do, Next, NextPhase, Released;
  }

  /** The world after the move, field by field. */
  lemma SessionStepIs(c: World, a: Action, start: Sock -> Net, site: Session.Site)
    requires CanStep(c, a, start, site) && a.Worker? && InSession(c.s.workers[a.w])
    ensures var c', x, plan := Step(c, a, start, site), c.s.workers[a.w].sock, NextOf(c, a.w, start, site);
            && c'.s == Do(c.s, a) && c'.nets == c.nets[x := plan.net] && c'.places == c.places[a.w := plan.next]
            && c'.tests == (if plan.next.AtProbe? then c.tests[a.w := c.tests[a.w] + 1] else c.tests)
            && c'.ended == (if plan.next.Away? then c.ended[x := Ended(c.tests[a.w], plan.error)] else c.ended)
  {
    hide Do, Enabled, Next, Matches, CanMove, InSession;
  }

  lemma StillTracks(c: World, w: nat, k: nat, d: Place, n: Net, start: Sock -> Net, site: Session.Site)
    requires Placed(c, w) && InSession(c.s.workers[w]) && c.s.workers[w].sock in c.s.served
    requires c.tests[w] == k && c.places[w] == d && Now(c, c.s.workers[w].sock, start) == n
    requires IsAtPlace(start(c.s.workers[w].sock), k, d, n, site)
    ensures Tracks(c, w, start, site)
  {
    hide IsAtPlace, InSession, Matches, Rest;
  }

  lemma TracksMeans(c: World, w: nat, start: Sock -> Net, site: Session.Site)
    requires Tracks(c, w, start, site)
    ensures var x := c.s.workers[w].sock;
            x in c.s.served && !c.places[w].Away? && IsAtPlace(start(x), c.tests[w], c.places[w], Now(c, x, start), site)
  {
    AwayIsOut(c.s.workers[w], c.places[w]);
    hide IsAtPlace, InSession, Matches, Rest;
  }

  lemma SessionGoesOn(c: World, a: Action, start: Sock -> Net, site: Session.Site)
    requires CanStep(c, a, start, site) && a.Worker? && InSession(c.s.workers[a.w]) && Tracks(c, a.w, start, site)
    ensures var c', x := Step(c, a, start, site), c.s.workers[a.w].sock;
            && Placed(c', a.w)
            && (if InSession(c'.s.workers[a.w]) then c'.s.workers[a.w].sock == x && Tracks(c', a.w, start, site)
                else Over(c', x, start, site))
  {
    var w, x := a.w, c.s.workers[a.w].sock;
    var c', plan := Step(c, a, start, site), NextOf(c, a.w, start, site);
    var d, n, k := c.places[w], Now(c, x, start), c.tests[w];
    TracksMeans(c, w, start, site);
    hide Step, CanStep, Do, Enabled, Next, Matches, Session.KeepAlive, CanMove, InSession, IsAtPlace, Tracks, Rest, Sound;
    SessionMove(c, a, start, site);
    SessionStepIs(c, a, start, site);
    PlaceGoesOn(start(x), k, d, n, c.s.stop, site);
    if plan.next.Away? {
      assert c'.ended[x] == Ended(k, plan.error) && Now(c', x, start) == plan.net;
    } else {
      StillTracks(c', w, if plan.next.AtProbe? then k + 1 else k, plan.next, plan.net, start, site);
    }
  }

  // What stays as it is

  /** Worker `v` and its socket are as they were. */
  ghost predicate SameWorker(c: World, c': World, v: nat, start: Sock -> Net) {
    && v < |c.s.workers| == |c.places| == |c.tests| && v < |c'.s.workers| == |c'.places| == |c'.tests|
    && c'.s.workers[v] == c.s.workers[v] && c'.places[v] == c.places[v] && c'.tests[v] == c.tests[v]
    && c.s.served <= c'.s.served
    && (InSession(c.s.workers[v]) ==> Now(c', c.s.workers[v].sock, start) == Now(c, c.s.workers[v].sock, start))
  }

  lemma SameTracks(c: World, c': World, v: nat, start: Sock -> Net, site: Session.Site)
    requires SameWorker(c, c', v, start) && Placed(c, v)
    ensures Placed(c', v)
    ensures Tracks(c, v, start, site) ==> Tracks(c', v, start, site)
  {
    hide InSession, IsAtPlace, Matches, Rest;
  }

  lemma SameOver(c: World, c': World, x: Sock, start: Sock -> Net, site: Session.Site)
    requires Over(c, x, start, site) && x in c'.ended && c'.ended[x] == c.ended[x]
    requires Now(c', x, start) == Now(c, x, start) && c'.s.destroyed[x] >= c.s.destroyed[x]
    ensures Over(c', x, start, site)
  {
    hide Session.KeepAlive;
  }

  /** The world is faithful if each worker is placed, and tracks in its session; each ended session is over; and what has
      been used or served is known. */
  lemma IsFaithful(c: World, start: Sock -> Net, site: Session.Site)
    requires |c.s.workers| == |c.places| == |c.tests|
    requires forall w :: 0 <= w < |c.s.workers| ==>
               Placed(c, w) && (InSession(c.s.workers[w]) ==> Tracks(c, w, start, site))
    requires forall x :: x in c.ended ==> Over(c, x, start, site)
    requires forall x :: x in c.nets ==> x in c.s.served
    requires forall x :: x in c.s.served ==> Known(c, x)
    ensures Faithful(c, start, site)
  {
    hide Tracks, Over, Known, InSession, Matches;
  }

  /** Only worker `w` and its socket `x` have changed. */
  ghost predicate Moved(c: World, c': World, w: nat, x: Sock) {
    && w < |c.s.workers| == |c.places| == |c.tests| && |c'.s.workers| == |c'.places| == |c'.tests| == |c.s.workers|
    && c'.s.workers == c.s.workers[w := c'.s.workers[w]] && c'.places == c.places[w := c'.places[w]]
    && c'.tests == c.tests[w := c'.tests[w]]
    && x in c'.nets && c'.nets == c.nets[x := c'.nets[x]] && c'.s.served == c.s.served
    && (c'.ended == c.ended || (x in c'.ended && c'.ended == c.ended[x := c'.ended[x]]))
    && forall y: Sock :: c'.s.destroyed[y] >= c.s.destroyed[y]
  }

  lemma SessionMoved(c: World, a: Action, start: Sock -> Net, site: Session.Site)
    requires CanStep(c, a, start, site) && a.Worker? && InSession(c.s.workers[a.w])
    ensures Moved(c, Step(c, a, start, site), a.w, c.s.workers[a.w].sock)
  {
    var c' := Step(c, a, start, site);
    SessionMove(c, a, start, site);
    SessionStepIs(c, a, start, site);
    hide Step, Next, NextPhase, Matches, InSession;
    forall y: Sock ensures c'.s.destroyed[y] >= c.s.destroyed[y] {
      StepSees(c.s, a, y);
    }
    StepSees(c.s, a, 0);
    hide Do, Enabled;
  }

  lemma OtherWorkers(c: World, c': World, w: nat, x: Sock, start: Sock -> Net, site: Session.Site)
    requires Faithful(c, start, site) && Moved(c, c', w, x)
    requires forall v :: 0 <= v < |c.s.workers| && v != w ==> !HoldsSock(c.s.workers[v], x)
    ensures forall v :: 0 <= v < |c'.s.workers| && v != w ==>
              Placed(c', v) && (InSession(c'.s.workers[v]) ==> Tracks(c', v, start, site))
  {
    hide Tracks, Matches;
    forall v | 0 <= v < |c'.s.workers| && v != w
      ensures Placed(c', v) && (InSession(c'.s.workers[v]) ==> Tracks(c', v, start, site))
    {
      assert Placed(c, v) && !HoldsSock(c.s.workers[v], x);
      assert SameWorker(c, c', v, start);
      SameTracks(c, c', v, start, site);
    }
  }

  lemma OtherSockets(c: World, c': World, w: nat, x: Sock, start: Sock -> Net, site: Session.Site)
    requires Faithful(c, start, site) && Moved(c, c', w, x) && c.s.destroyed[x] == 0
    requires Serves(c, w, x) && (Serves(c', w, x) || Over(c', x, start, site))
    requires x in c'.ended ==> Over(c', x, start, site)
    ensures forall y :: y in c'.ended ==> Over(c', y, start, site)
    ensures forall y :: y in c'.s.served ==> Known(c', y)
  {
    hide Tracks, Matches, InSession, Session.KeepAlive, Placed;
    forall y | y in c'.ended ensures Over(c', y, start, site) {
      if y != x {
        assert y in c.ended && Over(c, y, start, site);
        SameOver(c, c', y, start, site);
      }
    }
    assert x in c.ended ==> Over(c, x, start, site);
    forall y | y in c'.s.served ensures Known(c', y) {
      assert Known(c, y);
      if y !in c.ended && y != x {
        var v :| Serves(c, v, y);
        assert v != w && Serves(c', v, y);
      }
    }
  }

  lemma SessionStays(c: World, a: Action, start: Sock -> Net, site: Session.Site)
    requires CanStep(c, a, start, site) && a.Worker? && InSession(c.s.workers[a.w])
    ensures var c' := Step(c, a, start, site); InSession(c'.s.workers[a.w]) ==> c'.ended == c.ended
  {
    SessionMove(c, a, start, site);
    SessionStepIs(c, a, start, site);
    hide Step, Do, Next, Matches, InSession;
  }

  lemma UsedIsServed(c: World, c': World, w: nat, x: Sock, start: Sock -> Net, site: Session.Site)
    requires Faithful(c, start, site) && Moved(c, c', w, x) && Serves(c, w, x)
    ensures forall y :: y in c'.nets ==> y in c'.s.served
  {
    assert Tracks(c, w, start, site);
  }

  /** A session moves on: nobody else is concerned. */
  lemma SessionFaithful(c: World, a: Action, start: Sock -> Net, site: Session.Site)
    requires OneOwner(c.s) && Faithful(c, start, site) && CanStep(c, a, start, site)
    requires a.Worker? && InSession(c.s.workers[a.w])
    ensures Faithful(Step(c, a, start, site), start, site)
  {
    var c', w, x := Step(c, a, start, site), a.w, c.s.workers[a.w].sock;
    assert Tracks(c, w, start, site);
    OnlyHolder(c.s, w, x);
    hide Step, CanStep, Do, Enabled, Tracks, Matches, OneOwner, Session.KeepAlive, Rest;
    SessionMoved(c, a, start, site);
    SessionGoesOn(c, a, start, site);
    OtherWorkers(c, c', w, x, start, site);
    assert x in c'.ended && InSession(c'.s.workers[w]) ==> x in c.ended by { SessionStays(c, a, start, site); }
    assert x in c.ended ==> Over(c, x, start, site);
    OtherSockets(c, c', w, x, start, site);
    UsedIsServed(c, c', w, x, start, site);
    IsFaithful(c', start, site);
  }

  // The other steps

  /** A worker enters a session with the socket that GetSocket returned, and in no other way. */
  lemma EntersWith(s: State, p: Phase, m: Move)
    requires CanMove(s, p, m) && !InSession(p)
    ensures InSession(NextPhase(s, p, m)) <==> NextPhase(s, p, m).LoopTest?
    ensures NextPhase(s, p, m).LoopTest? ==>
              m.Check? && !s.stop && p == Returned(Some(NextPhase(s, p, m).sock))
    ensures m.Check? && !s.stop && p.entry.Some? ==> NextPhase(s, p, m).LoopTest?
  {
  }

  lemma EntryStepIs(c: World, a: Action, start: Sock -> Net, site: Session.Site)
    requires CanStep(c, a, start, site) && a.Worker? && !InSession(c.s.workers[a.w])
    requires NextPhase(c.s, c.s.workers[a.w], a.m).LoopTest?
    ensures var c' := Step(c, a, start, site);
            && c'.s == Do(c.s, a) && c'.nets == c.nets && c'.ended == c.ended
            && c'.places == c.places[a.w := AtTest] && c'.tests == c.tests[a.w := 0]
            && c'.s.workers == c.s.workers[a.w := LoopTest(c'.s.workers[a.w].sock)] && c'.s.workers[a.w].LoopTest?
            && c.s.workers[a.w] == Returned(Some(c'.s.workers[a.w].sock))
            && c'.s.served == c.s.served + {c'.s.workers[a.w].sock}
  {
    EntersWith(c.s, c.s.workers[a.w], a.m);
    StepSees(c.s, a, 0);
    StepServes(c.s, a);
    hide Do, Enabled, CanMove, NextPhase, Matches;
  }

  /** Nobody has used a socket that has just been popped. */
  lemma PoppedIsNew(c: World, w: nat, x: Sock, start: Sock -> Net, site: Session.Site)
    requires OneOwner(c.s) && Faithful(c, start, site) && w < |c.s.workers| && c.s.workers[w] == Returned(Some(x))
    ensures x !in c.nets && x !in c.ended
  {
    OnlyHolder(c.s, w, x);
    hide Tracks, Matches, OneOwner, Session.KeepAlive, Placed;
    assert x in c.ended ==> Over(c, x, start, site);
    assert forall v: nat :: Serves(c, v, x) ==> HoldsSock(c.s.workers[v], x);
    assert forall v: nat :: !Serves(c, v, x);
    assert !Known(c, x);
  }

  lemma StartsAtTest(c: World, w: nat, x: Sock, start: Sock -> Net, site: Session.Site)
    requires w < |c.s.workers| == |c.places| == |c.tests| && c.s.workers[w] == LoopTest(x) && x in c.s.served
    requires c.places[w] == AtTest && c.tests[w] == 0 && x !in c.nets
    ensures Placed(c, w) && Tracks(c, w, start, site)
  {
    hide Session.KeepAlive;
    forall polls: nat ensures LeadsOn(start(x), 0, AtTest, start(x), polls, site) {
    }
  }

  lemma EntryFaithful(c: World, a: Action, start: Sock -> Net, site: Session.Site)
    requires OneOwner(c.s) && Faithful(c, start, site) && CanStep(c, a, start, site)
    requires a.Worker? && !InSession(c.s.workers[a.w]) && NextPhase(c.s, c.s.workers[a.w], a.m).LoopTest?
    ensures Faithful(Step(c, a, start, site), start, site)
  {
    var c', w := Step(c, a, start, site), a.w;
    EntryStepIs(c, a, start, site);
    var x := c'.s.workers[w].sock;
    PoppedIsNew(c, w, x, start, site);
    forall y: Sock ensures c'.s.destroyed[y] >= c.s.destroyed[y] {
      StepSees(c.s, a, y);
    }
    hide Step, CanStep, Do, Enabled, Next, NextPhase, OneOwner, Session.KeepAlive, Rest;
    StartsAtTest(c', w, x, start, site);
    hide Tracks, Matches;
    forall v | 0 <= v < |c'.s.workers| && v != w
      ensures Placed(c', v) && (InSession(c'.s.workers[v]) ==> Tracks(c', v, start, site))
    {
      assert Placed(c, v);
      assert SameWorker(c, c', v, start);
      SameTracks(c, c', v, start, site);
    }
    forall y | y in c'.ended ensures Over(c', y, start, site) {
      assert Over(c, y, start, site);
      SameOver(c, c', y, start, site);
    }
    forall y | y in c'.s.served ensures Known(c', y) {
      assert Serves(c', w, x);
      if y != x && y !in c.ended {
        assert Known(c, y);
        var v :| Serves(c, v, y);
        assert v != w && Serves(c', v, y);
      }
    }
    IsFaithful(c', start, site);
  }

  /** Everything else leaves sockets and sessions alone. */
  lemma OtherStepIs(c: World, a: Action, start: Sock -> Net, site: Session.Site)
    requires CanStep(c, a, start, site)
    requires a.Worker? ==> !InSession(c.s.workers[a.w]) && !NextPhase(c.s, c.s.workers[a.w], a.m).LoopTest?
    ensures var c' := Step(c, a, start, site);
            && c' == c.(s := Do(c.s, a)) && |c'.s.workers| == |c.s.workers| && c'.s.served == c.s.served
            && forall v :: 0 <= v < |c.s.workers| ==>
                 c'.s.workers[v] == c.s.workers[v] || (!InSession(c.s.workers[v]) && !InSession(c'.s.workers[v]))
  {
    StepSees(c.s, a, 0);
    StepServes(c.s, a);
    if a.Worker? {
      EntersWith(c.s, c.s.workers[a.w], a.m);
    }
    hide Do, Enabled, CanMove, NextPhase, Matches;
  }

  lemma StaysAway(p: Phase, p': Phase, d: Place)
    requires Matches(p, d) && !InSession(p) && !InSession(p')
    ensures Matches(p', d)
  {
  }

  lemma OtherFaithful(c: World, a: Action, start: Sock -> Net, site: Session.Site)
    requires Faithful(c, start, site) && CanStep(c, a, start, site)
    requires a.Worker? ==> !InSession(c.s.workers[a.w]) && !NextPhase(c.s, c.s.workers[a.w], a.m).LoopTest?
    ensures Faithful(Step(c, a, start, site), start, site)
  {
    var c' := Step(c, a, start, site);
    OtherStepIs(c, a, start, site);
    forall y: Sock ensures c'.s.destroyed[y] >= c.s.destroyed[y] {
      StepSees(c.s, a, y);
    }
    hide Step, CanStep, Do, Enabled, Next, NextPhase, Session.KeepAlive, Rest, Tracks, Matches;
    forall v | 0 <= v < |c'.s.workers|
      ensures Placed(c', v) && (InSession(c'.s.workers[v]) ==> Tracks(c', v, start, site))
    {
      assert Placed(c, v);
      if c'.s.workers[v] == c.s.workers[v] {
        assert SameWorker(c, c', v, start);
        SameTracks(c, c', v, start, site);
      } else {
        StaysAway(c.s.workers[v], c'.s.workers[v], c.places[v]);
      }
    }
    forall y | y in c'.ended ensures Over(c', y, start, site) {
      assert Over(c, y, start, site);
      SameOver(c, c', y, start, site);
    }
    forall y | y in c'.s.served ensures Known(c', y) {
      assert Known(c, y);
      if y !in c.ended {
        var v :| Serves(c, v, y);
        assert Serves(c', v, y);
      }
    }
    IsFaithful(c', start, site);
  }

  lemma StepIsFaithful(c: World, a: Action, start: Sock -> Net, site: Session.Site)
    requires OneOwner(c.s) && Faithful(c, start, site) && CanStep(c, a, start, site)
    ensures Faithful(Step(c, a, start, site), start, site)
  {
    hide Step, Faithful, OneOwner, Next, Do;
    if a.Worker? && InSession(c.s.workers[a.w]) {
      SessionFaithful(c, a, start, site);
    } else if a.Worker? && NextPhase(c.s, c.s.workers[a.w], a.m).LoopTest? {
      EntryFaithful(c, a, start, site);
    } else {
      OtherFaithful(c, a, start, site);
    }
  }

  // Runs

  ghost predicate Lasts(c: World, run: seq<Action>, start: Sock -> Net, site: Session.Site)
    decreases |run|
  {
    run == [] || (CanStep(c, run[0], start, site) && Lasts(Step(c, run[0], start, site), run[1..], start, site))
  }

  ghost function Reach(c: World, run: seq<Action>, start: Sock -> Net, site: Session.Site): World
    requires Lasts(c, run, start, site)
    decreases |run|
  {
    if run == [] then c else Reach(Step(c, run[0], start, site), run[1..], start, site)
  }

  /** Without its bytes, a run of the server is a run of the protocol, and every state of it is faithful. */
  lemma {:induction false} EveryWorld(c: World, run: seq<Action>, start: Sock -> Net, site: Session.Site)
    requires Safe(c.s) && Faithful(c, start, site) && Lasts(c, run, start, site)
    ensures var c' := Reach(c, run, start, site);
            && Possible(c.s, run) && After(c.s, run) == c'.s
            && Safe(c'.s) && Faithful(c', start, site)
    decreases |run|
  {
    hide Safe, Faithful, Next, OneOwner, Matches, InSession, NextPhase;
    if run == [] {
    } else {
      OwnersOf(c.s);
      StepIsFaithful(c, run[0], start, site);
      StepIsSafe(c.s, run[0]);
      hide Do, Enabled;
      EveryWorld(Step(c, run[0], start, site), run[1..], start, site);
    }
  }

  function InitWorld(workers: nat, longest: nat): World {
    World(Init(workers, longest), map[], seq(workers, _ => Away), seq(workers, _ => 0), map[])
  }

  lemma InitIsFaithful(workers: nat, longest: nat, start: Sock -> Net, site: Session.Site)
    ensures Faithful(InitWorld(workers, longest), start, site)
  {
  }

  lemma FromTheStart(workers: nat, longest: nat, run: seq<Action>, start: Sock -> Net, site: Session.Site)
    requires Lasts(InitWorld(workers, longest), run, start, site)
    ensures var c := Reach(InitWorld(workers, longest), run, start, site);
            && Possible(Init(workers, longest), run) && After(Init(workers, longest), run) == c.s
            && Safe(c.s) && Faithful(c, start, site)
  {
    hide Safe, Faithful, Lasts, Reach;
    InitIsSafe(workers, longest);
    InitIsFaithful(workers, longest, start, site);
    EveryWorld(InitWorld(workers, longest), run, start, site);
  }

  /** What has become of a socket: nobody has used it, or its session is under way, or it is over, and then it is what
      the keep-alive loop leaves, and its peer has what it was to be sent. */
  ghost predicate Accounted(c: World, x: Sock, start: Sock -> Net, site: Session.Site) {
    && (x !in c.s.served ==> Now(c, x, start) == start(x))
    && (x in c.s.served && x !in c.ended ==> exists w :: Serves(c, w, x))
    && (x in c.ended ==>
          var n, e := start(x), c.ended[x];
          var served := DeliverAll(Packets(n.arrivals, e.polls), n.answers, n.alive, site);
          && Session.KeepAlive(n, e.polls, site) == Session.Left(Now(c, x, start), 0, e.error)
          && Now(c, x, start).sent == n.sent + served.output && e.error == served.error)
  }

  lemma SocketIsAccounted(c: World, x: Sock, start: Sock -> Net, site: Session.Site)
    requires Faithful(c, start, site)
    ensures Accounted(c, x, start, site)
  {
    hide Session.KeepAlive, DeliverAll, Packets, Tracks, Matches;
    assert x in c.s.served ==> Known(c, x);
    if x in c.ended {
      assert Over(c, x, start, site);
      SessionDelivers(start(x), c.ended[x].polls, site);
    }
  }

  /** For any number of workers, any interleaving of their steps with main's and with each other's, any sockets, plain,
      TLS or null, any behaviour of the kernel on each, and any moment of stop: every socket is accounted for, and when
      main has left its block no session is under way. */
  lemma EverySocket(workers: nat, longest: nat, run: seq<Action>, start: Sock -> Net, site: Session.Site, x: Sock)
    requires Lasts(InitWorld(workers, longest), run, start, site)
    ensures var c := Reach(InitWorld(workers, longest), run, start, site);
            && Accounted(c, x, start, site)
            && (c.s.main == Closed ==> x in c.ended || Now(c, x, start) == start(x))
  {
    FromTheStart(workers, longest, run, start, site);
    var c := Reach(InitWorld(workers, longest), run, start, site);
    SocketIsAccounted(c, x, start, site);
    MutexOf(c.s);
    hide Safe, Faithful, Lasts, Reach, Mutex, Session.KeepAlive, DeliverAll, Packets;
  }

  // The code never has to wait for the protocol

  ghost predicate Short(c: World) {
    forall w :: 0 <= w < |c.places| && c.places[w].InWrite? ==> |c.places[w].message| <= c.s.longest
  }

  lemma StepKeepsLongest(s: State, a: Action)
    requires Enabled(s, a)
    ensures Do(s, a).longest == s.longest && |Do(s, a).late| == |s.late|
  {
    hide CanMove, NextPhase, NextLock, Released, DestroyAll;
    if a.Close? {
      DestroyAllKeeps(s, s.stack);
    }
  }

  lemma NextStep(c: World, w: nat, start: Sock -> Net, site: Session.Site)
    requires Placed(c, w) && InSession(c.s.workers[w]) && |c.s.late| == |c.s.workers|
    requires Short(c) && Fits(site, c.s.longest)
    ensures var a := Worker(w, NextOf(c, w, start, site).move);
            CanStep(c, a, start, site) && Short(Step(c, a, start, site))
  {
    var p := c.s.workers[w];
    NextIsAMove(c.s, p, c.places[w], Now(c, p.sock, start), site);
    var a := Worker(w, NextOf(c, w, start, site).move);
    StepKeepsLongest(c.s, a);
    SessionStepIs(c, a, start, site);
    hide Do, Next, Matches, NextPhase, Fits, CanMove;
  }

  lemma StepIsShort(c: World, a: Action, start: Sock -> Net, site: Session.Site)
    requires CanStep(c, a, start, site) && Short(c) && Fits(site, c.s.longest) && |c.s.late| == |c.s.workers|
    ensures Short(Step(c, a, start, site)) && Step(c, a, start, site).s.longest == c.s.longest
  {
    StepKeepsLongest(c.s, a);
    if a.Worker? && InSession(c.s.workers[a.w]) {
      NextStep(c, a.w, start, site);
    }
    hide Do, Enabled, Next, Matches, NextPhase, Fits, InSession;
  }

  lemma LateIsThere(s: State)
    requires Mutex(s)
    ensures |s.late| == |s.workers|
  {
  }

  lemma {:induction false} EveryWorldIsShort(c: World, run: seq<Action>, start: Sock -> Net, site: Session.Site)
    requires Lasts(c, run, start, site) && Short(c) && Fits(site, c.s.longest) && Safe(c.s) && Faithful(c, start, site)
    ensures Short(Reach(c, run, start, site)) && Reach(c, run, start, site).s.longest == c.s.longest
    decreases |run|
  {
    hide Safe, Faithful, Short, Fits, Next, Matches, InSession, NextPhase, OneOwner, Do, Enabled;
    if run == [] {
    } else {
      MutexOf(c.s);
      LateIsThere(c.s);
      OwnersOf(c.s);
      StepIsFaithful(c, run[0], start, site);
      StepIsSafe(c.s, run[0]);
      StepIsShort(c, run[0], start, site);
      EveryWorldIsShort(Step(c, run[0], start, site), run[1..], start, site);
    }
  }

  /** In a session the next step of the code is always one that the protocol allows: in every reachable state, for any
      site, once responses may be as long as the site's are. */
  lemma SessionsGoOn(workers: nat, longest: nat, run: seq<Action>, w: nat, start: Sock -> Net, site: Session.Site)
    requires Lasts(InitWorld(workers, longest), run, start, site) && Fits(site, longest)
    requires var c := Reach(InitWorld(workers, longest), run, start, site);
             w < |c.s.workers| && InSession(c.s.workers[w])
    ensures var c := Reach(InitWorld(workers, longest), run, start, site);
            Placed(c, w) && CanStep(c, Worker(w, NextOf(c, w, start, site).move), start, site)
  {
    hide Safe, Lasts, Reach, Fits, Next, Matches, InSession, Tracks, Over, Known;
    FromTheStart(workers, longest, run, start, site);
    InitIsSafe(workers, longest);
    InitIsFaithful(workers, longest, start, site);
    EveryWorldIsShort(InitWorld(workers, longest), run, start, site);
    var c := Reach(InitWorld(workers, longest), run, start, site);
    MutexOf(c.s);
    LateIsThere(c.s);
    NextStep(c, w, start, site);
  }
}
