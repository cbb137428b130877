/** The keep-alive loop, byte by byte, takes the steps that the protocol allows a worker. */
module Simulation {
  import opened Wrappers
  import opened Text
  import opened HttpPacket
  import opened PacketParse
  import opened HttpMessages
  import opened Transport
  import opened Protocol
  import opened Ownership
  import opened Shutdown
  import opened Runs
  import Session

  // What both levels show

  datatype Sight = Alive(yes: bool) | Bytes(r: int) | Packet | Tried(length: nat) | Taken(r: int)

  function OfEvent(e: Event): seq<Sight> {
    match e
    case Probed(alive) => [Alive(alive)]
    case Received(r) => [Bytes(r)]
    case Got(_) => [Packet]
    case Attempt(m) => [Tried(|m|)]
    case Sent(_, r) => if r > 0 then [Taken(r)] else []
    case _ => []
  }

  function OfAction(a: Action): seq<Sight> {
    if !a.Worker? then []
    else
      match a.m
      case Probe(alive) => [Alive(alive)]
      case Receive(r) => [Bytes(r)]
      case Complete => [Packet]
      case Decide(c) => if c.Respond? then [Tried(c.length)] else []
      case EndWrite(e) => if e.Retry? then [Tried(e.length)] else []
      case SendSome(r) => [Taken(r)]
      case _ => []
  }

  function OfLog(log: seq<Event>): seq<Sight> {
    if log == [] then [] else OfLog(log[..|log| - 1]) + OfEvent(log[|log| - 1])
  }

  function OfRun(run: seq<Action>): seq<Sight> {
    if run == [] then [] else OfAction(run[0]) + OfRun(run[1..])
  }

  lemma OfLogSnoc(log: seq<Event>, e: Event)
    ensures OfLog(log + [e]) == OfLog(log) + OfEvent(e)
  {
    assert (log + [e])[..|log|] == log;
  }

  // Runs of one worker

  ghost predicate IsAt(s: State, w: nat, p: Phase, stop: bool, longest: nat) {
    w < |s.workers| == |s.late| && s.workers[w] == p && s.stop == stop && s.longest == longest
  }

  predicate Own(a: Action, w: nat) {
    a.RequestStop? || (a.Worker? && a.w == w)
  }

  /** By steps of worker `w` and, at most, the request of stop. */
  ghost predicate Goes(s: State, w: nat, run: seq<Action>, p: Phase, stop: bool) {
    && Possible(s, run) && IsAt(After(s, run), w, p, stop, s.longest)
    && forall a :: a in run ==> Own(a, w)
  }

  lemma Stays(s: State, w: nat)
    requires w < |s.workers| == |s.late|
    ensures Goes(s, w, [], s.workers[w], s.stop)
  {
  }

  lemma ActsOn(s: State, w: nat, a: Action)
    requires w < |s.workers| == |s.late| && Enabled(s, a) && Own(a, w)
    ensures var p := if a.Worker? then NextPhase(s, s.workers[w], a.m) else s.workers[w];
            IsAt(Do(s, a), w, p, s.stop || a.RequestStop?, s.longest)
  {
    hide CanMove, NextPhase, NextLock, Released;
  }

  lemma RunOfOne(s: State, a: Action)
    requires Enabled(s, a)
    ensures Possible(s, [a]) && After(s, [a]) == Do(s, a) && OfRun([a]) == OfAction(a)
  {
    hide Enabled, Do, OfAction;
    var run := [a];
    assert run[1..] == [] && Possible(Do(s, a), run[1..]);
    assert OfAction(a) + [] == OfAction(a);
  }

  lemma GoesOnce(s: State, w: nat, a: Action)
    requires w < |s.workers| == |s.late| && Own(a, w) && Enabled(s, a)
    ensures var p := if a.Worker? then NextPhase(s, s.workers[w], a.m) else s.workers[w];
            Goes(s, w, [a], p, s.stop || a.RequestStop?) && OfRun([a]) == OfAction(a)
  {
    ActsOn(s, w, a);
    RunOfOne(s, a);
    hide Enabled, Do, OfAction, NextPhase, Possible, After;
  }

  /** A run of at least one step, from its second state. */
  lemma GoesOn(s: State, w: nat, run: seq<Action>, p: Phase, stop: bool)
    requires w < |s.workers| == |s.late| && run != [] && Enabled(s, run[0]) && Own(run[0], w)
    requires Goes(Do(s, run[0]), w, run[1..], p, stop) && Do(s, run[0]).longest == s.longest
    ensures Goes(s, w, run, p, stop)
  {
    hide Enabled, Do;
  }

  lemma GoesNowhere(s: State, w: nat, p: Phase, stop: bool)
    requires Goes(s, w, [], p, stop)
    ensures After(s, []) == s && p == s.workers[w] && stop == s.stop
  {
  }

  lemma GoesFirst(s: State, w: nat, run: seq<Action>, p: Phase, stop: bool)
    requires w < |s.workers| == |s.late| && run != [] && Goes(s, w, run, p, stop)
    ensures Enabled(s, run[0]) && Own(run[0], w)
    ensures var s' := Do(s, run[0]);
            && w < |s'.workers| == |s'.late| && s'.longest == s.longest && Goes(s', w, run[1..], p, stop)
            && After(s, run) == After(s', run[1..])
  {
    assert run[0] in run && forall b :: b in run[1..] ==> b in run;
    ActsOn(s, w, run[0]);
    hide Enabled, Do, NextPhase;
  }

  /** One more step after a run. */
  lemma {:induction false} Then(s: State, w: nat, run: seq<Action>, p: Phase, stop: bool, a: Action, p': Phase)
    requires w < |s.workers| == |s.late| && Goes(s, w, run, p, stop)
    requires Own(a, w) && Enabled(After(s, run), a)
    requires p' == if a.Worker? then NextPhase(After(s, run), p, a.m) else p
    ensures Goes(s, w, run + [a], p', stop || a.RequestStop?)
    ensures OfRun(run + [a]) == OfRun(run) + OfAction(a)
    decreases |run|
  {
    hide Enabled, Do, OfAction, NextPhase, Possible, After, Goes;
    if run == [] {
      GoesNowhere(s, w, p, stop);
      GoesOnce(s, w, a);
      assert run + [a] == [a];
    } else {
      GoesFirst(s, w, run, p, stop);
      Then(Do(s, run[0]), w, run[1..], p, stop, a, p');
      assert (run + [a])[1..] == run[1..] + [a];
      GoesOn(s, w, run + [a], p', stop || a.RequestStop?);
    }
  }

  /** Then, for the moves of the keep-alive loop, which look at stop only. */
  lemma ThenMove(
      s: State, w: nat, run: seq<Action>, p: Phase, stop: bool, m: Move) returns (run': seq<Action>, p': Phase)
    requires w < |s.workers| == |s.late| && Goes(s, w, run, p, stop)
    requires m.Loop? || m.Probe? || m.Receive? || m.Complete? || m.Decide? || m.SendSome? || m.EndWrite?
    requires CanMove(After(s, run), p, m)
    ensures p' == NextPhase(After(s, run), p, m)
    ensures Goes(s, w, run', p', stop) && OfRun(run') == OfRun(run) + OfAction(Worker(w, m))
  {
    run', p' := run + [Worker(w, m)], NextPhase(After(s, run), p, m);
    hide NextPhase, CanMove, OfAction, Do, After, Possible;
    Then(s, w, run, p, stop, Worker(w, m), p');
  }

  /** The history of the socket, after `start`, shows what the run shows. */
  predicate Follows(n: Net, start: seq<Sight>, run: seq<Action>) {
    OfLog(n.log) == start + OfRun(run)
  }

  lemma FollowsBoth(n: Net, start: seq<Sight>, run: seq<Action>, e: Event, n': Net, run': seq<Action>, a: Action)
    requires Follows(n, start, run) && n'.log == n.log + [e] && OfRun(run') == OfRun(run) + OfAction(a)
    requires OfEvent(e) == OfAction(a)
    ensures Follows(n', start, run')
  {
    OfLogSnoc(n.log, e);
  }

  lemma FollowsQuietly(n: Net, start: seq<Sight>, run: seq<Action>, e: Event)
    requires Follows(n, start, run) && OfEvent(e) == []
    ensures Follows(n.Log(e), start, run)
  {
    OfLogSnoc(n.log, e);
  }

  // Read and Write

  lemma {:induction false} ReadRuns(
      s: State, w: nat, run: seq<Action>, x: Sock, stop: bool, got: string, n: Net, start: seq<Sight>)
    returns (run': seq<Action>)
    requires |got| <= BUFFER_SIZE && w < |s.workers| == |s.late|
    requires Goes(s, w, run, Reading(x, |got|), stop) && Follows(n, start, run)
    ensures var (n', r, _) := ReadFrom(got, n);
            Goes(s, w, run', if r > 0 then Reading(x, r) else OuterTest, stop) && Follows(n', start, run')
    decreases BUFFER_SIZE - |got|
  {
    hide Goes, At, Follows;
    run' := run;
    if !EndsPacket(got) {
      var (n', r, bytes) := n.Recv(BUFFER_SIZE - |got|);
      var p';
      run', p' := ThenMove(s, w, run, Reading(x, |got|), stop, Receive(r));
      FollowsBoth(n, start, run, Received(r), n', run', Worker(w, Receive(r)));
      if r > 0 {
        run' := ReadRuns(s, w, run', x, stop, got + bytes, n', start);
      }
    }
  }

  lemma FollowsSame(n: Net, n': Net, start: seq<Sight>, run: seq<Action>)
    requires Follows(n, start, run) && n'.log == n.log
    ensures Follows(n', start, run)
  {
  }

  lemma SendRuns(
      s: State, w: nat, run: seq<Action>, x: Sock, left: nat, stop: bool, fallback: bool, length: nat,
      size: int, n: Net, n': Net, start: seq<Sight>)
    returns (run': seq<Action>)
    requires w < |s.workers| == |s.late| && Goes(s, w, run, Writing(x, left, fallback), stop) && Follows(n, start, run)
    requires size <= left && n'.log == n.log + [Sent(length, size)]
    ensures Goes(s, w, run', Writing(x, if size > 0 then left - size else left, fallback), stop)
    ensures Follows(n', start, run')
  {
    hide Goes, Follows;
    run' := run;
    if size <= 0 {
      FollowsQuietly(n, start, run, Sent(length, size));
      FollowsSame(n.Log(Sent(length, size)), n', start, run);
    } else {
      var p';
      run', p' := ThenMove(s, w, run, Writing(x, left, fallback), stop, SendSome(size));
      FollowsBoth(n, start, run, Sent(length, size), n', run', Worker(w, SendSome(size)));
    }
  }

  lemma {:induction false} WriteRuns(
      s: State, w: nat, run: seq<Action>, x: Sock, stop: bool, fallback: bool, data: string, offset: nat,
      n: Net, start: seq<Sight>)
    returns (run': seq<Action>, left: nat)
    requires offset <= |data| && w < |s.workers| == |s.late|
    requires Goes(s, w, run, Writing(x, |data| - offset, fallback), stop) && Follows(n, start, run)
    ensures Goes(s, w, run', Writing(x, left, fallback), stop) && Follows(WriteFrom(data, offset, n).0, start, run')
    decreases |data| - offset
  {
    hide Goes, Follows, CanMove, NextPhase;
    left := |data| - offset;
    var (n', size) := n.Send(data[offset..]);
    run' := SendRuns(s, w, run, x, left, stop, fallback, left, size, n, n', start);
    if size > 0 {
      left := left - size;
      if offset < |data| {
        run', left := WriteRuns(s, w, run', x, stop, fallback, data, offset + size, n', start);
      }
    }
  }

  /** A whole WritePacket, from the move that starts it. */
  lemma PacketRuns(
      s: State, w: nat, run: seq<Action>, p: Phase, stop: bool, m: Move, message: string, fallback: bool,
      x: Sock, n: Net, start: seq<Sight>)
    returns (run': seq<Action>, left: nat)
    requires w < |s.workers| == |s.late| && Goes(s, w, run, p, stop) && Follows(n, start, run)
    requires m == Decide(Respond(|message|, fallback)) || (m == EndWrite(Retry(|message|)) && !fallback)
    requires CanMove(After(s, run), p, m) && NextPhase(After(s, run), p, m) == Writing(x, |message|, fallback)
    ensures Goes(s, w, run', Writing(x, left, fallback), stop)
    ensures Follows(Session.WritePacket(n, message).0, start, run')
  {
    hide Goes, Follows, CanMove, NextPhase, After, Possible, WriteFrom;
    var p';
    run', p' := ThenMove(s, w, run, p, stop, m);
    var n1 := n.Log(Attempt(message));
    FollowsBoth(n, start, run, Attempt(message), n1, run', Worker(w, m));
    run', left := WriteRuns(s, w, run', x, stop, fallback, message, 0, n1, start);
    var (n2, r) := WriteFrom(message, 0, n1);
    FollowsQuietly(n2, start, run', Wrote(r));
  }

  // One request

  /** No response is longer. */
  ghost predicate Fits(site: Session.Site, longest: nat) {
    && |Create404(false)| <= longest
    && forall path: string ::
         match Session.ReplyTo(path, site)
         case Raise(_) => true
         case Refuse(m) => |m| <= longest
         case Serve(m) => |m| <= longest
  }

  lemma {:induction false} LongestFile(files: map<string, string>) returns (n: nat)
    ensures forall path :: path in files ==> |files[path]| <= n
    decreases |files|
  {
    n := 0;
    if path :| path in files {
      var others := files - {path};
      assert others.Keys == files.Keys - {path};
      assert |others| == |others.Keys| && |files| == |files.Keys|;
      var m := LongestFile(others);
      n := if |files[path]| <= m then m else |files[path]|;
      forall other | other in files ensures |files[other]| <= n {
        if other != path {
          assert other in others && others[other] == files[other];
        }
      }
    }
  }

  lemma {:induction false} DecimalIsShort(n: nat)
    ensures |Decimal(n)| <= n + 1
  {
    if n < 10 {
    } else {
      DecimalIsShort(n / 10);
    }
  }

  lemma TypeIsShort(fileName: string)
    requires GetContentType(fileName).Ok?
    ensures |GetContentType(fileName).value| <= 30
  {
  }

  lemma PageIsShort()
    ensures |Create404(false)| <= 500
  {
    DecimalIsShort(|NOT_FOUND|);
    assert |NOT_FOUND| <= 150;
  }

  lemma ResponsesAreShort(body: string, contentType: string)
    ensures |Create200(body, contentType, true)| <= 2 * |body| + |contentType| + 200
    ensures |Create400(false)| <= 200 && |Create404(false)| <= 500
  {
    DecimalIsShort(|body|);
    PageIsShort();
  }

  /** Every site has one. */
  lemma SomeLongest(site: Session.Site) returns (longest: nat)
    ensures Fits(site, longest)
  {
    hide GetContentType, Create200, Create400, Create404, Session.CString;
    var n := LongestFile(site.files);
    longest := 2 * n + 500;
    ResponsesAreShort("", "");
    forall path: string
      ensures match Session.ReplyTo(path, site)
              case Raise(_) => true
              case Refuse(m) => |m| <= longest
              case Serve(m) => |m| <= longest
    {
      var fullPath := site.directory + path;
      if GetContentType(fullPath).Ok? && Session.CString(fullPath) in site.files {
        TypeIsShort(fullPath);
        ResponsesAreShort(site.files[Session.CString(fullPath)], GetContentType(fullPath).value);
      }
    }
  }

  /** Where the loop is once a request is dealt with. */
  function NextOf(x: Sock, again: Outcome<bool>): Phase {
    match again
    case Thrown(_) => Exited
    case Ok(b) => if b then LoopTest(x) else OuterTest
  }

  lemma LongestStays(s: State, w: nat, run: seq<Action>, p: Phase, stop: bool)
    requires Goes(s, w, run, p, stop)
    ensures After(s, run).longest == s.longest
  {
  }

  lemma FollowsRun(n: Net, start: seq<Sight>, run: seq<Action>, run': seq<Action>)
    requires Follows(n, start, run) && OfRun(run') == OfRun(run) + []
    ensures Follows(n, start, run')
  {
  }

  lemma Ends(
      s: State, w: nat, run: seq<Action>, x: Sock, left: nat, fallback: bool, stop: bool, end: End, n: Net,
      start: seq<Sight>)
    returns (run': seq<Action>)
    requires w < |s.workers| == |s.late| && Goes(s, w, run, Writing(x, left, fallback), stop) && Follows(n, start, run)
    requires !end.Retry?
    ensures Goes(s, w, run', if end.Again? then LoopTest(x) else OuterTest, stop) && Follows(n, start, run')
  {
    hide Goes, Follows;
    var p';
    run', p' := ThenMove(s, w, run, Writing(x, left, fallback), stop, EndWrite(end));
    FollowsRun(n, start, run, run');
  }

  lemma ReplyRuns(
      s: State, w: nat, run: seq<Action>, x: Sock, stop: bool, path: string, keep: bool, site: Session.Site,
      n: Net, start: seq<Sight>)
    returns (run': seq<Action>)
    requires w < |s.workers| == |s.late| && Goes(s, w, run, Deciding(x), stop) && Follows(n, start, run)
    requires Fits(site, s.longest) && After(s, run).longest == s.longest
    ensures var (n', processed) := Session.ProcessReply(n, Session.ReplyTo(path, site));
            var again := match processed case Thrown(e) => Thrown(e) case Ok(b) => Ok(b && keep);
            Goes(s, w, run', NextOf(x, again), stop) && Follows(n', start, run')
  {
    hide Goes, Follows, Session.ReplyTo, Session.WritePacket, After, Possible, Create404;
    var p', left;
    match Session.ReplyTo(path, site) {
      case Raise(_) =>
        run', p' := ThenMove(s, w, run, Deciding(x), stop, Decide(Raise));
        FollowsRun(n, start, run, run');
      case Refuse(m) =>
        run', left := PacketRuns(s, w, run, Deciding(x), stop, Decide(Respond(|m|, false)), m, false, x, n, start);
        run' := Ends(s, w, run', x, left, false, stop, Drop, Session.WritePacket(n, m).0, start);
      case Serve(m) =>
        run', left := PacketRuns(s, w, run, Deciding(x), stop, Decide(Respond(|m|, true)), m, true, x, n, start);
        var (n', result) := Session.WritePacket(n, m);
        if result > 0 {
          run' := Ends(s, w, run', x, left, true, stop, if keep then Again else Drop, n', start);
        } else {
          var page := Create404(false);
          LongestStays(s, w, run', Writing(x, left, true), stop);
          run', left := PacketRuns(
            s, w, run', Writing(x, left, true), stop, EndWrite(Retry(|page|)), page, false, x, n', start);
          run' := Ends(s, w, run', x, left, false, stop, Drop, Session.WritePacket(n', page).0, start);
        }
    }
  }

  lemma RespondRuns(
      s: State, w: nat, run: seq<Action>, x: Sock, stop: bool, request: string, site: Session.Site, n: Net,
      start: seq<Sight>)
    returns (run': seq<Action>)
    requires w < |s.workers| == |s.late| && Goes(s, w, run, Deciding(x), stop) && Follows(n, start, run)
    requires Fits(site, s.longest)
    ensures var (n', again) := Session.Respond(n, request, site);
            Goes(s, w, run', NextOf(x, again), stop) && Follows(n', start, run')
  {
    hide Goes, Follows, Session.ReplyTo, Session.WritePacket;
    LongestStays(s, w, run, Deciding(x), stop);
    var p';
    match ParseRequest(request) {
      case Thrown(_) =>
        run', p' := ThenMove(s, w, run, Deciding(x), stop, Decide(Raise));
        FollowsRun(n, start, run, run');
      case Ok(q) =>
        if !q.IsGet() {
          run', p' := ThenMove(s, w, run, Deciding(x), stop, Decide(Silent(q.KeepAlive())));
          FollowsRun(n, start, run, run');
        } else {
          run' := ReplyRuns(s, w, run, x, stop, q.path, q.KeepAlive(), site, n, start);
        }
    }
  }

  // The keep-alive loop

  /** The test of stop at the head of the loop, and stop itself if this was the last test it passes. */
  lemma TestRuns(
      s: State, w: nat, run: seq<Action>, x: Sock, polls: nat, n: Net,
      start: seq<Sight>) returns (run': seq<Action>)
    requires w < |s.workers| == |s.late| && Goes(s, w, run, LoopTest(x), polls == 0) && Follows(n, start, run)
    ensures Goes(s, w, run', if polls == 0 then OuterTest else Probing(x), polls <= 1) && Follows(n, start, run')
  {
    var s1 := After(s, run);
    assert s1.stop == (polls == 0);
    hide Goes, Follows, After;
    var p';
    run', p' := ThenMove(s, w, run, LoopTest(x), polls == 0, Loop);
    FollowsRun(n, start, run, run');
    if polls == 1 {
      Then(s, w, run', Probing(x), false, RequestStop, Probing(x));
      FollowsRun(n, start, run', run' + [RequestStop]);
      run' := run' + [RequestStop];
    }
  }

  lemma ProbeRuns(
      s: State, w: nat, run: seq<Action>, x: Sock, stop: bool, n: Net,
      start: seq<Sight>) returns (run': seq<Action>)
    requires w < |s.workers| == |s.late| && Goes(s, w, run, Probing(x), stop) && Follows(n, start, run)
    ensures var (n', alive) := n.IsAlive();
            Goes(s, w, run', if alive then Reading(x, 0) else OuterTest, stop) && Follows(n', start, run')
  {
    hide Goes, Follows;
    var (n', alive) := n.IsAlive();
    var p';
    run', p' := ThenMove(s, w, run, Probing(x), stop, Probe(alive));
    FollowsBoth(n, start, run, Probed(alive), n', run', Worker(w, Probe(alive)));
  }

  /** ReadPacket. */
  lemma ReceiveRuns(
      s: State, w: nat, run: seq<Action>, x: Sock, stop: bool, n: Net,
      start: seq<Sight>) returns (run': seq<Action>)
    requires w < |s.workers| == |s.late| && Goes(s, w, run, Reading(x, 0), stop) && Follows(n, start, run)
    ensures var (n', r, _) := Session.ReadPacket(n);
            Goes(s, w, run', if r > 0 then Deciding(x) else OuterTest, stop) && Follows(n', start, run')
  {
    hide Goes, Follows, ReadFrom;
    var (n', r, buffer) := ReadFrom("", n);
    run' := ReadRuns(s, w, run, x, stop, "", n, start);
    if r <= 0 {
      FollowsQuietly(n', start, run', Lost(r));
    } else {
      var before, p' := run', Reading(x, r);
      run', p' := ThenMove(s, w, before, Reading(x, r), stop, Complete);
      FollowsBoth(n', start, before, Got(buffer), n'.Log(Got(buffer)), run', Worker(w, Complete));
    }
  }

  /** Any session, with any answers of the kernel and stop at any moment, is a run of the protocol that ends with the
      socket let go, and shows the same probes, receives, packets, responses and sends. */
  lemma {:induction false} LoopRuns(
      s: State, w: nat, run: seq<Action>, x: Sock, polls: nat, site: Session.Site, n: Net, start: seq<Sight>)
    returns (run': seq<Action>)
    requires w < |s.workers| == |s.late| && Goes(s, w, run, LoopTest(x), polls == 0) && Follows(n, start, run)
    requires Fits(site, s.longest)
    ensures var left := Session.KeepAlive(n, polls, site);
            && Goes(s, w, run', if left.error.Some? then Exited else OuterTest, left.polls == 0)
            && Follows(left.net, start, run')
    decreases polls
  {
    hide Goes, Follows, Fits, Session.Respond, Session.ReadPacket;
    run' := TestRuns(s, w, run, x, polls, n, start);
    if polls > 0 {
      run' := ProbeRuns(s, w, run', x, polls == 1, n, start);
      var (n1, alive) := n.IsAlive();
      if alive {
        run' := ReceiveRuns(s, w, run', x, polls == 1, n1, start);
        var (n2, r, buffer) := Session.ReadPacket(n1);
        if r > 0 {
          run' := RespondRuns(s, w, run', x, polls == 1, buffer, site, n2, start);
          var (n3, again) := Session.Respond(n2, buffer, site);
          if again == Ok(true) {
            run' := LoopRuns(s, w, run', x, polls - 1, site, n3, start);
          }
        }
      }
    }
  }

  /** The same, from the moment the worker enters the loop. */
  lemma SessionIsARun(s: State, w: nat, x: Sock, polls: nat, site: Session.Site, n: Net) returns (run: seq<Action>)
    requires IsAt(s, w, LoopTest(x), polls == 0, s.longest) && Fits(site, s.longest)
    ensures var left := Session.KeepAlive(n, polls, site);
            && Goes(s, w, run, if left.error.Some? then Exited else OuterTest, left.polls == 0)
            && OfLog(left.net.log) == OfLog(n.log) + OfRun(run)
  {
    hide Fits, Session.KeepAlive;
    Stays(s, w);
    assert OfLog(n.log) + OfRun([]) == OfLog(n.log);
    run := LoopRuns(s, w, [], x, polls, site, n, OfLog(n.log));
  }

  // So what holds of every run holds of every session

  ghost predicate OthersSame(s: State, s': State, w: nat) {
    && s'.main == s.main && s'.stack <= s.stack && s'.secure == s.secure && s'.accepted == s.accepted
    && w < |s.workers| == |s'.workers| && s'.workers == s.workers[w := s'.workers[w]]
  }

  lemma OwnStep(s: State, w: nat, a: Action)
    requires w < |s.workers| && Enabled(s, a) && Own(a, w)
    ensures OthersSame(s, Do(s, a), w)
  {
    hide CanMove, NextPhase, NextLock, Released;
    if a.Worker? {
      assert Do(s, a).stack == s.stack || Do(s, a).stack == s.stack[..|s.stack| - 1];
    }
  }

  lemma {:induction false} OwnRun(s: State, w: nat, run: seq<Action>)
    requires w < |s.workers| && Possible(s, run) && forall a :: a in run ==> Own(a, w)
    ensures OthersSame(s, After(s, run), w)
    decreases |run|
  {
    hide Enabled, Do;
    if run == [] {
    } else {
      OwnStep(s, w, run[0]);
      OwnRun(Do(s, run[0]), w, run[1..]);
    }
  }

  lemma {:induction false} InStackPrefix(stack: seq<Entry>, stack': seq<Entry>, x: Sock)
    requires stack' <= stack
    ensures InStack(stack', x) <= InStack(stack, x)
  {
    if stack' == stack {
    } else {
      assert stack' <= stack[..|stack| - 1];
      InStackPrefix(stack[..|stack| - 1], stack', x);
    }
  }

  /** A worker that has let go of its socket, with everything else as it was, has destroyed it. */
  lemma LetGo(s: State, s': State, w: nat, x: Sock)
    requires OneOwner(s) && OneOwner(s') && ClosedOnce(s') && OthersSame(s, s', w)
    requires InWorker(s.workers[w], x) == 1 && InWorker(s'.workers[w], x) == 0
    ensures s'.destroyed[x] == 1 && s'.closed[x] == if x in s.secure then 0 else 1
  {
    hide InWorker, InWorkers, InStack, InMain;
    HeldByWorker(s.workers, w, x);
    InWorkersUpdate(s.workers, w, s'.workers[w], x);
    InStackPrefix(s.stack, s'.stack, x);
    assert Places(s, x) == 1 && Places(s', x) == 1;
  }

  lemma OwnersOf(s: State)
    requires Safe(s)
    ensures OneOwner(s) && ClosedOnce(s)
  {
    hide OneOwner, ClosedOnce;
  }

  lemma RunReleases(s: State, w: nat, run: seq<Action>, x: Sock, p: Phase, stop: bool)
    requires Safe(s) && w < |s.workers| && s.workers[w] == LoopTest(x)
    requires Goes(s, w, run, p, stop) && (p.Exited? || p.OuterTest?)
    ensures var s' := After(s, run);
            && Safe(s') && s'.destroyed[x] == 1 && s'.closed[x] == if x in s.secure then 0 else 1
  {
    EveryRun(s, run);
    OwnRun(s, w, run);
    hide Possible, After, Safe, OneOwner, ClosedOnce, OthersSame;
    OwnersOf(s);
    OwnersOf(After(s, run));
    LetGo(s, After(s, run), w, x);
  }

  /** Every session, whatever ends it, leaves its socket destroyed, and closed once if it is a plain one. */
  lemma SessionReleases(s: State, w: nat, x: Sock, polls: nat, site: Session.Site, n: Net) returns (run: seq<Action>)
    requires Safe(s) && IsAt(s, w, LoopTest(x), polls == 0, s.longest) && Fits(site, s.longest)
    ensures Possible(s, run) && OfLog(Session.KeepAlive(n, polls, site).net.log) == OfLog(n.log) + OfRun(run)
    ensures var s' := After(s, run);
            && Safe(s') && s'.destroyed[x] == 1 && s'.closed[x] == if x in s.secure then 0 else 1
  {
    hide Safe, Fits, Session.KeepAlive, OfLog, OfRun;
    run := SessionIsARun(s, w, x, polls, site, n);
    var left := Session.KeepAlive(n, polls, site);
    RunReleases(s, w, run, x, if left.error.Some? then Exited else OuterTest, left.polls == 0);
  }
}
