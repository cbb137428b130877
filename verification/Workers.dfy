/** The whole of Worker: one socket after another, until stop or an exception. */
module Workers {
  import opened Wrappers
  import opened Transport
  import opened Session
  import opened StopTokens

  /** What a worker leaves behind: the sockets in the order GetSocket gives them, and the exception, if any. */
  datatype WorkerLeft = WorkerLeft(nets: seq<Option<Net>>, polls: nat, error: Option<Exception>) {

    function After(done: seq<Option<Net>>): WorkerLeft {
      this.(nets := done + nets)
    }
  }

  /** `nets` is what GetSocket will return: a socket, or null when it times out; when they run out, null. */
  function Run(nets: seq<Option<Net>>, polls: nat, site: Site): WorkerLeft
    decreases polls
  {
    if polls == 0 then WorkerLeft(nets, 0, None)
    else if nets == [] || nets[0].None? then
      if polls == 1 then WorkerLeft(nets, 0, None)
      else if nets == [] then Run(nets, polls - 2, site)
      else Run(nets[1..], polls - 2, site).After([None])
    else
      var left := KeepAlive(nets[0].value, polls - 1, site);
      if left.error.Some? || left.polls == 0 then WorkerLeft([Some(left.net)] + nets[1..], left.polls, left.error)
      else Run(nets[1..], left.polls - 1, site).After([Some(left.net)])
  }

  function NetsOf(sockets: seq<Transport?>): (nets: seq<Option<Net>>)
    reads set t: Transport | t in sockets
    ensures |nets| == |sockets|
    ensures forall i :: 0 <= i < |nets| ==> nets[i] == if sockets[i] == null then None else Some(sockets[i].net)
  {
    if sockets == [] then []
    else [if sockets[0] == null then None else Some(sockets[0].net)] + NetsOf(sockets[1..])
  }

  predicate Distinct(sockets: seq<Transport?>) {
    forall i, j :: 0 <= i < j < |sockets| && sockets[i] != null ==> sockets[i] != sockets[j]
  }

  /** The keep-alive loop on one of the sockets leaves the others alone. */
  method ServeSocket(sockets: seq<Transport?>, k: nat, st: StopToken, site: Site) returns (error: Option<Exception>)
    requires Distinct(sockets) && k < |sockets| && sockets[k] != null
    modifies sockets[k], st
    ensures var left := KeepAlive(old(sockets[k].net), old(st.polls), site);
            && st.polls == left.polls && error == left.error
            && NetsOf(sockets) == old(NetsOf(sockets))[k := Some(left.net)]
  {
    hide KeepAlive, NetsOf;
    ghost var before := NetsOf(sockets);
    error := KeepAliveLoop(sockets[k], st, site);
    assert forall i :: 0 <= i < |sockets| && i != k ==> NetsOf(sockets)[i] == before[i];
  }

  /** What the worker will leave when it has dealt with the first `k` sockets. */
  ghost function Rest(nets: seq<Option<Net>>, k: nat, polls: nat, site: Site): WorkerLeft
    requires k <= |nets|
  {
    Run(nets[k..], polls, site).After(nets[..k])
  }

  lemma RestAtStart(nets: seq<Option<Net>>, polls: nat, site: Site)
    ensures Rest(nets, 0, polls, site) == Run(nets, polls, site)
  {
    hide Run;
    assert nets[0..] == nets;
  }

  lemma Stopped(nets: seq<Option<Net>>, k: nat, site: Site)
    requires k <= |nets|
    ensures Rest(nets, k, 0, site) == WorkerLeft(nets, 0, None)
  {
    assert nets[..k] + nets[k..] == nets;
  }

  /** The turn of the loop that serves socket `k`. */
  lemma OneSocket(before: seq<Option<Net>>, nets: seq<Option<Net>>, k: nat, polls: nat, site: Site)
    requires k < |before| && before[k].Some? && polls > 0
    requires nets == before[k := Some(KeepAlive(before[k].value, polls - 1, site).net)]
    ensures var left := KeepAlive(before[k].value, polls - 1, site);
            Rest(before, k, polls, site) ==
            if left.error.Some? || left.polls == 0 then WorkerLeft(nets, left.polls, left.error)
            else Rest(nets, k + 1, left.polls - 1, site)
  {
    hide KeepAlive;
    var left := KeepAlive(before[k].value, polls - 1, site);
    assert before[k..][1..] == before[k + 1..] == nets[k + 1..];
    assert before[..k] + [Some(left.net)] + nets[k + 1..] == nets;
    assert before[..k] + ([Some(left.net)] + nets[k + 1..]) == nets;
    var later := Run(nets[k + 1..], if left.polls == 0 then 0 else left.polls - 1, site);
    assert before[..k] + ([Some(left.net)] + later.nets) == nets[..k + 1] + later.nets;
  }

  /** The turn in which GetSocket returned null. */
  lemma NoSocket(nets: seq<Option<Net>>, k: nat, polls: nat, site: Site)
    requires k <= |nets| && (k < |nets| ==> nets[k].None?) && polls > 0
    ensures var k' := if k < |nets| then k + 1 else k;
            Rest(nets, k, polls, site) ==
            if polls == 1 then WorkerLeft(nets, 0, None) else Rest(nets, k', polls - 2, site)
  {
    assert nets[..k] + nets[k..] == nets;
    if k < |nets| && polls > 1 {
      assert nets[k..][1..] == nets[k + 1..];
      var later := Run(nets[k + 1..], polls - 2, site);
      assert nets[..k] + ([None] + later.nets) == nets[..k + 1] + later.nets;
    }
  }

  /** Worker; `sockets` is what GetSocket will return to it. An exception ends it, whatever sockets are still to come. */
  method Worker(st: StopToken, sockets: seq<Transport?>, site: Site) returns (error: Option<Exception>)
    requires Distinct(sockets)
    modifies st, set t: Transport | t in sockets
    ensures WorkerLeft(NetsOf(sockets), st.polls, error) == Run(old(NetsOf(sockets)), old(st.polls), site)
  {
    hide Run, KeepAlive, NetsOf, Rest;
    error := None;
    ghost var whole := Run(NetsOf(sockets), st.polls, site);
    ghost var nets := NetsOf(sockets);
    RestAtStart(nets, st.polls, site);
    var k := 0;
    while true
      invariant 0 <= k <= |sockets| && nets == NetsOf(sockets) && error == None
      invariant Rest(nets, k, st.polls, site) == whole
      decreases st.polls
    {
      ghost var polls := st.polls;
      var socket := if k < |sockets| then sockets[k] else null;
      var stop := st.StopRequested();
      if stop {
        Stopped(nets, k, site);
        return;
      }
      if socket != null {
        ghost var before := nets;
        error := ServeSocket(sockets, k, st, site);
        nets := NetsOf(sockets);
        OneSocket(before, nets, k, polls, site);
        if error.Some? {
          return;
        }
      } else {
        NoSocket(nets, k, polls, site);
      }
      k := if k < |sockets| then k + 1 else k;
      stop := st.StopRequested();
      if stop {
        return;
      }
    }
  }

  function AfterLoop(net: Option<Net>, polls: nat, site: Site): Option<Net> {
    match net case None => None case Some(n) => Some(KeepAlive(n, polls, site).net)
  }

  function Raised(net: Option<Net>, polls: nat, site: Site): Option<Exception> {
    match net case None => None case Some(n) => KeepAlive(n, polls, site).error
  }

  /** The stop tests that the session has left to the worker. */
  function PollsAfter(net: Option<Net>, polls: nat, site: Site): nat {
    match net case None => polls case Some(n) => KeepAlive(n, polls, site).polls
  }

  /** Each socket is come to one test after the worker has it, and the next one test after the session is over. */
  ghost predicate StartsRight(nets: seq<Option<Net>>, polls: nat, starts: seq<nat>, site: Site)
    requires |starts| <= |nets|
  {
    && (starts != [] ==> polls > 0 && starts[0] == polls - 1)
    && forall i :: 0 <= i < |starts| - 1 ==> PollsAfter(nets[i], starts[i], site) == starts[i + 1] + 2
  }

  /** The first `served` sockets went through one keep-alive loop each, `starts[i]` stop tests before stop; only the
      last of them may have raised, and the rest are as they were. */
  ghost predicate ServedPrefix(
      nets: seq<Option<Net>>, polls: nat, left: WorkerLeft, served: nat, starts: seq<nat>, site: Site) {
    && served <= |nets| == |left.nets| && |starts| == served
    && StartsRight(nets, polls, starts, site)
    && (forall i :: served <= i < |nets| ==> left.nets[i] == nets[i])
    && (forall i :: 0 <= i < served ==> left.nets[i] == AfterLoop(nets[i], starts[i], site))
    && (forall i :: 0 <= i < served - 1 ==> Raised(nets[i], starts[i], site).None?)
    && left.error == (if served > 0 then Raised(nets[served - 1], starts[served - 1], site) else None)
  }

  /** So the moments fall, and all lie before stop. */
  lemma {:induction false} StartsFall(nets: seq<Option<Net>>, polls: nat, starts: seq<nat>, site: Site, i: nat, j: nat)
    requires |starts| <= |nets| && StartsRight(nets, polls, starts, site) && i <= j < |starts|
    ensures starts[j] < polls && (i < j ==> starts[j] < starts[i])
    decreases j
  {
    hide KeepAlive;
    if j == 0 {
    } else {
      StartsFall(nets, polls, starts, site, if i < j then i else j - 1, j - 1);
      assert PollsAfter(nets[j - 1], starts[j - 1], site) <= starts[j - 1];
    }
  }

  lemma ServedNone(nets: seq<Option<Net>>, polls: nat, site: Site)
    ensures ServedPrefix(nets, polls, WorkerLeft(nets, 0, None), 0, [], site)
  {
  }

  lemma ServedOne(net: Option<Net>, polls: nat, nets: seq<Option<Net>>, stop: nat, site: Site)
    requires polls > 0
    ensures var left := WorkerLeft([AfterLoop(net, polls - 1, site)] + nets, stop, Raised(net, polls - 1, site));
            ServedPrefix([net] + nets, polls, left, 1, [polls - 1], site)
  {
    hide AfterLoop, Raised;
  }

  lemma StartsMore(net: Option<Net>, polls: nat, later: nat, nets: seq<Option<Net>>, starts: seq<nat>, site: Site)
    requires polls > 0 && PollsAfter(net, polls - 1, site) == later + 1
    requires |starts| <= |nets| && StartsRight(nets, later, starts, site)
    ensures StartsRight([net] + nets, polls, [polls - 1] + starts, site)
  {
    hide PollsAfter;
    var ns, ss := [net] + nets, [polls - 1] + starts;
    forall i | 0 <= i < |ss| - 1 ensures PollsAfter(ns[i], ss[i], site) == ss[i + 1] + 2 {
      if i > 0 {
        assert ns[i] == nets[i - 1] && ss[i] == starts[i - 1] && ss[i + 1] == starts[i];
      }
    }
  }

  lemma ServedMore(
      net: Option<Net>, polls: nat, later: nat,
      nets: seq<Option<Net>>, left: WorkerLeft, served: nat, starts: seq<nat>, site: Site)
    requires polls > 0 && PollsAfter(net, polls - 1, site) == later + 1 && Raised(net, polls - 1, site).None?
    requires ServedPrefix(nets, later, left, served, starts, site)
    ensures var all := left.After([AfterLoop(net, polls - 1, site)]);
            ServedPrefix([net] + nets, polls, all, served + 1, [polls - 1] + starts, site)
  {
    hide AfterLoop, Raised, PollsAfter, StartsRight;
    StartsMore(net, polls, later, nets, starts, site);
  }

  lemma {:induction false} NoneServed(nets: seq<Option<Net>>, polls: nat, site: Site)
    requires polls == 0 || nets == [] || (nets[0].None? && polls == 1)
    ensures Run(nets, polls, site) == WorkerLeft(nets, 0, None)
    decreases polls
  {
    if polls <= 1 || nets != [] {
    } else {
      NoneServed(nets, polls - 2, site);
    }
  }

  /** A worker serves a prefix of its sockets, each when the one before is done, none once stop is requested, and an
      exception is the end of it. */
  lemma {:induction false} ServesAPrefix(nets: seq<Option<Net>>, polls: nat, site: Site)
    returns (served: nat, starts: seq<nat>)
    ensures ServedPrefix(nets, polls, Run(nets, polls, site), served, starts, site)
    ensures polls == 0 ==> served == 0
    decreases polls
  {
    hide KeepAlive, ServedPrefix;
    if polls == 0 || nets == [] || (nets[0].None? && polls == 1) {
      served, starts := 0, [];
      NoneServed(nets, polls, site);
      ServedNone(nets, polls, site);
    } else {
      assert nets == [nets[0]] + nets[1..];
      var left := if nets[0].Some? then KeepAlive(nets[0].value, polls - 1, site) else Left(Net([], [], [], "", []), polls - 1, None);
      if left.error.Some? || left.polls == 0 {
        served, starts := 1, [polls - 1];
        ServedOne(nets[0], polls, nets[1..], left.polls, site);
      } else {
        var s, ss := ServesAPrefix(nets[1..], left.polls - 1, site);
        served, starts := s + 1, [polls - 1] + ss;
        ServedMore(nets[0], polls, left.polls - 1, nets[1..], Run(nets[1..], left.polls - 1, site), s, ss, site);
      }
    }
  }
}
