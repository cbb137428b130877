/** All the workers at once, byte by byte: the protocol with the sockets' bytes, in any interleaving. */
module Threads {
  import opened Wrappers
  import opened Text
  import opened HttpPacket
  import opened PacketParse
  import opened HttpMessages
  import opened Transport
  import opened Protocol
  import opened Simulation
  import Session

  // Where a worker is in its session

  datatype Place =
    | Away                                                             // not in a session
    | AtTest
    | AtProbe
    | InRead(got: string)
    | AtReply(request: string)
    | InWrite(message: string, offset: nat, file: bool, keep: bool)   // a 404 is to follow a file that fails

  predicate Sound(d: Place) {
    match d
    case InRead(got) => |got| <= BUFFER_SIZE
    case InWrite(m, offset, _, _) => offset <= |m|
    case _ => true
  }

  /** The phase of the protocol says the same, without the bytes. */
  predicate Matches(p: Phase, d: Place) {
    match p
    case LoopTest(_) => d.AtTest?
    case Probing(_) => d.AtProbe?
    case Reading(_, offset) => d.InRead? && |d.got| == offset <= BUFFER_SIZE
    case Deciding(_) => d.AtReply?
    case Writing(_, left, fallback) => d.InWrite? && d.offset <= |d.message| && left == |d.message| - d.offset && d.file == fallback
    case _ => d.Away?
  }

  predicate InSession(p: Phase) {
    p.LoopTest? || p.Probing? || p.Reading? || p.Deciding? || p.Writing?
  }

  /** What the code does next: the move, the socket after it, the place after it, and the exception if it raises. */
  datatype Plan = Plan(move: Move, net: Net, next: Place, error: Option<Exception>)

  function Next(d: Place, n: Net, stop: bool, site: Session.Site): Plan
    requires Sound(d) && !d.Away?
  {
    match d
    case AtTest => Plan(Loop, n, if stop then Away else AtProbe, None)
    case AtProbe =>
      var (n', alive) := n.IsAlive();
      Plan(Probe(alive), n', if alive then InRead("") else Away, None)
    case InRead(got) =>
      if EndsPacket(got) then Plan(Complete, n.Log(Got(got)), AtReply(got), None)
      else
        var (n', r, bytes) := n.Recv(BUFFER_SIZE - |got|);
        if r <= 0 then Plan(Receive(r), n'.Log(Lost(r)), Away, None)
        else Plan(Receive(r), n', InRead(got + bytes), None)
    case AtReply(request) => (
      match ParseRequest(request)
      case Thrown(e) => Plan(Decide(Raise), n, Away, Some(e))
      case Ok(q) =>
        if !q.IsGet() then Plan(Decide(Silent(q.KeepAlive())), n, if q.KeepAlive() then AtTest else Away, None)
        else
          match Session.ReplyTo(q.path, site)
          case Raise(e) => Plan(Decide(Raise), n, Away, Some(e))
          case Refuse(m) => Plan(Decide(Respond(|m|, false)), n.Log(Attempt(m)), InWrite(m, 0, false, false), None)
          case Serve(m) => Plan(Decide(Respond(|m|, true)), n.Log(Attempt(m)), InWrite(m, 0, true, q.KeepAlive()), None))
    case InWrite(m, offset, file, keep) =>
      var (n', size) := n.Send(m[offset..]);
      if size > 0 then Plan(SendSome(size), n', InWrite(m, offset + size, file, keep), None)
      else
        var r := if size < 0 then size else offset;
        var page, n'' := Create404(false), n'.Log(Wrote(r));
        if file && r <= 0 then
          Plan(EndWrite(Retry(|page|)), n''.Log(Attempt(page)), InWrite(page, 0, false, false), None)
        else if file && keep then Plan(EndWrite(Again), n'', AtTest, None)
        else Plan(EndWrite(Drop), n'', Away, None)
  }

  // The session that is left from there

  function RestOfReply(request: string, n: Net, polls: nat, site: Session.Site): Session.Left {
    var (n', again) := Session.Respond(n, request, site);
    match again
    case Thrown(e) => Session.Left(n', polls, Some(e))
    case Ok(goesOn) => if goesOn then Session.KeepAlive(n', polls, site) else Session.Left(n', polls, None)
  }

  function RestOfRead(got: string, n: Net, polls: nat, site: Session.Site): Session.Left
    requires |got| <= BUFFER_SIZE
  {
    var (n', r, got') := ReadFrom(got, n);
    if r <= 0 then Session.Left(n'.Log(Lost(r)), polls, None) else RestOfReply(got', n'.Log(Got(got')), polls, site)
  }

  function RestOfWrite(m: string, offset: nat, file: bool, keep: bool, n: Net, polls: nat, site: Session.Site): Session.Left
    requires offset <= |m|
  {
    var (n', r) := WriteFrom(m, offset, n);
    var n'' := n'.Log(Wrote(r));
    if file && r <= 0 then Session.Left(Session.WritePacket(n'', Create404(false)).0, polls, None)
    else if file && keep then Session.KeepAlive(n'', polls, site)
    else Session.Left(n'', polls, None)
  }

  function Rest(d: Place, n: Net, polls: nat, site: Session.Site): Session.Left
    requires Sound(d)
  {
    match d
    case Away => Session.Left(n, polls, None)
    case AtTest => Session.KeepAlive(n, polls, site)
    case AtProbe =>
      var (n', alive) := n.IsAlive();
      if alive then RestOfRead("", n', polls, site) else Session.Left(n', polls, None)
    case InRead(got) => RestOfRead(got, n, polls, site)
    case AtReply(request) => RestOfReply(request, n, polls, site)
    case InWrite(m, offset, file, keep) => RestOfWrite(m, offset, file, keep, n, polls, site)
  }

  lemma TestLeaves(n: Net, polls: nat, site: Session.Site)
    ensures Session.KeepAlive(n, polls + 1, site) == Rest(AtProbe, n, polls, site)
    ensures Session.KeepAlive(n, 0, site) == Session.Left(n, 0, None)
  {
    hide ReadFrom, Session.Respond;
  }

  lemma ReadLeaves(got: string, n: Net, stop: bool, polls: nat, site: Session.Site)
    requires |got| <= BUFFER_SIZE
    ensures var plan := Next(InRead(got), n, stop, site);
            && Sound(plan.next) && plan.error == None
            && RestOfRead(got, n, polls, site) == Rest(plan.next, plan.net, polls, site)
  {
    hide RestOfReply, At;
  }

  lemma ReplyLeaves(request: string, n: Net, stop: bool, polls: nat, site: Session.Site)
    ensures var plan := Next(AtReply(request), n, stop, site);
            && Sound(plan.next) && (plan.error.Some? ==> plan.next.Away?)
            && RestOfReply(request, n, polls, site) == Rest(plan.next, plan.net, polls, site).(error :=
                 if plan.error.Some? then plan.error else Rest(plan.next, plan.net, polls, site).error)
  {
    hide Session.ReplyTo, ParseRequest, Session.KeepAlive, WriteFrom, Create404;
  }

  lemma WriteLeaves(m: string, offset: nat, file: bool, keep: bool, n: Net, stop: bool, polls: nat, site: Session.Site)
    requires offset <= |m|
    ensures var plan := Next(InWrite(m, offset, file, keep), n, stop, site);
            && Sound(plan.next) && plan.error == None
            && RestOfWrite(m, offset, file, keep, n, polls, site) == Rest(plan.next, plan.net, polls, site)
  {
    hide Session.KeepAlive, Create404;
  }

  /** The move is one the protocol allows, it leads to the phase of the next place, and the socket is let go exactly when
      the session is over. */
  lemma NextIsAMove(s: State, p: Phase, d: Place, n: Net, site: Session.Site)
    requires InSession(p) && Matches(p, d) && Fits(site, s.longest) && (d.InWrite? ==> |d.message| <= s.longest)
    ensures Sound(d) && !d.Away?
    ensures var plan := Next(d, n, s.stop, site);
            && CanMove(s, p, plan.move)
            && (plan.next.InWrite? ==> |plan.next.message| <= s.longest)
  {
    hide ParseRequest, Session.ReplyTo, Create404, At, Session.KeepAlive;
    assert |Create404(false)| <= s.longest;
    if d.AtReply? && ParseRequest(d.request).Ok? {
      var path := ParseRequest(d.request).value.path;
      assert Session.ReplyTo(path, site).Refuse? || Session.ReplyTo(path, site).Serve? ==>
          |Session.ReplyTo(path, site).message| <= s.longest;
    }
  }

  lemma NextMatches(s: State, p: Phase, d: Place, n: Net, site: Session.Site)
    requires InSession(p) && Matches(p, d) && CanMove(s, p, Next(d, n, s.stop, site).move)
    ensures var plan := Next(d, n, s.stop, site);
            && Matches(NextPhase(s, p, plan.move), plan.next)
            && Released(s, p, plan.move) == (if plan.next.Away? then Some(p.sock) else None)
            && (!plan.next.Away? ==> InSession(NextPhase(s, p, plan.move)) && NextPhase(s, p, plan.move).sock == p.sock)
  {
    hide ParseRequest, Session.ReplyTo, Create404, At, Session.KeepAlive;
  }
}
