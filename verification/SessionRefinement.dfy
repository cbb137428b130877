/** With a client in lock step and writes that succeed, the byte-level loop refines answering requests one by one. */
module SessionRefinement {
  import opened Wrappers
  import opened PacketParse
  import opened Transport
  import opened Framing
  import opened Session
  import opened Delivery

  /** What one request is answered with, and whether another may follow. */
  datatype Answer = Answer(output: string, again: Outcome<bool>)

  function AnswerTo(request: string, site: Site): Answer {
    match ParseRequest(request)
    case Thrown(e) => Answer("", Thrown(e))
    case Ok(q) =>
      if !q.IsGet() then Answer("", Ok(q.KeepAlive()))
      else
        match ReplyTo(q.path, site)
        case Raise(e) => Answer("", Thrown(e))
        case Refuse(m) => Answer(m, Ok(false))
        case Serve(m) => Answer(m, Ok(q.KeepAlive()))
  }

  function ServeAll(requests: seq<string>, site: Site): Served {
    if requests == [] then Served("", None)
    else
      var a := AnswerTo(requests[0], site);
      match a.again
      case Thrown(e) => Served(a.output, Some(e))
      case Ok(false) => Served(a.output, None)
      case Ok(true) => var rest := ServeAll(requests[1..], site); Served(a.output + rest.output, rest.error)
  }

  // Writes that succeed

  lemma ServedIsNotEmpty(path: string, site: Site)
    requires ReplyTo(path, site).Serve?
    ensures |ReplyTo(path, site).message| > 0
  {
  }

  lemma Whole(m: string, answers: seq<int>)
    requires Positive(answers)
    ensures var shot := Take(|m|, answers); m[..shot.k] == m && shot.r == |m| && Positive(shot.answers)
  {
    TakesAll(|m|, answers);
    assert m[..|m|] == m;
  }

  lemma DeliversAnswer(request: string, answers: seq<int>, site: Site)
    requires Positive(answers)
    ensures var d, a := Deliver(request, answers, site), AnswerTo(request, site);
            d.output == a.output && d.again == a.again && Positive(d.answers)
  {
    hide ReplyTo, ParseRequest, Take;
    match ParseRequest(request) {
      case Thrown(e) =>
      case Ok(q) =>
        match ReplyTo(q.path, site) {
          case Raise(e) =>
          case Refuse(m) => Whole(m, answers);
          case Serve(m) =>
            ServedIsNotEmpty(q.path, site);
            Whole(m, answers);
        }
    }
  }

  lemma {:induction false} DeliversAll(requests: seq<string>, answers: seq<int>, alive: seq<bool>, site: Site)
    requires Positive(answers) && forall a :: a in alive ==> a
    ensures DeliverAll(requests, answers, alive, site) == ServeAll(requests, site)
  {
    hide Deliver, AnswerTo;
    if requests == [] {
    } else {
      assert alive != [] ==> alive[0] in alive && forall a :: a in alive[1..] ==> a in alive;
      DeliversAnswer(requests[0], answers, site);
      var later := if alive == [] then [] else alive[1..];
      DeliversAll(requests[1..], Deliver(requests[0], answers, site).answers, later, site);
    }
  }

  // A client in lock step

  /** Each round is one request, in pieces, and nothing of the next. */
  predicate LockStep(rounds: seq<seq<string>>) {
    forall i :: 0 <= i < |rounds| ==> IsPacket(Concat(rounds[i])) && forall c :: c in rounds[i] ==> c != ""
  }

  function Script(rounds: seq<seq<string>>): seq<Arrival> {
    if rounds == [] then [] else Datas(rounds[0]) + Script(rounds[1..])
  }

  function Requests(rounds: seq<seq<string>>): seq<string> {
    seq(|rounds|, i requires 0 <= i < |rounds| => Concat(rounds[i]))
  }

  predicate HangsUp(rest: seq<Arrival>) {
    rest == [] || rest[0].Gone?
  }

  function FirstOnes(rounds: seq<seq<string>>, polls: nat): seq<string> {
    if polls < |rounds| then Requests(rounds)[..polls] else Requests(rounds)
  }

  lemma FirstOnesSplit(rounds: seq<seq<string>>, polls: nat)
    requires rounds != [] && polls > 0
    ensures FirstOnes(rounds, polls) == [Concat(rounds[0])] + FirstOnes(rounds[1..], polls - 1)
  {
  }

  lemma ReadsOne(chunks: seq<string>, later: seq<Arrival>)
    requires IsPacket(Concat(chunks)) && forall c :: c in chunks ==> c != ""
    ensures var (n, r, got) := ReadFrom("", Net(Datas(chunks) + later, [], [], "", []));
            r > 0 && got == Concat(chunks) && n.arrivals == later
  {
    hide ReadFrom, Concat;
    assert "" + Concat(chunks) == Concat(chunks);
    ReadsTheRest("", Concat(chunks), chunks, later, Net(Datas(chunks) + later, [], [], "", []));
  }

  lemma ReadsRound(rounds: seq<seq<string>>, rest: seq<Arrival>)
    requires LockStep(rounds) && rounds != []
    ensures var (n, r, got) := ReadFrom("", Net(Script(rounds) + rest, [], [], "", []));
            r > 0 && got == Concat(rounds[0]) && n.arrivals == Script(rounds[1..]) + rest
  {
    hide ReadFrom, IsPacket, Concat;
    ReadsOne(rounds[0], Script(rounds[1..]) + rest);
    assert Script(rounds) + rest == Datas(rounds[0]) + (Script(rounds[1..]) + rest);
  }

  lemma NoRound(rounds: seq<seq<string>>, rest: seq<Arrival>, polls: nat)
    requires HangsUp(rest) && (polls == 0 || rounds == [])
    ensures Packets(Script(rounds) + rest, polls) == FirstOnes(rounds, polls) == []
  {
    assert rounds == [] ==> Script(rounds) + rest == rest;
  }

  /** However its requests are cut, they are what Read makes of it. */
  lemma {:induction false} PacketsOfScript(rounds: seq<seq<string>>, rest: seq<Arrival>, polls: nat)
    requires LockStep(rounds) && HangsUp(rest)
    ensures Packets(Script(rounds) + rest, polls) == FirstOnes(rounds, polls)
    decreases polls
  {
    hide ReadFrom, FirstOnes;
    if polls == 0 || rounds == [] {
      NoRound(rounds, rest, polls);
    } else {
      ReadsRound(rounds, rest);
      PacketsOfScript(rounds[1..], rest, polls - 1);
      FirstOnesSplit(rounds, polls);
    }
  }

  /** Every write succeeds, the socket stays alive, and the client's rounds are what there is to receive. */
  predicate Runs(n: Net, rounds: seq<seq<string>>, rest: seq<Arrival>) {
    && Positive(n.answers) && (forall a :: a in n.alive ==> a)
    && n.arrivals == Script(rounds) + rest && HangsUp(rest) && LockStep(rounds)
  }

  /** However the requests are cut and whenever stop comes, after `polls` tests or never, the peer gets what the
      specification answers to the first `polls` requests, and the worker dies exactly when that raises. */
  lemma SessionRefines(n: Net, polls: nat, rounds: seq<seq<string>>, rest: seq<Arrival>, site: Site)
    requires Runs(n, rounds, rest)
    ensures Refines(n, KeepAlive(n, polls, site), ServeAll(FirstOnes(rounds, polls), site))
  {
    hide KeepAlive, Refines, Packets, DeliverAll, ServeAll, FirstOnes;
    SessionDelivers(n, polls, site);
    PacketsOfScript(rounds, rest, polls);
    DeliversAll(FirstOnes(rounds, polls), n.answers, n.alive, site);
  }
}
