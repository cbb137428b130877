/** What becomes of a connection: whether the response announces it, and which requests end the whole worker. */
module Connections {
  import opened Wrappers
  import opened Text
  import opened HttpPacket
  import opened PacketParse
  import opened RequestLine
  import opened HttpMessages
  import opened Transport
  import opened Session
  import opened Delivery
  import opened SessionHistory
  import opened Workers

  // Whether the header tells the verdict on the request

  lemma FramedFlag(message: string)
    ensures forall field, body, flag :: Framed(message, field, body, flag) ==>
              ExtractField(message, CONNECTION) == Ok(KeepAliveString(flag))
    ensures KeepAliveString(true) != KeepAliveString(false)
  {
    assert |KeepAliveString(true)| != |KeepAliveString(false)|;
  }

  /** For every GET that is answered: the response announces the verdict on this request if and only if it is a refusal,
      or the request asks to be kept alive and the kernel lets Write return a positive count. */
  lemma HeaderTellsVerdict(n: Net, request: string, site: Site)
    requires ParseRequest(request).Ok? && ParseRequest(request).value.IsGet()
    requires !ReplyTo(ParseRequest(request).value.path, site).Raise?
    ensures var q := ParseRequest(request).value;
            var reply := ReplyTo(q.path, site);
            var again := Respond(n, request, site).1;
            && again.Ok?
            && (ExtractField(reply.message, CONNECTION) == Ok(KeepAliveString(again.value)) <==>
                reply.Refuse? || (q.KeepAlive() && Take(|reply.message|, n.answers).r > 0))
  {
    hide ReplyTo, ParseRequest, ExtractField, WritePacket, Take, Framed;
    var q := ParseRequest(request).value;
    var reply := ReplyTo(q.path, site);
    ReplyMeans(q.path, site);
    FramedFlag(reply.message);
    PacketTakes(n, reply.message);
  }

  const OLD_CLIENT: string := "GET /a.txt HTTP/1.0\r\n\r\n"

  lemma OldLine()
    ensures Line("GET", "/a.txt", ' ', "HTTP/1.0") + CRLF + CRLF == OLD_CLIENT
    ensures Printable("GET", "/a.txt", ' ', "HTTP/1.0") && 'C' !in Line("GET", "/a.txt", ' ', "HTTP/1.0")
    ensures '\r' !in "GET" && '\r' !in "/a.txt" && '\r' !in "HTTP/1.0"
  {
  }

  lemma NothingAsked()
    ensures ExtractField(CRLF, CONNECTION) == Ok("") && !Request("GET", "/a.txt", "").KeepAlive()
  {
    FindMeans(CRLF, CONNECTION, 0);
    assert |Lower("")| != |"keep-alive"|;
  }

  lemma OldRequest()
    ensures ParseRequest(OLD_CLIENT) == Ok(Request("GET", "/a.txt", ""))
  {
    hide ExtractField, ParseRequest, Contains;
    OldLine();
    var line := Line("GET", "/a.txt", ' ', "HTTP/1.0");
    NoCrNoCrlf("GET");
    NoCrNoCrlf("/a.txt");
    NoCrNoCrlf("HTTP/1.0");
    LacksChar(line, CONNECTION, 0);
    LineIsSkipped(line, CRLF);
    NothingAsked();
    ParsePrinted("GET", "/a.txt", ' ', "HTTP/1.0", CRLF);
  }

  lemma TextFile(directory: string)
    ensures GetContentType(directory + "/a.txt") == Ok("text/plain")
  {
    var s, d := directory + "/a.txt", |directory| + 2;
    assert s[d] == '.' && forall j :: d < j < |s| ==> s[j] == "txt"[j - d - 1];
    assert LastOf(s, '.') == Some(d);
    assert s[d..] == ".txt";
  }

  /** A client that does not ask to be kept alive gets its file with keep-alive, and the connection is closed. */
  lemma SaysKeepAliveAndCloses(n: Net, site: Site)
    requires CString(site.directory + "/a.txt") in site.files
    ensures var reply := ReplyTo("/a.txt", site);
            && ParseRequest(OLD_CLIENT) == Ok(Request("GET", "/a.txt", "")) && reply.Serve?
            && ExtractField(reply.message, CONNECTION) == Ok("keep-alive")
            && Respond(n, OLD_CLIENT, site).1 == Ok(false)
  {
    hide ReplyTo, ParseRequest, ExtractField, WritePacket, Take, Framed, Respond, GetContentType;
    OldRequest();
    NothingAsked();
    TextFile(site.directory);
    assert |"/a.txt"| <= 100 && |"/a.txt"| != |".."|;
    ReplyMeans("/a.txt", site);
    FramedFlag(ReplyTo("/a.txt", site).message);
    HeaderTellsVerdict(n, OLD_CLIENT, site);
  }

  // Whether the header tells what becomes of the connection

  /** A turn of the loop that reads `request` and leaves the socket at `n'`. */
  predicate Turn(n: Net, request: string, n': Net) {
    var (n1, alive) := n.IsAlive();
    var (n2, r, got) := ReadPacket(n1);
    alive && r > 0 && got == request && n2 == n'
  }

  /** Another request is read after `log`. */
  ghost predicate ReadsMore(log: seq<Event>, log': seq<Event>) {
    exists i :: |log| <= i < |log'| && log'[i].Got?
  }

  lemma ReadHistory(n: Net) returns (events: seq<Event>)
    ensures ReadPacket(n).0.log == n.log + events && events != []
    ensures if ReadPacket(n).1 > 0 then events[|events| - 1].Got? else AllQuiet(events)
  {
    hide ReadFrom;
    var received := ReadFromHistory("", n);
    var (n', r, got) := ReadFrom("", n);
    var last := if r > 0 then Got(got) else Lost(r);
    events := received + [last];
    assert n.log + received + [last] == n.log + events;
  }

  lemma QuietLog(n: Net, alive: bool, events: seq<Event>)
    requires AllQuiet(events)
    ensures !ReadsMore(n.log, n.log + [Probed(alive)] + events)
  {
    forall i | |n.log| <= i < |n.log + [Probed(alive)] + events| ensures !(n.log + [Probed(alive)] + events)[i].Got? {
      if i > |n.log| {
        assert (n.log + [Probed(alive)] + events)[i] == events[i - |n.log| - 1];
      }
    }
  }

  lemma GotInLog(n: Net, alive: bool, events: seq<Event>, writes: seq<Event>, later: seq<Event>, log: seq<Event>)
    requires events != [] && events[|events| - 1].Got?
    requires log == n.log + [Probed(alive)] + events + writes + later || (later == [] && log == n.log + [Probed(alive)] + events + writes)
    ensures ReadsMore(n.log, log)
  {
    assert log[|n.log| + |events|] == events[|events| - 1];
  }

  /** The loop comes back to the socket: what it finds there. */
  lemma ComesBack(n: Net, polls: nat, site: Site)
    requires polls > 0
    ensures var left := KeepAlive(n, polls, site);
            && |left.net.log| > |n.log|
            && (ReadsMore(n.log, left.net.log) <==> n.IsAlive().1 && ReadPacket(n.IsAlive().0).1 > 0)
  {
    hide ReadPacket, Respond, AllQuiet;
    var (n1, alive) := n.IsAlive();
    if alive {
      var events := ReadHistory(n1);
      var (n2, r, request) := ReadPacket(n1);
      if r <= 0 {
        QuietLog(n, alive, events);
      } else {
        var writes := RespondHistory(n2, request, site);
        var (n3, again) := Respond(n2, request, site);
        var later := [];
        if again == Ok(true) {
          later := SessionHistory.SessionHistory(n3, polls - 1, site);
        }
        GotInLog(n, alive, events, writes, later, KeepAlive(n, polls, site).net.log);
      }
    }
  }

  lemma PacketArrives(n: Net)
    ensures ReadPacket(n).1 > 0 <==> Packets(n.arrivals, 1) != []
  {
    hide ReadFrom;
    ReadsArrivals("", n, Net(n.arrivals, [], [], "", []));
  }

  /** When a response announces what becomes of the connection. For every turn of every session that answers a GET:
      - that the loop will come back to the socket, if and only if it is a refusal, or the request asks to be kept alive,
        Write returns a positive count, and the next test of stop does not say yes;
      - that another request will be read, if and only if it is a refusal, or, besides, the socket is found alive and
        another packet arrives. */
  lemma HeaderIsTrue(n: Net, polls: nat, site: Site, request: string, n2: Net)
    requires polls > 0 && Turn(n, request, n2)
    requires ParseRequest(request).Ok? && ParseRequest(request).value.IsGet()
    requires !ReplyTo(ParseRequest(request).value.path, site).Raise?
    ensures var q := ParseRequest(request).value;
            var reply := ReplyTo(q.path, site);
            var header := ExtractField(reply.message, CONNECTION);
            var n3, left := Respond(n2, request, site).0, KeepAlive(n, polls, site);
            var goesOn := q.KeepAlive() && Take(|reply.message|, n2.answers).r > 0 && polls > 1;
            && (header == Ok(KeepAliveString(left.net != n3)) <==> reply.Refuse? || goesOn)
            && (header == Ok(KeepAliveString(ReadsMore(n3.log, left.net.log))) <==>
                reply.Refuse? || (goesOn && (n2.alive == [] || n2.alive[0]) && Packets(n2.arrivals, 1) != []))
  {
    hide ReplyTo, ParseRequest, ExtractField, ReadPacket, Take, Framed, Respond, Deliver, KeepAliveString, Packets;
    var q := ParseRequest(request).value;
    var reply := ReplyTo(q.path, site);
    var (n3, again) := Respond(n2, request, site);
    HeaderTellsVerdict(n2, request, site);
    ReplyMeans(q.path, site);
    FramedFlag(reply.message);
    Responds(n2, request, site);
    assert !ReadsMore(n3.log, n3.log);
    if again == Ok(true) && polls > 1 {
      ComesBack(n3, polls - 1, site);
      PacketArrives(n3.IsAlive().0);
    }
  }

  /** A packet that arrives in one piece. */
  lemma ReadsAtOnce(m: string, n: Net, rest: seq<Arrival>)
    requires EndsPacket(m) && m != "" && |m| <= BUFFER_SIZE && n.arrivals == [Data(m)] + rest
    ensures var (n', r, got) := ReadPacket(n);
            && r > 0 && got == m && n'.arrivals == rest
            && n'.answers == n.answers && n'.alive == n.alive && n'.sent == n.sent
  {
    hide At;
    assert !EndsPacket("");
    var n' := n.Recv(BUFFER_SIZE).0;
    assert n'.arrivals == rest && "" + m == m;
    assert ReadFrom("", n) == ReadFrom(m, n');
  }

  lemma IndexFile(directory: string)
    ensures GetContentType(directory + "/index.html") == Ok("text/html")
  {
    var s, d := directory + "/index.html", |directory| + 6;
    assert s[d] == '.' && forall j :: d < j < |s| ==> s[j] == "html"[j - d - 1];
    assert LastOf(s, '.') == Some(d);
    assert s[d..] == ".html";
  }

  lemma ServedIsNotEmpty(site: Site)
    ensures ReplyTo("/index.html", site).Serve? ==> ReplyTo("/index.html", site).message != ""
  {
    hide GetContentType;
  }

  lemma FileIsServed(site: Site)
    requires CString(site.directory + "/index.html") in site.files
    ensures var reply := ReplyTo("/index.html", site);
            reply.Serve? && reply.message != "" && ExtractField(reply.message, CONNECTION) == Ok("keep-alive")
  {
    hide ReplyTo, ExtractField, Framed, GetContentType;
    IndexFile(site.directory);
    assert |"/index.html"| <= 100 && |"/index.html"| != |".."|;
    ReplyMeans("/index.html", site);
    FramedFlag(ReplyTo("/index.html", site).message);
    ServedIsNotEmpty(site);
  }

  lemma EndsOnce(m: string)
    requires |m| >= 4 && Find(m, BLANK, 0) == Some(|m| - 4)
    ensures EndsPacket(m)
  {
    FindMeans(m, BLANK, 0);
  }

  lemma AnswersWhole(n: Net, n2: Net, m: string, site: Site)
    requires ParseRequest(m) == Ok(Request("GET", "/index.html", "keep-alive")) && ReplyTo("/index.html", site).Serve?
    requires ReplyTo("/index.html", site).message != "" && n2.answers == [] && n2.sent == n.sent
    ensures Respond(n2, m, site).0.sent == n.sent + ReplyTo("/index.html", site).message
    ensures Take(|ReplyTo("/index.html", site).message|, []).r > 0
  {
    hide ReplyTo, ParseRequest, Respond;
    Responds(n2, m, site);
    var message := ReplyTo("/index.html", site).message;
    assert message[..|message|] == message;
  }

  /** `request` is answered with all of `message`, and then no other request is read from the socket. */
  ghost predicate LeftAfter(n: Net, polls: nat, site: Site, request: string, message: string) {
    var n2 := ReadPacket(n.IsAlive().0).0;
    var n3, left := Respond(n2, request, site).0, KeepAlive(n, polls, site);
    && Turn(n, request, n2) && n3.sent == n.sent + message
    && !ReadsMore(n3.log, left.net.log) && (polls == 1 ==> left.net == n3)
  }

  ghost predicate ClientOf(host: string, port: string) {
    '\r' !in host && '\r' !in port && !Contains(host, CONNECTION) && !Contains(port, CONNECTION)
  }

  lemma LeftByLoop(n: Net, polls: nat, site: Site, m: string)
    requires (polls == 1 && n.alive == []) || (polls > 1 && n.alive == [true, false])
    requires n.answers == [] && Turn(n, m, ReadPacket(n.IsAlive().0).0)
    requires var n1 := n.IsAlive().0;
             var n2 := ReadPacket(n1).0;
             n2.answers == [] && n2.sent == n.sent && n2.alive == n1.alive
    requires ParseRequest(m) == Ok(Request("GET", "/index.html", "keep-alive")) && ReplyTo("/index.html", site).Serve?
    requires ReplyTo("/index.html", site).message != ""
    requires ExtractField(ReplyTo("/index.html", site).message, CONNECTION) == Ok("keep-alive")
    ensures LeftAfter(n, polls, site, m, ReplyTo("/index.html", site).message)
  {
    hide ReplyTo, ParseRequest, ExtractField, ReadPacket, Respond, KeepAlive, Take, ReadsMore, Lower;
    var n2 := ReadPacket(n.IsAlive().0).0;
    HeaderIsTrue(n, polls, site, m, n2);
    AnswersWhole(n, n2, m, site);
    FramedFlag(m);
    assert polls > 1 ==> n2.alive == [false];
  }

  /** The repository's own client asks to be kept alive, gets its file whole with keep-alive, and is left: because stop
      is seen next, or because it is idle for longer than select waits. */
  lemma ClientIsLeft(host: string, port: string, n: Net, polls: nat, site: Site)
    requires ClientOf(host, port) && |CreateGET(host, port)| <= BUFFER_SIZE
    requires n.arrivals == [Data(CreateGET(host, port))] && n.answers == []
    requires (polls == 1 && n.alive == []) || (polls > 1 && n.alive == [true, false])
    requires CString(site.directory + "/index.html") in site.files
    ensures ReplyTo("/index.html", site).Serve?
    ensures LeftAfter(n, polls, site, CreateGET(host, port), ReplyTo("/index.html", site).message)
    ensures ExtractField(ReplyTo("/index.html", site).message, CONNECTION) == Ok("keep-alive")
  {
    hide ReplyTo, ParseRequest, ExtractField, ReadPacket, Respond, KeepAlive, CreateGET, EndsPacket, Find, CString;
    var m := CreateGET(host, port);
    ClientRequest(host, port);
    EndsOnce(m);
    FileIsServed(site);
    ReadsAtOnce(m, n.IsAlive().0, []);
    LeftByLoop(n, polls, site, m);
  }

  // Which requests end the worker

  /** Parse raises, or the path is acceptable and its extension is not in the table. */
  ghost predicate Raises(request: string, site: Site) {
    match ParseRequest(request)
    case Thrown(_) => true
    case Ok(q) =>
      q.command == "GET" && |q.path| <= 100 && q.path != ".." && !HasType(site.directory + q.path)
  }

  /** What the reply raises. */
  lemma ReplyRaises(path: string, site: Site)
    ensures ReplyTo(path, site).Raise? <==> |path| <= 100 && path != ".." && !HasType(site.directory + path)
  {
    TypedMeans(site.directory + path);
    hide GetContentType, HasType, Create200, Create400, Create404, CString;
  }

  lemma RequestsThatRaise(n: Net, request: string, site: Site)
    ensures Respond(n, request, site).1.Thrown? <==> Raises(request, site)
    ensures Deliver(request, n.answers, site).again.Thrown? <==> Raises(request, site)
  {
    if ParseRequest(request).Ok? {
      ReplyRaises(ParseRequest(request).value.path, site);
    }
    hide ParseRequest, HasType, WritePacket, ReplyTo, Create404;
  }

  /** The loop gets as far as the `k`-th packet: the socket is found alive each time, and the earlier ones let it go on. */
  ghost predicate Reached(requests: seq<string>, answers: seq<int>, alive: seq<bool>, site: Site, k: nat)
    decreases k
  {
    && k < |requests| && (alive == [] || alive[0])
    && (k > 0 ==>
          var d := Deliver(requests[0], answers, site);
          d.again == Ok(true) && Reached(requests[1..], d.answers, if alive == [] then [] else alive[1..], site, k - 1))
  }

  ghost predicate RaisesAt(requests: seq<string>, answers: seq<int>, alive: seq<bool>, site: Site, k: nat) {
    Reached(requests, answers, alive, site, k) && Raises(requests[k], site)
  }

  lemma {:induction false} DeliveriesThatRaise(requests: seq<string>, answers: seq<int>, alive: seq<bool>, site: Site)
    ensures DeliverAll(requests, answers, alive, site).error.Some? <==>
            exists k: nat :: RaisesAt(requests, answers, alive, site, k)
  {
    hide Deliver, Raises;
    if requests == [] || (alive != [] && !alive[0]) {
    } else {
      RequestsThatRaise(Net([], answers, [], "", []), requests[0], site);
      var d := Deliver(requests[0], answers, site);
      if d.again == Ok(true) {
        var later := if alive == [] then [] else alive[1..];
        DeliveriesThatRaise(requests[1..], d.answers, later, site);
        if k: nat :| RaisesAt(requests[1..], d.answers, later, site, k) {
          assert RaisesAt(requests, answers, alive, site, k + 1);
        }
        if k: nat :| RaisesAt(requests, answers, alive, site, k) {
          assert k > 0;
          assert RaisesAt(requests[1..], d.answers, later, site, k - 1);
        }
      } else {
        if d.again.Thrown? {
          assert RaisesAt(requests, answers, alive, site, 0);
        }
        assert forall k: nat :: RaisesAt(requests, answers, alive, site, k) ==> k == 0;
      }
    }
  }

  ghost predicate SessionRaises(n: Net, polls: nat, site: Site) {
    exists k: nat :: RaisesAt(Packets(n.arrivals, polls), n.answers, n.alive, site, k)
  }

  /** A session ends by an exception if and only if the loop gets as far as a packet that Parse does not take, or a GET
      of an acceptable path with an unknown extension. */
  lemma SessionsThatRaise(n: Net, polls: nat, site: Site)
    ensures KeepAlive(n, polls, site).error.Some? <==> SessionRaises(n, polls, site)
  {
    hide KeepAlive, DeliverAll, RaisesAt;
    SessionDelivers(n, polls, site);
    DeliveriesThatRaise(Packets(n.arrivals, polls), n.answers, n.alive, site);
  }

  /** And so does a worker, in the last of its sessions; the sockets it has not come to stay as they are. */
  lemma WorkersThatDie(nets: seq<Option<Net>>, polls: nat, site: Site) returns (served: nat, starts: seq<nat>)
    ensures var left := Workers.Run(nets, polls, site);
            && ServedPrefix(nets, polls, left, served, starts, site)
            && (left.error.Some? <==>
                served > 0 && nets[served - 1].Some? && SessionRaises(nets[served - 1].value, starts[served - 1], site))
            && left.nets[served..] == nets[served..]
  {
    hide KeepAlive, SessionRaises, StartsRight, AfterLoop;
    served, starts := ServesAPrefix(nets, polls, site);
    if served > 0 && nets[served - 1].Some? {
      SessionsThatRaise(nets[served - 1].value, starts[served - 1], site);
    }
  }

  const NO_SPACE_AFTER: string := CONNECTION + ":close" + CRLF

  lemma NoSpaceLine()
    ensures Free(CONNECTION + ":close", " ") && '\r' !in CONNECTION + ":close"
  {
  }

  lemma NoSpaceRaises()
    ensures ExtractField(NO_SPACE_AFTER + CRLF, CONNECTION) == Thrown(OutOfRange)
  {
    hide ExtractField, Contains;
    var line := CONNECTION + ":close";
    NoSpaceLine();
    NoCrNoCrlf(line);
    AtMeans(line, CONNECTION, 0);
    assert line[0..|CONNECTION|] == CONNECTION && line[0..] == line;
    assert AfterSpaces(line).None?;
    LineDecides(line, CRLF, 0);
    FindOne(CRLF, ' ', 0);
  }

  lemma RootLine()
    ensures Line("GET", "/", ' ', "HTTP/1.1") == "GET / HTTP/1.1" && Printable("GET", "/", ' ', "HTTP/1.1")
    ensures 'C' !in "GET / HTTP/1.1" && '\r' !in "GET" && '\r' !in "/" && '\r' !in "HTTP/1.1"
  {
  }

  const LEGAL_REQUEST: string := "GET / HTTP/1.1" + CRLF + (NO_SPACE_AFTER + CRLF)

  /** GET / HTTP/1.1 with the header Connection:close, without a space, which HTTP allows. */
  lemma LegalRequestRaises()
    ensures ParseRequest(LEGAL_REQUEST) == Thrown(OutOfRange)
  {
    hide ExtractField, ParseRequest, Contains;
    RootLine();
    NoCrNoCrlf("GET");
    NoCrNoCrlf("/");
    NoCrNoCrlf("HTTP/1.1");
    LacksChar("GET / HTTP/1.1", CONNECTION, 0);
    LineIsSkipped("GET / HTTP/1.1", NO_SPACE_AFTER + CRLF);
    NoSpaceRaises();
    ParsePrinted("GET", "/", ' ', "HTTP/1.1", NO_SPACE_AFTER + CRLF);
  }

  lemma LegalRequestIsAPacket()
    ensures EndsPacket(LEGAL_REQUEST) && LEGAL_REQUEST != "" && |LEGAL_REQUEST| <= BUFFER_SIZE
  {
    var m := LEGAL_REQUEST;
    AtMeans(m, BLANK, |m| - 4);
    assert m[|m| - 4..|m|] == BLANK;
  }

  /** A worker that reads it is gone, and the sockets that were to come to it stay as they are. */
  lemma OneRequestEndsTheWorker(n: Net, rest: seq<Arrival>, others: seq<Option<Net>>, polls: nat, site: Site)
    requires n.arrivals == [Data(LEGAL_REQUEST)] + rest && (n.alive == [] || n.alive[0]) && polls >= 2
    ensures var left := Workers.Run([Some(n)] + others, polls, site);
            left.error == Some(OutOfRange) && left.nets[1..] == others
  {
    hide ReadPacket, ParseRequest;
    LegalRequestRaises();
    LegalRequestIsAPacket();
    ReadsAtOnce(LEGAL_REQUEST, n.IsAlive().0, rest);
    assert KeepAlive(n, polls - 1, site).error == Some(OutOfRange);
  }
}
