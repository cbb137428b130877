/** Which bytes the peer has after a session, whatever it sends, whatever the kernel answers, whenever stop comes. */
module Delivery {
  import opened Wrappers
  import opened HttpPacket
  import opened PacketParse
  import opened HttpMessages
  import opened Transport
  import opened Framing
  import opened Session

  // One Write, in numbers

  /** Of the bytes to be sent `k` go out, Write returns `r`, and these answers of send remain. */
  datatype Shot = Shot(k: nat, r: int, answers: seq<int>)

  function Take(length: nat, answers: seq<int>): (shot: Shot)
    ensures shot.k <= length && (shot.r == shot.k || shot.r < 0)
  {
    if answers == [] then Shot(length, length, [])
    else
      var a := if answers[0] <= length then answers[0] else length;
      if a <= 0 then Shot(0, a, answers[1..])
      else
        var rest := Take(length - a, answers[1..]);
        Shot(a + rest.k, if rest.r < 0 then rest.r else a + rest.r, rest.answers)
  }

  lemma FirstTake(length: nat, answers: seq<int>, size: int)
    requires var answer := if answers == [] then length else answers[0];
             size == if answer <= length then answer else length
    ensures var rest := if answers == [] then [] else answers[1..];
            Take(length, answers) ==
            if length == 0 || size <= 0 then Shot(0, size, rest)
            else
              var later := Take(length - size, rest);
              Shot(size + later.k, if later.r < 0 then later.r else size + later.r, later.answers)
  {
  }

  /** Write sends and returns what the kernel's answers come to. */
  lemma {:induction false} WriteTakes(data: string, offset: nat, n: Net)
    requires offset <= |data|
    ensures var (n', r) := WriteFrom(data, offset, n);
            var shot := Take(|data| - offset, n.answers);
            && n'.sent == n.sent + data[offset..offset + shot.k]
            && r == (if shot.r < 0 then shot.r else offset + shot.r)
            && n'.answers == shot.answers && n'.arrivals == n.arrivals && n'.alive == n.alive
    decreases |data| - offset
  {
    var (n', size) := n.Send(data[offset..]);
    FirstTake(|data| - offset, n.answers, size);
    if offset < |data| && size > 0 {
      WriteTakes(data, offset + size, n');
      hide Take;
      PrefixGrows(n.sent, data, offset, size, offset + size + Take(|data| - offset - size, n'.answers).k);
    } else {
      hide Take;
      assert data[offset..offset] == "" && n.sent + "" == n.sent;
    }
  }

  lemma {:induction false} TakesAll(length: nat, answers: seq<int>)
    requires Positive(answers)
    ensures var shot := Take(length, answers); shot.k == shot.r == length && Positive(shot.answers)
  {
    if answers == [] {
    } else {
      assert answers[0] in answers && forall a :: a in answers[1..] ==> a in answers;
      if length > 0 {
        TakesAll(length - if answers[0] <= length then answers[0] else length, answers[1..]);
      }
    }
  }

  // One response

  lemma PacketTakes(n: Net, m: string)
    ensures var (n', r) := WritePacket(n, m);
            var shot := Take(|m|, n.answers);
            && n'.sent == n.sent + m[..shot.k] && r == shot.r
            && n'.answers == shot.answers && n'.arrivals == n.arrivals && n'.alive == n.alive
  {
    WriteTakes(m, 0, n.Log(Attempt(m)));
    assert m[0..Take(|m|, n.answers).k] == m[..Take(|m|, n.answers).k];
  }

  lemma SameLength(sent: string, a: string, b: string)
    requires sent + a == sent + b
    ensures |a| == |b|
  {
    assert |sent + a| == |sent + b|;
  }

  /** The last send of a write, and what it says of the whole. */
  lemma LastSend(m: string, n: Net)
    ensures var log := WriteFrom(m, 0, n.Log(Attempt(m))).0.log;
            var shot := Take(|m|, n.answers);
            && log != [] && log[|log| - 1].Sent?
            && log[|log| - 1].length == |m| - shot.k && log[|log| - 1].r == (if shot.r < 0 then shot.r else 0)
  {
    hide Take;
    var n1 := n.Log(Attempt(m));
    var k, events := WriteMeans(m, 0, n1);
    WriteTakes(m, 0, n1);
    SameLength(n1.sent, m[0..k], m[0..Take(|m|, n.answers).k]);
    assert events != [];
  }

  /** What ProcessGET takes for success, what the peer then has, and where the two come apart: success with a part of
      the file if and only if a send of something, not the first, took nothing; failure with all of it if and only if
      the closing send of nothing failed. */
  lemma FileOutcome(n: Net, m: string)
    requires m != ""
    ensures var (n', ok) := ProcessReply(n, Serve(m));
            var shot, page := Take(|m|, n.answers), Create404(false);
            var log := WriteFrom(m, 0, n.Log(Attempt(m))).0.log;
            && ok == Ok(shot.r > 0)
            && n'.sent == n.sent + m[..shot.k] + (if shot.r > 0 then "" else page[..Take(|page|, shot.answers).k])
            && log != [] && var last := log[|log| - 1];
               && last.Sent?
               && (ok == Ok(true) && shot.k < |m| <==> 0 < last.length < |m| && last.r == 0)
               && (ok == Ok(false) && shot.k == |m| <==> last.length == 0 && last.r < 0)
  {
    hide WritePacket, Create404, Take, WriteFrom;
    var (n1, r) := WritePacket(n, m);
    PacketTakes(n, m);
    PacketTakes(n1, Create404(false));
    LastSend(m, n);
    assert n1.sent + "" == n1.sent;
  }

  /** Success and the whole file at once: exactly when the last send of the write asks for nothing and does not fail. */
  lemma WholeFile(n: Net, m: string)
    requires m != ""
    ensures var (n', ok) := ProcessReply(n, Serve(m));
            var log := WriteFrom(m, 0, n.Log(Attempt(m))).0.log;
            && log != []
            && (ok == Ok(true) && n'.sent == n.sent + m <==> log[|log| - 1] == Sent(0, 0))
            && (ok == Ok(true) && n'.sent == n.sent + m <==> Take(|m|, n.answers).r == |m|)
  {
    hide Create404, Take, ProcessReply, WritePacket;
    var shot := Take(|m|, n.answers);
    LastSend(m, n);
    FileOutcome(n, m);
    assert m[..|m|] == m;
    if shot.r > 0 {
      assert n.sent + m[..shot.k] + "" == n.sent + m[..shot.k];
      assert shot.k < |m| ==> |n.sent + m[..shot.k]| != |n.sent + m|;
    }
  }

  /** A send of three bytes, then one of none: the peer has three bytes of the file, and the server takes it for sent. */
  lemma PartIsSuccess(n: Net, m: string)
    requires |m| > 3 && n.answers == [3, 0]
    ensures var (n', ok) := ProcessReply(n, Serve(m)); ok == Ok(true) && n'.sent == n.sent + m[..3]
  {
    hide ProcessReply, Create404;
    var rest := n.answers[1..];
    assert rest == [0] && Take(|m| - 3, rest) == Shot(0, 0, rest[1..]);
    assert Take(|m|, n.answers).k == Take(|m|, n.answers).r == 3;
    FileOutcome(n, m);
    assert n.sent + m[..3] + "" == n.sent + m[..3];
  }

  /** All of it, then an error of the closing send: the peer has the file, and a 404 page after it. */
  lemma WholeIsFailure(n: Net, m: string)
    requires m != "" && n.answers == [|m|, -1]
    ensures var (n', ok) := ProcessReply(n, Serve(m));
            ok == Ok(false) && n'.sent == n.sent + m + Create404(false)
  {
    hide ProcessReply, Create404;
    var rest, page := n.answers[1..], Create404(false);
    assert rest == [-1] && Take(0, rest) == Shot(0, -1, []);
    assert Take(|m|, n.answers) == Shot(|m|, -1, []);
    FileOutcome(n, m);
    assert m[..|m|] == m && page[..|page|] == page;
  }

  // One request

  /** What the peer gets for a request, whether another may follow, and the answers of send that are left. */
  datatype Delivered = Delivered(output: string, again: Outcome<bool>, answers: seq<int>)

  function Deliver(request: string, answers: seq<int>, site: Site): Delivered {
    match ParseRequest(request)
    case Thrown(e) => Delivered("", Thrown(e), answers)
    case Ok(q) =>
      if !q.IsGet() then Delivered("", Ok(q.KeepAlive()), answers)
      else
        match ReplyTo(q.path, site)
        case Raise(e) => Delivered("", Thrown(e), answers)
        case Refuse(m) => var shot := Take(|m|, answers); Delivered(m[..shot.k], Ok(false), shot.answers)
        case Serve(m) =>
          var shot, page := Take(|m|, answers), Create404(false);
          if shot.r > 0 then Delivered(m[..shot.k], Ok(q.KeepAlive()), shot.answers)
          else
            var last := Take(|page|, shot.answers);
            Delivered(m[..shot.k] + page[..last.k], Ok(false), last.answers)
  }

  lemma Responds(n: Net, request: string, site: Site)
    ensures var (n', again) := Respond(n, request, site);
            var d := Deliver(request, n.answers, site);
            && n'.sent == n.sent + d.output && again == d.again && n'.answers == d.answers
            && n'.arrivals == n.arrivals && n'.alive == n.alive
  {
    hide ReplyTo, WritePacket, ParseRequest, Create404, Take;
    assert n.sent + "" == n.sent;
    match ParseRequest(request) {
      case Thrown(e) =>
      case Ok(q) =>
        match ReplyTo(q.path, site) {
          case Raise(e) =>
          case Refuse(m) => PacketTakes(n, m);
          case Serve(m) =>
            PacketTakes(n, m);
            PacketTakes(WritePacket(n, m).0, Create404(false));
        }
    }
  }

  // The whole session

  /** The packets that Read makes of what arrives, at most `limit` of them. */
  function Packets(arrivals: seq<Arrival>, limit: nat): seq<string>
    decreases limit
  {
    if limit == 0 then []
    else
      var (n, r, got) := ReadFrom("", Net(arrivals, [], [], "", []));
      if r <= 0 then [] else [got] + Packets(n.arrivals, limit - 1)
  }

  /** They follow each other in the stream without gap or overlap. */
  lemma {:induction false} PacketsAreTheStream(arrivals: seq<Arrival>, limit: nat)
    ensures Concat(Packets(arrivals, limit)) <= Stream(arrivals)
    decreases limit
  {
    hide ReadFrom, Stream;
    if limit == 0 {
    } else {
      var n0 := Net(arrivals, [], [], "", []);
      var (n, r, got) := ReadFrom("", n0);
      if r > 0 {
        ReadKeepsTheStream("", n0);
        assert "" + Stream(arrivals) == Stream(arrivals);
        PacketsAreTheStream(n.arrivals, limit - 1);
        assert ([got] + Packets(n.arrivals, limit - 1))[1..] == Packets(n.arrivals, limit - 1);
      }
    }
  }

  /** What the peer has in the end, and the exception that ends the worker, if any. */
  datatype Served = Served(output: string, error: Option<Exception>)

  /** One request after the other, as long as the socket is alive. */
  function DeliverAll(requests: seq<string>, answers: seq<int>, alive: seq<bool>, site: Site): Served {
    if requests == [] || (alive != [] && !alive[0]) then Served("", None)
    else
      var d := Deliver(requests[0], answers, site);
      match d.again
      case Thrown(e) => Served(d.output, Some(e))
      case Ok(false) => Served(d.output, None)
      case Ok(true) =>
        var rest := DeliverAll(requests[1..], d.answers, if alive == [] then [] else alive[1..], site);
        Served(d.output + rest.output, rest.error)
  }

  /** The peer has got what was to be served, and the worker ends as the specification says. */
  predicate Refines(n: Net, left: Left, served: Served) {
    left.net.sent == n.sent + served.output && left.error == served.error
  }

  /** Read looks at what arrives and at nothing else. */
  lemma {:induction false} ReadsArrivals(got: string, n: Net, m: Net)
    requires |got| <= BUFFER_SIZE && n.arrivals == m.arrivals
    ensures var (n', r, got') := ReadFrom(got, n);
            && (n'.arrivals, r, got') == (ReadFrom(got, m).0.arrivals, ReadFrom(got, m).1, ReadFrom(got, m).2)
            && n'.sent == n.sent && n'.answers == n.answers && n'.alive == n.alive
    decreases BUFFER_SIZE - |got|
  {
    hide EndsPacket;
    if !EndsPacket(got) {
      var (n', r, bytes) := n.Recv(BUFFER_SIZE - |got|);
      if r > 0 {
        ReadsArrivals(got + bytes, n', m.Recv(BUFFER_SIZE - |got|).0);
      }
    }
  }

  lemma Composes(n: Net, n': Net, output: string, left: Left, served: Served)
    requires n'.sent == n.sent + output && Refines(n', left, served)
    ensures Refines(n, left, Served(output + served.output, served.error))
  {
    assert n.sent + output + served.output == n.sent + (output + served.output);
  }

  /** Every session: the peer has the answers to the packets that arrive, one after the other, each cut where the
      kernel cut it; and the worker ends as that says. */
  lemma {:induction false} SessionDelivers(n: Net, polls: nat, site: Site)
    ensures Refines(n, KeepAlive(n, polls, site), DeliverAll(Packets(n.arrivals, polls), n.answers, n.alive, site))
    decreases polls
  {
    hide Respond, Deliver, ReadFrom;
    assert n.sent + "" == n.sent;
    if polls == 0 {
    } else {
      var (n1, alive) := n.IsAlive();
      ReadsArrivals("", n1, Net(n.arrivals, [], [], "", []));
      var (n2, r, request) := ReadPacket(n1);
      if alive && r > 0 {
        Responds(n2, request, site);
        var n3, d := Respond(n2, request, site).0, Deliver(request, n.answers, site);
        if d.again == Ok(true) {
          SessionDelivers(n3, polls - 1, site);
          var later := Packets(n3.arrivals, polls - 1);
          assert ([request] + later)[1..] == later;
          Composes(n, n3, d.output, KeepAlive(n3, polls - 1, site), DeliverAll(later, n3.answers, n3.alive, site));
        }
      }
    }
  }
}
