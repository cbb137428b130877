/** What every session leaves in the history of its socket, whatever the kernel answers and whenever stop comes. */
module SessionHistory {
  import opened Wrappers
  import opened HttpPacket
  import opened PacketParse
  import opened HttpMessages
  import opened Transport
  import opened Session

  /** The response announces that the connection will be closed. */
  predicate SaysClose(message: string) {
    ExtractField(message, CONNECTION) == Ok("close")
  }

  predicate OfAWrite(e: Event) { e.Sent? || e.Wrote? }
  predicate TriesClose(e: Event) { e.Attempt? && SaysClose(e.message) }

  /** After a response that says close is tried, only its own sends follow: no read, no other response. */
  ghost predicate CloseIsFinal(events: seq<Event>) {
    forall i, j :: 0 <= i < j < |events| && TriesClose(events[i]) ==> OfAWrite(events[j])
  }

  datatype Try = Try(message: string, result: int)

  function FirstResult(events: seq<Event>): int {
    if events == [] then 0 else if events[0].Wrote? then events[0].result else FirstResult(events[1..])
  }

  /** The responses tried before the next request is read, and what Write returned for each. */
  function Tries(events: seq<Event>): seq<Try> {
    if events == [] || events[0].Got? then []
    else if events[0].Attempt? then [Try(events[0].message, FirstResult(events[1..]))] + Tries(events[1..])
    else Tries(events[1..])
  }

  /** The responses a request is to get: none if it raises or is no GET, else the one of `ReplyTo`, and a 404 after
      a file that could not be sent. */
  predicate RightTries(request: string, tries: seq<Try>, site: Site) {
    match ParseRequest(request)
    case Thrown(_) => tries == []
    case Ok(q) =>
      if !q.IsGet() then tries == []
      else
        match ReplyTo(q.path, site)
        case Raise(_) => tries == []
        case Refuse(m) => |tries| == 1 && tries[0].message == m
        case Serve(m) =>
          && tries != [] && tries[0].message == m
          && if tries[0].result > 0 then |tries| == 1 else |tries| == 2 && tries[1].message == Create404(false)
  }

  ghost predicate AllAnswered(events: seq<Event>, site: Site) {
    forall i :: 0 <= i < |events| && events[i].Got? ==> RightTries(events[i].packet, Tries(events[i + 1..]), site)
  }

  // Pieces of a history

  predicate Quiet(e: Event) { !e.Got? && !e.Attempt? }

  predicate AllQuiet(events: seq<Event>) {
    forall i :: 0 <= i < |events| ==> Quiet(events[i])
  }

  /** A run of whole writes: no request is read in it, and every attempt has its result. */
  predicate Writing(events: seq<Event>) {
    && (forall i :: 0 <= i < |events| ==> events[i].Attempt? || OfAWrite(events[i]))
    && (events == [] || events[|events| - 1].Wrote?)
  }

  lemma {:induction false} QuietTries(a: seq<Event>, b: seq<Event>)
    requires AllQuiet(a)
    ensures Tries(a + b) == Tries(b)
  {
    if a == [] {
      assert a + b == b;
    } else {
      assert (a + b)[1..] == a[1..] + b;
      QuietTries(a[1..], b);
    }
  }

  lemma {:induction false} WritingTries(a: seq<Event>, b: seq<Event>)
    requires Writing(a)
    ensures Tries(a + b) == Tries(a) + Tries(b)
    ensures a != [] ==> FirstResult(a + b) == FirstResult(a)
  {
    if a == [] {
      assert a + b == b;
    } else {
      assert (a + b)[1..] == a[1..] + b;
      WritingTries(a[1..], b);
      if |a| == 1 {
        assert a[0].Wrote?;
      }
    }
  }

  // The histories of the socket operations

  lemma {:induction false} ReadFromHistory(got: string, n: Net) returns (events: seq<Event>)
    requires |got| <= BUFFER_SIZE
    ensures ReadFrom(got, n).0.log == n.log + events && AllQuiet(events)
    decreases BUFFER_SIZE - |got|
  {
    hide EndsPacket;
    events := [];
    if !EndsPacket(got) {
      var (n', r, bytes) := n.Recv(BUFFER_SIZE - |got|);
      events := [Received(r)];
      if r > 0 {
        var later := ReadFromHistory(got + bytes, n');
        assert n.log + events + later == n.log + (events + later);
        events := events + later;
      }
    } else {
      assert n.log + [] == n.log;
    }
  }

  lemma {:induction false} WriteFromHistory(data: string, offset: nat, n: Net) returns (events: seq<Event>)
    requires offset <= |data|
    ensures WriteFrom(data, offset, n).0.log == n.log + events && forall i :: 0 <= i < |events| ==> events[i].Sent?
    decreases |data| - offset
  {
    var (n', size) := n.Send(data[offset..]);
    events := [Sent(|data| - offset, size)];
    if offset < |data| && size > 0 {
      var later := WriteFromHistory(data, offset + size, n');
      assert n.log + events + later == n.log + (events + later);
      events := events + later;
    }
  }

  lemma {:induction false} SendsTries(sends: seq<Event>, r: int)
    requires forall i :: 0 <= i < |sends| ==> sends[i].Sent?
    ensures Tries(sends + [Wrote(r)]) == [] && FirstResult(sends + [Wrote(r)]) == r
  {
    if sends == [] {
      assert sends + [Wrote(r)] == [Wrote(r)];
    } else {
      assert (sends + [Wrote(r)])[1..] == sends[1..] + [Wrote(r)];
      SendsTries(sends[1..], r);
    }
  }

  /** One write: the attempt, its sends, its result. */
  lemma WriteHistory(n: Net, m: string) returns (events: seq<Event>)
    ensures WritePacket(n, m).0.log == n.log + events
    ensures Writing(events) && Tries(events) == [Try(m, WritePacket(n, m).1)]
    ensures events[0] == Attempt(m) && forall i :: 0 < i < |events| ==> OfAWrite(events[i])
  {
    hide WriteFrom;
    var r := WritePacket(n, m).1;
    var sends := WriteFromHistory(m, 0, n.Log(Attempt(m)));
    events := [Attempt(m)] + sends + [Wrote(r)];
    assert n.log + [Attempt(m)] + sends + [Wrote(r)] == n.log + events;
    assert events[1..] == sends + [Wrote(r)];
    SendsTries(sends, r);
  }

  // What a GET is answered with, as the peer reads it

  /** The path is acceptable and its extension known. */
  predicate Askable(path: string, site: Site) {
    |path| <= 100 && path != ".." && GetContentType(site.directory + path).Ok?
  }

  /** Which requests raise, which are refused and with which page, and what the peer finds in a file's response. */
  lemma ReplyMeans(path: string, site: Site)
    ensures var reply, file := ReplyTo(path, site), CString(site.directory + path);
            && (reply.Serve? <==> Askable(path, site) && file in site.files)
            && (reply.Raise? <==> |path| <= 100 && path != ".." && !Askable(path, site))
            && (reply.Serve? ==>
                  && StatusOf(reply.message) == "200"
                  && Framed(reply.message, "Content-length", site.files[file], true)
                  && ExtractField(reply.message, "Content-Type") == GetContentType(site.directory + path))
            && (reply.Refuse? ==>
                  if |path| > 100 then
                    StatusOf(reply.message) == "400" && Framed(reply.message, "Content-Length", "Bad Request", false)
                  else
                    && StatusOf(reply.message) == "404" && Framed(reply.message, "Content-length", NOT_FOUND, false)
                    && ExtractField(reply.message, "Content-Type") == Ok("text/html"))
  {
    hide Framed, GetContentType, Create200, Create400, Create404, ExtractField, CString, StatusOf;
    var contentType := GetContentType(site.directory + path);
    var file := CString(site.directory + path);
    Framing400(false);
    Framing404(false);
    Status400(false);
    Status404(false);
    ContentType404(false);
    if contentType.Ok? && file in site.files {
      Status200(site.files[file], contentType.value, true);
      ContentTypesArePlain(site.directory + path);
      Framing200(site.files[file], contentType.value, true);
      ContentType200(site.files[file], contentType.value, true);
    }
  }

  /** The same for a full path without NUL, through nothing but the path, the extensions and the files. */
  lemma FileReply(path: string, site: Site)
    requires '\0' !in site.directory + path
    ensures var reply, full := ReplyTo(path, site), site.directory + path;
            && (reply.Serve? <==> |path| <= 100 && path != ".." && HasType(full) && full in site.files)
            && (reply.Raise? <==> |path| <= 100 && path != ".." && !HasType(full))
            && (reply.Raise? ==> reply.error == OutOfRange)
            && (reply.Serve? ==>
                  StatusOf(reply.message) == "200" && Framed(reply.message, "Content-length", site.files[full], true))
  {
    var full := site.directory + path;
    CStringMeans(full, "");
    TypedMeans(full);
    ReplyMeans(path, site);
    hide HasType, Framed, GetContentType, Create200, Create400, Create404, ExtractField, CString, StatusOf;
  }

  // Which responses say close

  lemma FilesKeepAlive(path: string, site: Site)
    requires ReplyTo(path, site).Serve?
    ensures !SaysClose(ReplyTo(path, site).message)
  {
    var fullPath := site.directory + path;
    var contentType := GetContentType(fullPath).value;
    ContentTypesArePlain(fullPath);
    Framing200(site.files[CString(fullPath)], contentType, true);
    assert |KeepAliveString(true)| != |"close"|;
  }

  lemma BadRequestCloses()
    ensures SaysClose(Create400(false))
  {
    Framing400(false);
  }

  lemma NotFoundCloses()
    ensures SaysClose(Create404(false))
  {
    Framing404(false);
  }

  /** Every refusal does say close, and so does the 404 after a failed file. */
  lemma RefusalsClose(path: string, site: Site)
    ensures ReplyTo(path, site).Refuse? ==> SaysClose(ReplyTo(path, site).message)
    ensures SaysClose(Create404(false))
  {
    hide SaysClose;
    BadRequestCloses();
    NotFoundCloses();
  }

  // One request, and the whole session

  ghost predicate NoClose(events: seq<Event>) {
    forall i :: 0 <= i < |events| ==> !TriesClose(events[i])
  }

  lemma CloseAfter(a: seq<Event>, b: seq<Event>)
    requires NoClose(a) && CloseIsFinal(b)
    ensures CloseIsFinal(a + b)
  {
    forall i, j | 0 <= i < j < |a + b| && TriesClose((a + b)[i])
      ensures OfAWrite((a + b)[j])
    {
      assert (a + b)[i] == b[i - |a|] && (a + b)[j] == b[j - |a|];
    }
  }

  lemma TwoWrites(log: seq<Event>, a: seq<Event>, b: seq<Event>)
    requires Writing(a) && Writing(b) && NoClose(a) && CloseIsFinal(b)
    ensures log + a + b == log + (a + b)
    ensures Writing(a + b) && Tries(a + b) == Tries(a) + Tries(b) && CloseIsFinal(a + b)
  {
    hide SaysClose;
    WritingTries(a, b);
    CloseAfter(a, b);
    if b == [] {
      assert a + b == a;
    }
  }

  lemma ReplyHistory(n: Net, path: string, site: Site) returns (events: seq<Event>)
    ensures var (n', r) := ProcessReply(n, ReplyTo(path, site));
            n'.log == n.log + events && (r == Ok(true) ==> NoClose(events))
    ensures Writing(events) && CloseIsFinal(events)
    ensures match ReplyTo(path, site)
            case Raise(_) => Tries(events) == []
            case Refuse(m) => |Tries(events)| == 1 && Tries(events)[0].message == m
            case Serve(m) =>
              && Tries(events) != [] && Tries(events)[0].message == m
              && if Tries(events)[0].result > 0 then |Tries(events)| == 1
                 else |Tries(events)| == 2 && Tries(events)[1].message == Create404(false)
  {
    hide ReplyTo, WritePacket, SaysClose;
    events := [];
    assert n.log + [] == n.log;
    match ReplyTo(path, site) {
      case Raise(_) =>
      case Refuse(m) => events := WriteHistory(n, m);
      case Serve(m) =>
        FilesKeepAlive(path, site);
        events := WriteHistory(n, m);
        var (n', result) := WritePacket(n, m);
        if result <= 0 {
          var page := WriteHistory(n', Create404(false));
          TwoWrites(n.log, events, page);
          events := events + page;
        }
    }
  }

  lemma RespondHistory(n: Net, request: string, site: Site) returns (events: seq<Event>)
    ensures var (n', again) := Respond(n, request, site);
            n'.log == n.log + events && (again == Ok(true) ==> NoClose(events))
    ensures Writing(events) && RightTries(request, Tries(events), site) && CloseIsFinal(events)
  {
    hide ReplyTo, ProcessReply, SaysClose, ParseRequest;
    events := [];
    assert n.log + [] == n.log;
    match ParseRequest(request) {
      case Thrown(_) =>
      case Ok(q) =>
        if q.IsGet() {
          events := ReplyHistory(n, q.path, site);
        }
    }
  }

  /** One turn of the loop that reads a request, or the turn that ends it. */
  lemma TurnOf(n: Net, polls: nat, site: Site)
    returns (quiet: seq<Event>, request: Option<string>, writes: seq<Event>, n': Net, again: bool)
    requires polls > 0
    ensures AllQuiet(quiet)
    ensures request.None? ==> !again && writes == [] && n'.log == n.log + quiet
    ensures request.Some? ==>
              && n'.log == n.log + quiet + [Got(request.value)] + writes
              && Writing(writes) && RightTries(request.value, Tries(writes), site) && CloseIsFinal(writes)
    ensures again ==> NoClose(writes) && KeepAlive(n, polls, site) == KeepAlive(n', polls - 1, site)
    ensures !again ==> KeepAlive(n, polls, site).net == n'
  {
    hide Respond, RightTries, Tries, CloseIsFinal, ReadFrom, Writing;
    var (n1, alive) := n.IsAlive();
    quiet, request, writes, n', again := [Probed(alive)], None, [], n1, false;
    if alive {
      var (n2, result, buffer) := ReadPacket(n1);
      var received := ReadFromHistory("", n1);
      quiet := quiet + received;
      assert n.log + [Probed(alive)] + received == n.log + quiet;
      if result <= 0 {
        n' := n2;
        assert n.log + quiet + [Lost(result)] == n.log + (quiet + [Lost(result)]);
        quiet := quiet + [Lost(result)];
      } else {
        request := Some(buffer);
        writes := RespondHistory(n2, buffer, site);
        n' := Respond(n2, buffer, site).0;
        again := Respond(n2, buffer, site).1 == Ok(true);
      }
    }
  }

  lemma StopsAtOnce(n: Net, site: Site)
    ensures KeepAlive(n, 0, site).net.log == n.log + []
  {
  }

  lemma Regroup(log: seq<Event>, a: seq<Event>, b: seq<Event>, c: seq<Event>, d: seq<Event>)
    ensures log + a + b + c + d == log + (a + b + c + d)
    ensures d == [] ==> log + a + b + c == log + (a + b + c + d)
  {
  }

  lemma QuietHistory(quiet: seq<Event>, site: Site)
    requires AllQuiet(quiet)
    ensures CloseIsFinal(quiet) && AllAnswered(quiet, site) && Tries(quiet) == []
  {
    QuietTries(quiet, []);
    assert quiet + [] == quiet;
  }

  lemma AnsweredAfterWrites(writes: seq<Event>, later: seq<Event>, site: Site)
    requires Writing(writes) && AllAnswered(later, site)
    ensures AllAnswered(writes + later, site)
  {
    hide RightTries;
    var after := writes + later;
    forall i | 0 <= i < |after| && after[i].Got?
      ensures RightTries(after[i].packet, Tries(after[i + 1..]), site)
    {
      assert i >= |writes| && after[i] == later[i - |writes|];
      assert after[i + 1..] == later[i - |writes| + 1..];
    }
  }

  lemma AnsweredAfterGot(quiet: seq<Event>, request: string, after: seq<Event>, site: Site)
    requires AllQuiet(quiet) && AllAnswered(after, site) && RightTries(request, Tries(after), site)
    ensures AllAnswered(quiet + ([Got(request)] + after), site)
    ensures Tries(quiet + ([Got(request)] + after)) == []
  {
    hide RightTries;
    var events := quiet + ([Got(request)] + after);
    QuietTries(quiet, [Got(request)] + after);
    forall i | 0 <= i < |events| && events[i].Got?
      ensures RightTries(events[i].packet, Tries(events[i + 1..]), site)
    {
      var k := |quiet| + 1;
      assert i >= |quiet|;
      if i == |quiet| {
        assert events[i] == Got(request) && events[i + 1..] == after;
      } else {
        assert events[i] == after[i - k] && events[i + 1..] == after[i - k + 1..];
      }
    }
  }

  lemma TurnHistory(quiet: seq<Event>, request: string, writes: seq<Event>, later: seq<Event>, site: Site)
    requires AllQuiet(quiet) && Writing(writes) && RightTries(request, Tries(writes), site) && CloseIsFinal(writes)
    requires NoClose(writes) || later == []
    requires CloseIsFinal(later) && AllAnswered(later, site) && Tries(later) == []
    ensures var events := quiet + [Got(request)] + writes + later;
            CloseIsFinal(events) && AllAnswered(events, site) && Tries(events) == []
  {
    hide RightTries, SaysClose, Writing;
    var after := writes + later;
    assert quiet + [Got(request)] + writes + later == quiet + ([Got(request)] + after);
    WritingTries(writes, later);
    assert Tries(writes) + [] == Tries(writes);
    if later == [] {
      assert after == writes;
    } else {
      CloseAfter(writes, later);
    }
    CloseAfter([Got(request)], after);
    CloseAfter(quiet, [Got(request)] + after);
    AnsweredAfterWrites(writes, later, site);
    AnsweredAfterGot(quiet, request, after, site);
  }

  /** The main result on histories. */
  lemma {:induction false} SessionHistory(n: Net, polls: nat, site: Site) returns (events: seq<Event>)
    ensures KeepAlive(n, polls, site).net.log == n.log + events
    ensures CloseIsFinal(events) && AllAnswered(events, site) && Tries(events) == []
    decreases polls
  {
    hide Respond, RightTries, Tries, CloseIsFinal, AllAnswered, Writing, KeepAlive;
    if polls == 0 {
      events := [];
      QuietHistory([], site);
      StopsAtOnce(n, site);
    } else {
      var quiet, request, writes, n', again := TurnOf(n, polls, site);
      var later := [];
      QuietHistory(later, site);
      if again {
        later := SessionHistory(n', polls - 1, site);
      }
      if request.None? {
        events := quiet;
        QuietHistory(quiet, site);
      } else {
        events := quiet + [Got(request.value)] + writes + later;
        Regroup(n.log, quiet, [Got(request.value)], writes, later);
        TurnHistory(quiet, request.value, writes, later, site);
      }
    }
  }
}
