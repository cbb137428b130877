/** One worker at its sockets: Commander::ProcessGET and the loops of Worker. */
module Session {
  import opened Wrappers
  import opened Text
  import opened HttpPacket
  import opened PacketParse
  import opened HttpMessages
  import opened StopTokens
  import opened Transport

  /** The directory served, and what opening a path finds: the files do not change while a worker runs. */
  datatype Site = Site(directory: string, files: map<string, string>)

  // What a GET is answered with

  datatype Reply =
    | Raise(error: Exception)   // no answer: an exception
    | Refuse(message: string)   // an error page, after which the connection is closed
    | Serve(message: string)    // the file

  /** `c_str()` ends at the first NUL. */
  function CString(s: string): string {
    match FirstOf(s, "\0", 0) case Some(i) => s[..i] case None => s
  }

  /** A path without NUL is opened as it is, and any other up to its first NUL. */
  lemma CStringMeans(s: string, rest: string)
    requires '\0' !in s
    ensures CString(s) == s && CString(s + "\0" + rest) == s
  {
    var t := s + "\0" + rest;
    assert forall j :: 0 <= j < |s| ==> t[j] == s[j];
    assert t[|s|] == '\0';
    assert FirstOf(t, "\0", 0) == Some(|s|);
    assert t[..|s|] == s;
  }

  function ReplyTo(path: string, site: Site): Reply {
    if |path| > 100 then Refuse(Create400(false))
    else if path == ".." then Refuse(Create404(false))
    else
      var fullPath := site.directory + path;
      match GetContentType(fullPath)
      case Thrown(e) => Raise(e)
      case Ok(contentType) =>
        if CString(fullPath) !in site.files then Refuse(Create404(false))
        else Serve(Create200(site.files[CString(fullPath)], contentType, true))
  }

  // The socket operations, with their history

  function ReadPacket(n: Net): (Net, int, string) {
    var (n', r, got) := ReadFrom("", n);
    (n'.Log(if r > 0 then Got(got) else Lost(r)), r, got)
  }

  function WritePacket(n: Net, message: string): (Net, int) {
    var (n', r) := WriteFrom(message, 0, n.Log(Attempt(message)));
    (n'.Log(Wrote(r)), r)
  }

  /** Whether the connection may go on, or the exception; and the socket afterwards. */
  function ProcessReply(n: Net, reply: Reply): (Net, Outcome<bool>) {
    match reply
    case Raise(e) => (n, Thrown(e))
    case Refuse(m) => (WritePacket(n, m).0, Ok(false))
    case Serve(m) =>
      var (n', result) := WritePacket(n, m);
      if result <= 0 then (WritePacket(n', Create404(false)).0, Ok(false)) else (n', Ok(true))
  }

  // The keep-alive loop, as a function

  /** One request: whether the loop is to go round again, or the exception. */
  function Respond(n: Net, buffer: string, site: Site): (Net, Outcome<bool>) {
    match ParseRequest(buffer)
    case Thrown(e) => (n, Thrown(e))
    case Ok(request) =>
      if !request.IsGet() then (n, Ok(request.KeepAlive()))
      else
        var (n', processed) := ProcessReply(n, ReplyTo(request.path, site));
        match processed
        case Thrown(e) => (n', Thrown(e))
        case Ok(goesOn) => (n', Ok(goesOn && request.KeepAlive()))
  }

  /** What the loop leaves: the socket, the number of stop tests still to be answered "no", the exception if any. */
  datatype Left = Left(net: Net, polls: nat, error: Option<Exception>)

  function KeepAlive(n: Net, polls: nat, site: Site): (left: Left)
    ensures left.polls <= polls
    decreases polls
  {
    if polls == 0 then Left(n, 0, None)
    else
      var (n1, alive) := n.IsAlive();
      if !alive then Left(n1, polls - 1, None)
      else
        var (n2, result, buffer) := ReadPacket(n1);
        if result <= 0 then Left(n2, polls - 1, None)
        else
          var (n3, again) := Respond(n2, buffer, site);
          match again
          case Thrown(e) => Left(n3, polls - 1, Some(e))
          case Ok(true) => KeepAlive(n3, polls - 1, site)
          case Ok(false) => Left(n3, polls - 1, None)
  }

  // The same, as the source does it

  method SocketReadPacket(socket: Transport, buffer: Buffer) returns (result: int)
    modifies socket, buffer
    ensures (socket.net, result) == (ReadPacket(old(socket.net)).0, ReadPacket(old(socket.net)).1)
    ensures result > 0 ==> buffer.text == ReadPacket(old(socket.net)).2
  {
    result := Read(buffer, socket);
    socket.Record(if result > 0 then Got(buffer.text) else Lost(result));
  }

  method SocketWritePacket(socket: Transport, message: string) returns (result: int)
    modifies socket
    ensures (socket.net, result) == WritePacket(old(socket.net), message)
  {
    socket.Record(Attempt(message));
    result := Write(message, socket);
    socket.Record(Wrote(result));
  }

  /** Commander::ProcessGET. */
  method ProcessGET(socket: Transport, packet: Packet, site: Site) returns (r: Outcome<bool>)
    modifies socket
    ensures (socket.net, r) == match packet.GetPath()
                               case Ok(path) => ProcessReply(old(socket.net), ReplyTo(path, site))
                               case Thrown(e) => (old(socket.net), Thrown(e))
  {
    hide GetContentType, Create200, Create400, Create404, WritePacket;
    if packet.GetPath().Thrown? {
      return Thrown(packet.GetPath().error);
    }
    var path := packet.GetPath().value;
    var result;
    if |path| > 100 {
      result := SocketWritePacket(socket, Create400(false));
      return Ok(false);
    }
    if path == ".." {
      result := SocketWritePacket(socket, Create404(false));
      return Ok(false);
    }
    var fullPath := site.directory + path;
    var contentType := GetContentType(fullPath);
    if contentType.Thrown? {
      return Thrown(contentType.error);
    }
    if CString(fullPath) !in site.files {
      result := SocketWritePacket(socket, Create404(false));
      return Ok(false);
    }
    var body := site.files[CString(fullPath)];
    var message := Create200(body, contentType.value, true);
    result := SocketWritePacket(socket, message);
    if result <= 0 {
      result := SocketWritePacket(socket, Create404(false));
      return Ok(false);
    }
    return Ok(true);
  }

  lemma ParamsOf(r: Request)
    ensures "command" in r.Params() && r.Params()["command"] == r.command
    ensures "path" in r.Params() && r.Params()["path"] == r.path
    ensures CONNECTION in r.Params() && r.Params()[CONNECTION] == r.connection
  {
    assert |"command"| == 7 && |"path"| == 4 && |CONNECTION| == 10;
  }

  /** The loop `while (isKA && !st.stop_requested())` of Worker. */
  method KeepAliveLoop(socket: Transport, st: StopToken, site: Site) returns (error: Option<Exception>)
    modifies socket, st
    ensures Left(socket.net, st.polls, error) == KeepAlive(old(socket.net), old(st.polls), site)
  {
    hide ProcessReply, ReplyTo, ReadPacket, ParseRequest;
    error := None;
    ghost var whole := KeepAlive(socket.net, st.polls, site);
    var isKA := true;
    while true
      invariant (if isKA then KeepAlive(socket.net, st.polls, site) else Left(socket.net, st.polls, None)) == whole
      decreases st.polls
    {
      if !isKA {
        break;
      }
      var stop := st.StopRequested();
      if stop {
        break;
      }
      var alive := socket.IsAlive();
      if !alive {
        break;
      }
      var buffer := new Buffer();
      var result := SocketReadPacket(socket, buffer);
      if result <= 0 {
        break;
      }
      var packet := Parse(buffer.text);
      if packet.Thrown? {
        return Some(packet.error);
      }
      ParamsOf(ParseRequest(buffer.text).value);
      isKA := packet.value.IsKeepAlive().value;
      if packet.value.IsGETMethod().value {
        var processed := ProcessGET(socket, packet.value, site);
        if processed.Thrown? {
          return Some(processed.error);
        }
        if !processed.value {
          break;
        }
      }
    }
  }
}
