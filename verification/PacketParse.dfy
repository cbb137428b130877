/** Parsing a request: the struct Packet of HTTPPacket.h and HTTPPacket::Parse. */
module PacketParse {
  import opened Wrappers
  import opened Text
  import opened HttpPacket

  const NO_CRLF := ParseException("\r\n wasn't found")
  const NO_SPACE := ParseException("doesn't find ' '")
  const NO_PATH_END := ParseException("doesn't find ' ?'")

  function LowerChar(c: char): char {
    if 'A' <= c <= 'Z' then c - 'A' + 'a' else c
  }

  function Lower(s: string): string {
    seq(|s|, i requires 0 <= i < |s| => LowerChar(s[i]))
  }

  /** What a packet holds once Parse has filled it. */
  datatype Request = Request(command: string, path: string, connection: string) {

    function Params(): map<string, string> {
      map["command" := command, "path" := path, CONNECTION := connection]
    }

    predicate IsGet() { command == "GET" }

    predicate KeepAlive() { Lower(connection) == "keep-alive" }
  }

  function ParseLine(header: string, connection: Outcome<string>): Outcome<Request> {
    match Find(header, " ", 0)
    case None => Thrown(NO_SPACE)
    case Some(k) =>
      match FirstOf(header, " ?", k + 1)
      case None => Thrown(NO_PATH_END)
      case Some(z) =>
        match connection
        case Thrown(e) => Thrown(e)
        case Ok(v) => Ok(Request(header[..k], header[k + 1..z], v))
  }

  /** What Parse makes of a buffer. */
  function ParseRequest(buffer: string): Outcome<Request> {
    match Find(buffer, CRLF, 0)
    case None => Thrown(NO_CRLF)
    case Some(i) => ParseLine(buffer[..i], ExtractField(buffer, CONNECTION))
  }

  class Packet {
    var params: map<string, string>

    constructor ()
      ensures params == map[]
    {
      params := map[];
    }

    /** `params.insert`: an entry that is there already is kept. */
    method AddParam(name: string, value: string)
      modifies this
      ensures params == if name in old(params) then old(params) else old(params)[name := value]
    {
      if name !in params {
        params := params[name := value];
      }
    }

    /** `params.at(name)`. */
    function Param(name: string): Outcome<string>
      reads this
    {
      if name in params then Ok(params[name]) else Thrown(OutOfRange)
    }

    function GetPath(): Outcome<string>
      reads this
    {
      Param("path")
    }

    function IsGETMethod(): Outcome<bool>
      reads this
    {
      match Param("command") case Ok(c) => Ok("GET" == c) case Thrown(e) => Thrown(e)
    }

    function IsKeepAlive(): Outcome<bool>
      reads this
    {
      match Param(CONNECTION) case Ok(v) => Ok("keep-alive" == Lower(v)) case Thrown(e) => Thrown(e)
    }
  }

  /** HTTPPacket::Parse. */
  method Parse(buffer: string) returns (r: Outcome<Packet>)
    ensures r.Ok? <==> ParseRequest(buffer).Ok?
    ensures r.Ok? ==> fresh(r.value) && r.value.params == ParseRequest(buffer).value.Params()
    ensures r.Thrown? ==> r.error == ParseRequest(buffer).error
  {
    var packet := new Packet();
    var i := Find(buffer, CRLF, 0);
    if i.None? {
      return Thrown(NO_CRLF);
    }
    var header := buffer[..i.value];
    var k := Find(header, " ", 0);
    if k.None? {
      return Thrown(NO_SPACE);
    }
    packet.AddParam("command", header[..k.value]);
    var z := FirstOf(header, " ?", k.value + 1);
    if z.None? {
      return Thrown(NO_PATH_END);
    }
    assert "path" != "command" by { assert |"path"| == 4; assert |"command"| == 7; }
    packet.AddParam("path", header[k.value + 1..z.value]);
    var connection := ExtractField(buffer, CONNECTION);
    if connection.Thrown? {
      return Thrown(connection.error);
    }
    packet.AddParam(CONNECTION, connection.value);
    return Ok(packet);
  }

  /** The keep-alive verdict, letter by letter: `keep-alive` in any mixture of cases, and nothing else. */
  predicate KeepsAlive(value: string) {
    |value| == 10 && forall i :: 0 <= i < 10 ==> value[i] == "keep-alive"[i] || value[i] == "KEEP-ALIVE"[i]
  }

  lemma LowerOf(c: char, i: nat)
    requires i < 10
    ensures LowerChar(c) == "keep-alive"[i] <==> c == "keep-alive"[i] || c == "KEEP-ALIVE"[i]
  {
  }

  lemma VerdictMeans(command: string, path: string, value: string)
    ensures Request(command, path, value).KeepAlive() <==> KeepsAlive(value)
  {
    hide LowerChar;
    forall i | 0 <= i < |value| && i < 10
      ensures Lower(value)[i] == "keep-alive"[i] <==> value[i] == "keep-alive"[i] || value[i] == "KEEP-ALIVE"[i]
    {
      LowerOf(value[i], i);
    }
  }

  // Parse and printing are inverse

  /** A request line: command, path, the separator that ends the path, and whatever follows it. */
  function Line(command: string, path: string, separator: char, rest: string): string {
    command + " " + path + [separator] + rest
  }

  predicate Printable(command: string, path: string, separator: char, rest: string) {
    Free(command, " ") && Free(path, " ?") && separator in " ?"
  }

  lemma ParsePrintedLine(command: string, path: string, separator: char, rest: string, connection: Outcome<string>)
    requires Printable(command, path, separator, rest)
    ensures ParseLine(Line(command, path, separator, rest), connection) ==
            match connection case Ok(v) => Ok(Request(command, path, v)) case Thrown(e) => Thrown(e)
  {
    var header := Line(command, path, separator, rest);
    var k := |command|;
    var z := k + 1 + |path|;
    assert forall j :: 0 <= j < k ==> header[j] == command[j];
    assert header[k] == ' ' && ' ' in " ";
    assert FirstOf(header, " ", 0) == Some(k);
    FindOne(header, ' ', 0);
    assert forall j :: k + 1 <= j < z ==> header[j] == path[j - k - 1];
    assert header[z] == separator;
    assert FirstOf(header, " ?", k + 1) == Some(z);
    assert header[..k] == command && header[k + 1..z] == path;
  }

  /** Nothing that avoids the character in the middle occurs across it. */
  lemma ContainsAcross(a: string, c: char, b: string, p: string)
    requires p != "" && c !in p && !Contains(a, p) && !Contains(b, p)
    ensures !Contains(a + [c] + b, p)
  {
    var s := a + [c] + b;
    forall j: nat ensures !At(s, p, j) {
      if j + |p| <= |a| {
        assert s == a + ([c] + b);
        AtLeft(a, [c] + b, p, j);
      } else if j > |a| {
        assert s == (a + [c]) + b;
        AtRight(a + [c], b, p, j - |a| - 1);
      } else if At(s, p, j) {
        AtChars(s, p, j, |a| - j);
      }
    }
  }

  lemma LineLacks(command: string, path: string, separator: char, rest: string, p: string)
    requires p != "" && ' ' !in p && separator !in p
    requires !Contains(command, p) && !Contains(path, p) && !Contains(rest, p)
    ensures !Contains(Line(command, path, separator, rest), p)
  {
    ContainsAcross(command, ' ', path, p);
    ContainsAcross(command + [' '] + path, separator, rest, p);
    assert Line(command, path, separator, rest) == command + [' '] + path + [separator] + rest;
  }

  /** What Parse returns for a printed request, whatever the command, path, rest and headers are. */
  lemma ParsePrinted(command: string, path: string, separator: char, rest: string, tail: string)
    requires Printable(command, path, separator, rest)
    requires !Contains(command, CRLF) && !Contains(path, CRLF) && !Contains(rest, CRLF)
    ensures var buffer := Line(command, path, separator, rest) + CRLF + tail;
            ParseRequest(buffer) == match ExtractField(buffer, CONNECTION)
                                    case Ok(v) => Ok(Request(command, path, v))
                                    case Thrown(e) => Thrown(e)
  {
    var line := Line(command, path, separator, rest);
    LineLacks(command, path, separator, rest, CRLF);
    FindLineEnd(line, tail);
    assert (line + CRLF + tail)[..|line|] == line;
    ParsePrintedLine(command, path, separator, rest, ExtractField(line + CRLF + tail, CONNECTION));
  }

  lemma PrintParsedLine(line: string, connection: Outcome<string>) returns (separator: char, rest: string)
    requires ParseLine(line, connection).Ok?
    ensures var r := ParseLine(line, connection).value;
            && Printable(r.command, r.path, separator, rest)
            && line == Line(r.command, r.path, separator, rest)
            && connection == Ok(r.connection)
  {
    FindOne(line, ' ', 0);
    var k := FirstOf(line, " ", 0).value;
    var z := FirstOf(line, " ?", k + 1).value;
    separator, rest := line[z], line[z + 1..];
    assert line[k] == ' ';
    assert line == line[..k] + " " + line[k + 1..z] + [line[z]] + line[z + 1..];
  }

  /** And every buffer that Parse accepts is a printed request. */
  lemma PrintParsed(buffer: string) returns (separator: char, rest: string, tail: string)
    requires ParseRequest(buffer).Ok?
    ensures var r := ParseRequest(buffer).value;
            && Printable(r.command, r.path, separator, rest)
            && !Contains(Line(r.command, r.path, separator, rest), CRLF)
            && buffer == Line(r.command, r.path, separator, rest) + CRLF + tail
            && ExtractField(buffer, CONNECTION) == Ok(r.connection)
  {
    var i := Find(buffer, CRLF, 0).value;
    separator, rest := PrintParsedLine(buffer[..i], ExtractField(buffer, CONNECTION));
    tail := buffer[i + 2..];
    FindMeans(buffer, CRLF, 0);
    AtMeans(buffer, CRLF, i);
    assert buffer == buffer[..i] + CRLF + tail;
    SpanHasNoCrlf(buffer, 0, i);
    assert buffer[0..i] == buffer[..i];
  }

  lemma ErrorsDiffer()
    ensures NO_CRLF != NO_SPACE && NO_CRLF != NO_PATH_END && NO_SPACE != NO_PATH_END
  {
    assert NO_CRLF.reason[0] == '\r' && NO_SPACE.reason[0] == 'd' && NO_PATH_END.reason[0] == 'd';
    assert |NO_SPACE.reason| != |NO_PATH_END.reason|;
  }

  lemma ParseLineErrors(line: string, connection: Outcome<string>)
    requires connection.Thrown? ==> connection.error == OutOfRange
    ensures var r := ParseLine(line, connection);
            && r != Thrown(NO_CRLF)
            && (r == Thrown(NO_SPACE) <==> ' ' !in line)
            && (r == Thrown(NO_PATH_END) <==>
                ' ' in line && !exists j, k :: 0 <= j < k < |line| && line[j] == ' ' && line[k] in " ?")
            && (r == Thrown(OutOfRange) <==>
                (exists j, k :: 0 <= j < k < |line| && line[j] == ' ' && line[k] in " ?") && connection.Thrown?)
  {
    ErrorsDiffer();
    FindOne(line, ' ', 0);
    match FirstOf(line, " ", 0) {
      case None =>
      case Some(k) =>
        match FirstOf(line, " ?", k + 1) {
          case None =>
          case Some(z) => assert line[k] == ' ' && line[z] in " ?";
        }
    }
  }

  /** The errors, in the order Parse looks for them. */
  lemma ParseErrors(buffer: string)
    ensures ParseRequest(buffer) == Thrown(NO_CRLF) <==> !Contains(buffer, CRLF)
    ensures forall i: nat :: First(buffer, CRLF, i) ==>
              var line := buffer[..i];
              && (ParseRequest(buffer) == Thrown(NO_SPACE) <==> ' ' !in line)
              && (ParseRequest(buffer) == Thrown(NO_PATH_END) <==>
                  ' ' in line && !exists j, k :: 0 <= j < k < i && line[j] == ' ' && line[k] in " ?")
              && (ParseRequest(buffer) == Thrown(OutOfRange) <==>
                  (exists j, k :: 0 <= j < k < i && line[j] == ' ' && line[k] in " ?")
                  && ExtractField(buffer, CONNECTION).Thrown?)
  {
    ErrorsDiffer();
    FindMeans(buffer, CRLF, 0);
    forall i: nat | First(buffer, CRLF, i)
      ensures ParseRequest(buffer) == ParseLine(buffer[..i], ExtractField(buffer, CONNECTION))
    {
      FindAt(buffer, CRLF, 0, i);
    }
    forall i: nat | First(buffer, CRLF, i) {
      ParseLineErrors(buffer[..i], ExtractField(buffer, CONNECTION));
    }
  }

  // Reader and parser agree

  lemma PacketEnd(buffer: string)
    requires EndsPacket(buffer)
    ensures Contains(buffer, CRLF)
    ensures var n := |buffer|; n >= 4 && buffer[n - 4] == buffer[n - 2] == '\r' && buffer[n - 3] == buffer[n - 1] == '\n'
  {
    var n := |buffer|;
    AtChars(buffer, BLANK, n - 4, 0);
    AtChars(buffer, BLANK, n - 4, 1);
    AtChars(buffer, BLANK, n - 4, 2);
    AtChars(buffer, BLANK, n - 4, 3);
    AtTwo(buffer, '\r', '\n', n - 2);
  }

  lemma SpaceMeansValue(buffer: string, f: nat)
    requires f <= |buffer| && |buffer| > 0 && buffer[|buffer| - 1] == '\n'
    ensures HasValue(buffer, f) <==> ' ' in buffer[f..]
  {
    if HasValue(buffer, f) {
      var i, j :| f <= i < j < |buffer| && buffer[i] == ' ' && buffer[j] != ' ';
      assert buffer[f..][i - f] == ' ';
    }
    if ' ' in buffer[f..] {
      var i :| 0 <= i < |buffer| - f && buffer[f..][i] == ' ';
      assert buffer[f + i] == ' ' && buffer[|buffer| - 1] != ' ';
    }
  }

  lemma SpanEndsAtCrlf(buffer: string, f: nat, b: nat, e: nat)
    requires EndsPacket(buffer) && ValueSpan(buffer, f, b, e)
    ensures At(buffer, CRLF, e)
  {
    PacketEnd(buffer);
    var n := |buffer|;
    assert b <= n - 2;
    AtTwo(buffer[b..e], '\r', '\n', n - 2 - b);
  }

  /** On a buffer that ends a packet, no search of Parse runs off the end. */
  lemma ParseOfPacket(buffer: string)
    requires EndsPacket(buffer)
    ensures ParseRequest(buffer) != Thrown(NO_CRLF)
    ensures forall f: nat :: First(buffer, CONNECTION, f) ==>
              (ExtractField(buffer, CONNECTION).Thrown? <==> ' ' !in buffer[f..])
    ensures forall f: nat :: First(buffer, CONNECTION, f) && ' ' in buffer[f..] ==>
              exists b: nat, e: nat :: ValueSpan(buffer, f, b, e) && At(buffer, CRLF, e)
                                       && ExtractField(buffer, CONNECTION) == Ok(buffer[b..e])
  {
    PacketEnd(buffer);
    ParseErrors(buffer);
    ExtractFieldMeans(buffer, CONNECTION);
    forall f: nat | First(buffer, CONNECTION, f)
      ensures HasValue(buffer, f) <==> ' ' in buffer[f..]
    {
      SpaceMeansValue(buffer, f);
    }
    forall f: nat | First(buffer, CONNECTION, f) && ' ' in buffer[f..]
      ensures exists b: nat, e: nat :: ValueSpan(buffer, f, b, e) && At(buffer, CRLF, e)
                                       && ExtractField(buffer, CONNECTION) == Ok(buffer[b..e])
    {
      var b, e := ExtractedSpan(buffer, CONNECTION, f);
      SpanEndsAtCrlf(buffer, f, b, e);
    }
  }
}
