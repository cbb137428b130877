/** What a request brings its client, read off the text of the request. */
module Answers {
  import opened Wrappers
  import opened Text
  import opened HttpPacket
  import opened PacketParse
  import opened RequestLine
  import opened HttpMessages
  import opened Transport
  import opened Session
  import opened Delivery
  import opened SessionHistory
  import Workers
  import opened Connections

  /** A request line and what follows it. */
  ghost predicate Written(request: string, command: string, path: string, separator: char, rest: string, tail: string) {
    && Printable(command, path, separator, rest)
    && !Contains(command, CRLF) && !Contains(path, CRLF) && !Contains(rest, CRLF)
    && request == Line(command, path, separator, rest) + CRLF + tail
  }

  /** The command decides: GET gets the reply for its path, and anything else nothing at all, whatever its length, its
      case or its beginning. */
  lemma CommandDecides(
      n: Net, request: string, command: string, path: string, separator: char, rest: string, tail: string, site: Site)
    requires Written(request, command, path, separator, rest, tail) && ExtractField(request, CONNECTION).Ok?
    ensures var connection := ExtractField(request, CONNECTION).value;
            var (n', again) := Respond(n, request, site);
            if command == "GET" then
              var (n'', processed) := ProcessReply(n, ReplyTo(path, site));
              && n' == n''
              && again == (match processed
                           case Thrown(e) => Thrown(e)
                           case Ok(goesOn) => Ok(goesOn && KeepsAlive(connection)))
            else
              && n' == n && again == Ok(KeepsAlive(connection))
              && Deliver(request, n.answers, site) == Delivered("", again, n.answers)
              && forall tries :: RightTries(request, tries, site) <==> tries == []
  {
    hide ExtractField, ProcessReply, ReplyTo, ParseRequest, Contains, Lower;
    ParsePrinted(command, path, separator, rest, tail);
    VerdictMeans(command, path, ExtractField(request, CONNECTION).value);
  }

  // Requests without headers

  function Bare(command: string, path: string): string {
    Line(command, path, ' ', "HTTP/1.1") + CRLF + CRLF
  }

  lemma Version()
    ensures 'C' !in "HTTP/1.1" && '\r' !in "HTTP/1.1" && ' ' in " ?"
  {
  }

  lemma BareIsWritten(command: string, path: string)
    requires Free(command, " ") && Free(path, " ?")
    requires '\r' !in command && '\r' !in path && 'C' !in command && 'C' !in path
    ensures Written(Bare(command, path), command, path, ' ', "HTTP/1.1", CRLF)
    ensures ExtractField(Bare(command, path), CONNECTION) == Ok("")
  {
    hide ExtractField, Contains;
    var line := Line(command, path, ' ', "HTTP/1.1");
    Version();
    NoCrNoCrlf(command);
    NoCrNoCrlf(path);
    NoCrNoCrlf("HTTP/1.1");
    LacksChar(line, CONNECTION, 0);
    LineIsSkipped(line, CRLF);
    NothingAsked();
  }

  lemma BareIsAPacket(command: string, path: string)
    requires |command| + |path| <= 1000
    ensures EndsPacket(Bare(command, path)) && Bare(command, path) != "" && |Bare(command, path)| <= BUFFER_SIZE
  {
    var m := Bare(command, path);
    AtMeans(m, BLANK, |m| - 4);
    assert m[|m| - 4..|m|] == BLANK;
  }

  lemma PostIsPlain()
    ensures Free("POST", " ") && Free("/index.html", " ?") && "POST" != "GET"
    ensures '\r' !in "POST" && '\r' !in "/index.html" && 'C' !in "POST" && 'C' !in "/index.html"
  {
    assert |"POST"| == 4;
  }

  /** POST /index.html HTTP/1.1 gets no answer, and its connection is closed. */
  lemma PostIsSilent(n: Net, site: Site)
    ensures Respond(n, Bare("POST", "/index.html"), site) == (n, Ok(false))
  {
    hide ExtractField, Respond, Bare, Written;
    PostIsPlain();
    BareIsWritten("POST", "/index.html");
    CommandDecides(n, Bare("POST", "/index.html"), "POST", "/index.html", ' ', "HTTP/1.1", CRLF, site);
  }

  lemma PhpIsPlain()
    ensures Free("GET", " ") && Free("/index.php", " ?") && '\r' !in "GET" && '\r' !in "/index.php"
    ensures 'C' !in "GET" && 'C' !in "/index.php"
  {
  }

  lemma PhpIsNotListed(directory: string)
    ensures GetContentType(directory + "/index.php") == Thrown(OutOfRange)
  {
    hide GetContentType;
    assert !Listed("php") && '.' !in "php";
    ContentTypeMeans(directory + "/index", "php");
    assert directory + "/index" + "." + "php" == directory + "/index.php";
  }

  lemma PhpRaises(site: Site)
    ensures ReplyTo("/index.php", site) == Raise(OutOfRange)
  {
    hide GetContentType;
    PhpIsNotListed(site.directory);
    assert |"/index.php"| <= 100 && |"/index.php"| != |".."|;
  }

  /** GET /index.php HTTP/1.1, whether there is such a file or not, ends the worker, and its other sockets are as they
      were. */
  lemma UnknownExtensionEndsTheWorker(n: Net, rest: seq<Arrival>, others: seq<Option<Net>>, polls: nat, site: Site)
    requires n.arrivals == [Data(Bare("GET", "/index.php"))] + rest && (n.alive == [] || n.alive[0]) && polls >= 2
    ensures var left := Workers.Run([Some(n)] + others, polls, site);
            left.error == Some(OutOfRange) && left.nets[1..] == others
  {
    hide ReadPacket, ExtractField, Respond, Bare, Written, ReplyTo, EndsPacket;
    var request := Bare("GET", "/index.php");
    PhpIsPlain();
    BareIsWritten("GET", "/index.php");
    BareIsAPacket("GET", "/index.php");
    PhpRaises(site);
    var n1 := n.IsAlive().0;
    ReadsAtOnce(request, n1, rest);
    CommandDecides(ReadPacket(n1).0, request, "GET", "/index.php", ' ', "HTTP/1.1", CRLF, site);
    assert KeepAlive(n, polls - 1, site).error == Some(OutOfRange);
  }

  // The verdict in any case of letters

  const MIXED_CASE: string := Line("GET", "/index.html", ' ', "HTTP/1.1") + CRLF + (CONNECTION + ":" + " " + "Keep-Alive" + CRLF + CRLF)

  lemma MixedParts()
    ensures Free("GET", " ") && Free("/index.html", " ?") && '\r' !in "GET" && '\r' !in "/index.html"
    ensures 'C' !in "GET" && 'C' !in "/index.html"
  {
  }

  lemma MixedIsWritten()
    ensures Written(MIXED_CASE, "GET", "/index.html", ' ', "HTTP/1.1", CONNECTION + ":" + " " + "Keep-Alive" + CRLF + CRLF)
    ensures ExtractField(MIXED_CASE, CONNECTION) == Ok("Keep-Alive")
  {
    hide ExtractField, Contains;
    var line := Line("GET", "/index.html", ' ', "HTTP/1.1");
    Version();
    MixedParts();
    NoCrNoCrlf("GET");
    NoCrNoCrlf("/index.html");
    NoCrNoCrlf("HTTP/1.1");
    LacksChar(line, CONNECTION, 0);
    LineIsSkipped(line, CONNECTION + ":" + " " + "Keep-Alive" + CRLF + CRLF);
    NoCrNoCrlf("Keep-Alive");
    ExtractPrinted(CONNECTION, " ", "Keep-Alive", CRLF);
  }

  lemma WholeWhenFree(m: string)
    requires m != ""
    ensures Take(|m|, []) == Shot(|m|, |m|, []) && m[..|m|] == m
  {
  }

  lemma MixedIsAPacket()
    ensures EndsPacket(MIXED_CASE) && MIXED_CASE != "" && |MIXED_CASE| <= BUFFER_SIZE
  {
    var m := MIXED_CASE;
    AtMeans(m, BLANK, |m| - 4);
    assert m[|m| - 4..|m|] == BLANK;
  }

  /** A client that writes Keep-Alive gets its file, and the loop goes on. */
  lemma AnyCaseGoesOn(n: Net, rest: seq<Arrival>, polls: nat, site: Site)
    requires n.arrivals == [Data(MIXED_CASE)] + rest && n.answers == [] && n.alive == [] && polls > 0
    requires CString(site.directory + "/index.html") in site.files
    ensures var n2 := ReadPacket(n.IsAlive().0).0;
            var n3 := Respond(n2, MIXED_CASE, site).0;
            && Turn(n, MIXED_CASE, n2)
            && ReplyTo("/index.html", site).Serve? && n3.sent == n.sent + ReplyTo("/index.html", site).message
            && KeepAlive(n, polls, site) == KeepAlive(n3, polls - 1, site)
  {
    hide ReadPacket, ExtractField, Respond, Written, ReplyTo, EndsPacket, CString, Take, WritePacket;
    MixedIsWritten();
    MixedIsAPacket();
    var n1 := n.IsAlive().0;
    ReadsAtOnce(MIXED_CASE, n1, rest);
    var n2 := ReadPacket(n1).0;
    FileIsServed(site);
    var m := ReplyTo("/index.html", site).message;
    PacketTakes(n2, m);
    WholeWhenFree(m);
    assert KeepsAlive("Keep-Alive");
    CommandDecides(n2, MIXED_CASE, "GET", "/index.html", ' ', "HTTP/1.1", CONNECTION + ":" + " " + "Keep-Alive" + CRLF + CRLF, site);
  }
}
