/** What the request line has to do with the keep-alive verdict: ExtractField searches it too. */
module RequestLine {
  import opened Wrappers
  import opened Text
  import opened HttpPacket
  import opened PacketParse
  import opened HttpMessages

  /** What IsKeepAlive makes of the Connection field. */
  function Verdict(connection: Outcome<string>): Outcome<bool> {
    match connection case Ok(v) => Ok(Lower(v) == "keep-alive") case Thrown(e) => Thrown(e)
  }

  function VerdictOf(request: Outcome<Request>): Outcome<bool> {
    match request case Ok(r) => Ok(r.KeepAlive()) case Thrown(e) => Thrown(e)
  }

  // A line that names the field

  /** What follows the first run of spaces, if there is one. */
  function AfterSpaces(text: string): Option<string> {
    match FirstOf(text, " ", 0)
    case None => None
    case Some(i) => Some(text[FirstNotOf(text, " ", i).GetOr(|text|)..])
  }

  lemma SuffixLacks(s: string, p: string, k: nat)
    requires k <= |s| && !Contains(s, p)
    ensures !Contains(s[k..], p)
  {
    forall i: nat ensures !At(s[k..], p, i) {
      AtSuffix(s, p, k, i);
    }
  }

  lemma FirstStays(line: string, rest: string, p: string, f: nat)
    requires First(line, p, f)
    ensures First(line + rest, p, f)
  {
    forall j: nat | j <= f ensures At(line + rest, p, j) <==> At(line, p, j) {
      AtLeft(line, rest, p, j);
    }
  }

  lemma ThreeParts(text: string, i: nat, b: nat, tail: string)
    requires i <= b <= |text|
    ensures text + CRLF + tail == text[..i] + text[i..b] + (text[b..] + CRLF + tail)
  {
    assert text == text[..i] + text[i..b] + text[b..];
  }

  /** A space in the text: the value is there. */
  lemma ValueInText(text: string, tail: string)
    requires !Contains(text, CRLF) && AfterSpaces(text).Some?
    ensures ExtractFrom(text + CRLF + tail, 0) == Ok(AfterSpaces(text).value)
  {
    hide ExtractFrom;
    var i := FirstOf(text, " ", 0).value;
    var b := FirstNotOf(text, " ", i).GetOr(|text|);
    SuffixLacks(text, CRLF, b);
    ThreeParts(text, i, b, tail);
    ExtractValue(text[..i], text[i..b], text[b..], tail);
  }

  /** None: the value comes from the text after it. */
  lemma ValueBelow(text: string, tail: string)
    requires AfterSpaces(text).None?
    ensures ExtractFrom(text + CRLF + tail, 0) == ExtractFrom(tail, 0)
  {
    var a := text + CRLF;
    var s := a + tail;
    assert forall j :: 0 <= j < |a| ==> s[j] == a[j];
    assert Free(a, " ");
    FindOne(s, ' ', 0);
    FindOne(s, ' ', |a|);
    assert FirstOf(s, " ", 0) == FirstOf(s, " ", |a|);
    ExtractFromShifts(a, tail, 0);
  }

  /** A line that names the field decides its value, whatever the headers say; unless no space follows the name in the
      line, when whatever comes first in the headers does. */
  lemma LineDecides(line: string, tail: string, f: nat)
    requires !Contains(line, CRLF) && First(line, CONNECTION, f)
    ensures ExtractField(line + CRLF + tail, CONNECTION) ==
            match AfterSpaces(line[f..]) case Some(value) => Ok(value) case None => ExtractFrom(tail, 0)
  {
    hide ExtractFrom, AfterSpaces;
    var buffer, text := line + CRLF + tail, line[f..];
    assert buffer == line + (CRLF + tail);
    FirstStays(line, CRLF + tail, CONNECTION, f);
    FindAt(buffer, CONNECTION, 0, f);
    assert buffer == line[..f] + (text + CRLF + tail);
    ExtractFromShifts(line[..f], text + CRLF + tail, 0);
    SuffixLacks(line, CRLF, f);
    if AfterSpaces(text).Some? {
      ValueInText(text, tail);
    } else {
      ValueBelow(text, tail);
    }
  }

  /** A line that does not name it does not matter. */
  lemma LineIsSkipped(line: string, tail: string)
    requires !Contains(line, CONNECTION)
    ensures ExtractField(line + CRLF + tail, CONNECTION) == ExtractField(tail, CONNECTION)
  {
    FindPastLine(line, tail, CONNECTION);
    ExtractSkips(line + CRLF, tail, CONNECTION);
  }

  // The exact condition

  /** The value, and the verdict, are those of the headers alone. */
  predicate ValueFromHeaders(line: string, tail: string) {
    ExtractField(line + CRLF + tail, CONNECTION) == ExtractField(tail, CONNECTION)
  }

  predicate VerdictFromHeaders(line: string, tail: string) {
    Verdict(ExtractField(line + CRLF + tail, CONNECTION)) == Verdict(ExtractField(tail, CONNECTION))
  }

  const KEEP_ALIVE: string := "Connection: keep-alive\r\n"

  lemma NoHeaders()
    ensures ExtractField("", CONNECTION) == Ok("") && ExtractFrom("", 0).Thrown? && Lower("") != "keep-alive"
  {
    assert |Lower("")| != |"keep-alive"|;
  }

  lemma KeepAliveLine(rest: string)
    ensures KEEP_ALIVE + rest == CONNECTION + ":" + " " + "keep-alive" + CRLF + rest
  {
  }

  lemma KeepAliveHeader(rest: string)
    ensures ExtractField(KEEP_ALIVE + rest, CONNECTION) == Ok("keep-alive")
  {
    hide ExtractField;
    KeepAliveLine(rest);
    NoCrNoCrlf("keep-alive");
    ExtractPrinted(CONNECTION, " ", "keep-alive", rest);
  }

  lemma SampleHeaders()
    ensures Verdict(ExtractField("", CONNECTION)) == Ok(false) && ExtractFrom("", 0).Thrown?
    ensures Verdict(ExtractField(KEEP_ALIVE, CONNECTION)) == Ok(true)
  {
    hide ExtractField, ExtractFrom, Lower;
    NoHeaders();
    KeepAliveHeader("");
    KeepAliveIsLower();
    assert KEEP_ALIVE + "" == KEEP_ALIVE;
  }

  /** Headers that a line naming the field contradicts. */
  lemma Contradicted(line: string) returns (tail: string)
    requires !Contains(line, CRLF) && Contains(line, CONNECTION)
    ensures !VerdictFromHeaders(line, tail)
  {
    hide ExtractField, ExtractFrom, AfterSpaces, Lower;
    FindMeans(line, CONNECTION, 0);
    var f := Find(line, CONNECTION, 0).value;
    SampleHeaders();
    LineDecides(line, "", f);
    LineDecides(line, KEEP_ALIVE, f);
    tail := if VerdictFromHeaders(line, "") then KEEP_ALIVE else "";
  }

  /** For every line without CRLF: the headers alone decide the value, whatever they are, if and only if the line does
      not name the field; and the same for the verdict. */
  lemma HeadersDecide(line: string)
    requires !Contains(line, CRLF)
    ensures (forall tail :: ValueFromHeaders(line, tail)) <==> !Contains(line, CONNECTION)
    ensures (forall tail :: VerdictFromHeaders(line, tail)) <==> !Contains(line, CONNECTION)
  {
    hide ExtractField;
    if Contains(line, CONNECTION) {
      var tail := Contradicted(line);
      assert !ValueFromHeaders(line, tail);
    } else {
      forall tail ensures ValueFromHeaders(line, tail) && VerdictFromHeaders(line, tail) {
        LineIsSkipped(line, tail);
      }
    }
  }

  predicate ParsedFromHeaders(line: string, tail: string) {
    VerdictOf(ParseRequest(line + CRLF + tail)) == Verdict(ExtractField(tail, CONNECTION))
  }

  /** So for every request that Parse can print: its keep-alive verdict is that of its headers, whatever they are, if
      and only if the request line does not name the field. */
  lemma RequestLineDecides(command: string, path: string, separator: char, rest: string)
    requires Printable(command, path, separator, rest)
    requires !Contains(command, CRLF) && !Contains(path, CRLF) && !Contains(rest, CRLF)
    ensures var line := Line(command, path, separator, rest);
            (forall tail :: ParsedFromHeaders(line, tail)) <==> !Contains(line, CONNECTION)
  {
    hide ExtractField, ParseRequest, Contains, Lower;
    var line := Line(command, path, separator, rest);
    LineLacks(command, path, separator, rest, CRLF);
    HeadersDecide(line);
    forall tail ensures ParsedFromHeaders(line, tail) <==> VerdictFromHeaders(line, tail) {
      ParsePrinted(command, path, separator, rest, tail);
    }
  }

  // Queries

  lemma QueryIsSkipped(command: string, path: string, query: string, version: string, tail: string)
    requires forall t :: t in {command, path, query, version} ==> !Contains(t, CRLF) && !Contains(t, CONNECTION)
    ensures !Contains(query + " " + version, CRLF)
    ensures ExtractField(Line(command, path, '?', query + " " + version) + CRLF + tail, CONNECTION) ==
            ExtractField(tail, CONNECTION)
  {
    ContainsAcross(query, ' ', version, CRLF);
    ContainsAcross(query, ' ', version, CONNECTION);
    LineLacks(command, path, '?', query + " " + version, CONNECTION);
    LineIsSkipped(Line(command, path, '?', query + " " + version), tail);
  }

  /** The query decides nothing when the line does not name the field: not the command, not the path, not the verdict. */
  lemma QueryIrrelevant(command: string, path: string, query: string, query': string, version: string, tail: string)
    requires Free(command, " ") && Free(path, " ?")
    requires forall t :: t in {command, path, query, query', version} ==> !Contains(t, CRLF) && !Contains(t, CONNECTION)
    ensures ParseRequest(Line(command, path, '?', query + " " + version) + CRLF + tail) ==
            ParseRequest(Line(command, path, '?', query' + " " + version) + CRLF + tail)
  {
    QueryIsSkipped(command, path, query, version, tail);
    QueryIsSkipped(command, path, query', version, tail);
    ParsePrinted(command, path, '?', query + " " + version, tail);
    ParsePrinted(command, path, '?', query' + " " + version, tail);
  }

  /** A query that names the field: whatever follows its spaces, usually the version, becomes the value. `query` is the
      rest of the line, from the question mark on. */
  lemma QueryDecides(command: string, path: string, query: string, tail: string, f: nat)
    requires Free(command, " ") && Free(path, " ?")
    requires !Contains(command, CRLF) && !Contains(path, CRLF) && !Contains(query, CRLF)
    requires f <= |query| && First(Line(command, path, '?', query), CONNECTION, |command| + |path| + 2 + f)
    ensures ParseRequest(Line(command, path, '?', query) + CRLF + tail) ==
            match AfterSpaces(query[f..])
            case Some(value) => Ok(Request(command, path, value))
            case None => (match ExtractFrom(tail, 0)
                          case Ok(value) => Ok(Request(command, path, value))
                          case Thrown(e) => Thrown(e))
  {
    hide ExtractFrom, AfterSpaces, ExtractField;
    var line := Line(command, path, '?', query);
    assert line[|command| + |path| + 2 + f..] == query[f..];
    LineLacks(command, path, '?', query, CRLF);
    LineDecides(line, tail, |command| + |path| + 2 + f);
    ParsePrinted(command, path, '?', query, tail);
  }

  const SAMPLE_QUERY: string := "Connection HTTP/1.1"

  lemma SampleLine()
    ensures Line("GET", "/", '?', SAMPLE_QUERY) == "GET /?Connection HTTP/1.1"
    ensures Free("GET", " ") && Free("/", " ?") && '\r' !in "GET" && '\r' !in "/"
    ensures |"GET"| + |"/"| + 2 == 6
  {
    assert Line("GET", "/", '?', SAMPLE_QUERY) == "GET /?Connection HTTP/1.1";
  }

  lemma SampleValue()
    ensures '\r' !in SAMPLE_QUERY && AfterSpaces(SAMPLE_QUERY) == Some("HTTP/1.1")
  {
    var q := SAMPLE_QUERY;
    assert forall j :: 0 <= j < 10 ==> q[j] == CONNECTION[j];
    assert q[10] == ' ' && q[11] == 'H';
    assert FirstOf(q, " ", 0) == Some(10);
    assert FirstNotOf(q, " ", 10) == Some(11);
    assert q[11..] == "HTTP/1.1";
  }

  lemma SampleFirst(line: string)
    requires |line| >= 16 && line[..6] == "GET /?" && line[6..16] == CONNECTION
    ensures First(line, CONNECTION, 6)
  {
    AtMeans(line, CONNECTION, 6);
    forall j: nat | j < 6 ensures !At(line, CONNECTION, j) {
      assert line[j] == line[..6][j];
      if At(line, CONNECTION, j) {
        AtChars(line, CONNECTION, j, 0);
      }
    }
  }

  lemma LowerLength(s: string)
    ensures |Lower(s)| == |s|
  {
  }

  /** A request that asks to be kept alive and is not, because of its query. */
  lemma ClosedByItsQuery()
    ensures var headers := KEEP_ALIVE + CRLF;
            && ParseRequest("GET /?Connection HTTP/1.1" + CRLF + headers) == Ok(Request("GET", "/", "HTTP/1.1"))
            && VerdictOf(Ok(Request("GET", "/", "HTTP/1.1"))) == Ok(false)
            && Verdict(ExtractField(headers, CONNECTION)) == Ok(true)
  {
    hide ExtractField, ParseRequest, AfterSpaces, First, Lower, Contains, Free;
    var line := "GET /?Connection HTTP/1.1";
    SampleLine();
    SampleValue();
    assert line[..6] == "GET /?" && line[6..16] == CONNECTION;
    SampleFirst(line);
    NoCrNoCrlf("GET");
    NoCrNoCrlf("/");
    NoCrNoCrlf(SAMPLE_QUERY);
    assert SAMPLE_QUERY[0..] == SAMPLE_QUERY;
    QueryDecides("GET", "/", SAMPLE_QUERY, KEEP_ALIVE + CRLF, 0);
    KeepAliveHeader(CRLF);
    KeepAliveIsLower();
    assert |Lower("HTTP/1.1")| == |"HTTP/1.1"| by { LowerLength("HTTP/1.1"); }
    assert |"HTTP/1.1"| != |"keep-alive"|;
  }
}
