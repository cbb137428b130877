/** The messages the repository builds: HTTPPacket.cpp:134-229. */
module HttpMessages {
  import opened Wrappers
  import opened Text
  import opened HttpPacket
  import opened PacketParse

  // std::to_string of a size, and what reading it back gives

  function Digit(d: nat): char
    requires d < 10
  {
    '0' + d as char
  }

  function Decimal(n: nat): (s: string)
    ensures s != "" && forall i :: 0 <= i < |s| ==> '0' <= s[i] <= '9'
  {
    if n < 10 then [Digit(n)] else Decimal(n / 10) + [Digit(n % 10)]
  }

  function DecimalValue(s: string): nat
    requires forall i :: 0 <= i < |s| ==> '0' <= s[i] <= '9'
  {
    if s == "" then 0
    else 10 * DecimalValue(s[..|s| - 1]) + (s[|s| - 1] - '0') as nat
  }

  lemma {:induction false} DecimalRoundTrip(n: nat)
    ensures DecimalValue(Decimal(n)) == n
  {
    var s := Decimal(n);
    if n < 10 {
      assert s[..0] == "";
    } else {
      DecimalRoundTrip(n / 10);
      assert s[..|s| - 1] == Decimal(n / 10);
    }
  }

  /** As std::to_string prints it: no zero in front. */
  lemma {:induction false} DecimalIsCanonical(n: nat)
    ensures |Decimal(n)| > 1 ==> Decimal(n)[0] != '0'
    ensures n > 0 ==> Decimal(n)[0] != '0'
  {
    if n < 10 {
    } else {
      DecimalIsCanonical(n / 10);
    }
  }

  // The builders

  function KeepAliveString(isKeepAlive: bool): string {
    if isKeepAlive then "keep-alive" else "close"
  }

  const USER_AGENT: string :=
    "User-Agent: Mozilla/5.0 " + "(X11; Ubuntu; Linux " + "x86_64; rv:35.0)" + " Gecko/20100101 "
    + "Firefox/35.0"

  const ACCEPT: string :=
    "Accept: text/html," + "application/xhtml+xml," + "application/xml;q=0.9,*//*;q=0.8"

  const ACCEPT_LANGUAGE: string := "Accept-Language: " + "en-US,en;q=0.5"
  const ACCEPT_ENCODING: string := "Accept-Encoding: " + "gzip, deflate"

  function CreateGET(host: string, port: string): string {
    "GET /index.html HTTP/1.1" + CRLF
    + ("Host: " + host + ":" + port) + CRLF
    + USER_AGENT + CRLF
    + ACCEPT + CRLF
    + ACCEPT_LANGUAGE + CRLF
    + ACCEPT_ENCODING + CRLF
    + "Connection: keep-alive" + CRLF
    + CRLF
  }

  function Create200(dataFile: string, contentType: string, isKeepAlive: bool): string {
    "HTTP/1.0 200 OK" + CRLF
    + ("Content-length: " + Decimal(|dataFile|)) + CRLF
    + ("Connection: " + KeepAliveString(isKeepAlive)) + CRLF
    + ("Content-Type: " + contentType) + CRLF
    + CRLF
    + dataFile
    + BLANK
  }

  function Create400(isKeepAlive: bool): string {
    "HTTP/1.0 400 Bad Request" + CRLF
    + ("Connection: " + KeepAliveString(isKeepAlive)) + CRLF
    + "Content-Length: 11" + CRLF
    + CRLF
    + "Bad Request"
    + BLANK
  }

  const NOT_FOUND: string :=
    "<html> <head> <title>Not Found</title> </head> <body> <p>404 Request file not found.</p></body></html>"

  function Page404(body: string, isKeepAlive: bool): string {
    "HTTP/1.0 404 Not Found" + CRLF
    + "Content-Type: text/html" + CRLF
    + ("Content-length: " + Decimal(|body|)) + CRLF
    + ("Connection: " + KeepAliveString(isKeepAlive)) + CRLF
    + CRLF
    + body
    + BLANK
  }

  function Create404(isKeepAlive: bool): string {
    Page404(NOT_FOUND, isKeepAlive)
  }

  const CONTENT_TYPES: map<string, string> := map[
    ".css" := "text/css", ".csv" := "text/csv", ".gif" := "image/gif", ".htm" := "text/html",
    ".html" := "text/html", ".ico" := "image/x-icon", ".jpeg" := "image/jpeg", ".jpg" := "image/jpeg",
    ".js" := "application/javascript", ".json" := "application/json", ".png" := "image/png",
    ".pdf" := "application/pdf", ".svg" := "application/svg+xml", ".txt" := "text/plain"]

  /** FileHelper::GetContentType; `files.at` throws for an extension that is not in the table. */
  function GetContentType(fileName: string): Outcome<string> {
    match LastOf(fileName, '.')
    case None => Ok("")
    case Some(pos) =>
      if fileName[pos..] in CONTENT_TYPES then Ok(CONTENT_TYPES[fileName[pos..]]) else Thrown(OutOfRange)
  }

  lemma TypeByExtension(base: string, ext: string)
    requires '.' !in ext
    ensures GetContentType(base + "." + ext) ==
            if "." + ext in CONTENT_TYPES then Ok(CONTENT_TYPES["." + ext]) else Thrown(OutOfRange)
  {
    var s, d := base + "." + ext, |base|;
    assert s[d] == '.' && forall j :: d < j < |s| ==> s[j] == ext[j - d - 1];
    assert LastOf(s, '.') == Some(d);
    assert s[d..] == "." + ext;
  }

  /** The extensions that have a type. */
  predicate Listed(ext: string) {
    ext in {"css", "csv", "gif", "htm", "html", "ico", "jpeg", "jpg", "js", "json", "png", "pdf", "svg", "txt"}
  }

  lemma KeyOf(ext: string, name: string, key: string)
    requires key == "." + name
    ensures "." + ext == key <==> ext == name
  {
    assert ("." + ext)[1..] == ext && key[1..] == name;
  }

  lemma KeysOf(ext: string)
    ensures "." + ext == ".css" <==> ext == "css"
    ensures "." + ext == ".csv" <==> ext == "csv"
    ensures "." + ext == ".gif" <==> ext == "gif"
    ensures "." + ext == ".htm" <==> ext == "htm"
    ensures "." + ext == ".html" <==> ext == "html"
    ensures "." + ext == ".ico" <==> ext == "ico"
    ensures "." + ext == ".jpeg" <==> ext == "jpeg"
    ensures "." + ext == ".jpg" <==> ext == "jpg"
    ensures "." + ext == ".js" <==> ext == "js"
    ensures "." + ext == ".json" <==> ext == "json"
    ensures "." + ext == ".png" <==> ext == "png"
    ensures "." + ext == ".pdf" <==> ext == "pdf"
    ensures "." + ext == ".svg" <==> ext == "svg"
    ensures "." + ext == ".txt" <==> ext == "txt"
  {
    KeyOf(ext, "css", ".css");
    KeyOf(ext, "csv", ".csv");
    KeyOf(ext, "gif", ".gif");
    KeyOf(ext, "htm", ".htm");
    KeyOf(ext, "html", ".html");
    KeyOf(ext, "ico", ".ico");
    KeyOf(ext, "jpeg", ".jpeg");
    KeyOf(ext, "jpg", ".jpg");
    KeyOf(ext, "js", ".js");
    KeyOf(ext, "json", ".json");
    KeyOf(ext, "png", ".png");
    KeyOf(ext, "pdf", ".pdf");
    KeyOf(ext, "svg", ".svg");
    KeyOf(ext, "txt", ".txt");
  }

  lemma TextTypes()
    ensures ".css" in CONTENT_TYPES && CONTENT_TYPES[".css"] == "text/css"
    ensures ".csv" in CONTENT_TYPES && CONTENT_TYPES[".csv"] == "text/csv"
    ensures ".htm" in CONTENT_TYPES && CONTENT_TYPES[".htm"] == "text/html"
    ensures ".html" in CONTENT_TYPES && CONTENT_TYPES[".html"] == "text/html"
    ensures ".txt" in CONTENT_TYPES && CONTENT_TYPES[".txt"] == "text/plain"
  {
  }

  lemma ImageTypes()
    ensures ".gif" in CONTENT_TYPES && CONTENT_TYPES[".gif"] == "image/gif"
    ensures ".ico" in CONTENT_TYPES && CONTENT_TYPES[".ico"] == "image/x-icon"
    ensures ".jpeg" in CONTENT_TYPES && CONTENT_TYPES[".jpeg"] == "image/jpeg"
    ensures ".jpg" in CONTENT_TYPES && CONTENT_TYPES[".jpg"] == "image/jpeg"
    ensures ".png" in CONTENT_TYPES && CONTENT_TYPES[".png"] == "image/png"
  {
  }

  lemma ApplicationTypes()
    ensures ".js" in CONTENT_TYPES && CONTENT_TYPES[".js"] == "application/javascript"
    ensures ".json" in CONTENT_TYPES && CONTENT_TYPES[".json"] == "application/json"
    ensures ".pdf" in CONTENT_TYPES && CONTENT_TYPES[".pdf"] == "application/pdf"
    ensures ".svg" in CONTENT_TYPES && CONTENT_TYPES[".svg"] == "application/svg+xml"
  {
  }

  lemma ListedHasKey(ext: string)
    ensures Listed(ext) <==> "." + ext in CONTENT_TYPES
  {
    KeysOf(ext);
  }

  /** The type of a file, by what follows its last dot; a file whose extension has none raises, one without a dot has the
      empty type. */
  lemma ContentTypeMeans(base: string, ext: string)
    requires '.' !in ext
    ensures GetContentType(ext) == Ok("")
    ensures var t := GetContentType(base + "." + ext);
            && (t == Thrown(OutOfRange) <==> !Listed(ext)) && (t.Ok? <==> Listed(ext))
            && (ext == "css" ==> t == Ok("text/css"))
            && (ext == "csv" ==> t == Ok("text/csv"))
            && (ext == "gif" ==> t == Ok("image/gif"))
            && (ext == "htm" ==> t == Ok("text/html"))
            && (ext == "html" ==> t == Ok("text/html"))
            && (ext == "ico" ==> t == Ok("image/x-icon"))
            && (ext == "jpeg" ==> t == Ok("image/jpeg"))
            && (ext == "jpg" ==> t == Ok("image/jpeg"))
            && (ext == "js" ==> t == Ok("application/javascript"))
            && (ext == "json" ==> t == Ok("application/json"))
            && (ext == "png" ==> t == Ok("image/png"))
            && (ext == "pdf" ==> t == Ok("application/pdf"))
            && (ext == "svg" ==> t == Ok("application/svg+xml"))
            && (ext == "txt" ==> t == Ok("text/plain"))
  {
    hide Listed;
    TypeByExtension(base, ext);
    ListedHasKey(ext);
    KeysOf(ext);
    TextTypes();
    ImageTypes();
    ApplicationTypes();
    hide GetContentType;
  }

  ghost predicate Extends(fileName: string, base: string, ext: string) {
    fileName == base + "." + ext && '.' !in ext
  }

  /** No dot, or a listed extension after the last one. */
  ghost predicate HasType(fileName: string) {
    '.' !in fileName || exists base, ext :: Extends(fileName, base, ext) && Listed(ext)
  }

  lemma SameExtension(fileName: string, base: string, ext: string, base': string, ext': string)
    requires Extends(fileName, base, ext) && Extends(fileName, base', ext')
    ensures ext == ext'
  {
    var d, d' := |base|, |base'|;
    assert fileName[d] == '.' && fileName[d'] == '.';
    assert forall j :: d < j < |fileName| ==> fileName[j] == ext[j - d - 1] != '.';
    assert forall j :: d' < j < |fileName| ==> fileName[j] == ext'[j - d' - 1] != '.';
    assert fileName[d + 1..] == ext && fileName[d' + 1..] == ext';
  }

  /** Which file names raise. */
  lemma TypedMeans(fileName: string)
    ensures GetContentType(fileName).Ok? <==> HasType(fileName)
    ensures GetContentType(fileName).Thrown? ==> GetContentType(fileName).error == OutOfRange
  {
    hide Listed;
    match LastOf(fileName, '.') {
      case None =>
      case Some(d) =>
        var base, ext := fileName[..d], fileName[d + 1..];
        assert Extends(fileName, base, ext);
        TypeByExtension(base, ext);
        ListedHasKey(ext);
        forall b, e | Extends(fileName, b, e) ensures e == ext {
          SameExtension(fileName, b, e, base, ext);
        }
        hide GetContentType;
    }
  }

  // Messages as header lines, an empty line and a body

  function Message(head: seq<string>, body: string): string {
    Terminated(head) + CRLF + body
  }

  lemma LacksChar(s: string, p: string, k: nat)
    requires k < |p| && p[k] !in s
    ensures !Contains(s, p)
  {
    forall j: nat ensures !At(s, p, j) {
      if At(s, p, j) {
        AtChars(s, p, j, k);
      }
    }
  }

  /** A field whose name first occurs at its own line is read without the spaces before its value. */
  lemma {:induction false} FieldOfLines(
      head: seq<string>, k: nat, name: string, pad: string, value: string, rest: string)
    requires k < |head| && head[k] == name + ":" + pad + value
    requires name != "" && Free(name, " ") && Free(name, CRLF) && pad != "" && Spaces(pad)
    requires !Contains(value, CRLF) && (value == "" || value[0] != ' ')
    requires forall i :: 0 <= i < k ==> !Contains(head[i], name)
    ensures ExtractField(Terminated(head) + rest, name) == Ok(value)
    decreases k
  {
    var tail := Terminated(head[1..]) + rest;
    assert Terminated(head) + rest == head[0] + CRLF + tail;
    if k == 0 {
      ExtractPrinted(name, pad, value, tail);
    } else {
      FindPastLine(head[0], tail, name);
      ExtractSkips(head[0] + CRLF, tail, name);
      FieldOfLines(head[1..], k - 1, name, pad, value, rest);
    }
  }

  /** The usual `name: value` line. */
  lemma FieldOfMessage(head: seq<string>, k: nat, name: string, value: string, body: string)
    requires k < |head| && head[k] == name + ": " + value
    requires name != "" && Free(name, " ") && Free(name, CRLF)
    requires !Contains(value, CRLF) && (value == "" || value[0] != ' ')
    requires forall i :: 0 <= i < k ==> !Contains(head[i], name)
    ensures ExtractField(Message(head, body), name) == Ok(value)
  {
    assert name + ": " + value == name + ":" + " " + value;
    FieldOfLines(head, k, name, " ", value, CRLF + body);
    assert Message(head, body) == Terminated(head) + (CRLF + body);
  }

  lemma TerminatedSnoc(ls: seq<string>, line: string)
    ensures Terminated(ls + [line]) == Terminated(ls) + line + CRLF
  {
    TerminatedConcat(ls, [line]);
  }

  lemma TerminatedThree(a: string, b: string, c: string)
    ensures Terminated([a, b, c]) == a + CRLF + b + CRLF + c + CRLF
  {
    TerminatedSnoc([], a);
    TerminatedSnoc([a], b);
    TerminatedSnoc([a, b], c);
    assert [a, b] == [a] + [b] && [a, b, c] == [a, b] + [c] && [a] == [] + [a];
  }

  lemma TerminatedFour(a: string, b: string, c: string, d: string)
    ensures Terminated([a, b, c, d]) == a + CRLF + b + CRLF + c + CRLF + d + CRLF
  {
    TerminatedThree(a, b, c);
    TerminatedSnoc([a, b, c], d);
    assert [a, b, c, d] == [a, b, c] + [d];
  }

  // The responses

  function Head200(size: nat, contentType: string, isKeepAlive: bool): seq<string> {
    ["HTTP/1.0 200 OK", "Content-length: " + Decimal(size), "Connection: " + KeepAliveString(isKeepAlive),
     "Content-Type: " + contentType]
  }

  function Head400(isKeepAlive: bool): seq<string> {
    ["HTTP/1.0 400 Bad Request", "Connection: " + KeepAliveString(isKeepAlive), "Content-Length: 11"]
  }

  function Head404(size: nat, isKeepAlive: bool): seq<string> {
    ["HTTP/1.0 404 Not Found", "Content-Type: text/html", "Content-length: " + Decimal(size),
     "Connection: " + KeepAliveString(isKeepAlive)]
  }

  lemma Create200IsMessage(dataFile: string, contentType: string, isKeepAlive: bool)
    ensures Create200(dataFile, contentType, isKeepAlive) ==
            Message(Head200(|dataFile|, contentType, isKeepAlive), dataFile + BLANK)
  {
    TerminatedFour("HTTP/1.0 200 OK", "Content-length: " + Decimal(|dataFile|),
                   "Connection: " + KeepAliveString(isKeepAlive), "Content-Type: " + contentType);
  }

  lemma Create400IsMessage(isKeepAlive: bool)
    ensures Create400(isKeepAlive) == Message(Head400(isKeepAlive), "Bad Request" + BLANK)
  {
    TerminatedThree("HTTP/1.0 400 Bad Request", "Connection: " + KeepAliveString(isKeepAlive), "Content-Length: 11");
  }

  lemma Page404IsMessage(body: string, isKeepAlive: bool)
    ensures Page404(body, isKeepAlive) == Message(Head404(|body|, isKeepAlive), body + BLANK)
  {
    TerminatedFour("HTTP/1.0 404 Not Found", "Content-Type: text/html", "Content-length: " + Decimal(|body|),
                   "Connection: " + KeepAliveString(isKeepAlive));
  }

  // Framing: the first empty line ends the head, and the length field says how many bytes the body takes
  // (section 10.4 of RFC 1945, section 6.3 of RFC 9112)

  predicate Digits(s: string) {
    forall i :: 0 <= i < |s| ==> '0' <= s[i] <= '9'
  }

  ghost predicate Framed(message: string, lengthField: string, body: string, isKeepAlive: bool) {
    && Find(message, BLANK, 0).Some?
    && message[Find(message, BLANK, 0).value + 4..] == body + BLANK
    && ExtractField(message, lengthField).Ok?
    && Digits(ExtractField(message, lengthField).value)
    && DecimalValue(ExtractField(message, lengthField).value) == |body|
    && ExtractField(message, CONNECTION) == Ok(KeepAliveString(isKeepAlive))
  }

  /** The head of a message made of non-empty lines without CR ends at its first empty line. */
  lemma BodyOfMessage(head: seq<string>, body: string)
    requires head != [] && forall l :: l in head ==> HeaderLine(l)
    ensures Find(Message(head, body), BLANK, 0) == Some(|Terminated(head)| - 2)
    ensures Message(head, body)[|Terminated(head)| + 2..] == body
  {
    FirstBlank(head, body);
  }

  lemma HeadLine(name: string, value: string)
    requires name != "" && '\r' !in name && '\r' !in value
    ensures HeaderLine(name + value)
  {
  }

  lemma NoCrNoCrlf(s: string)
    requires '\r' !in s
    ensures !Contains(s, CRLF)
  {
    LacksChar(s, CRLF, 0);
  }

  lemma FlagIsPlain(isKeepAlive: bool)
    ensures '\r' !in KeepAliveString(isKeepAlive) && KeepAliveString(isKeepAlive)[0] != ' '
    ensures 'T' !in KeepAliveString(isKeepAlive) && 'L' !in KeepAliveString(isKeepAlive)
  {
  }

  lemma FramedMessage(message: string, head: seq<string>, lengthField: string, size: string, flag: bool, body: string)
    requires head != [] && forall l :: l in head ==> HeaderLine(l)
    requires message == Message(head, body + BLANK)
    requires ExtractField(message, lengthField) == Ok(size) && Digits(size) && DecimalValue(size) == |body|
    requires ExtractField(message, CONNECTION) == Ok(KeepAliveString(flag))
    ensures Framed(message, lengthField, body, flag)
  {
    BodyOfMessage(head, body + BLANK);
  }

  /** The Connection line of a response, when no line above it mentions the name. */
  lemma ConnectionOfMessage(head: seq<string>, k: nat, flag: bool, body: string)
    requires k < |head| && head[k] == "Connection: " + KeepAliveString(flag)
    requires forall i :: 0 <= i < k ==> !Contains(head[i], CONNECTION)
    ensures ExtractField(Message(head, body), CONNECTION) == Ok(KeepAliveString(flag))
  {
    FlagIsPlain(flag);
    NoCrNoCrlf(KeepAliveString(flag));
    FieldOfMessage(head, k, CONNECTION, KeepAliveString(flag), body);
  }

  lemma LengthOfMessage(head: seq<string>, k: nat, n: nat, body: string)
    requires k < |head| && head[k] == "Content-length: " + Decimal(n)
    requires forall i :: 0 <= i < k ==> !Contains(head[i], "Content-length")
    ensures ExtractField(Message(head, body), "Content-length") == Ok(Decimal(n))
    ensures DecimalValue(Decimal(n)) == n
  {
    NoCrNoCrlf(Decimal(n));
    DecimalRoundTrip(n);
    FieldOfMessage(head, k, "Content-length", Decimal(n), body);
  }

  lemma Head200IsPlain(size: nat, contentType: string, isKeepAlive: bool)
    requires '\r' !in contentType
    ensures forall l :: l in Head200(size, contentType, isKeepAlive) ==> HeaderLine(l)
  {
    FlagIsPlain(isKeepAlive);
    HeadLine("HTTP/1.0 200 OK", "");
    HeadLine("Content-length: ", Decimal(size));
    HeadLine("Connection: ", KeepAliveString(isKeepAlive));
    HeadLine("Content-Type: ", contentType);
    assert "HTTP/1.0 200 OK" + "" == "HTTP/1.0 200 OK";
  }

  /** No field name of a 200 response occurs above its own line. */
  lemma Lacks200(size: nat, contentType: string, isKeepAlive: bool)
    ensures var head := Head200(size, contentType, isKeepAlive);
            && !Contains(head[0], "Content-length") && !Contains(head[0], CONNECTION) && !Contains(head[0], "Content-Type")
            && !Contains(head[1], CONNECTION) && !Contains(head[1], "Content-Type") && !Contains(head[2], "Content-Type")
  {
    hide Contains;
    var head := Head200(size, contentType, isKeepAlive);
    FlagIsPlain(isKeepAlive);
    LacksChar(head[0], "Content-length", 0);
    LacksChar(head[0], CONNECTION, 0);
    LacksChar(head[0], "Content-Type", 0);
    LacksChar(head[1], CONNECTION, 5);
    LacksChar(head[1], "Content-Type", 8);
    LacksChar(head[2], "Content-Type", 8);
  }

  /** For every body and every content type without CR. */
  lemma Framing200(dataFile: string, contentType: string, isKeepAlive: bool)
    requires '\r' !in contentType
    ensures Framed(Create200(dataFile, contentType, isKeepAlive), "Content-length", dataFile, isKeepAlive)
  {
    hide ExtractField, Find, Terminated;
    var n := |dataFile|;
    var head := Head200(n, contentType, isKeepAlive);
    Create200IsMessage(dataFile, contentType, isKeepAlive);
    Head200IsPlain(n, contentType, isKeepAlive);
    Lacks200(n, contentType, isKeepAlive);
    LengthOfMessage(head, 1, n, dataFile + BLANK);
    ConnectionOfMessage(head, 2, isKeepAlive, dataFile + BLANK);
    FramedMessage(Create200(dataFile, contentType, isKeepAlive), head, "Content-length", Decimal(n), isKeepAlive, dataFile);
  }

  lemma ContentType200(dataFile: string, contentType: string, isKeepAlive: bool)
    requires '\r' !in contentType && (contentType == "" || contentType[0] != ' ')
    ensures ExtractField(Create200(dataFile, contentType, isKeepAlive), "Content-Type") == Ok(contentType)
  {
    hide ExtractField, Find, Terminated;
    Create200IsMessage(dataFile, contentType, isKeepAlive);
    Lacks200(|dataFile|, contentType, isKeepAlive);
    NoCrNoCrlf(contentType);
    FieldOfMessage(Head200(|dataFile|, contentType, isKeepAlive), 3, "Content-Type", contentType, dataFile + BLANK);
  }

  lemma Lacks400(isKeepAlive: bool)
    ensures var head := Head400(isKeepAlive);
            !Contains(head[0], CONNECTION) && !Contains(head[0], "Content-Length") && !Contains(head[1], "Content-Length")
  {
    hide Contains;
    var head := Head400(isKeepAlive);
    FlagIsPlain(isKeepAlive);
    LacksChar(head[0], CONNECTION, 0);
    LacksChar(head[0], "Content-Length", 0);
    LacksChar(head[1], "Content-Length", 8);
  }

  lemma Fields400(isKeepAlive: bool, body: string)
    ensures ExtractField(Message(Head400(isKeepAlive), body), "Content-Length") == Ok("11")
    ensures ExtractField(Message(Head400(isKeepAlive), body), CONNECTION) == Ok(KeepAliveString(isKeepAlive))
  {
    var head := Head400(isKeepAlive);
    Lacks400(isKeepAlive);
    NoCrNoCrlf("11");
    assert "Content-Length: 11" == "Content-Length" + ": " + "11";
    FieldOfMessage(head, 2, "Content-Length", "11", body);
    ConnectionOfMessage(head, 1, isKeepAlive, body);
  }

  lemma FixedLines400()
    ensures HeaderLine("HTTP/1.0 400 Bad Request") && HeaderLine("Content-Length: 11")
  {
  }

  lemma Head400IsPlain(isKeepAlive: bool)
    ensures forall l :: l in Head400(isKeepAlive) ==> HeaderLine(l)
  {
    FlagIsPlain(isKeepAlive);
    FixedLines400();
    HeadLine("Connection: ", KeepAliveString(isKeepAlive));
    hide HeaderLine;
  }

  lemma Framing400(isKeepAlive: bool)
    ensures Framed(Create400(isKeepAlive), "Content-Length", "Bad Request", isKeepAlive)
  {
    hide ExtractField, Find;
    var head := Head400(isKeepAlive);
    Create400IsMessage(isKeepAlive);
    Head400IsPlain(isKeepAlive);
    Fields400(isKeepAlive, "Bad Request" + BLANK);
    assert "11"[..1] == "1" && "1"[..0] == "" && |"Bad Request"| == 11;
    FramedMessage(Create400(isKeepAlive), head, "Content-Length", "11", isKeepAlive, "Bad Request");
  }

  lemma FixedLines404()
    ensures HeaderLine("HTTP/1.0 404 Not Found") && HeaderLine("Content-Type: text/html")
  {
  }

  lemma Head404IsPlain(size: nat, isKeepAlive: bool)
    ensures forall l :: l in Head404(size, isKeepAlive) ==> HeaderLine(l)
  {
    FlagIsPlain(isKeepAlive);
    FixedLines404();
    HeadLine("Content-length: ", Decimal(size));
    HeadLine("Connection: ", KeepAliveString(isKeepAlive));
    hide HeaderLine;
  }

  lemma NotFoundLine()
    ensures !Contains("HTTP/1.0 404 Not Found", "Content-length") && !Contains("HTTP/1.0 404 Not Found", CONNECTION)
  {
    LacksChar("HTTP/1.0 404 Not Found", "Content-length", 0);
    LacksChar("HTTP/1.0 404 Not Found", CONNECTION, 0);
  }

  lemma TypeLine()
    ensures !Contains("Content-Type: text/html", "Content-length") && !Contains("Content-Type: text/html", CONNECTION)
  {
    LacksChar("Content-Type: text/html", "Content-length", 11);
    LacksChar("Content-Type: text/html", CONNECTION, 5);
  }

  lemma Lacks404(size: nat, isKeepAlive: bool)
    ensures var head := Head404(size, isKeepAlive);
            && !Contains(head[0], "Content-length") && !Contains(head[1], "Content-length")
            && !Contains(head[0], CONNECTION) && !Contains(head[1], CONNECTION) && !Contains(head[2], CONNECTION)
  {
    hide Contains;
    var head := Head404(size, isKeepAlive);
    NotFoundLine();
    TypeLine();
    LacksChar(head[2], CONNECTION, 5);
  }

  lemma FramingPage404(body: string, isKeepAlive: bool)
    ensures Framed(Page404(body, isKeepAlive), "Content-length", body, isKeepAlive)
  {
    var head := Head404(|body|, isKeepAlive);
    Page404IsMessage(body, isKeepAlive);
    Head404IsPlain(|body|, isKeepAlive);
    Lacks404(|body|, isKeepAlive);
    LengthOfMessage(head, 2, |body|, body + BLANK);
    ConnectionOfMessage(head, 3, isKeepAlive, body + BLANK);
    FramedMessage(Page404(body, isKeepAlive), head, "Content-length", Decimal(|body|), isKeepAlive, body);
  }

  lemma Framing404(isKeepAlive: bool)
    ensures Framed(Create404(isKeepAlive), "Content-length", NOT_FOUND, isKeepAlive)
  {
    FramingPage404(NOT_FOUND, isKeepAlive);
  }

  // The status line

  function FirstLineOf(message: string): string {
    message[..Find(message, CRLF, 0).GetOr(|message|)]
  }

  /** What stands between the first two spaces of the first line. */
  function StatusOf(message: string): string {
    var line := FirstLineOf(message);
    var a := FirstOf(line, " ", 0).GetOr(|line|);
    var b := FirstOf(line, " ", a + 1).GetOr(|line|);
    if a < b then line[a + 1..b] else ""
  }

  lemma FirstLineOfMessage(head: seq<string>, body: string)
    requires head != [] && '\r' !in head[0]
    ensures FirstLineOf(Message(head, body)) == head[0]
  {
    var line := head[0];
    var rest := Terminated(head[1..]) + CRLF + body;
    NoCrNoCrlf(line);
    FindLineEnd(line, rest);
    assert Message(head, body) == line + CRLF + rest;
    assert (line + CRLF + rest)[..|line|] == line;
  }

  lemma StatusOfLine(message: string, version: string, status: string, reason: string)
    requires FirstLineOf(message) == version + " " + status + " " + reason && Free(version, " ") && Free(status, " ")
    ensures StatusOf(message) == status
  {
    var line := version + " " + status + " " + reason;
    var a := |version|;
    var b := a + 1 + |status|;
    assert forall j :: 0 <= j < a ==> line[j] == version[j];
    assert forall j :: a < j < b ==> line[j] == status[j - a - 1];
    assert line[a] == ' ' && line[b] == ' ';
    assert FirstOf(line, " ", 0) == Some(a) && FirstOf(line, " ", a + 1) == Some(b);
    assert line[a + 1..b] == status;
  }

  lemma Status200(dataFile: string, contentType: string, isKeepAlive: bool)
    ensures FirstLineOf(Create200(dataFile, contentType, isKeepAlive)) == "HTTP/1.0 200 OK"
    ensures StatusOf(Create200(dataFile, contentType, isKeepAlive)) == "200"
  {
    hide FirstLineOf, StatusOf, Create200, Message;
    Create200IsMessage(dataFile, contentType, isKeepAlive);
    FirstLineOfMessage(Head200(|dataFile|, contentType, isKeepAlive), dataFile + BLANK);
    assert "HTTP/1.0" + " " + "200" + " " + "OK" == "HTTP/1.0 200 OK";
    StatusOfLine(Create200(dataFile, contentType, isKeepAlive), "HTTP/1.0", "200", "OK");
  }

  lemma Status400(isKeepAlive: bool)
    ensures FirstLineOf(Create400(isKeepAlive)) == "HTTP/1.0 400 Bad Request"
    ensures StatusOf(Create400(isKeepAlive)) == "400"
  {
    hide FirstLineOf, StatusOf, Create400, Message;
    Create400IsMessage(isKeepAlive);
    FirstLineOfMessage(Head400(isKeepAlive), "Bad Request" + BLANK);
    assert "HTTP/1.0" + " " + "400" + " " + "Bad Request" == "HTTP/1.0 400 Bad Request";
    StatusOfLine(Create400(isKeepAlive), "HTTP/1.0", "400", "Bad Request");
  }

  lemma StatusOfPage404(body: string, isKeepAlive: bool)
    ensures FirstLineOf(Page404(body, isKeepAlive)) == "HTTP/1.0 404 Not Found"
    ensures StatusOf(Page404(body, isKeepAlive)) == "404"
  {
    hide FirstLineOf, StatusOf, Page404, Message;
    Page404IsMessage(body, isKeepAlive);
    FirstLineOfMessage(Head404(|body|, isKeepAlive), body + BLANK);
    assert "HTTP/1.0" + " " + "404" + " " + "Not Found" == "HTTP/1.0 404 Not Found";
    StatusOfLine(Page404(body, isKeepAlive), "HTTP/1.0", "404", "Not Found");
  }

  lemma Status404(isKeepAlive: bool)
    ensures FirstLineOf(Create404(isKeepAlive)) == "HTTP/1.0 404 Not Found"
    ensures StatusOf(Create404(isKeepAlive)) == "404"
  {
    StatusOfPage404(NOT_FOUND, isKeepAlive);
  }

  lemma HtmlLine()
    ensures "Content-Type: text/html" == "Content-Type" + ": " + "text/html"
  {
  }

  lemma TypeOfPage404(body: string, isKeepAlive: bool)
    ensures ExtractField(Page404(body, isKeepAlive), "Content-Type") == Ok("text/html")
  {
    hide ExtractField, Find, Terminated, Page404;
    Page404IsMessage(body, isKeepAlive);
    var head := Head404(|body|, isKeepAlive);
    LacksChar(head[0], "Content-Type", 0);
    NoCrNoCrlf("text/html");
    HtmlLine();
    FieldOfMessage(head, 1, "Content-Type", "text/html", body + BLANK);
  }

  lemma ContentType404(isKeepAlive: bool)
    ensures ExtractField(Create404(isKeepAlive), "Content-Type") == Ok("text/html")
  {
    TypeOfPage404(NOT_FOUND, isKeepAlive);
  }

  /** What a framed message fixes. */
  lemma FramedFixes(message: string, field: string, body: string, k: bool, body': string, k': bool)
    requires Framed(message, field, body, k) && Framed(message, field, body', k')
    ensures body == body' && k == k'
  {
    assert body + BLANK == body' + BLANK;
    assert body == (body + BLANK)[..|body|] && body' == (body' + BLANK)[..|body'|];
    assert |KeepAliveString(true)| != |KeepAliveString(false)|;
  }

  /** A 200 response tells its body, its flag and its content type apart from every other's. */
  lemma Create200IsInjective(d: string, t: string, k: bool, d': string, t': string, k': bool)
    requires '\r' !in t && '\r' !in t' && (t == "" || t[0] != ' ') && (t' == "" || t'[0] != ' ')
    ensures Create200(d, t, k) == Create200(d', t', k') <==> d == d' && t == t' && k == k'
  {
    Framing200(d, t, k);
    Framing200(d', t', k');
    ContentType200(d, t, k);
    ContentType200(d', t', k');
    if Create200(d, t, k) == Create200(d', t', k') {
      FramedFixes(Create200(d, t, k), "Content-length", d, k, d', k');
    }
  }

  /** Every content type of the table is without CR and does not start with a space. */
  lemma ContentTypesArePlain(fileName: string)
    requires GetContentType(fileName).Ok?
    ensures var t := GetContentType(fileName).value; '\r' !in t && (t == "" || t[0] != ' ')
  {
  }

  // The client's request

  function HeadGET(host: string, port: string): seq<string> {
    ["GET /index.html HTTP/1.1", "Host: " + host + ":" + port, USER_AGENT, ACCEPT,
     ACCEPT_LANGUAGE, ACCEPT_ENCODING, "Connection: keep-alive"]
  }

  lemma CreateGETIsMessage(host: string, port: string)
    ensures CreateGET(host, port) == Message(HeadGET(host, port), "")
  {
    var head := HeadGET(host, port);
    TerminatedFour(head[0], head[1], head[2], head[3]);
    var four := [head[0], head[1], head[2], head[3]];
    TerminatedSnoc(four, head[4]);
    TerminatedSnoc(four + [head[4]], head[5]);
    TerminatedSnoc(four + [head[4]] + [head[5]], head[6]);
    assert head == four + [head[4]] + [head[5]] + [head[6]];
    assert Terminated(head) + CRLF + "" == Terminated(head) + CRLF;
  }

  lemma KeepAliveIsLower()
    ensures Lower("keep-alive") == "keep-alive"
  {
    assert Lower("keep-alive") == "keep-alive";
  }

  /** Without CR, and without the C of Connection. */
  predicate Plain(s: string) {
    '\r' !in s && 'C' !in s
  }

  lemma PlainLine(s: string, t: string)
    requires s != "" && Plain(s) && Plain(t)
    ensures Plain(s + t) && HeaderLine(s + t)
  {
    HeadLine(s, t);
  }

  lemma UserAgentIsPlain()
    ensures HeaderLine(USER_AGENT) && Plain(USER_AGENT)
  {
    assert Plain("User-Agent: Mozilla/5.0 ");
    assert Plain("(X11; Ubuntu; Linux ");
    assert Plain("x86_64; rv:35.0)");
    assert Plain(" Gecko/20100101 ") && Plain("Firefox/35.0");
    PlainLine("User-Agent: Mozilla/5.0 ", "(X11; Ubuntu; Linux ");
    PlainLine("User-Agent: Mozilla/5.0 " + "(X11; Ubuntu; Linux ", "x86_64; rv:35.0)");
    var system := "User-Agent: Mozilla/5.0 " + "(X11; Ubuntu; Linux " + "x86_64; rv:35.0)";
    PlainLine(system, " Gecko/20100101 ");
    PlainLine(system + " Gecko/20100101 ", "Firefox/35.0");
  }

  lemma AcceptIsPlain()
    ensures HeaderLine(ACCEPT) && Plain(ACCEPT)
  {
    assert Plain("Accept: text/html,");
    assert Plain("application/xhtml+xml,");
    assert Plain("application/xml;q=0.9,*//*;q=0.8");
    PlainLine("Accept: text/html,", "application/xhtml+xml,");
    PlainLine("Accept: text/html," + "application/xhtml+xml,", "application/xml;q=0.9,*//*;q=0.8");
  }

  lemma GETLineIsPlain()
    ensures HeaderLine("GET /index.html HTTP/1.1") && Plain("GET /index.html HTTP/1.1")
  {
  }

  lemma OtherLinesArePlain()
    ensures HeaderLine(ACCEPT_LANGUAGE) && Plain(ACCEPT_LANGUAGE)
    ensures HeaderLine(ACCEPT_ENCODING) && Plain(ACCEPT_ENCODING)
  {
    assert Plain("Accept-Language: ") && Plain("en-US,en;q=0.5");
    assert Plain("Accept-Encoding: ") && Plain("gzip, deflate");
    PlainLine("Accept-Language: ", "en-US,en;q=0.5");
    PlainLine("Accept-Encoding: ", "gzip, deflate");
  }

  lemma HostIsPlain(host: string, port: string)
    requires '\r' !in host && '\r' !in port
    ensures HeaderLine("Host: " + host + ":" + port)
  {
    HeadLine("Host: ", host + ":" + port);
    assert "Host: " + (host + ":" + port) == "Host: " + host + ":" + port;
  }

  lemma ConnectionIsPlain()
    ensures HeaderLine("Connection: keep-alive")
  {
  }

  lemma HeadGETIsPlain(host: string, port: string)
    requires '\r' !in host && '\r' !in port
    ensures forall l :: l in HeadGET(host, port) ==> HeaderLine(l)
  {
    HostIsPlain(host, port);
    ConnectionIsPlain();
    hide HeaderLine, Plain;
    UserAgentIsPlain();
    AcceptIsPlain();
    GETLineIsPlain();
    OtherLinesArePlain();
  }

  lemma HostLacks(host: string, port: string, name: string)
    requires name != "" && ' ' !in name && ':' !in name && !Contains("Host:", name)
    requires !Contains(host, name) && !Contains(port, name)
    ensures !Contains("Host: " + host + ":" + port, name)
  {
    ContainsAcross("Host:", ' ', host, name);
    ContainsAcross("Host:" + [' '] + host, ':', port, name);
    assert "Host:" + [' '] + host + [':'] + port == "Host: " + host + ":" + port;
  }

  lemma LinesAbove(host: string, port: string)
    requires !Contains(host, CONNECTION) && !Contains(port, CONNECTION)
    ensures forall i :: 0 <= i < 6 ==> !Contains(HeadGET(host, port)[i], CONNECTION)
  {
    var head := HeadGET(host, port);
    UserAgentIsPlain();
    AcceptIsPlain();
    GETLineIsPlain();
    OtherLinesArePlain();
    LacksChar("Host:", CONNECTION, 0);
    HostLacks(host, port, CONNECTION);
    forall i | 0 <= i < 6 ensures !Contains(head[i], CONNECTION) {
      if i != 1 {
        LacksChar(head[i], CONNECTION, 0);
      }
    }
  }

  lemma ConnectionOfGET(host: string, port: string)
    requires !Contains(host, CONNECTION) && !Contains(port, CONNECTION)
    ensures ExtractField(Message(HeadGET(host, port), ""), CONNECTION) == Ok("keep-alive")
  {
    var head := HeadGET(host, port);
    LinesAbove(host, port);
    assert head[6] == "Connection: " + KeepAliveString(true);
    ConnectionOfMessage(head, 6, true, "");
  }

  lemma CreateGETHead(host: string, port: string) returns (head: seq<string>)
    requires '\r' !in host && '\r' !in port && !Contains(host, CONNECTION) && !Contains(port, CONNECTION)
    ensures CreateGET(host, port) == Message(head, "")
    ensures head != [] && (forall l :: l in head ==> HeaderLine(l)) && head[0] == "GET /index.html HTTP/1.1"
    ensures ExtractField(CreateGET(host, port), CONNECTION) == Ok("keep-alive")
  {
    hide HeaderLine, ExtractField;
    CreateGETIsMessage(host, port);
    HeadGETIsPlain(host, port);
    ConnectionOfGET(host, port);
    head := HeadGET(host, port);
  }

  lemma FirstLine(m: string, head: seq<string>) returns (tail: string)
    requires m == Message(head, "") && head != []
    ensures m == head[0] + CRLF + tail
  {
    tail := Terminated(head[1..]) + CRLF;
  }

  lemma RequestLineOfGET(m: string, tail: string)
    requires m == "GET /index.html HTTP/1.1" + CRLF + tail
    ensures ParseRequest(m) == match ExtractField(m, CONNECTION)
                               case Ok(v) => Ok(Request("GET", "/index.html", v))
                               case Thrown(e) => Thrown(e)
  {
    assert Line("GET", "/index.html", ' ', "HTTP/1.1") == "GET /index.html HTTP/1.1";
    LacksChar("GET", CRLF, 0);
    LacksChar("/index.html", CRLF, 0);
    LacksChar("HTTP/1.1", CRLF, 0);
    ParsePrinted("GET", "/index.html", ' ', "HTTP/1.1", tail);
  }

  lemma RequestOfMessage(m: string, head: seq<string>, connection: string)
    requires m == Message(head, "")
    requires head != [] && (forall l :: l in head ==> HeaderLine(l)) && head[0] == "GET /index.html HTTP/1.1"
    requires ExtractField(m, CONNECTION) == Ok(connection)
    ensures Find(m, BLANK, 0) == Some(|m| - 4)
    ensures ParseRequest(m) == Ok(Request("GET", "/index.html", connection))
  {
    BodyOfMessage(head, "");
    var tail := FirstLine(m, head);
    RequestLineOfGET(m, tail);
  }

  /** The request the client sends is one packet, and parses to what it asks for. */
  lemma ClientRequest(host: string, port: string)
    requires '\r' !in host && '\r' !in port && !Contains(host, CONNECTION) && !Contains(port, CONNECTION)
    ensures Find(CreateGET(host, port), BLANK, 0) == Some(|CreateGET(host, port)| - 4)
    ensures ParseRequest(CreateGET(host, port)) == Ok(Request("GET", "/index.html", "keep-alive"))
    ensures Request("GET", "/index.html", "keep-alive").IsGet() && Request("GET", "/index.html", "keep-alive").KeepAlive()
  {
    hide Find, ExtractField, ParseRequest, CreateGET, Message;
    var head := CreateGETHead(host, port);
    RequestOfMessage(CreateGET(host, port), head, "keep-alive");
    KeepAliveIsLower();
  }

  lemma HostOfClient(host: string, port: string)
    requires '\r' !in host && '\r' !in port && (host == "" || host[0] != ' ')
    ensures ExtractField(CreateGET(host, port), "Host") == Ok(host + ":" + port)
  {
    hide ExtractField, Find, Terminated, CreateGET;
    CreateGETIsMessage(host, port);
    var head := HeadGET(host, port);
    LacksChar(head[0], "Host", 1);
    NoCrNoCrlf(host + ":" + port);
    assert "Host" + ": " + (host + ":" + port) == "Host: " + host + ":" + port;
    FieldOfMessage(head, 1, "Host", host + ":" + port, "");
  }
}
