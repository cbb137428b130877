/** HTTPPacket::Split, and the joining it undoes. */
module Splitting {
  import opened Text
  import opened HttpPacket

  /** The lines of a buffer; a CRLF at the end does not start another line. */
  function Lines(b: string): (ls: seq<string>)
    ensures b != "" ==> ls != []
  {
    if b == "" then []
    else
      match Find(b, CRLF, 0)
      case None => [b]
      case Some(i) => [b[..i]] + Lines(b[i + 2..])
  }

  /** The lines separated by CRLF, with one more CRLF after the last when `terminated`. */
  function Join(ls: seq<string>, terminated: bool): string {
    if ls == [] then ""
    else if |ls| == 1 then ls[0] + if terminated then CRLF else ""
    else ls[0] + CRLF + Join(ls[1..], terminated)
  }

  predicate EndsLine(b: string) {
    |b| >= 2 && At(b, CRLF, |b| - 2)
  }

  ghost predicate Joinable(ls: seq<string>, terminated: bool) {
    && ls != [] && (forall l :: l in ls ==> !Contains(l, CRLF))
    && (terminated || ls[|ls| - 1] != "")
  }

  /** The lines from `pos` on. */
  function LinesAt(buffer: string, pos: nat): seq<string>
    decreases |buffer| - pos
  {
    if pos >= |buffer| then []
    else
      match Find(buffer, CRLF, pos)
      case None => [buffer[pos..]]
      case Some(next) => [buffer[pos..next]] + LinesAt(buffer, next + 2)
  }

  lemma {:induction false} LinesAtMeans(buffer: string, pos: nat)
    requires pos <= |buffer|
    ensures LinesAt(buffer, pos) == Lines(buffer[pos..])
    decreases |buffer| - pos
  {
    if pos < |buffer| {
      FindSuffix(buffer, CRLF, pos, 0);
      match Find(buffer, CRLF, pos) {
        case None =>
        case Some(next) =>
          LinesAtMeans(buffer, next + 2);
          var rest := buffer[pos..];
          assert rest[..next - pos] == buffer[pos..next];
          assert rest[next - pos + 2..] == buffer[next + 2..];
      }
    }
  }

  /** HTTPPacket::Split. */
  method Split(buffer: string) returns (splitted: seq<string>)
    ensures splitted == Lines(buffer)
  {
    hide Find, Lines;
    LinesAtMeans(buffer, 0);
    assert buffer[0..] == buffer;
    splitted := [];
    if buffer == "" {
      return;
    }
    var pos := 0;
    ghost var rest := LinesAt(buffer, 0);
    while true
      invariant 0 <= pos < |buffer|
      invariant rest == LinesAt(buffer, pos) && splitted + rest == Lines(buffer)
      decreases |buffer| - pos
    {
      var next := Find(buffer, CRLF, pos);
      var nextPos := next.GetOr(|buffer|);
      splitted := splitted + [buffer[pos..nextPos]];
      if nextPos == |buffer| {
        assert buffer[pos..nextPos] == buffer[pos..];
        return;
      }
      pos := nextPos + 2;
      rest := LinesAt(buffer, pos);
      if pos >= |buffer| {
        return;
      }
    }
  }

  lemma EndsLineOfTail(a: string, b: string)
    requires b != ""
    ensures EndsLine(a + CRLF + b) <==> EndsLine(b)
  {
    var s := a + CRLF + b;
    var n := |s|;
    assert s == (a + CRLF) + b;
    AtTwo(s, '\r', '\n', n - 2);
    if |b| >= 2 {
      AtRight(a + CRLF, b, CRLF, |b| - 2);
    } else {
      assert s[n - 2] == '\n';
    }
  }

  lemma EndsLineAlone(a: string)
    ensures EndsLine(a + CRLF)
    ensures !Contains(a, CRLF) ==> !EndsLine(a)
  {
    AtTwo(a + CRLF, '\r', '\n', |a|);
  }

  /** Joining the pieces of Split rebuilds the buffer, and no piece holds a CRLF. */
  lemma {:induction false} JoinOfSplit(b: string)
    requires b != ""
    ensures Joinable(Lines(b), EndsLine(b)) && Join(Lines(b), EndsLine(b)) == b
  {
    FindMeans(b, CRLF, 0);
    match Find(b, CRLF, 0) {
      case None =>
        EndsLineAlone(b);
      case Some(i) =>
        var line, rest := b[..i], b[i + 2..];
        AtMeans(b, CRLF, i);
        assert b == line + CRLF + rest;
        SpanHasNoCrlf(b, 0, i);
        assert b[0..i] == line;
        if rest == "" {
          EndsLineAlone(line);
          assert b == line + CRLF;
          assert Lines(b) == [line];
        } else {
          EndsLineOfTail(line, rest);
          JoinOfSplit(rest);
          assert Lines(b)[1..] == Lines(rest);
        }
    }
  }

  /** And splitting what was joined gives the lines back. */
  lemma {:induction false} SplitOfJoin(ls: seq<string>, terminated: bool)
    requires Joinable(ls, terminated)
    ensures Lines(Join(ls, terminated)) == ls
    ensures Join(ls, terminated) != "" && EndsLine(Join(ls, terminated)) == terminated
  {
    var line := ls[0];
    assert !Contains(line, CRLF);
    if |ls| == 1 {
      EndsLineAlone(line);
      if terminated {
        FindLineEnd(line, "");
        assert line + CRLF + "" == line + CRLF;
        assert (line + CRLF)[..|line|] == line && (line + CRLF)[|line| + 2..] == "";
      } else {
        assert line + "" == line;
        FindNone(line, CRLF, 0);
      }
    } else {
      var rest := Join(ls[1..], terminated);
      assert ls[1..][|ls| - 2] == ls[|ls| - 1];
      SplitOfJoin(ls[1..], terminated);
      FindLineEnd(line, rest);
      EndsLineOfTail(line, rest);
      var b := line + CRLF + rest;
      assert b[..|line|] == line && b[|line| + 2..] == rest;
    }
  }

  /** So a buffer has one decomposition into lines. */
  lemma DecompositionIsUnique(ls: seq<string>, terminated: bool, ls': seq<string>, terminated': bool)
    requires Joinable(ls, terminated) && Joinable(ls', terminated')
    ensures Join(ls, terminated) == Join(ls', terminated') <==> ls == ls' && terminated == terminated'
  {
    SplitOfJoin(ls, terminated);
    SplitOfJoin(ls', terminated');
  }
}
