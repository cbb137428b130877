/** Reading a packet: HTTPPacket.cpp:12-132 and the struct of HTTPPacket.h. */
module HttpPacket {
  import opened Wrappers
  import opened Text

  const CONNECTION: string := "Connection"

  /** `buffer.substr(pos, n)`, where `pos` may be npos. */
  function Substr(buffer: string, pos: Option<nat>, n: nat): Outcome<string> {
    if pos.None? || pos.value > |buffer| then Thrown(OutOfRange)
    else if pos.value + n <= |buffer| then Ok(buffer[pos.value..pos.value + n])
    else Ok(buffer[pos.value..])
  }

  /** The first character after the first run of spaces. */
  function ValueStart(buffer: string, bCommand: nat): (b: Option<nat>)
    ensures b.Some? ==> bCommand < b.value < |buffer|
  {
    match Find(buffer, " ", bCommand)
    case None => None
    case Some(space) => FirstNotOf(buffer, " ", space)
  }

  function ValueEnd(buffer: string, bValue: nat): (e: nat)
    requires bValue <= |buffer|
    ensures bValue <= e <= |buffer|
  {
    Find(buffer, CRLF, bValue).GetOr(|buffer|)
  }

  /** The rest of ExtractField once the field is found; a search that starts at npos finds nothing. */
  function ExtractFrom(buffer: string, bCommand: nat): Outcome<string> {
    match ValueStart(buffer, bCommand)
    case None => Substr(buffer, None, 0)
    case Some(bValue) => Substr(buffer, Some(bValue), ValueEnd(buffer, bValue) - bValue)
  }

  /** HTTPPacket::ExtractField. */
  function ExtractField(buffer: string, field: string): Outcome<string> {
    match Find(buffer, field, 0)
    case None => Ok("")
    case Some(bCommand) => ExtractFrom(buffer, bCommand)
  }

  /** HTTPPacket::IsBlankLine: do the `offset` bytes of the buffer end with an empty line? */
  function IsBlankLine(offset: nat, buffer: string): Outcome<bool> {
    if offset >= |BLANK| then
      match Substr(buffer, Some(offset - |BLANK|), |BLANK|)
      case Ok(l) => Ok(l == BLANK)
      case Thrown(e) => Thrown(e)
    else Ok(false)
  }

  predicate EndsPacket(text: string) {
    |text| >= |BLANK| && At(text, BLANK, |text| - |BLANK|)
  }

  lemma IsBlankLineMeans(offset: nat, buffer: string)
    requires offset <= |buffer|
    ensures IsBlankLine(offset, buffer) == Ok(EndsPacket(buffer[..offset]))
  {
    if offset >= 4 {
      AtMeans(buffer[..offset], BLANK, offset - 4);
      assert buffer[..offset][offset - 4..offset] == buffer[offset - 4..offset];
    }
  }

  // What ExtractField returns

  ghost predicate First(s: string, p: string, i: nat) {
    At(s, p, i) && forall j: nat :: j < i ==> !At(s, p, j)
  }

  /** Somewhere from `f` on, a space is followed, near or far, by something else. */
  ghost predicate HasValue(buffer: string, f: nat) {
    exists i, j :: f <= i < j < |buffer| && buffer[i] == ' ' && buffer[j] != ' '
  }

  /** `buffer[b..e]` is what follows the first run of spaces from `f`, up to CRLF or the end. */
  ghost predicate ValueSpan(buffer: string, f: nat, b: nat, e: nat) {
    && f < b < |buffer| && b <= e <= |buffer|
    && buffer[b - 1] == ' ' && buffer[b] != ' '
    && (exists i :: f <= i < b && Free(buffer[f..i], " ") && forall k :: i <= k < b ==> buffer[k] == ' ')
    && !Contains(buffer[b..e], CRLF)
    && (At(buffer, CRLF, e) || e == |buffer|)
  }

  lemma NothingToExtract(buffer: string, field: string, f: nat)
    requires First(buffer, field, f) && !HasValue(buffer, f)
    ensures ExtractField(buffer, field) == Thrown(OutOfRange)
  {
    FindOne(buffer, ' ', f);
    FindAt(buffer, field, 0, f);
  }

  lemma ValueStartMeans(buffer: string, f: nat) returns (b: nat)
    requires HasValue(buffer, f)
    ensures ValueStart(buffer, f) == Some(b) && f < b < |buffer|
    ensures buffer[b - 1] == ' ' && buffer[b] != ' '
    ensures exists i :: f <= i < b && Free(buffer[f..i], " ") && forall k :: i <= k < b ==> buffer[k] == ' '
  {
    var i, j :| f <= i < j < |buffer| && buffer[i] == ' ' && buffer[j] != ' ';
    FindOne(buffer, ' ', f);
    var space := FirstOf(buffer, " ", f).value;
    b := FirstNotOf(buffer, " ", space).value;
    assert Free(buffer[f..space], " ");
  }

  lemma SpanHasNoCrlf(buffer: string, b: nat, e: nat)
    requires b <= e <= |buffer| && e == Find(buffer, CRLF, b).GetOr(|buffer|)
    ensures !Contains(buffer[b..e], CRLF)
  {
    FindMeans(buffer, CRLF, b);
    forall k: nat ensures !At(buffer[b..e], CRLF, k) {
      AtTwo(buffer[b..e], '\r', '\n', k);
      AtTwo(buffer, '\r', '\n', b + k);
    }
  }

  lemma ExtractedSpan(buffer: string, field: string, f: nat) returns (b: nat, e: nat)
    requires First(buffer, field, f) && HasValue(buffer, f)
    ensures ValueSpan(buffer, f, b, e) && ExtractField(buffer, field) == Ok(buffer[b..e])
  {
    FindAt(buffer, field, 0, f);
    b := ValueStartMeans(buffer, f);
    e := ValueEnd(buffer, b);
    FindMeans(buffer, CRLF, b);
    SpanHasNoCrlf(buffer, b, e);
  }

  lemma ExtractFieldMeans(buffer: string, field: string)
    ensures !Contains(buffer, field) ==> ExtractField(buffer, field) == Ok("")
    ensures forall f: nat :: First(buffer, field, f) ==>
              (ExtractField(buffer, field) == Thrown(OutOfRange) <==> !HasValue(buffer, f))
    ensures forall f: nat :: First(buffer, field, f) && HasValue(buffer, f) ==>
              exists b: nat, e: nat :: ValueSpan(buffer, f, b, e)
                                       && ExtractField(buffer, field) == Ok(buffer[b..e])
  {
    FindMeans(buffer, field, 0);
    forall f: nat | First(buffer, field, f)
      ensures ExtractField(buffer, field) == Thrown(OutOfRange) <==> !HasValue(buffer, f)
      ensures HasValue(buffer, f) ==>
                exists b: nat, e: nat :: ValueSpan(buffer, f, b, e)
                                         && ExtractField(buffer, field) == Ok(buffer[b..e])
    {
      FindAt(buffer, field, 0, f);
      if HasValue(buffer, f) {
        var b, e := ExtractedSpan(buffer, field, f);
      } else {
        NothingToExtract(buffer, field, f);
      }
    }
  }

  lemma SliceShifts(a: string, b: string, v: nat, e: nat)
    requires v <= e <= |b|
    ensures (a + b)[|a| + v..|a| + e] == b[v..e]
  {
  }

  lemma ValueEndShifts(a: string, b: string, v: nat)
    requires v <= |b|
    ensures ValueEnd(a + b, |a| + v) == |a| + ValueEnd(b, v)
  {
    assert (a + b)[|a|..] == b;
    FindSuffix(a + b, CRLF, |a|, v);
  }

  lemma FirstOfSuffix(a: string, b: string, cs: string, from: nat)
    ensures FirstOf(a + b, cs, |a| + from) ==
            match FirstOf(b, cs, from) case Some(i) => Some(|a| + i) case None => None
    decreases |b| - from
  {
    if from >= |b| {
    } else {
      assert (a + b)[|a| + from] == b[from];
      if b[from] !in cs {
        FirstOfSuffix(a, b, cs, from + 1);
      }
    }
  }

  lemma FirstNotOfSuffix(a: string, b: string, cs: string, from: nat)
    ensures FirstNotOf(a + b, cs, |a| + from) ==
            match FirstNotOf(b, cs, from) case Some(i) => Some(|a| + i) case None => None
    decreases |b| - from
  {
    if from >= |b| {
    } else {
      assert (a + b)[|a| + from] == b[from];
      if b[from] in cs {
        FirstNotOfSuffix(a, b, cs, from + 1);
      }
    }
  }

  lemma ValueStartShifts(a: string, b: string, f: nat)
    ensures ValueStart(a + b, |a| + f) ==
            match ValueStart(b, f) case Some(v) => Some(|a| + v) case None => None
  {
    FindOne(a + b, ' ', |a| + f);
    FindOne(b, ' ', f);
    FirstOfSuffix(a, b, " ", f);
    if FirstOf(b, " ", f).Some? {
      FirstNotOfSuffix(a, b, " ", FirstOf(b, " ", f).value);
    }
  }

  lemma ExtractFromShifts(a: string, b: string, f: nat)
    ensures ExtractFrom(a + b, |a| + f) == ExtractFrom(b, f)
  {
    ValueStartShifts(a, b, f);
    match ValueStart(b, f) {
      case None =>
      case Some(v) =>
        ValueEndShifts(a, b, v);
        SliceShifts(a, b, v, ValueEnd(b, v));
    }
  }

  /** The field is looked up in the whole buffer, so only what follows its first occurrence matters. */
  lemma ExtractSkips(a: string, b: string, field: string)
    requires forall j: nat :: j < |a| ==> !At(a + b, field, j)
    ensures ExtractField(a + b, field) == ExtractField(b, field)
  {
    hide ExtractFrom;
    FindSkips(a, b, field);
    match Find(b, field, 0) {
      case None =>
      case Some(f) => ExtractFromShifts(a, b, f);
    }
  }

  predicate Spaces(pad: string) {
    forall i :: 0 <= i < |pad| ==> pad[i] == ' '
  }

  lemma PaddedValueStart(name: string, pad: string, tail: string)
    requires Free(name, " ") && pad != "" && Spaces(pad) && tail != "" && tail[0] != ' '
    ensures ValueStart(name + pad + tail, 0) == Some(|name + pad|)
  {
    var s := name + pad + tail;
    assert forall k :: 0 <= k < |name| ==> s[k] == name[k];
    assert forall k :: |name| <= k < |name + pad| ==> s[k] == pad[k - |name|];
    assert s[|name|] == ' ' && ' ' in " " && s[|name + pad|] == tail[0];
    assert FirstOf(s, " ", 0) == Some(|name|);
    FindOne(s, ' ', 0);
  }

  lemma ExtractValue(name: string, pad: string, value: string, rest: string)
    requires Free(name, " ") && pad != "" && Spaces(pad)
    requires !Contains(value, CRLF) && (value == "" || value[0] != ' ')
    ensures ExtractFrom(name + pad + (value + CRLF + rest), 0) == Ok(value)
  {
    var tail := value + CRLF + rest;
    var s := name + pad + tail;
    var v := |name + pad|;
    PaddedValueStart(name, pad, tail);
    assert s[v..] == tail;
    FindLineEnd(value, rest);
    FindSuffix(s, CRLF, v, 0);
    assert s[v..v + |value|] == value;
  }

  /** A `name: value` line: the value comes back without the spaces before it. */
  lemma ExtractPrinted(name: string, pad: string, value: string, rest: string)
    requires Free(name, " ") && pad != "" && Spaces(pad)
    requires !Contains(value, CRLF) && (value == "" || value[0] != ' ')
    ensures ExtractField(name + ":" + pad + value + CRLF + rest, name) == Ok(value)
  {
    var tail := value + CRLF + rest;
    var s := name + ":" + pad + value + CRLF + rest;
    var head := name + ":" + pad;
    assert s[0..|name|] == name;
    AtMeans(s, name, 0);
    FindAt(s, name, 0, 0);
    assert s == head + tail;
    ExtractValue(name + ":", pad, value, rest);
  }
}
