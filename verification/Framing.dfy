/** What Read and Write mean, whatever pieces the kernel cuts the bytes into. */
module Framing {
  import opened Wrappers
  import opened Text
  import opened HttpPacket
  import opened HttpMessages
  import opened PacketParse
  import opened Transport

  // Read: the first boundary between arrivals at which the bytes end a packet

  ghost predicate AllData(arrivals: seq<Arrival>) {
    forall a :: a in arrivals ==> a.Data? && a.bytes != ""
  }

  function Bytes(arrivals: seq<Arrival>): string
    requires forall a :: a in arrivals ==> a.Data?
  {
    if arrivals == [] then "" else Bytes(arrivals[..|arrivals| - 1]) + arrivals[|arrivals| - 1].bytes
  }

  /** What the buffer holds after `j` arrivals; the one that overflows it is cut. */
  ghost function Boundary(arrivals: seq<Arrival>, j: nat): string
    requires j <= |arrivals| && AllData(arrivals[..j])
  {
    var b := Bytes(arrivals[..j]);
    if |b| <= BUFFER_SIZE then b else b[..BUFFER_SIZE]
  }

  ghost predicate NoPacketBefore(arrivals: seq<Arrival>, j: nat)
    requires j <= |arrivals| && AllData(arrivals[..j])
  {
    forall i: nat :: i < j ==> AllData(arrivals[..i]) && !EndsPacket(Boundary(arrivals, i))
  }

  ghost predicate FirstPacket(arrivals: seq<Arrival>, j: nat) {
    && j <= |arrivals| && AllData(arrivals[..j])
    && EndsPacket(Boundary(arrivals, j)) && NoPacketBefore(arrivals, j)
  }

  /** After `j` arrivals without a packet, recv gives `code`: the end of the stream, an error, or 0 for a full buffer. */
  ghost predicate FailsAfter(arrivals: seq<Arrival>, j: nat, code: int) {
    && j <= |arrivals| && AllData(arrivals[..j]) && !EndsPacket(Boundary(arrivals, j)) && NoPacketBefore(arrivals, j)
    && code == (if |Bytes(arrivals[..j])| > BUFFER_SIZE || j == |arrivals| || arrivals[j].Data? then 0
                else arrivals[j].code)
    && (j < |arrivals| && arrivals[j].Data? && |Bytes(arrivals[..j])| < BUFFER_SIZE ==> arrivals[j].bytes == "")
  }

  lemma BytesSnoc(arrivals: seq<Arrival>, i: nat)
    requires i < |arrivals| && AllData(arrivals[..i + 1])
    ensures AllData(arrivals[..i]) && arrivals[i].Data? && arrivals[i].bytes != ""
    ensures Bytes(arrivals[..i + 1]) == Bytes(arrivals[..i]) + arrivals[i].bytes
  {
    assert arrivals[..i + 1][i] == arrivals[i];
    assert arrivals[..i + 1][..i] == arrivals[..i];
    assert forall a :: a in arrivals[..i] ==> a in arrivals[..i + 1];
  }

  lemma {:induction false} BytesGrow(arrivals: seq<Arrival>, i: nat, j: nat)
    requires i <= j <= |arrivals| && AllData(arrivals[..j])
    ensures AllData(arrivals[..i]) && Bytes(arrivals[..i]) <= Bytes(arrivals[..j])
    ensures i < j ==> |Bytes(arrivals[..i])| < |Bytes(arrivals[..j])|
    decreases j - i
  {
    assert forall a :: a in arrivals[..i] ==> a in arrivals[..j];
    if i == j {
    } else {
      assert forall a :: a in arrivals[..j - 1] ==> a in arrivals[..j];
      BytesGrow(arrivals, i, j - 1);
      BytesSnoc(arrivals, j - 1);
    }
  }

  /** Nothing is received past a failure, and a full buffer stays as it is. */
  lemma NothingPast(arrivals: seq<Arrival>, j: nat, k: nat, r: int)
    requires k < j <= |arrivals| && AllData(arrivals[..j]) && FailsAfter(arrivals, k, r)
    ensures |Bytes(arrivals[..k])| >= BUFFER_SIZE
    ensures Boundary(arrivals, j) == Boundary(arrivals, k)
  {
    assert arrivals[..j][k] == arrivals[k];
    BytesGrow(arrivals, k, j);
  }

  lemma PacketsAreUnique(arrivals: seq<Arrival>, j: nat, k: nat, r: int)
    requires FirstPacket(arrivals, j)
    requires if r > 0 then FirstPacket(arrivals, k) else FailsAfter(arrivals, k, r)
    ensures r > 0 && j == k
  {
    if k < j {
      assert AllData(arrivals[..k]) && !EndsPacket(Boundary(arrivals, k));
      assert r <= 0;
      NothingPast(arrivals, j, k, r);
    }
  }

  predicate GoesOn(got: string, arrivals: seq<Arrival>, i: nat) {
    !EndsPacket(got) && i < |arrivals| && arrivals[i].Data? && arrivals[i].bytes != "" && |got| < BUFFER_SIZE
  }

  lemma ReadStops(got: string, n: Net, arrivals: seq<Arrival>, i: nat)
    requires i <= |arrivals| && AllData(arrivals[..i]) && n.arrivals == arrivals[i..]
    requires got == Bytes(arrivals[..i]) && |got| <= BUFFER_SIZE && NoPacketBefore(arrivals, i)
    requires !GoesOn(got, arrivals, i)
    ensures var (n', r, got') := ReadFrom(got, n);
            if r > 0 then FirstPacket(arrivals, i) && got' == got == Boundary(arrivals, i) && r == |got|
            else FailsAfter(arrivals, i, r)
  {
  }

  lemma NoPacketYet(arrivals: seq<Arrival>, i: nat)
    requires i < |arrivals| && AllData(arrivals[..i + 1]) && AllData(arrivals[..i])
    requires NoPacketBefore(arrivals, i) && !EndsPacket(Boundary(arrivals, i))
    ensures NoPacketBefore(arrivals, i + 1)
  {
  }

  /** A buffer that the last arrival overflowed is a packet, or recv is asked for nothing and gives 0. */
  lemma FullBuffer(got: string, n: Net, arrivals: seq<Arrival>, k: nat)
    requires k <= |arrivals| && AllData(arrivals[..k]) && NoPacketBefore(arrivals, k)
    requires |got| == BUFFER_SIZE && got == Boundary(arrivals, k) && |Bytes(arrivals[..k])| > BUFFER_SIZE
    requires n.arrivals != [] && n.arrivals[0].Data? && n.arrivals[0].bytes != ""
    ensures var (n', r, got') := ReadFrom(got, n);
            if r > 0 then FirstPacket(arrivals, k) && got' == got && r == |got'|
            else !EndsPacket(Boundary(arrivals, k)) && r == 0
  {
  }

  /** Read from the `i`-th boundary on: it stops at the `k`-th. */
  lemma {:induction false} ReadFromMeans(got: string, n: Net, arrivals: seq<Arrival>, i: nat) returns (k: nat)
    requires i <= |arrivals| && AllData(arrivals[..i]) && n.arrivals == arrivals[i..]
    requires got == Bytes(arrivals[..i]) && |got| <= BUFFER_SIZE && NoPacketBefore(arrivals, i)
    ensures var (n', r, got') := ReadFrom(got, n);
            if r > 0 then FirstPacket(arrivals, k) && got' == Boundary(arrivals, k) && r == |got'| <= BUFFER_SIZE
            else FailsAfter(arrivals, k, r)
    decreases |arrivals| - i
  {
    k := i;
    if !GoesOn(got, arrivals, i) {
      ReadStops(got, n, arrivals, i);
    } else {
      assert arrivals[..i + 1] == arrivals[..i] + [arrivals[i]];
      BytesSnoc(arrivals, i);
      NoPacketYet(arrivals, i);
      var bytes := arrivals[i].bytes;
      var n' := n.Recv(BUFFER_SIZE - |got|).0;
      if |got + bytes| <= BUFFER_SIZE {
        assert n'.arrivals == arrivals[i + 1..];
        k := ReadFromMeans(got + bytes, n', arrivals, i + 1);
      } else {
        k := i + 1;
        var taken := bytes[..BUFFER_SIZE - |got|];
        assert got + taken == Boundary(arrivals, i + 1);
        FullBuffer(got + taken, n', arrivals, i + 1);
      }
    }
  }

  /** Read returns n > 0 and n bytes exactly at the first packet boundary, and otherwise the failing code. */
  lemma ReadMeans(n: Net)
    ensures var (n', r, got) := ReadFrom("", n);
            && (r > 0 <==> exists j :: FirstPacket(n.arrivals, j))
            && (forall j :: FirstPacket(n.arrivals, j) ==> r == |got| <= BUFFER_SIZE && got == Boundary(n.arrivals, j))
            && (r <= 0 ==> exists j :: FailsAfter(n.arrivals, j, r))
  {
    assert n.arrivals[..0] == [] && n.arrivals[0..] == n.arrivals;
    var k := ReadFromMeans("", n, n.arrivals, 0);
    var r := ReadFrom("", n).1;
    forall j | FirstPacket(n.arrivals, j)
      ensures r > 0 && j == k
    {
      PacketsAreUnique(n.arrivals, j, k, r);
    }
  }

  // No byte is lost or read twice

  /** The bytes still to come, up to the first failure. */
  function Stream(arrivals: seq<Arrival>): string {
    if arrivals == [] || arrivals[0].Gone? || arrivals[0].bytes == "" then ""
    else arrivals[0].bytes + Stream(arrivals[1..])
  }

  lemma RecvKeepsTheStream(n: Net, length: nat)
    ensures var (n', r, bytes) := n.Recv(length); r > 0 ==> Stream(n.arrivals) == bytes + Stream(n'.arrivals)
  {
    if n.arrivals != [] && n.arrivals[0].Data? && |n.arrivals[0].bytes| > length > 0 {
      var bytes, rest := n.arrivals[0].bytes, n.arrivals[1..];
      assert ([Data(bytes[length..])] + rest)[1..] == rest;
      assert bytes[..length] + (bytes[length..] + Stream(rest)) == bytes + Stream(rest);
    }
  }

  /** What Read returns and what it leaves make up the stream. */
  lemma {:induction false} ReadKeepsTheStream(got: string, n: Net)
    requires |got| <= BUFFER_SIZE
    ensures var (n', r, got') := ReadFrom(got, n); r > 0 ==> got + Stream(n.arrivals) == got' + Stream(n'.arrivals)
    decreases BUFFER_SIZE - |got|
  {
    hide EndsPacket, Stream;
    if !EndsPacket(got) {
      var (n', r, bytes) := n.Recv(BUFFER_SIZE - |got|);
      if r > 0 {
        RecvKeepsTheStream(n, BUFFER_SIZE - |got|);
        ReadKeepsTheStream(got + bytes, n');
        assert got + (bytes + Stream(n'.arrivals)) == got + bytes + Stream(n'.arrivals);
      }
    }
  }

  // Any message that ends a packet only at its end arrives whole

  function Datas(chunks: seq<string>): (arrivals: seq<Arrival>)
    ensures |arrivals| == |chunks| && forall i :: 0 <= i < |chunks| ==> arrivals[i] == Data(chunks[i])
  {
    seq(|chunks|, i requires 0 <= i < |chunks| => Data(chunks[i]))
  }

  function Concat(chunks: seq<string>): string {
    if chunks == [] then "" else chunks[0] + Concat(chunks[1..])
  }

  /** A message the reader can take: it fits the buffer, and an empty line occurs only at its end. */
  predicate IsPacket(m: string) {
    |m| <= BUFFER_SIZE && |m| >= |BLANK| && Find(m, BLANK, 0) == Some(|m| - |BLANK|)
  }

  lemma PacketEndsOnce(m: string, prefix: string, rest: string)
    requires IsPacket(m) && m == prefix + rest
    ensures EndsPacket(prefix) <==> rest == ""
  {
    FindMeans(m, BLANK, 0);
    if |prefix| >= 4 {
      AtLeft(prefix, rest, BLANK, |prefix| - 4);
    }
    if rest == "" {
      assert prefix + "" == prefix;
    }
  }

  lemma {:induction false} ReadsTheRest(got: string, m: string, chunks: seq<string>, rest: seq<Arrival>, n: Net)
    requires IsPacket(m) && m == got + Concat(chunks) && (forall c :: c in chunks ==> c != "")
    requires n.arrivals == Datas(chunks) + rest
    ensures var (n', r, got') := ReadFrom(got, n);
            && r == |m| && got' == m && n'.arrivals == rest
            && n'.answers == n.answers && n'.alive == n.alive && n'.sent == n.sent
    decreases |chunks|
  {
    PacketEndsOnce(m, got, Concat(chunks));
    if chunks == [] {
      assert n.arrivals == rest;
      assert got + "" == got;
    } else {
      assert chunks[0] in chunks && n.arrivals[0] == Data(chunks[0]);
      assert forall c :: c in chunks[1..] ==> c in chunks;
      assert m == got + chunks[0] + Concat(chunks[1..]);
      var n' := n.Recv(BUFFER_SIZE - |got|).0;
      assert n.arrivals[1..] == Datas(chunks[1..]) + rest;
      ReadsTheRest(got + chunks[0], m, chunks[1..], rest, n');
    }
  }

  /** Of the messages with one empty line, at their end, exactly those of at most 65535 bytes arrive whole. */
  lemma WhatFits(m: string, n: Net, rest: seq<Arrival>)
    requires Find(m, BLANK, 0) == Some(|m| - 4) && n.arrivals == [Data(m)] + rest
    ensures ReadFrom("", n).1 == |m| && ReadFrom("", n).2 == m <==> |m| <= 65535
  {
    hide ReadFrom;
    if |m| <= 65535 {
      assert Concat([m]) == m + "" == m && "" + m == m;
      ReadsTheRest("", m, [m], rest, n);
    } else {
      ReadMeans(n);
    }
  }

  // Write: an exact prefix

  /** The sends of one Write of `length` bytes, `offset` of them done: each asks for all that is left and all but
      the last take some of it. */
  ghost predicate Sends(events: seq<Event>, length: nat, offset: nat)
    decreases events
  {
    && events != [] && events[0].Sent? && offset <= length && events[0].length == length - offset
    && events[0].r <= events[0].length
    && if |events| == 1 then events[0].r <= 0
       else events[0].r > 0 && Sends(events[1..], length, offset + events[0].r)
  }

  lemma LogGrows(log: seq<Event>, e: Event, events: seq<Event>)
    ensures log + [e] + events == log + ([e] + events)
  {
  }

  lemma PrefixGrows(sent: string, data: string, offset: nat, size: nat, k: nat)
    requires offset + size <= k <= |data|
    ensures sent + data[offset..][..size] + data[offset + size..k] == sent + data[offset..k]
  {
    assert data[offset..][..size] + data[offset + size..k] == data[offset..k];
  }

  /** Write has sent exactly `data[..k]` when it returns; it returns k unless the last send failed. */
  lemma {:induction false} WriteMeans(data: string, offset: nat, n: Net) returns (k: nat, events: seq<Event>)
    requires offset <= |data|
    ensures offset <= k <= |data|
    ensures var (n', r) := WriteFrom(data, offset, n);
            && n'.sent == n.sent + data[offset..k]
            && n'.log == n.log + events && n'.arrivals == n.arrivals && n'.alive == n.alive
            && Sends(events, |data|, offset)
            && var last := events[|events| - 1];
               && last.Sent? && last.length == |data| - k && last.r <= 0
               && r == (if last.r < 0 then last.r else k)
    decreases |data| - offset
  {
    var (n', size) := n.Send(data[offset..]);
    var event := Sent(|data| - offset, size);
    if offset < |data| && size > 0 {
      var events';
      k, events' := WriteMeans(data, offset + size, n');
      events := [event] + events';
      assert events[1..] == events';
      LogGrows(n.log, event, events');
      PrefixGrows(n.sent, data, offset, size, k);
    } else {
      k, events := offset, [event];
      assert n.sent + "" == n.sent && data[offset..offset] == "";
    }
  }

  /** The three outcomes of Write: everything, a proper prefix because a send took nothing, or an error. */
  lemma WriteOutcome(data: string, n: Net)
    ensures var (n', r) := WriteFrom(data, 0, n);
            && n.log < n'.log && n'.log[|n'.log| - 1].Sent?
            && var last := n'.log[|n'.log| - 1];
               && (r >= 0 ==> r <= |data| && n'.sent == n.sent + data[..r])
               && (r == |data| <==> last == Sent(0, 0))
               && (0 <= r < |data| <==> last.length > 0 && last.r == 0)
               && (r < 0 <==> last.r < 0)
               && exists k: nat :: k <= |data| && n'.sent == n.sent + data[..k] && last.length == |data| - k
  {
    var k, events := WriteMeans(data, 0, n);
    assert data[0..k] == data[..k];
  }

  predicate Positive(answers: seq<int>) {
    forall a :: a in answers ==> a > 0
  }

  /** When no send fails or comes back empty-handed, Write sends it all. */
  lemma {:induction false} WritesAll(data: string, offset: nat, n: Net)
    requires offset <= |data| && Positive(n.answers)
    ensures var (n', r) := WriteFrom(data, offset, n);
            r == |data| && n'.sent == n.sent + data[offset..] && Positive(n'.answers)
            && n'.arrivals == n.arrivals && n'.alive == n.alive
    decreases |data| - offset
  {
    var (n', size) := n.Send(data[offset..]);
    assert n.answers != [] ==> n.answers[0] in n.answers && forall a :: a in n.answers[1..] ==> a in n.answers;
    if offset < |data| {
      WritesAll(data, offset + size, n');
      PrefixGrows(n.sent, data, offset, size, |data|);
      assert data[offset..|data|] == data[offset..] && data[offset + size..|data|] == data[offset + size..];
    } else {
      assert n.sent + "" == n.sent && data[offset..] == "";
    }
  }

  /** A packet that Write reports whole reaches Read whole, however the one side sends and the other receives. */
  lemma WriteThenRead(m: string, sender: Net, receiver: Net, chunks: seq<string>, rest: seq<Arrival>)
    requires IsPacket(m) && WriteFrom(m, 0, sender).1 == |m|
    requires sender.sent + Concat(chunks) == WriteFrom(m, 0, sender).0.sent && (forall c :: c in chunks ==> c != "")
    requires receiver.arrivals == Datas(chunks) + rest
    ensures var (n', r, got) := ReadFrom("", receiver); r == |m| && got == m && n'.arrivals == rest
  {
    WriteOutcome(m, sender);
    assert m[..|m|] == m;
    assert (sender.sent + Concat(chunks))[|sender.sent|..] == Concat(chunks);
    assert (sender.sent + m)[|sender.sent|..] == m;
    ReadsTheRest("", m, chunks, rest, receiver);
  }

  /** The client's own request makes the whole trip. */
  lemma ClientRoundTrip(host: string, port: string, sender: Net, receiver: Net, chunks: seq<string>, rest: seq<Arrival>)
    requires '\r' !in host && '\r' !in port && !Contains(host, CONNECTION) && !Contains(port, CONNECTION)
    requires var m := CreateGET(host, port);
             && |m| <= BUFFER_SIZE && WriteFrom(m, 0, sender).1 == |m|
             && sender.sent + Concat(chunks) == WriteFrom(m, 0, sender).0.sent
    requires (forall c :: c in chunks ==> c != "") && receiver.arrivals == Datas(chunks) + rest
    ensures var (n', r, got) := ReadFrom("", receiver);
            && got == CreateGET(host, port) && r == |got|
            && ParseRequest(got) == Ok(Request("GET", "/index.html", "keep-alive"))
            && ParseRequest(got).value.KeepAlive()
  {
    ClientRequest(host, port);
    WriteThenRead(CreateGET(host, port), sender, receiver, chunks, rest);
  }
}
