/** Requests that follow each other on a connection: when Read tells them apart. */
module Pipelining {
  import opened Text
  import opened HttpPacket
  import opened Transport
  import opened Framing
  import opened Delivery
  import opened SessionRefinement
  import opened Connections

  /** The first `k` bytes are whole chunks. */
  predicate Ends(chunks: seq<string>, k: nat) {
    k == 0 || (chunks != [] && |chunks[0]| <= k && Ends(chunks[1..], k - |chunks[0]|))
  }

  /** The chunks without their first `k` bytes. */
  function Cut(chunks: seq<string>, k: nat): seq<string> {
    if k == 0 || chunks == [] then chunks
    else if |chunks[0]| <= k then Cut(chunks[1..], k - |chunks[0]|)
    else [chunks[0][k..]] + chunks[1..]
  }

  predicate NoneEmpty(chunks: seq<string>) {
    forall c :: c in chunks ==> c != ""
  }

  lemma {:induction false} CutConcat(chunks: seq<string>, k: nat)
    requires k <= |Concat(chunks)| && NoneEmpty(chunks)
    ensures Concat(Cut(chunks, k)) == Concat(chunks)[k..] && NoneEmpty(Cut(chunks, k))
  {
    if k == 0 || chunks == [] {
    } else {
      var c, rest := chunks[0], chunks[1..];
      assert forall d :: d in rest ==> d in chunks;
      assert c in chunks;
      if |c| <= k {
        CutConcat(rest, k - |c|);
        assert (c + Concat(rest))[k..] == Concat(rest)[k - |c|..];
      } else {
        assert ([c[k..]] + rest)[1..] == rest;
        assert (c + Concat(rest))[k..] == c[k..] + Concat(rest);
      }
    }
  }

  lemma {:induction false} ReadGrows(got: string, n: Net)
    requires |got| <= BUFFER_SIZE
    ensures |ReadFrom(got, n).2| >= |got|
    ensures ReadFrom(got, n).1 > 0 ==> |ReadFrom(got, n).2| == ReadFrom(got, n).1
    decreases BUFFER_SIZE - |got|
  {
    hide EndsPacket;
    if !EndsPacket(got) {
      var (n', r, bytes) := n.Recv(BUFFER_SIZE - |got|);
      if r > 0 {
        ReadGrows(got + bytes, n');
      }
    }
  }

  lemma PacketFits(m: string)
    requires IsPacket(m)
    ensures 0 < |m| <= BUFFER_SIZE
  {
  }

  lemma NextChunk(got: string, m: string, c: string, later: seq<string>)
    requires got <= m && m[|got|..] <= c + Concat(later) && |c| <= |m| - |got|
    ensures got + c <= m && m[|got + c|..] <= Concat(later)
  {
    var tail := m[|got|..];
    assert tail == (c + Concat(later))[..|tail|];
    assert tail[..|c|] == c && tail[|c|..] == Concat(later)[..|tail| - |c|];
    assert m == got + tail && m[|got + c|..] == tail[|c|..];
  }

  lemma RecvChunk(n: Net, chunks: seq<string>, rest: seq<Arrival>, length: nat)
    requires chunks != [] && NoneEmpty(chunks) && n.arrivals == Datas(chunks) + rest && length > 0
    ensures var (n', r, bytes) := n.Recv(length);
            && r > 0 && |bytes| == r && bytes == (if |chunks[0]| <= length then chunks[0] else chunks[0][..length])
            && n'.arrivals == Datas(Cut(chunks, r)) + rest
  {
    var c, later := chunks[0], chunks[1..];
    assert c in chunks && n.arrivals[0] == Data(c) && n.arrivals[1..] == Datas(later) + rest;
    assert Cut(later, 0) == later;
    assert |c| > length ==> Datas([c[length..]] + later) == [Data(c[length..])] + Datas(later);
  }

  lemma TakesPart(got: string, m: string, c: string, later: seq<string>, length: nat)
    requires got <= m && m[|got|..] <= c + Concat(later) && |c| > |m| - |got| == length
    ensures got + c[..length] == m
  {
    var tail := m[|got|..];
    assert tail == (c + Concat(later))[..|tail|] == c[..|tail|];
  }

  lemma ReadsWhole(m: string, n: Net)
    requires IsPacket(m)
    ensures |m| <= BUFFER_SIZE && ReadFrom(m, n) == (n, |m|, m)
  {
    hide IsPacket, EndsPacket;
    PacketFits(m);
    assert m + "" == m;
    PacketEndsOnce(m, m, "");
  }

  /** Read has `got` of the request `m`: it returns exactly `m` if `m` ends with a chunk or fills the buffer, and
      otherwise more than `m`, or a failure. */
  lemma {:induction false} ReadsRequest(got: string, m: string, chunks: seq<string>, rest: seq<Arrival>, n: Net)
    requires IsPacket(m) && got <= m && m[|got|..] <= Concat(chunks) && NoneEmpty(chunks)
    requires n.arrivals == Datas(chunks) + rest
    ensures var (n', r, got') := ReadFrom(got, n);
            var k := |m| - |got|;
            if Ends(chunks, k) || |m| == BUFFER_SIZE then
              r == |m| && got' == m && n'.arrivals == Datas(Cut(chunks, k)) + rest
            else r <= 0 || |got'| > |m|
    decreases |chunks|
  {
    hide IsPacket, EndsPacket, Datas;
    var k := |m| - |got|;
    assert m == got + m[|got|..];
    PacketEndsOnce(m, got, m[|got|..]);
    PacketFits(m);
    if k > 0 {
      assert chunks != [];
      var c, later := chunks[0], chunks[1..];
      RecvChunk(n, chunks, rest, BUFFER_SIZE - |got|);
      var (n', r, bytes) := n.Recv(BUFFER_SIZE - |got|);
      assert ReadFrom(got, n) == ReadFrom(got + bytes, n');
      hide ReadFrom;
      if |c| <= k {
        NextChunk(got, m, c, later);
        assert forall d :: d in later ==> d in chunks;
        assert Cut(later, 0) == later;
        ReadsRequest(got + c, m, later, rest, n');
      } else if |m| == BUFFER_SIZE {
        TakesPart(got, m, c, later, k);
        ReadsWhole(m, n');
      } else {
        ReadGrows(got + bytes, n');
      }
    } else {
      assert got == m;
      ReadsWhole(m, n);
    }
  }

  /** Each request ends where a chunk ends, or fills the buffer. */
  predicate Apart(chunks: seq<string>, requests: seq<string>)
    decreases |requests|
  {
    requests == []
    || ((|requests[0]| == BUFFER_SIZE || Ends(chunks, |requests[0]|)) && Apart(Cut(chunks, |requests[0]|), requests[1..]))
  }

  lemma NothingLeft(rest: seq<Arrival>, limit: nat)
    requires HangsUp(rest)
    ensures Packets(rest, limit) == []
  {
    assert Script([]) + rest == rest;
    if limit > 0 {
      NoRound([], rest, limit);
    }
  }

  lemma SomethingLeft(chunks: seq<string>)
    requires NoneEmpty(chunks)
    ensures chunks != [] ==> Concat(chunks) != ""
  {
    if chunks != [] {
      assert chunks[0] in chunks;
    }
  }

  /** For any requests, one after the other, cut in any way: the packets that Read makes of them are these requests if
      and only if each ends where a chunk ends, or fills the buffer. */
  lemma {:induction false} WhenRequestsAreToldApart(chunks: seq<string>, requests: seq<string>, rest: seq<Arrival>, limit: nat)
    requires (forall m :: m in requests ==> IsPacket(m)) && NoneEmpty(chunks) && HangsUp(rest)
    requires Concat(chunks) == Concat(requests) && |requests| <= limit
    ensures Packets(Datas(chunks) + rest, limit) == requests <==> Apart(chunks, requests)
    decreases |requests|
  {
    hide IsPacket, ReadFrom, HangsUp;
    if requests == [] {
      SomethingLeft(chunks);
      NothingLeft(rest, limit);
      assert Datas(chunks) + rest == rest;
    } else {
      var m, later := requests[0], requests[1..];
      var n0 := Net(Datas(chunks) + rest, [], [], "", []);
      assert m in requests && forall l :: l in later ==> l in requests;
      assert m[0..] == m && m <= Concat(requests);
      PacketFits(m);
      ReadsRequest("", m, chunks, rest, n0);
      CutConcat(chunks, |m|);
      assert Concat(requests)[|m|..] == Concat(later);
      var (n, r, got) := ReadFrom("", n0);
      if Ends(chunks, |m|) || |m| == BUFFER_SIZE {
        WhenRequestsAreToldApart(Cut(chunks, |m|), later, rest, limit - 1);
        assert requests == [m] + later;
        assert ([m] + Packets(n.arrivals, limit - 1))[1..] == Packets(n.arrivals, limit - 1);
      } else {
        assert r > 0 ==> Packets(Datas(chunks) + rest, limit)[0] == got;
      }
    }
  }

  lemma EndsOfSecond(first: string, second: string)
    requires IsPacket(second)
    ensures EndsPacket(first + second)
  {
    assert second + "" == second;
    PacketEndsOnce(second, second, "");
    AtRight(first, second, BLANK, |second| - |BLANK|);
  }

  /** Two requests in one piece are one packet; the second is not answered. */
  lemma TwoInOne(first: string, second: string, rest: seq<Arrival>)
    requires IsPacket(first) && IsPacket(second) && |first + second| <= BUFFER_SIZE && HangsUp(rest)
    ensures Packets(Datas([first + second]) + rest, 2) == [first + second]
  {
    hide IsPacket, ReadFrom, HangsUp, EndsPacket;
    var both := first + second;
    PacketFits(second);
    EndsOfSecond(first, second);
    var n0 := Net(Datas([both]) + rest, [], [], "", []);
    assert Datas([both]) == [Data(both)];
    ReadsAtOnce(both, n0, rest);
    NothingLeft(rest, 1);
    var (n, r, got) := ReadFrom("", n0);
    assert Packets(n.arrivals, 1) == [];
  }
}
