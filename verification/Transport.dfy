/** Read and Write of SocketHelper.h, over a kernel that takes and delivers what it likes. */
module Transport {
  import opened Wrappers
  import opened Text
  import opened HttpPacket

  const BUFFER_SIZE: nat := 65535

  /** What the next recv (or SSL_read) will find: some bytes, or an end or error code. */
  type NonPositive = code: int | code <= 0

  datatype Arrival = Data(bytes: string) | Gone(code: NonPositive)

  /** One step at a connection, as its history records it. */
  datatype Event =
    | Probed(alive: bool)
    | Received(r: int)
    | Got(packet: string)
    | Lost(code: int)
    | Attempt(message: string)
    | Sent(length: nat, r: int)
    | Wrote(result: int)

  /** The far side of a descriptor. `arrivals`, `answers` and `alive` are what the kernel has yet to answer to
      recv, send and select; `sent` is what the peer gets, `log` the history. When the answers run out, recv
      reports the end of the stream, send takes everything and select finds the socket readable. */
  datatype Net = Net(arrivals: seq<Arrival>, answers: seq<int>, alive: seq<bool>, sent: string, log: seq<Event>) {

    function Log(e: Event): Net {
      this.(log := log + [e])
    }

    /** At most `length` bytes of the next arrival; the rest of it stays. */
    function Recv(length: nat): (Net, int, string) {
      if arrivals == [] then (Log(Received(0)), 0, "")
      else match arrivals[0]
        case Gone(code) => (this.(arrivals := arrivals[1..]).Log(Received(code)), code, "")
        case Data(bytes) =>
          if |bytes| <= length then (this.(arrivals := arrivals[1..]).Log(Received(|bytes|)), |bytes|, bytes)
          else (this.(arrivals := [Data(bytes[length..])] + arrivals[1..]).Log(Received(length)), length, bytes[..length])
    }

    /** Takes a prefix of the data, or fails. */
    function Send(data: string): (Net, int) {
      var answer := if answers == [] then |data| else answers[0];
      var r := if answer <= |data| then answer else |data|;
      var taken := if r > 0 then data[..r] else "";
      (this.(answers := if answers == [] then [] else answers[1..], sent := sent + taken).Log(Sent(|data|, r)), r)
    }

    function IsAlive(): (Net, bool) {
      if alive == [] then (Log(Probed(true)), true)
      else (this.(alive := alive[1..]).Log(Probed(alive[0])), alive[0])
    }
  }

  /** The state behind one descriptor (or SSL object), which recv, send and select change. */
  class Transport {
    var net: Net

    constructor (net: Net)
      ensures this.net == net
    {
      this.net := net;
    }

    method Recv(length: nat) returns (r: int, bytes: string)
      modifies this
      ensures (net, r, bytes) == old(net).Recv(length)
      ensures r <= length && |bytes| == if r > 0 then r else 0
    {
      var (n, x, b) := net.Recv(length);
      net, r, bytes := n, x, b;
    }

    method Send(data: string) returns (r: int)
      modifies this
      ensures (net, r) == old(net).Send(data)
      ensures r <= |data|
    {
      var (n, x) := net.Send(data);
      net, r := n, x;
    }

    method IsAlive() returns (b: bool)
      modifies this
      ensures (net, b) == old(net).IsAlive()
    {
      var (n, x) := net.IsAlive();
      net, b := n, x;
    }

    method Record(e: Event)
      modifies this
      ensures net == old(net).Log(e)
    {
      net := net.Log(e);
    }
  }

  /** A std::string that is resized and filled in place. */
  class Buffer {
    var text: string

    constructor ()
      ensures text == ""
    {
      text := "";
    }

    method Resize(n: nat)
      modifies this
      ensures |text| == n
      ensures text == if n <= |old(text)| then old(text)[..n] else old(text) + seq(n - |old(text)|, _ => '\0')
    {
      text := if n <= |text| then text[..n] else text + seq(n - |text|, _ => '\0');
    }

    method Fill(offset: nat, bytes: string)
      requires offset + |bytes| <= |text|
      modifies this
      ensures text == old(text)[..offset] + bytes + old(text)[offset + |bytes|..]
    {
      text := text[..offset] + bytes + text[offset + |bytes|..];
    }
  }

  // Read

  /** What Read comes to, once `got` has been received: the return value and the bytes. */
  function ReadFrom(got: string, n: Net): (Net, int, string)
    requires |got| <= BUFFER_SIZE
    decreases BUFFER_SIZE - |got|
  {
    if EndsPacket(got) then (n, |got|, got)
    else
      var (n', r, bytes) := n.Recv(BUFFER_SIZE - |got|);
      if r <= 0 then (n', r, got) else ReadFrom(got + bytes, n')
  }

  method Read(buffer: Buffer, socket: Transport) returns (result: int)
    modifies buffer, socket
    ensures (socket.net, result) == (ReadFrom("", old(socket.net)).0, ReadFrom("", old(socket.net)).1)
    ensures result > 0 ==> buffer.text == ReadFrom("", old(socket.net)).2
    ensures result <= 0 ==> |buffer.text| == BUFFER_SIZE && ReadFrom("", old(socket.net)).2 <= buffer.text
  {
    hide EndsPacket, At;
    buffer.Resize(BUFFER_SIZE);
    ghost var whole := ReadFrom("", socket.net);
    var size, offset := 0, 0;
    assert buffer.text[..0] == "";
    while true
      invariant 0 <= offset && 0 <= size && offset + size <= BUFFER_SIZE == |buffer.text|
      invariant offset + size > 0 ==> size > 0
      invariant ReadFrom(buffer.text[..offset + size], socket.net) == whole
      decreases BUFFER_SIZE - offset - size
    {
      offset := offset + size;
      IsBlankLineMeans(offset, buffer.text);
      var blank := IsBlankLine(offset, buffer.text);
      if blank == Ok(true) {
        break;
      }
      ghost var before := buffer.text;
      var bytes;
      size, bytes := socket.Recv(|buffer.text| - offset);
      buffer.Fill(offset, bytes);
      assert buffer.text[..offset] == before[..offset];
      assert buffer.text[..offset + |bytes|] == before[..offset] + bytes;
      if size <= 0 {
        break;
      }
    }
    if size <= 0 {
      return size;
    }
    buffer.Resize(offset);
    return offset;
  }

  // Write

  /** What Write comes to, once `data[..offset]` has been sent. */
  function WriteFrom(data: string, offset: nat, n: Net): (Net, int)
    requires offset <= |data|
    decreases |data| - offset
  {
    var (n', size) := n.Send(data[offset..]);
    if offset < |data| && size > 0 then WriteFrom(data, offset + size, n')
    else (n', if size < 0 then size else offset)
  }

  lemma SentMore(start: string, data: string, offset: nat, size: int)
    requires offset <= |data| && size <= |data| - offset
    ensures size > 0 ==> start + data[..offset] + data[offset..][..size] == start + data[..offset + size]
    ensures size <= 0 ==> start + data[..offset] + "" == start + data[..offset]
  {
    assert size > 0 ==> data[..offset] + data[offset..][..size] == data[..offset + size];
  }

  method Write(buffer: string, socket: Transport) returns (result: int)
    modifies socket
    ensures (socket.net, result) == WriteFrom(buffer, 0, old(socket.net))
  {
    ghost var whole := WriteFrom(buffer, 0, socket.net);
    ghost var start := socket.net.sent;
    var size, offset := 0, 0;
    while true
      invariant 0 <= offset && 0 <= size && offset + size <= |buffer|
      invariant offset > 0 ==> size > 0
      invariant WriteFrom(buffer, offset + size, socket.net) == whole
      invariant socket.net.sent == start + buffer[..offset + size]
      decreases |buffer| - offset - size
    {
      offset := offset + size;
      size := socket.Send(buffer[offset..]);
      SentMore(start, buffer, offset, size);
      if !(offset < |buffer| && size > 0) {
        break;
      }
    }
    if size < 0 {
      return size;
    }
    return offset;
  }
}
