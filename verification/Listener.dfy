/** Server.cpp, and the listeners main gives it. */
module Listener {
  import opened Wrappers
  import opened Descriptors
  import opened StopTokens

  datatype Listening = Listening(fd: int, secure: bool)

  function Fds(ls: seq<Listening>): set<int> {
    set i | 0 <= i < |ls| :: ls[i].fd
  }

  /** One descriptor each, all valid. */
  predicate Separate(ls: seq<Listening>) {
    && (forall i :: 0 <= i < |ls| ==> ls[i].fd >= 0)
    && forall i, j :: 0 <= i < j < |ls| ==> ls[i].fd != ls[j].fd
  }

  /** What epoll_wait returns: an error, or descriptors with an event. */
  datatype Batch = Interrupted | Events(fds: seq<int>)

  /** The acceptor that takes the connection: with the TLS context or without. */
  datatype Acceptor = Acceptor(masterSocket: int, tls: bool)

  function FdList(ls: seq<Listening>): (fds: seq<int>)
    ensures |fds| == |ls| && forall i :: 0 <= i < |ls| ==> fds[i] == ls[i].fd
  {
    seq(|ls|, i requires 0 <= i < |ls| => ls[i].fd)
  }

  /** The acceptor for the first event of the first batch that has one, with TLS exactly if its listener is secure. */
  function Choice(ls: seq<Listening>, batches: seq<Batch>, polls: nat): Outcome<Option<Acceptor>>
    decreases polls
  {
    if batches == [] || batches[0].Interrupted? then Thrown(NetException("Error epoll_wait create"))
    else if batches[0].fds != [] then
      Ok(Some(Acceptor(batches[0].fds[0], Listening(batches[0].fds[0], true) in ls)))
    else if polls == 0 then Ok(None) else Choice(ls, batches[1..], polls - 1)
  }

  lemma AddOne(ls: seq<Listening>, l: Listening)
    requires Separate(ls) && l.fd >= 0 && l.fd !in Fds(ls)
    ensures Separate(ls + [l]) && Fds(ls + [l]) == Fds(ls) + {l.fd}
  {
    var ls' := ls + [l];
    forall i | 0 <= i < |ls| ensures ls'[i].fd in Fds(ls) {
      assert ls'[i] == ls[i];
    }
    forall x ensures x in Fds(ls') <==> x in Fds(ls) + {l.fd} {
      if x in Fds(ls) {
        var i :| 0 <= i < |ls| && ls[i].fd == x;
        assert ls'[i].fd == x;
      }
      assert ls'[|ls|].fd == l.fd;
    }
  }

  lemma FdsSnoc(ls: seq<Listening>, i: nat)
    requires i < |ls|
    ensures Fds(ls[..i + 1]) == Fds(ls[..i]) + {ls[i].fd}
  {
    forall k | 0 <= k < i ensures ls[..i + 1][k].fd in Fds(ls[..i]) && ls[..i][k].fd in Fds(ls[..i + 1]) {
      assert ls[..i + 1][k] == ls[..i][k];
    }
    assert ls[..i + 1][i].fd in Fds(ls[..i + 1]);
  }

  lemma WatchedIsFound(ls: seq<Listening>, fd: int)
    ensures fd in Fds(ls) ==> exists i :: 0 <= i < |ls| && ls[i].fd == fd
  {
  }

  lemma SameListener(ls: seq<Listening>, k: nat)
    requires Separate(ls) && k < |ls|
    ensures ls[k].secure <==> Listening(ls[k].fd, true) in ls
  {
    assert ls[k] in ls;
  }

  // What Choice comes to

  /** No batch before the `k`-th brings an event, and stop is not seen before it. */
  ghost predicate QuietUntil(batches: seq<Batch>, k: nat, polls: nat) {
    k <= |batches| && k <= polls && forall j :: 0 <= j < k ==> batches[j] == Events([])
  }

  /** The acceptor is for the first event of the `k`-th batch and the listener at `i`. */
  ghost predicate Chosen(ls: seq<Listening>, batches: seq<Batch>, polls: nat, a: Acceptor, k: nat, i: nat) {
    && QuietUntil(batches, k, polls) && k < |batches| && batches[k].Events? && batches[k].fds != []
    && i < |ls| && ls[i] == Listening(batches[k].fds[0], a.tls) && a.masterSocket == batches[k].fds[0]
  }

  ghost predicate IsChosen(ls: seq<Listening>, batches: seq<Batch>, polls: nat, a: Acceptor) {
    exists k: nat, i: nat :: Chosen(ls, batches, polls, a, k, i)
  }

  /** epoll fails at the `k`-th batch. */
  ghost predicate Fails(batches: seq<Batch>, polls: nat, k: nat) {
    QuietUntil(batches, k, polls) && (k == |batches| || batches[k].Interrupted?)
  }

  /** null, an acceptor or an exception. */
  ghost predicate RightChoice(ls: seq<Listening>, batches: seq<Batch>, polls: nat, r: Outcome<Option<Acceptor>>) {
    match r
    case Ok(Some(a)) => IsChosen(ls, batches, polls, a)
    case Ok(None) => polls < |batches| && forall j :: 0 <= j <= polls ==> batches[j] == Events([])
    case Thrown(e) => e.NetException? && exists k: nat :: Fails(batches, polls, k)
  }

  lemma LaterChoice(ls: seq<Listening>, batches: seq<Batch>, polls: nat, r: Outcome<Option<Acceptor>>)
    requires batches != [] && batches[0] == Events([]) && polls > 0 && RightChoice(ls, batches[1..], polls - 1, r)
    ensures RightChoice(ls, batches, polls, r)
  {
    match r {
      case Ok(Some(a)) =>
        var k: nat, i: nat :| Chosen(ls, batches[1..], polls - 1, a, k, i);
        assert Chosen(ls, batches, polls, a, k + 1, i);
      case Ok(None) =>
        assert forall j :: 0 < j <= polls ==> batches[j] == batches[1..][j - 1];
      case Thrown(_) =>
        var k: nat :| Fails(batches[1..], polls - 1, k);
        assert Fails(batches, polls, k + 1);
    }
  }

  /** The listener whose descriptor had the first event, with TLS exactly if it is secure; null exactly if stop is seen
      before any event; an exception exactly if epoll fails before either. */
  lemma {:induction false} ChoiceMeans(ls: seq<Listening>, batches: seq<Batch>, polls: nat)
    requires Separate(ls)
    requires forall b :: b in batches && b.Events? ==> forall fd :: fd in b.fds ==> fd in Fds(ls)
    ensures RightChoice(ls, batches, polls, Choice(ls, batches, polls))
    ensures forall r :: RightChoice(ls, batches, polls, r) ==>
              if r.Ok? then r == Choice(ls, batches, polls) else Choice(ls, batches, polls).Thrown?
    decreases polls
  {
    if batches == [] || batches[0].Interrupted? {
      assert Fails(batches, polls, 0);
    } else if batches[0].fds != [] {
      var fd := batches[0].fds[0];
      assert batches[0] in batches && fd in batches[0].fds;
      WatchedIsFound(ls, fd);
      var i :| 0 <= i < |ls| && ls[i].fd == fd;
      SameListener(ls, i);
      assert Chosen(ls, batches, polls, Acceptor(fd, ls[i].secure), 0, i);
    } else if polls > 0 {
      assert forall b :: b in batches[1..] ==> b in batches;
      ChoiceMeans(ls, batches[1..], polls - 1);
      LaterChoice(ls, batches, polls, Choice(ls, batches, polls));
    }
  }

  class Server {
    const kernel: Kernel
    var m_serverSockets: seq<ServerSocket>
    var capacity: nat

    constructor (kernel: Kernel)
      requires kernel.interest == {} && forall fd :: fd in kernel.open ==> fd >= 0
      ensures Valid() && this.kernel == kernel && m_serverSockets == []
    {
      this.kernel := kernel;
      m_serverSockets, capacity := [], 0;
    }

    /** The descriptors and flags the vector holds. */
    ghost function Listeners(): (ls: seq<Listening>)
      reads this, m_serverSockets
      ensures |ls| == |m_serverSockets|
    {
      seq(|m_serverSockets|, i requires 0 <= i < |m_serverSockets| reads this, m_serverSockets =>
            Listening(m_serverSockets[i].m_socket, m_serverSockets[i].m_isSecure))
    }

    /** The vector's objects are distinct. */
    ghost predicate Apart()
      reads this
    {
      forall i, j :: 0 <= i < j < |m_serverSockets| ==> m_serverSockets[i] != m_serverSockets[j]
    }

    /** Each holds its own open descriptor, and epoll watches exactly these. */
    ghost predicate Valid()
      reads this, m_serverSockets, kernel
    {
      && Apart() && Separate(Listeners()) && Fds(Listeners()) == kernel.interest <= kernel.open
      && forall fd :: fd in kernel.open ==> fd >= 0
    }

    /** The vector moves to larger storage: every element is moved, and the old one destroyed, which closes nothing. */
    method Grow()
      requires Apart()
      modifies this, kernel, m_serverSockets
      ensures Apart() && Listeners() == old(Listeners()) && fresh(m_serverSockets) && unchanged(kernel)
      ensures forall s :: s in old(m_serverSockets) ==> s.m_socket == -1
    {
      ghost var before := Listeners();
      var elements := m_serverSockets;
      var moved: seq<ServerSocket> := [];
      while |moved| < |elements|
        invariant |moved| <= |elements| && m_serverSockets == elements && fresh(moved) && unchanged(kernel)
        invariant forall i, j :: 0 <= i < j < |moved| ==> moved[i] != moved[j]
        invariant forall i :: 0 <= i < |moved| ==> Listening(moved[i].m_socket, moved[i].m_isSecure) == before[i]
        invariant forall i :: 0 <= i < |moved| ==> elements[i].m_socket == -1
        invariant forall i :: |moved| <= i < |elements| ==>
                    Listening(elements[i].m_socket, elements[i].m_isSecure) == before[i]
        decreases |elements| - |moved|
      {
        var k := |moved|;
        var s := new ServerSocket.Move(elements[k]);
        elements[k].Destroy(kernel);
        moved := moved + [s];
      }
      m_serverSockets := moved;
      capacity := 2 * |moved| + 1;
      assert Listeners() == before;
    }

    /** push_back(std::move(s)). */
    method PushBack(s: ServerSocket)
      requires Apart() && s !in m_serverSockets
      modifies this, kernel, s, m_serverSockets
      ensures Apart() && Listeners() == old(Listeners()) + [Listening(old(s.m_socket), old(s.m_isSecure))]
      ensures unchanged(kernel) && s.m_socket == -1 && s !in m_serverSockets
      ensures forall x :: x in m_serverSockets ==> x in old(m_serverSockets) || fresh(x)
    {
      ghost var before := Listeners();
      if |m_serverSockets| == capacity {
        Grow();
      }
      var element := new ServerSocket.Move(s);
      m_serverSockets := m_serverSockets + [element];
      assert Listeners() == before + [Listening(old(s.m_socket), old(s.m_isSecure))];
    }

    /** Server::AddSocket: epoll first, then the vector takes the descriptor over. */
    method AddSocket(s: ServerSocket, fails: bool) returns (r: Outcome<()>)
      requires Valid() && s !in m_serverSockets
      modifies this, kernel, s, m_serverSockets
      ensures Valid() && kernel.closed == old(kernel.closed) && kernel.open == old(kernel.open)
      ensures r.Ok? <==> !fails && old(s.m_socket) in kernel.open && old(s.m_socket) !in old(kernel.interest)
      ensures r.Ok? ==> Listeners() == old(Listeners()) + [Listening(old(s.m_socket), old(s.m_isSecure))]
      ensures r.Ok? ==> s.m_socket == -1 && s !in m_serverSockets
      ensures r.Thrown? ==> r.error.NetException? && unchanged(this, kernel, s) && Listeners() == old(Listeners())
      ensures forall x :: x in m_serverSockets ==> x in old(m_serverSockets) || fresh(x)
    {
      var fd := s.m_socket;
      var err := kernel.EpollAdd(fd, fails);
      if err == -1 {
        return Thrown(NetException("add socket in epoll"));
      }
      AddOne(Listeners(), Listening(fd, s.m_isSecure));
      hide Separate, Fds;
      PushBack(s);
      return Ok(());
    }

    /** `find_if`: the listener that holds the descriptor. */
    method FindListener(masterSocket: int) returns (k: Option<nat>)
      ensures k.Some? ==> k.value < |m_serverSockets| && m_serverSockets[k.value].m_socket == masterSocket
      ensures k.None? ==> forall i :: 0 <= i < |m_serverSockets| ==> m_serverSockets[i].m_socket != masterSocket
    {
      for i := 0 to |m_serverSockets|
        invariant forall j :: 0 <= j < i ==> m_serverSockets[j].m_socket != masterSocket
      {
        if m_serverSockets[i].m_socket == masterSocket {
          return Some(i);
        }
      }
      return None;
    }

    /** Server::WaitClients, up to the acceptor it calls; `batches` is what epoll_wait will return, and it reports
        descriptors of the interest set only. */
    method WaitClients(batches: seq<Batch>, st: StopToken) returns (r: Outcome<Option<Acceptor>>)
      requires Valid() && forall b :: b in batches && b.Events? ==> forall fd :: fd in b.fds ==> fd in kernel.interest
      modifies st
      ensures r == Choice(Listeners(), batches, old(st.polls))
      ensures RightChoice(Listeners(), batches, old(st.polls), r)
    {
      ghost var ls := Listeners();
      ChoiceMeans(ls, batches, st.polls);
      ghost var whole := Choice(ls, batches, st.polls);
      var k := 0;
      assert batches[0..] == batches;
      while true
        invariant k <= |batches| && Choice(ls, batches[k..], st.polls) == whole
        decreases st.polls
      {
        if k == |batches| || batches[k].Interrupted? {
          return Thrown(NetException("Error epoll_wait create"));
        }
        var events := batches[k].fds;
        for i := 0 to |events|
          invariant i == 0
          modifies {}
        {
          var s := FindListener(events[i]);
          assert batches[k] in batches && events[i] in events;
          WatchedIsFound(ls, events[i]);
          if s.Some? {
            SameListener(ls, s.value);
            return Ok(Some(Acceptor(events[i], m_serverSockets[s.value].m_isSecure)));
          }
        }
        k := k + 1;
        var stop := st.StopRequested();
        if stop {
          return Ok(None);
        }
      }
    }

    /** ~Server: every listener leaves the interest set, then the vector destroys its elements. */
    method Destroy()
      requires Valid()
      modifies kernel
      ensures kernel.interest == {} && kernel.open == old(kernel.open) - Fds(Listeners())
      ensures kernel.closed == old(kernel.closed) + FdList(Listeners())
    {
      ghost var ls := Listeners();
      for i := 0 to |m_serverSockets|
        invariant kernel.interest == Fds(ls) - Fds(ls[..i])
        invariant kernel.open == old(kernel.open) && kernel.closed == old(kernel.closed)
      {
        var err := kernel.EpollDelete(m_serverSockets[i].m_socket);
        FdsSnoc(ls, i);
      }
      assert ls[..|ls|] == ls;
      for i := 0 to |m_serverSockets|
        invariant kernel.interest == {} && kernel.open == old(kernel.open) - Fds(ls[..i])
        invariant kernel.closed == old(kernel.closed) + FdList(ls[..i])
      {
        m_serverSockets[i].Destroy(kernel);
        FdsSnoc(ls, i);
      }
    }
  }

  /** socket(): a descriptor that no listener has. */
  method NewDescriptor(server: Server) returns (fd: int)
    requires server.Valid()
    modifies server.kernel
    ensures server.Valid() && fd >= 0 && fd in server.kernel.open && fd !in server.kernel.interest
    ensures server.kernel.closed == old(server.kernel.closed) && server.kernel.interest == old(server.kernel.interest)
  {
    hide Fds, Separate;
    fd := server.kernel.Socket();
  }

  /** One turn of main's loop: after it the local ServerSocket is destroyed, which closes nothing unless AddSocket has
      thrown. */
  method AddListener(server: Server, secure: bool, fails: bool) returns (r: Outcome<()>)
    requires server.Valid()
    modifies server, server.kernel, server.m_serverSockets
    ensures server.Valid() && forall x :: x in server.m_serverSockets ==> x in old(server.m_serverSockets) || fresh(x)
    ensures r.Ok? <==> !fails
    ensures r.Ok? ==> exists fd :: server.Listeners() == old(server.Listeners()) + [Listening(fd, secure)]
    ensures r.Ok? ==> server.kernel.closed == old(server.kernel.closed)
    ensures r.Thrown? ==>
              && server.Listeners() == old(server.Listeners())
              && exists fd :: fd !in Fds(server.Listeners()) && server.kernel.closed == old(server.kernel.closed) + [fd]
  {
    hide Fds, Separate;
    var fd := NewDescriptor(server);
    var ssocket := new ServerSocket(fd, secure);
    r := server.AddSocket(ssocket, fails);
    ssocket.Destroy(server.kernel);
  }

  /** main's listeners; `refused` tells for which of them epoll fails. */
  method AddListeners(server: Server, secure: seq<bool>, refused: set<nat>) returns (r: Outcome<()>)
    requires server.Valid() && server.m_serverSockets == []
    modifies server, server.kernel
    ensures r.Ok? <==> forall i :: 0 <= i < |secure| ==> i !in refused
    ensures server.Valid() && |server.Listeners()| <= |secure|
    ensures forall i :: 0 <= i < |server.Listeners()| ==> server.Listeners()[i].secure == secure[i]
    ensures r.Ok? ==> |server.Listeners()| == |secure| && server.kernel.closed == old(server.kernel.closed)
    ensures r.Thrown? ==>
              exists fd :: fd !in Fds(server.Listeners()) && server.kernel.closed == old(server.kernel.closed) + [fd]
    ensures r.Thrown? ==>
              var k := |server.Listeners()|; k < |secure| && k in refused && forall i :: 0 <= i < k ==> i !in refused
  {
    hide Fds, Separate;
    for i := 0 to |secure|
      invariant server.Valid() && |server.Listeners()| == i && server.kernel.closed == old(server.kernel.closed)
      invariant forall x :: x in server.m_serverSockets ==> fresh(x)
      invariant forall j :: 0 <= j < i ==> server.Listeners()[j].secure == secure[j] && j !in refused
    {
      assert forall k :: 0 <= k < i ==> server.m_serverSockets[k] in server.m_serverSockets;
      r := AddListener(server, secure[i], i in refused);
      if r.Thrown? {
        return;
      }
    }
    return Ok(());
  }
}
