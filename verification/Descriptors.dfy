/** Descriptors, the objects that own them, and the vector of listeners that must agree with epoll. */
module Descriptors {

  lemma {:induction false} BelowIsSmall(fd: nat, open: set<int>)
    requires forall x :: 0 <= x < fd ==> x in open
    ensures fd <= |open|
  {
    if fd == 0 {
    } else {
      BelowIsSmall(fd - 1, open - {fd - 1});
    }
  }

  /** The process's descriptors: open ones, calls of close in their order, and the interest set of the epoll. */
  class Kernel {
    var open: set<int>
    var closed: seq<int>
    var interest: set<int>

    constructor ()
      ensures open == {} && closed == [] && interest == {}
    {
      open, closed, interest := {}, [], {};
    }

    /** The lowest free descriptor. */
    method Socket() returns (fd: int)
      modifies this
      ensures fd >= 0 && fd !in old(open) && open == old(open) + {fd}
      ensures closed == old(closed) && interest == old(interest)
    {
      fd := 0;
      while fd in open
        invariant 0 <= fd && forall x :: 0 <= x < fd ==> x in open
        modifies {}
        decreases |open| - fd
      {
        BelowIsSmall(fd + 1, open);
        fd := fd + 1;
      }
      open := open + {fd};
    }

    /** Closing takes a descriptor out of the interest set too. */
    method Close(fd: int)
      modifies this
      ensures open == old(open) - {fd} && closed == old(closed) + [fd] && interest == old(interest) - {fd}
    {
      open, closed, interest := open - {fd}, closed + [fd], interest - {fd};
    }

    /** epoll_ctl(EPOLL_CTL_ADD): refuses a descriptor that is in the set or not open, and may fail anyway. */
    method EpollAdd(fd: int, fails: bool) returns (err: int)
      modifies `interest
      ensures err == if fails || fd in old(interest) || fd !in open then -1 else 0
      ensures interest == if err == 0 then old(interest) + {fd} else old(interest)
    {
      if fails || fd in interest || fd !in open {
        return -1;
      }
      interest := interest + {fd};
      return 0;
    }

    method EpollDelete(fd: int) returns (err: int)
      modifies `interest
      ensures err == if fd in old(interest) then 0 else -1
      ensures interest == old(interest) - {fd}
    {
      err := if fd in interest then 0 else -1;
      interest := interest - {fd};
    }
  }

  /** ClientSocket.cpp: what becomes of the descriptor. */
  class ClientSocket {
    var m_socket: int

    constructor (socket: int)
      ensures m_socket == socket
    {
      m_socket := socket;
    }

    /** Closes the descriptor the first time, and does nothing from then on. */
    method CloseSocket(kernel: Kernel)
      modifies this, kernel
      ensures m_socket == -1
      ensures kernel.closed == old(kernel.closed) + if old(m_socket) == -1 then [] else [old(m_socket)]
      ensures kernel.open == old(kernel.open) - (if old(m_socket) == -1 then {} else {old(m_socket)})
    {
      if m_socket != -1 {
        kernel.Close(m_socket);
        m_socket := -1;
      }
    }

    /** ~ClientSocket. */
    method Destroy(kernel: Kernel)
      modifies this, kernel
      ensures m_socket == -1
      ensures kernel.closed == old(kernel.closed) + if old(m_socket) == -1 then [] else [old(m_socket)]
    {
      CloseSocket(kernel);
    }
  }

  class ServerSocket {
    var m_socket: int
    var m_isSecure: bool

    constructor (socket: int, isSecure: bool)
      ensures m_socket == socket && m_isSecure == isSecure
    {
      m_socket, m_isSecure := socket, isSecure;
    }

    /** The move constructor. */
    constructor Move(t: ServerSocket)
      modifies t
      ensures m_socket == old(t.m_socket) && m_isSecure == old(t.m_isSecure)
      ensures t.m_socket == -1 && !t.m_isSecure
    {
      m_socket, m_isSecure := t.m_socket, t.m_isSecure;
      new;
      t.m_socket, t.m_isSecure := -1, false;
    }

    /** operator=: it does not close what it overwrites, and loses the descriptor when an object is moved to itself. */
    method Assign(t: ServerSocket)
      modifies this, t
      ensures t.m_socket == -1 && !t.m_isSecure
      ensures this != t ==> m_socket == old(t.m_socket) && m_isSecure == old(t.m_isSecure)
    {
      m_socket := t.m_socket;
      m_isSecure := t.m_isSecure;
      t.m_socket := -1;
      t.m_isSecure := false;
    }

    /** ~ServerSocket. */
    method Destroy(kernel: Kernel)
      modifies kernel
      ensures m_socket < 0 ==> unchanged(kernel)
      ensures m_socket >= 0 ==>
                && kernel.open == old(kernel.open) - {m_socket} && kernel.closed == old(kernel.closed) + [m_socket]
                && kernel.interest == old(kernel.interest) - {m_socket}
    {
      if m_socket >= 0 {
        kernel.Close(m_socket);
      }
    }
  }
}
