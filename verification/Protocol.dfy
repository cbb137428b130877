/** The accept loop of main, the stack of sockets and the workers, as steps that interleave in any order. */
module Protocol {
  import opened Wrappers
  import Transport

  /** Socket objects are numbered as they are accepted; AddSocket also pushes null. */
  type Sock = nat

  type Entry = Option<Sock>

  /** Where a worker is. In Testing, Waited and Taking it holds the mutex; `waited` says that it has been parked since
      it called GetSocket. */
  datatype Phase =
    | Outside                                         // about to call GetSocket
    | Testing(waited: bool)                           // in wait_for, about to test the predicate
    | Parked                                          // in the wait set of the condition variable
    | Woken(timedOut: bool)                           // out of the wait set, about to look at the clock
    | Locking(leave: bool)                            // about to lock the mutex again, then to leave wait_for if its time is over
    | Waited(waited: bool)                            // wait_for has returned, about to test stop
    | Taking(waited: bool)                            // about to test whether the stack is empty, and pop
    | Returned(entry: Entry)                          // GetSocket has returned, about to test stop
    | LoopTest(sock: Sock)                            // in the keep-alive loop, about to test stop
    | Probing(sock: Sock)                             // about to call IsAlive
    | Reading(sock: Sock, offset: nat)                // in Read
    | Deciding(sock: Sock)                            // a request has been read
    | Writing(sock: Sock, left: nat, fallback: bool)  // in Write; a 404 may follow if it fails
    | OuterTest                                       // at the foot of the outer loop, about to test stop
    | Exited

  datatype Main =
    | Accepting           // in WaitClients
    | Hand(entry: Entry)  // about to call AddSocket
    | Pushed              // has pushed, and still owes the notification
    | MainTest            // at the foot of the accept loop, about to test stop
    | Joining(joined: nat)
    | Closed              // the stack is destroyed

  datatype Op = PushOp(entry: Entry) | PopOp(entry: Entry)

  datatype State = State(
    stop: bool, lock: Option<nat>, stack: seq<Entry>, workers: seq<Phase>, main: Main,
    accepted: nat, secure: set<Sock>, destroyed: multiset<Sock>, closed: multiset<Sock>,
    history: seq<Op>,          // pushes and pops, in the order of their turns with the mutex
    served: set<Sock>,         // sockets that entered a keep-alive loop
    latePops: set<Sock>,       // sockets popped after stop
    late: seq<nat>,            // per worker, requests read after stop
    longest: nat)              // no response is longer

  function Init(workers: nat, longest: nat): State {
    State(false, None, [], seq(workers, _ => Outside), Accepting, 0, {}, multiset{}, multiset{}, [], {}, {},
          seq(workers, _ => 0), longest)
  }

  // The steps of a worker

  datatype Choice =
    | Raise                                   // Parse or ProcessGET throws
    | Silent(again: bool)                     // not a GET
    | Respond(length: nat, fallback: bool)

  datatype End = Again | Drop | Retry(length: nat)

  datatype Move =
    | Enter
    | Test
    | Wake(timedOut: bool)     // a timeout, a spurious wake-up or the broadcast of stop
    | Resume
    | Relock
    | SeeStop
    | Take
    | Check
    | Loop
    | Probe(alive: bool)
    | Receive(r: int)
    | Complete
    | Decide(choice: Choice)
    | SendSome(r: int)
    | EndWrite(end: End)
    | Outer

  predicate CanMove(s: State, p: Phase, m: Move) {
    match m
    case Enter => p.Outside? && s.lock == None
    case Test => p.Testing?
    case Wake(_) => p.Parked?
    case Resume => p.Woken?
    case Relock => p.Locking? && s.lock == None
    case SeeStop => p.Waited?
    case Take => p.Taking?
    case Check => p.Returned?
    case Loop => p.LoopTest?
    case Probe(_) => p.Probing?
    case Receive(r) => p.Reading? && p.offset <= Transport.BUFFER_SIZE && r <= Transport.BUFFER_SIZE - p.offset
    case Complete => p.Reading? && p.offset > 0
    case Decide(c) => p.Deciding? && (c.Respond? ==> c.length <= s.longest)
    case SendSome(r) => p.Writing? && 0 < r <= p.left
    case EndWrite(e) => p.Writing? && (e.Retry? ==> p.fallback && e.length <= s.longest)
    case Outer => p.OuterTest?
  }

  function Top(s: State): Entry
    requires s.stack != []
  {
    s.stack[|s.stack| - 1]
  }

  /** Where the worker is after the move. */
  function NextPhase(s: State, p: Phase, m: Move): Phase
    requires CanMove(s, p, m)
  {
    match m
    case Enter => Testing(false)
    case Test => if s.stack != [] || s.stop then Waited(p.waited) else Parked
    case Wake(timedOut) => Woken(timedOut)
    case Resume => Locking(p.timedOut)
    case Relock => if p.leave then Waited(true) else Testing(true)
    case SeeStop => if s.stop then Returned(None) else Taking(p.waited)
    case Take => Returned(if s.stack == [] then None else Top(s))
    case Check =>
      if s.stop then Exited else if p.entry.None? then OuterTest else LoopTest(p.entry.value)
    case Loop => if s.stop then OuterTest else Probing(p.sock)
    case Probe(alive) => if alive then Reading(p.sock, 0) else OuterTest
    case Receive(r) => if r <= 0 then OuterTest else Reading(p.sock, p.offset + r)
    case Complete => Deciding(p.sock)
    case Decide(choice) => (
      match choice
      case Raise => Exited
      case Silent(again) => if again then LoopTest(p.sock) else OuterTest
      case Respond(length, fallback) => Writing(p.sock, length, fallback))
    case SendSome(r) => Writing(p.sock, p.left - r, p.fallback)
    case EndWrite(end) => (
      match end
      case Again => LoopTest(p.sock)
      case Drop => OuterTest
      case Retry(length) => Writing(p.sock, length, false))
    case Outer => if s.stop then Exited else Outside
  }

  /** The socket whose owner goes out of scope in the move. */
  function Released(s: State, p: Phase, m: Move): Entry
    requires CanMove(s, p, m)
  {
    match m
    case Check => if s.stop then p.entry else None
    case Loop => if s.stop then Some(p.sock) else None
    case Probe(alive) => if alive then None else Some(p.sock)
    case Receive(r) => if r <= 0 then Some(p.sock) else None
    case Decide(choice) => if choice == Raise || choice == Silent(false) then Some(p.sock) else None
    case EndWrite(end) => if end == Drop then Some(p.sock) else None
    case _ => None
  }

  /** The mutex: wait_for gives it up to park, GetSocket when it returns. */
  function NextLock(s: State, w: nat, p: Phase, m: Move): Option<nat>
    requires CanMove(s, p, m)
  {
    match m
    case Enter => Some(w)
    case Test => if s.stack != [] || s.stop then s.lock else None
    case Relock => Some(w)
    case SeeStop => if s.stop then None else s.lock
    case Take => None
    case _ => s.lock
  }

  /** top, pop and the move out of the stack. */
  function Pop(s: State): State
    requires s.stack != []
  {
    s.(stack := s.stack[..|s.stack| - 1], history := s.history + [PopOp(Top(s))],
       latePops := if s.stop && Top(s).Some? then s.latePops + {Top(s).value} else s.latePops)
  }

  /** A ClientSocket closes its descriptor when it is destroyed, a TLSSocket does not. */
  function Destroy(s: State, e: Entry): State {
    match e
    case None => s
    case Some(x) =>
      s.(destroyed := s.destroyed + multiset{x},
         closed := if x in s.secure then s.closed else s.closed + multiset{x})
  }

  function DoMove(s: State, w: nat, m: Move): State
    requires w < |s.workers| == |s.late| && CanMove(s, s.workers[w], m)
  {
    var p := s.workers[w];
    var s1 := Destroy(s, Released(s, p, m));
    var s2 := if m.Take? && s.stack != [] then Pop(s1) else s1;
    s2.(workers := s.workers[w := NextPhase(s, p, m)],
        lock := NextLock(s, w, p, m),
        served := if m.Check? && !s.stop && p.entry.Some? then s.served + {p.entry.value} else s.served,
        late := if m.Complete? && s.stop then s.late[w := s.late[w] + 1] else s.late)
  }

  // All steps

  datatype Action =
    | RequestStop
    | Accept(secure: bool)
    | AcceptNothing
    | Push
    | Notify(to: Option<nat>)
    | TestStop
    | Join
    | Close
    | Worker(w: nat, m: Move)

  predicate Enabled(s: State, a: Action) {
    match a
    case RequestStop => true
    case Accept(_) => s.main.Accepting?
    case AcceptNothing => s.main.Accepting?
    case Push => s.main.Hand? && s.lock == None
    case Notify(to) =>
      // notify_one wakes a worker whenever one is parked
      && s.main.Pushed?
      && (match to
          case None => Parked !in s.workers
          case Some(w) => w < |s.workers| && s.workers[w].Parked?)
    case TestStop => s.main.MainTest?
    case Join => s.main.Joining? && s.main.joined < |s.workers| && s.workers[s.main.joined].Exited?
    case Close => s.main.Joining? && s.main.joined == |s.workers|
    case Worker(w, m) => w < |s.workers| == |s.late| && CanMove(s, s.workers[w], m)
  }

  function DestroyAll(s: State, entries: seq<Entry>): State {
    if entries == [] then s
    else Destroy(DestroyAll(s, entries[..|entries| - 1]), entries[|entries| - 1])
  }

  function Do(s: State, a: Action): State
    requires Enabled(s, a)
  {
    match a
    case RequestStop => s.(stop := true)
    case Accept(secure) =>
      s.(main := Hand(Some(s.accepted)), accepted := s.accepted + 1,
         secure := if secure then s.secure + {s.accepted} else s.secure)
    case AcceptNothing => s.(main := Hand(None))
    case Push => s.(main := Pushed, stack := s.stack + [s.main.entry], history := s.history + [PushOp(s.main.entry)])
    case Notify(to) => (
      match to
      case None => s.(main := MainTest)
      case Some(w) => s.(main := MainTest, workers := s.workers[w := Woken(false)]))
    case TestStop => s.(main := if s.stop then Joining(0) else Accepting)
    case Join => s.(main := Joining(s.main.joined + 1))
    case Close => DestroyAll(s, s.stack).(main := Closed, stack := [])
    case Worker(w, m) => DoMove(s, w, m)
  }

  ghost predicate Possible(s: State, run: seq<Action>)
    decreases |run|
  {
    run == [] || (Enabled(s, run[0]) && Possible(Do(s, run[0]), run[1..]))
  }

  ghost function After(s: State, run: seq<Action>): State
    requires Possible(s, run)
    decreases |run|
  {
    if run == [] then s else After(Do(s, run[0]), run[1..])
  }
}
