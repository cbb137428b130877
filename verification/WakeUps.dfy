/** Mutual exclusion, and no lost wake-up. */
module WakeUps {
  import opened Wrappers
  import opened Protocol

  predicate Holds(p: Phase) {
    p.Testing? || p.Waited? || p.Taking?
  }

  /** The mutex is held by the worker that is between wait_for's lock and GetSocket's return, and by no other. */
  ghost predicate Mutex(s: State) {
    && (forall w :: 0 <= w < |s.workers| ==> (Holds(s.workers[w]) <==> s.lock == Some(w)))
    && (s.lock.Some? ==> s.lock.value < |s.workers|)
    && |s.late| == |s.workers|
  }

  /** Woken, and not yet back with the stack: it will look at the stack before it parks again. */
  function Awake(p: Phase): nat {
    match p
    case Woken(_) => 1
    case Locking(_) => 1
    case Testing(waited) => if waited then 1 else 0
    case Waited(waited) => if waited then 1 else 0
    case Taking(waited) => if waited then 1 else 0
    case _ => 0
  }

  function AwakeCount(workers: seq<Phase>): nat {
    if workers == [] then 0 else Awake(workers[0]) + AwakeCount(workers[1..])
  }

  function Owed(m: Main): nat {
    if m.Pushed? then 1 else 0
  }

  /** While a worker is parked, each entry of the stack has a woken worker or a notification to come. */
  ghost predicate NoLostWakeUp(s: State) {
    !s.stop && Parked in s.workers ==> |s.stack| <= AwakeCount(s.workers) + Owed(s.main)
  }

  lemma {:induction false} AwakeUpdate(workers: seq<Phase>, w: nat, p: Phase)
    requires w < |workers|
    ensures AwakeCount(workers[w := p]) + Awake(workers[w]) == AwakeCount(workers) + Awake(p)
  {
    hide Awake;
    if w == 0 {
      assert workers[w := p][1..] == workers[1..];
    } else {
      assert workers[w := p][1..] == workers[1..][w - 1 := p];
      AwakeUpdate(workers[1..], w - 1, p);
    }
  }

  /** Of a parked worker's entries, a move takes at most the one its own turn stands for. */
  lemma MoveWakes(s: State, w: nat, m: Move)
    requires w < |s.workers| == |s.late| && CanMove(s, s.workers[w], m) && !s.stop
    ensures var s' := DoMove(s, w, m);
            && s'.workers == s.workers[w := s'.workers[w]] && s'.main == s.main && s'.stop == s.stop
            && |s'.stack| <= |s.stack|
            && (s'.stack == [] || |s'.stack| - Awake(s'.workers[w]) <= |s.stack| - Awake(s.workers[w]))
            && (s'.workers[w].Parked? ==> s'.stack == [])
  {
  }

  lemma {:induction false} DestroyAllKeeps(s: State, entries: seq<Entry>)
    ensures var s' := DestroyAll(s, entries); s' == s.(destroyed := s'.destroyed, closed := s'.closed)
  {
    if entries == [] {
    } else {
      DestroyAllKeeps(s, entries[..|entries| - 1]);
    }
  }

  lemma StopStays(s: State, a: Action)
    requires Enabled(s, a)
    ensures s.stop ==> Do(s, a).stop
  {
    hide CanMove, NextPhase, NextLock, Released;
    if a.Close? {
      DestroyAllKeeps(s, s.stack);
    }
  }

  lemma WokenIsAwake()
    ensures Awake(Woken(false)) == 1 && Awake(Parked) == 0
  {
  }

  lemma StillParked(workers: seq<Phase>, w: nat, p: Phase)
    requires w < |workers|
    ensures Parked in workers[w := p] ==> p.Parked? || Parked in workers
  {
  }

  lemma WakeUpStep(s: State, a: Action)
    requires Enabled(s, a) && NoLostWakeUp(s)
    ensures NoLostWakeUp(Do(s, a))
  {
    StopStays(s, a);
    hide DoMove, CanMove, Awake, AwakeCount, DestroyAll;
    if !s.stop {
      match a {
        case Worker(w, m) =>
          MoveWakes(s, w, m);
          AwakeUpdate(s.workers, w, DoMove(s, w, m).workers[w]);
          StillParked(s.workers, w, DoMove(s, w, m).workers[w]);
        case Notify(to) =>
          if to.Some? {
            AwakeUpdate(s.workers, to.value, Woken(false));
            StillParked(s.workers, to.value, Woken(false));
            WokenIsAwake();
          }
        case Close => DestroyAllKeeps(s, s.stack);
        case _ =>
      }
    }
  }

  /** A move takes the mutex when it is free, gives it up when the worker has it, or leaves it. */
  lemma LockMove(s: State, w: nat, m: Move)
    requires w < |s.workers| && CanMove(s, s.workers[w], m)
    requires Holds(s.workers[w]) <==> s.lock == Some(w)
    ensures var p, l := NextPhase(s, s.workers[w], m), NextLock(s, w, s.workers[w], m);
            && (Holds(p) <==> l == Some(w))
            && (l == s.lock || (s.lock == None && l == Some(w)) || (s.lock == Some(w) && l == None))
  {
  }

  lemma MutexMove(s: State, w: nat, m: Move)
    requires w < |s.workers| && CanMove(s, s.workers[w], m) && Mutex(s)
    ensures Mutex(DoMove(s, w, m))
  {
    LockMove(s, w, m);
    hide CanMove, NextPhase, NextLock, Released, Holds;
  }

  lemma MutexStep(s: State, a: Action)
    requires Enabled(s, a) && Mutex(s)
    ensures Mutex(Do(s, a))
  {
    match a {
      case Worker(w, m) => MutexMove(s, w, m);
      case Close => DestroyAllKeeps(s, s.stack);
      case _ =>
    }
  }
}
