/** Ordered by its turns with the mutex, the stack is a stack: each pop takes the latest entry not yet popped. */
module Lifo {
  import opened Protocol
  import opened WakeUps

  function Change(op: Op): int {
    if op.PushOp? then 1 else -1
  }

  /** Pushes less pops after `j` and before `b`. */
  function Level(h: seq<Op>, j: nat, b: nat): int
    requires b <= |h|
  {
    if b <= j + 1 then 0 else Level(h, j, b - 1) + Change(h[b - 1])
  }

  function Balance(h: seq<Op>): int {
    if h == [] then 0 else Balance(h[..|h| - 1]) + Change(h[|h| - 1])
  }

  /** The pop at `i` takes what was pushed at `j`: everything pushed in between has been popped in between. */
  ghost predicate Takes(h: seq<Op>, j: nat, i: nat) {
    && j < i < |h| && h[i].PopOp? && h[j] == PushOp(h[i].entry)
    && Level(h, j, i) == 0
    && forall k :: j < k <= i ==> Level(h, j, k) >= 0
  }

  ghost predicate TakesLatest(h: seq<Op>, i: nat) {
    exists j :: Takes(h, j, i)
  }

  /** The entry at `t` was pushed at `j`, and everything still above it was pushed later. */
  ghost predicate Stands(h: seq<Op>, stack: seq<Entry>, t: nat, j: nat) {
    && j < |h| && t < |stack| && h[j] == PushOp(stack[t])
    && Level(h, j, |h|) == |stack| - 1 - t
    && forall k :: j < k <= |h| ==> Level(h, j, k) >= 0
  }

  ghost predicate InPlace(h: seq<Op>, stack: seq<Entry>, t: nat) {
    exists j :: Stands(h, stack, t, j)
  }

  /** Each pop so far took the latest entry, and the stack holds those that are left, in the order of their pushes. */
  ghost predicate Linear(h: seq<Op>, stack: seq<Entry>) {
    && (forall i :: 0 <= i < |h| && h[i].PopOp? ==> TakesLatest(h, i))
    && (forall t :: 0 <= t < |stack| ==> InPlace(h, stack, t))
    && Balance(h) == |stack|
  }

  lemma {:induction false} LevelPrefix(h: seq<Op>, op: Op, j: nat, b: nat)
    requires b <= |h|
    ensures Level(h + [op], j, b) == Level(h, j, b)
  {
    if b <= j + 1 {
    } else {
      LevelPrefix(h, op, j, b - 1);
    }
  }

  lemma TakesStays(h: seq<Op>, op: Op, j: nat, i: nat)
    requires Takes(h, j, i)
    ensures Takes(h + [op], j, i)
  {
    forall k | j < k <= i ensures Level(h + [op], j, k) == Level(h, j, k) {
      LevelPrefix(h, op, j, k);
    }
  }

  /** What stands at `t` stands there after one more operation that leaves it. */
  lemma StandsStays(h: seq<Op>, op: Op, stack: seq<Entry>, stack': seq<Entry>, t: nat, j: nat)
    requires Stands(h, stack, t, j) && t < |stack'| && stack'[t] == stack[t] && |stack'| == |stack| + Change(op)
    ensures Stands(h + [op], stack', t, j)
  {
    forall k | j < k <= |h| ensures Level(h + [op], j, k) == Level(h, j, k) {
      LevelPrefix(h, op, j, k);
    }
  }

  lemma EarlierPops(h: seq<Op>, op: Op, stack: seq<Entry>)
    requires Linear(h, stack)
    ensures forall i :: 0 <= i < |h| && h[i].PopOp? ==> TakesLatest(h + [op], i)
  {
    hide Takes;
    forall i | 0 <= i < |h| && h[i].PopOp? ensures TakesLatest(h + [op], i) {
      assert TakesLatest(h, i);
      var j :| Takes(h, j, i);
      TakesStays(h, op, j, i);
    }
  }

  lemma StillInPlace(h: seq<Op>, op: Op, stack: seq<Entry>, stack': seq<Entry>, n: nat)
    requires Linear(h, stack) && n <= |stack| && n <= |stack'| && stack'[..n] == stack[..n]
    requires |stack'| == |stack| + Change(op)
    ensures forall t :: 0 <= t < n ==> InPlace(h + [op], stack', t)
  {
    hide Stands, Takes;
    forall t | 0 <= t < n ensures InPlace(h + [op], stack', t) {
      assert InPlace(h, stack, t);
      var j :| Stands(h, stack, t, j);
      assert stack'[t] == stack'[..n][t] == stack[..n][t] == stack[t];
      StandsStays(h, op, stack, stack', t, j);
    }
  }

  lemma BalanceSnoc(h: seq<Op>, op: Op)
    ensures Balance(h + [op]) == Balance(h) + Change(op)
  {
    assert (h + [op])[..|h|] == h;
  }

  lemma PushKeepsLinear(h: seq<Op>, stack: seq<Entry>, e: Entry)
    requires Linear(h, stack)
    ensures Linear(h + [PushOp(e)], stack + [e])
  {
    var h', stack' := h + [PushOp(e)], stack + [e];
    EarlierPops(h, PushOp(e), stack);
    StillInPlace(h, PushOp(e), stack, stack', |stack|);
    BalanceSnoc(h, PushOp(e));
    assert Stands(h', stack', |stack|, |h|);
    assert InPlace(h', stack', |stack|);
    hide InPlace, TakesLatest;
  }

  lemma TopIsTaken(h: seq<Op>, op: Op, stack: seq<Entry>, j: nat)
    requires stack != [] && op == PopOp(stack[|stack| - 1]) && Stands(h, stack, |stack| - 1, j)
    ensures Takes(h + [op], j, |h|)
  {
    forall k | j < k <= |h| ensures Level(h + [op], j, k) == Level(h, j, k) {
      LevelPrefix(h, op, j, k);
    }
  }

  lemma PopKeepsLinear(h: seq<Op>, stack: seq<Entry>)
    requires Linear(h, stack) && stack != []
    ensures Linear(h + [PopOp(stack[|stack| - 1])], stack[..|stack| - 1])
  {
    var top := |stack| - 1;
    var op := PopOp(stack[top]);
    EarlierPops(h, op, stack);
    StillInPlace(h, op, stack, stack[..top], top);
    BalanceSnoc(h, op);
    assert InPlace(h, stack, top);
    var j :| Stands(h, stack, top, j);
    TopIsTaken(h, op, stack, j);
    assert TakesLatest(h + [op], |h|);
    hide InPlace, TakesLatest;
  }

  // The protocol

  /** Until the stack is destroyed, and for every pop there has ever been. */
  ghost predicate StackIsLinear(s: State) {
    exists stack :: Linear(s.history, stack) && (s.main != Closed ==> stack == s.stack)
  }

  /** Only a push, a pop of a non-empty stack and its destruction touch the stack: null returns do not. */
  lemma StackChanges(s: State, a: Action)
    requires Enabled(s, a)
    ensures var s' := Do(s, a);
            match a
            case Push => s'.stack == s.stack + [s.main.entry] && s'.history == s.history + [PushOp(s.main.entry)]
            case Close => s'.stack == [] && s'.history == s.history
            case Worker(w, m) =>
              if m.Take? && s.stack != [] then
                && s'.stack == s.stack[..|s.stack| - 1] && s'.history == s.history + [PopOp(Top(s))]
                && s'.workers[w] == Returned(Top(s))
              else s'.stack == s.stack && s'.history == s.history
            case _ => s'.stack == s.stack && s'.history == s.history
  {
    hide CanMove;
    if a.Close? {
      DestroyAllKeeps(s, s.stack);
    }
  }

  lemma MainAfter(s: State, a: Action)
    requires Enabled(s, a)
    ensures s.main == Closed ==> Do(s, a).main == Closed
    ensures a.Push? ==> s.main != Closed
    ensures a.Close? ==> Do(s, a).main == Closed
  {
    hide CanMove, NextPhase, NextLock, Released, DestroyAll;
  }

  lemma StackIsLinearStep(s: State, a: Action)
    requires Enabled(s, a) && StackIsLinear(s)
    requires s.main == Closed ==> s.stack == []
    ensures StackIsLinear(Do(s, a))
  {
    var stack :| Linear(s.history, stack) && (s.main != Closed ==> stack == s.stack);
    StackChanges(s, a);
    MainAfter(s, a);
    hide Do, Linear;
    var s' := Do(s, a);
    if a.Push? {
      PushKeepsLinear(s.history, s.stack, s.main.entry);
      assert Linear(s'.history, s'.stack);
    } else if a.Worker? && a.m.Take? && s.stack != [] {
      PopKeepsLinear(s.history, s.stack);
      assert Linear(s'.history, s'.stack);
    } else {
      assert Linear(s'.history, stack);
    }
  }
}
