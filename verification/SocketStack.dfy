/** ThreadSafeStack as the thread that uses it sees it: what the other threads do while it sleeps is given. */
module SocketStack {
  import opened Wrappers
  import opened StopTokens

  /** The end of one sleep: the stack when the mutex is locked again, and whether the five seconds are over. */
  datatype Turn<T> = Turn(stack: seq<Option<T>>, timedOut: bool)

  /** What GetSocket returns, and the stack it leaves. */
  datatype Got<T> = Got(entry: Option<T>, stack: seq<Option<T>>)

  /** From the test of stop that follows wait_for. */
  function Taken<T>(stack: seq<Option<T>>, stop: bool): Got<T> {
    if stop || stack == [] then Got(None, stack)
    else Got(stack[|stack| - 1], stack[..|stack| - 1])
  }

  /** What AddSocket leaves. */
  function Added<T>(stack: seq<Option<T>>, i: Option<T>): seq<Option<T>> {
    stack + [i]
  }

  /** Last in, first out. */
  lemma LastInFirstOut<T>(stack: seq<Option<T>>, i: Option<T>)
    ensures Taken(Added(stack, i), false) == Got(i, stack)
  {
    assert Added(stack, i)[..|stack|] == stack;
  }

  /** The stack after `k` sleeps. */
  function Seen<T>(stack: seq<Option<T>>, turns: seq<Turn<T>>, k: nat): seq<Option<T>>
    requires k <= |turns|
  {
    if k == 0 then stack else turns[k - 1].stack
  }

  function TimedOut<T>(turns: seq<Turn<T>>, k: nat): bool
    requires k <= |turns|
  {
    k > 0 && turns[k - 1].timedOut
  }

  /** After `k` sleeps it sleeps again: nothing on the stack, no stop, time left. */
  predicate SleepsAgain<T>(stack: seq<Option<T>>, polls: nat, turns: seq<Turn<T>>, k: nat)
    requires k <= |turns|
  {
    k < |turns| && Seen(stack, turns, k) == [] && k < polls && !TimedOut(turns, k)
  }

  ghost predicate Sleeps<T>(stack: seq<Option<T>>, polls: nat, turns: seq<Turn<T>>, k: nat)
    requires k <= |turns|
  {
    && (forall j :: 0 <= j < k ==> SleepsAgain(stack, polls, turns, j))
    && !SleepsAgain(stack, polls, turns, k)
  }

  /** The answers "no" to come, after wait_for has slept `k` times. */
  function PollsLeft<T>(polls: nat, turns: seq<Turn<T>>, k: nat): nat
    requires k <= |turns|
  {
    var tests := if TimedOut(turns, k) then k else k + 1;
    if polls < tests then 0 else polls - tests
  }

  /** How often wait_for sleeps, after `k` times. */
  function SleepsFrom<T>(stack: seq<Option<T>>, polls: nat, turns: seq<Turn<T>>, k: nat): (n: nat)
    requires k <= |turns|
    ensures k <= n <= |turns| && !SleepsAgain(stack, polls, turns, n)
    ensures forall j :: k <= j < n ==> SleepsAgain(stack, polls, turns, j)
    decreases |turns| - k
  {
    if SleepsAgain(stack, polls, turns, k) then SleepsFrom(stack, polls, turns, k + 1) else k
  }

  /** The number of sleeps is determined. */
  lemma SleepsOnce<T>(stack: seq<Option<T>>, polls: nat, turns: seq<Turn<T>>, j: nat, k: nat)
    requires j <= |turns| && k <= |turns| && Sleeps(stack, polls, turns, j) && Sleeps(stack, polls, turns, k)
    ensures j == k
  {
    assert !(j < k) && !(k < j);
  }

  /** null comes back for stop, for a timeout, or for a null that was pushed; otherwise the last socket pushed. */
  lemma WhatIsGot<T>(stack: seq<Option<T>>, polls: nat, turns: seq<Turn<T>>, k: nat)
    requires k <= |turns| && Sleeps(stack, polls, turns, k)
    ensures var seen := Seen(stack, turns, k);
            var stop := PollsLeft(polls, turns, k) == 0;
            var got := Taken(seen, stop);
            && (got.entry.Some? ==> !stop && seen == got.stack + [got.entry])
            && (got.entry.None? ==> stop || TimedOut(turns, k) || k == |turns| || seen == got.stack + [None])
            && (stack != [] ==> k == 0 && (polls > 1 ==> got.stack + [got.entry] == stack))
  {
    var seen := Seen(stack, turns, k);
    assert stack != [] ==> !SleepsAgain(stack, polls, turns, 0);
    if seen == [] && !TimedOut(turns, k) && k < |turns| {
      assert polls <= k;
    }
  }

  class ThreadSafeStack<T> {
    var m_stack: seq<Option<T>>
    var notified: nat             // calls of cv.notify_one

    constructor ()
      ensures m_stack == [] && notified == 0
    {
      m_stack, notified := [], 0;
    }

    method NotifyOne()
      modifies `notified
      ensures notified == old(notified) + 1
    {
      notified := notified + 1;
    }

    /** One notification for each entry, after it is on the stack. */
    method AddSocket(i: Option<T>)
      modifies this
      ensures m_stack == Added(old(m_stack), i) && notified == old(notified) + 1
    {
      m_stack := m_stack + [i];
      NotifyOne();
    }

    /** wait_for with a stop token. When `turns` run out, the next sleep ends by a timeout with nothing changed. */
    method WaitFor(st: StopToken, turns: seq<Turn<T>>) returns (slept: nat)
      modifies `m_stack, st
      ensures slept == SleepsFrom(old(m_stack), old(st.polls), turns, 0)
      ensures Sleeps(old(m_stack), old(st.polls), turns, slept)
      ensures m_stack == Seen(old(m_stack), turns, slept)
      ensures st.polls == PollsLeft(old(st.polls), turns, slept)
    {
      slept := 0;
      var stop := st.StopRequested();
      while !stop && m_stack == [] && slept < |turns|
        invariant slept <= |turns| && !TimedOut(turns, slept)
        invariant forall j :: 0 <= j < slept ==> SleepsAgain(old(m_stack), old(st.polls), turns, j)
        invariant m_stack == Seen(old(m_stack), turns, slept)
        invariant stop == (old(st.polls) <= slept)
        invariant st.polls == PollsLeft(old(st.polls), turns, slept)
      {
        m_stack := turns[slept].stack;
        slept := slept + 1;
        if turns[slept - 1].timedOut {
          break;
        }
        stop := st.StopRequested();
      }
      ghost var n := SleepsFrom(old(m_stack), old(st.polls), turns, 0);
      SleepsOnce(old(m_stack), old(st.polls), turns, slept, n);
    }

    /** GetSocket: it sleeps only while the stack is empty, and takes from the stack it wakes up to. */
    method GetSocket(st: StopToken, turns: seq<Turn<T>>) returns (s: Option<T>, slept: nat)
      modifies `m_stack, st
      ensures slept == SleepsFrom(old(m_stack), old(st.polls), turns, 0)
      ensures var polls := PollsLeft(old(st.polls), turns, slept);
              && Got(s, m_stack) == Taken(Seen(old(m_stack), turns, slept), polls == 0)
              && st.polls == if polls == 0 then 0 else polls - 1
    {
      slept := WaitFor(st, turns);
      var stop := st.StopRequested();
      if stop {
        return None, slept;
      }
      if m_stack == [] {
        return None, slept;
      }
      s := m_stack[|m_stack| - 1];
      m_stack := m_stack[..|m_stack| - 1];
    }
  }
}
