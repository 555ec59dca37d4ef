/** The thread barrier: a counter and a generation number under one mutex. The critical sections are
    steps; a waiting thread may wake up at any time, for no reason, any number of times. */
module Barrier {
  /** `done` is the number of waits a thread has completed; a waiting thread remembers the generation
      in which it began to wait. */
  datatype Thread = Outside(done: nat) | Waiting(done: nat, generation: nat)

  /** `ones` and `zeros` record the round of every wait that returned 1 or 0. */
  datatype State = State(
    count: nat,
    curcount: nat,
    generation: nat,
    threads: seq<Thread>,
    ones: multiset<nat>,
    zeros: multiset<nat>)

  datatype Step = Enter(t: nat) | Wake(t: nat)

  predicate Enabled(s: State, step: Step) {
    && step.t < |s.threads|
    && (step.Enter? <==> s.threads[step.t].Outside?)
  }

  function After(s: State, step: Step): State
    requires Enabled(s, step)
  {
    var th := s.threads[step.t];
    match step
    case Enter(t) =>
      if s.curcount + 1 == s.count then
        s.(generation := s.generation + 1, curcount := 0,
           threads := s.threads[t := Outside(th.done + 1)], ones := s.ones + multiset{th.done})
      else
        s.(curcount := s.curcount + 1, threads := s.threads[t := Waiting(th.done, s.generation)])
    case Wake(t) =>
      if th.generation != s.generation then
        s.(threads := s.threads[t := Outside(th.done + 1)], zeros := s.zeros + multiset{th.done})
      else s
  }

  /** Waits entered so far, the current one included. */
  function Entered(th: Thread): nat {
    if th.Outside? then th.done else th.done + 1
  }

  /** In the current round, or released from the previous one and not awake yet. */
  predicate ThreadAt(th: Thread, g: nat) {
    match th
    case Outside(done) => done == g
    case Waiting(done, gen) => gen == done && (done == g || done + 1 == g)
  }

  function Arrived(th: Thread, g: nat): int {
    if th.Waiting? && th.done == g then 1 else 0
  }

  /** Threads of the current round that wait, and threads of the previous one that still do. */
  function CountArrived(threads: seq<Thread>, g: nat): int {
    if threads == [] then 0
    else CountArrived(threads[..|threads| - 1], g) + Arrived(threads[|threads| - 1], g)
  }

  predicate Inv(s: State) {
    && 0 < s.count == |s.threads| && s.curcount < s.count
    && (forall t :: 0 <= t < |s.threads| ==> ThreadAt(s.threads[t], s.generation))
    && s.curcount == CountArrived(s.threads, s.generation)
  }

  /** Every finished round returned 1 once and 0 to all other threads that are awake again. */
  ghost predicate Returns(s: State) {
    && (forall r: nat :: s.ones[r] == if r < s.generation then 1 else 0)
    && (forall r: nat :: s.zeros[r] ==
          if r + 1 < s.generation then s.count - 1
          else if r + 1 == s.generation then s.count - 1 - CountArrived(s.threads, r)
          else 0)
  }

  lemma ArrivedUpdate(threads: seq<Thread>, t: nat, th: Thread, g: nat)
    requires t < |threads|
    ensures CountArrived(threads[t := th], g) == CountArrived(threads, g) - Arrived(threads[t], g) + Arrived(th, g)
  {
    var last := |threads| - 1;
    if t < last {
      ArrivedUpdate(threads[..last], t, th, g);
      assert threads[t := th][..last] == threads[..last][t := th];
    } else {
      assert threads[t := th][..last] == threads[..last];
    }
  }

  lemma ArrivedBounds(threads: seq<Thread>, g: nat)
    ensures 0 <= CountArrived(threads, g) <= |threads|
  {
  }

  /** When all but one have arrived, each of the others has. */
  lemma AllOthersArrived(threads: seq<Thread>, t: nat, g: nat, u: nat)
    requires t < |threads| && u < |threads| && u != t && Arrived(threads[t], g) == 0
    requires CountArrived(threads, g) == |threads| - 1
    ensures Arrived(threads[u], g) == 1
  {
    if Arrived(threads[u], g) == 0 {
      var both := threads[t := Waiting(g, g)];
      ArrivedUpdate(threads, t, Waiting(g, g), g);
      ArrivedUpdate(both, u, Waiting(g, g), g);
      ArrivedBounds(both[u := Waiting(g, g)], g);
    }
  }

  lemma NoneArrived(threads: seq<Thread>, g: nat)
    requires forall t :: 0 <= t < |threads| ==> Arrived(threads[t], g) == 0
    ensures CountArrived(threads, g) == 0
  {
  }

  /** The last thread to enter releases the round. */
  lemma LastEnters(s: State, t: nat)
    requires Inv(s) && Returns(s) && Enabled(s, Enter(t)) && s.curcount + 1 == s.count
    ensures Inv(After(s, Enter(t))) && Returns(After(s, Enter(t)))
  {
    var g, s' := s.generation, After(s, Enter(t));
    assert ThreadAt(s.threads[t], g);
    forall u | 0 <= u < |s.threads|
      ensures ThreadAt(s'.threads[u], g + 1) && Arrived(s'.threads[u], g + 1) == 0
      ensures g > 0 ==> Arrived(s.threads[u], g - 1) == 0
    {
      assert ThreadAt(s.threads[u], g);
      if u != t {
        AllOthersArrived(s.threads, t, g, u);
      }
    }
    NoneArrived(s'.threads, g + 1);
    ArrivedUpdate(s.threads, t, Outside(g + 1), g);
    if g > 0 {
      NoneArrived(s.threads, g - 1);
    }
  }

  lemma OtherEnters(s: State, t: nat)
    requires Inv(s) && Returns(s) && Enabled(s, Enter(t)) && s.curcount + 1 != s.count
    ensures Inv(After(s, Enter(t))) && Returns(After(s, Enter(t)))
  {
    var g, s' := s.generation, After(s, Enter(t));
    assert ThreadAt(s.threads[t], g);
    forall u | 0 <= u < |s.threads|
      ensures ThreadAt(s'.threads[u], g)
    {
      assert ThreadAt(s.threads[u], g);
    }
    ArrivedUpdate(s.threads, t, Waiting(g, g), g);
    if g > 0 {
      ArrivedUpdate(s.threads, t, Waiting(g, g), g - 1);
    }
  }

  lemma WakeKeepsInv(s: State, t: nat)
    requires Inv(s) && Returns(s) && Enabled(s, Wake(t))
    ensures Inv(After(s, Wake(t))) && Returns(After(s, Wake(t)))
  {
    var g, s', th := s.generation, After(s, Wake(t)), s.threads[t];
    assert ThreadAt(th, g);
    if th.generation != g {
      forall u | 0 <= u < |s.threads|
        ensures ThreadAt(s'.threads[u], g)
      {
        assert ThreadAt(s.threads[u], g);
      }
      ArrivedUpdate(s.threads, t, Outside(th.done + 1), g);
      ArrivedUpdate(s.threads, t, Outside(th.done + 1), g - 1);
      ArrivedBounds(s'.threads, g - 1);
    }
  }

  lemma StepKeepsInv(s: State, step: Step)
    requires Inv(s) && Returns(s) && Enabled(s, step)
    ensures Inv(After(s, step)) && Returns(After(s, step))
  {
    match step
    case Enter(t) =>
      if s.curcount + 1 == s.count {
        LastEnters(s, t);
      } else {
        OtherEnters(s, t);
      }
    case Wake(t) => WakeKeepsInv(s, t);
  }

  // ------------------------------------------------------------------ runs

  function Initial(count: nat): State {
    State(count, 0, 0, seq(count, _ => Outside(0)), multiset{}, multiset{})
  }

  predicate Legal(s: State, run: seq<Step>)
    decreases |run|
  {
    run == [] || (Enabled(s, run[0]) && Legal(After(s, run[0]), run[1..]))
  }

  function AfterAll(s: State, run: seq<Step>): State
    requires Legal(s, run)
    decreases |run|
  {
    if run == [] then s else AfterAll(After(s, run[0]), run[1..])
  }

  lemma {:induction false} RunKeepsInv(s: State, run: seq<Step>)
    requires Inv(s) && Returns(s) && Legal(s, run)
    ensures Inv(AfterAll(s, run)) && Returns(AfterAll(s, run))
    decreases |run|
  {
    if run != [] {
      StepKeepsInv(s, run[0]);
      RunKeepsInv(After(s, run[0]), run[1..]);
    }
  }

  lemma InitialInv(count: nat)
    requires count > 0
    ensures Inv(Initial(count)) && Returns(Initial(count))
  {
    NoneArrived(Initial(count).threads, 0);
  }

  /** In every run with exactly `count` threads: nobody has completed more waits than anybody else has
      entered; nobody is more than one generation behind; every finished round returned 1 exactly once,
      and every round but the last finished one returned 0 to all others. */
  lemma BarrierIsSafe(count: nat, run: seq<Step>)
    requires count > 0 && Legal(Initial(count), run)
    ensures var s := AfterAll(Initial(count), run);
      && (forall t, u :: 0 <= t < |s.threads| && 0 <= u < |s.threads| ==> s.threads[t].done <= Entered(s.threads[u]))
      && (forall t :: 0 <= t < |s.threads| && s.threads[t].Waiting? ==>
            s.generation - 1 <= s.threads[t].generation <= s.generation)
      && (forall r: nat :: s.ones[r] == if r < s.generation then 1 else 0)
      && (forall r: nat :: r + 1 < s.generation ==> s.zeros[r] == count - 1)
  {
    InitialInv(count);
    RunKeepsInv(Initial(count), run);
    RunKeepsCount(Initial(count), run);
    var s := AfterAll(Initial(count), run);
    forall t | 0 <= t < |s.threads|
      ensures s.threads[t].done <= s.generation <= Entered(s.threads[t])
      ensures s.threads[t].Waiting? ==> s.generation - 1 <= s.threads[t].generation <= s.generation
    {
      assert ThreadAt(s.threads[t], s.generation);
    }
  }

  lemma RunKeepsCount(s: State, run: seq<Step>)
    requires Legal(s, run)
    ensures AfterAll(s, run).count == s.count
    decreases |run|
  {
    if run != [] {
      RunKeepsCount(After(s, run[0]), run[1..]);
    }
  }

  /** Nobody is left behind for ever: some thread can enter, or some thread leaves when it wakes up. */
  lemma Progress(s: State) returns (step: Step)
    requires Inv(s)
    ensures Enabled(s, step) && After(s, step) != s
  {
    if t :| 0 <= t < |s.threads| && s.threads[t].Outside? {
      step := Enter(t);
    } else if t :| 0 <= t < |s.threads| && s.threads[t].Waiting? && s.threads[t].generation != s.generation {
      step := Wake(t);
    } else {
      step := Enter(0);
      forall t | 0 <= t < |s.threads|
        ensures Arrived(s.threads[t], s.generation) == 1
      {
        assert ThreadAt(s.threads[t], s.generation);
      }
      AllArrived(s.threads, s.generation);
    }
  }

  lemma AllArrived(threads: seq<Thread>, g: nat)
    requires forall t :: 0 <= t < |threads| ==> Arrived(threads[t], g) == 1
    ensures CountArrived(threads, g) == |threads|
  {
  }
}
