/** A bounded buffer under several threads. Pushers claim empty slots and poppers claim the best task
    they have seen, each by one compare-and-swap, without a lock: slots change between the look and the
    claim. A pusher that reaches the last slot hands the rest of its ring to the parent. */
module ConcurrentBuffer {
  import opened Sums
  import opened DataRepo
  import opened TaskRing
  import opened TaskQueues

  /** One call that pushes a ring: what is left of it and the slot it tries next; or what it handed on.
      `tried` records what it found in the slots it has reached. */
  datatype Pusher =
    | Pushing(rest: seq<nat>, i: nat, tried: seq<Option<nat>>)
    | Handed(rest: seq<nat>, tried: seq<Option<nat>>)

  /** The best task a popper has seen so far, and where. */
  datatype Seen = Seen(slot: nat, task: nat)

  /** One call that pops a task: looking at slots, about to claim, or returned. `view` records what it
      found in the slots it has looked at since it last started over. */
  datatype Popper =
    | Looking(i: nat, best: Option<Seen>, view: seq<Option<nat>>)
    | Claiming(seen: Seen, view: seq<Option<nat>>)
    | Took(task: nat, view: seq<Option<nat>>)
    | FoundNone(view: seq<Option<nat>>)

  datatype State = State(slots: seq<Option<nat>>, pushers: seq<Pusher>, poppers: seq<Popper>)

  datatype Step = Push(p: nat) | Pop(q: nat)

  predicate Enabled(s: State, step: Step) {
    match step
    case Push(p) => p < |s.pushers| && s.pushers[p].Pushing? && s.pushers[p].rest != []
    case Pop(q) => q < |s.poppers| && (s.poppers[q].Looking? || s.poppers[q].Claiming?)
  }

  /** Is a task of this rank taken over the best one so far? */
  predicate Better(rank: nat -> nat, best: Option<Seen>, task: nat) {
    best.None? || rank(task) == BEST || rank(task) > rank(best.value.task)
  }

  function LookAt(rank: nat -> nat, slots: seq<Option<nat>>, i: nat, best: Option<Seen>, view: seq<Option<nat>>): Popper {
    if i >= |slots| then
      if best.None? then FoundNone(view) else Claiming(best.value, view)
    else
      var view' := view + [slots[i]];
      if slots[i].None? || !Better(rank, best, slots[i].value) then
        Looking(i + 1, best, view')
      else if rank(slots[i].value) == BEST then
        Claiming(Seen(i, slots[i].value), view')
      else
        Looking(i + 1, Some(Seen(i, slots[i].value)), view')
  }

  function After(rank: nat -> nat, s: State, step: Step): State
    requires Enabled(s, step)
  {
    match step
    case Push(p) =>
      var rest, i, tried := s.pushers[p].rest, s.pushers[p].i, s.pushers[p].tried;
      if i >= |s.slots| then
        s.(pushers := s.pushers[p := Handed(rest, tried)])
      else if s.slots[i].None? then
        s.(slots := s.slots[i := Some(rest[0])], pushers := s.pushers[p := Pushing(rest[1..], i + 1, tried + [None])])
      else
        s.(pushers := s.pushers[p := Pushing(rest, i + 1, tried + [s.slots[i]])])
    case Pop(q) =>
      match s.poppers[q]
      case Looking(i, best, view) => s.(poppers := s.poppers[q := LookAt(rank, s.slots, i, best, view)])
      case Claiming(seen, view) =>
        if seen.slot < |s.slots| && s.slots[seen.slot] == Some(seen.task) then
          s.(slots := s.slots[seen.slot := None], poppers := s.poppers[q := Took(seen.task, view)])
        else
          s.(poppers := s.poppers[q := Looking(0, None, [])])
      case _ => s
  }

  // ------------------------------------------------------------------ where a task can be

  function InSlot(x: nat): Option<nat> -> int {
    (o: Option<nat>) => if o == Some(x) then 1 else 0
  }

  function InPusher(x: nat): Pusher -> int {
    (p: Pusher) => multiset(p.rest)[x]
  }

  function InPopper(x: nat): Popper -> int {
    (q: Popper) => if q.Took? && q.task == x then 1 else 0
  }

  /** How often task `x` is in a slot, in a ring on its way or handed on, or taken. */
  function Copies(s: State, x: nat): int {
    Total(s.slots, InSlot(x)) + Total(s.pushers, InPusher(x)) + Total(s.poppers, InPopper(x))
  }

  lemma PushConserves(rank: nat -> nat, s: State, p: nat, x: nat)
    requires Enabled(s, Push(p))
    ensures Copies(After(rank, s, Push(p)), x) == Copies(s, x)
  {
    HeadCount(s.pushers[p].rest, x);
    var i, s' := s.pushers[p].i, After(rank, s, Push(p));
    TotalUpdate(s.pushers, p, s'.pushers[p], InPusher(x));
    if i < |s.slots| && s.slots[i].None? {
      TotalUpdate(s.slots, i, s'.slots[i], InSlot(x));
    }
  }

  lemma PopConserves(rank: nat -> nat, s: State, q: nat, x: nat)
    requires Enabled(s, Pop(q))
    ensures Copies(After(rank, s, Pop(q)), x) == Copies(s, x)
  {
    TotalUpdate(s.poppers, q, After(rank, s, Pop(q)).poppers[q], InPopper(x));
    if s.poppers[q].Claiming? {
      var seen := s.poppers[q].seen;
      if seen.slot < |s.slots| && s.slots[seen.slot] == Some(seen.task) {
        TotalUpdate(s.slots, seen.slot, None, InSlot(x));
      }
    }
  }

  // ------------------------------------------------------------------ runs

  predicate Legal(rank: nat -> nat, s: State, run: seq<Step>)
    decreases |run|
  {
    run == [] || (Enabled(s, run[0]) && Legal(rank, After(rank, s, run[0]), run[1..]))
  }

  function AfterAll(rank: nat -> nat, s: State, run: seq<Step>): State
    requires Legal(rank, s, run)
    decreases |run|
  {
    if run == [] then s else AfterAll(rank, After(rank, s, run[0]), run[1..])
  }

  lemma {:induction false} RunConserves(rank: nat -> nat, s: State, run: seq<Step>, x: nat)
    requires Legal(rank, s, run)
    ensures Copies(AfterAll(rank, s, run), x) == Copies(s, x)
    decreases |run|
  {
    if run != [] {
      match run[0] {
        case Push(p) => PushConserves(rank, s, p, x);
        case Pop(q) => PopConserves(rank, s, q, x);
      }
      RunConserves(rank, After(rank, s, run[0]), run[1..], x);
    }
  }

  /** Threads about to begin: one ring per pusher. */
  function Initial(slots: seq<Option<nat>>, rings: seq<seq<nat>>, poppers: nat): State {
    State(slots, seq(|rings|, p requires 0 <= p < |rings| => Pushing(rings[p], 0, [])),
          seq(poppers, _ => Looking(0, None, [])))
  }

  /** `s` still has the rings of its pushers, each from some element on, in their order. */
  predicate Suffixes(s: State, rings: seq<seq<nat>>) {
    && |s.pushers| == |rings|
    && forall p :: 0 <= p < |rings| ==> SuffixAt(s.pushers[p].rest, rings[p])
  }

  predicate SuffixAt(rest: seq<nat>, ring: seq<nat>) {
    |rest| <= |ring| && rest == ring[|ring| - |rest|..]
  }

  lemma StepKeepsSuffixes(rank: nat -> nat, s: State, step: Step, rings: seq<seq<nat>>)
    requires Suffixes(s, rings) && Enabled(s, step)
    ensures Suffixes(After(rank, s, step), rings)
  {
    if step.Push? {
      var rest, ring := s.pushers[step.p].rest, rings[step.p];
      assert SuffixAt(rest, ring);
      assert SuffixAt(rest[1..], ring);
    }
  }

  lemma {:induction false} RunKeepsSuffixes(rank: nat -> nat, s: State, run: seq<Step>, rings: seq<seq<nat>>)
    requires Suffixes(s, rings) && Legal(rank, s, run)
    ensures Suffixes(AfterAll(rank, s, run), rings)
    decreases |run|
  {
    if run != [] {
      StepKeepsSuffixes(rank, s, run[0], rings);
      RunKeepsSuffixes(rank, After(rank, s, run[0]), run[1..], rings);
    }
  }

  /** Every task is in the buffer or in one ring at first. */
  ghost predicate Distinct(s: State) {
    forall x: nat :: Copies(s, x) <= 1
  }

  /** Task `x` was taken by popper `q`. */
  predicate TakenBy(s: State, q: nat, x: nat) {
    q < |s.poppers| && s.poppers[q].Took? && s.poppers[q].task == x
  }

  lemma TakenCounts(qs: seq<Popper>, q: nat, r: nat, x: nat)
    requires q < |qs| && r < |qs| && q != r && qs[q].Took? && qs[r].Took? && qs[q].task == qs[r].task == x
    ensures Total(qs, InPopper(x)) >= 2
  {
    TotalUpdate(qs, q, FoundNone([]), InPopper(x));
    TotalAtLeast(qs[q := FoundNone([])], r, InPopper(x));
  }

  lemma CopiesBound(s: State, x: nat)
    ensures Copies(s, x) >= Total(s.poppers, InPopper(x)) >= 0
    ensures Copies(s, x) >= Total(s.slots, InSlot(x)) + Total(s.poppers, InPopper(x))
    ensures Copies(s, x) >= Total(s.pushers, InPusher(x)) + Total(s.poppers, InPopper(x))
  {
    TotalNonNegative(s.slots, InSlot(x));
    TotalNonNegative(s.pushers, InPusher(x));
    TotalNonNegative(s.poppers, InPopper(x));
  }

  /** Whatever pushers and poppers do to each other, no task is lost or made twice: each stays where it
      was put, is on its way, was handed to the parent, or was taken, by one popper and for good. What a
      pusher hands on is the end of its ring in its order. */
  lemma NothingLostOrTwice(rank: nat -> nat, slots: seq<Option<nat>>, rings: seq<seq<nat>>, poppers: nat, run: seq<Step>)
    requires Legal(rank, Initial(slots, rings, poppers), run)
    ensures var s0, s := Initial(slots, rings, poppers), AfterAll(rank, Initial(slots, rings, poppers), run);
      && (forall x: nat :: Copies(s, x) == Copies(s0, x))
      && Suffixes(s, rings)
      && (Distinct(s0) ==> forall q: nat, r: nat, x: nat :: TakenBy(s, q, x) && TakenBy(s, r, x) ==> q == r)
      && (Distinct(s0) ==> forall q: nat, i: nat, x: nat :: TakenBy(s, q, x) && i < |s.slots| ==> s.slots[i] != Some(x))
  {
    var s0 := Initial(slots, rings, poppers);
    var s := AfterAll(rank, s0, run);
    forall x: nat
      ensures Copies(s, x) == Copies(s0, x)
    {
      RunConserves(rank, s0, run, x);
    }
    forall p | 0 <= p < |rings|
      ensures SuffixAt(s0.pushers[p].rest, rings[p])
    {
    }
    RunKeepsSuffixes(rank, s0, run, rings);
    if Distinct(s0) {
      forall q: nat, x: nat | TakenBy(s, q, x)
        ensures forall r: nat :: TakenBy(s, r, x) ==> q == r
        ensures forall i: nat :: i < |s.slots| ==> s.slots[i] != Some(x)
      {
        TakenOnce(s, q, x);
      }
    }
  }

  lemma TakenOnce(s: State, q: nat, x: nat)
    requires Distinct(s) && TakenBy(s, q, x)
    ensures forall r: nat :: TakenBy(s, r, x) ==> q == r
    ensures forall i: nat :: i < |s.slots| ==> s.slots[i] != Some(x)
  {
    CopiesBound(s, x);
    TotalAtLeast(s.poppers, q, InPopper(x));
    forall r: nat | TakenBy(s, r, x)
      ensures q == r
    {
      if q != r {
        TakenCounts(s.poppers, q, r, x);
      }
    }
    forall i: nat | i < |s.slots|
      ensures s.slots[i] != Some(x)
    {
      TotalAtLeast(s.slots, i, InSlot(x));
    }
  }

  // ------------------------------------------------------------------ what a pop returns, what a push hands on

  /** The records are true: a pop that looks adds what is in the next slot, forgets only when its claim
      fails, and nobody else touches them. */
  lemma ViewsAreTrue(rank: nat -> nat, s: State, step: Step, q: nat)
    requires Enabled(s, step) && q < |s.poppers| && (s.poppers[q].Looking? ==> s.poppers[q].i == |s.poppers[q].view|)
    ensures var before, after := s.poppers[q], After(rank, s, step).poppers[q];
      if step != Pop(q) then after == before
      else if before.Claiming? then (after.Took? && after.view == before.view) || after == Looking(0, None, [])
      else if |before.view| < |s.slots| then after.view == before.view + [s.slots[|before.view|]]
      else after.view == before.view && !after.Looking?
  {
  }

  /** Ranks are unsigned, and `BEST` is the largest. */
  ghost predicate Ranked(rank: nat -> nat) {
    forall x :: rank(x) <= BEST
  }

  /** Of what was seen, `best` has the largest rank, larger than all before it. */
  predicate Leads(rank: nat -> nat, view: seq<Option<nat>>, best: Option<Seen>) {
    match best
    case None => forall j :: 0 <= j < |view| ==> view[j].None?
    case Some(seen) =>
      && seen.slot < |view| && view[seen.slot] == Some(seen.task)
      && forall j :: 0 <= j < |view| && view[j].Some? ==>
           rank(view[j].value) <= rank(seen.task) && (j < seen.slot ==> rank(view[j].value) < rank(seen.task))
  }

  /** A pop claims the first task of largest rank that it has seen, having looked at every slot unless that
      rank is the best possible; it returns without a task only if it found every slot empty. */
  predicate PopperOk(rank: nat -> nat, slots: nat, q: Popper) {
    && |q.view| <= slots
    && match q
       case Looking(i, best, view) => i == |view| && Leads(rank, view, best) && (best.Some? ==> rank(best.value.task) < BEST)
       case Claiming(seen, view) => Leads(rank, view, Some(seen)) && (|view| == slots || rank(seen.task) == BEST)
       case Took(task, view) =>
         && (|view| == slots || rank(task) == BEST)
         && exists slot: nat :: slot < slots && Leads(rank, view, Some(Seen(slot, task)))
       case FoundNone(view) => |view| == slots && Leads(rank, view, None)
  }

  /** Empty slots among those found. */
  function Empties(found: seq<Option<nat>>): (n: nat)
    ensures n <= |found|
  {
    if found == [] then 0 else Empties(found[..|found| - 1]) + (if found[|found| - 1].None? then 1 else 0)
  }

  /** A push has put one task of its ring into every slot it found empty, in the order of the ring; it hands
      something on only after it has reached every slot. */
  predicate PusherOk(slots: nat, ring: seq<nat>, p: Pusher) {
    && |p.tried| <= slots && Empties(p.tried) <= |ring| && p.rest == ring[Empties(p.tried)..]
    && match p
       case Pushing(rest, i, tried) => i == |tried|
       case Handed(rest, tried) => rest != [] && |tried| == slots
  }

  predicate AllOk(rank: nat -> nat, rings: seq<seq<nat>>, s: State) {
    && |s.pushers| == |rings|
    && (forall p :: 0 <= p < |rings| ==> PusherOk(|s.slots|, rings[p], s.pushers[p]))
    && (forall q :: 0 <= q < |s.poppers| ==> PopperOk(rank, |s.slots|, s.poppers[q]))
  }

  lemma LookKeepsOk(rank: nat -> nat, slots: seq<Option<nat>>, q: Popper)
    requires Ranked(rank) && q.Looking? && PopperOk(rank, |slots|, q)
    ensures PopperOk(rank, |slots|, LookAt(rank, slots, q.i, q.best, q.view))
  {
  }

  lemma StepKeepsOk(rank: nat -> nat, rings: seq<seq<nat>>, s: State, step: Step)
    requires Ranked(rank) && AllOk(rank, rings, s) && Enabled(s, step)
    ensures AllOk(rank, rings, After(rank, s, step))
  {
    var s' := After(rank, s, step);
    match step
    case Push(p) =>
      PushKeepsOk(rank, s, p, rings[p]);
    case Pop(q) =>
      if s.poppers[q].Looking? {
        LookKeepsOk(rank, s.slots, s.poppers[q]);
      }
      assert PopperOk(rank, |s.slots|, s.poppers[q]);
  }

  lemma OneMoreTried(tried: seq<Option<nat>>, o: Option<nat>)
    ensures Empties(tried + [o]) == Empties(tried) + (if o.None? then 1 else 0)
  {
    assert (tried + [o])[..|tried|] == tried;
  }

  lemma PushKeepsOk(rank: nat -> nat, s: State, p: nat, ring: seq<nat>)
    requires Enabled(s, Push(p)) && PusherOk(|s.slots|, ring, s.pushers[p])
    ensures PusherOk(|s.slots|, ring, After(rank, s, Push(p)).pushers[p])
  {
    var i := s.pushers[p].i;
    if i < |s.slots| {
      OneMoreTried(s.pushers[p].tried, s.slots[i]);
    }
  }

  /** One step of a push: the slot it has reached is recorded, and gets the next task of the ring if and only
      if it is empty; no other slot changes, and the ring is handed on when there is no slot left. */
  lemma PushTakesEmptySlot(rank: nat -> nat, s: State, p: nat, ring: seq<nat>)
    requires Enabled(s, Push(p)) && PusherOk(|s.slots|, ring, s.pushers[p])
    ensures var i, tried, s' := |s.pushers[p].tried|, s.pushers[p].tried, After(rank, s, Push(p));
      if i == |s.slots| then s'.slots == s.slots && s'.pushers[p].Handed? && s'.pushers[p].tried == tried
      else
        && s'.pushers[p].Pushing? && s'.pushers[p].tried == tried + [s.slots[i]]
        && Empties(tried) < |ring|
        && s'.slots == if s.slots[i].None? then s.slots[i := Some(ring[Empties(tried)])] else s.slots
  {
  }

  lemma {:induction false} RunKeepsOk(rank: nat -> nat, rings: seq<seq<nat>>, s: State, run: seq<Step>)
    requires Ranked(rank) && AllOk(rank, rings, s) && Legal(rank, s, run)
    ensures AllOk(rank, rings, AfterAll(rank, s, run))
    decreases |run|
  {
    if run != [] {
      StepKeepsOk(rank, rings, s, run[0]);
      RunKeepsOk(rank, rings, After(rank, s, run[0]), run[1..]);
    }
  }

  /** So it is in every run of any pushers and poppers. */
  lemma PopsAreBest(rank: nat -> nat, slots: seq<Option<nat>>, rings: seq<seq<nat>>, poppers: nat, run: seq<Step>)
    requires Ranked(rank) && Legal(rank, Initial(slots, rings, poppers), run)
    ensures AllOk(rank, rings, AfterAll(rank, Initial(slots, rings, poppers), run))
  {
    RunKeepsOk(rank, rings, Initial(slots, rings, poppers), run);
  }

  // ------------------------------------------------------------------ one thread alone

  predicate BestSlot(rank: nat -> nat, slots: seq<Option<nat>>, b: nat) {
    && b < |slots| && slots[b].Some?
    && forall j :: 0 <= j < |slots| && slots[j].Some? ==>
         rank(slots[j].value) <= rank(slots[b].value) && (j < b ==> rank(slots[j].value) < rank(slots[b].value))
  }

  /** The slot that `TaskQueues` calls best, when tasks are the elements themselves. */
  lemma BestSlotIsBest(rank: nat -> nat, slots: seq<Option<nat>>, itemRank: Item -> nat, items: seq<Item?>, b: nat)
    requires |slots| == |items|
    requires forall j :: 0 <= j < |items| ==> (slots[j].None? <==> items[j] == null)
    requires forall j :: 0 <= j < |items| && items[j] != null ==> rank(slots[j].value) == itemRank(items[j])
    ensures BestSlot(rank, slots, b) <==> IsBest(items, b, itemRank)
  {
  }

  /** What a lone popper has done to the buffer `slots`. */
  ghost predicate PoppedAlone(rank: nat -> nat, slots: seq<Option<nat>>, s: State, q: nat) {
    && q < |s.poppers| && PopperOk(rank, |slots|, s.poppers[q]) && |s.slots| == |slots|
    && match s.poppers[q]
       case Took(x, _) => exists b: nat :: BestSlot(rank, slots, b) && slots[b] == Some(x) && s.slots == slots[b := None]
       case FoundNone(_) => s.slots == slots && forall j :: 0 <= j < |slots| ==> slots[j].None?
       case _ => s.slots == slots && s.poppers[q].view == slots[..|s.poppers[q].view|]
  }

  /** Steps it still takes. */
  function StepsLeft(slots: nat, q: Popper): int {
    match q
    case Looking(_, _, view) => slots - |view| + 2
    case Claiming(_, _) => 1
    case _ => 0
  }

  lemma PopAlone(rank: nat -> nat, slots: seq<Option<nat>>, s: State, q: nat)
    requires Ranked(rank) && PoppedAlone(rank, slots, s, q) && Enabled(s, Pop(q))
    ensures PoppedAlone(rank, slots, After(rank, s, Pop(q)), q)
    ensures StepsLeft(|slots|, After(rank, s, Pop(q)).poppers[q]) < StepsLeft(|slots|, s.poppers[q])
  {
    var s' := After(rank, s, Pop(q));
    if s.poppers[q].Looking? {
      LookKeepsOk(rank, slots, s.poppers[q]);
    } else {
      var seen := s.poppers[q].seen;
      assert BestSlot(rank, slots, seen.slot);
    }
  }

  /** Without interference a pop ends after at most two steps more than there are slots. It takes the first
      task of largest rank out of the buffer, or finds that the buffer is empty. */
  lemma {:induction false} LonePopTakesBest(rank: nat -> nat, slots: seq<Option<nat>>, s: State, q: nat, run: seq<Step>)
    requires Ranked(rank) && PoppedAlone(rank, slots, s, q) && Legal(rank, s, run)
    requires forall k :: 0 <= k < |run| ==> run[k] == Pop(q)
    ensures PoppedAlone(rank, slots, AfterAll(rank, s, run), q) && |run| <= StepsLeft(|slots|, s.poppers[q])
    decreases |run|
  {
    if run != [] {
      PopAlone(rank, slots, s, q);
      LonePopTakesBest(rank, slots, After(rank, s, run[0]), q, run[1..]);
    }
  }

  /** What a lone pusher has done to the buffer `slots` and the ring `ring`: the slots it has reached hold
      what they held, or the next task of the ring if they were empty. */
  predicate PushedAlone(slots: seq<Option<nat>>, ring: seq<nat>, s: State, p: nat) {
    && p < |s.pushers| && PusherOk(|slots|, ring, s.pushers[p]) && |s.slots| == |slots|
    && s.pushers[p].tried == slots[..|s.pushers[p].tried|]
    && forall j :: 0 <= j < |slots| ==>
         s.slots[j] == if j < |s.pushers[p].tried| then FilledSlot(slots, ring, j) else slots[j]
  }

  function FilledSlot(slots: seq<Option<nat>>, ring: seq<nat>, j: nat): Option<nat>
    requires j < |slots|
  {
    if slots[j].Some? then slots[j]
    else if Empties(slots[..j]) < |ring| then Some(ring[Empties(slots[..j])])
    else None
  }

  lemma PushAlone(rank: nat -> nat, slots: seq<Option<nat>>, ring: seq<nat>, s: State, p: nat)
    requires PushedAlone(slots, ring, s, p) && Enabled(s, Push(p))
    ensures PushedAlone(slots, ring, After(rank, s, Push(p)), p)
  {
    PushKeepsOk(rank, s, p, ring);
    PushTakesEmptySlot(rank, s, p, ring);
  }

  /** Without interference a push fills the empty slots in their order with the ring in its order. */
  lemma {:induction false} LonePushFills(rank: nat -> nat, slots: seq<Option<nat>>, ring: seq<nat>, s: State, p: nat, run: seq<Step>)
    requires PushedAlone(slots, ring, s, p) && Legal(rank, s, run) && forall k :: 0 <= k < |run| ==> run[k] == Push(p)
    ensures PushedAlone(slots, ring, AfterAll(rank, s, run), p)
    decreases |run|
  {
    if run != [] {
      PushAlone(rank, slots, ring, s, p);
      LonePushFills(rank, slots, ring, After(rank, s, run[0]), p, run[1..]);
    }
  }

  /** A claim fails only because the slot has changed since the popper looked: another thread got there. */
  lemma ClaimTakesWhatIsThere(rank: nat -> nat, s: State, q: nat)
    requires Enabled(s, Pop(q)) && s.poppers[q].Claiming?
    ensures var seen, s' := s.poppers[q].seen, After(rank, s, Pop(q));
      if s'.poppers[q].Took? then
        s'.poppers[q].task == seen.task && seen.slot < |s.slots| && s.slots[seen.slot] == Some(seen.task)
        && s'.slots == s.slots[seen.slot := None]
      else
        s'.slots == s.slots && (seen.slot < |s.slots| ==> s.slots[seen.slot] != Some(seen.task))
  {
  }
}
