/** The dependency word of one task. Predecessors release it concurrently, each by a short sequence
    of atomic steps; whichever interleaving happens, exactly one release sees the goal reached. */
module ReleaseCell {

  /** What the releases of one task agree on. `Counter` is the build that counts dependencies: `mem`
      inputs come from memory. `Mask` is the default build: a word is the set of its bits that are 1,
      `memBits` holds the bits of the flows read from memory and `bit` the destination flow of each release. */
  datatype Cell =
    | Counter(goal: nat, mem: nat)
    | Mask(goalBits: set<nat>, memBits: set<nat>, bit: map<nat, nat>)

  datatype Word = Num(n: nat) | Bits(bits: set<nat>)

  /** Where one release stands: before the first read, about to compare-and-swap from 0, about to
      increment, about to OR a value in, or through (and whether it found the task ready). */
  datatype Pc = Start | Cas(value: nat) | Inc | Or(mask: set<nat>) | Landed(fired: bool)

  const IN_DONE: nat := 30

  function Zero(c: Cell): Word {
    if c.Counter? then Num(0) else Bits({})
  }

  /** The word is of the kind the cell uses, and release `e` has a flow bit. */
  predicate Typed(c: Cell, e: nat, w: Word, pc: Pc) {
    match c
    case Counter(_, _) => w.Num? && !pc.Or?
    case Mask(_, _, bit) => w.Bits? && e in bit && !pc.Cas? && !pc.Inc?
  }

  /** One atomic step of release `e`. */
  function Step(c: Cell, e: nat, w: Word, pc: Pc): (r: (Word, Pc))
    requires Typed(c, e, w, pc)
    ensures Typed(c, e, r.0, r.1)
  {
    match pc
    case Start =>
      if c.Counter? then
        (w, if w.n == 0 then Cas(1 + c.mem) else Inc)
      else
        var v := {IN_DONE, c.bit[e]};
        (w, Or(if IN_DONE in w.bits then v else v + c.memBits))
    case Cas(value) =>
      if w.n == 0 then (Num(value), Landed(value == c.goal)) else (w, Inc)
    case Inc =>
      (Num(w.n + 1), Landed(w.n + 1 == c.goal))
    case Or(mask) =>
      (Bits(w.bits + mask), Landed((w.bits + mask) * c.goalBits == c.goalBits))
    case Landed(_) => (w, pc)
  }

  /** The goal counts the memory inputs and the releases; in mask mode every release has its own bit. */
  predicate Matches(c: Cell, releases: set<nat>) {
    match c
    case Counter(goal, mem) => goal == mem + |releases|
    case Mask(goal, mem, bit) =>
      && (forall e <- releases :: e in bit && bit[e] !in mem && bit[e] != IN_DONE)
      && (forall e <- releases, f <- releases :: bit[e] == bit[f] ==> e == f)
      && goal == mem + BitsOf(bit, releases)
  }

  function BitsOf(bit: map<nat, nat>, releases: set<nat>): set<nat>
    requires forall e <- releases :: e in bit
  {
    set e | e in releases :: bit[e]
  }

  /** What the word holds once exactly the releases in `landed` are through. */
  function WordAfter(c: Cell, landed: set<nat>): Word
    requires c.Mask? ==> forall e <- landed :: e in c.bit
  {
    if landed == {} then Zero(c)
    else
      match c
      case Counter(_, mem) => Num(mem + |landed|)
      case Mask(_, mem, bit) => Bits({IN_DONE} + mem + BitsOf(bit, landed))
  }

  /** A release in flight carries a value that is right whenever it lands. */
  predicate Sound(c: Cell, e: nat, pc: Pc, anyLanded: bool)
    requires c.Mask? ==> e in c.bit
  {
    match pc
    case Start => true
    case Cas(value) => c.Counter? && value == 1 + c.mem
    case Inc => c.Counter? && anyLanded
    case Or(mask) =>
      c.Mask? && (mask == {IN_DONE, c.bit[e]} + c.memBits || (anyLanded && mask == {IN_DONE, c.bit[e]}))
    case Landed(_) => anyLanded
  }

  function LandedIn(releases: set<nat>, pcs: seq<Pc>): set<nat>
    requires forall e <- releases :: e < |pcs|
  {
    set e | e in releases && pcs[e].Landed?
  }

  /** One release fired if and only if all are through, and never two. */
  predicate FiredInv(releases: set<nat>, pcs: seq<Pc>)
    requires forall e <- releases :: e < |pcs|
  {
    && (forall e <- releases, f <- releases :: pcs[e] == pcs[f] == Landed(true) ==> e == f)
    && ((exists e <- releases :: pcs[e] == Landed(true)) <==> LandedIn(releases, pcs) == releases != {})
  }

  /** The invariant of one cell under its releases: the word is what the landed releases made it, and
      the releases in flight and the fired one are right. */
  predicate CellInv(c: Cell, releases: set<nat>, w: Word, pcs: seq<Pc>) {
    && Matches(c, releases)
    && (forall e <- releases :: e < |pcs|)
    && w == WordAfter(c, LandedIn(releases, pcs))
    && (forall e <- releases :: Sound(c, e, pcs[e], LandedIn(releases, pcs) != {}))
    && FiredInv(releases, pcs)
  }

  lemma InitialCell(c: Cell, releases: set<nat>, pcs: seq<Pc>)
    requires Matches(c, releases) && forall e <- releases :: e < |pcs| && pcs[e] == Start
    ensures CellInv(c, releases, Zero(c), pcs)
  {
    assert LandedIn(releases, pcs) == {};
    if e :| e in releases {
      assert pcs[e] == Start;
    }
  }

  lemma WordTyped(c: Cell, releases: set<nat>, w: Word, pcs: seq<Pc>, e: nat)
    requires CellInv(c, releases, w, pcs) && e in releases
    ensures Typed(c, e, w, pcs[e])
  {
  }

  /** A word that lacks a landed release's bit, or any bit of the goal, cannot contain the goal. */
  lemma GoalReached(c: Cell, releases: set<nat>, landed: set<nat>, w: Word)
    requires Matches(c, releases) && landed <= releases && landed != {}
    requires w == WordAfter(c, landed)
    ensures c.Counter? ==> (w.n == c.goal <==> landed == releases)
    ensures c.Mask? ==> (w.bits * c.goalBits == c.goalBits <==> landed == releases)
  {
    if c.Counter? {
      SubsetSize(landed, releases);
    } else if landed != releases {
      var e :| e in releases && e !in landed;
      assert c.bit[e] in c.goalBits && c.bit[e] !in w.bits;
    } else {
      assert w.bits * c.goalBits == c.goalBits;
    }
  }

  lemma SubsetSize(a: set<nat>, b: set<nat>)
    requires a <= b
    ensures |a| <= |b| && (|a| == |b| <==> a == b)
  {
    assert b == a + (b - a);
    if |b - a| == 0 {
      assert b - a == {};
    }
  }

  lemma MaskWord(c: Cell, releases: set<nat>, landed: set<nat>, e: nat, mask: set<nat>)
    requires c.Mask? && Matches(c, releases) && landed <= releases && e in releases
    requires Sound(c, e, Or(mask), landed != {})
    ensures Bits(WordAfter(c, landed).bits + mask) == WordAfter(c, landed + {e})
  {
    assert BitsOf(c.bit, landed + {e}) == BitsOf(c.bit, landed) + {c.bit[e]};
    assert WordAfter(c, landed).bits + mask == {IN_DONE} + c.memBits + BitsOf(c.bit, landed + {e});
  }

  /** Landing turns the word for `landed` into the word for one more. */
  lemma LandingWord(c: Cell, releases: set<nat>, landed: set<nat>, e: nat, w: Word, pc: Pc)
    requires Matches(c, releases) && landed <= releases && e in releases && e !in landed
    requires w == WordAfter(c, landed) && Sound(c, e, pc, landed != {}) && pc != Start && !pc.Landed?
    ensures Typed(c, e, w, pc)
    ensures var (w', pc') := Step(c, e, w, pc);
      if pc'.Landed? then w' == WordAfter(c, landed + {e}) && pc'.fired == (landed + {e} == releases)
      else w' == w && pc' == Inc && landed != {}
  {
    var (w', pc') := Step(c, e, w, pc);
    if pc'.Landed? {
      if c.Mask? {
        MaskWord(c, releases, landed, e, pc.mask);
      }
      GoalReached(c, releases, landed + {e}, WordAfter(c, landed + {e}));
    }
  }

  lemma LandingFired(releases: set<nat>, pcs: seq<Pc>, e: nat, pc: Pc)
    requires (forall f <- releases :: f < |pcs|) && FiredInv(releases, pcs) && e in releases
    requires !pcs[e].Landed? && pc == Landed(LandedIn(releases, pcs) + {e} == releases)
    ensures LandedIn(releases, pcs[e := pc]) == LandedIn(releases, pcs) + {e}
    ensures FiredInv(releases, pcs[e := pc])
  {
    var next, landed := pcs[e := pc], LandedIn(releases, pcs);
    assert LandedIn(releases, next) == landed + {e};
    assert e in releases && e !in landed;
    if pc.fired {
      assert next[e] == Landed(true);
    }
  }

  lemma FlightFired(releases: set<nat>, pcs: seq<Pc>, e: nat, pc: Pc)
    requires (forall f <- releases :: f < |pcs|) && FiredInv(releases, pcs) && e in releases
    requires !pcs[e].Landed? && !pc.Landed?
    ensures LandedIn(releases, pcs[e := pc]) == LandedIn(releases, pcs)
    ensures FiredInv(releases, pcs[e := pc])
  {
    var next := pcs[e := pc];
    assert LandedIn(releases, next) == LandedIn(releases, pcs);
    assert e in releases && e !in LandedIn(releases, pcs);
  }

  lemma StillSound(c: Cell, releases: set<nat>, pcs: seq<Pc>, e: nat, pc: Pc, was: bool, now: bool)
    requires Matches(c, releases) && (forall f <- releases :: f < |pcs| && Sound(c, f, pcs[f], was))
    requires (was ==> now) && e in releases && Sound(c, e, pc, now)
    ensures forall f <- releases :: Sound(c, f, pcs[e := pc][f], now)
  {
  }

  lemma FlightKeepsCell(c: Cell, releases: set<nat>, w: Word, pcs: seq<Pc>, e: nat, pc: Pc)
    requires CellInv(c, releases, w, pcs) && e in releases && !pcs[e].Landed? && !pc.Landed?
    requires Sound(c, e, pc, LandedIn(releases, pcs) != {})
    ensures CellInv(c, releases, w, pcs[e := pc])
  {
    var any := LandedIn(releases, pcs) != {};
    FlightFired(releases, pcs, e, pc);
    StillSound(c, releases, pcs, e, pc, any, any);
  }

  lemma LandingKeepsCell(c: Cell, releases: set<nat>, w: Word, pcs: seq<Pc>, e: nat, w': Word, fired: bool)
    requires CellInv(c, releases, w, pcs) && e in releases && !pcs[e].Landed?
    requires w' == WordAfter(c, LandedIn(releases, pcs) + {e})
    requires fired == (LandedIn(releases, pcs) + {e} == releases)
    ensures CellInv(c, releases, w', pcs[e := Landed(fired)])
    ensures LandedIn(releases, pcs[e := Landed(fired)]) == LandedIn(releases, pcs) + {e}
  {
    LandingFired(releases, pcs, e, Landed(fired));
    StillSound(c, releases, pcs, e, Landed(fired), LandedIn(releases, pcs) != {}, true);
  }

  /** Every step of every release keeps the invariant; the release that completes the set, and only
      that one, fires. */
  lemma StepKeepsCell(c: Cell, releases: set<nat>, w: Word, pcs: seq<Pc>, e: nat)
    requires CellInv(c, releases, w, pcs) && e in releases
    ensures Typed(c, e, w, pcs[e])
    ensures var (w', pc') := Step(c, e, w, pcs[e]);
      && CellInv(c, releases, w', pcs[e := pc'])
      && (!pcs[e].Landed? ==>
            (pc' == Landed(true) <==> pc'.Landed? && LandedIn(releases, pcs[e := pc']) == releases))
  {
    WordTyped(c, releases, w, pcs, e);
    var (w', pc') := Step(c, e, w, pcs[e]);
    var landed := LandedIn(releases, pcs);
    if pcs[e].Landed? {
      assert pcs[e := pc'] == pcs;
    } else if pc'.Landed? {
      LandingWord(c, releases, landed, e, w, pcs[e]);
      LandingKeepsCell(c, releases, w, pcs, e, w', pc'.fired);
    } else {
      StartSound(c, releases, landed, e, w, pcs[e]);
      FlightKeepsCell(c, releases, w, pcs, e, pc');
    }
  }

  lemma StartSound(c: Cell, releases: set<nat>, landed: set<nat>, e: nat, w: Word, pc: Pc)
    requires Matches(c, releases) && landed <= releases && e in releases
    requires w == WordAfter(c, landed) && Sound(c, e, pc, landed != {}) && Typed(c, e, w, pc)
    requires !Step(c, e, w, pc).1.Landed?
    ensures Step(c, e, w, pc).0 == w && Sound(c, e, Step(c, e, w, pc).1, landed != {})
  {
  }

  /** Steps of releases of other tasks do not touch this cell. */
  lemma CellFrame(c: Cell, releases: set<nat>, w: Word, pcs: seq<Pc>, other: nat, pc: Pc)
    requires CellInv(c, releases, w, pcs) && other !in releases && other < |pcs|
    ensures CellInv(c, releases, w, pcs[other := pc])
  {
    var next := pcs[other := pc];
    assert forall e <- releases :: next[e] == pcs[e];
    assert LandedIn(releases, next) == LandedIn(releases, pcs);
  }

  // ------------------------------------------------------------------ runs over one task

  datatype State = State(w: Word, pcs: seq<Pc>)

  /** A run in which `schedule` names the release that takes each step, in any order. */
  function Run(c: Cell, n: nat, schedule: seq<nat>): (r: State)
    requires Legal(n, schedule) && forall e: nat :: e < n && c.Mask? ==> e in c.bit
    ensures |r.pcs| == n && (r.w.Num? <==> c.Counter?)
    ensures forall e :: 0 <= e < n ==> if c.Counter? then !r.pcs[e].Or? else !r.pcs[e].Cas? && !r.pcs[e].Inc?
  {
    if schedule == [] then State(Zero(c), seq(n, _ => Start))
    else
      var last := |schedule| - 1;
      var s, e := Run(c, n, schedule[..last]), schedule[last];
      var (w, pc) := Step(c, e, s.w, s.pcs[e]);
      State(w, s.pcs[e := pc])
  }

  function AllOf(n: nat): (all: set<nat>)
    ensures forall e: nat :: e in all <==> e < n
  {
    if n == 0 then {} else AllOf(n - 1) + {n - 1}
  }

  predicate Legal(n: nat, schedule: seq<nat>) {
    forall k :: 0 <= k < |schedule| ==> schedule[k] < n
  }

  predicate AllLanded(s: State) {
    forall e :: 0 <= e < |s.pcs| ==> s.pcs[e].Landed?
  }

  /** Some release found the task ready. */
  predicate Found(s: State) {
    exists e :: 0 <= e < |s.pcs| && s.pcs[e] == Landed(true)
  }

  /** Under every interleaving the task is found ready at most once, and it has been found ready if and
      only if all `n` releases are through. */
  lemma {:induction false} FiresExactlyOnce(c: Cell, n: nat, schedule: seq<nat>)
    requires 0 < n && Matches(c, AllOf(n)) && Legal(n, schedule)
    ensures var s := Run(c, n, schedule);
      && (forall e, f | 0 <= e < n && 0 <= f < n && s.pcs[e] == s.pcs[f] == Landed(true) :: e == f)
      && (Found(s) <==> AllLanded(s))
  {
    RunKeepsCell(c, n, schedule);
    FiredOnce(AllOf(n), n, Run(c, n, schedule));
  }

  lemma FiredOnce(all: set<nat>, n: nat, s: State)
    requires 0 < n == |s.pcs| && (forall e: nat :: e in all <==> e < n) && FiredInv(all, s.pcs)
    ensures forall e, f | 0 <= e < n && 0 <= f < n && s.pcs[e] == s.pcs[f] == Landed(true) :: e == f
    ensures Found(s) <==> AllLanded(s)
  {
    assert 0 in all;
    if AllLanded(s) {
      assert LandedIn(all, s.pcs) == all;
    } else {
      var e: nat :| e < n && !s.pcs[e].Landed?;
      assert e in all && e !in LandedIn(all, s.pcs);
    }
  }

  lemma {:induction false} RunKeepsCell(c: Cell, n: nat, schedule: seq<nat>)
    requires 0 < n && Matches(c, AllOf(n)) && Legal(n, schedule)
    ensures CellInv(c, AllOf(n), Run(c, n, schedule).w, Run(c, n, schedule).pcs)
  {
    if schedule == [] {
      InitialCell(c, AllOf(n), Run(c, n, schedule).pcs);
    } else {
      var last := |schedule| - 1;
      RunKeepsCell(c, n, schedule[..last]);
      var before := Run(c, n, schedule[..last]);
      StepKeepsCell(c, AllOf(n), before.w, before.pcs, schedule[last]);
    }
  }

  // ------------------------------------------------------------------ where the goal comes from

  /** One input dependency of a flow, at one point of the execution space: does its guard hold there,
      and does it read from memory rather than from a task? */
  datatype Dep = Dep(active: bool, memory: bool)

  /** A flow: its position among the flows of the task class gives its bit. */
  type Flow = seq<Dep>

  function MemoryDeps(f: Flow): nat {
    if f == [] then 0 else MemoryDeps(f[..|f| - 1]) + (if f[|f| - 1].active && f[|f| - 1].memory then 1 else 0)
  }

  function TaskDeps(f: Flow): nat {
    if f == [] then 0 else TaskDeps(f[..|f| - 1]) + (if f[|f| - 1].active && !f[|f| - 1].memory then 1 else 0)
  }

  function TotalMemoryDeps(flows: seq<Flow>): nat {
    if flows == [] then 0 else TotalMemoryDeps(flows[..|flows| - 1]) + MemoryDeps(flows[|flows| - 1])
  }

  function TotalTaskDeps(flows: seq<Flow>): nat {
    if flows == [] then 0 else TotalTaskDeps(flows[..|flows| - 1]) + TaskDeps(flows[|flows| - 1])
  }

  /** The dependencies that are active here and read from memory, or from a task. */
  function ActiveInputs(flows: seq<Flow>, memory: bool): (r: set<(nat, nat)>)
    ensures forall i: nat, j: nat ::
      (i, j) in r <==> i < |flows| && j < |flows[i]| && flows[i][j].active && flows[i][j].memory == memory
  {
    set i: nat, j: nat | i < |flows| && j < |flows[i]| && flows[i][j].active && flows[i][j].memory == memory :: (i, j)
  }

  /** The sums above are the sizes of these sets. */
  lemma {:induction false} TotalsAreInputs(flows: seq<Flow>)
    ensures TotalMemoryDeps(flows) == |ActiveInputs(flows, true)|
    ensures TotalTaskDeps(flows) == |ActiveInputs(flows, false)|
  {
    if flows != [] {
      var last := |flows| - 1;
      TotalsAreInputs(flows[..last]);
      InputsOfLast(flows, true);
      InputsOfLast(flows, false);
      DepsAre(flows[last]);
    }
  }

  /** The inputs of one flow. */
  function FlowInputs(f: Flow, memory: bool): set<nat> {
    set j: nat | j < |f| && f[j].active && f[j].memory == memory
  }

  lemma {:induction false} DepsAre(f: Flow)
    ensures MemoryDeps(f) == |FlowInputs(f, true)| && TaskDeps(f) == |FlowInputs(f, false)|
  {
    if f != [] {
      var last := |f| - 1;
      DepsAre(f[..last]);
      LastInput(f, true);
      LastInput(f, false);
    }
  }

  lemma LastInput(f: Flow, memory: bool)
    requires f != []
    ensures var last := |f| - 1;
      |FlowInputs(f, memory)| == |FlowInputs(f[..last], memory)| + (if f[last].active && f[last].memory == memory then 1 else 0)
  {
    var last := |f| - 1;
    var rest := f[..last];
    LastInputSet(f, rest, last, memory);
    if f[last].active && f[last].memory == memory {
      assert |FlowInputs(rest, memory) + {last}| == |FlowInputs(rest, memory)| + 1;
    }
  }

  lemma LastInputSet(f: Flow, rest: Flow, last: nat, memory: bool)
    requires |f| == last + 1 && rest == f[..last]
    ensures last !in FlowInputs(rest, memory)
    ensures FlowInputs(f, memory) == FlowInputs(rest, memory) + (if f[last].active && f[last].memory == memory then {last} else {})
  {
    forall j: nat
      ensures j in FlowInputs(f, memory) <==>
        j in FlowInputs(rest, memory) || (j == last && f[last].active && f[last].memory == memory)
    {
    }
  }

  /** The inputs of flow `i`, as pairs. */
  lemma PairedOnce(i: nat, js: set<nat>, pairs: set<(nat, nat)>)
    requires forall p: (nat, nat) :: p in pairs <==> p.0 == i && p.1 in js
    ensures |pairs| == |js|
  {
    if j :| j in js {
      assert (i, j) in pairs;
      PairedOnce(i, js - {j}, pairs - {(i, j)});
    } else {
      assert pairs == {};
    }
  }

  lemma InputsOfLast(flows: seq<Flow>, memory: bool)
    requires flows != []
    ensures var last := |flows| - 1;
      |ActiveInputs(flows, memory)| == |ActiveInputs(flows[..last], memory)| + |FlowInputs(flows[last], memory)|
  {
    var last := |flows| - 1;
    var before, own := ActiveInputs(flows[..last], memory), set p | p in ActiveInputs(flows, memory) && p.0 == last;
    PairedOnce(last, FlowInputs(flows[last], memory), own);
    InputsSplit(flows, flows[..last], last, memory, own);
  }

  lemma InputsSplit(flows: seq<Flow>, rest: seq<Flow>, last: nat, memory: bool, own: set<(nat, nat)>)
    requires |flows| == last + 1 && rest == flows[..last] && own == set p | p in ActiveInputs(flows, memory) && p.0 == last
    ensures |ActiveInputs(flows, memory)| == |ActiveInputs(rest, memory)| + |own|
  {
    forall p: (nat, nat)
      ensures p in ActiveInputs(flows, memory) <==> p in ActiveInputs(rest, memory) + own
    {
      assert p == (p.0, p.1);
    }
    assert ActiveInputs(rest, memory) !! own;
    assert ActiveInputs(flows, memory) == ActiveInputs(rest, memory) + own;
  }

  /** The compiler's flag: some dependency, active here or not, reads from memory. */
  predicate HasMemory(flows: seq<Flow>) {
    exists i, j :: 0 <= i < |flows| && 0 <= j < |flows[i]| && flows[i][j].memory
  }

  /** Flows with a memory dependency that is active here. */
  function MemoryBits(flows: seq<Flow>): set<nat> {
    set i: nat | i < |flows| && MemoryDeps(flows[i]) > 0
  }

  /** The number of active memory inputs, and the flows that have one. */
  ghost predicate Collected(flows: seq<Flow>, count: nat, mask: set<nat>) {
    && count == |ActiveInputs(flows, true)|
    && forall i: nat :: i in mask <==> exists j: nat :: (i, j) in ActiveInputs(flows, true)
  }

  lemma CollectedAre(flows: seq<Flow>)
    ensures Collected(flows, TotalMemoryDeps(flows), MemoryBits(flows))
  {
    TotalsAreInputs(flows);
    MemoryBitsAre(flows);
  }

  /** What the first release adds for the inputs read from memory, in both builds. */
  method CheckInDependencies(flows: seq<Flow>, hasMemory: bool) returns (count: nat, mask: set<nat>)
    requires hasMemory == HasMemory(flows)
    ensures count == TotalMemoryDeps(flows) && mask == MemoryBits(flows)
    ensures Collected(flows, count, mask)
  {
    count, mask := 0, {};
    if !hasMemory {
      NoMemory(flows);
      CollectedAre(flows);
      return;
    }
    for i := 0 to |flows|
      invariant count == TotalMemoryDeps(flows[..i]) && mask == MemoryBits(flows[..i])
    {
      var flow := flows[i];
      ghost var count0, mask0 := count, mask;
      for j := 0 to |flow|
        invariant count == count0 + MemoryDeps(flow[..j])
        invariant mask == mask0 + (if MemoryDeps(flow[..j]) > 0 then {i} else {})
      {
        assert flow[..j + 1][..j] == flow[..j];
        if !flow[j].active {
          continue;
        }
        if flow[j].memory {
          count, mask := count + 1, mask + {i};
        }
      }
      assert flow[..|flow|] == flow;
      assert flows[..i + 1][..i] == flows[..i];
    }
    assert flows[..|flows|] == flows;
    CollectedAre(flows);
  }

  /** A flow has its bit if and only if some dependency of it is active and reads from memory, and is fed
      by a task if and only if some active one is not read from memory. */
  lemma MemoryBitsAre(flows: seq<Flow>)
    ensures forall i: nat :: i in MemoryBits(flows) <==> exists j: nat :: (i, j) in ActiveInputs(flows, true)
    ensures forall i: nat :: i in TaskBits(flows) <==> exists j: nat :: (i, j) in ActiveInputs(flows, false)
  {
    forall i: nat | i < |flows|
      ensures i in MemoryBits(flows) <==> exists j: nat :: (i, j) in ActiveInputs(flows, true)
      ensures i in TaskBits(flows) <==> exists j: nat :: (i, j) in ActiveInputs(flows, false)
    {
      DepsAre(flows[i]);
      SomeInput(flows, i, true);
      SomeInput(flows, i, false);
    }
  }

  lemma SomeInput(flows: seq<Flow>, i: nat, memory: bool)
    requires i < |flows|
    ensures |FlowInputs(flows[i], memory)| > 0 <==> exists j: nat :: (i, j) in ActiveInputs(flows, memory)
  {
    var js := FlowInputs(flows[i], memory);
    if |js| > 0 {
      var j :| j in js;
      assert (i, j) in ActiveInputs(flows, memory);
    }
    if j: nat :| (i, j) in ActiveInputs(flows, memory) {
      assert j in js;
    }
  }

  lemma NoMemoryDeps(f: Flow)
    requires forall j :: 0 <= j < |f| ==> !f[j].memory
    ensures MemoryDeps(f) == 0
  {
  }

  lemma NoMemory(flows: seq<Flow>)
    requires !HasMemory(flows)
    ensures TotalMemoryDeps(flows) == 0 && MemoryBits(flows) == {}
  {
    forall i | 0 <= i < |flows|
      ensures MemoryDeps(flows[i]) == 0
    {
      NoMemoryDeps(flows[i]);
    }
    NoMemoryTotal(flows);
  }

  lemma NoMemoryTotal(flows: seq<Flow>)
    requires forall i :: 0 <= i < |flows| ==> MemoryDeps(flows[i]) == 0
    ensures TotalMemoryDeps(flows) == 0
  {
  }

  /** The compiler counts the flows that have any input dependency. */
  function InputFlows(flows: seq<Flow>): nat {
    if flows == [] then 0 else InputFlows(flows[..|flows| - 1]) + (if flows[|flows| - 1] == [] then 0 else 1)
  }

  /** The counter goal of the compiler is the number of memory inputs and releases of a task in which
      every flow with inputs has exactly one active dependency. */
  lemma {:induction false} CounterGoal(flows: seq<Flow>)
    requires forall i :: 0 <= i < |flows| && flows[i] != [] ==> MemoryDeps(flows[i]) + TaskDeps(flows[i]) == 1
    ensures InputFlows(flows) == TotalMemoryDeps(flows) + TotalTaskDeps(flows)
  {
    if flows != [] {
      CounterGoal(flows[..|flows| - 1]);
    }
  }

  /** The bits of the flows with inputs: what the releases and the memory inputs can set. */
  function InputBits(flows: seq<Flow>): set<nat> {
    set i: nat | i < |flows| && flows[i] != []
  }

  /** The compiler's mask goal: one bit per flow with inputs, numbered among those flows only. */
  method MaskGoal(flows: seq<Flow>) returns (inputmask: set<nat>)
    ensures inputmask == AllOf(InputFlows(flows))
  {
    var nbinput := 0;
    inputmask := {};
    for i := 0 to |flows|
      invariant nbinput == InputFlows(flows[..i]) && inputmask == AllOf(nbinput)
    {
      assert flows[..i + 1][..i] == flows[..i];
      if flows[i] != [] {
        inputmask := inputmask + {nbinput};
        nbinput := nbinput + 1;
      }
    }
    assert flows[..|flows|] == flows;
  }

  predicate InputsFirst(flows: seq<Flow>) {
    forall i, j :: 0 <= i < j < |flows| && flows[j] != [] ==> flows[i] != []
  }

  /** The goal is the union of the flow bits if and only if the flows with inputs come first in the task
      class. `MaskModeFindsReady` says what this means for a run. */
  lemma MaskGoalIffInputsFirst(flows: seq<Flow>)
    ensures AllOf(InputFlows(flows)) == InputBits(flows) <==> InputsFirst(flows)
  {
    if InputsFirst(flows) {
      InputsFirstThenGoal(flows);
    } else {
      var i: nat, j: nat :| i < j < |flows| && flows[j] != [] && flows[i] == [];
      assert j in InputBits(flows);
      assert i !in InputBits(flows);
    }
  }

  lemma InputsFirstThenGoal(flows: seq<Flow>)
    requires InputsFirst(flows)
    ensures AllOf(InputFlows(flows)) == InputBits(flows)
  {
    var n, bits := InputFlows(flows), InputBits(flows);
    InputBitsSize(flows);
    AllOfSize(n);
    forall i | i in bits
      ensures i in AllOf(n)
    {
      AllBelow(flows, i, bits);
    }
    SubsetSize(bits, AllOf(n));
  }

  lemma AllBelow(flows: seq<Flow>, i: nat, bits: set<nat>)
    requires InputsFirst(flows) && i in bits && bits == InputBits(flows)
    ensures i < |bits|
  {
    forall k | k in AllOf(i + 1)
      ensures k in bits
    {
      assert k == i || flows[k] != [];
    }
    AllOfSize(i + 1);
    SubsetSize(AllOf(i + 1), bits);
  }

  lemma AllOfSize(n: nat)
    ensures |AllOf(n)| == n
  {
  }

  lemma InputBitsLast(flows: seq<Flow>, last: nat)
    requires |flows| == last + 1
    ensures last !in InputBits(flows[..last])
    ensures InputBits(flows) == InputBits(flows[..last]) + (if flows[last] == [] then {} else {last})
  {
  }

  lemma {:induction false} InputBitsSize(flows: seq<Flow>)
    ensures |InputBits(flows)| == InputFlows(flows)
  {
    if flows != [] {
      InputBitsSize(flows[..|flows| - 1]);
      InputBitsLast(flows, |flows| - 1);
    }
  }

  // ------------------------------------------------------------------ what the goals mean for a run

  /** At a point of the execution space every flow with inputs has exactly one that is active. */
  predicate OneInput(flows: seq<Flow>) {
    forall i :: 0 <= i < |flows| && flows[i] != [] ==> MemoryDeps(flows[i]) + TaskDeps(flows[i]) == 1
  }

  function TaskBits(flows: seq<Flow>): set<nat> {
    set i: nat | i < |flows| && TaskDeps(flows[i]) > 0
  }

  /** Releases `0 .. n - 1` go one to each flow that a task feeds. */
  ghost predicate Feeds(flows: seq<Flow>, n: nat, bit: map<nat, nat>) {
    && (forall e: nat :: e < n ==> e in bit)
    && (forall e, f | 0 <= e < n && 0 <= f < n && bit[e] == bit[f] :: e == f)
    && (forall b: nat :: b in TaskBits(flows) <==> exists e :: 0 <= e < n && bit[e] == b)
  }

  /** The dependency word of a task, as the compiler and the flows set it up in the two builds. */
  function CounterCell(flows: seq<Flow>): Cell {
    Counter(InputFlows(flows), TotalMemoryDeps(flows))
  }

  function MaskCell(flows: seq<Flow>, bit: map<nat, nat>): Cell {
    Mask(AllOf(InputFlows(flows)), MemoryBits(flows), bit)
  }

  /** The build that counts: with as many releases as active task inputs the goal always matches. */
  lemma CounterCellMatches(flows: seq<Flow>, n: nat)
    requires OneInput(flows) && n == TotalTaskDeps(flows)
    ensures Matches(CounterCell(flows), AllOf(n))
  {
    CounterGoal(flows);
    AllOfSize(n);
  }

  /** ... and the task is found ready in a run exactly when all its releases are through. */
  lemma CounterModeFindsReady(flows: seq<Flow>, n: nat, schedule: seq<nat>)
    requires OneInput(flows) && 0 < n == TotalTaskDeps(flows) && Legal(n, schedule)
    ensures var s := Run(CounterCell(flows), n, schedule);
      Found(s) <==> AllLanded(s)
  {
    CounterCellMatches(flows, n);
    FiresExactlyOnce(CounterCell(flows), n, schedule);
  }

  lemma NoDepsAtAll(f: Flow)
    requires f == []
    ensures MemoryDeps(f) == 0 && TaskDeps(f) == 0
  {
  }

  lemma InputBitsSplit(flows: seq<Flow>)
    requires OneInput(flows)
    ensures InputBits(flows) == MemoryBits(flows) + TaskBits(flows) && MemoryBits(flows) !! TaskBits(flows)
  {
    forall i: nat | i < |flows|
      ensures flows[i] != [] <==> MemoryDeps(flows[i]) > 0 || TaskDeps(flows[i]) > 0
      ensures !(MemoryDeps(flows[i]) > 0 && TaskDeps(flows[i]) > 0)
    {
      if flows[i] == [] {
        NoDepsAtAll(flows[i]);
      }
    }
  }

  /** The default build: the goal matches if and only if the flows with inputs come first. */
  lemma MaskCellMatches(flows: seq<Flow>, n: nat, bit: map<nat, nat>)
    requires OneInput(flows) && Feeds(flows, n, bit) && |flows| <= IN_DONE
    ensures Matches(MaskCell(flows, bit), AllOf(n)) <==> InputsFirst(flows)
  {
    InputBitsSplit(flows);
    MaskGoalIffInputsFirst(flows);
    FedBits(flows, n, bit);
    forall e | e in AllOf(n)
      ensures bit[e] !in MemoryBits(flows) && bit[e] != IN_DONE
    {
      assert bit[e] in TaskBits(flows);
    }
  }

  lemma FedBits(flows: seq<Flow>, n: nat, bit: map<nat, nat>)
    requires Feeds(flows, n, bit)
    ensures BitsOf(bit, AllOf(n)) == TaskBits(flows)
  {
    forall b: nat
      ensures b in BitsOf(bit, AllOf(n)) <==> b in TaskBits(flows)
    {
      if b in TaskBits(flows) {
        var e: nat :| e < n && bit[e] == b;
        assert e in AllOf(n);
      }
    }
  }

  /** Every bit that any release can set is in `bits`. */
  predicate Confined(c: Cell, n: nat, bits: set<nat>) {
    c.Mask? && c.memBits <= bits && IN_DONE in bits && forall e: nat :: e < n ==> e in c.bit && c.bit[e] in bits
  }

  /** A word that never leaves `bits` never shows a goal that is not inside them. */
  lemma {:induction false} NeverFound(c: Cell, n: nat, schedule: seq<nat>, bits: set<nat>)
    requires Confined(c, n, bits) && !(c.goalBits <= bits) && Legal(n, schedule)
    ensures var s := Run(c, n, schedule);
      && s.w.bits <= bits
      && forall e :: 0 <= e < n ==> s.pcs[e] != Landed(true) && (s.pcs[e].Or? ==> s.pcs[e].mask <= bits)
  {
    if schedule != [] {
      var last := |schedule| - 1;
      NeverFound(c, n, schedule[..last], bits);
      var s, e := Run(c, n, schedule[..last]), schedule[last];
      StepConfined(c, n, e, s.w, s.pcs[e], bits);
    }
  }

  lemma StepConfined(c: Cell, n: nat, e: nat, w: Word, pc: Pc, bits: set<nat>)
    requires Confined(c, n, bits) && !(c.goalBits <= bits) && e < n && Typed(c, e, w, pc)
    requires w.bits <= bits && pc != Landed(true) && (pc.Or? ==> pc.mask <= bits)
    ensures var (w', pc') := Step(c, e, w, pc);
      w'.bits <= bits && pc' != Landed(true) && (pc'.Or? ==> pc'.mask <= bits)
  {
    var g :| g in c.goalBits && g !in bits;
    if pc.Or? {
      assert g !in (w.bits + pc.mask) * c.goalBits;
    }
  }

  /** In the default build a task is found ready in a run if and only if all its releases are through and
      the flows with inputs come first: with a flow without inputs before one with inputs it never is. */
  lemma MaskModeFindsReady(flows: seq<Flow>, n: nat, bit: map<nat, nat>, schedule: seq<nat>)
    requires OneInput(flows) && Feeds(flows, n, bit) && |flows| <= IN_DONE && 0 < n && Legal(n, schedule)
    ensures var s := Run(MaskCell(flows, bit), n, schedule);
      Found(s) <==> AllLanded(s) && InputsFirst(flows)
  {
    var c := MaskCell(flows, bit);
    if InputsFirst(flows) {
      MaskCellMatches(flows, n, bit);
      FiresExactlyOnce(c, n, schedule);
    } else {
      GoalOutside(flows);
      InputBitsSplit(flows);
      forall e: nat | e < n
        ensures bit[e] in InputBits(flows)
      {
        assert bit[e] in TaskBits(flows);
      }
      NeverFound(c, n, schedule, InputBits(flows) + {IN_DONE});
    }
  }

  lemma GoalOutside(flows: seq<Flow>)
    requires !InputsFirst(flows) && |flows| <= IN_DONE
    ensures !(AllOf(InputFlows(flows)) <= InputBits(flows) + {IN_DONE})
  {
    var goal, bits := AllOf(InputFlows(flows)), InputBits(flows);
    MaskGoalIffInputsFirst(flows);
    InputBitsSize(flows);
    AllOfSize(InputFlows(flows));
    FewInputFlows(flows);
    if goal <= bits {
      SubsetSize(goal, bits);
    }
  }

  lemma FewInputFlows(flows: seq<Flow>)
    ensures InputFlows(flows) <= |flows|
  {
  }

  /** A flow that is only written, before one that a task feeds: the release lands and finds nothing. */
  lemma WrittenFlowFirst(flows: seq<Flow>, bit: map<nat, nat>)
    requires flows == [[], [Dep(true, false)]] && bit == map[0 := 1]
    ensures OneInput(flows) && Feeds(flows, 1, bit) && !InputsFirst(flows)
    ensures var s := Run(MaskCell(flows, bit), 1, [0, 0]);
      AllLanded(s) && !Found(s)
    ensures forall schedule :: Legal(1, schedule) ==> !Found(Run(MaskCell(flows, bit), 1, schedule))
  {
    OneTaskDep(flows[1]);
    NoDepsAtAll(flows[0]);
    assert flows[0] == [] && flows[1] != [];
    assert bit[0] == 1;
    forall schedule | Legal(1, schedule)
      ensures !Found(Run(MaskCell(flows, bit), 1, schedule))
    {
      MaskModeFindsReady(flows, 1, bit, schedule);
    }
    assert Legal(1, [0, 0]);
    TwoSteps(MaskCell(flows, bit), [0, 0]);
  }

  lemma OneTaskDep(f: Flow)
    requires f == [Dep(true, false)]
    ensures MemoryDeps(f) == 0 && TaskDeps(f) == 1
  {
    assert f[..0] == [];
  }

  /** Two steps of a lone release in mask mode: it reads, then it lands. */
  lemma TwoSteps(c: Cell, schedule: seq<nat>)
    requires c.Mask? && 0 in c.bit && schedule == [0, 0]
    ensures AllLanded(Run(c, 1, schedule))
  {
    assert schedule[..1] == [0] && schedule[..1][..0] == [];
    var s0 := Run(c, 1, schedule[..1][..0]);
    var s1 := Run(c, 1, schedule[..1]);
    assert s1.pcs[0].Or?;
  }
}
