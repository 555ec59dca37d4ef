/** The whole runtime on one node: workers that pop tasks, decrement the number of tasks to do, run them
    and release their successors, over any finite acyclic task graph and under every interleaving.
    Dependency words step as in `ReleaseCell`, repository entries as in `DataRepo`. */
module Runtime {
  import opened Sums
  import opened DataRepo
  import opened ReleaseCell

  /** A dataflow edge: an output of task `src` that is an input of task `dst`. */
  datatype Edge = Edge(src: nat, dst: nat)

  /** Tasks `0 .. n - 1`, the dependency cell of each, and a rank that increases along every edge. */
  datatype Graph = Graph(n: nat, edges: seq<Edge>, cells: seq<Cell>, rank: seq<nat>)

  /** The inputs of `t` that come from tasks. */
  function In(g: Graph, t: nat): set<nat> {
    set e: nat | e < |g.edges| && g.edges[e].dst == t
  }

  function Out(g: Graph, t: nat): set<nat> {
    set e: nat | e < |g.edges| && g.edges[e].src == t
  }

  predicate WellFormed(g: Graph) {
    && |g.cells| == |g.rank| == g.n
    && (forall e :: 0 <= e < |g.edges| ==>
          g.edges[e].src < g.n && g.edges[e].dst < g.n && g.rank[g.edges[e].src] < g.rank[g.edges[e].dst])
    && (forall t :: 0 <= t < g.n ==> Matches(g.cells[t], In(g, t)))
  }

  /** The life of a task: in nobody's hands, in the ready list of the task that completed its inputs, in
      the queues, then held by a worker from the pop to the end of the releases. */
  datatype Stage =
    | Blocked
    | Listed(releaser: nat)
    | Queued
    | Popped(w: nat)
    | Started(w: nat)
    | Releasing(w: nat)
    | Limited(w: nat)
    | Scheduled(w: nat)
    | Done

  datatype Worker = Idle | Busy(task: nat) | Exited

  datatype Event = Began(t: nat) | Completed(t: nat)

  /** `usage` is the number of uses each releasing task has counted so far, `used` says which inputs have
      been given back, `log` remembers executions and `missed` failed repository operations. */
  datatype Node = Node(
    stage: seq<Stage>,
    workers: seq<Worker>,
    todo: int,
    pcs: seq<Pc>,
    words: seq<Word>,
    repo: seq<Option<Usage>>,
    usage: seq<nat>,
    used: seq<bool>,
    log: seq<Event>,
    missed: bool)

  function Initial(g: Graph, workers: nat): Node
    requires WellFormed(g)
  {
    Node(seq(g.n, t requires 0 <= t < g.n => if In(g, t) == {} then Queued else Blocked),
          seq(workers, _ => Idle),
          g.n,
          seq(|g.edges|, _ => Start),
          seq(g.n, t requires 0 <= t < g.n => Zero(g.cells[t])),
          seq(g.n, _ => None),
          seq(g.n, _ => 0),
          seq(|g.edges|, _ => false),
          [],
          false)
  }

  /** What a worker does next for the task it holds; `e` is the edge it works on. */
  datatype Action = Begin | Complete | Release(e: nat) | AddLimit | Schedule | UseInput(e: nat) | Retire

  datatype Move = Pop(w: nat, t: nat) | Exit(w: nat) | Work(w: nat, action: Action)

  predicate Shape(g: Graph, s: Node) {
    && |s.stage| == |s.words| == |s.repo| == |s.usage| == g.n
    && |s.pcs| == |s.used| == |g.edges|
  }

  predicate CanAct(g: Graph, s: Node, t: nat, action: Action)
    requires WellFormed(g) && Shape(g, s) && t < g.n
  {
    match action
    case Begin => s.stage[t].Popped?
    case Complete => s.stage[t].Started?
    case Release(e) =>
      && e in Out(g, t) && s.stage[t].Releasing? && !s.pcs[e].Landed?
      && Typed(g.cells[g.edges[e].dst], e, s.words[g.edges[e].dst], s.pcs[e])
    case AddLimit => s.stage[t].Releasing? && forall e <- Out(g, t) :: s.pcs[e].Landed?
    case Schedule => s.stage[t].Limited?
    case UseInput(e) => e in In(g, t) && s.stage[t].Scheduled? && !s.used[e]
    case Retire => s.stage[t].Scheduled? && forall e <- In(g, t) :: s.used[e]
  }

  predicate Enabled(g: Graph, s: Node, m: Move)
    requires WellFormed(g) && Shape(g, s)
  {
    && m.w < |s.workers|
    && match m
       case Pop(w, t) => s.workers[w].Idle? && t < g.n && s.stage[t].Queued?
       case Exit(w) => s.workers[w].Idle? && s.todo == 0
       case Work(w, action) => s.workers[w].Busy? && s.workers[w].task < g.n && CanAct(g, s, s.workers[w].task, action)
  }

  /** The tasks in the ready list of `t` enter the queues, and `t` moves on. */
  function PushList(stage: seq<Stage>, t: nat, w: nat): (r: seq<Stage>)
    requires t < |stage|
    ensures |r| == |stage|
  {
    seq(|stage|, i requires 0 <= i < |stage| =>
      if i == t then Scheduled(w) else if stage[i] == Listed(t) then Queued else stage[i])
  }

  function Acted(g: Graph, s: Node, w: nat, t: nat, action: Action): Node
    requires WellFormed(g) && Shape(g, s) && t < g.n && w < |s.workers| && CanAct(g, s, t, action)
  {
    match action
    case Begin =>
      s.(stage := s.stage[t := Started(w)], todo := s.todo - 1, log := s.log + [Began(t)],
         missed := s.missed || exists e <- In(g, t) :: s.repo[g.edges[e].src].None?)
    case Complete =>
      s.(stage := s.stage[t := Releasing(w)], log := s.log + [Completed(t)],
         repo := s.repo[t := Some(AfterCreate(s.repo[t]))])
    case Release(e) =>
      var d := g.edges[e].dst;
      var (word, pc) := Step(g.cells[d], e, s.words[d], s.pcs[e]);
      s.(usage := if s.pcs[e].Start? then s.usage[t := s.usage[t] + 1] else s.usage,
         pcs := s.pcs[e := pc],
         words := s.words[d := word],
         stage := if pc == Landed(true) then s.stage[d := Listed(t)] else s.stage)
    case AddLimit =>
      var missing := s.repo[t].None? || s.repo[t].value.retained == 0;
      s.(stage := s.stage[t := Limited(w)],
         missed := s.missed || missing,
         repo := if missing then s.repo else s.repo[t := AfterAddLimit(s.repo[t].value, s.usage[t])])
    case Schedule =>
      s.(stage := PushList(s.stage, t, w))
    case UseInput(e) =>
      var p := g.edges[e].src;
      var missing := s.repo[p].None?;
      s.(used := s.used[e := true],
         missed := s.missed || missing,
         repo := if missing then s.repo else s.repo[p := AfterUse(s.repo[p].value)])
    case Retire =>
      s.(stage := s.stage[t := Done], workers := s.workers[w := Idle])
  }

  function After(g: Graph, s: Node, m: Move): (r: Node)
    requires WellFormed(g) && Shape(g, s) && Enabled(g, s, m)
    ensures Shape(g, r) && |r.workers| == |s.workers|
  {
    match m
    case Pop(w, t) => s.(stage := s.stage[t := Popped(w)], workers := s.workers[w := Busy(t)])
    case Exit(w) => s.(workers := s.workers[w := Exited])
    case Work(w, action) => Acted(g, s, w, s.workers[w].task, action)
  }

  // ------------------------------------------------------------------ the invariant

  predicate Unstarted(st: Stage) {
    st.Blocked? || st.Listed? || st.Queued? || st.Popped?
  }

  function UnstartedOne(st: Stage): int {
    if Unstarted(st) then 1 else 0
  }

  /** The task is complete and has its repository entry. */
  predicate Delivered(st: Stage) {
    st.Releasing? || Announced(st)
  }

  /** All its outputs are released and announced. */
  predicate Announced(st: Stage) {
    st.Limited? || Consuming(st)
  }

  /** It may have given inputs back. */
  predicate Consuming(st: Stage) {
    st.Scheduled? || st.Done?
  }

  function Holder(st: Stage): Option<nat> {
    match st
    case Popped(w) => Some(w)
    case Started(w) => Some(w)
    case Releasing(w) => Some(w)
    case Limited(w) => Some(w)
    case Scheduled(w) => Some(w)
    case _ => None
  }

  predicate HolderAt(stage: seq<Stage>, workers: seq<Worker>, t: nat)
    requires t < |stage|
  {
    Holder(stage[t]).Some? ==> Holder(stage[t]).value < |workers| && workers[Holder(stage[t]).value] == Busy(t)
  }

  predicate BusyAt(stage: seq<Stage>, workers: seq<Worker>, w: nat)
    requires w < |workers|
  {
    workers[w].Busy? ==> workers[w].task < |stage| && Holder(stage[workers[w].task]) == Some(w)
  }

  /** A worker holds a task exactly when the task is in that worker's hands. */
  predicate Held(stage: seq<Stage>, workers: seq<Worker>) {
    && (forall t :: 0 <= t < |stage| ==> HolderAt(stage, workers, t))
    && (forall w :: 0 <= w < |workers| ==> BusyAt(stage, workers, w))
  }

  predicate CellAt(g: Graph, words: seq<Word>, pcs: seq<Pc>, t: nat)
    requires WellFormed(g) && |words| == g.n && t < g.n
  {
    CellInv(g.cells[t], In(g, t), words[t], pcs)
  }

  predicate CellsOk(g: Graph, words: seq<Word>, pcs: seq<Pc>)
    requires WellFormed(g) && |words| == g.n
  {
    forall t :: 0 <= t < g.n ==> CellAt(g, words, pcs, t)
  }

  /** What the stages of its two ends say about an edge. */
  predicate EdgeOk(src: Stage, dst: Stage, pc: Pc, used: bool) {
    && (!pc.Start? ==> Delivered(src))
    && (Announced(src) ==> pc.Landed?)
    && (used ==> Consuming(dst))
    && (dst.Done? ==> used)
  }

  predicate EdgeAt(g: Graph, stage: seq<Stage>, pcs: seq<Pc>, used: seq<bool>, e: nat)
    requires WellFormed(g) && |stage| == g.n && |pcs| == |used| == |g.edges| && e < |g.edges|
  {
    EdgeOk(stage[g.edges[e].src], stage[g.edges[e].dst], pcs[e], used[e])
  }

  predicate EdgesOk(g: Graph, stage: seq<Stage>, pcs: seq<Pc>, used: seq<bool>)
    requires WellFormed(g) && |stage| == g.n && |pcs| == |used| == |g.edges|
  {
    forall e :: 0 <= e < |g.edges| ==> EdgeAt(g, stage, pcs, used, e)
  }

  /** A task is blocked until its last input lands; it stays in a ready list while the list exists. */
  predicate ReadyAt(g: Graph, stage: seq<Stage>, pcs: seq<Pc>, t: nat)
    requires WellFormed(g) && |stage| == g.n && |pcs| == |g.edges| && t < g.n
  {
    && (stage[t].Blocked? <==> LandedIn(In(g, t), pcs) != In(g, t))
    && (stage[t].Listed? ==> stage[t].releaser < g.n && HasList(stage[stage[t].releaser]))
  }

  predicate HasList(st: Stage) {
    st.Releasing? || st.Limited?
  }

  predicate ReadyOk(g: Graph, stage: seq<Stage>, pcs: seq<Pc>)
    requires WellFormed(g) && |stage| == g.n && |pcs| == |g.edges|
  {
    forall t :: 0 <= t < g.n ==> ReadyAt(g, stage, pcs, t)
  }

  function CountedOut(g: Graph, t: nat, pcs: seq<Pc>): set<nat>
    requires |pcs| == |g.edges|
  {
    set e | e in Out(g, t) && !pcs[e].Start?
  }

  function UsedOut(g: Graph, t: nat, used: seq<bool>): set<nat>
    requires |used| == |g.edges|
  {
    set e | e in Out(g, t) && used[e]
  }

  /** The repository entry of a task: absent before it completes; while it releases, retained and with
      limit 0; then with its number of outputs as limit, until all of them have been used. */
  predicate EntryOk(st: Stage, entry: Option<Usage>, usage: nat, outs: set<nat>, counted: set<nat>, used: set<nat>) {
    if st.Releasing? then entry == Some(Usage(|used|, 0, 1)) && usage == |counted|
    else if Announced(st) then entry == if used == outs then None else Some(Usage(|used|, |outs|, 0))
    else entry == None && usage == 0 && counted == {} && used == {}
  }

  predicate RepoAt(g: Graph, stage: seq<Stage>, repo: seq<Option<Usage>>, usage: seq<nat>, pcs: seq<Pc>, used: seq<bool>,
                   t: nat)
    requires |stage| == |repo| == |usage| == g.n && |pcs| == |used| == |g.edges| && t < g.n
  {
    EntryOk(stage[t], repo[t], usage[t], Out(g, t), CountedOut(g, t, pcs), UsedOut(g, t, used))
  }

  predicate RepoOk(g: Graph, stage: seq<Stage>, repo: seq<Option<Usage>>, usage: seq<nat>, pcs: seq<Pc>, used: seq<bool>)
    requires |stage| == |repo| == |usage| == g.n && |pcs| == |used| == |g.edges|
  {
    forall t :: 0 <= t < g.n ==> RepoAt(g, stage, repo, usage, pcs, used, t)
  }

  predicate Distinct(log: seq<Event>) {
    forall i, j :: 0 <= i < j < |log| ==> log[i] != log[j]
  }

  /** Every task began after each of its predecessors had completed. */
  predicate Ordered(g: Graph, log: seq<Event>) {
    forall j, e :: 0 <= j < |log| && 0 <= e < |g.edges| && log[j] == Began(g.edges[e].dst) ==>
      Completed(g.edges[e].src) in log[..j]
  }

  predicate LogAt(stage: seq<Stage>, log: seq<Event>, t: nat)
    requires t < |stage|
  {
    (Began(t) in log <==> !Unstarted(stage[t])) && (Completed(t) in log <==> Delivered(stage[t]))
  }

  /** Each task begins and completes at most once, and begins after its predecessors completed. */
  predicate LogOk(g: Graph, stage: seq<Stage>, log: seq<Event>)
    requires |stage| == g.n
  {
    && Distinct(log) && Ordered(g, log)
    && (forall i :: 0 <= i < |log| ==> log[i].t < g.n)
    && (forall t :: 0 <= t < g.n ==> LogAt(stage, log, t))
  }

  predicate NobodyLeft(workers: seq<Worker>) {
    forall w :: 0 <= w < |workers| ==> !workers[w].Exited?
  }

  predicate Inv(g: Graph, s: Node)
    requires WellFormed(g)
  {
    && Shape(g, s)
    && Held(s.stage, s.workers)
    && CellsOk(g, s.words, s.pcs)
    && EdgesOk(g, s.stage, s.pcs, s.used)
    && ReadyOk(g, s.stage, s.pcs)
    && RepoOk(g, s.stage, s.repo, s.usage, s.pcs, s.used)
    && s.todo == Total(s.stage, UnstartedOne)
    && LogOk(g, s.stage, s.log)
    && !s.missed
    && (s.todo == 0 || NobodyLeft(s.workers))
  }

  // ------------------------------------------------------------------ what a change of one stage leaves alone

  /** What edges, ready lists and repository see of a stage. */
  predicate SamePhase(a: Stage, b: Stage) {
    && Delivered(a) == Delivered(b) && Announced(a) == Announced(b) && Consuming(a) == Consuming(b)
    && a.Done? == b.Done? && a.Releasing? == b.Releasing? && a.Blocked? == b.Blocked?
    && (b.Listed? ==> a == b) && HasList(a) == HasList(b)
  }

  lemma HeldAct(stage: seq<Stage>, workers: seq<Worker>, t: nat, st: Stage)
    requires Held(stage, workers) && t < |stage| && Holder(stage[t]) == Holder(st)
    ensures Held(stage[t := st], workers)
  {
    var stage' := stage[t := st];
    forall i | 0 <= i < |stage|
      ensures HolderAt(stage', workers, i)
    {
      assert HolderAt(stage, workers, i);
    }
    forall w | 0 <= w < |workers|
      ensures BusyAt(stage', workers, w)
    {
      assert BusyAt(stage, workers, w);
    }
  }

  /** The edges of `t` agree with its new stage. */
  predicate EdgesAgree(g: Graph, pcs: seq<Pc>, used: seq<bool>, t: nat, was: Stage, st: Stage)
    requires WellFormed(g) && |pcs| == |used| == |g.edges|
  {
    && (Delivered(was) ==> Delivered(st)) && (Consuming(was) ==> Consuming(st))
    && (Announced(st) && !Announced(was) ==> forall e <- Out(g, t) :: pcs[e].Landed?)
    && (st.Done? ==> forall e <- In(g, t) :: used[e])
  }

  lemma EdgesAct(g: Graph, stage: seq<Stage>, pcs: seq<Pc>, used: seq<bool>, t: nat, st: Stage)
    requires WellFormed(g) && |stage| == g.n && |pcs| == |used| == |g.edges| && EdgesOk(g, stage, pcs, used)
    requires t < g.n && EdgesAgree(g, pcs, used, t, stage[t], st)
    ensures EdgesOk(g, stage[t := st], pcs, used)
  {
    var stage' := stage[t := st];
    forall e | 0 <= e < |g.edges|
      ensures EdgeAt(g, stage', pcs, used, e)
    {
      assert EdgeAt(g, stage, pcs, used, e);
      assert g.edges[e].src == t ==> e in Out(g, t);
      assert g.edges[e].dst == t ==> e in In(g, t);
    }
  }

  lemma ReadyAct(g: Graph, stage: seq<Stage>, pcs: seq<Pc>, t: nat, st: Stage)
    requires WellFormed(g) && |stage| == g.n && |pcs| == |g.edges| && ReadyOk(g, stage, pcs) && t < g.n
    requires st.Blocked? == stage[t].Blocked? && (st.Listed? ==> st == stage[t]) && (HasList(stage[t]) ==> HasList(st))
    ensures ReadyOk(g, stage[t := st], pcs)
  {
    var stage' := stage[t := st];
    forall i | 0 <= i < g.n
      ensures ReadyAt(g, stage', pcs, i)
    {
      assert ReadyAt(g, stage, pcs, i);
    }
  }

  lemma RepoAct(g: Graph, stage: seq<Stage>, repo: seq<Option<Usage>>, usage: seq<nat>, pcs: seq<Pc>, used: seq<bool>,
                t: nat, st: Stage, entry: Option<Usage>)
    requires |stage| == |repo| == |usage| == g.n && |pcs| == |used| == |g.edges|
    requires RepoOk(g, stage, repo, usage, pcs, used) && t < g.n
    requires EntryOk(st, entry, usage[t], Out(g, t), CountedOut(g, t, pcs), UsedOut(g, t, used))
    ensures RepoOk(g, stage[t := st], repo[t := entry], usage, pcs, used)
  {
    var stage' := stage[t := st];
    var repo' := repo[t := entry];
    forall i | 0 <= i < g.n
      ensures RepoAt(g, stage', repo', usage, pcs, used, i)
    {
      assert RepoAt(g, stage, repo, usage, pcs, used, i);
    }
  }

  lemma LogAct(g: Graph, stage: seq<Stage>, log: seq<Event>, t: nat, st: Stage)
    requires |stage| == g.n && LogOk(g, stage, log) && t < g.n
    requires Unstarted(st) == Unstarted(stage[t]) && Delivered(st) == Delivered(stage[t])
    ensures LogOk(g, stage[t := st], log)
  {
    var stage' := stage[t := st];
    forall i | 0 <= i < g.n
      ensures LogAt(stage', log, i)
    {
      assert LogAt(stage, log, i);
    }
  }

  lemma SamePhaseAct(g: Graph, s: Node, t: nat, st: Stage)
    requires WellFormed(g) && Inv(g, s) && t < g.n && SamePhase(s.stage[t], st)
    ensures EdgesOk(g, s.stage[t := st], s.pcs, s.used) && ReadyOk(g, s.stage[t := st], s.pcs)
    ensures RepoOk(g, s.stage[t := st], s.repo, s.usage, s.pcs, s.used)
  {
    if st.Done? {
      assert forall e <- In(g, t) :: EdgeAt(g, s.stage, s.pcs, s.used, e);
    }
    EdgesAct(g, s.stage, s.pcs, s.used, t, st);
    ReadyAct(g, s.stage, s.pcs, t, st);
    assert RepoAt(g, s.stage, s.repo, s.usage, s.pcs, s.used, t);
    RepoAct(g, s.stage, s.repo, s.usage, s.pcs, s.used, t, st, s.repo[t]);
    assert s.repo[t := s.repo[t]] == s.repo;
  }

  lemma BookAct(g: Graph, s: Node, t: nat, st: Stage)
    requires WellFormed(g) && Inv(g, s) && t < g.n
    requires Unstarted(st) == Unstarted(s.stage[t]) && Delivered(st) == Delivered(s.stage[t])
    ensures Total(s.stage[t := st], UnstartedOne) == s.todo && LogOk(g, s.stage[t := st], s.log)
  {
    TotalUpdate(s.stage, t, st, UnstartedOne);
    LogAct(g, s.stage, s.log, t, st);
  }

  // ------------------------------------------------------------------ every move keeps the invariant

  // Pop and Exit

  lemma HeldPop(stage: seq<Stage>, workers: seq<Worker>, w: nat, t: nat)
    requires Held(stage, workers) && w < |workers| && workers[w].Idle? && t < |stage| && stage[t].Queued?
    ensures Held(stage[t := Popped(w)], workers[w := Busy(t)])
  {
    var stage' := stage[t := Popped(w)];
    var workers' := workers[w := Busy(t)];
    forall i | 0 <= i < |stage|
      ensures HolderAt(stage', workers', i)
    {
      assert HolderAt(stage, workers, i);
    }
    forall v | 0 <= v < |workers|
      ensures BusyAt(stage', workers', v)
    {
      assert BusyAt(stage, workers, v);
    }
  }

  /** Nobody has left while a task has not begun. */
  lemma NobodyExited(g: Graph, s: Node, t: nat)
    requires WellFormed(g) && Inv(g, s) && t < g.n && Unstarted(s.stage[t])
    ensures s.todo > 0 && NobodyLeft(s.workers)
  {
    TotalAtLeast(s.stage, t, UnstartedOne);
  }

  lemma PopKeepsInv(g: Graph, s: Node, w: nat, t: nat)
    requires WellFormed(g) && Inv(g, s) && Enabled(g, s, Pop(w, t))
    ensures Inv(g, After(g, s, Pop(w, t)))
  {
    NobodyExited(g, s, t);
    HeldPop(s.stage, s.workers, w, t);
    SamePhaseAct(g, s, t, Popped(w));
    BookAct(g, s, t, Popped(w));
  }

  lemma HeldExit(stage: seq<Stage>, workers: seq<Worker>, w: nat)
    requires Held(stage, workers) && w < |workers| && workers[w].Idle?
    ensures Held(stage, workers[w := Exited])
  {
    var workers' := workers[w := Exited];
    forall i | 0 <= i < |stage|
      ensures HolderAt(stage, workers', i)
    {
      assert HolderAt(stage, workers, i);
    }
    forall v | 0 <= v < |workers|
      ensures BusyAt(stage, workers', v)
    {
      assert BusyAt(stage, workers, v);
    }
  }

  lemma ExitKeepsInv(g: Graph, s: Node, w: nat)
    requires WellFormed(g) && Inv(g, s) && Enabled(g, s, Exit(w))
    ensures Inv(g, After(g, s, Exit(w)))
  {
    HeldExit(s.stage, s.workers, w);
  }

  // Begin and Complete

  /** An input that has landed and has not been given back is in the repository. */
  lemma InputPresent(g: Graph, s: Node, e: nat)
    requires WellFormed(g) && Inv(g, s) && e < |g.edges|
    requires s.pcs[e].Landed? && !s.used[e]
    ensures Delivered(s.stage[g.edges[e].src]) && s.repo[g.edges[e].src].Some?
  {
    var p := g.edges[e].src;
    assert EdgeAt(g, s.stage, s.pcs, s.used, e);
    assert RepoAt(g, s.stage, s.repo, s.usage, s.pcs, s.used, p);
    assert e in Out(g, p) && e !in UsedOut(g, p, s.used);
  }

  lemma InputsPresent(g: Graph, s: Node, t: nat)
    requires WellFormed(g) && Inv(g, s) && t < g.n && !s.stage[t].Blocked? && !Consuming(s.stage[t])
    ensures forall e <- In(g, t) :: s.repo[g.edges[e].src].Some? && Completed(g.edges[e].src) in s.log
  {
    assert ReadyAt(g, s.stage, s.pcs, t);
    forall e | e in In(g, t)
      ensures s.repo[g.edges[e].src].Some? && Completed(g.edges[e].src) in s.log
    {
      assert e in LandedIn(In(g, t), s.pcs);
      assert EdgeAt(g, s.stage, s.pcs, s.used, e);
      InputPresent(g, s, e);
      assert LogAt(s.stage, s.log, g.edges[e].src);
    }
  }

  lemma LogGrows(g: Graph, log: seq<Event>, ev: Event)
    requires Distinct(log) && Ordered(g, log) && ev !in log
    requires ev.Began? ==> forall e <- In(g, ev.t) :: Completed(g.edges[e].src) in log
    ensures Distinct(log + [ev]) && Ordered(g, log + [ev])
  {
    var log' := log + [ev];
    forall j, e | 0 <= j < |log'| && 0 <= e < |g.edges| && log'[j] == Began(g.edges[e].dst)
      ensures Completed(g.edges[e].src) in log'[..j]
    {
      assert log'[..j] == log[..j];
      if j == |log| {
        assert e in In(g, ev.t);
        assert log[..j] == log;
      }
    }
  }

  lemma LogMoves(g: Graph, stage: seq<Stage>, log: seq<Event>, t: nat, st: Stage, ev: Event)
    requires |stage| == g.n && LogOk(g, stage, log) && t < g.n
    requires if ev.Began? then Unstarted(stage[t]) && st.Started? else stage[t].Started? && st.Releasing?
    requires ev.t == t && (ev.Began? ==> forall e <- In(g, t) :: Completed(g.edges[e].src) in log)
    ensures LogOk(g, stage[t := st], log + [ev])
  {
    assert LogAt(stage, log, t);
    LogGrows(g, log, ev);
    var stage' := stage[t := st];
    forall i | 0 <= i < g.n
      ensures LogAt(stage', log + [ev], i)
    {
      assert LogAt(stage, log, i);
    }
  }

  lemma BeginKeepsInv(g: Graph, s: Node, w: nat)
    requires WellFormed(g) && Inv(g, s) && Enabled(g, s, Work(w, Begin))
    ensures Inv(g, After(g, s, Work(w, Begin)))
  {
    var t := s.workers[w].task;
    assert BusyAt(s.stage, s.workers, w);
    InputsPresent(g, s, t);
    NobodyExited(g, s, t);
    HeldAct(s.stage, s.workers, t, Started(w));
    SamePhaseAct(g, s, t, Started(w));
    LogMoves(g, s.stage, s.log, t, Started(w), Began(t));
    TotalUpdate(s.stage, t, Started(w), UnstartedOne);
  }

  lemma CompleteKeepsInv(g: Graph, s: Node, w: nat)
    requires WellFormed(g) && Inv(g, s) && Enabled(g, s, Work(w, Complete))
    ensures Inv(g, After(g, s, Work(w, Complete)))
  {
    var t := s.workers[w].task;
    assert BusyAt(s.stage, s.workers, w);
    assert RepoAt(g, s.stage, s.repo, s.usage, s.pcs, s.used, t);
    HeldAct(s.stage, s.workers, t, Releasing(w));
    EdgesAct(g, s.stage, s.pcs, s.used, t, Releasing(w));
    ReadyAct(g, s.stage, s.pcs, t, Releasing(w));
    RepoAct(g, s.stage, s.repo, s.usage, s.pcs, s.used, t, Releasing(w), Some(AfterCreate(s.repo[t])));
    LogMoves(g, s.stage, s.log, t, Releasing(w), Completed(t));
    TotalUpdate(s.stage, t, Releasing(w), UnstartedOne);
  }

  // Release

  lemma CellsRelease(g: Graph, words: seq<Word>, pcs: seq<Pc>, e: nat)
    requires WellFormed(g) && |words| == g.n && |pcs| == |g.edges| && CellsOk(g, words, pcs) && e < |g.edges|
    ensures var d := g.edges[e].dst;
      && Typed(g.cells[d], e, words[d], pcs[e])
      && var (word, pc) := Step(g.cells[d], e, words[d], pcs[e]);
         && !pc.Start?
         && CellsOk(g, words[d := word], pcs[e := pc])
         && (!pcs[e].Landed? ==>
               (pc == Landed(true) <==> pc.Landed? && LandedIn(In(g, d), pcs[e := pc]) == In(g, d)))
  {
    var d := g.edges[e].dst;
    assert CellAt(g, words, pcs, d) && e in In(g, d);
    StepKeepsCell(g.cells[d], In(g, d), words[d], pcs, e);
    var (word, pc) := Step(g.cells[d], e, words[d], pcs[e]);
    var words' := words[d := word];
    var pcs' := pcs[e := pc];
    forall t | 0 <= t < g.n
      ensures CellAt(g, words', pcs', t)
    {
      assert CellAt(g, words, pcs, t);
      if t != d {
        CellFrame(g.cells[t], In(g, t), words[t], pcs, e, pc);
      }
    }
  }

  lemma EdgesRelease(g: Graph, stage: seq<Stage>, pcs: seq<Pc>, used: seq<bool>, t: nat, e: nat, pc: Pc)
    requires WellFormed(g) && |stage| == g.n && |pcs| == |used| == |g.edges| && EdgesOk(g, stage, pcs, used)
    requires t < g.n && e in Out(g, t) && stage[t].Releasing?
    ensures EdgesOk(g, stage, pcs[e := pc], used)
  {
    var pcs' := pcs[e := pc];
    forall i | 0 <= i < |g.edges|
      ensures EdgeAt(g, stage, pcs', used, i)
    {
      assert EdgeAt(g, stage, pcs, used, i);
    }
  }

  lemma ReadyRelease(g: Graph, stage: seq<Stage>, pcs: seq<Pc>, t: nat, e: nat, pc: Pc)
    requires WellFormed(g) && |stage| == g.n && |pcs| == |g.edges| && ReadyOk(g, stage, pcs)
    requires t < g.n && e in Out(g, t) && stage[t].Releasing? && !pcs[e].Landed?
    requires var ins := In(g, g.edges[e].dst);
      pc == Landed(true) <==> pc.Landed? && LandedIn(ins, pcs[e := pc]) == ins
    ensures stage[g.edges[e].dst].Blocked?
    ensures ReadyOk(g, if pc == Landed(true) then stage[g.edges[e].dst := Listed(t)] else stage, pcs[e := pc])
  {
    var d := g.edges[e].dst;
    assert ReadyAt(g, stage, pcs, d);
    assert e in In(g, d) && e !in LandedIn(In(g, d), pcs);
    assert !pc.Landed? ==> e !in LandedIn(In(g, d), pcs[e := pc]);
    var stage' := if pc == Landed(true) then stage[d := Listed(t)] else stage;
    var pcs' := pcs[e := pc];
    forall i | 0 <= i < g.n
      ensures ReadyAt(g, stage', pcs', i)
    {
      assert ReadyAt(g, stage, pcs, i);
      if i != d {
        LandedElsewhere(g, pcs, e, pc, i);
      }
    }
  }

  lemma LandedElsewhere(g: Graph, pcs: seq<Pc>, e: nat, pc: Pc, t: nat)
    requires |pcs| == |g.edges| && e < |g.edges| && t != g.edges[e].dst
    ensures LandedIn(In(g, t), pcs[e := pc]) == LandedIn(In(g, t), pcs)
  {
  }

  lemma RepoRelease(g: Graph, stage: seq<Stage>, repo: seq<Option<Usage>>, usage: seq<nat>, pcs: seq<Pc>, used: seq<bool>,
                    t: nat, e: nat, pc: Pc, usage': seq<nat>)
    requires |stage| == |repo| == |usage| == g.n && |pcs| == |used| == |g.edges|
    requires RepoOk(g, stage, repo, usage, pcs, used) && t < g.n && e in Out(g, t) && stage[t].Releasing? && !pc.Start?
    requires usage' == if pcs[e].Start? then usage[t := usage[t] + 1] else usage
    ensures RepoOk(g, stage, repo, usage', pcs[e := pc], used)
  {
    var pcs' := pcs[e := pc];
    forall i | 0 <= i < g.n
      ensures RepoAt(g, stage, repo, usage', pcs', used, i)
    {
      assert RepoAt(g, stage, repo, usage, pcs, used, i);
      CountedRelease(g, pcs, e, pc, i);
    }
  }

  lemma CountedRelease(g: Graph, pcs: seq<Pc>, e: nat, pc: Pc, i: nat)
    requires |pcs| == |g.edges| && e < |g.edges| && !pc.Start?
    ensures CountedOut(g, i, pcs[e := pc]) ==
      CountedOut(g, i, pcs) + (if g.edges[e].src == i then {e} else {})
    ensures pcs[e].Start? ==> e !in CountedOut(g, i, pcs)
    ensures !pcs[e].Start? ==> CountedOut(g, i, pcs[e := pc]) == CountedOut(g, i, pcs)
  {
  }

  lemma ReleaseKeepsInv(g: Graph, s: Node, w: nat, e: nat)
    requires WellFormed(g) && Inv(g, s) && Enabled(g, s, Work(w, Release(e)))
    ensures Inv(g, After(g, s, Work(w, Release(e))))
  {
    var t, d := s.workers[w].task, g.edges[e].dst;
    var (word, pc) := Step(g.cells[d], e, s.words[d], s.pcs[e]);
    var usage := if s.pcs[e].Start? then s.usage[t := s.usage[t] + 1] else s.usage;
    CellsRelease(g, s.words, s.pcs, e);
    EdgesRelease(g, s.stage, s.pcs, s.used, t, e, pc);
    ReadyRelease(g, s.stage, s.pcs, t, e, pc);
    RepoRelease(g, s.stage, s.repo, s.usage, s.pcs, s.used, t, e, pc, usage);
    if pc == Landed(true) {
      HeldAct(s.stage, s.workers, d, Listed(t));
      EdgesAct(g, s.stage, s.pcs[e := pc], s.used, d, Listed(t));
      assert RepoAt(g, s.stage, s.repo, usage, s.pcs[e := pc], s.used, d);
      RepoAct(g, s.stage, s.repo, usage, s.pcs[e := pc], s.used, d, Listed(t), s.repo[d]);
      assert s.repo[d := s.repo[d]] == s.repo;
      BookAct(g, s, d, Listed(t));
    }
  }

  // AddLimit

  lemma EntryAnnounced(w: nat, usage: nat, outs: set<nat>, counted: set<nat>, used: set<nat>)
    requires counted == outs && used <= outs && usage == |counted|
    ensures EntryOk(Limited(w), AfterAddLimit(Usage(|used|, 0, 1), usage), usage, outs, counted, used)
  {
    SubsetSize(used, outs);
  }

  lemma AddLimitKeepsInv(g: Graph, s: Node, w: nat)
    requires WellFormed(g) && Inv(g, s) && Enabled(g, s, Work(w, AddLimit))
    ensures Inv(g, After(g, s, Work(w, AddLimit)))
  {
    var t := s.workers[w].task;
    assert BusyAt(s.stage, s.workers, w);
    assert RepoAt(g, s.stage, s.repo, s.usage, s.pcs, s.used, t);
    assert CountedOut(g, t, s.pcs) == Out(g, t);
    EntryAnnounced(w, s.usage[t], Out(g, t), CountedOut(g, t, s.pcs), UsedOut(g, t, s.used));
    HeldAct(s.stage, s.workers, t, Limited(w));
    EdgesAct(g, s.stage, s.pcs, s.used, t, Limited(w));
    ReadyAct(g, s.stage, s.pcs, t, Limited(w));
    RepoAct(g, s.stage, s.repo, s.usage, s.pcs, s.used, t, Limited(w), AfterAddLimit(s.repo[t].value, s.usage[t]));
    BookAct(g, s, t, Limited(w));
  }

  // Schedule

  /** Each stage is as before, or a listed task that entered the queues, or the releaser moving on. */
  predicate Pushed(a: Stage, b: Stage, t: nat, i: nat, w: nat) {
    if i == t then a == Limited(w) && b == Scheduled(w)
    else if a == Listed(t) then b == Queued
    else b == a
  }

  predicate PushedAll(stage: seq<Stage>, stage': seq<Stage>, t: nat, w: nat) {
    |stage| == |stage'| && t < |stage| && forall i :: 0 <= i < |stage| ==> Pushed(stage[i], stage'[i], t, i, w)
  }

  lemma HeldPush(stage: seq<Stage>, stage': seq<Stage>, workers: seq<Worker>, t: nat, w: nat)
    requires Held(stage, workers) && PushedAll(stage, stage', t, w)
    ensures Held(stage', workers)
  {
    forall i | 0 <= i < |stage'|
      ensures HolderAt(stage', workers, i)
    {
      assert HolderAt(stage, workers, i) && Pushed(stage[i], stage'[i], t, i, w);
    }
    forall v | 0 <= v < |workers|
      ensures BusyAt(stage', workers, v)
    {
      assert BusyAt(stage, workers, v);
      if workers[v].Busy? {
        assert Pushed(stage[workers[v].task], stage'[workers[v].task], t, workers[v].task, w);
      }
    }
  }

  lemma EdgesPush(g: Graph, stage: seq<Stage>, stage': seq<Stage>, pcs: seq<Pc>, used: seq<bool>, t: nat, w: nat)
    requires WellFormed(g) && |stage| == g.n && |pcs| == |used| == |g.edges| && EdgesOk(g, stage, pcs, used)
    requires PushedAll(stage, stage', t, w)
    ensures EdgesOk(g, stage', pcs, used)
  {
    forall e | 0 <= e < |g.edges|
      ensures EdgeAt(g, stage', pcs, used, e)
    {
      var p, d := g.edges[e].src, g.edges[e].dst;
      assert EdgeAt(g, stage, pcs, used, e);
      assert Pushed(stage[p], stage'[p], t, p, w) && Pushed(stage[d], stage'[d], t, d, w);
    }
  }

  lemma ReadyPush(g: Graph, stage: seq<Stage>, stage': seq<Stage>, pcs: seq<Pc>, t: nat, w: nat)
    requires WellFormed(g) && |stage| == g.n && |pcs| == |g.edges| && ReadyOk(g, stage, pcs)
    requires PushedAll(stage, stage', t, w)
    ensures ReadyOk(g, stage', pcs)
  {
    forall i | 0 <= i < g.n
      ensures ReadyAt(g, stage', pcs, i)
    {
      assert ReadyAt(g, stage, pcs, i) && Pushed(stage[i], stage'[i], t, i, w);
      if stage'[i].Listed? {
        var r := stage[i].releaser;
        assert Pushed(stage[r], stage'[r], t, r, w);
      }
    }
  }

  lemma BooksPush(g: Graph, s: Node, stage': seq<Stage>, t: nat, w: nat)
    requires WellFormed(g) && Inv(g, s) && PushedAll(s.stage, stage', t, w)
    ensures RepoOk(g, stage', s.repo, s.usage, s.pcs, s.used) && LogOk(g, stage', s.log)
    ensures Total(stage', UnstartedOne) == s.todo
  {
    forall i | 0 <= i < g.n
      ensures RepoAt(g, stage', s.repo, s.usage, s.pcs, s.used, i) && LogAt(stage', s.log, i)
    {
      assert RepoAt(g, s.stage, s.repo, s.usage, s.pcs, s.used, i) && LogAt(s.stage, s.log, i);
      assert Pushed(s.stage[i], stage'[i], t, i, w);
    }
    TotalSame(s.stage, stage', UnstartedOne);
  }

  lemma ScheduleKeepsInv(g: Graph, s: Node, w: nat)
    requires WellFormed(g) && Inv(g, s) && Enabled(g, s, Work(w, Schedule))
    ensures Inv(g, After(g, s, Work(w, Schedule)))
  {
    var t := s.workers[w].task;
    var stage' := PushList(s.stage, t, w);
    assert BusyAt(s.stage, s.workers, w);
    assert PushedAll(s.stage, stage', t, w);
    HeldPush(s.stage, stage', s.workers, t, w);
    EdgesPush(g, s.stage, stage', s.pcs, s.used, t, w);
    ReadyPush(g, s.stage, stage', s.pcs, t, w);
    BooksPush(g, s, stage', t, w);
  }

  // UseInput and Retire

  lemma EdgesUse(g: Graph, stage: seq<Stage>, pcs: seq<Pc>, used: seq<bool>, t: nat, e: nat)
    requires WellFormed(g) && |stage| == g.n && |pcs| == |used| == |g.edges| && EdgesOk(g, stage, pcs, used)
    requires t < g.n && e in In(g, t) && stage[t].Scheduled?
    ensures EdgesOk(g, stage, pcs, used[e := true])
  {
    var used' := used[e := true];
    forall i | 0 <= i < |g.edges|
      ensures EdgeAt(g, stage, pcs, used', i)
    {
      assert EdgeAt(g, stage, pcs, used, i);
    }
  }

  lemma EntryUsed(st: Stage, u: Usage, usage: nat, outs: set<nat>, counted: set<nat>, used: set<nat>, e: nat)
    requires EntryOk(st, Some(u), usage, outs, counted, used) && e in outs && e !in used && used <= outs
    ensures EntryOk(st, AfterUse(u), usage, outs, counted, used + {e})
  {
    SubsetSize(used + {e}, outs);
  }

  lemma UsedElsewhere(g: Graph, used: seq<bool>, e: nat, i: nat)
    requires |used| == |g.edges| && e < |g.edges|
    ensures UsedOut(g, i, used[e := true]) == UsedOut(g, i, used) + (if g.edges[e].src == i then {e} else {})
  {
  }

  lemma RepoUse(g: Graph, stage: seq<Stage>, repo: seq<Option<Usage>>, usage: seq<nat>, pcs: seq<Pc>, used: seq<bool>, e: nat)
    requires WellFormed(g) && |stage| == |repo| == |usage| == g.n && |pcs| == |used| == |g.edges|
    requires RepoOk(g, stage, repo, usage, pcs, used) && e < |g.edges| && !used[e] && repo[g.edges[e].src].Some?
    ensures var p := g.edges[e].src;
      RepoOk(g, stage, repo[p := AfterUse(repo[p].value)], usage, pcs, used[e := true])
  {
    var p, used' := g.edges[e].src, used[e := true];
    var repo' := repo[p := AfterUse(repo[p].value)];
    forall i | 0 <= i < g.n
      ensures RepoAt(g, stage, repo', usage, pcs, used', i)
    {
      assert RepoAt(g, stage, repo, usage, pcs, used, i);
      UsedElsewhere(g, used, e, i);
      if i == p {
        assert e in Out(g, p) && e !in UsedOut(g, p, used);
        EntryUsed(stage[p], repo[p].value, usage[p], Out(g, p), CountedOut(g, p, pcs), UsedOut(g, p, used), e);
      }
    }
  }

  lemma UseInputKeepsInv(g: Graph, s: Node, w: nat, e: nat)
    requires WellFormed(g) && Inv(g, s) && Enabled(g, s, Work(w, UseInput(e)))
    ensures Inv(g, After(g, s, Work(w, UseInput(e))))
  {
    var t := s.workers[w].task;
    assert ReadyAt(g, s.stage, s.pcs, t);
    assert e in LandedIn(In(g, t), s.pcs);
    InputPresent(g, s, e);
    EdgesUse(g, s.stage, s.pcs, s.used, t, e);
    RepoUse(g, s.stage, s.repo, s.usage, s.pcs, s.used, e);
  }

  lemma HeldRetire(stage: seq<Stage>, workers: seq<Worker>, w: nat, t: nat)
    requires Held(stage, workers) && w < |workers| && workers[w] == Busy(t) && t < |stage|
    ensures Held(stage[t := Done], workers[w := Idle])
  {
    var stage', workers' := stage[t := Done], workers[w := Idle];
    assert BusyAt(stage, workers, w);
    forall i | 0 <= i < |stage|
      ensures HolderAt(stage', workers', i)
    {
      assert HolderAt(stage, workers, i);
    }
    forall v | 0 <= v < |workers|
      ensures BusyAt(stage', workers', v)
    {
      assert BusyAt(stage, workers, v);
    }
  }

  lemma RetireKeepsInv(g: Graph, s: Node, w: nat)
    requires WellFormed(g) && Inv(g, s) && Enabled(g, s, Work(w, Retire))
    ensures Inv(g, After(g, s, Work(w, Retire)))
  {
    var t := s.workers[w].task;
    assert RepoAt(g, s.stage, s.repo, s.usage, s.pcs, s.used, t);
    HeldRetire(s.stage, s.workers, w, t);
    EdgesAct(g, s.stage, s.pcs, s.used, t, Done);
    ReadyAct(g, s.stage, s.pcs, t, Done);
    RepoAct(g, s.stage, s.repo, s.usage, s.pcs, s.used, t, Done, s.repo[t]);
    assert s.repo[t := s.repo[t]] == s.repo;
    BookAct(g, s, t, Done);
  }

  /** No move of any worker breaks the invariant. */
  lemma MoveKeepsInv(g: Graph, s: Node, m: Move)
    requires WellFormed(g) && Inv(g, s) && Enabled(g, s, m)
    ensures Inv(g, After(g, s, m))
  {
    match m
    case Pop(w, t) => PopKeepsInv(g, s, w, t);
    case Exit(w) => ExitKeepsInv(g, s, w);
    case Work(w, action) =>
      match action
      case Begin => BeginKeepsInv(g, s, w);
      case Complete => CompleteKeepsInv(g, s, w);
      case Release(e) => ReleaseKeepsInv(g, s, w, e);
      case AddLimit => AddLimitKeepsInv(g, s, w);
      case Schedule => ScheduleKeepsInv(g, s, w);
      case UseInput(e) => UseInputKeepsInv(g, s, w, e);
      case Retire => RetireKeepsInv(g, s, w);
  }

  lemma InitialInv(g: Graph, workers: nat)
    requires WellFormed(g)
    ensures Inv(g, Initial(g, workers))
  {
    var s := Initial(g, workers);
    forall t | 0 <= t < g.n
      ensures HolderAt(s.stage, s.workers, t) && CellAt(g, s.words, s.pcs, t) && ReadyAt(g, s.stage, s.pcs, t)
      ensures RepoAt(g, s.stage, s.repo, s.usage, s.pcs, s.used, t) && LogAt(s.stage, s.log, t)
    {
      InitialCell(g.cells[t], In(g, t), s.pcs);
      assert LandedIn(In(g, t), s.pcs) == {};
      assert CountedOut(g, t, s.pcs) == {} && UsedOut(g, t, s.used) == {};
    }
    assert forall e :: 0 <= e < |g.edges| ==> EdgeAt(g, s.stage, s.pcs, s.used, e);
    assert forall w :: 0 <= w < workers ==> BusyAt(s.stage, s.workers, w);
    TotalConstant(s.stage, UnstartedOne, 1);
  }

  // ------------------------------------------------------------------ runs

  predicate Legal(g: Graph, s: Node, run: seq<Move>)
    requires WellFormed(g) && Shape(g, s)
    decreases |run|
  {
    run == [] || (Enabled(g, s, run[0]) && Legal(g, After(g, s, run[0]), run[1..]))
  }

  function AfterAll(g: Graph, s: Node, run: seq<Move>): (r: Node)
    requires WellFormed(g) && Shape(g, s) && Legal(g, s, run)
    ensures Shape(g, r) && |r.workers| == |s.workers|
    decreases |run|
  {
    if run == [] then s else AfterAll(g, After(g, s, run[0]), run[1..])
  }

  lemma {:induction false} RunKeepsInv(g: Graph, s: Node, run: seq<Move>)
    requires WellFormed(g) && Inv(g, s) && Legal(g, s, run)
    ensures Inv(g, AfterAll(g, s, run))
    decreases |run|
  {
    if run != [] {
      MoveKeepsInv(g, s, run[0]);
      RunKeepsInv(g, After(g, s, run[0]), run[1..]);
    }
  }

  /** In every run the counter, decremented before execution, is the number of tasks that have not begun;
      no task begins or completes twice; none begins before its predecessors completed; and no
      repository operation misses its entry. */
  lemma ExecutionIsSafe(g: Graph, workers: nat, run: seq<Move>)
    requires WellFormed(g) && Legal(g, Initial(g, workers), run)
    ensures var s := AfterAll(g, Initial(g, workers), run);
      && s.todo == Total(s.stage, UnstartedOne)
      && (forall t :: 0 <= t < g.n ==> (Began(t) in s.log <==> !Unstarted(s.stage[t])))
      && Distinct(s.log) && Ordered(g, s.log)
      && !s.missed
  {
    InitialInv(g, workers);
    RunKeepsInv(g, Initial(g, workers), run);
    var s := AfterAll(g, Initial(g, workers), run);
    forall t | 0 <= t < g.n
      ensures Began(t) in s.log <==> !Unstarted(s.stage[t])
    {
      assert LogAt(s.stage, s.log, t);
    }
  }

  /** The repository has what an operation needs: the inputs of a task that begins, the entry of a task that
      counts a use or announces its uses, retained, and the entry of an input that is given back. */
  predicate FindsEntries(g: Graph, s: Node, t: nat, action: Action)
    requires WellFormed(g) && Shape(g, s) && t < g.n && CanAct(g, s, t, action)
  {
    match action
    case Begin => forall e <- In(g, t) :: s.repo[g.edges[e].src].Some?
    case Complete => s.repo[t].None?
    case Release(_) => s.repo[t].Some? && s.repo[t].value.retained > 0
    case AddLimit => s.repo[t].Some? && s.repo[t].value.retained > 0
    case UseInput(e) => s.repo[g.edges[e].src].Some?
    case _ => true
  }

  /** `missed` tells the truth, in any state: an operation that does not find its entries is recorded. */
  lemma MissesAreRecorded(g: Graph, s: Node, w: nat, action: Action)
    requires WellFormed(g) && Shape(g, s) && Enabled(g, s, Work(w, action))
    ensures var needs := action.Begin? || action.AddLimit? || action.UseInput?;
      After(g, s, Work(w, action)).missed == (s.missed || (needs && !FindsEntries(g, s, s.workers[w].task, action)))
  {
  }

  /** In every run, whatever a worker can do next finds the entries it needs. */
  lemma OperationsFindEntries(g: Graph, workers: nat, run: seq<Move>, w: nat, action: Action)
    requires WellFormed(g) && Legal(g, Initial(g, workers), run)
    requires Enabled(g, AfterAll(g, Initial(g, workers), run), Work(w, action))
    ensures var s := AfterAll(g, Initial(g, workers), run);
      FindsEntries(g, s, s.workers[w].task, action)
  {
    InitialInv(g, workers);
    RunKeepsInv(g, Initial(g, workers), run);
    var s := AfterAll(g, Initial(g, workers), run);
    var t := s.workers[w].task;
    assert RepoAt(g, s.stage, s.repo, s.usage, s.pcs, s.used, t);
    match action
    case Begin => InputsPresent(g, s, t);
    case UseInput(e) =>
      assert EdgeAt(g, s.stage, s.pcs, s.used, e) && ReadyAt(g, s.stage, s.pcs, t);
      assert e in LandedIn(In(g, t), s.pcs);
      InputPresent(g, s, e);
    case _ =>
  }

  /** From one stage to the next: by which move, and whose. */
  predicate NextStage(g: Graph, s: Node, m: Move, t: nat, after: Stage)
    requires WellFormed(g) && Shape(g, s) && Enabled(g, s, m) && t < g.n
  {
    match s.stage[t]
    case Blocked =>
      && m.Work? && m.action.Release? && m.action.e in In(g, t)
      && s.workers[m.w] == Busy(g.edges[m.action.e].src) && after == Listed(g.edges[m.action.e].src)
    case Listed(r) => m == Work(m.w, Schedule) && s.workers[m.w] == Busy(r) && after == Queued
    case Queued => m == Pop(m.w, t) && after == Popped(m.w)
    case Popped(w) => m == Work(w, Begin) && after == Started(w)
    case Started(w) => m == Work(w, Complete) && after == Releasing(w)
    case Releasing(w) => m == Work(w, AddLimit) && after == Limited(w)
    case Limited(w) => m == Work(w, Schedule) && after == Scheduled(w)
    case Scheduled(w) => m == Work(w, Retire) && after == Done
    case Done => false
  }

  /** A task goes through all its stages in their order and in the hands of one worker: it is listed by the
      task whose release completes its inputs, and enters the queues with the whole list of that task. */
  lemma LifeOfATask(g: Graph, s: Node, m: Move, t: nat)
    requires WellFormed(g) && Inv(g, s) && Enabled(g, s, m) && t < g.n
    ensures var after := After(g, s, m).stage[t];
      && (after == s.stage[t] || NextStage(g, s, m, t, after))
      && (m.Work? && m.action.Schedule? && s.stage[t].Listed? && s.workers[m.w] == Busy(s.stage[t].releaser) ==> after == Queued)
      && (s.stage[t].Blocked? && after != s.stage[t] ==> LandedIn(In(g, t), After(g, s, m).pcs) == In(g, t))
  {
    if m.Work? {
      assert BusyAt(s.stage, s.workers, m.w);
      if m.action.Release? {
        ReleaseLife(g, s, m.w, m.action.e, t);
      }
    }
  }

  lemma ReleaseLife(g: Graph, s: Node, w: nat, e: nat, t: nat)
    requires WellFormed(g) && Inv(g, s) && Enabled(g, s, Work(w, Release(e))) && t < g.n
    ensures var after := After(g, s, Work(w, Release(e))).stage[t];
      && (after == s.stage[t] || NextStage(g, s, Work(w, Release(e)), t, after))
      && (after != s.stage[t] ==> LandedIn(In(g, t), After(g, s, Work(w, Release(e))).pcs) == In(g, t))
  {
    var d := g.edges[e].dst;
    assert CellAt(g, s.words, s.pcs, d) && ReadyAt(g, s.stage, s.pcs, d);
    assert e in In(g, d) && e !in LandedIn(In(g, d), s.pcs);
    StepKeepsCell(g.cells[d], In(g, d), s.words[d], s.pcs, e);
  }

  /** From a task that has not begun, a task in the queues or in a worker's hands is found upstream. */
  lemma FindWork(g: Graph, s: Node, t: nat) returns (p: nat)
    requires WellFormed(g) && Inv(g, s) && t < g.n && !s.stage[t].Done?
    ensures p < g.n && (s.stage[p].Queued? || Holder(s.stage[p]).Some?)
    decreases g.rank[t]
  {
    assert ReadyAt(g, s.stage, s.pcs, t);
    match s.stage[t]
    case Blocked =>
      var e :| e in In(g, t) && !s.pcs[e].Landed?;
      assert EdgeAt(g, s.stage, s.pcs, s.used, e);
      p := FindWork(g, s, g.edges[e].src);
    case Listed(r) => p := r;
    case _ => p := t;
  }

  /** While tasks remain to do, one is in the queues or some worker is busy. */
  lemma WorkIsNeverLost(g: Graph, workers: nat, run: seq<Move>)
    requires WellFormed(g) && Legal(g, Initial(g, workers), run)
    ensures var s := AfterAll(g, Initial(g, workers), run);
      s.todo > 0 ==>
        || (exists t :: 0 <= t < g.n && s.stage[t].Queued?)
        || (exists w :: 0 <= w < |s.workers| && s.workers[w].Busy?)
  {
    InitialInv(g, workers);
    RunKeepsInv(g, Initial(g, workers), run);
    var s := AfterAll(g, Initial(g, workers), run);
    if s.todo > 0 {
      var t := TotalWitness(s.stage, UnstartedOne);
      var p := FindWork(g, s, t);
      assert HolderAt(s.stage, s.workers, p);
    }
  }

  /** The closing barrier is reached by all workers only when every task has run, exactly once, to its
      end, and every repository entry has been collected. */
  lemma ClosingBarrier(g: Graph, workers: nat, run: seq<Move>)
    requires WellFormed(g) && workers > 0 && Legal(g, Initial(g, workers), run)
    ensures var s := AfterAll(g, Initial(g, workers), run);
      (forall w :: 0 <= w < workers ==> s.workers[w].Exited?) ==>
      forall t :: 0 <= t < g.n ==> s.stage[t].Done? && Began(t) in s.log && Completed(t) in s.log && s.repo[t].None?
  {
    InitialInv(g, workers);
    RunKeepsInv(g, Initial(g, workers), run);
    var s := AfterAll(g, Initial(g, workers), run);
    if forall w :: 0 <= w < workers ==> s.workers[w].Exited? {
      forall t | 0 <= t < g.n
        ensures s.stage[t].Done? && Began(t) in s.log && Completed(t) in s.log && s.repo[t].None?
      {
        AllDone(g, s);
        assert LogAt(s.stage, s.log, t);
        EntryGone(g, s, t);
      }
    }
  }

  lemma AllDone(g: Graph, s: Node)
    requires WellFormed(g) && Inv(g, s) && |s.workers| > 0
    requires forall w :: 0 <= w < |s.workers| ==> s.workers[w].Exited?
    ensures forall t :: 0 <= t < g.n ==> s.stage[t].Done?
  {
    assert s.workers[0].Exited?;
    forall t | 0 <= t < g.n
      ensures s.stage[t].Done?
    {
      if !s.stage[t].Done? {
        var p := FindWork(g, s, t);
        assert HolderAt(s.stage, s.workers, p);
        TotalAtLeast(s.stage, p, UnstartedOne);
      }
    }
  }

  lemma EntryGone(g: Graph, s: Node, t: nat)
    requires WellFormed(g) && Inv(g, s) && t < g.n && forall i :: 0 <= i < g.n ==> s.stage[i].Done?
    ensures s.repo[t].None?
  {
    assert RepoAt(g, s.stage, s.repo, s.usage, s.pcs, s.used, t);
    forall e | e in Out(g, t)
      ensures s.used[e]
    {
      assert EdgeAt(g, s.stage, s.pcs, s.used, e);
    }
    assert UsedOut(g, t, s.used) == Out(g, t);
  }

  // ------------------------------------------------------------------ every run ends, and ends well

  lemma NextAction(g: Graph, s: Node, w: nat) returns (action: Action)
    requires WellFormed(g) && Inv(g, s) && w < |s.workers| && s.workers[w].Busy?
    ensures Enabled(g, s, Work(w, action))
  {
    var t := s.workers[w].task;
    assert BusyAt(s.stage, s.workers, w);
    match s.stage[t]
    case Popped(_) => action := Begin;
    case Started(_) => action := Complete;
    case Releasing(_) =>
      if e :| e in Out(g, t) && !s.pcs[e].Landed? {
        CellsRelease(g, s.words, s.pcs, e);
        action := Release(e);
      } else {
        action := AddLimit;
      }
    case Limited(_) => action := Schedule;
    case Scheduled(_) =>
      if e :| e in In(g, t) && !s.used[e] {
        action := UseInput(e);
      } else {
        action := Retire;
      }
  }

  /** As long as some worker has not left, some worker can move. */
  lemma Progress(g: Graph, s: Node, w: nat) returns (m: Move)
    requires WellFormed(g) && Inv(g, s) && w < |s.workers| && !s.workers[w].Exited?
    ensures Enabled(g, s, m)
  {
    if s.workers[w].Busy? {
      var action := NextAction(g, s, w);
      m := Work(w, action);
    } else if s.todo == 0 {
      m := Exit(w);
    } else {
      TotalNonNegative(s.stage, UnstartedOne);
      var t := TotalWitness(s.stage, UnstartedOne);
      var p := FindWork(g, s, t);
      if s.stage[p].Queued? {
        m := Pop(w, p);
      } else {
        assert HolderAt(s.stage, s.workers, p);
        var v := Holder(s.stage[p]).value;
        var action := NextAction(g, s, v);
        m := Work(v, action);
      }
    }
  }

  function StageWeight(st: Stage): int {
    match st
    case Blocked => 0
    case Listed(_) => 1
    case Queued => 2
    case Popped(_) => 3
    case Started(_) => 4
    case Releasing(_) => 5
    case Limited(_) => 6
    case Scheduled(_) => 7
    case Done => 8
  }

  function PcWeight(pc: Pc): int {
    match pc
    case Start => 0
    case Cas(_) => 1
    case Or(_) => 1
    case Inc => 2
    case Landed(_) => 3
  }

  function UsedWeight(used: bool): int {
    if used then 1 else 0
  }

  function WorkerWeight(w: Worker): int {
    if w.Exited? then 1 else 0
  }

  function Measure(s: Node): int {
    Total(s.stage, StageWeight) + Total(s.pcs, PcWeight) + Total(s.used, UsedWeight) + Total(s.workers, WorkerWeight)
  }

  function Bound(g: Graph, workers: nat): nat {
    8 * g.n + 4 * |g.edges| + workers
  }

  /** The stage of `t` moves up, and nothing else counts less. */
  lemma StageAdvances(s: Node, s': Node, t: nat, st: Stage)
    requires t < |s.stage| && s'.stage == s.stage[t := st] && StageWeight(st) > StageWeight(s.stage[t])
    requires s'.pcs == s.pcs && s'.used == s.used
    requires Total(s'.workers, WorkerWeight) == Total(s.workers, WorkerWeight)
    ensures Measure(s') > Measure(s)
  {
    TotalUpdate(s.stage, t, st, StageWeight);
  }

  lemma MoveAdvances(g: Graph, s: Node, m: Move)
    requires WellFormed(g) && Inv(g, s) && Enabled(g, s, m)
    ensures Measure(After(g, s, m)) > Measure(s)
  {
    var s' := After(g, s, m);
    match m
    case Pop(w, t) =>
      TotalUpdate(s.workers, w, Busy(t), WorkerWeight);
      StageAdvances(s, s', t, Popped(w));
    case Exit(w) =>
      TotalUpdate(s.workers, w, Exited, WorkerWeight);
    case Work(w, action) =>
      ActionAdvances(g, s, w, s.workers[w].task, action);
  }

  lemma ActionAdvances(g: Graph, s: Node, w: nat, t: nat, action: Action)
    requires WellFormed(g) && Inv(g, s) && Enabled(g, s, Work(w, action)) && t == s.workers[w].task
    ensures Measure(Acted(g, s, w, t, action)) > Measure(s)
  {
    var s' := Acted(g, s, w, t, action);
    match action
    case Begin => StageAdvances(s, s', t, Started(w));
    case Complete => StageAdvances(s, s', t, Releasing(w));
    case AddLimit => StageAdvances(s, s', t, Limited(w));
    case UseInput(e) => TotalUpdate(s.used, e, true, UsedWeight);
    case Retire =>
      TotalUpdate(s.workers, w, Idle, WorkerWeight);
      StageAdvances(s, s', t, Done);
    case Schedule => ScheduleAdvances(s.stage, PushList(s.stage, t, w), t, w);
    case Release(e) => ReleaseAdvances(g, s, t, e);
  }

  lemma ScheduleAdvances(stage: seq<Stage>, stage': seq<Stage>, t: nat, w: nat)
    requires t < |stage| && stage[t].Limited? && stage' == PushList(stage, t, w)
    ensures Total(stage', StageWeight) > Total(stage, StageWeight)
  {
    assert StageWeight(stage[t]) < StageWeight(stage'[t]);
    TotalPointwise(stage, stage', StageWeight);
  }

  lemma ReleaseAdvances(g: Graph, s: Node, t: nat, e: nat)
    requires WellFormed(g) && Inv(g, s) && t < g.n && CanAct(g, s, t, Release(e))
    ensures forall w: nat :: w < |s.workers| ==> Measure(Acted(g, s, w, t, Release(e))) > Measure(s)
  {
    var d := g.edges[e].dst;
    var (word, pc) := Step(g.cells[d], e, s.words[d], s.pcs[e]);
    CellsRelease(g, s.words, s.pcs, e);
    ReadyRelease(g, s.stage, s.pcs, t, e, pc);
    TotalUpdate(s.pcs, e, pc, PcWeight);
    TotalUpdate(s.stage, d, Listed(t), StageWeight);
  }

  lemma MeasureBounded(g: Graph, s: Node)
    requires Shape(g, s)
    ensures 0 <= Measure(s) <= Bound(g, |s.workers|)
  {
    TotalAtMost(s.stage, StageWeight, 8);
    TotalAtMost(s.pcs, PcWeight, 3);
    TotalAtMost(s.used, UsedWeight, 1);
    TotalAtMost(s.workers, WorkerWeight, 1);
    TotalNonNegative(s.stage, StageWeight);
    TotalNonNegative(s.pcs, PcWeight);
    TotalNonNegative(s.used, UsedWeight);
    TotalNonNegative(s.workers, WorkerWeight);
  }

  lemma {:induction false} RunLength(g: Graph, s: Node, run: seq<Move>)
    requires WellFormed(g) && Inv(g, s) && Legal(g, s, run)
    ensures |run| <= Bound(g, |s.workers|) - Measure(s)
    decreases |run|
  {
    MeasureBounded(g, s);
    if run != [] {
      MoveKeepsInv(g, s, run[0]);
      MoveAdvances(g, s, run[0]);
      RunLength(g, After(g, s, run[0]), run[1..]);
    }
  }

  /** No run goes on forever, and a run that cannot be continued has every worker at the closing barrier. */
  lemma RunsTerminate(g: Graph, workers: nat, run: seq<Move>)
    requires WellFormed(g) && Legal(g, Initial(g, workers), run)
    ensures |run| <= Bound(g, workers)
    ensures var s := AfterAll(g, Initial(g, workers), run);
      (forall m :: !Enabled(g, s, m)) ==> forall w :: 0 <= w < |s.workers| ==> s.workers[w].Exited?
  {
    var s0 := Initial(g, workers);
    InitialInv(g, workers);
    MeasureBounded(g, s0);
    RunLength(g, s0, run);
    RunKeepsInv(g, s0, run);
    var s := AfterAll(g, s0, run);
    if w :| 0 <= w < |s.workers| && !s.workers[w].Exited? {
      var m := Progress(g, s, w);
    }
  }
}
