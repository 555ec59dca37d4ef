/** When may the workers of a rank leave? They look at one counter, which goes down when a job begins and
    up when a message is announced. Jobs run on several ranks at once and announce their activations
    while they complete; the rendezvous of `Rendezvous` serves them. A worker may leave while another one
    still runs a job that will announce, but the last one cannot. That needs no order among the jobs: any
    that has not begun may begin. That everybody leaves in the end is proved for jobs that wait for their
    data and for their predecessors. */
module Departure {
  import opened Sums
  import opened Rendezvous

  /** `owner` names the job that announces each activation, `place` the rank of each job; job `j` waits for
      the outputs `needs[j]` of activations and for the jobs `before[j]` of its own rank. */
  datatype Plant = Plant(net: System, crew: nat, place: seq<nat>, owner: seq<nat>,
                         needs: seq<set<(nat, nat)>>, before: seq<set<nat>>)

  predicate Sound(p: Plant) {
    && WellFormed(p.net) && p.crew > 0 && |p.owner| == |p.net.acts| && |p.needs| == |p.before| == |p.place|
    && (forall j :: 0 <= j < |p.place| ==> p.place[j] < p.net.ranks)
    && (forall a :: 0 <= a < |p.owner| ==> Announced(p, a))
    && (forall j :: 0 <= j < |p.place| ==> Earlier(p, j))
  }

  /** The jobs are numbered in an order their dependencies allow. */
  predicate Earlier(p: Plant, j: nat)
    requires |p.owner| == |p.net.acts| && |p.needs| == |p.before| == |p.place| && j < |p.place|
  {
    && (forall d :: d in p.needs[j] ==>
          && d.0 < |p.owner| && p.owner[d.0] < j
          && p.net.acts[d.0].dst == p.place[j] && d.1 in p.net.acts[d.0].which)
    && (forall i :: i in p.before[j] ==> i < j && p.place[i] == p.place[j])
  }

  /** An activation is announced by a job of its producer. */
  predicate Announced(p: Plant, a: nat)
    requires a < |p.owner| == |p.net.acts|
  {
    p.owner[a] < |p.place| && p.place[p.owner[a]] == p.net.acts[a].src
  }

  datatype Worker = Resting | Running(job: nat) | Left

  /** `begun` tells the jobs that have begun and `holder` the worker each was begun by. */
  datatype Site = Site(net: State, workers: seq<seq<Worker>>, begun: seq<bool>, holder: seq<nat>)

  predicate Fits(p: Plant, s: Site) {
    && Shape(p.net, s.net) && |s.workers| == p.net.ranks && |s.begun| == |s.holder| == |p.place|
    && forall r :: 0 <= r < p.net.ranks ==> |s.workers[r]| == p.crew
  }

  datatype Move =
    | Start(r: nat, w: nat, j: nat)
    | Tell(r: nat, w: nat, a: nat)
    | Finish(r: nat, w: nat)
    | Leave(r: nat, w: nat)
    | Network(step: Step)

  predicate Possible(p: Plant, s: Site, m: Move)
    requires Sound(p) && Fits(p, s)
  {
    match m
    case Start(r, w, j) =>
      && r < p.net.ranks && w < p.crew && s.workers[r][w].Resting? && j < |p.place| && p.place[j] == r && !s.begun[j]
      && Enabled(p.net, s.net, RunTask(r))
    case Tell(r, w, a) =>
      && r < p.net.ranks && w < p.crew && a < |p.owner| && s.workers[r][w] == Running(p.owner[a])
      && Enabled(p.net, s.net, Announce(a))
    case Finish(r, w) =>
      && r < p.net.ranks && w < p.crew && s.workers[r][w].Running?
      && forall a :: 0 <= a < |p.owner| && p.owner[a] == s.workers[r][w].job ==> !s.net.sender[a].Unsent?
    case Leave(r, w) => r < p.net.ranks && w < p.crew && s.workers[r][w].Resting? && s.net.todo[r] == 0
    case Network(step) => !step.RunTask? && !step.Announce? && Enabled(p.net, s.net, step)
  }

  function SetWorker(workers: seq<seq<Worker>>, r: nat, w: nat, x: Worker): seq<seq<Worker>>
    requires r < |workers| && w < |workers[r]|
  {
    workers[r := workers[r][w := x]]
  }

  function Next(p: Plant, s: Site, m: Move): (t: Site)
    requires Sound(p) && Fits(p, s) && Possible(p, s, m)
    ensures Fits(p, t)
  {
    match m
    case Start(r, w, j) =>
      Site(After(p.net, s.net, RunTask(r)), SetWorker(s.workers, r, w, Running(j)), s.begun[j := true], s.holder[j := w])
    case Tell(r, w, a) => s.(net := After(p.net, s.net, Announce(a)))
    case Finish(r, w) => s.(workers := SetWorker(s.workers, r, w, Resting))
    case Leave(r, w) => s.(workers := SetWorker(s.workers, r, w, Left))
    case Network(step) => s.(net := After(p.net, s.net, step))
  }

  // ------------------------------------------------------------------ the invariant

  /** Jobs of rank `r` that have not begun. */
  function Ahead(p: Plant, begun: seq<bool>, r: nat): set<nat>
    requires |begun| == |p.place|
  {
    set j: nat | j < |p.place| && p.place[j] == r && !begun[j]
  }

  predicate CountAt(p: Plant, unstarted: seq<nat>, begun: seq<bool>, r: nat)
    requires |begun| == |p.place| && r < |unstarted|
  {
    unstarted[r] == |Ahead(p, begun, r)|
  }

  predicate InHand(p: Plant, workers: seq<seq<Worker>>, holder: seq<nat>, r: nat, j: nat)
    requires j < |holder|
  {
    r < |workers| && holder[j] < |workers[r]| && workers[r][holder[j]] == Running(j)
  }

  /** What has not been announced belongs to a job that has not begun or that a worker holds. */
  predicate UnsentAt(p: Plant, sender: seq<Sender>, workers: seq<seq<Worker>>, begun: seq<bool>, holder: seq<nat>, a: nat)
    requires Sound(p) && |begun| == |holder| == |p.place| && a < |sender| == |p.owner|
  {
    assert Announced(p, a);
    sender[a].Unsent? ==> !begun[p.owner[a]] || InHand(p, workers, holder, p.net.acts[a].src, p.owner[a])
  }

  predicate HandAt(p: Plant, workers: seq<seq<Worker>>, begun: seq<bool>, holder: seq<nat>, r: nat, w: nat)
    requires |begun| == |holder| == |p.place| && r < |workers| && w < |workers[r]|
  {
    workers[r][w].Running? ==>
      && workers[r][w].job < |p.place| && p.place[workers[r][w].job] == r
      && begun[workers[r][w].job] && holder[workers[r][w].job] == w
  }

  predicate AllLeft(workers: seq<seq<Worker>>, r: nat)
    requires r < |workers|
  {
    forall w :: 0 <= w < |workers[r]| ==> workers[r][w].Left?
  }

  predicate GoneAt(todo: seq<int>, workers: seq<seq<Worker>>, r: nat)
    requires r < |todo| && r < |workers|
  {
    AllLeft(workers, r) ==> todo[r] == 0
  }

  ghost predicate SiteInv(p: Plant, s: Site)
    requires Sound(p)
  {
    && Fits(p, s) && Inv(p.net, s.net)
    && (forall r :: 0 <= r < p.net.ranks ==> CountAt(p, s.net.unstarted, s.begun, r))
    && (forall r :: 0 <= r < p.net.ranks ==> GoneAt(s.net.todo, s.workers, r))
    && (forall a :: 0 <= a < |p.owner| ==> UnsentAt(p, s.net.sender, s.workers, s.begun, s.holder, a))
    && (forall r, w :: 0 <= r < p.net.ranks && 0 <= w < p.crew ==> HandAt(p, s.workers, s.begun, s.holder, r, w))
  }

  // ------------------------------------------------------------------ every step keeps it

  lemma StartKeeps(p: Plant, s: Site, r: nat, w: nat, j: nat)
    requires Sound(p) && SiteInv(p, s) && Possible(p, s, Start(r, w, j))
    ensures SiteInv(p, Next(p, s, Start(r, w, j)))
  {
    var t := Next(p, s, Start(r, w, j));
    StepKeepsInv(p.net, s.net, RunTask(r));
    forall q | 0 <= q < p.net.ranks
      ensures CountAt(p, t.net.unstarted, t.begun, q) && GoneAt(t.net.todo, t.workers, q)
    {
      assert CountAt(p, s.net.unstarted, s.begun, q) && GoneAt(s.net.todo, s.workers, q);
      OneBegins(p, s.begun, j, q);
      StillHere(s.workers, r, w, Running(j), q);
    }
    forall a | 0 <= a < |p.owner|
      ensures UnsentAt(p, t.net.sender, t.workers, t.begun, t.holder, a)
    {
      assert Announced(p, a);
      assert UnsentAt(p, s.net.sender, s.workers, s.begun, s.holder, a);
    }
    forall q, v | 0 <= q < p.net.ranks && 0 <= v < p.crew
      ensures HandAt(p, t.workers, t.begun, t.holder, q, v)
    {
      assert HandAt(p, s.workers, s.begun, s.holder, q, v);
    }
  }

  /** A rank whose workers have all left, after one worker changed, had lost them all before, unless it is
      the rank of that worker and that worker has just left. */
  lemma StillHere(workers: seq<seq<Worker>>, r: nat, w: nat, x: Worker, q: nat)
    requires r < |workers| && w < |workers[r]| && q < |workers|
    ensures AllLeft(SetWorker(workers, r, w, x), q) ==> if q == r then x.Left? else AllLeft(workers, q)
  {
    var workers' := SetWorker(workers, r, w, x);
    if q != r {
      assert workers'[q] == workers[q];
    } else {
      assert workers'[q][w] == x;
    }
  }

  lemma OneBegins(p: Plant, begun: seq<bool>, j: nat, q: nat)
    requires j < |begun| == |p.place| && !begun[j]
    ensures |Ahead(p, begun[j := true], q)| == |Ahead(p, begun, q)| - (if p.place[j] == q then 1 else 0)
  {
    if p.place[j] == q {
      assert Ahead(p, begun, q) == Ahead(p, begun[j := true], q) + {j};
    } else {
      assert Ahead(p, begun, q) == Ahead(p, begun[j := true], q);
    }
  }

  lemma TellKeeps(p: Plant, s: Site, r: nat, w: nat, a: nat)
    requires Sound(p) && SiteInv(p, s) && Possible(p, s, Tell(r, w, a))
    ensures SiteInv(p, Next(p, s, Tell(r, w, a)))
  {
    var t := Next(p, s, Tell(r, w, a));
    StepKeepsInv(p.net, s.net, Announce(a));
    assert Announced(p, a) && HandAt(p, s.workers, s.begun, s.holder, r, w);
    forall q | 0 <= q < p.net.ranks
      ensures CountAt(p, t.net.unstarted, t.begun, q) && GoneAt(t.net.todo, t.workers, q)
    {
      assert CountAt(p, s.net.unstarted, s.begun, q) && GoneAt(s.net.todo, s.workers, q);
    }
    forall b | 0 <= b < |p.owner|
      ensures UnsentAt(p, t.net.sender, t.workers, t.begun, t.holder, b)
    {
      assert UnsentAt(p, s.net.sender, s.workers, s.begun, s.holder, b);
    }
  }

  /** A worker that comes back from a job, or leaves. */
  lemma IdleKeeps(p: Plant, s: Site, r: nat, w: nat, x: Worker)
    requires Sound(p) && SiteInv(p, s) && r < p.net.ranks && w < p.crew && !x.Running? && !s.workers[r][w].Left?
    requires s.workers[r][w].Running? ==>
      forall a :: 0 <= a < |p.owner| && p.owner[a] == s.workers[r][w].job ==> !s.net.sender[a].Unsent?
    requires x.Left? ==> s.net.todo[r] == 0
    ensures SiteInv(p, s.(workers := SetWorker(s.workers, r, w, x)))
  {
    var workers' := SetWorker(s.workers, r, w, x);
    forall q | 0 <= q < p.net.ranks
      ensures GoneAt(s.net.todo, workers', q)
    {
      assert GoneAt(s.net.todo, s.workers, q);
      StillHere(s.workers, r, w, x, q);
    }
    forall a | 0 <= a < |p.owner|
      ensures UnsentAt(p, s.net.sender, workers', s.begun, s.holder, a)
    {
      assert UnsentAt(p, s.net.sender, s.workers, s.begun, s.holder, a);
    }
    forall q, v | 0 <= q < p.net.ranks && 0 <= v < p.crew
      ensures HandAt(p, workers', s.begun, s.holder, q, v)
    {
      assert HandAt(p, s.workers, s.begun, s.holder, q, v);
    }
  }

  /** What the network does to the counters: it only serves activations that are in flight. */
  lemma NetworkEffect(y: System, s: State, step: Step, q: nat)
    requires WellFormed(y) && Inv(y, s) && Enabled(y, s, step) && !step.RunTask? && !step.Announce? && q < y.ranks
    ensures var t := After(y, s, step);
      && t.unstarted == s.unstarted && (t.todo[q] != s.todo[q] ==> s.todo[q] > 0)
      && forall a :: 0 <= a < |y.acts| && t.sender[a].Unsent? ==> s.sender[a].Unsent?
  {
    match step
    case SendActivate(a) =>
    case TakeActivate(a, i) =>
    case TakeGet(g, j) =>
    case PutEnd(r, j, k) => PutEndEffect(y, s, r, j, k);
    case GetEnd(r, i, k) =>
  }

  lemma PutEndEffect(y: System, s: State, r: nat, j: nat, k: nat)
    requires WellFormed(y) && Inv(y, s) && Enabled(y, s, PutEnd(r, j, k))
    ensures s.todo[r] > 0
  {
    var a := s.send[r][j].act;
    assert SendAt(y, s.send, s.sender, s.tag, r, j);
    assert TodoAt(y, s.todo, s.unstarted, s.sender, r);
    assert a in Flying(y, s.sender, r);
  }

  lemma NetworkKeeps(p: Plant, s: Site, step: Step)
    requires Sound(p) && SiteInv(p, s) && Possible(p, s, Network(step))
    ensures SiteInv(p, Next(p, s, Network(step)))
  {
    var t := Next(p, s, Network(step));
    StepKeepsInv(p.net, s.net, step);
    forall q | 0 <= q < p.net.ranks
      ensures CountAt(p, t.net.unstarted, t.begun, q) && GoneAt(t.net.todo, t.workers, q)
    {
      assert CountAt(p, s.net.unstarted, s.begun, q) && GoneAt(s.net.todo, s.workers, q);
      NetworkEffect(p.net, s.net, step, q);
    }
    forall a | 0 <= a < |p.owner|
      ensures UnsentAt(p, t.net.sender, t.workers, t.begun, t.holder, a)
    {
      assert UnsentAt(p, s.net.sender, s.workers, s.begun, s.holder, a);
      assert Legitimate(p.net, p.net.acts[a]);
      NetworkEffect(p.net, s.net, step, p.net.acts[a].src);
    }
  }

  lemma NextKeepsInv(p: Plant, s: Site, m: Move)
    requires Sound(p) && SiteInv(p, s) && Possible(p, s, m)
    ensures SiteInv(p, Next(p, s, m))
  {
    match m
    case Start(r, w, j) => StartKeeps(p, s, r, w, j);
    case Tell(r, w, a) => TellKeeps(p, s, r, w, a);
    case Finish(r, w) => IdleKeeps(p, s, r, w, Resting);
    case Leave(r, w) => IdleKeeps(p, s, r, w, Left);
    case Network(step) => NetworkKeeps(p, s, step);
  }

  // ------------------------------------------------------------------ runs

  function Unstarted(p: Plant): seq<nat> {
    seq(p.net.ranks, r requires 0 <= r < p.net.ranks => |Ahead(p, seq(|p.place|, _ => false), r)|)
  }

  /** All workers rest, no job has begun; the counter of a rank is the number of its jobs. */
  function Opening(p: Plant, tags: seq<nat>): (s: Site)
    requires Sound(p) && |tags| == p.net.ranks
    ensures Fits(p, s)
  {
    Site(Initial(p.net, Unstarted(p), tags), seq(p.net.ranks, _ => seq(p.crew, _ => Resting)),
         seq(|p.place|, _ => false), seq(|p.place|, _ => 0))
  }

  lemma OpeningInv(p: Plant, tags: seq<nat>)
    requires Sound(p) && |tags| == p.net.ranks
    ensures SiteInv(p, Opening(p, tags))
  {
    var s := Opening(p, tags);
    InitialInv(p.net, Unstarted(p), tags);
    forall r | 0 <= r < p.net.ranks
      ensures GoneAt(s.net.todo, s.workers, r) && CountAt(p, s.net.unstarted, s.begun, r)
    {
      assert s.workers[r][0] == Resting;
    }
    forall a | 0 <= a < |p.owner|
      ensures UnsentAt(p, s.net.sender, s.workers, s.begun, s.holder, a)
    {
      assert Announced(p, a);
    }
  }

  predicate Legal(p: Plant, s: Site, run: seq<Move>)
    requires Sound(p) && Fits(p, s)
    decreases |run|
  {
    run == [] || (Possible(p, s, run[0]) && Legal(p, Next(p, s, run[0]), run[1..]))
  }

  function AfterAll(p: Plant, s: Site, run: seq<Move>): (t: Site)
    requires Sound(p) && Fits(p, s) && Legal(p, s, run)
    ensures Fits(p, t)
    decreases |run|
  {
    if run == [] then s else AfterAll(p, Next(p, s, run[0]), run[1..])
  }

  lemma {:induction false} RunKeepsInv(p: Plant, s: Site, run: seq<Move>)
    requires Sound(p) && SiteInv(p, s) && Legal(p, s, run)
    ensures SiteInv(p, AfterAll(p, s, run))
    decreases |run|
  {
    if run != [] {
      NextKeepsInv(p, s, run[0]);
      RunKeepsInv(p, Next(p, s, run[0]), run[1..]);
    }
  }

  // ------------------------------------------------------------------ nobody leaves too early

  /** Nothing is left to do on behalf of rank `r`: its jobs have begun, none is running, and the data of
      all its activations has been served. */
  predicate NothingOwed(p: Plant, s: Site, r: nat)
    requires Sound(p) && Fits(p, s) && r < p.net.ranks
  {
    && (forall j :: 0 <= j < |p.place| && p.place[j] == r ==> s.begun[j])
    && (forall w :: 0 <= w < p.crew ==> !s.workers[r][w].Running?)
    && (forall a :: 0 <= a < |p.owner| && p.net.acts[a].src == r ==> s.net.sender[a].Served?)
  }

  /** In every run, once all workers of a rank have left, the rank owes nothing: no job of it will announce
      another activation, and no activation it announced waits for its data. */
  lemma NobodyLeavesTooEarly(p: Plant, tags: seq<nat>, run: seq<Move>, r: nat)
    requires Sound(p) && |tags| == p.net.ranks && Legal(p, Opening(p, tags), run) && r < p.net.ranks
    ensures var s := AfterAll(p, Opening(p, tags), run);
      AllLeft(s.workers, r) ==> NothingOwed(p, s, r)
  {
    OpeningInv(p, tags);
    RunKeepsInv(p, Opening(p, tags), run);
    var s := AfterAll(p, Opening(p, tags), run);
    if AllLeft(s.workers, r) {
      GoneOwesNothing(p, s, r);
    }
  }

  lemma GoneOwesNothing(p: Plant, s: Site, r: nat)
    requires Sound(p) && SiteInv(p, s) && r < p.net.ranks && AllLeft(s.workers, r)
    ensures NothingOwed(p, s, r)
  {
    assert GoneAt(s.net.todo, s.workers, r);
    assert CountAt(p, s.net.unstarted, s.begun, r) && TodoAt(p.net, s.net.todo, s.net.unstarted, s.net.sender, r);
    assert Ahead(p, s.begun, r) == {} && Flying(p.net, s.net.sender, r) == {};
    forall j: nat | j < |p.place| && p.place[j] == r
      ensures s.begun[j]
    {
      assert j !in Ahead(p, s.begun, r);
    }
    forall a: nat | a < |p.owner| && p.net.acts[a].src == r
      ensures s.net.sender[a].Served?
    {
      assert Announced(p, a) && UnsentAt(p, s.net.sender, s.workers, s.begun, s.holder, a);
      assert a !in Flying(p.net, s.net.sender, r);
    }
  }

  /** Two workers on rank 0 and one job, which announces data for rank 1. */
  function Pair(): (p: Plant)
    ensures Sound(p)
  {
    var p := Plant(System(2, 1, [Act(0, 1, {0})]), 2, [0], [0], [{}], [{}]);
    assert Legitimate(p.net, p.net.acts[0]) && Announced(p, 0);
    p
  }

  /** Once the job has begun the counter is 0, although its activation is still to come. */
  lemma JobBegins()
    ensures Possible(Pair(), Opening(Pair(), [0, 0]), Start(0, 0, 0))
    ensures var s := Next(Pair(), Opening(Pair(), [0, 0]), Start(0, 0, 0));
      && s.net.todo[0] == 0 && s.net.sender == [Unsent] && s.workers[0] == [Running(0), Resting]
  {
    var s := Opening(Pair(), [0, 0]);
    assert Ahead(Pair(), [false], 0) == {0};
    assert s.begun == [false] && s.net.todo[0] == 1;
  }

  /** A worker may leave while another one runs the last job, and the counter goes up again. */
  lemma LeaveThenTell(p: Plant, s: Site, r: nat, v: nat, w: nat, a: nat)
    requires Sound(p) && Fits(p, s) && r < p.net.ranks && v < p.crew && w < p.crew && a < |p.owner|
    requires s.net.todo[r] == 0 && s.workers[r][v].Resting?
    requires s.workers[r][w] == Running(p.owner[a]) && s.net.sender[a].Unsent? && p.net.acts[a].src == r
    ensures Legal(p, s, [Leave(r, v), Tell(r, w, a)])
    ensures var t := AfterAll(p, s, [Leave(r, v), Tell(r, w, a)]);
      t.workers[r][v].Left? && t.net.todo[r] == 1
  {
    var s1 := Next(p, s, Leave(r, v));
    var s2 := Next(p, s1, Tell(r, w, a));
    assert Legal(p, s2, []) && AfterAll(p, s2, []) == s2;
    Prepend(p, s1, Tell(r, w, a), []);
    Prepend(p, s, Leave(r, v), [Tell(r, w, a)]);
  }

  /** A single worker can leave while data is still to be served. */
  lemma OneMayLeaveBefore()
    ensures var run := [Start(0, 0, 0), Leave(0, 1), Tell(0, 0, 0)];
      && Legal(Pair(), Opening(Pair(), [0, 0]), run)
      && AfterAll(Pair(), Opening(Pair(), [0, 0]), run).workers[0][1].Left?
      && AfterAll(Pair(), Opening(Pair(), [0, 0]), run).net.todo[0] == 1
  {
    var p, s0 := Pair(), Opening(Pair(), [0, 0]);
    JobBegins();
    LeaveThenTell(p, Next(p, s0, Start(0, 0, 0)), 0, 1, 0, 0);
    assert [Start(0, 0, 0)] + [Leave(0, 1), Tell(0, 0, 0)] == [Start(0, 0, 0), Leave(0, 1), Tell(0, 0, 0)];
    Prepend(p, s0, Start(0, 0, 0), [Leave(0, 1), Tell(0, 0, 0)]);
  }

  lemma Prepend(p: Plant, s: Site, m: Move, rest: seq<Move>)
    requires Sound(p) && Fits(p, s) && Possible(p, s, m) && Legal(p, Next(p, s, m), rest)
    ensures Legal(p, s, [m] + rest) && AfterAll(p, s, [m] + rest) == AfterAll(p, Next(p, s, m), rest)
  {
    assert ([m] + rest)[1..] == rest;
  }

  // ------------------------------------------------------------------ and everybody leaves

  predicate AllGone(p: Plant, s: Site)
    requires Fits(p, s)
  {
    forall r :: 0 <= r < p.net.ranks ==> AllLeft(s.workers, r)
  }

  predicate Finished(p: Plant, s: Site, j: nat)
    requires Fits(p, s) && j < |p.place|
  {
    s.begun[j] && !InHand(p, s.workers, s.holder, p.place[j], j)
  }

  /** The data of a job is there and its local predecessors are finished. */
  predicate Ready(p: Plant, s: Site, j: nat)
    requires Sound(p) && Fits(p, s) && j < |p.place|
  {
    && (forall d :: d in p.needs[j] ==> s.net.released[d] > 0)
    && (forall i :: i in p.before[j] ==> i < |p.place| && Finished(p, s, i))
  }

  /** A move of the runtime: a job begins only when it is ready. */
  predicate Orderly(p: Plant, s: Site, m: Move)
    requires Sound(p) && Fits(p, s)
  {
    Possible(p, s, m) && (m.Start? ==> Ready(p, s, m.j))
  }

  /** While some worker has not left, some worker or some rank's communication can move. */
  lemma SomeoneMoves(p: Plant, s: Site) returns (m: Move)
    requires Sound(p) && SiteInv(p, s) && !AllGone(p, s)
    ensures Orderly(p, s, m)
  {
    if r, w :| 0 <= r < p.net.ranks && 0 <= w < p.crew && s.workers[r][w].Running? {
      m := RunnerMoves(p, s, r, w);
    } else if a :| 0 <= a < |p.owner| && !s.net.sender[a].Unsent? && !(s.net.sender[a].Served? && s.net.receiver[a].Complete?) {
      var step := Rendezvous.Moves(p.net, s.net, a);
      m := Network(step);
    } else if j :| 0 <= j < |p.place| && !s.begun[j] {
      m := FirstBegins(p, s, j);
    } else {
      AllAnnounced(p, s);
      m := SomeoneLeaves(p, s);
    }
  }

  lemma AllAnnounced(p: Plant, s: Site)
    requires Sound(p) && SiteInv(p, s)
    requires forall j :: 0 <= j < |p.place| ==> s.begun[j]
    requires forall r, w :: 0 <= r < p.net.ranks && 0 <= w < p.crew ==> !s.workers[r][w].Running?
    ensures forall a :: 0 <= a < |p.owner| ==> !s.net.sender[a].Unsent?
  {
    forall a: nat | a < |p.owner|
      ensures !s.net.sender[a].Unsent?
    {
      assert Announced(p, a) && UnsentAt(p, s.net.sender, s.workers, s.begun, s.holder, a);
    }
  }

  /** No worker runs a job and the communication is at rest: the first job that has not begun is ready. */
  lemma {:induction false} FirstBegins(p: Plant, s: Site, j: nat) returns (m: Move)
    requires Sound(p) && SiteInv(p, s) && j < |p.place| && !s.begun[j]
    requires forall r, w :: 0 <= r < p.net.ranks && 0 <= w < p.crew ==> !s.workers[r][w].Running?
    requires forall a :: 0 <= a < |p.owner| ==> s.net.sender[a].Unsent? || (s.net.sender[a].Served? && s.net.receiver[a].Complete?)
    ensures Orderly(p, s, m)
    decreases j
  {
    if i: nat :| i < j && !s.begun[i] {
      m := FirstBegins(p, s, i);
    } else {
      FirstIsReady(p, s, j);
      var r := p.place[j];
      assert CountAt(p, s.net.unstarted, s.begun, r) && j in Ahead(p, s.begun, r);
      assert TodoAt(p.net, s.net.todo, s.net.unstarted, s.net.sender, r) && GoneAt(s.net.todo, s.workers, r);
      var w :| 0 <= w < p.crew && !s.workers[r][w].Left?;
      m := Start(r, w, j);
    }
  }

  lemma FirstIsReady(p: Plant, s: Site, j: nat)
    requires Sound(p) && SiteInv(p, s) && j < |p.place| && forall i :: 0 <= i < j ==> s.begun[i]
    requires forall r, w :: 0 <= r < p.net.ranks && 0 <= w < p.crew ==> !s.workers[r][w].Running?
    requires forall a :: 0 <= a < |p.owner| ==> s.net.sender[a].Unsent? || (s.net.sender[a].Served? && s.net.receiver[a].Complete?)
    ensures Ready(p, s, j)
  {
    assert Earlier(p, j);
    forall d | d in p.needs[j]
      ensures s.net.released[d] > 0
    {
      var a := d.0;
      assert Announced(p, a) && UnsentAt(p, s.net.sender, s.workers, s.begun, s.holder, a);
      assert ReleasedAt(p.net, s.net.sender, s.net.receiver, s.net.released, a);
      assert d.1 !in Missing(p.net, s.net.released, a);
      assert d == (a, d.1);
    }
  }

  lemma RunnerMoves(p: Plant, s: Site, r: nat, w: nat) returns (m: Move)
    requires Sound(p) && SiteInv(p, s) && r < p.net.ranks && w < p.crew && s.workers[r][w].Running?
    ensures Orderly(p, s, m)
  {
    if a :| 0 <= a < |p.owner| && p.owner[a] == s.workers[r][w].job && s.net.sender[a].Unsent? {
      m := Tell(r, w, a);
    } else {
      m := Finish(r, w);
    }
  }

  lemma SomeoneLeaves(p: Plant, s: Site) returns (m: Move)
    requires Sound(p) && SiteInv(p, s) && !AllGone(p, s) && AllServed(p.net, s.net)
    requires forall j :: 0 <= j < |p.place| ==> s.begun[j]
    requires forall r, w :: 0 <= r < p.net.ranks && 0 <= w < p.crew ==> !s.workers[r][w].Running?
    ensures Orderly(p, s, m)
  {
    var r :| 0 <= r < p.net.ranks && !AllLeft(s.workers, r);
    var w :| 0 <= w < p.crew && !s.workers[r][w].Left?;
    assert CountAt(p, s.net.unstarted, s.begun, r) && TodoAt(p.net, s.net.todo, s.net.unstarted, s.net.sender, r);
    assert Ahead(p, s.begun, r) == {} && Flying(p.net, s.net.sender, r) == {};
    m := Leave(r, w);
  }

  function Weight(x: Worker): int {
    match x
    case Running(_) => 0
    case Resting => 1
    case Left => 2
  }

  function CrewWeight(row: seq<Worker>): int {
    Total(row, Weight)
  }

  /** Workers of all ranks. */
  function Seats(p: Plant): nat {
    p.net.ranks * p.crew
  }

  function Advance(s: Site): int {
    2 * Measure(s.net) + Total(s.workers, CrewWeight)
  }

  lemma CrewUpdate(workers: seq<seq<Worker>>, r: nat, w: nat, x: Worker)
    requires r < |workers| && w < |workers[r]|
    ensures Total(SetWorker(workers, r, w, x), CrewWeight)
         == Total(workers, CrewWeight) - Weight(workers[r][w]) + Weight(x)
  {
    TotalUpdate(workers[r], w, x, Weight);
    TotalUpdate(workers, r, workers[r][w := x], CrewWeight);
  }

  lemma NextAdvances(p: Plant, s: Site, m: Move)
    requires Sound(p) && SiteInv(p, s) && Possible(p, s, m)
    ensures Advance(Next(p, s, m)) > Advance(s)
  {
    match m
    case Start(r, w, j) =>
      StepAdvances(p.net, s.net, RunTask(r));
      CrewUpdate(s.workers, r, w, Running(j));
    case Tell(r, w, a) => StepAdvances(p.net, s.net, Announce(a));
    case Finish(r, w) => CrewUpdate(s.workers, r, w, Resting);
    case Leave(r, w) => CrewUpdate(s.workers, r, w, Left);
    case Network(step) => StepAdvances(p.net, s.net, step);
  }

  lemma AdvanceBounded(p: Plant, s: Site)
    requires Sound(p) && Fits(p, s)
    ensures Advance(s) <= 72 * |p.net.acts| + 2 * Seats(p)
  {
    MeasureBounded(p.net, s.net);
    forall r | 0 <= r < p.net.ranks
      ensures CrewWeight(s.workers[r]) <= 2 * p.crew
    {
      TotalAtMost(s.workers[r], Weight, 2);
    }
    TotalAtMost(s.workers, CrewWeight, 2 * p.crew);
  }

  lemma {:induction false} RunLength(p: Plant, s: Site, run: seq<Move>)
    requires Sound(p) && SiteInv(p, s) && Legal(p, s, run)
    ensures |run| <= 72 * |p.net.acts| + 2 * Seats(p) - Advance(s)
    decreases |run|
  {
    AdvanceBounded(p, s);
    if run != [] {
      NextKeepsInv(p, s, run[0]);
      NextAdvances(p, s, run[0]);
      RunLength(p, Next(p, s, run[0]), run[1..]);
    }
  }

  lemma OpeningAdvance(p: Plant, tags: seq<nat>)
    requires Sound(p) && |tags| == p.net.ranks
    ensures Advance(Opening(p, tags)) == Seats(p) - 2 * Total(Unstarted(p), AsInt)
  {
    var s := Opening(p, tags);
    InitialMeasure(p.net, Unstarted(p), tags);
    forall r | 0 <= r < p.net.ranks
      ensures CrewWeight(s.workers[r]) == p.crew
    {
      TotalConstant(s.workers[r], Weight, 1);
    }
    TotalConstant(s.workers, CrewWeight, p.crew);
  }

  /** No run goes on forever, and one that cannot be continued, with jobs that begin only when they are
      ready, has seen all workers leave and every asked output released exactly once. */
  lemma EverybodyLeaves(p: Plant, tags: seq<nat>, run: seq<Move>)
    requires Sound(p) && |tags| == p.net.ranks && Legal(p, Opening(p, tags), run)
    ensures |run| <= 72 * |p.net.acts| + Seats(p) + 2 * Total(Unstarted(p), AsInt)
    ensures var s := AfterAll(p, Opening(p, tags), run);
      (forall m :: !Orderly(p, s, m)) ==>
        && AllGone(p, s)
        && forall a: nat, k: nat :: a < |p.net.acts| ==> s.net.released[(a, k)] == if k in p.net.acts[a].which then 1 else 0
  {
    OpeningInv(p, tags);
    RunLength(p, Opening(p, tags), run);
    OpeningAdvance(p, tags);
    RunKeepsInv(p, Opening(p, tags), run);
    var s := AfterAll(p, Opening(p, tags), run);
    if forall m :: !Orderly(p, s, m) {
      EndOfEverything(p, s);
    }
  }

  lemma EndOfEverything(p: Plant, s: Site)
    requires Sound(p) && SiteInv(p, s) && forall m :: !Orderly(p, s, m)
    ensures AllGone(p, s)
    ensures forall a: nat, k: nat :: a < |p.net.acts| ==> s.net.released[(a, k)] == if k in p.net.acts[a].which then 1 else 0
  {
    if !AllGone(p, s) {
      var m := SomeoneMoves(p, s);
    }
    forall a: nat | a < |p.net.acts|
      ensures s.net.sender[a].Served?
    {
      assert Legitimate(p.net, p.net.acts[a]);
      GoneOwesNothing(p, s, p.net.acts[a].src);
    }
    if !AllServed(p.net, s.net) {
      var step := Rendezvous.Progress(p.net, s.net);
      assert Orderly(p, s, Network(step));
    }
    EndOfRun(p.net, s.net);
  }
}
