/** The rendezvous that moves data between ranks: the producer activates a consumer rank, the consumer
    asks for the outputs it needs, the producer puts them. Messages may overtake each other and requests
    complete in any order; a tag matches each put to the receive posted for it. Masks are sets of
    outputs. */
module Rendezvous {
  import opened Sums

  /** One tag per output of a task: a get reserves this many. */
  const MAX_PARAM_COUNT: nat := 5

  /** One activation: who sends what to whom. */
  datatype Act = Act(src: nat, dst: nat, which: set<nat>)

  /** `slots` requests of each kind are kept posted by each of `ranks` ranks. */
  datatype System = System(ranks: nat, slots: nat, acts: seq<Act>)

  predicate WellFormed(y: System) {
    && y.slots > 0
    && forall a :: 0 <= a < |y.acts| ==> Legitimate(y, y.acts[a])
  }

  predicate Legitimate(y: System, act: Act) {
    act.src < y.ranks && act.dst < y.ranks && act.which != {} && forall k <- act.which :: k < MAX_PARAM_COUNT
  }

  /** A request that waits for an activation, or the record of the one it is receiving: `which` the
      outputs still missing, `deps` those that just arrived, `posted` the receives outstanding. */
  datatype RecvSlot = Listening | Receiving(act: nat, which: set<nat>, deps: set<nat>, tag: nat, posted: set<nat>)

  /** A request that waits for a get, or the get being served: `which` the sends not finished. */
  datatype SendSlot = Idle | Serving(act: nat, which: set<nat>, tag: nat)

  datatype Get = Get(act: nat, which: set<nat>, tag: nat)
  datatype Data = Data(src: nat, dst: nat, tag: nat)

  /** How far an activation got, at the producer and at the consumer. */
  datatype Sender = Unsent | Queued | Activating | Put(slot: nat) | Served
  datatype Receiver = Waiting | InSlot(slot: nat) | Complete

  /** `sender`, `receiver` and `tag` record the history of each activation; the rest is what the code
      keeps or what is in the network. `todo` is the counter of each rank, `unstarted` its tasks that
      have not begun, `released` the outputs whose successors were released. */
  datatype State = State(
    recv: seq<seq<RecvSlot>>,
    send: seq<seq<SendSlot>>,
    queue: multiset<nat>,
    activates: multiset<nat>,
    gets: multiset<Get>,
    datas: multiset<Data>,
    nextTag: seq<nat>,
    todo: seq<int>,
    unstarted: seq<nat>,
    released: multiset<(nat, nat)>,
    sender: seq<Sender>,
    receiver: seq<Receiver>,
    tag: seq<nat>)

  predicate Shape(y: System, s: State) {
    && |s.recv| == |s.send| == |s.nextTag| == |s.todo| == |s.unstarted| == y.ranks
    && (forall r :: 0 <= r < y.ranks ==> |s.recv[r]| == |s.send[r]| == y.slots)
    && |s.sender| == |s.receiver| == |s.tag| == |y.acts|
  }

  datatype Step =
    | RunTask(rank: nat)
    | Announce(a: nat)
    | SendActivate(a: nat)
    | TakeActivate(a: nat, i: nat)
    | TakeGet(get: Get, j: nat)
    | PutEnd(rank: nat, j: nat, k: nat)
    | GetEnd(rank: nat, i: nat, k: nat)

  function DataOf(y: System, tag: seq<nat>, a: nat, k: nat): Data
    requires a < |y.acts| == |tag|
  {
    Data(y.acts[a].src, y.acts[a].dst, tag[a] + k)
  }

  predicate Enabled(y: System, s: State, step: Step)
    requires WellFormed(y) && Shape(y, s)
  {
    match step
    case RunTask(r) => r < y.ranks && s.unstarted[r] > 0
    case Announce(a) => a < |y.acts| && s.sender[a].Unsent?
    case SendActivate(a) => a < |y.acts| && a in s.queue
    case TakeActivate(a, i) => a < |y.acts| && a in s.activates && i < y.slots && s.recv[y.acts[a].dst][i].Listening?
    case TakeGet(g, j) => g in s.gets && g.act < |y.acts| && j < y.slots && s.send[y.acts[g.act].src][j].Idle?
    case PutEnd(r, j, k) =>
      && r < y.ranks && j < y.slots && s.send[r][j].Serving? && s.send[r][j].act < |y.acts|
      && k in s.send[r][j].which
    case GetEnd(r, i, k) =>
      && r < y.ranks && i < y.slots && s.recv[r][i].Receiving? && s.recv[r][i].act < |y.acts|
      && k in s.recv[r][i].posted
      && Data(y.acts[s.recv[r][i].act].src, r, s.recv[r][i].tag + k) in s.datas
  }

  /** Exclusive or of two masks. */
  function Xor(a: set<nat>, b: set<nat>): set<nat> {
    (a - b) + (b - a)
  }

  function Puts(act: Act, which: set<nat>, tag: nat): (r: multiset<Data>)
    ensures forall m :: r[m] == if m.src == act.src && m.dst == act.dst && m.tag - tag in which then 1 else 0
  {
    multiset(set k | k in which :: Data(act.src, act.dst, tag + k))
  }

  function Pairs(a: nat, outputs: set<nat>): (r: multiset<(nat, nat)>)
    ensures forall p :: r[p] == if p.0 == a && p.1 in outputs then 1 else 0
  {
    multiset(set k | k in outputs :: (a, k))
  }

  /** A receive completed: mark the output, release the marked outputs, clear them from `which`, and
      listen again once nothing is missing. */
  function Received(slot: RecvSlot, k: nat): (RecvSlot, set<nat>)
    requires slot.Receiving?
  {
    var deps := slot.deps + {k};
    var which := Xor(slot.which, deps);
    var after := Receiving(slot.act, which, {}, slot.tag, slot.posted - {k});
    (if after.which == after.deps then Listening else after, deps)
  }

  function After(y: System, s: State, step: Step): (r: State)
    requires WellFormed(y) && Shape(y, s) && Enabled(y, s, step)
    ensures Shape(y, r)
  {
    match step
    case RunTask(r) =>
      s.(unstarted := s.unstarted[r := s.unstarted[r] - 1], todo := s.todo[r := s.todo[r] - 1])
    case Announce(a) =>
      var p := y.acts[a].src;
      s.(todo := s.todo[p := s.todo[p] + 1], queue := s.queue + multiset{a}, sender := s.sender[a := Queued])
    case SendActivate(a) =>
      s.(queue := s.queue - multiset{a}, activates := s.activates + multiset{a}, sender := s.sender[a := Activating])
    case TakeActivate(a, i) =>
      var act := y.acts[a];
      var t := s.nextTag[act.dst];
      s.(activates := s.activates - multiset{a},
         recv := s.recv[act.dst := s.recv[act.dst][i := Receiving(a, act.which, {}, t, act.which)]],
         gets := s.gets + multiset{Get(a, act.which, t)},
         nextTag := s.nextTag[act.dst := t + MAX_PARAM_COUNT],
         receiver := s.receiver[a := InSlot(i)],
         tag := s.tag[a := t])
    case TakeGet(g, j) =>
      var act := y.acts[g.act];
      s.(gets := s.gets - multiset{g},
         send := s.send[act.src := s.send[act.src][j := Serving(g.act, g.which, g.tag)]],
         datas := s.datas + Puts(act, g.which, g.tag),
         sender := s.sender[g.act := Put(j)])
    case PutEnd(r, j, k) =>
      var slot := s.send[r][j];
      var which := Xor(slot.which, {k});
      if which == {} then
        s.(send := s.send[r := s.send[r][j := Idle]], todo := s.todo[r := s.todo[r] - 1],
           sender := s.sender[slot.act := Served])
      else
        s.(send := s.send[r := s.send[r][j := slot.(which := which)]])
    case GetEnd(r, i, k) =>
      var slot := s.recv[r][i];
      var (after, deps) := Received(slot, k);
      s.(datas := s.datas - multiset{Data(y.acts[slot.act].src, r, slot.tag + k)},
         recv := s.recv[r := s.recv[r][i := after]],
         released := s.released + Pairs(slot.act, deps),
         receiver := if after.Listening? then s.receiver[slot.act := Complete] else s.receiver)
  }

  // ------------------------------------------------------------------ the invariant

  /** The puts have been issued. */
  predicate Sending(p: Sender) {
    p.Put? || p.Served?
  }

  /** Announced and not fully served. */
  predicate InFlight(p: Sender) {
    p.Queued? || p.Activating? || p.Put?
  }

  predicate Sized(y: System, sender: seq<Sender>, receiver: seq<Receiver>, tag: seq<nat>) {
    |sender| == |receiver| == |tag| == |y.acts|
  }

  predicate Grid<T>(y: System, m: seq<seq<T>>) {
    |m| == y.ranks && forall r :: 0 <= r < y.ranks ==> |m[r]| == y.slots
  }

  predicate QueueAt(queue: multiset<nat>, activates: multiset<nat>, sender: seq<Sender>, receiver: seq<Receiver>, a: nat)
    requires a < |sender| == |receiver|
  {
    && queue[a] == (if sender[a].Queued? then 1 else 0)
    && activates[a] == (if sender[a].Activating? && receiver[a].Waiting? then 1 else 0)
    && (!receiver[a].Waiting? ==> sender[a].Activating? || Sending(sender[a]))
    && (Sending(sender[a]) ==> !receiver[a].Waiting?)
  }

  predicate QueueOk(y: System, queue: multiset<nat>, activates: multiset<nat>, sender: seq<Sender>, receiver: seq<Receiver>)
    requires |sender| == |receiver| == |y.acts|
  {
    forall a :: 0 <= a < |y.acts| ==> QueueAt(queue, activates, sender, receiver, a)
  }

  predicate GetAt(y: System, gets: multiset<Get>, sender: seq<Sender>, receiver: seq<Receiver>, tag: seq<nat>, a: nat)
    requires Sized(y, sender, receiver, tag) && a < |y.acts|
  {
    gets[Get(a, y.acts[a].which, tag[a])] == if sender[a].Activating? && !receiver[a].Waiting? then 1 else 0
  }

  predicate KnownGet(y: System, tag: seq<nat>, g: Get)
    requires |tag| == |y.acts|
  {
    g.act < |y.acts| && g.which == y.acts[g.act].which && g.tag == tag[g.act]
  }

  predicate GetsOk(y: System, gets: multiset<Get>, sender: seq<Sender>, receiver: seq<Receiver>, tag: seq<nat>)
    requires Sized(y, sender, receiver, tag)
  {
    && (forall a :: 0 <= a < |y.acts| ==> GetAt(y, gets, sender, receiver, tag, a))
    && (forall g <- gets :: KnownGet(y, tag, g))
  }

  predicate SendAt(y: System, send: seq<seq<SendSlot>>, sender: seq<Sender>, tag: seq<nat>, r: nat, j: nat)
    requires Grid(y, send) && |sender| == |tag| == |y.acts| && r < y.ranks && j < y.slots
  {
    var slot := send[r][j];
    slot.Serving? ==>
      && slot.act < |y.acts| && y.acts[slot.act].src == r && sender[slot.act] == Put(j) && slot.tag == tag[slot.act]
      && slot.which != {} && slot.which <= y.acts[slot.act].which
  }

  predicate PutAt(y: System, send: seq<seq<SendSlot>>, sender: seq<Sender>, a: nat)
    requires WellFormed(y) && Grid(y, send) && a < |sender| == |y.acts|
  {
    sender[a].Put? ==>
      && sender[a].slot < y.slots
      && var slot := send[y.acts[a].src][sender[a].slot];
         slot.Serving? && slot.act == a
  }

  predicate SendOk(y: System, send: seq<seq<SendSlot>>, sender: seq<Sender>, tag: seq<nat>)
    requires WellFormed(y) && Grid(y, send) && |sender| == |tag| == |y.acts|
  {
    && (forall r, j :: 0 <= r < y.ranks && 0 <= j < y.slots ==> SendAt(y, send, sender, tag, r, j))
    && (forall a :: 0 <= a < |y.acts| ==> PutAt(y, send, sender, a))
  }

  /** Outputs of an activation not released yet. */
  function Missing(y: System, released: multiset<(nat, nat)>, a: nat): set<nat>
    requires a < |y.acts|
  {
    set k | k in y.acts[a].which && released[(a, k)] == 0
  }

  /** A slot that receives has exactly the missing outputs marked and posted. */
  predicate RecvAt(y: System, recv: seq<seq<RecvSlot>>, receiver: seq<Receiver>, tag: seq<nat>,
                   released: multiset<(nat, nat)>, r: nat, i: nat)
    requires Grid(y, recv) && |receiver| == |tag| == |y.acts| && r < y.ranks && i < y.slots
  {
    var slot := recv[r][i];
    slot.Receiving? ==>
      && slot.act < |y.acts| && y.acts[slot.act].dst == r && receiver[slot.act] == InSlot(i) && slot.tag == tag[slot.act]
      && slot.deps == {} && slot.posted == slot.which == Missing(y, released, slot.act) != {}
  }

  predicate InSlotAt(y: System, recv: seq<seq<RecvSlot>>, receiver: seq<Receiver>, a: nat)
    requires WellFormed(y) && Grid(y, recv) && a < |receiver| == |y.acts|
  {
    receiver[a].InSlot? ==>
      && receiver[a].slot < y.slots
      && var slot := recv[y.acts[a].dst][receiver[a].slot];
         slot.Receiving? && slot.act == a
  }

  predicate RecvOk(y: System, recv: seq<seq<RecvSlot>>, receiver: seq<Receiver>, tag: seq<nat>, released: multiset<(nat, nat)>)
    requires WellFormed(y) && Grid(y, recv) && |receiver| == |tag| == |y.acts|
  {
    && (forall r, i :: 0 <= r < y.ranks && 0 <= i < y.slots ==> RecvAt(y, recv, receiver, tag, released, r, i))
    && (forall a :: 0 <= a < |y.acts| ==> InSlotAt(y, recv, receiver, a))
  }

  /** A put is in the network from the time it is sent until its output is released. */
  predicate DataAt(y: System, datas: multiset<Data>, sender: seq<Sender>, receiver: seq<Receiver>, tag: seq<nat>,
                   released: multiset<(nat, nat)>, a: nat, k: nat)
    requires Sized(y, sender, receiver, tag) && a < |y.acts|
  {
    !receiver[a].Waiting? ==>
      datas[DataOf(y, tag, a, k)] == if k in y.acts[a].which && Sending(sender[a]) && released[(a, k)] == 0 then 1 else 0
  }

  predicate DataOk(y: System, datas: multiset<Data>, sender: seq<Sender>, receiver: seq<Receiver>, tag: seq<nat>,
                   released: multiset<(nat, nat)>)
    requires Sized(y, sender, receiver, tag)
  {
    forall a, k :: 0 <= a < |y.acts| && 0 <= k < MAX_PARAM_COUNT ==> DataAt(y, datas, sender, receiver, tag, released, a, k)
  }

  /** Every tag in the network was handed out before. */
  predicate OldTags(y: System, datas: multiset<Data>, nextTag: seq<nat>)
    requires |nextTag| == y.ranks
  {
    forall m <- datas :: m.dst < y.ranks && m.tag < nextTag[m.dst]
  }

  ghost predicate ReleasedAt(y: System, sender: seq<Sender>, receiver: seq<Receiver>, released: multiset<(nat, nat)>, a: nat)
    requires a < |sender| == |receiver| == |y.acts|
  {
    && (forall k: nat :: released[(a, k)] <= 1 && (released[(a, k)] > 0 ==> k in y.acts[a].which && Sending(sender[a])))
    && (receiver[a].Waiting? ==> forall k: nat :: released[(a, k)] == 0)
    && (receiver[a].Complete? <==> Missing(y, released, a) == {})
  }

  ghost predicate ReleasedOk(y: System, sender: seq<Sender>, receiver: seq<Receiver>, released: multiset<(nat, nat)>)
    requires |sender| == |receiver| == |y.acts|
  {
    forall a :: 0 <= a < |y.acts| ==> ReleasedAt(y, sender, receiver, released, a)
  }

  predicate TagAt(y: System, receiver: seq<Receiver>, tag: seq<nat>, nextTag: seq<nat>, a: nat)
    requires WellFormed(y) && a < |receiver| == |tag| == |y.acts| && |nextTag| == y.ranks
  {
    !receiver[a].Waiting? ==> tag[a] + MAX_PARAM_COUNT <= nextTag[y.acts[a].dst]
  }

  /** Two gets of the same consumer reserve disjoint tags. */
  predicate Apart(y: System, receiver: seq<Receiver>, tag: seq<nat>, a: nat, b: nat)
    requires a < |receiver| == |tag| == |y.acts| && b < |receiver|
  {
    a != b && y.acts[a].dst == y.acts[b].dst && !receiver[a].Waiting? && !receiver[b].Waiting? ==>
      tag[a] + MAX_PARAM_COUNT <= tag[b] || tag[b] + MAX_PARAM_COUNT <= tag[a]
  }

  predicate TagsOk(y: System, receiver: seq<Receiver>, tag: seq<nat>, nextTag: seq<nat>)
    requires WellFormed(y) && |receiver| == |tag| == |y.acts| && |nextTag| == y.ranks
  {
    && (forall a :: 0 <= a < |y.acts| ==> TagAt(y, receiver, tag, nextTag, a))
    && (forall a, b :: 0 <= a < |y.acts| && 0 <= b < |y.acts| ==> Apart(y, receiver, tag, a, b))
  }

  /** Activations of rank `r` not fully served. */
  function Flying(y: System, sender: seq<Sender>, r: nat): set<nat>
    requires |sender| == |y.acts|
  {
    set a: nat | a < |y.acts| && y.acts[a].src == r && InFlight(sender[a])
  }

  predicate TodoAt(y: System, todo: seq<int>, unstarted: seq<nat>, sender: seq<Sender>, r: nat)
    requires |sender| == |y.acts| && r < |todo| == |unstarted|
  {
    todo[r] == unstarted[r] + |Flying(y, sender, r)|
  }

  predicate TodoOk(y: System, todo: seq<int>, unstarted: seq<nat>, sender: seq<Sender>)
    requires |sender| == |y.acts| && |todo| == |unstarted| == y.ranks
  {
    forall r :: 0 <= r < y.ranks ==> TodoAt(y, todo, unstarted, sender, r)
  }

  ghost predicate Inv(y: System, s: State)
    requires WellFormed(y)
  {
    && Shape(y, s) && Grid(y, s.recv) && Grid(y, s.send)
    && QueueOk(y, s.queue, s.activates, s.sender, s.receiver)
    && GetsOk(y, s.gets, s.sender, s.receiver, s.tag)
    && SendOk(y, s.send, s.sender, s.tag)
    && RecvOk(y, s.recv, s.receiver, s.tag, s.released)
    && DataOk(y, s.datas, s.sender, s.receiver, s.tag, s.released)
    && OldTags(y, s.datas, s.nextTag)
    && ReleasedOk(y, s.sender, s.receiver, s.released)
    && TagsOk(y, s.receiver, s.tag, s.nextTag)
    && TodoOk(y, s.todo, s.unstarted, s.sender)
  }

  // ------------------------------------------------------------------ steps that change only the producer's view

  /** The producer's view of `a` changes from `p` to `p'` without the puts being issued or withdrawn. */
  predicate Quiet(p: Sender, p': Sender) {
    Sending(p) == Sending(p')
  }

  lemma QuietData(y: System, s: State, a: nat, p: Sender)
    requires WellFormed(y) && Inv(y, s) && a < |y.acts| && Quiet(s.sender[a], p)
    ensures DataOk(y, s.datas, s.sender[a := p], s.receiver, s.tag, s.released)
    ensures ReleasedOk(y, s.sender[a := p], s.receiver, s.released)
  {
    var sender' := s.sender[a := p];
    forall b, k | 0 <= b < |y.acts| && 0 <= k < MAX_PARAM_COUNT
      ensures DataAt(y, s.datas, sender', s.receiver, s.tag, s.released, b, k)
    {
      assert DataAt(y, s.datas, s.sender, s.receiver, s.tag, s.released, b, k);
    }
    forall b | 0 <= b < |y.acts|
      ensures ReleasedAt(y, sender', s.receiver, s.released, b)
    {
      assert ReleasedAt(y, s.sender, s.receiver, s.released, b);
    }
  }

  lemma OneMore(before: set<nat>, after: set<nat>, a: nat)
    requires a !in before && after == before + {a}
    ensures |after| == |before| + 1
  {
  }

  lemma FlyingChanges(y: System, sender: seq<Sender>, a: nat, p: Sender, r: nat)
    requires a < |y.acts| == |sender|
    ensures |Flying(y, sender[a := p], r)| == |Flying(y, sender, r)|
      + (if y.acts[a].src == r then (if InFlight(p) then 1 else 0) - (if InFlight(sender[a]) then 1 else 0) else 0)
  {
    var before, after := Flying(y, sender, r), Flying(y, sender[a := p], r);
    assert forall b :: b != a ==> (b in before <==> b in after);
    if y.acts[a].src == r && InFlight(p) && !InFlight(sender[a]) {
      OneMore(before, after, a);
    } else if y.acts[a].src == r && !InFlight(p) && InFlight(sender[a]) {
      OneMore(after, before, a);
    } else {
      assert before == after;
    }
  }

  /** The counter follows the flying messages. */
  lemma TodoChanges(y: System, todo: seq<int>, unstarted: seq<nat>, sender: seq<Sender>, a: nat, p: Sender, todo': seq<int>)
    requires WellFormed(y) && a < |y.acts| == |sender| && |todo| == |todo'| == |unstarted| == y.ranks
    requires TodoOk(y, todo, unstarted, sender)
    requires todo' == todo[y.acts[a].src :=
      todo[y.acts[a].src] + (if InFlight(p) then 1 else 0) - (if InFlight(sender[a]) then 1 else 0)]
    ensures TodoOk(y, todo', unstarted, sender[a := p])
  {
    var sender' := sender[a := p];
    forall r | 0 <= r < y.ranks
      ensures TodoAt(y, todo', unstarted, sender', r)
    {
      assert TodoAt(y, todo, unstarted, sender, r);
      FlyingChanges(y, sender, a, p, r);
    }
  }

  lemma SendFrame(y: System, send: seq<seq<SendSlot>>, sender: seq<Sender>, tag: seq<nat>, a: nat, p: Sender)
    requires WellFormed(y) && Grid(y, send) && |sender| == |tag| == |y.acts| && SendOk(y, send, sender, tag)
    requires a < |y.acts| && !sender[a].Put? && !p.Put?
    ensures SendOk(y, send, sender[a := p], tag)
  {
    var sender' := sender[a := p];
    forall r, j | 0 <= r < y.ranks && 0 <= j < y.slots
      ensures SendAt(y, send, sender', tag, r, j)
    {
      assert SendAt(y, send, sender, tag, r, j);
    }
    forall b | 0 <= b < |y.acts|
      ensures PutAt(y, send, sender', b)
    {
      assert PutAt(y, send, sender, b);
    }
  }

  lemma GetsFrame(y: System, s: State, a: nat, p: Sender)
    requires WellFormed(y) && Inv(y, s) && a < |y.acts|
    requires (p.Activating? && !s.receiver[a].Waiting?) == (s.sender[a].Activating? && !s.receiver[a].Waiting?)
    ensures GetsOk(y, s.gets, s.sender[a := p], s.receiver, s.tag)
  {
    var sender' := s.sender[a := p];
    forall b | 0 <= b < |y.acts|
      ensures GetAt(y, s.gets, sender', s.receiver, s.tag, b)
    {
      assert GetAt(y, s.gets, s.sender, s.receiver, s.tag, b);
    }
  }

  lemma RunTaskKeepsInv(y: System, s: State, r: nat)
    requires WellFormed(y) && Inv(y, s) && Enabled(y, s, RunTask(r))
    ensures Inv(y, After(y, s, RunTask(r)))
  {
    var s' := After(y, s, RunTask(r));
    forall q | 0 <= q < y.ranks
      ensures TodoAt(y, s'.todo, s'.unstarted, s.sender, q)
    {
      assert TodoAt(y, s.todo, s.unstarted, s.sender, q);
    }
  }

  lemma AnnounceKeepsInv(y: System, s: State, a: nat)
    requires WellFormed(y) && Inv(y, s) && Enabled(y, s, Announce(a))
    ensures Inv(y, After(y, s, Announce(a)))
  {
    var s' := After(y, s, Announce(a));
    forall b | 0 <= b < |y.acts|
      ensures QueueAt(s'.queue, s'.activates, s'.sender, s'.receiver, b)
    {
      assert QueueAt(s.queue, s.activates, s.sender, s.receiver, b);
    }
    GetsFrame(y, s, a, Queued);
    SendFrame(y, s.send, s.sender, s.tag, a, Queued);
    QuietData(y, s, a, Queued);
    TodoChanges(y, s.todo, s.unstarted, s.sender, a, Queued, s'.todo);
  }

  lemma SendActivateKeepsInv(y: System, s: State, a: nat)
    requires WellFormed(y) && Inv(y, s) && Enabled(y, s, SendActivate(a))
    ensures Inv(y, After(y, s, SendActivate(a)))
  {
    var s' := After(y, s, SendActivate(a));
    assert QueueAt(s.queue, s.activates, s.sender, s.receiver, a);
    forall b | 0 <= b < |y.acts|
      ensures QueueAt(s'.queue, s'.activates, s'.sender, s'.receiver, b)
    {
      assert QueueAt(s.queue, s.activates, s.sender, s.receiver, b);
    }
    GetsFrame(y, s, a, Activating);
    SendFrame(y, s.send, s.sender, s.tag, a, Activating);
    QuietData(y, s, a, Activating);
    TodoChanges(y, s.todo, s.unstarted, s.sender, a, Activating, s.todo);
  }

  // ------------------------------------------------------------------ the consumer takes an activation

  /** No get of an activation that still waits is in the network. */
  lemma NoGetYet(y: System, s: State, a: nat, t: nat)
    requires WellFormed(y) && Inv(y, s) && a < |y.acts| && s.receiver[a].Waiting?
    ensures forall g <- s.gets :: g.act != a
    ensures s.gets[Get(a, y.acts[a].which, t)] == 0
  {
    assert GetAt(y, s.gets, s.sender, s.receiver, s.tag, a);
    forall g | g in s.gets
      ensures g.act != a
    {
      assert KnownGet(y, s.tag, g);
    }
  }

  lemma TakeGets(y: System, s: State, a: nat, i: nat, t: nat)
    requires WellFormed(y) && Inv(y, s) && a < |y.acts| && s.receiver[a].Waiting? && s.sender[a].Activating?
    ensures GetsOk(y, s.gets + multiset{Get(a, y.acts[a].which, t)}, s.sender, s.receiver[a := InSlot(i)], s.tag[a := t])
  {
    var gets', receiver', tag' := s.gets + multiset{Get(a, y.acts[a].which, t)}, s.receiver[a := InSlot(i)], s.tag[a := t];
    NoGetYet(y, s, a, t);
    forall b | 0 <= b < |y.acts|
      ensures GetAt(y, gets', s.sender, receiver', tag', b)
    {
      assert GetAt(y, s.gets, s.sender, s.receiver, s.tag, b);
    }
    forall g | g in gets'
      ensures KnownGet(y, tag', g)
    {
      assert g in s.gets ==> KnownGet(y, s.tag, g);
    }
  }

  lemma TakeSend(y: System, send: seq<seq<SendSlot>>, sender: seq<Sender>, tag: seq<nat>, a: nat, t: nat)
    requires WellFormed(y) && Grid(y, send) && |sender| == |tag| == |y.acts| && SendOk(y, send, sender, tag)
    requires a < |y.acts| && !sender[a].Put?
    ensures SendOk(y, send, sender, tag[a := t])
  {
    var tag' := tag[a := t];
    forall r, j | 0 <= r < y.ranks && 0 <= j < y.slots
      ensures SendAt(y, send, sender, tag', r, j)
    {
      assert SendAt(y, send, sender, tag, r, j);
    }
  }

  lemma TakeRecv(y: System, s: State, a: nat, i: nat, t: nat, recv': seq<seq<RecvSlot>>)
    requires WellFormed(y) && Inv(y, s) && a < |y.acts| && s.receiver[a].Waiting?
    requires i < y.slots && s.recv[y.acts[a].dst][i].Listening?
    requires recv' == s.recv[y.acts[a].dst :=
      s.recv[y.acts[a].dst][i := Receiving(a, y.acts[a].which, {}, t, y.acts[a].which)]]
    ensures Grid(y, recv') && RecvOk(y, recv', s.receiver[a := InSlot(i)], s.tag[a := t], s.released)
    ensures Missing(y, s.released, a) == y.acts[a].which
  {
    var receiver', tag' := s.receiver[a := InSlot(i)], s.tag[a := t];
    assert ReleasedAt(y, s.sender, s.receiver, s.released, a);
    assert Missing(y, s.released, a) == y.acts[a].which;
    forall r, j | 0 <= r < y.ranks && 0 <= j < y.slots
      ensures RecvAt(y, recv', receiver', tag', s.released, r, j)
    {
      assert RecvAt(y, s.recv, s.receiver, s.tag, s.released, r, j);
    }
    forall b | 0 <= b < |y.acts|
      ensures InSlotAt(y, recv', receiver', b)
    {
      assert InSlotAt(y, s.recv, s.receiver, b);
    }
  }

  /** Fresh tags: nothing in the network can be mistaken for the puts this get will cause. */
  lemma TakeData(y: System, s: State, a: nat, i: nat)
    requires WellFormed(y) && Inv(y, s) && a < |y.acts| && s.receiver[a].Waiting? && s.sender[a].Activating?
    ensures var t := s.nextTag[y.acts[a].dst];
      DataOk(y, s.datas, s.sender, s.receiver[a := InSlot(i)], s.tag[a := t], s.released)
  {
    var t := s.nextTag[y.acts[a].dst];
    var receiver', tag' := s.receiver[a := InSlot(i)], s.tag[a := t];
    forall b, k | 0 <= b < |y.acts| && 0 <= k < MAX_PARAM_COUNT
      ensures DataAt(y, s.datas, s.sender, receiver', tag', s.released, b, k)
    {
      assert DataAt(y, s.datas, s.sender, s.receiver, s.tag, s.released, b, k);
      if b == a {
        assert DataOf(y, tag', a, k) !in s.datas;
      }
    }
  }

  lemma TakeTags(y: System, receiver: seq<Receiver>, tag: seq<nat>, nextTag: seq<nat>, a: nat, i: nat)
    requires WellFormed(y) && |receiver| == |tag| == |y.acts| && |nextTag| == y.ranks && TagsOk(y, receiver, tag, nextTag)
    requires a < |y.acts|
    ensures var d := y.acts[a].dst;
      TagsOk(y, receiver[a := InSlot(i)], tag[a := nextTag[d]], nextTag[d := nextTag[d] + MAX_PARAM_COUNT])
  {
    var d := y.acts[a].dst;
    var receiver', tag', nextTag' := receiver[a := InSlot(i)], tag[a := nextTag[d]], nextTag[d := nextTag[d] + MAX_PARAM_COUNT];
    forall b | 0 <= b < |y.acts|
      ensures TagAt(y, receiver', tag', nextTag', b)
    {
      assert TagAt(y, receiver, tag, nextTag, b);
    }
    forall b, c | 0 <= b < |y.acts| && 0 <= c < |y.acts|
      ensures Apart(y, receiver', tag', b, c)
    {
      assert Apart(y, receiver, tag, b, c);
      assert TagAt(y, receiver, tag, nextTag, b) && TagAt(y, receiver, tag, nextTag, c);
    }
  }

  lemma TakeActivateKeepsInv(y: System, s: State, a: nat, i: nat)
    requires WellFormed(y) && Inv(y, s) && Enabled(y, s, TakeActivate(a, i))
    ensures Inv(y, After(y, s, TakeActivate(a, i)))
  {
    var s' := After(y, s, TakeActivate(a, i));
    assert QueueAt(s.queue, s.activates, s.sender, s.receiver, a);
    forall b | 0 <= b < |y.acts|
      ensures QueueAt(s'.queue, s'.activates, s'.sender, s'.receiver, b)
    {
      assert QueueAt(s.queue, s.activates, s.sender, s.receiver, b);
    }
    TakeGets(y, s, a, i, s.nextTag[y.acts[a].dst]);
    TakeSend(y, s.send, s.sender, s.tag, a, s.nextTag[y.acts[a].dst]);
    TakeRecv(y, s, a, i, s.nextTag[y.acts[a].dst], s'.recv);
    TakeData(y, s, a, i);
    TakeTags(y, s.receiver, s.tag, s.nextTag, a, i);
    forall b | 0 <= b < |y.acts|
      ensures ReleasedAt(y, s'.sender, s'.receiver, s'.released, b)
    {
      assert ReleasedAt(y, s.sender, s.receiver, s.released, b);
    }
  }

  // ------------------------------------------------------------------ the producer serves a get

  lemma ServeGets(y: System, s: State, g: Get, j: nat)
    requires WellFormed(y) && Inv(y, s) && g in s.gets
    ensures g.act < |y.acts| && g.which == y.acts[g.act].which && g.tag == s.tag[g.act]
    ensures s.sender[g.act].Activating? && !s.receiver[g.act].Waiting?
    ensures GetsOk(y, s.gets - multiset{g}, s.sender[g.act := Put(j)], s.receiver, s.tag)
  {
    var a, gets' := g.act, s.gets - multiset{g};
    assert KnownGet(y, s.tag, g);
    assert GetAt(y, s.gets, s.sender, s.receiver, s.tag, a);
    var sender' := s.sender[a := Put(j)];
    forall b | 0 <= b < |y.acts|
      ensures GetAt(y, gets', sender', s.receiver, s.tag, b)
    {
      assert GetAt(y, s.gets, s.sender, s.receiver, s.tag, b);
    }
    forall h | h in gets'
      ensures KnownGet(y, s.tag, h)
    {
      assert h in s.gets;
    }
  }

  lemma ServeSend(y: System, send: seq<seq<SendSlot>>, sender: seq<Sender>, tag: seq<nat>, a: nat, j: nat,
                  send': seq<seq<SendSlot>>)
    requires WellFormed(y) && Grid(y, send) && |sender| == |tag| == |y.acts| && SendOk(y, send, sender, tag)
    requires a < |y.acts| && j < y.slots && send[y.acts[a].src][j].Idle? && !sender[a].Put?
    requires send' == send[y.acts[a].src := send[y.acts[a].src][j := Serving(a, y.acts[a].which, tag[a])]]
    ensures Grid(y, send') && SendOk(y, send', sender[a := Put(j)], tag)
  {
    var sender' := sender[a := Put(j)];
    forall r, i | 0 <= r < y.ranks && 0 <= i < y.slots
      ensures SendAt(y, send', sender', tag, r, i)
    {
      assert SendAt(y, send, sender, tag, r, i);
    }
    forall b | 0 <= b < |y.acts|
      ensures PutAt(y, send', sender', b)
    {
      assert PutAt(y, send, sender, b);
    }
  }

  lemma PutsAdd(datas: multiset<Data>, act: Act, which: set<nat>, tag: nat, k: nat, d: Data)
    requires d == Data(act.src, act.dst, tag + k)
    ensures (datas + Puts(act, which, tag))[d] == datas[d] + if k in which then 1 else 0
  {
    assert d.tag - tag == k;
  }

  lemma ServeOwnData(y: System, s: State, a: nat, j: nat, k: nat)
    requires WellFormed(y) && Inv(y, s) && a < |y.acts| && s.sender[a].Activating? && !s.receiver[a].Waiting?
    requires k < MAX_PARAM_COUNT
    ensures DataAt(y, s.datas + Puts(y.acts[a], y.acts[a].which, s.tag[a]), s.sender[a := Put(j)], s.receiver, s.tag,
                   s.released, a, k)
  {
    assert s.datas[DataOf(y, s.tag, a, k)] == 0 by {
      assert DataAt(y, s.datas, s.sender, s.receiver, s.tag, s.released, a, k);
    }
    assert s.released[(a, k)] == 0 by { assert ReleasedAt(y, s.sender, s.receiver, s.released, a); }
    OwnDataAt(y, s.datas, s.sender[a := Put(j)], s.receiver, s.tag, s.released, a, k);
  }

  lemma OwnDataAt(y: System, datas: multiset<Data>, sender: seq<Sender>, receiver: seq<Receiver>, tag: seq<nat>,
                  released: multiset<(nat, nat)>, a: nat, k: nat)
    requires Sized(y, sender, receiver, tag) && a < |y.acts| && Sending(sender[a]) && released[(a, k)] == 0
    requires datas[DataOf(y, tag, a, k)] == 0
    ensures DataAt(y, datas + Puts(y.acts[a], y.acts[a].which, tag[a]), sender, receiver, tag, released, a, k)
  {
    PutsAdd(datas, y.acts[a], y.acts[a].which, tag[a], k, DataOf(y, tag, a, k));
  }

  lemma ServeOtherData(y: System, s: State, a: nat, j: nat, b: nat, k: nat)
    requires WellFormed(y) && Inv(y, s) && a < |y.acts| && !s.receiver[a].Waiting?
    requires b < |y.acts| && b != a && k < MAX_PARAM_COUNT
    ensures DataAt(y, s.datas + Puts(y.acts[a], y.acts[a].which, s.tag[a]), s.sender[a := Put(j)], s.receiver, s.tag,
                   s.released, b, k)
  {
    assert DataAt(y, s.datas, s.sender, s.receiver, s.tag, s.released, b, k);
    assert Apart(y, s.receiver, s.tag, a, b) && Legitimate(y, y.acts[a]);
    if !s.receiver[b].Waiting? {
      assert Puts(y.acts[a], y.acts[a].which, s.tag[a])[DataOf(y, s.tag, b, k)] == 0;
    }
  }

  lemma ServeData(y: System, s: State, a: nat, j: nat)
    requires WellFormed(y) && Inv(y, s) && a < |y.acts| && s.sender[a].Activating? && !s.receiver[a].Waiting?
    ensures var datas' := s.datas + Puts(y.acts[a], y.acts[a].which, s.tag[a]);
      DataOk(y, datas', s.sender[a := Put(j)], s.receiver, s.tag, s.released) && OldTags(y, datas', s.nextTag)
  {
    var datas', sender' := s.datas + Puts(y.acts[a], y.acts[a].which, s.tag[a]), s.sender[a := Put(j)];
    forall b, k | 0 <= b < |y.acts| && 0 <= k < MAX_PARAM_COUNT
      ensures DataAt(y, datas', sender', s.receiver, s.tag, s.released, b, k)
    {
      if a == b {
        ServeOwnData(y, s, a, j, k);
      } else {
        ServeOtherData(y, s, a, j, b, k);
      }
    }
    assert TagAt(y, s.receiver, s.tag, s.nextTag, a) && Legitimate(y, y.acts[a]);
    forall m | m in datas'
      ensures m.dst < y.ranks && m.tag < s.nextTag[m.dst]
    {
      if m !in s.datas {
        assert Puts(y.acts[a], y.acts[a].which, s.tag[a])[m] > 0;
        assert m.tag - s.tag[a] in y.acts[a].which;
      }
    }
  }

  lemma TakeGetKeepsInv(y: System, s: State, g: Get, j: nat)
    requires WellFormed(y) && Inv(y, s) && Enabled(y, s, TakeGet(g, j))
    ensures Inv(y, After(y, s, TakeGet(g, j)))
  {
    var s', a := After(y, s, TakeGet(g, j)), g.act;
    ServeGets(y, s, g, j);
    ServeSend(y, s.send, s.sender, s.tag, a, j, s'.send);
    ServeData(y, s, a, j);
    TodoChanges(y, s.todo, s.unstarted, s.sender, a, Put(j), s.todo);
    forall b | 0 <= b < |y.acts|
      ensures QueueAt(s'.queue, s'.activates, s'.sender, s'.receiver, b)
      ensures ReleasedAt(y, s'.sender, s'.receiver, s'.released, b)
    {
      assert QueueAt(s.queue, s.activates, s.sender, s.receiver, b);
      assert ReleasedAt(y, s.sender, s.receiver, s.released, b);
    }
  }

  // ------------------------------------------------------------------ a put has left the producer

  lemma PutEndSend(y: System, send: seq<seq<SendSlot>>, sender: seq<Sender>, tag: seq<nat>, r: nat, j: nat, k: nat)
    requires WellFormed(y) && Grid(y, send) && |sender| == |tag| == |y.acts| && SendOk(y, send, sender, tag)
    requires r < y.ranks && j < y.slots && send[r][j].Serving? && k in send[r][j].which
    ensures send[r][j].act < |y.acts| && y.acts[send[r][j].act].src == r && sender[send[r][j].act] == Put(j)
    ensures var which := Xor(send[r][j].which, {k});
      if which == {} then SendOk(y, send[r := send[r][j := Idle]], sender[send[r][j].act := Served], tag)
      else SendOk(y, send[r := send[r][j := send[r][j].(which := which)]], sender, tag)
  {
    assert SendAt(y, send, sender, tag, r, j);
    var a, which := send[r][j].act, Xor(send[r][j].which, {k});
    var send' := send[r := send[r][j := if which == {} then Idle else send[r][j].(which := which)]];
    var sender' := if which == {} then sender[a := Served] else sender;
    forall q, i | 0 <= q < y.ranks && 0 <= i < y.slots
      ensures SendAt(y, send', sender', tag, q, i)
    {
      assert SendAt(y, send, sender, tag, q, i);
    }
    forall b | 0 <= b < |y.acts|
      ensures PutAt(y, send', sender', b)
    {
      assert PutAt(y, send, sender, b);
    }
  }

  lemma PutEndKeepsInv(y: System, s: State, r: nat, j: nat, k: nat)
    requires WellFormed(y) && Inv(y, s) && Enabled(y, s, PutEnd(r, j, k))
    ensures Inv(y, After(y, s, PutEnd(r, j, k)))
  {
    var s', a := After(y, s, PutEnd(r, j, k)), s.send[r][j].act;
    PutEndSend(y, s.send, s.sender, s.tag, r, j, k);
    if Xor(s.send[r][j].which, {k}) == {} {
      GetsFrame(y, s, a, Served);
      QuietData(y, s, a, Served);
      TodoChanges(y, s.todo, s.unstarted, s.sender, a, Served, s'.todo);
      forall b | 0 <= b < |y.acts|
        ensures QueueAt(s'.queue, s'.activates, s'.sender, s'.receiver, b)
      {
        assert QueueAt(s.queue, s.activates, s.sender, s.receiver, b);
      }
    }
  }

  // ------------------------------------------------------------------ a put has reached the consumer

  lemma ArrivedMask(which: set<nat>, k: nat)
    requires k in which
    ensures Xor(which, {} + {k}) == which - {k}
  {
  }

  lemma MissingAfter(y: System, released: multiset<(nat, nat)>, a: nat, k: nat, b: nat)
    requires a < |y.acts| && b < |y.acts|
    ensures Missing(y, released + Pairs(a, {k}), b) == Missing(y, released, b) - (if b == a then {k} else {})
  {
  }

  lemma ArrivedRecv(y: System, recv: seq<seq<RecvSlot>>, receiver: seq<Receiver>, tag: seq<nat>,
                    released: multiset<(nat, nat)>, r: nat, i: nat, k: nat)
    requires WellFormed(y) && Grid(y, recv) && |receiver| == |tag| == |y.acts| && RecvOk(y, recv, receiver, tag, released)
    requires r < y.ranks && i < y.slots && recv[r][i].Receiving? && k in recv[r][i].posted
    ensures var a := recv[r][i].act;
      var (after, deps) := Received(recv[r][i], k);
      && a < |y.acts| && y.acts[a].dst == r && receiver[a] == InSlot(i) && deps == {k} && k in Missing(y, released, a)
      && (after.Listening? <==> Missing(y, released, a) == {k})
      && RecvOk(y, recv[r := recv[r][i := after]], if after.Listening? then receiver[a := Complete] else receiver, tag,
                released + Pairs(a, {k}))
  {
    var a := recv[r][i].act;
    var (after, deps) := Received(recv[r][i], k);
    assert RecvAt(y, recv, receiver, tag, released, r, i);
    ArrivedMask(recv[r][i].which, k);
    MissingAfter(y, released, a, k, a);
    var recv', released' := recv[r := recv[r][i := after]], released + Pairs(a, {k});
    var receiver' := if after.Listening? then receiver[a := Complete] else receiver;
    forall q, j | 0 <= q < y.ranks && 0 <= j < y.slots
      ensures RecvAt(y, recv', receiver', tag, released', q, j)
    {
      assert RecvAt(y, recv, receiver, tag, released, q, j);
      if recv[q][j].Receiving? {
        MissingAfter(y, released, a, k, recv[q][j].act);
      }
    }
    forall b | 0 <= b < |y.acts|
      ensures InSlotAt(y, recv', receiver', b)
    {
      assert InSlotAt(y, recv, receiver, b);
    }
  }

  lemma ArrivedDataAt(y: System, s: State, a: nat, k: nat, b: nat, l: nat, receiver': seq<Receiver>)
    requires WellFormed(y) && Inv(y, s) && a < |y.acts| && !s.receiver[a].Waiting? && k in y.acts[a].which
    requires DataOf(y, s.tag, a, k) in s.datas && b < |y.acts| && l < MAX_PARAM_COUNT
    requires receiver' == s.receiver || receiver' == s.receiver[a := Complete]
    ensures DataAt(y, s.datas - multiset{DataOf(y, s.tag, a, k)}, s.sender, receiver', s.tag, s.released + Pairs(a, {k}), b, l)
  {
    assert DataAt(y, s.datas, s.sender, s.receiver, s.tag, s.released, b, l);
    assert DataAt(y, s.datas, s.sender, s.receiver, s.tag, s.released, a, k) by { assert Legitimate(y, y.acts[a]); }
    assert Apart(y, s.receiver, s.tag, a, b) && Legitimate(y, y.acts[a]);
  }

  lemma ArrivedData(y: System, s: State, a: nat, k: nat, receiver': seq<Receiver>)
    requires WellFormed(y) && Inv(y, s) && a < |y.acts| && !s.receiver[a].Waiting? && k in y.acts[a].which
    requires DataOf(y, s.tag, a, k) in s.datas
    requires receiver' == s.receiver || receiver' == s.receiver[a := Complete]
    ensures Sending(s.sender[a])
    ensures var datas' := s.datas - multiset{DataOf(y, s.tag, a, k)};
      && DataOk(y, datas', s.sender, receiver', s.tag, s.released + Pairs(a, {k})) && OldTags(y, datas', s.nextTag)
  {
    var datas', released' := s.datas - multiset{DataOf(y, s.tag, a, k)}, s.released + Pairs(a, {k});
    assert k < MAX_PARAM_COUNT by { assert Legitimate(y, y.acts[a]); }
    assert DataAt(y, s.datas, s.sender, s.receiver, s.tag, s.released, a, k);
    forall b, l | 0 <= b < |y.acts| && 0 <= l < MAX_PARAM_COUNT
      ensures DataAt(y, datas', s.sender, receiver', s.tag, released', b, l)
    {
      ArrivedDataAt(y, s, a, k, b, l, receiver');
    }
  }

  lemma ArrivedReleased(y: System, s: State, a: nat, k: nat, receiver': seq<Receiver>)
    requires WellFormed(y) && Inv(y, s) && a < |y.acts| && !s.receiver[a].Waiting? && Sending(s.sender[a])
    requires k in Missing(y, s.released, a)
    requires receiver' == if Missing(y, s.released, a) == {k} then s.receiver[a := Complete] else s.receiver
    ensures ReleasedOk(y, s.sender, receiver', s.released + Pairs(a, {k}))
  {
    var released' := s.released + Pairs(a, {k});
    forall b | 0 <= b < |y.acts|
      ensures ReleasedAt(y, s.sender, receiver', released', b)
    {
      assert ReleasedAt(y, s.sender, s.receiver, s.released, b);
      MissingAfter(y, s.released, a, k, b);
    }
  }

  lemma ArrivedOthers(y: System, s: State, a: nat)
    requires WellFormed(y) && Shape(y, s) && a < |y.acts| && !s.receiver[a].Waiting?
    requires QueueOk(y, s.queue, s.activates, s.sender, s.receiver) && GetsOk(y, s.gets, s.sender, s.receiver, s.tag)
    requires TagsOk(y, s.receiver, s.tag, s.nextTag)
    ensures QueueOk(y, s.queue, s.activates, s.sender, s.receiver[a := Complete])
    ensures GetsOk(y, s.gets, s.sender, s.receiver[a := Complete], s.tag)
    ensures TagsOk(y, s.receiver[a := Complete], s.tag, s.nextTag)
  {
    var receiver' := s.receiver[a := Complete];
    forall b | 0 <= b < |y.acts|
      ensures QueueAt(s.queue, s.activates, s.sender, receiver', b)
      ensures GetAt(y, s.gets, s.sender, receiver', s.tag, b)
      ensures TagAt(y, receiver', s.tag, s.nextTag, b)
    {
      assert QueueAt(s.queue, s.activates, s.sender, s.receiver, b);
      assert GetAt(y, s.gets, s.sender, s.receiver, s.tag, b);
      assert TagAt(y, s.receiver, s.tag, s.nextTag, b);
    }
    forall b, c | 0 <= b < |y.acts| && 0 <= c < |y.acts|
      ensures Apart(y, receiver', s.tag, b, c)
    {
      assert Apart(y, s.receiver, s.tag, b, c);
    }
  }

  lemma GetEndKeepsInv(y: System, s: State, r: nat, i: nat, k: nat)
    requires WellFormed(y) && Inv(y, s) && Enabled(y, s, GetEnd(r, i, k))
    ensures Inv(y, After(y, s, GetEnd(r, i, k)))
  {
    var s', a := After(y, s, GetEnd(r, i, k)), s.recv[r][i].act;
    ArrivedRecv(y, s.recv, s.receiver, s.tag, s.released, r, i, k);
    ArrivedOthers(y, s, a);
    assert RecvAt(y, s.recv, s.receiver, s.tag, s.released, r, i);
    ArrivedData(y, s, a, k, s'.receiver);
    assert s.recv[r][i].deps + {k} == {k};
    assert s'.datas == s.datas - multiset{DataOf(y, s.tag, a, k)} && s'.released == s.released + Pairs(a, {k});
    ArrivedReleased(y, s, a, k, s'.receiver);
  }

  // ------------------------------------------------------------------ runs

  lemma StepKeepsInv(y: System, s: State, step: Step)
    requires WellFormed(y) && Inv(y, s) && Enabled(y, s, step)
    ensures Inv(y, After(y, s, step))
  {
    match step
    case RunTask(r) => RunTaskKeepsInv(y, s, r);
    case Announce(a) => AnnounceKeepsInv(y, s, a);
    case SendActivate(a) => SendActivateKeepsInv(y, s, a);
    case TakeActivate(a, i) => TakeActivateKeepsInv(y, s, a, i);
    case TakeGet(g, j) => TakeGetKeepsInv(y, s, g, j);
    case PutEnd(r, j, k) => PutEndKeepsInv(y, s, r, j, k);
    case GetEnd(r, i, k) => GetEndKeepsInv(y, s, r, i, k);
  }

  function Initial(y: System, unstarted: seq<nat>, tags: seq<nat>): (s: State)
    requires |unstarted| == |tags| == y.ranks
    ensures Shape(y, s)
  {
    State(seq(y.ranks, _ => seq(y.slots, _ => Listening)), seq(y.ranks, _ => seq(y.slots, _ => Idle)),
          multiset{}, multiset{}, multiset{}, multiset{}, tags, seq(y.ranks, r requires 0 <= r < y.ranks => unstarted[r]),
          unstarted, multiset{}, seq(|y.acts|, _ => Unsent), seq(|y.acts|, _ => Waiting), seq(|y.acts|, _ => 0))
  }

  lemma InitialInv(y: System, unstarted: seq<nat>, tags: seq<nat>)
    requires WellFormed(y) && |unstarted| == |tags| == y.ranks
    ensures Inv(y, Initial(y, unstarted, tags))
  {
    var s := Initial(y, unstarted, tags);
    forall a | 0 <= a < |y.acts|
      ensures QueueAt(s.queue, s.activates, s.sender, s.receiver, a) && GetAt(y, s.gets, s.sender, s.receiver, s.tag, a)
      ensures PutAt(y, s.send, s.sender, a) && InSlotAt(y, s.recv, s.receiver, a)
      ensures ReleasedAt(y, s.sender, s.receiver, s.released, a)
    {
      assert Legitimate(y, y.acts[a]);
      assert Missing(y, s.released, a) == y.acts[a].which;
    }
    forall r | 0 <= r < y.ranks
      ensures TodoAt(y, s.todo, s.unstarted, s.sender, r)
    {
      assert Flying(y, s.sender, r) == {};
    }
  }

  predicate Legal(y: System, s: State, run: seq<Step>)
    requires WellFormed(y) && Shape(y, s)
    decreases |run|
  {
    run == [] || (Enabled(y, s, run[0]) && Legal(y, After(y, s, run[0]), run[1..]))
  }

  function AfterAll(y: System, s: State, run: seq<Step>): (r: State)
    requires WellFormed(y) && Shape(y, s) && Legal(y, s, run)
    ensures Shape(y, r)
    decreases |run|
  {
    if run == [] then s else AfterAll(y, After(y, s, run[0]), run[1..])
  }

  lemma {:induction false} RunKeepsInv(y: System, s: State, run: seq<Step>)
    requires WellFormed(y) && Inv(y, s) && Legal(y, s, run)
    ensures Inv(y, AfterAll(y, s, run))
    decreases |run|
  {
    if run != [] {
      StepKeepsInv(y, s, run[0]);
      RunKeepsInv(y, After(y, s, run[0]), run[1..]);
    }
  }

  /** Slot `i` of the consumer receives activation `a`. */
  predicate ReceivesAt(y: System, s: State, a: nat, i: nat)
    requires WellFormed(y) && Shape(y, s) && a < |y.acts| && i < y.slots
  {
    assert Legitimate(y, y.acts[a]);
    s.recv[y.acts[a].dst][i].Receiving? && s.recv[y.acts[a].dst][i].act == a
  }

  /** What a slot that receives waits for: exactly the outputs of its activation not released yet. */
  predicate SlotTells(y: System, s: State, r: nat, i: nat)
    requires WellFormed(y) && Shape(y, s) && r < y.ranks && i < y.slots
  {
    var slot := s.recv[r][i];
    slot.Receiving? ==>
      && slot.act < |y.acts| && y.acts[slot.act].dst == r && !s.receiver[slot.act].Waiting?
      && slot.which == slot.posted == Missing(y, s.released, slot.act) != {}
  }

  /** An activation taken by its consumer holds exactly one slot there while an output is missing, and
      none once all are released. */
  predicate Covered(y: System, s: State, a: nat)
    requires WellFormed(y) && Shape(y, s) && a < |y.acts|
  {
    !s.receiver[a].Waiting? ==>
      && (Missing(y, s.released, a) != {} <==> exists i :: 0 <= i < y.slots && ReceivesAt(y, s, a, i))
      && forall i, j :: 0 <= i < y.slots && 0 <= j < y.slots && ReceivesAt(y, s, a, i) && ReceivesAt(y, s, a, j) ==> i == j
  }

  lemma InvCovers(y: System, s: State, a: nat)
    requires WellFormed(y) && Inv(y, s) && a < |y.acts|
    ensures Covered(y, s, a)
  {
    assert Legitimate(y, y.acts[a]);
    assert ReleasedAt(y, s.sender, s.receiver, s.released, a);
    assert InSlotAt(y, s.recv, s.receiver, a);
    forall i | 0 <= i < y.slots && ReceivesAt(y, s, a, i)
      ensures s.receiver[a] == InSlot(i) && Missing(y, s.released, a) != {}
    {
      assert RecvAt(y, s.recv, s.receiver, s.tag, s.released, y.acts[a].dst, i);
    }
    if s.receiver[a].InSlot? {
      assert ReceivesAt(y, s, a, s.receiver[a].slot);
    }
  }

  /** In every run: an output is released at most once, and only if it was asked for; an activation that
      was taken holds a slot exactly while one of its outputs is missing, and a slot that is taken waits
      for exactly those; the counter of every rank is the number of its unstarted tasks and of its
      activations not fully served. */
  lemma RendezvousIsSafe(y: System, unstarted: seq<nat>, tags: seq<nat>, run: seq<Step>)
    requires WellFormed(y) && |unstarted| == |tags| == y.ranks && Legal(y, Initial(y, unstarted, tags), run)
    ensures var s := AfterAll(y, Initial(y, unstarted, tags), run);
      && (forall a: nat, k: nat :: a < |y.acts| ==> s.released[(a, k)] <= (if k in y.acts[a].which then 1 else 0))
      && (forall a :: 0 <= a < |y.acts| ==> Covered(y, s, a))
      && (forall r, i :: 0 <= r < y.ranks && 0 <= i < y.slots ==> SlotTells(y, s, r, i))
      && (forall r :: 0 <= r < y.ranks ==> s.todo[r] == s.unstarted[r] + |Flying(y, s.sender, r)|)
  {
    InitialInv(y, unstarted, tags);
    RunKeepsInv(y, Initial(y, unstarted, tags), run);
    InvIsSafe(y, AfterAll(y, Initial(y, unstarted, tags), run));
  }

  lemma InvIsSafe(y: System, s: State)
    requires WellFormed(y) && Inv(y, s)
    ensures forall a: nat, k: nat :: a < |y.acts| ==> s.released[(a, k)] <= (if k in y.acts[a].which then 1 else 0)
    ensures forall a :: 0 <= a < |y.acts| ==> Covered(y, s, a)
    ensures forall r, i :: 0 <= r < y.ranks && 0 <= i < y.slots ==> SlotTells(y, s, r, i)
    ensures forall r :: 0 <= r < y.ranks ==> s.todo[r] == s.unstarted[r] + |Flying(y, s.sender, r)|
  {
    forall a: nat | a < |y.acts|
      ensures Covered(y, s, a)
      ensures forall k: nat :: s.released[(a, k)] <= (if k in y.acts[a].which then 1 else 0)
    {
      InvCovers(y, s, a);
      assert ReleasedAt(y, s.sender, s.receiver, s.released, a);
    }
    forall r, i | 0 <= r < y.ranks && 0 <= i < y.slots
      ensures SlotTells(y, s, r, i)
    {
      assert RecvAt(y, s.recv, s.receiver, s.tag, s.released, r, i);
    }
    forall r | 0 <= r < y.ranks
      ensures s.todo[r] == s.unstarted[r] + |Flying(y, s.sender, r)|
    {
      assert TodoAt(y, s.todo, s.unstarted, s.sender, r);
    }
  }

  /** A receive that completes got the data put for its own activation and output: the message is in the
      network once, was put, and no other output of any activation taken so far has its tag. */
  lemma RightData(y: System, s: State, r: nat, i: nat, k: nat)
    requires WellFormed(y) && Inv(y, s) && Enabled(y, s, GetEnd(r, i, k))
    ensures var a, d := s.recv[r][i].act, Data(y.acts[s.recv[r][i].act].src, r, s.recv[r][i].tag + k);
      && s.datas[d] == 1 && Sending(s.sender[a]) && k in y.acts[a].which && s.released[(a, k)] == 0
      && forall b, l :: 0 <= b < |y.acts| && l in y.acts[b].which && !s.receiver[b].Waiting? && DataOf(y, s.tag, b, l) == d ==>
           b == a && l == k
  {
    var a := s.recv[r][i].act;
    assert RecvAt(y, s.recv, s.receiver, s.tag, s.released, r, i) && Legitimate(y, y.acts[a]);
    assert DataAt(y, s.datas, s.sender, s.receiver, s.tag, s.released, a, k);
    forall b, l | 0 <= b < |y.acts| && l in y.acts[b].which && !s.receiver[b].Waiting?
                  && DataOf(y, s.tag, b, l) == DataOf(y, s.tag, a, k)
      ensures b == a && l == k
    {
      assert Apart(y, s.receiver, s.tag, a, b) && Legitimate(y, y.acts[b]);
    }
  }

  /** The outputs of an activation whose puts have ended. */
  function PutsEnded(y: System, s: State, a: nat): set<nat>
    requires Shape(y, s) && WellFormed(y) && a < |y.acts|
  {
    assert Legitimate(y, y.acts[a]);
    match s.sender[a]
    case Served => y.acts[a].which
    case Put(j) => if j < y.slots && s.send[y.acts[a].src][j].Serving? then y.acts[a].which - s.send[y.acts[a].src][j].which else {}
    case _ => {}
  }

  /** An activation is served exactly when all its puts have ended. */
  lemma ServedWhenPutsEnded(y: System, s: State, a: nat)
    requires WellFormed(y) && Inv(y, s) && a < |y.acts|
    ensures s.sender[a].Served? <==> PutsEnded(y, s, a) == y.acts[a].which
  {
    assert Legitimate(y, y.acts[a]);
    assert PutAt(y, s.send, s.sender, a);
    if s.sender[a].Put? {
      assert SendAt(y, s.send, s.sender, s.tag, y.acts[a].src, s.sender[a].slot);
    }
  }

  /** A put ends once, and only by its own completion. */
  lemma PutsEndOnce(y: System, s: State, step: Step, a: nat)
    requires WellFormed(y) && Inv(y, s) && Enabled(y, s, step) && a < |y.acts|
    ensures var mine := step.PutEnd? && s.send[step.rank][step.j].act == a;
      && (mine ==> step.k in y.acts[a].which && step.k !in PutsEnded(y, s, a))
      && PutsEnded(y, After(y, s, step), a) == PutsEnded(y, s, a) + (if mine then {step.k} else {})
  {
    match step
    case TakeGet(g, j) => GetStarts(y, s, g, j, a);
    case PutEnd(r, j, k) => PutEnds(y, s, r, j, k, a);
    case SendActivate(b) =>
      assert QueueAt(s.queue, s.activates, s.sender, s.receiver, b);
      QuietEnded(y, s, After(y, s, step), a);
    case _ => QuietEnded(y, s, After(y, s, step), a);
  }

  lemma QuietEnded(y: System, s: State, t: State, a: nat)
    requires WellFormed(y) && Shape(y, s) && Shape(y, t) && a < |y.acts| && t.send == s.send
    requires t.sender[a] == s.sender[a] || !(Sending(s.sender[a]) || Sending(t.sender[a]))
    ensures PutsEnded(y, t, a) == PutsEnded(y, s, a)
  {
  }

  lemma GetStarts(y: System, s: State, g: Get, j: nat, a: nat)
    requires WellFormed(y) && Inv(y, s) && Enabled(y, s, TakeGet(g, j)) && a < |y.acts|
    ensures PutsEnded(y, After(y, s, TakeGet(g, j)), a) == PutsEnded(y, s, a)
  {
    assert Legitimate(y, y.acts[a]) && KnownGet(y, s.tag, g);
    if a == g.act {
      assert GetAt(y, s.gets, s.sender, s.receiver, s.tag, a);
    } else {
      assert PutAt(y, s.send, s.sender, a);
      OtherPut(y, s.send, g.act, j, a, s.sender[a], Serving(g.act, g.which, g.tag));
    }
  }

  /** A get slot that is idle is not the one that serves `a`. */
  lemma OtherPut(y: System, send: seq<seq<SendSlot>>, b: nat, j: nat, a: nat, p: Sender, x: SendSlot)
    requires WellFormed(y) && Grid(y, send) && a < |y.acts| && b < |y.acts| && j < y.slots
    requires y.acts[a].src < y.ranks && y.acts[b].src < y.ranks && send[y.acts[b].src][j].Idle?
    requires p.Put? ==> p.slot < y.slots && send[y.acts[a].src][p.slot].Serving?
    ensures p.Put? ==>
      send[y.acts[b].src := send[y.acts[b].src][j := x]][y.acts[a].src][p.slot] == send[y.acts[a].src][p.slot]
  {
  }

  lemma PutEnds(y: System, s: State, r: nat, j: nat, k: nat, a: nat)
    requires WellFormed(y) && Inv(y, s) && Enabled(y, s, PutEnd(r, j, k)) && a < |y.acts|
    ensures var mine := s.send[r][j].act == a;
      && (mine ==> k in y.acts[a].which && k !in PutsEnded(y, s, a))
      && PutsEnded(y, After(y, s, PutEnd(r, j, k)), a) == PutsEnded(y, s, a) + (if mine then {k} else {})
  {
    assert Legitimate(y, y.acts[a]) && SendAt(y, s.send, s.sender, s.tag, r, j);
    assert PutAt(y, s.send, s.sender, a);
    var slot := s.send[r][j];
    assert Xor(slot.which, {k}) == slot.which - {k};
  }

  // ------------------------------------------------------------------ nothing gets stuck

  predicate AllServed(y: System, s: State)
    requires Shape(y, s)
  {
    forall a :: 0 <= a < |y.acts| ==> s.sender[a].Served? && s.receiver[a].Complete?
  }

  /** Whatever the number of slots, as long as some activation that was announced is not served and
      received, some request can complete or some message can be taken. */
  lemma Moves(y: System, s: State, a: nat) returns (step: Step)
    requires WellFormed(y) && Inv(y, s) && a < |y.acts| && !s.sender[a].Unsent?
    requires !(s.sender[a].Served? && s.receiver[a].Complete?)
    ensures Enabled(y, s, step) && !step.RunTask? && !step.Announce?
  {
    if b :| 0 <= b < |y.acts| && s.sender[b].Put? {
      step := PutProgress(y, s, b);
    } else if b :| 0 <= b < |y.acts| && s.sender[b].Activating? && !s.receiver[b].Waiting? {
      assert Legitimate(y, y.acts[b]) && SendAt(y, s.send, s.sender, s.tag, y.acts[b].src, 0);
      assert GetAt(y, s.gets, s.sender, s.receiver, s.tag, b);
      step := TakeGet(Get(b, y.acts[b].which, s.tag[b]), 0);
    } else if b :| 0 <= b < |y.acts| && s.receiver[b].InSlot? {
      step := GetProgress(y, s, b);
    } else {
      assert QueueAt(s.queue, s.activates, s.sender, s.receiver, a);
      if s.sender[a].Queued? {
        step := SendActivate(a);
      } else {
        assert Legitimate(y, y.acts[a]) && RecvAt(y, s.recv, s.receiver, s.tag, s.released, y.acts[a].dst, 0);
        step := TakeActivate(a, 0);
      }
    }
  }

  /** Something can move until every activation is served and received. */
  lemma Progress(y: System, s: State) returns (step: Step)
    requires WellFormed(y) && Inv(y, s) && !AllServed(y, s)
    ensures Enabled(y, s, step) && !step.RunTask?
  {
    var a :| 0 <= a < |y.acts| && !(s.sender[a].Served? && s.receiver[a].Complete?);
    if s.sender[a].Unsent? {
      step := Announce(a);
    } else {
      step := Moves(y, s, a);
    }
  }

  lemma PutProgress(y: System, s: State, a: nat) returns (step: Step)
    requires WellFormed(y) && Inv(y, s) && a < |y.acts| && s.sender[a].Put?
    ensures Enabled(y, s, step) && !step.RunTask? && !step.Announce?
  {
    assert PutAt(y, s.send, s.sender, a) && Legitimate(y, y.acts[a]);
    var r, j := y.acts[a].src, s.sender[a].slot;
    assert SendAt(y, s.send, s.sender, s.tag, r, j);
    var k: nat :| k in s.send[r][j].which;
    step := PutEnd(r, j, k);
  }

  lemma GetProgress(y: System, s: State, a: nat) returns (step: Step)
    requires WellFormed(y) && Inv(y, s) && a < |y.acts| && s.receiver[a].InSlot? && !s.sender[a].Activating?
    ensures Enabled(y, s, step) && !step.RunTask? && !step.Announce?
  {
    assert InSlotAt(y, s.recv, s.receiver, a) && Legitimate(y, y.acts[a]);
    assert QueueAt(s.queue, s.activates, s.sender, s.receiver, a);
    var r, i := y.acts[a].dst, s.receiver[a].slot;
    assert RecvAt(y, s.recv, s.receiver, s.tag, s.released, r, i);
    var k: nat :| k in s.recv[r][i].posted;
    assert DataAt(y, s.datas, s.sender, s.receiver, s.tag, s.released, a, k);
    step := GetEnd(r, i, k);
  }

  /** When everything is served, every output that was asked for has been released exactly once, every
      slot listens again and the counters are back to the unstarted tasks. */
  lemma EndOfRun(y: System, s: State)
    requires WellFormed(y) && Inv(y, s) && AllServed(y, s)
    ensures forall a: nat, k: nat :: a < |y.acts| ==> s.released[(a, k)] == if k in y.acts[a].which then 1 else 0
    ensures forall r, i :: 0 <= r < y.ranks && 0 <= i < y.slots ==> s.recv[r][i].Listening? && s.send[r][i].Idle?
    ensures forall r :: 0 <= r < y.ranks ==> s.todo[r] == s.unstarted[r]
  {
    forall a: nat | a < |y.acts|
      ensures forall k: nat :: s.released[(a, k)] == if k in y.acts[a].which then 1 else 0
    {
      assert ReleasedAt(y, s.sender, s.receiver, s.released, a);
      assert forall k <- y.acts[a].which :: k !in Missing(y, s.released, a);
    }
    forall r, i | 0 <= r < y.ranks && 0 <= i < y.slots
      ensures s.recv[r][i].Listening? && s.send[r][i].Idle?
    {
      assert RecvAt(y, s.recv, s.receiver, s.tag, s.released, r, i);
      assert SendAt(y, s.send, s.sender, s.tag, r, i);
    }
    forall r | 0 <= r < y.ranks
      ensures s.todo[r] == s.unstarted[r]
    {
      assert TodoAt(y, s.todo, s.unstarted, s.sender, r);
      assert Flying(y, s.sender, r) == {};
    }
  }

  // ------------------------------------------------------------------ every run ends

  function SenderWeight(p: Sender): int {
    match p
    case Unsent => 0
    case Queued => 6
    case Activating => 12
    case Put(_) => 18
    case Served => 24
  }

  function ReceiverWeight(p: Receiver): int {
    match p
    case Waiting => 0
    case InSlot(_) => 6
    case Complete => 12
  }

  function SendLoad(slot: SendSlot): int {
    if slot.Serving? then |slot.which| else 0
  }

  function RecvLoad(slot: RecvSlot): int {
    if slot.Receiving? then |slot.which| else 0
  }

  function SendRow(row: seq<SendSlot>): int {
    Total(row, SendLoad)
  }

  function RecvRow(row: seq<RecvSlot>): int {
    Total(row, RecvLoad)
  }

  function AsInt(n: nat): int {
    n
  }

  /** Grows with every step. */
  function Measure(s: State): int {
    Total(s.sender, SenderWeight) - Total(s.send, SendRow) + Total(s.receiver, ReceiverWeight) - Total(s.recv, RecvRow)
    - Total(s.unstarted, AsInt)
  }

  lemma SendGrid(send: seq<seq<SendSlot>>, r: nat, j: nat, x: SendSlot)
    requires r < |send| && j < |send[r]|
    ensures Total(send[r := send[r][j := x]], SendRow) == Total(send, SendRow) - SendLoad(send[r][j]) + SendLoad(x)
  {
    TotalUpdate(send[r], j, x, SendLoad);
    TotalUpdate(send, r, send[r][j := x], SendRow);
  }

  lemma RecvGrid(recv: seq<seq<RecvSlot>>, r: nat, i: nat, x: RecvSlot)
    requires r < |recv| && i < |recv[r]|
    ensures Total(recv[r := recv[r][i := x]], RecvRow) == Total(recv, RecvRow) - RecvLoad(recv[r][i]) + RecvLoad(x)
  {
    TotalUpdate(recv[r], i, x, RecvLoad);
    TotalUpdate(recv, r, recv[r][i := x], RecvRow);
  }

  lemma FewOutputs(which: set<nat>, n: nat)
    requires forall k <- which :: k < n
    ensures |which| <= n
  {
    if n > 0 {
      FewOutputs(which - {n - 1}, n - 1);
    }
  }

  lemma OneLess(which: set<nat>, k: nat)
    requires k in which
    ensures Xor(which, {k}) == which - {k} && |which - {k}| == |which| - 1
  {
  }

  lemma TakeActivateAdvances(y: System, s: State, a: nat, i: nat)
    requires WellFormed(y) && Inv(y, s) && Enabled(y, s, TakeActivate(a, i))
    ensures Measure(After(y, s, TakeActivate(a, i))) > Measure(s)
  {
    var act := y.acts[a];
    assert QueueAt(s.queue, s.activates, s.sender, s.receiver, a) && Legitimate(y, act);
    FewOutputs(act.which, MAX_PARAM_COUNT);
    RecvGrid(s.recv, act.dst, i, Receiving(a, act.which, {}, s.nextTag[act.dst], act.which));
    TotalUpdate(s.receiver, a, InSlot(i), ReceiverWeight);
  }

  lemma TakeGetAdvances(y: System, s: State, g: Get, j: nat)
    requires WellFormed(y) && Inv(y, s) && Enabled(y, s, TakeGet(g, j))
    ensures Measure(After(y, s, TakeGet(g, j))) > Measure(s)
  {
    ServeGets(y, s, g, j);
    var act := y.acts[g.act];
    assert Legitimate(y, act);
    FewOutputs(act.which, MAX_PARAM_COUNT);
    SendGrid(s.send, act.src, j, Serving(g.act, g.which, g.tag));
    TotalUpdate(s.sender, g.act, Put(j), SenderWeight);
  }

  lemma PutEndAdvances(y: System, s: State, r: nat, j: nat, k: nat)
    requires WellFormed(y) && Inv(y, s) && Enabled(y, s, PutEnd(r, j, k))
    ensures Measure(After(y, s, PutEnd(r, j, k))) > Measure(s)
  {
    var slot := s.send[r][j];
    assert SendAt(y, s.send, s.sender, s.tag, r, j);
    OneLess(slot.which, k);
    var which := Xor(slot.which, {k});
    SendGrid(s.send, r, j, if which == {} then Idle else slot.(which := which));
    TotalUpdate(s.sender, slot.act, Served, SenderWeight);
  }

  lemma GetEndAdvances(y: System, s: State, r: nat, i: nat, k: nat)
    requires WellFormed(y) && Inv(y, s) && Enabled(y, s, GetEnd(r, i, k))
    ensures Measure(After(y, s, GetEnd(r, i, k))) > Measure(s)
  {
    var slot := s.recv[r][i];
    assert RecvAt(y, s.recv, s.receiver, s.tag, s.released, r, i);
    ArrivedMask(slot.which, k);
    OneLess(slot.which, k);
    RecvGrid(s.recv, r, i, Received(slot, k).0);
    TotalUpdate(s.receiver, slot.act, Complete, ReceiverWeight);
  }

  lemma StepAdvances(y: System, s: State, step: Step)
    requires WellFormed(y) && Inv(y, s) && Enabled(y, s, step)
    ensures Measure(After(y, s, step)) > Measure(s)
  {
    match step
    case RunTask(r) => TotalUpdate(s.unstarted, r, s.unstarted[r] - 1, AsInt);
    case Announce(a) => TotalUpdate(s.sender, a, Queued, SenderWeight);
    case SendActivate(a) =>
      assert QueueAt(s.queue, s.activates, s.sender, s.receiver, a);
      TotalUpdate(s.sender, a, Activating, SenderWeight);
    case TakeActivate(a, i) => TakeActivateAdvances(y, s, a, i);
    case TakeGet(g, j) => TakeGetAdvances(y, s, g, j);
    case PutEnd(r, j, k) => PutEndAdvances(y, s, r, j, k);
    case GetEnd(r, i, k) => GetEndAdvances(y, s, r, i, k);
  }

  lemma MeasureBounded(y: System, s: State)
    requires Shape(y, s)
    ensures Measure(s) <= 36 * |y.acts|
  {
    TotalAtMost(s.sender, SenderWeight, 24);
    TotalAtMost(s.receiver, ReceiverWeight, 12);
    forall r | 0 <= r < y.ranks
      ensures SendRow(s.send[r]) >= 0 && RecvRow(s.recv[r]) >= 0
    {
      TotalNonNegative(s.send[r], SendLoad);
      TotalNonNegative(s.recv[r], RecvLoad);
    }
    TotalNonNegative(s.send, SendRow);
    TotalNonNegative(s.recv, RecvRow);
    TotalNonNegative(s.unstarted, AsInt);
  }

  lemma InitialMeasure(y: System, unstarted: seq<nat>, tags: seq<nat>)
    requires WellFormed(y) && |unstarted| == |tags| == y.ranks
    ensures Measure(Initial(y, unstarted, tags)) == -Total(unstarted, AsInt)
  {
    var s := Initial(y, unstarted, tags);
    TotalConstant(s.sender, SenderWeight, 0);
    TotalConstant(s.receiver, ReceiverWeight, 0);
    forall r | 0 <= r < y.ranks
      ensures SendRow(s.send[r]) == 0 && RecvRow(s.recv[r]) == 0
    {
      TotalConstant(s.send[r], SendLoad, 0);
      TotalConstant(s.recv[r], RecvLoad, 0);
    }
    TotalConstant(s.send, SendRow, 0);
    TotalConstant(s.recv, RecvRow, 0);
  }

  lemma {:induction false} RunLength(y: System, s: State, run: seq<Step>)
    requires WellFormed(y) && Inv(y, s) && Legal(y, s, run)
    ensures |run| <= 36 * |y.acts| - Measure(s)
    decreases |run|
  {
    MeasureBounded(y, s);
    if run != [] {
      StepKeepsInv(y, s, run[0]);
      StepAdvances(y, s, run[0]);
      RunLength(y, After(y, s, run[0]), run[1..]);
    }
  }

  /** No run goes on forever, and one that cannot be continued has served every activation: each output
      that was asked for has been released exactly once. */
  lemma RendezvousCompletes(y: System, unstarted: seq<nat>, tags: seq<nat>, run: seq<Step>)
    requires WellFormed(y) && |unstarted| == |tags| == y.ranks && Legal(y, Initial(y, unstarted, tags), run)
    ensures |run| <= 36 * |y.acts| + Total(unstarted, AsInt)
    ensures var s := AfterAll(y, Initial(y, unstarted, tags), run);
      (forall step :: !Enabled(y, s, step)) ==>
        forall a: nat, k: nat :: a < |y.acts| ==> s.released[(a, k)] == if k in y.acts[a].which then 1 else 0
  {
    var s0 := Initial(y, unstarted, tags);
    InitialInv(y, unstarted, tags);
    InitialMeasure(y, unstarted, tags);
    RunLength(y, s0, run);
    RunKeepsInv(y, s0, run);
    var s := AfterAll(y, s0, run);
    if AllServed(y, s) {
      EndOfRun(y, s);
    } else {
      var step := Progress(y, s);
    }
  }

  // ------------------------------------------------------------------ the loops over a mask

  /** A request per output of the mask, each with its own tag: the loop that posts receives for a get,
      and the one that posts sends for a put. It shifts the mask out. */
  method PostAll(which: set<nat>, tag: nat) returns (requests: map<nat, nat>)
    requires forall k <- which :: k < MAX_PARAM_COUNT
    ensures requests == map k | k in which :: tag + k
  {
    requests := map[];
    var k := 0;
    while exists b <- which :: b >= k
      invariant requests == map b | b in which && b < k :: tag + b
      decreases MAX_PARAM_COUNT - k
    {
      if k in which {
        requests := requests[k := tag + k];
      }
      k := k + 1;
    }
  }
}
