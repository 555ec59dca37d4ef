/** Producers and consumers of one repository key, interleaved in any order. A producer retains the
    entry, discovers its consumers one by one while earlier ones are already at work, then adds their
    number to the limit; any number of producers may do so, at the same time or long after each other. */
module RepoProtocol {
  import opened DataRepo
  import opened Sums

  /** A producer and the consumers it has discovered: `counted` of them, `used` already done. */
  datatype Producer = Before | Counting(counted: nat, used: nat) | Finished(counted: nat, used: nat)

  /** `missed` records that an operation did not find the entry it needs. */
  datatype State = State(entry: Option<Usage>, producers: seq<Producer>, missed: bool)

  datatype Event = Create(p: nat) | Discover(p: nat) | Lookup(p: nat) | Use(p: nat) | AddLimit(p: nat)

  /** When the code takes each step; it does not depend on the entry. */
  predicate Enabled(s: State, ev: Event) {
    && ev.p < |s.producers|
    && var pr := s.producers[ev.p];
       match ev
       case Create(_) => pr.Before?
       case Discover(_) => pr.Counting?
       case Lookup(_) => !pr.Before? && pr.used < pr.counted
       case Use(_) => !pr.Before? && pr.used < pr.counted
       case AddLimit(_) => pr.Counting?
  }

  function After(s: State, ev: Event): State
    requires Enabled(s, ev)
  {
    var pr := s.producers[ev.p];
    match ev
    case Create(p) =>
      s.(entry := Some(AfterCreate(s.entry)), producers := s.producers[p := Counting(0, 0)])
    case Discover(p) =>
      s.(producers := s.producers[p := Counting(pr.counted + 1, pr.used)])
    case Lookup(p) =>
      s.(missed := s.missed || s.entry.None?)
    case Use(p) =>
      var s' := s.(producers := s.producers[p := pr.(used := pr.used + 1)]);
      if s.entry.None? then s'.(missed := true)
      else s'.(entry := AfterUse(s.entry.value))
    case AddLimit(p) =>
      var s' := s.(producers := s.producers[p := Finished(pr.counted, pr.used)]);
      if s.entry.None? || s.entry.value.retained == 0 then s'.(missed := true)
      else s'.(entry := AfterAddLimit(s.entry.value, pr.counted))
  }

  function Retains(p: Producer): int {
    if p.Counting? then 1 else 0
  }

  /** Consumers discovered and not done. */
  function Pending(p: Producer): int {
    if p.Before? then 0 else p.counted - p.used
  }

  /** Consumers a producer has counted without having added them to the limit yet. */
  function Unannounced(p: Producer): int {
    if p.Counting? then p.counted else 0
  }

  predicate Sane(ps: seq<Producer>) {
    forall i :: 0 <= i < |ps| && !ps[i].Before? ==> ps[i].used <= ps[i].counted
  }

  /** Uses and outstanding consumers balance the limit and the consumers still unannounced; the entry
      exists exactly as long as somebody retains it or a consumer is outstanding. */
  predicate Inv(s: State) {
    var retains := Total(s.producers, Retains);
    var pending := Total(s.producers, Pending);
    && Sane(s.producers) && !s.missed
    && match s.entry
       case None => retains == 0 && pending == 0
       case Some(u) =>
         && u.usagecnt + pending == u.usagelmt + Total(s.producers, Unannounced)
         && u.retained == retains
         && (retains > 0 || pending > 0)
  }

  /** With nobody retaining, nothing is unannounced. */
  lemma NoneUnannounced(ps: seq<Producer>)
    requires Total(ps, Retains) == 0
    ensures Total(ps, Unannounced) == 0
  {
    if ps != [] {
      var last := |ps| - 1;
      TotalNonNegative(ps[..last], Retains);
      NoneUnannounced(ps[..last]);
    }
  }

  lemma Updates(ps: seq<Producer>, i: nat, p: Producer)
    requires i < |ps|
    ensures Total(ps[i := p], Retains) == Total(ps, Retains) - Retains(ps[i]) + Retains(p)
    ensures Total(ps[i := p], Pending) == Total(ps, Pending) - Pending(ps[i]) + Pending(p)
    ensures Total(ps[i := p], Unannounced) == Total(ps, Unannounced) - Unannounced(ps[i]) + Unannounced(p)
  {
    TotalUpdate(ps, i, p, Retains);
    TotalUpdate(ps, i, p, Pending);
    TotalUpdate(ps, i, p, Unannounced);
  }

  lemma AtLeast(ps: seq<Producer>, i: nat)
    requires i < |ps| && Sane(ps)
    ensures Total(ps, Retains) >= Retains(ps[i]) && Total(ps, Pending) >= Pending(ps[i])
    ensures Total(ps, Retains) >= 0 && Total(ps, Pending) >= 0
  {
    TotalAtLeast(ps, i, Retains);
    TotalAtLeast(ps, i, Pending);
  }

  lemma StepKeepsInv(s: State, ev: Event)
    requires Inv(s) && Enabled(s, ev)
    ensures Inv(After(s, ev))
  {
    var s' := After(s, ev);
    if !ev.Lookup? {
      Updates(s.producers, ev.p, s'.producers[ev.p]);
    }
    AtLeast(s.producers, ev.p);
    AtLeast(s'.producers, ev.p);
    if Total(s'.producers, Retains) == 0 {
      NoneUnannounced(s'.producers);
    }
    if Total(s.producers, Retains) == 0 {
      NoneUnannounced(s.producers);
    }
  }

  // ------------------------------------------------------------------ runs

  function Initial(producers: nat): State {
    State(None, seq(producers, _ => Before), false)
  }

  predicate Legal(s: State, events: seq<Event>)
    decreases |events|
  {
    events == [] || (Enabled(s, events[0]) && Legal(After(s, events[0]), events[1..]))
  }

  function AfterAll(s: State, events: seq<Event>): State
    requires Legal(s, events)
    decreases |events|
  {
    if events == [] then s else AfterAll(After(s, events[0]), events[1..])
  }

  lemma InitialInv(producers: nat)
    ensures Inv(Initial(producers))
  {
    if producers > 0 {
      var ps := Initial(producers).producers;
      assert ps[..producers - 1] == Initial(producers - 1).producers;
      InitialInv(producers - 1);
    }
  }

  lemma RunKeepsInv(s: State, events: seq<Event>)
    requires Inv(s) && Legal(s, events)
    ensures Inv(AfterAll(s, events))
    decreases |events|
  {
    if events != [] {
      StepKeepsInv(s, events[0]);
      RunKeepsInv(After(s, events[0]), events[1..]);
    }
  }

  /** A producer still counting, or with a consumer that is not done. */
  predicate Open(p: Producer) {
    p.Counting? || (p.Finished? && p.used < p.counted)
  }

  /** In every interleaving no operation ever misses the entry, the counters balance, and the entry is in
      the table exactly while a producer retains it or a discovered consumer has not used it. */
  lemma {:induction false} NoMissInAnyRun(producers: nat, events: seq<Event>)
    requires Legal(Initial(producers), events)
    ensures var s := AfterAll(Initial(producers), events);
      && !s.missed
      && (s.entry.Some? <==> exists i :: 0 <= i < |s.producers| && Open(s.producers[i]))
      && (s.entry.Some? ==>
            s.entry.value.usagecnt + Total(s.producers, Pending)
            == s.entry.value.usagelmt + Total(s.producers, Unannounced))
  {
    InitialInv(producers);
    RunKeepsInv(Initial(producers), events);
    var s := AfterAll(Initial(producers), events);
    if s.entry.Some? {
      if Total(s.producers, Retains) > 0 {
        var i := TotalWitness(s.producers, Retains);
        assert Open(s.producers[i]);
      } else {
        var i := TotalWitness(s.producers, Pending);
        AtLeast(s.producers, i);
        assert Open(s.producers[i]);
      }
    } else {
      forall i | 0 <= i < |s.producers|
        ensures !Open(s.producers[i])
      {
        AtLeast(s.producers, i);
      }
    }
  }

  /** Whatever can happen next in any run finds the entry it needs, and retained where a producer is still
      counting: as many times as producers are. */
  lemma OperationsFindEntry(producers: nat, events: seq<Event>, ev: Event)
    requires Legal(Initial(producers), events) && Enabled(AfterAll(Initial(producers), events), ev) && !ev.Create?
    ensures var s := AfterAll(Initial(producers), events);
      && s.entry.Some? && s.entry.value.retained == Total(s.producers, Retains)
      && (ev.Discover? || ev.AddLimit? ==> s.entry.value.retained > 0)
  {
    InitialInv(producers);
    RunKeepsInv(Initial(producers), events);
    AtLeast(AfterAll(Initial(producers), events).producers, ev.p);
  }

  /** `missed` tells the truth, in any state: an operation that does not find its entry is recorded. */
  lemma MissesAreRecorded(s: State, ev: Event)
    requires Enabled(s, ev)
    ensures var absent := (ev.Lookup? || ev.Use? || ev.AddLimit?) && s.entry.None?;
      var free := ev.AddLimit? && s.entry.Some? && s.entry.value.retained == 0;
      After(s, ev).missed == (s.missed || absent || free)
  {
  }
}
