/** The ready list of a releasing task: a ring into which tasks are inserted by priority. */
module PriorityRing {
  import opened TaskRing

  /** First position whose priority is not above `p`; the length if there is none. */
  function Position(s: seq<Item>, p: int): (i: nat)
    ensures i <= |s| && (forall j :: 0 <= j < i ==> s[j].priority > p)
    ensures i < |s| ==> s[i].priority <= p
  {
    if s == [] || s[0].priority <= p then 0 else 1 + Position(s[1..], p)
  }

  /** The ring after an insertion, from its head: before the position found, where "before the head"
      is the end of the ring unless the new task is strictly more urgent than the head. */
  function Inserted(s: seq<Item>, e: Item): seq<Item> {
    var i := Position(s, e.priority);
    if i == 0 && s != [] && s[0].priority == e.priority then s + [e]
    else s[..i] + [e] + s[i..]
  }

  lemma PositionUnique(s: seq<Item>, p: int, i: nat)
    requires i <= |s| && (forall j :: 0 <= j < i ==> s[j].priority > p) && (i < |s| ==> s[i].priority <= p)
    ensures Position(s, p) == i
  {
    if i > 0 {
      PositionUnique(s[1..], p, i - 1);
    }
  }

  /** `elem` stands between the element at `i` and the one before it, around the ring; elsewhere the
      neighbours of `s` still point to each other. */
  ghost predicate Spliced(s: seq<Item>, elem: Item, i: nat)
    requires i < |s|
    reads s, elem
  {
    var before := if i > 0 then s[i - 1] else s[|s| - 1];
    && elem.next == s[i] && s[i].prev == elem && elem.prev == before && before.next == elem
    && (i > 0 ==> s[|s| - 1].next == s[0] && s[0].prev == s[|s| - 1])
    && forall k {:trigger s[k].next} :: 0 <= k < |s| - 1 && k != i - 1 ==> s[k].next == s[k + 1] && s[k + 1].prev == s[k]
  }

  method Link(position: Item, elem: Item, ghost s: seq<Item>, ghost i: nat)
    requires IsRing(s) && i < |s| && position == s[i] && forall j :: 0 <= j < |s| ==> s[j] != elem
    modifies elem, s
    ensures Spliced(s, elem, i)
  {
    assert i > 0 ==> s[i - 1].next == s[i];
    elem.next := position;
    elem.prev := position.prev;
    elem.next.prev := elem;
    elem.prev.next := elem;
    forall k | 0 <= k < |s| - 1 && k != i - 1
      ensures s[k].next == s[k + 1] && s[k + 1].prev == s[k]
    {
      assert old(s[k].next) == s[k + 1];
    }
  }

  /** At the head, the new element is last or first, as the ring is read. */
  lemma SplicedAtHead(s: seq<Item>, elem: Item)
    requires s != [] && Distinct(s) && Spliced(s, elem, 0) && forall j :: 0 <= j < |s| ==> s[j] != elem
    ensures IsRing(s + [elem]) && IsRing([elem] + s)
  {
    ChainsJoin(s, [elem]);
    ChainsJoin([elem], s);
    DistinctJoin(s, [elem]);
    DistinctJoin([elem], s);
  }

  lemma SplicedParts(s: seq<Item>, elem: Item, i: nat)
    requires 0 < i < |s| && Distinct(s) && Spliced(s, elem, i)
    ensures Chain(s[..i]) && Chain(s[i..])
  {
    var l, r := s[..i], s[i..];
    forall k | 0 <= k < |l| - 1
      ensures l[k].next == l[k + 1] && l[k + 1].prev == l[k]
    {
      assert s[k].next == s[k + 1];
    }
    forall k | 0 <= k < |r| - 1
      ensures r[k].next == r[k + 1] && r[k + 1].prev == r[k]
    {
      assert s[i + k].next == s[i + k + 1];
    }
  }

  lemma SplicedInside(s: seq<Item>, elem: Item, i: nat)
    requires 0 < i < |s| && Distinct(s) && Spliced(s, elem, i) && forall j :: 0 <= j < |s| ==> s[j] != elem
    ensures IsRing(s[..i] + [elem] + s[i..])
  {
    var l, r := s[..i], s[i..];
    SplicedParts(s, elem, i);
    ChainsJoin(l, [elem]);
    ChainsJoin(l + [elem], r);
    var t := l + [elem] + r;
    assert forall k :: 0 <= k < |t| ==> t[k] == if k < i then s[k] else if k == i then elem else s[k - 1];
  }

  /** The insertion of one task; the new head is returned. */
  method AddByPriority(list: Item?, elem: Item, ghost s: seq<Item>) returns (head: Item)
    requires if s == [] then list == null else IsRing(s) && list == s[0]
    requires forall j :: 0 <= j < |s| ==> s[j] != elem
    modifies elem, s
    ensures IsRing(Inserted(s, elem)) && head == Inserted(s, elem)[0]
  {
    if list == null {
      elem.next, elem.prev := elem, elem;
      head := elem;
      assert Inserted(s, elem) == [elem];
      return;
    }
    var position := list;
    ghost var i := 0;
    while position.priority > elem.priority
      invariant i < |s| && position == s[i] && forall j :: 0 <= j < i ==> s[j].priority > elem.priority
      decreases |s| - i
    {
      assert i < |s| - 1 ==> s[i].next == s[i + 1];
      assert i == |s| - 1 ==> s[i].next == s[0];
      position := position.next;
      i := i + 1;
      if position == list {
        break;
      }
    }
    PositionUnique(s, elem.priority, i);
    Link(position, elem, s, if i == |s| then 0 else i);
    InsertedRing(s, elem, i);
    head := list;
    if position == list && position.priority < elem.priority {
      head := elem;
    }
  }

  lemma Ends(s: seq<Item>, elem: Item)
    ensures s[..|s|] + [elem] + s[|s|..] == s + [elem] && s[..0] + [elem] + s[0..] == [elem] + s
  {
  }

  /** The three places a task can be put. */
  lemma InsertedAt(s: seq<Item>, elem: Item, i: nat)
    requires s != [] && i == Position(s, elem.priority)
    ensures i == 0 && s[0].priority < elem.priority ==> Inserted(s, elem) == [elem] + s
    ensures (i == 0 && s[0].priority == elem.priority) || i == |s| ==> Inserted(s, elem) == s + [elem]
    ensures 0 < i < |s| ==> Inserted(s, elem) == s[..i] + [elem] + s[i..]
  {
    Ends(s, elem);
  }

  /** Wherever the walk stopped, the ring is the one of the specification. */
  lemma InsertedRing(s: seq<Item>, elem: Item, i: nat)
    requires s != [] && Distinct(s) && (forall j :: 0 <= j < |s| ==> s[j] != elem) && i == Position(s, elem.priority)
    requires Spliced(s, elem, if i == |s| then 0 else i)
    ensures IsRing(Inserted(s, elem))
    ensures Inserted(s, elem)[0] == if i == 0 && s[0].priority < elem.priority then elem else s[0]
  {
    InsertedAt(s, elem, i);
    if i == 0 || i == |s| {
      SplicedAtHead(s, elem);
    } else {
      SplicedInside(s, elem, i);
    }
  }

  predicate Sorted(s: seq<Item>) {
    forall i, j :: 0 <= i < j < |s| ==> s[i].priority >= s[j].priority
  }

  predicate HeadIsMaximal(s: seq<Item>) {
    forall i :: 0 <= i < |s| ==> s[0].priority >= s[i].priority
  }

  lemma InsertedTasks(s: seq<Item>, e: Item)
    ensures multiset(Inserted(s, e)) == multiset(s) + multiset{e}
  {
    var i := Position(s, e.priority);
    var l, r := s[..i], s[i..];
    assert s == l + r;
    assert multiset(l + [e] + r) == multiset(l) + multiset{e} + multiset(r);
    assert multiset(l) + multiset{e} + multiset(r) == multiset(l) + multiset(r) + multiset{e};
  }

  lemma InsertedHead(s: seq<Item>, e: Item)
    requires HeadIsMaximal(s)
    ensures HeadIsMaximal(Inserted(s, e))
  {
    var i, r := Position(s, e.priority), Inserted(s, e);
    if !(i == 0 && s != [] && s[0].priority == e.priority) {
      assert forall k :: 0 <= k < |r| ==> r[k] == if k < i then s[k] else if k == i then e else s[k - 1];
    }
  }

  /** No insertion loses a task, duplicates one, or leaves a less urgent task at the head. */
  lemma InsertedKeeps(s: seq<Item>, e: Item)
    requires HeadIsMaximal(s)
    ensures multiset(Inserted(s, e)) == multiset(s) + multiset{e} && HeadIsMaximal(Inserted(s, e))
  {
    InsertedTasks(s, e);
    InsertedHead(s, e);
  }

  /** The order is kept except when the new task ties with the head and the ring already ends with a
      less urgent one: it is then appended behind that one. */
  lemma SortedIff(s: seq<Item>, e: Item)
    requires Sorted(s)
    ensures Sorted(Inserted(s, e)) <==>
      !(s != [] && s[0].priority == e.priority && s[|s| - 1].priority < e.priority)
  {
    var i, r := Position(s, e.priority), Inserted(s, e);
    if s != [] && s[0].priority == e.priority {
      assert i == 0 && r == s + [e];
      assert r[|s| - 1] == s[|s| - 1] && r[|s|] == e;
    } else {
      assert forall k :: 0 <= k < |r| ==> r[k] == if k < i then s[k] else if k == i then e else s[k - 1];
    }
  }

  /** Where a new task goes: behind all more urgent ones at the beginning of the ring and directly in front of
      the first that is not; at the very end if it ties with the head. */
  lemma InsertedBeforeEquals(s: seq<Item>, e: Item, k: nat)
    requires k <= |s| && (forall j :: 0 <= j < k ==> s[j].priority > e.priority) && (k < |s| ==> s[k].priority <= e.priority)
    ensures Inserted(s, e) == if k == 0 < |s| && s[0].priority == e.priority then s + [e] else s[..k] + [e] + s[k..]
  {
    PositionUnique(s, e.priority, k);
  }

  /** Priorities 2, 1 and a new task of priority 2: it ends up behind the 1. */
  lemma TieBreaksOrder(s: seq<Item>, e: Item)
    requires |s| == 2 && s[0].priority == 2 && s[1].priority == 1 && e.priority == 2
    ensures Sorted(s) && Inserted(s, e) == s + [e] && !Sorted(Inserted(s, e))
  {
    SortedIff(s, e);
  }

  function InsertAll(es: seq<Item>): seq<Item> {
    if es == [] then [] else Inserted(InsertAll(es[..|es| - 1]), es[|es| - 1])
  }

  lemma InsertAllTasks(es: seq<Item>)
    ensures multiset(InsertAll(es)) == multiset(es)
  {
    if es != [] {
      var rest, last := es[..|es| - 1], es[|es| - 1];
      InsertAllTasks(rest);
      InsertedTasks(InsertAll(rest), last);
      assert es == rest + [last];
      assert multiset(rest + [last]) == multiset(rest) + multiset{last};
    }
  }

  lemma HeadComesFrom(es: seq<Item>) returns (k: nat)
    requires InsertAll(es) != []
    ensures k < |es| && es[k] == InsertAll(es)[0]
  {
    InsertAllTasks(es);
    assert InsertAll(es)[0] in multiset(InsertAll(es));
    assert InsertAll(es)[0] in es;
    k :| 0 <= k < |es| && es[k] == InsertAll(es)[0];
  }

  /** Tasks of distinct priorities end up in full order, whatever the order of their insertion. */
  lemma {:induction false} DistinctPrioritiesSorted(es: seq<Item>)
    requires forall i, j :: 0 <= i < j < |es| ==> es[i].priority != es[j].priority
    ensures Sorted(InsertAll(es)) && multiset(InsertAll(es)) == multiset(es)
  {
    InsertAllTasks(es);
    if es != [] {
      var rest, last := es[..|es| - 1], es[|es| - 1];
      DistinctPrioritiesSorted(rest);
      SortedIff(InsertAll(rest), last);
      if InsertAll(rest) != [] {
        var k := HeadComesFrom(rest);
        assert es[k].priority != es[|es| - 1].priority;
      }
    }
  }
}
