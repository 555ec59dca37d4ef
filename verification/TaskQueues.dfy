/** The queues of ready tasks: bounded buffers that overflow into a parent, the double-ended queue at
    the end of the chain, and the placeholder in front of a worker's queue. */
module TaskQueues {
  import opened Sums
  import opened TaskRing

  // ------------------------------------------------------------------ the double-ended queue

  /** A ring through a ghost element, under a lock that makes every operation one step. */
  class Dequeue {
    const ghostElement: Item
    ghost var content: seq<Item>

    ghost predicate Valid()
      reads this, ghostElement, content
    {
      IsRing([ghostElement] + content)
    }

    constructor ()
      ensures Valid() && content == [] && fresh(ghostElement)
    {
      ghostElement := new Item(0);
      content := [];
    }

    method IsEmpty() returns (empty: bool)
      requires Valid()
      ensures empty <==> content == []
    {
      Ends();
      empty := ghostElement.prev == ghostElement && ghostElement.next == ghostElement;
    }

    /** What the ghost element sees of the content. */
    lemma Ends()
      requires Valid()
      ensures content == [] ==> ghostElement.next == ghostElement.prev == ghostElement
      ensures content != [] ==> ghostElement.next == content[0] != ghostElement
      ensures content != [] ==> ghostElement.prev == content[|content| - 1] != ghostElement
    {
      var s := [ghostElement] + content;
      if content != [] {
        assert s[0].next == s[1];
        assert s[0] != s[1] && s[0] != s[|s| - 1];
      }
    }

    /** Takes the last element; when another thread has the lock it gives up at once. */
    method PopBack(contended: bool) returns (item: Item?)
      requires Valid()
      modifies this, ghostElement, content
      ensures Valid()
      ensures contended || old(content) == [] ==> item == null && content == old(content)
      ensures !contended && old(content) != [] ==> item == old(content)[|old(content)| - 1]
      ensures !contended && old(content) != [] ==> content == old(content)[..|old(content)| - 1]
    {
      if contended {
        return null;
      }
      Ends();
      ghost var s := [ghostElement] + content;
      assert |s| > 1 ==> s[|s| - 2].next == s[|s| - 1];
      var last := ghostElement.prev;
      ghostElement.prev := last.prev;
      last.prev.next := ghostElement;
      if last == ghostElement {
        return null;
      }
      content := content[..|content| - 1];
      ghost var t := s[..|s| - 1];
      assert [ghostElement] + content == t;
      forall k | 0 <= k < |t| - 1
        ensures t[k].next == t[k + 1] && t[k + 1].prev == t[k]
      {
        assert old(s[k].next) == s[k + 1];
      }
      item := last;
    }

    /** Takes the first element; when another thread has the lock it gives up at once. */
    method PopFront(contended: bool) returns (item: Item?)
      requires Valid()
      modifies this, ghostElement, content
      ensures Valid()
      ensures contended || old(content) == [] ==> item == null && content == old(content)
      ensures !contended && old(content) != [] ==> item == old(content)[0] && content == old(content)[1..]
    {
      if contended {
        return null;
      }
      Ends();
      ghost var s := [ghostElement] + content;
      assert |s| > 2 ==> s[1].next == s[2];
      var first := ghostElement.next;
      ghostElement.next := first.next;
      first.next.prev := ghostElement;
      if first == ghostElement {
        return null;
      }
      content := content[1..];
      ghost var t := s[2..];
      assert forall k :: 0 <= k < |t| ==> t[k] == s[k + 2];
      forall k | 0 <= k < |t| - 1
        ensures t[k].next == t[k + 1] && t[k + 1].prev == t[k]
      {
        assert old(s[k + 2].next) == s[k + 3];
      }
      ChainsJoin([s[0]], t);
      assert [ghostElement] + content == [s[0]] + t;
      item := first;
    }

    /** Appends a whole ring, in its order. */
    method PushBack(items: Item, ghost s: seq<Item>)
      requires Valid() && IsRing(s) && items == s[0] && Disjoint([ghostElement] + content, s)
      modifies this, ghostElement, content, s
      ensures Valid() && content == old(content) + s
    {
      ghost var r := [ghostElement] + content;
      var tail := items.prev;
      tail.next := ghostElement;
      items.prev := ghostElement.prev;
      items.prev.next := items;
      ghostElement.prev := tail;
      forall k | 0 <= k < |s| - 1
        ensures s[k].next == s[k + 1] && s[k + 1].prev == s[k]
      {
        assert old(s[k].next) == s[k + 1];
      }
      forall k | 0 <= k < |r| - 1
        ensures r[k].next == r[k + 1] && r[k + 1].prev == r[k]
      {
        assert old(r[k].next) == r[k + 1];
      }
      DistinctJoin(r, s);
      ChainsJoin(r, s);
      content := content + s;
      assert [ghostElement] + content == r + s;
    }

    /** Puts a whole ring in front, in its order. */
    method PushFront(items: Item, ghost s: seq<Item>)
      requires Valid() && IsRing(s) && items == s[0] && Disjoint([ghostElement] + content, s)
      modifies this, ghostElement, content, s
      ensures Valid() && content == s + old(content)
    {
      ghost var r := content;
      RingTail(ghostElement, r, s);
      var tail := items.prev;
      items.prev := ghostElement;
      tail.next := ghostElement.next;
      tail.next.prev := tail;
      ghostElement.next := items;
      content := s + content;
      forall k | 0 <= k < |s| - 1
        ensures s[k].next == s[k + 1] && s[k + 1].prev == s[k]
      {
        assert old(s[k].next) == s[k + 1];
      }
      forall k | 0 <= k < |r| - 1
        ensures r[k].next == r[k + 1] && r[k + 1].prev == r[k]
      {
        assert old(r[k].next) == r[k + 1];
      }
      RingAround(ghostElement, s, r);
    }
  }

  /** Taking the ghost element away from its ring leaves a chain. */
  lemma RingTail(g: Item, r: seq<Item>, s: seq<Item>)
    requires IsRing([g] + r) && Disjoint([g] + r, s)
    ensures Chain(r) && Distinct(r) && Disjoint(r, s)
    ensures forall j :: 0 <= j < |s| ==> s[j] != g
    ensures forall j :: 0 <= j < |r| ==> r[j] != g
    ensures r == [] ==> g.next == g.prev == g
    ensures r != [] ==> g.next == r[0] && r[0].prev == g && g.prev == r[|r| - 1] && r[|r| - 1].next == g
  {
    var t := [g] + r;
    assert t[0] == g && forall k :: 0 <= k < |r| ==> t[k + 1] == r[k];
    assert t[1..] == r;
    ChainParts(t, 1, |t|);
    if r != [] {
      assert t[0].next == t[1];
    }
  }

  /** A ghost element, a ring and what followed the ghost element, joined. */
  lemma RingAround(g: Item, s: seq<Item>, r: seq<Item>)
    requires s != [] && Distinct([g] + r) && Distinct(s) && Disjoint([g] + r, s) && Chain(s) && Chain(r)
    requires g.next == s[0] && s[0].prev == g
    requires r != [] ==> s[|s| - 1].next == r[0] && r[0].prev == s[|s| - 1] && r[|r| - 1].next == g && g.prev == r[|r| - 1]
    requires r == [] ==> s[|s| - 1].next == g && g.prev == s[|s| - 1]
    ensures IsRing([g] + (s + r))
  {
    assert forall i :: 0 <= i < |r| ==> ([g] + r)[i + 1] == r[i];
    assert ([g] + r)[0] == g;
    DistinctJoin(s, r);
    DistinctJoin([g], s + r);
    ChainsJoin(s, r);
    ChainsJoin([g], s + r);
  }

  // ------------------------------------------------------------------ the bounded buffer

  const BEST: nat := 0xff_ffff

  /** Elements go, in order, to the empty slots from `i` on; what does not fit is left. */
  function Fill(slots: seq<Item?>, i: nat, s: seq<Item>): (r: (seq<Item?>, seq<Item>))
    requires i <= |slots|
    ensures |r.0| == |slots|
    decreases |slots| - i
  {
    if s == [] || i == |slots| then (slots, s)
    else if slots[i] == null then Fill(slots[i := s[0]], i + 1, s[1..])
    else Fill(slots, i + 1, s)
  }

  /** How many slots hold `x`. */
  function Copies(slots: seq<Item?>, x: Item): nat {
    if slots == [] then 0 else Copies(slots[..|slots| - 1], x) + (if slots[|slots| - 1] == x then 1 else 0)
  }

  lemma CopiesUpdate(slots: seq<Item?>, i: nat, y: Item, x: Item)
    requires i < |slots| && slots[i] == null
    ensures Copies(slots[i := y], x) == Copies(slots, x) + (if x == y then 1 else 0)
  {
    var last := |slots| - 1;
    if i < last {
      CopiesUpdate(slots[..last], i, y, x);
      assert slots[i := y][..last] == slots[..last][i := y];
    } else {
      assert slots[i := y][..last] == slots[..last];
    }
  }

  /** What is left is the end of what came, in its order. */
  lemma {:induction false} FillLeaves(slots: seq<Item?>, i: nat, s: seq<Item>)
    requires i <= |slots|
    ensures var rest := Fill(slots, i, s).1;
      |rest| <= |s| && rest == s[|s| - |rest|..]
    decreases |slots| - i
  {
    if s != [] && i < |slots| {
      if slots[i] == null {
        FillLeaves(slots[i := s[0]], i + 1, s[1..]);
      } else {
        FillLeaves(slots, i + 1, s);
      }
    }
  }

  /** Full slots keep their task, and all slots are full if something is left. */
  lemma {:induction false} FillSlots(slots: seq<Item?>, i: nat, s: seq<Item>)
    requires i <= |slots|
    ensures var (slots', rest) := Fill(slots, i, s);
      && (forall j :: 0 <= j < |slots| && (j < i || slots[j] != null) ==> slots'[j] == slots[j])
      && (rest != [] ==> forall j :: i <= j < |slots| ==> slots'[j] != null)
    decreases |slots| - i
  {
    if s != [] && i < |slots| {
      if slots[i] == null {
        FillSlots(slots[i := s[0]], i + 1, s[1..]);
      } else {
        FillSlots(slots, i + 1, s);
      }
    }
  }

  /** Nothing is lost and nothing is duplicated. */
  lemma {:induction false} FillKeepsAll(slots: seq<Item?>, i: nat, s: seq<Item>, x: Item)
    requires i <= |slots|
    ensures var (slots', rest) := Fill(slots, i, s);
      Copies(slots', x) + multiset(rest)[x] == Copies(slots, x) + multiset(s)[x]
    decreases |slots| - i
  {
    if s != [] && i < |slots| {
      if slots[i] == null {
        FillKeepsAll(slots[i := s[0]], i + 1, s[1..], x);
        CopiesUpdate(slots, i, s[0], x);
        HeadCount(s, x);
      } else {
        FillKeepsAll(slots, i + 1, s, x);
      }
    }
  }

  /** Empty slots from `i` on, before `j`. */
  function EmptyBetween(slots: seq<Item?>, i: nat, j: nat): (n: nat)
    requires i <= j <= |slots|
    ensures n <= j - i
  {
    if i == j then 0 else EmptyBetween(slots, i, j - 1) + (if slots[j - 1] == null then 1 else 0)
  }

  lemma EmptyFrom(slots: seq<Item?>, i: nat, j: nat, y: Item?)
    requires i < j <= |slots|
    ensures EmptyBetween(slots, i, j) == EmptyBetween(slots, i + 1, j) + (if slots[i] == null then 1 else 0)
    ensures EmptyBetween(slots[i := y], i + 1, j) == EmptyBetween(slots, i + 1, j)
  {
    if i + 1 < j {
      EmptyFrom(slots, i, j - 1, y);
    }
  }

  /** The empty slots from `i` on get the elements in their order, the first slot the first element. */
  lemma {:induction false} FillAt(slots: seq<Item?>, i: nat, s: seq<Item>, j: nat)
    requires i <= j < |slots|
    ensures var e := EmptyBetween(slots, i, j);
      Fill(slots, i, s).0[j] == if slots[j] == null && e < |s| then s[e] else slots[j]
    decreases |slots| - i
  {
    if s != [] {
      if i < j {
        EmptyFrom(slots, i, j, s[0]);
      }
      var slots', s' := if slots[i] == null then slots[i := s[0]] else slots, if slots[i] == null then s[1..] else s;
      if i < j {
        FillAt(slots', i + 1, s', j);
      } else {
        FillSlots(slots', i + 1, s');
      }
    }
  }

  /** `first` stands for the ring `s`, or for nothing. */
  ghost predicate Ringed(first: Item?, s: seq<Item>)
    reads s
  {
    if s == [] then first == null else IsRing(s) && first == s[0]
  }

  class Buffer {
    const items: array<Item?>

    constructor (size: nat)
      ensures fresh(items) && items.Length == size && forall i :: 0 <= i < size ==> items[i] == null
    {
      items := new Item?[size](_ => null);
    }

    /** First slot from `i` on that is empty; the element goes there. */
    method Place(elt: Item, i0: nat) returns (i: nat)
      requires i0 <= items.Length
      modifies items
      ensures i0 <= i <= items.Length
      ensures forall j :: i0 <= j < i ==> old(items[j]) != null
      ensures if i < items.Length then old(items[i]) == null && items[..] == old(items[..])[i := elt]
              else items[..] == old(items[..])
    {
      i := i0;
      while i < items.Length && items[i] != null
        invariant i0 <= i <= items.Length && forall j :: i0 <= j < i ==> items[j] != null
      {
        i := i + 1;
      }
      if i < items.Length {
        items[i] := elt;
      }
    }

    /** The first element of a ring goes to the first empty slot from `i0` on; without one it goes back
        in front of what follows it. */
    method PushOne(elt: Item, i0: nat, ghost s: seq<Item>) returns (i: nat, more: Item?, full: bool, ghost rest: seq<Item>)
      requires IsRing(s) && elt == s[0] && i0 <= items.Length
      modifies items, s
      ensures i <= items.Length && rest == (if full then s else s[1..])
      ensures Ringed(more, rest)
      ensures if full then Fill(old(items[..]), i0, s) == (items[..], s)
              else Fill(items[..], i, rest) == Fill(old(items[..]), i0, s)
    {
      var next := Detach(elt, s);
      i := Place(elt, i0);
      FillFrom(old(items[..]), i0, i, s);
      full := i == items.Length;
      if full {
        assert [elt] + s[1..] == s;
        if next != null {
          Rechain(elt, next, s[1..]);
        }
        more, rest := elt, s;
      } else {
        i, more, rest := i + 1, next, s[1..];
      }
    }

    /** Pushes a ring; what does not fit is returned as a ring in its original order, for the parent. */
    method PushAll(first: Item, ghost s: seq<Item>) returns (more: Item?, ghost rest: seq<Item>)
      requires IsRing(s) && first == s[0]
      modifies items, s
      ensures (items[..], rest) == Fill(old(items[..]), 0, s)
      ensures Ringed(more, rest)
    {
      var i: nat, full := 0, false;
      ghost var slots0 := items[..];
      more, rest := first, s;
      while more != null && !full
        invariant i <= items.Length && Ringed(more, rest) && Pushed(slots0, s, items[..], i, full, rest)
        decreases |rest|, !full
      {
        ghost var slots, i0, rest0 := items[..], i, rest;
        PushedSuffix(slots0, s, slots, i, full, rest);
        i, more, full, rest := PushOne(more, i, rest);
        PushedNext(slots0, s, slots, i0, items[..], i, full, rest0, rest);
      }
    }

    /** Takes out an element of maximal rank, the first one among equals. */
    method PopBest(rank: Item -> nat) returns (best: Item?)
      requires forall i :: 0 <= i < items.Length && items[i] != null ==> rank(items[i]) <= BEST
      modifies items
      ensures best == null ==> items[..] == old(items[..]) && forall i :: 0 <= i < items.Length ==> items[i] == null
      ensures best != null ==> exists b: nat :: TakenAt(old(items[..]), items[..], b, best, rank)
    {
      best := null;
      var bestIdx, bestRank := 0, 0;
      var idx := 0;
      while idx < items.Length
        invariant 0 <= idx <= items.Length
        invariant best == null ==> forall j :: 0 <= j < idx ==> items[j] == null
        invariant best != null ==> bestIdx < idx && best == items[bestIdx] && bestRank == rank(best) < BEST
        invariant best != null ==> forall j :: 0 <= j < idx && items[j] != null ==>
          rank(items[j]) <= bestRank && (j < bestIdx ==> rank(items[j]) < bestRank)
      {
        var candidate := items[idx];
        if candidate != null {
          var r := rank(candidate);
          if best == null || r == BEST || r > bestRank {
            best, bestIdx, bestRank := candidate, idx, r;
            if r == BEST {
              break;
            }
          }
        }
        idx := idx + 1;
      }
      if best != null {
        assert IsBest(items[..], bestIdx, rank);
        items[bestIdx] := null;
        assert TakenAt(old(items[..]), items[..], bestIdx, best, rank);
      }
    }
  }

  /** Slot `b` has the largest rank, larger than all before it. */
  predicate IsBest(slots: seq<Item?>, b: nat, rank: Item -> nat) {
    && b < |slots| && slots[b] != null
    && forall j :: 0 <= j < |slots| && slots[j] != null ==>
         rank(slots[j]) <= rank(slots[b]) && (j < b ==> rank(slots[j]) < rank(slots[b]))
  }

  predicate TakenAt(before: seq<Item?>, after: seq<Item?>, b: nat, best: Item?, rank: Item -> nat) {
    IsBest(before, b, rank) && best == before[b] && after == before[b := null]
  }

  /** The loop of `PushAll` after some elements: the rest, pushed from slot `i`, gives the final result. */
  predicate Pushed(slots0: seq<Item?>, s: seq<Item>, slots: seq<Item?>, i: nat, full: bool, rest: seq<Item>) {
    && i <= |slots| && |rest| <= |s| && rest == s[|s| - |rest|..]
    && Fill(slots0, 0, s) == if full then (slots, rest) else Fill(slots, i, rest)
  }

  lemma PushedSuffix(slots0: seq<Item?>, s: seq<Item>, slots: seq<Item?>, i: nat, full: bool, rest: seq<Item>)
    requires Pushed(slots0, s, slots, i, full, rest)
    ensures forall j :: 0 <= j < |rest| ==> rest[j] in s
  {
  }

  lemma PushedNext(slots0: seq<Item?>, s: seq<Item>, slots: seq<Item?>, i: nat, slots': seq<Item?>, i': nat, full: bool,
                   rest: seq<Item>, rest': seq<Item>)
    requires Pushed(slots0, s, slots, i, false, rest) && rest != [] && i' <= |slots'|
    requires rest' == if full then rest else rest[1..]
    requires Fill(slots, i, rest) == if full then (slots', rest) else Fill(slots', i', rest')
    ensures Pushed(slots0, s, slots', i', full, rest')
  {
    SuffixTail(s, rest);
  }

  lemma SuffixTail(s: seq<Item>, rest: seq<Item>)
    requires 0 < |rest| <= |s| && rest == s[|s| - |rest|..]
    ensures rest[1..] == s[|s| - |rest[1..]|..]
  {
  }

  lemma FillFrom(slots: seq<Item?>, i: nat, j: nat, s: seq<Item>)
    requires i <= j <= |slots| && s != [] && forall k :: i <= k < j ==> slots[k] != null
    ensures Fill(slots, i, s) == Fill(slots, j, s)
    ensures j < |slots| && slots[j] == null ==> Fill(slots, i, s) == Fill(slots[j := s[0]], j + 1, s[1..])
    ensures j == |slots| ==> Fill(slots, i, s) == (slots, s)
    decreases j - i
  {
    if i < j {
      FillFrom(slots, i + 1, j, s);
    }
  }

  // ------------------------------------------------------------------ the chain of buffers

  /** Contents of a chain of buffers after a push, and what goes on to the queue at its end. */
  function FillChain(chain: seq<seq<Item?>>, s: seq<Item>): (seq<seq<Item?>>, seq<Item>) {
    if chain == [] || s == [] then (chain, s)
    else
      var (slots, rest) := Fill(chain[0], 0, s);
      var (others, last) := FillChain(chain[1..], rest);
      ([slots] + others, last)
  }

  function ChainCopies(chain: seq<seq<Item?>>, x: Item): nat {
    if chain == [] then 0 else Copies(chain[0], x) + ChainCopies(chain[1..], x)
  }

  /** Whatever the sizes, every task pushed is in a buffer or in what reaches the queue, once; and the
      queue gets the end of the ring in its order. */
  lemma {:induction false} ChainKeepsAll(chain: seq<seq<Item?>>, s: seq<Item>, x: Item)
    ensures var (chain', rest) := FillChain(chain, s);
      && ChainCopies(chain', x) + multiset(rest)[x] == ChainCopies(chain, x) + multiset(s)[x]
      && |rest| <= |s| && rest == s[|s| - |rest|..]
  {
    if chain != [] && s != [] {
      var (slots, rest) := Fill(chain[0], 0, s);
      FillKeepsAll(chain[0], 0, s, x);
      FillLeaves(chain[0], 0, s);
      ChainKeepsAll(chain[1..], rest, x);
      var (others, last) := FillChain(chain[1..], rest);
      assert ([slots] + others)[1..] == others;
    }
  }

  /** All slots of a chain, nearest buffer first. */
  function Flat(chain: seq<seq<Item?>>): seq<Item?> {
    if chain == [] then [] else chain[0] + Flat(chain[1..])
  }

  /** The part before the slots that are filled does not matter. */
  lemma {:induction false} FillShift(front: seq<Item?>, slots: seq<Item?>, i: nat, s: seq<Item>)
    requires i <= |slots|
    ensures Fill(front + slots, |front| + i, s) == (front + Fill(slots, i, s).0, Fill(slots, i, s).1)
    decreases |slots| - i
  {
    if s != [] && i < |slots| {
      assert (front + slots)[|front| + i] == slots[i];
      if slots[i] == null {
        assert (front + slots)[|front| + i := s[0]] == front + slots[i := s[0]];
        FillShift(front, slots[i := s[0]], i + 1, s[1..]);
      } else {
        FillShift(front, slots, i + 1, s);
      }
    }
  }

  /** Filling two buffers, one after the other, is filling them as one. */
  lemma {:induction false} FillTwo(slots: seq<Item?>, others: seq<Item?>, i: nat, s: seq<Item>)
    requires i <= |slots|
    ensures var (slots', rest) := Fill(slots, i, s);
      Fill(slots + others, i, s) == (slots' + Fill(others, 0, rest).0, Fill(others, 0, rest).1)
    decreases |slots| - i
  {
    if i == |slots| {
      FillShift(slots, others, 0, s);
    } else if s != [] {
      assert (slots + others)[i] == slots[i];
      if slots[i] == null {
        assert (slots + others)[i := s[0]] == slots[i := s[0]] + others;
        FillTwo(slots[i := s[0]], others, i + 1, s[1..]);
      } else {
        FillTwo(slots, others, i + 1, s);
      }
    }
  }

  /** A push through the chain does what a push into one buffer of all its slots would do: a buffer hands on
      only what does not fit. */
  lemma {:induction false} ChainIsOneBuffer(chain: seq<seq<Item?>>, s: seq<Item>)
    ensures var (chain', rest) := FillChain(chain, s);
      |chain'| == |chain| && Fill(Flat(chain), 0, s) == (Flat(chain'), rest)
  {
    if chain != [] && s != [] {
      var (slots, rest) := Fill(chain[0], 0, s);
      FillTwo(chain[0], Flat(chain[1..]), 0, s);
      ChainIsOneBuffer(chain[1..], rest);
      var (others, last) := FillChain(chain[1..], rest);
      assert ([slots] + others)[1..] == others;
    }
  }

  ghost function Arrays(buffers: seq<Buffer>): set<object> {
    set b | b in buffers :: b.items
  }

  ghost function Slots(buffers: seq<Buffer>): seq<seq<Item?>>
    reads Arrays(buffers)
  {
    if buffers == [] then [] else [buffers[0].items[..]] + Slots(buffers[1..])
  }

  ghost predicate SeparateArrays(buffers: seq<Buffer>) {
    forall i, j :: 0 <= i < j < |buffers| ==> buffers[i].items != buffers[j].items
  }

  /** A push into the first buffer of a hierarchy: each buffer hands what does not fit to its parent,
      the last one to the queue. */
  method PushHierarchy(buffers: seq<Buffer>, queue: Dequeue, first: Item, ghost s: seq<Item>)
    requires SeparateArrays(buffers) && queue.Valid()
    requires IsRing(s) && first == s[0] && Disjoint([queue.ghostElement] + queue.content, s)
    modifies Arrays(buffers), queue, queue.ghostElement, queue.content, s
    ensures queue.Valid()
    ensures var (slots, rest) := FillChain(old(Slots(buffers)), s);
      Slots(buffers) == slots && queue.content == old(queue.content) + rest
  {
    if buffers == [] {
      queue.PushBack(first, s);
    } else {
      assert buffers[0].items in Arrays(buffers);
      ghost var parents := buffers[1..];
      assert forall i :: 0 <= i < |parents| ==> parents[i] == buffers[i + 1];
      FillLeaves(buffers[0].items[..], 0, s);
      assert buffers[0].items !in Arrays(parents);
      ghost var chain := Slots(buffers);
      assert chain[1..] == Slots(parents);
      var more, rest := buffers[0].PushAll(first, s);
      assert Slots(parents) == chain[1..];
      ghost var slots := buffers[0].items[..];
      if more != null {
        PushHierarchy(buffers[1..], queue, more, rest);
        assert buffers[0].items[..] == slots;
      } else {
        assert queue.content + [] == queue.content;
      }
    }
  }
}
