/** Circular doubly linked lists of tasks, the currency of the scheduler: a ring is passed around by
    its first element. */
module TaskRing {

  class Item {
    const priority: int
    var next: Item
    var prev: Item

    constructor (priority: int)
      ensures this.priority == priority && IsRing([this])
    {
      this.priority := priority;
      next, prev := this, this;
    }
  }

  ghost predicate Distinct(s: seq<Item>) {
    forall i, j :: 0 <= i < j < |s| ==> s[i] != s[j]
  }

  /** Neighbours point to each other. */
  ghost predicate Chain(s: seq<Item>)
    reads s
  {
    forall i {:trigger s[i].next} :: 0 <= i < |s| - 1 ==> s[i].next == s[i + 1] && s[i + 1].prev == s[i]
  }

  /** The elements of `s`, in this order from `s[0]`, are a ring. */
  ghost predicate IsRing(s: seq<Item>)
    reads s
  {
    |s| > 0 && Distinct(s) && Chain(s) && s[|s| - 1].next == s[0] && s[0].prev == s[|s| - 1]
  }

  lemma ChainParts(s: seq<Item>, i: nat, j: nat)
    requires Chain(s) && i <= j <= |s|
    ensures Chain(s[i..j])
  {
    forall k | 0 <= k < j - i - 1
      ensures s[i..j][k].next == s[i..j][k + 1] && s[i..j][k + 1].prev == s[i..j][k]
    {
      assert s[i + k].next == s[i + k + 1];
    }
  }

  lemma ChainsJoin(r: seq<Item>, s: seq<Item>)
    requires Chain(r) && Chain(s)
    requires r != [] && s != [] ==> r[|r| - 1].next == s[0] && s[0].prev == r[|r| - 1]
    ensures Chain(r + s)
  {
    var t := r + s;
    forall k | 0 <= k < |t| - 1
      ensures t[k].next == t[k + 1] && t[k + 1].prev == t[k]
    {
      if k >= |r| {
        assert s[k - |r|].next == s[k - |r| + 1];
      } else if k < |r| - 1 {
        assert r[k].next == r[k + 1];
      }
    }
  }

  ghost predicate Disjoint(r: seq<Item>, s: seq<Item>) {
    forall i, j :: 0 <= i < |r| && 0 <= j < |s| ==> r[i] != s[j]
  }

  lemma DistinctJoin(r: seq<Item>, s: seq<Item>)
    requires Distinct(r) && Distinct(s) && Disjoint(r, s)
    ensures Distinct(r + s)
  {
  }

  /** Takes the first element out; what is left stays a ring and the element becomes one of its own. */
  method Detach(elt: Item, ghost s: seq<Item>) returns (rest: Item?)
    requires IsRing(s) && elt == s[0]
    modifies s
    ensures IsRing([elt])
    ensures rest == if |s| == 1 then null else s[1]
    ensures |s| > 1 ==> IsRing(s[1..])
  {
    rest := elt.next;
    if rest == elt {
      rest := null;
    } else {
      elt.next.prev := elt.prev;
      elt.prev.next := elt.next;
      elt.prev := elt;
      elt.next := elt;
    }
  }

  /** Puts an element back in front of a ring. */
  method Rechain(elt: Item, next: Item, ghost s: seq<Item>)
    requires IsRing(s) && next == s[0] && forall i :: 0 <= i < |s| ==> s[i] != elt
    modifies elt, s
    ensures IsRing([elt] + s)
  {
    elt.next := next;
    elt.prev := next.prev;
    next.prev.next := elt;
    next.prev := elt;
    DistinctJoin([elt], s);
    ChainsJoin([elt], s);
  }

  /** Takes the first of several elements out and leaves its own pointers as they are. */
  method Unhook(elt: Item, ghost s: seq<Item>) returns (rest: Item)
    requires IsRing(s) && elt == s[0] && |s| > 1
    modifies s
    ensures rest == s[1] && IsRing(s[1..])
  {
    elt.next.prev := elt.prev;
    elt.prev.next := elt.next;
    rest := elt.next;
  }
}
