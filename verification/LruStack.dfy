/** Least-recently-used caches as lists, most recent tile first, and the recency stack of a whole history
    that every level of a chain of caches shows the top of. */
module LruStack {

  predicate Distinct(l: seq<nat>) {
    forall i, j :: 0 <= i < j < |l| ==> l[i] != l[j]
  }

  /** Position of `x`; the length if it is not there. */
  function IndexOf(l: seq<nat>, x: nat): (i: nat)
    ensures i <= |l| && (i < |l| ==> l[i] == x)
    ensures forall j :: 0 <= j < i ==> l[j] != x
  {
    if l == [] || l[0] == x then 0 else 1 + IndexOf(l[1..], x)
  }

  /** `l` with its `i`-th element moved to the front, or `x` put in front of it. */
  function ToFront(l: seq<nat>, i: nat, x: nat): seq<nat>
    requires i <= |l|
  {
    if i < |l| then [x] + l[..i] + l[i + 1..] else [x] + l
  }

  function Front(l: seq<nat>, x: nat): seq<nat> {
    ToFront(l, IndexOf(l, x), x)
  }

  /** One reference to `x` in a cache of `capacity` tiles: what it holds afterwards, and the tile it
      evicted (0: none). */
  function Touch(l: seq<nat>, capacity: nat, x: nat): (seq<nat>, nat) {
    if x in l then (Front(l, x), 0)
    else if |l| < capacity then ([x] + l, 0)
    else if l == [] then (l, 0)
    else ([x] + l[..|l| - 1], l[|l| - 1])
  }

  function Take(l: seq<nat>, n: nat): seq<nat> {
    if |l| <= n then l else l[..n]
  }

  /** All tiles of a history, most recent first. */
  function Recent(h: seq<nat>): seq<nat> {
    if h == [] then [] else Front(Recent(h[..|h| - 1]), h[|h| - 1])
  }

  lemma IndexUnique(l: seq<nat>, x: nat, i: nat)
    requires i <= |l| && (forall j :: 0 <= j < i ==> l[j] != x) && (i < |l| ==> l[i] == x)
    ensures IndexOf(l, x) == i
  {
    if i > 0 {
      IndexUnique(l[1..], x, i - 1);
    }
  }

  lemma FrontDistinct(l: seq<nat>, x: nat)
    requires Distinct(l)
    ensures Distinct(Front(l, x)) && forall y :: y in Front(l, x) <==> y == x || y in l
  {
    var i, f := IndexOf(l, x), Front(l, x);
    if i < |l| {
      assert forall k :: 0 <= k < |f| ==> f[k] == if k == 0 then x else if k <= i then l[k - 1] else l[k];
      forall y | y in l
        ensures y in f
      {
        var k :| 0 <= k < |l| && l[k] == y;
        assert if k < i then f[k + 1] == y else if k == i then f[0] == y else f[k] == y;
      }
    } else {
      assert forall k :: 1 <= k < |f| ==> f[k] == l[k - 1];
      assert x !in l;
    }
  }

  /** What a reference to `x` pushes out: nothing unless the cache is full and lacks `x`, and then the one
      tile of the old contents that the new ones lack, the least recent one. */
  lemma EvictedIsMissing(l: seq<nat>, capacity: nat, x: nat)
    requires Distinct(l) && 0 !in l && x != 0 && |l| <= capacity && capacity > 0
    ensures var (held, evicted) := Touch(l, capacity, x);
      && (evicted != 0 <==> x !in l && |l| == capacity)
      && (evicted != 0 ==> evicted == l[|l| - 1])
      && forall y :: y in l && y !in held <==> y == evicted && evicted != 0
  {
    if x in l {
      FrontDistinct(l, x);
    } else if |l| == capacity {
      var last := |l| - 1;
      assert l == l[..last] + [l[last]];
      assert l[last] !in l[..last];
    }
  }

  /** A cache that shows the top of a stack shows the top of it after every reference. */
  lemma TouchShowsTop(m: seq<nat>, capacity: nat, x: nat)
    requires Distinct(m) && capacity > 0
    ensures Touch(Take(m, capacity), capacity, x).0 == Take(Front(m, x), capacity)
  {
    var l, p := Take(m, capacity), IndexOf(m, x);
    if p < |l| {
      IndexUnique(l, x, p);
      assert l[p] == x;
      TopOfFront(m, capacity, x, p);
    } else {
      assert x !in l;
      if |m| > capacity {
        assert l[..|l| - 1] == m[..capacity - 1];
        if p < |m| {
          assert Take(Front(m, x), capacity) == [x] + m[..capacity - 1];
        }
      }
    }
  }

  lemma TopOfFront(m: seq<nat>, capacity: nat, x: nat, p: nat)
    requires p < |Take(m, capacity)|
    ensures ToFront(Take(m, capacity), p, x) == Take(ToFront(m, p, x), capacity)
  {
  }

  /** On any history, every level of a chain holds the most recent tiles, as many as fit. */
  lemma {:induction false} LevelShowsHistory(h: seq<nat>, capacity: nat, x: nat)
    requires capacity > 0
    ensures Distinct(Recent(h))
    ensures Touch(Take(Recent(h), capacity), capacity, x).0 == Take(Recent(h + [x]), capacity)
  {
    RecentDistinct(h);
    TouchShowsTop(Recent(h), capacity, x);
    assert (h + [x])[..|h|] == h;
  }

  lemma RecentDistinct(h: seq<nat>)
    ensures Distinct(Recent(h))
  {
    if h != [] {
      RecentDistinct(h[..|h| - 1]);
      FrontDistinct(Recent(h[..|h| - 1]), h[|h| - 1]);
    }
  }

  // ------------------------------------------------------------------ a chain of caches, one client

  /** Contents of all levels, nearest first. */
  function TouchAll(levels: seq<seq<nat>>, capacities: seq<nat>, x: nat): seq<seq<nat>>
    requires |levels| == |capacities|
  {
    seq(|levels|, i requires 0 <= i < |levels| => Touch(levels[i], capacities[i], x).0)
  }

  function AfterHistory(capacities: seq<nat>, h: seq<nat>): (levels: seq<seq<nat>>)
    ensures |levels| == |capacities|
  {
    if h == [] then seq(|capacities|, _ => [])
    else TouchAll(AfterHistory(capacities, h[..|h| - 1]), capacities, h[|h| - 1])
  }

  predicate Growing(capacities: seq<nat>) {
    (forall i :: 0 <= i < |capacities| ==> capacities[i] > 0) &&
    (forall i, j :: 0 <= i < j < |capacities| ==> capacities[i] <= capacities[j])
  }

  lemma {:induction false} LevelsAre(capacities: seq<nat>, h: seq<nat>)
    requires Growing(capacities)
    ensures forall i :: 0 <= i < |capacities| ==> AfterHistory(capacities, h)[i] == Take(Recent(h), capacities[i])
  {
    if h != [] {
      var before, x := h[..|h| - 1], h[|h| - 1];
      LevelsAre(capacities, before);
      assert h == before + [x];
      forall i | 0 <= i < |capacities|
        ensures AfterHistory(capacities, h)[i] == Take(Recent(h), capacities[i])
      {
        LevelShowsHistory(before, capacities[i], x);
      }
    }
  }

  /** Every child's contents are the beginning of its parent's. */
  lemma {:induction false} ChildInsideParent(capacities: seq<nat>, h: seq<nat>, i: nat)
    requires Growing(capacities) && i + 1 < |capacities|
    ensures var levels := AfterHistory(capacities, h);
      levels[i] <= levels[i + 1]
  {
    LevelsAre(capacities, h);
  }

  /** Number of levels to go through before `x` is found. */
  function Distance(levels: seq<seq<nat>>, x: nat): nat {
    if levels == [] || x in levels[0] then 0 else 1 + Distance(levels[1..], x)
  }

  /** Distinct tiles referenced since the last reference to `x`: all of them if there was none. */
  function SinceLast(h: seq<nat>, x: nat): set<nat> {
    if h == [] || h[|h| - 1] == x then {} else SinceLast(h[..|h| - 1], x) + {h[|h| - 1]}
  }

  /** `y` lies before `x` in the stack. */
  predicate Before(m: seq<nat>, y: nat, x: nat) {
    IndexOf(m, y) < IndexOf(m, x)
  }

  lemma FrontBefore(m: seq<nat>, last: nat, y: nat, x: nat)
    requires Distinct(m) && x != last
    ensures Before(Front(m, last), y, x) <==> y == last || Before(m, y, x)
  {
    FrontShifts(m, last, x);
    if y == last {
      IndexUnique(Front(m, last), last, 0);
    } else {
      FrontShifts(m, last, y);
    }
  }

  lemma {:induction false} SinceAreBefore(h: seq<nat>, x: nat, y: nat)
    ensures y in SinceLast(h, x) <==> Before(Recent(h), y, x)
  {
    if h != [] {
      var before, last := h[..|h| - 1], h[|h| - 1];
      RecentDistinct(before);
      if last == x {
        IndexUnique(Recent(h), x, 0);
      } else {
        SinceAreBefore(before, x, y);
        FrontBefore(Recent(before), last, y, x);
      }
    }
  }

  lemma PrefixSize(l: seq<nat>, i: nat)
    requires Distinct(l) && i <= |l|
    ensures |set k | 0 <= k < i :: l[k]| == i
  {
    if i > 0 {
      PrefixSize(l, i - 1);
      assert (set k | 0 <= k < i :: l[k]) == (set k | 0 <= k < i - 1 :: l[k]) + {l[i - 1]};
    }
  }

  /** The position of a tile in the recency stack is the number of distinct tiles since its last use. */
  lemma StackDistance(h: seq<nat>, x: nat)
    ensures IndexOf(Recent(h), x) == |SinceLast(h, x)|
  {
    var m, i := Recent(h), IndexOf(Recent(h), x);
    RecentDistinct(h);
    PrefixSize(m, i);
    var prefix := set k | 0 <= k < i :: m[k];
    forall y
      ensures y in SinceLast(h, x) <==> y in prefix
    {
      SinceAreBefore(h, x, y);
      if y in prefix {
        var k :| 0 <= k < i && m[k] == y;
        IndexUnique(m, y, k);
      }
      if Before(m, y, x) {
        assert m[IndexOf(m, y)] in prefix;
      }
    }
    assert SinceLast(h, x) == prefix;
  }

  /** Moving `y` to the front pushes back what was before it. */
  lemma FrontShifts(m: seq<nat>, y: nat, x: nat)
    requires Distinct(m) && x != y
    ensures IndexOf(Front(m, y), x) == if IndexOf(m, x) < IndexOf(m, y) then IndexOf(m, x) + 1 else
      if y in m then IndexOf(m, x) else IndexOf(m, x) + 1
  {
    var f, p, i := Front(m, y), IndexOf(m, y), IndexOf(m, x);
    if p < |m| {
      assert forall k :: 0 <= k < |f| ==> f[k] == if k == 0 then y else if k <= p then m[k - 1] else m[k];
    }
    IndexUnique(f, x, if i < p || p == |m| then i + 1 else i);
  }

  lemma InTake(l: seq<nat>, n: nat, x: nat)
    ensures x in Take(l, n) <==> x in l && IndexOf(l, x) < n
  {
    var i := IndexOf(l, x);
    if x in Take(l, n) {
      var k :| 0 <= k < |Take(l, n)| && Take(l, n)[k] == x;
      assert l[k] == x;
    }
    if i < |l| && i < n {
      assert Take(l, n)[i] == x;
    }
  }

  /** A tile referenced more recently than another is never further away. */
  lemma DistanceMonotone(capacities: seq<nat>, h: seq<nat>, x: nat, y: nat)
    requires Growing(capacities) && x in h && |SinceLast(h, x)| <= |SinceLast(h, y)|
    ensures Distance(AfterHistory(capacities, h), x) <= Distance(AfterHistory(capacities, h), y)
  {
    StackDistance(h, x);
    StackDistance(h, y);
    LevelsAre(capacities, h);
    InRecent(h, x);
    var levels := AfterHistory(capacities, h);
    forall i | 0 <= i < |levels| && y in levels[i]
      ensures x in levels[i]
    {
      InTake(Recent(h), capacities[i], x);
      InTake(Recent(h), capacities[i], y);
    }
    DistanceBySubset(levels, x, y);
  }

  lemma InRecent(h: seq<nat>, x: nat)
    ensures x in Recent(h) <==> x in h
  {
    if h != [] {
      InRecent(h[..|h| - 1], x);
      RecentDistinct(h[..|h| - 1]);
      FrontDistinct(Recent(h[..|h| - 1]), h[|h| - 1]);
    }
  }

  lemma DistanceBySubset(levels: seq<seq<nat>>, x: nat, y: nat)
    requires forall i :: 0 <= i < |levels| && y in levels[i] ==> x in levels[i]
    ensures Distance(levels, x) <= Distance(levels, y)
  {
  }

  /** The distance names the first level that holds the tile. */
  lemma {:induction false} DistanceIsFirst(levels: seq<seq<nat>>, x: nat, i: nat)
    requires i <= |levels| && (forall j :: 0 <= j < i ==> x !in levels[j]) && (i < |levels| ==> x in levels[i])
    ensures Distance(levels, x) == i
  {
    if i > 0 {
      DistanceIsFirst(levels[1..], x, i - 1);
    }
  }
}
