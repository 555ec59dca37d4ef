/** The cache model that guides task placement: an array of tiles stamped with ages, smaller meaning
    younger, and a chain of such caches. Used by one client at a time; 0 is no tile. */
module LruCache {
  import opened LruStack

  /** Two numberings of the same things: `slot` by recency, `place` by position in the array. */
  predicate Inverse(slot: seq<nat>, place: seq<nat>) {
    && |slot| == |place|
    && (forall r :: 0 <= r < |slot| ==> slot[r] < |place| && place[slot[r]] == r)
    && (forall i :: 0 <= i < |place| ==> place[i] < |slot| && slot[place[i]] == i)
  }

  /** Places after the element in slot `f` became the most recent. */
  function PlaceFront(place: seq<nat>, f: nat): seq<nat>
    requires f < |place|
  {
    seq(|place|, i requires 0 <= i < |place| =>
      if i == f then 0 else if place[i] < place[f] then place[i] + 1 else place[i])
  }

  lemma FrontOrder(place: seq<nat>, f: nat)
    requires f < |place| && forall i :: 0 <= i < |place| && i != f ==> place[i] != place[f]
    ensures var place' := PlaceFront(place, f);
      && place'[f] == 0 && (forall i :: 0 <= i < |place| && i != f ==> place'[i] > 0)
      && (forall i, j :: 0 <= i < |place| && 0 <= j < |place| && i != f && j != f ==>
            (place'[i] < place'[j] <==> place[i] < place[j]))
  {
  }

  lemma InverseInjective(slot: seq<nat>, place: seq<nat>, i: nat, f: nat)
    requires Inverse(slot, place) && i < |place| && f < |place| && i != f
    ensures place[i] != place[f]
  {
    assert slot[place[i]] == i && slot[place[f]] == f;
  }

  lemma FrontInverse(slot: seq<nat>, place: seq<nat>, f: nat)
    requires Inverse(slot, place) && f < |place|
    ensures Inverse(ToFront(slot, place[f], f), PlaceFront(place, f))
  {
    var p, slot', place' := place[f], ToFront(slot, place[f], f), PlaceFront(place, f);
    forall i | 0 <= i < |place|
      ensures place'[i] < |slot'| && slot'[place'[i]] == i
    {
      assert slot[place[i]] == i;
      if i != f {
        InverseInjective(slot, place, i, f);
      }
      FrontList(slot, place, f, f, i);
    }
    forall r | 0 <= r < |slot'|
      ensures slot'[r] < |place'| && place'[slot'[r]] == r
    {
      FrontSlot(slot, p, f, r);
      assert if r == 0 then slot'[r] == f else if r <= p then place[slot[r - 1]] == r - 1 else place[slot[r]] == r;
    }
  }

  lemma FrontSlot(slot: seq<nat>, p: nat, f: nat, r: nat)
    requires p < |slot| && r < |slot|
    ensures ToFront(slot, p, f)[r] == if r == 0 then f else if r <= p then slot[r - 1] else slot[r]
  {
  }

  lemma FrontList(list: seq<nat>, place: seq<nat>, f: nat, x: nat, i: nat)
    requires |list| == |place| && f < |place| && i < |place| && place[i] < |list| && place[f] < |list|
    requires i != f ==> place[i] != place[f]
    ensures PlaceFront(place, f)[i] < |list|
    ensures ToFront(list, place[f], x)[PlaceFront(place, f)[i]] == if i == f then x else list[place[i]]
  {
    var p, l := place[f], ToFront(list, place[f], x);
    assert forall r :: 0 <= r < |l| ==> l[r] == if r == 0 then x else if r <= p then list[r - 1] else list[r];
  }

  lemma ToFrontDistinct(l: seq<nat>, p: nat, x: nat)
    requires LruStack.Distinct(l) && p < |l| && forall r :: 0 <= r < |l| && r != p ==> l[r] != x
    ensures LruStack.Distinct(ToFront(l, p, x))
  {
    var f := ToFront(l, p, x);
    assert forall r :: 0 <= r < |f| ==> f[r] == if r == 0 then x else if r <= p then l[r - 1] else l[r];
  }

  /** Places after a new most recent element got the next slot. */
  function PlaceNew(place: seq<nat>): seq<nat> {
    seq(|place| + 1, i requires 0 <= i < |place| + 1 => if i == |place| then 0 else place[i] + 1)
  }

  lemma NewInverse(slot: seq<nat>, place: seq<nat>)
    requires Inverse(slot, place)
    ensures Inverse([|place|] + slot, PlaceNew(place))
  {
  }

  class Cache {
    const parent: Cache?
    const capacity: nat
    const tile: array<nat>
    const age: array<int>
    /** Tiles from the youngest to the oldest; the slot of each; the place of each slot. */
    ghost var list: seq<nat>
    ghost var slot: seq<nat>
    ghost var place: seq<nat>

    constructor (parent: Cache?, capacity: nat)
      requires capacity > 1
      ensures Valid() && list == [] && fresh(tile) && fresh(age) && this.parent == parent && this.capacity == capacity
    {
      this.parent, this.capacity := parent, capacity;
      tile, age := new nat[capacity](_ => 0), new int[capacity](_ => 0);
      list, slot, place := [], [], [];
    }

    /** The slots in use hold the tiles of the list, distinct ages order them, the other slots are clean. */
    ghost predicate Valid()
      reads this, tile, age
    {
      && Inverse(slot, place) && |list| == |place| <= capacity == tile.Length == age.Length && capacity > 1
      && LruStack.Distinct(list)
      && (forall i :: 0 <= i < |place| ==> tile[i] == list[place[i]] != 0 && age[i] < 0)
      && (forall i :: |place| <= i < capacity ==> tile[i] == 0 && age[i] == 0)
      && (forall i, j :: 0 <= i < |place| && 0 <= j < |place| ==> (age[i] < age[j] <==> place[i] < place[j]))
    }

    /** A tile that no slot holds is not in the list. */
    lemma Absent(x: nat)
      requires Valid() && forall i :: 0 <= i < |place| ==> tile[i] != x
      ensures x !in list
    {
      forall r | 0 <= r < |list|
        ensures list[r] != x
      {
        assert tile[slot[r]] == list[r];
      }
    }

    /** The scan: the slot of `x`, if it is there, the first empty slot, the oldest slot and the youngest age. */
    method Scan(x: nat) returns (found: int, used: nat, oldest: nat, youngest: int)
      requires Valid() && x != 0
      ensures used == |place|
      ensures found == -1 ==> x !in list
      ensures found != -1 ==> 0 <= found < used && tile[found] == x
      ensures youngest <= 0 && forall i :: 0 <= i < used ==> youngest <= age[i]
      ensures used > 0 ==> oldest < used && place[oldest] == used - 1
    {
      found, used, oldest, youngest := -1, 0, 0, 0;
      var oldestAge := 1;
      while used < capacity
        invariant used <= |place|
        invariant found == -1 ==> forall i :: 0 <= i < used ==> tile[i] != x
        invariant found != -1 ==> 0 <= found < used && tile[found] == x
        invariant youngest <= 0 && forall i :: 0 <= i < used ==> youngest <= age[i]
        invariant if used == 0 then oldestAge == 1 else oldest < used && oldestAge == age[oldest]
        invariant forall i :: 0 <= i < used ==> age[i] <= oldestAge
      {
        if tile[used] == 0 {
          break;
        }
        if oldestAge == 1 || age[used] > oldestAge {
          oldestAge, oldest := age[used], used;
        }
        if age[used] < youngest {
          youngest := age[used];
        }
        if tile[used] == x {
          found := used;
        }
        used := used + 1;
      }
      if found == -1 {
        Absent(x);
      }
      if used > 0 {
        var s := slot[used - 1];
        assert age[s] <= age[oldest];
        assert place[oldest] >= place[s];
      }
    }

    /** Slot `f` holds `x`, now the youngest tile; the one it held before is gone. */
    method Stamp(f: nat, x: nat, youngest: int)
      requires Valid() && f < |place| && x != 0
      requires forall r :: 0 <= r < |list| && r != place[f] ==> list[r] != x
      requires youngest <= 0 && forall i :: 0 <= i < |place| ==> youngest <= age[i]
      modifies this`list, this`slot, this`place, tile, age
      ensures Valid() && list == ToFront(old(list), old(place[f]), x)
    {
      ghost var l, pl := list, place;
      tile[f] := x;
      age[f] := youngest - 1;
      FrontInverse(slot, place, f);
      forall i | 0 <= i < |place| && i != f
        ensures place[i] != place[f]
      {
        InverseInjective(slot, place, i, f);
      }
      FrontOrder(place, f);
      ToFrontDistinct(list, place[f], x);
      list, slot, place := ToFront(list, place[f], x), ToFront(slot, place[f], f), PlaceFront(place, f);
      forall i | 0 <= i < |place|
        ensures tile[i] == list[place[i]]
      {
        FrontList(l, pl, f, x, i);
      }
    }

    /** A tile the cache does not hold takes an empty slot. */
    method Append(k: nat, x: nat, youngest: int)
      requires Valid() && k == |place| < capacity && x != 0 && x !in list
      requires youngest <= 0 && forall i :: 0 <= i < |place| ==> youngest <= age[i]
      modifies this`list, this`slot, this`place, tile, age
      ensures Valid() && list == [x] + old(list)
    {
      tile[k] := x;
      age[k] := youngest - 1;
      NewInverse(slot, place);
      list, slot, place := [x] + list, [k] + slot, PlaceNew(place);
    }

    /** One reference in this cache alone; the evicted tile, or 0. */
    method DoReferenced(x: nat) returns (evicted: nat)
      requires Valid() && x != 0
      modifies this`list, this`slot, this`place, tile, age
      ensures Valid() && (list, evicted) == Touch(old(list), capacity, x)
    {
      evicted := 0;
      var found, used, oldest, youngest := Scan(x);
      if found != -1 {
        assert list[place[found]] == x;
        IndexIs(list, x, place[found]);
        Stamp(found, x, youngest);
        return;
      }
      if used < capacity {
        Append(used, x, youngest);
        return;
      }
      evicted := tile[oldest];
      Stamp(oldest, x, youngest);
      assert [x] + old(list)[..|old(list)| - 1] + [] == [x] + old(list)[..|old(list)| - 1];
    }

    method IsLocal(x: nat) returns (local: bool)
      requires Valid() && x != 0
      ensures local <==> x in list
    {
      var i := 0;
      while i < capacity
        invariant i <= |place| && forall j :: 0 <= j < i ==> tile[j] != x
      {
        if tile[i] == x {
          return true;
        }
        if tile[i] == 0 {
          break;
        }
        i := i + 1;
      }
      Absent(x);
      return false;
    }

    /** How many tiles are younger; -1 for a tile that is not there. */
    method Age(x: nat) returns (age0: int)
      requires Valid() && x != 0
      ensures age0 == if x in list then IndexOf(list, x) else -1
    {
      var found, used, oldest, youngest := Scan(x);
      if found == -1 {
        return -1;
      }
      assert list[place[found]] == x;
      IndexIs(list, x, place[found]);
      age0 := CountYounger(found, age[found]);
    }

    /** The second scan: how many slots are younger than slot `f`. */
    method CountYounger(f: nat, absAge: int) returns (count: nat)
      requires Valid() && f < |place| && absAge == age[f]
      ensures count == place[f]
    {
      count := 0;
      var i := 0;
      ghost var younger: set<nat> := {};
      while i < capacity
        invariant i <= |place| && count == |younger|
        invariant Younger(younger, place[f], i)
      {
        if age[i] < absAge {
          count := count + 1;
          younger := younger + {place[i]};
        }
        if tile[i] == 0 {
          break;
        }
        i := i + 1;
      }
      assert i == |place|;
      AllYounger(younger, f, i);
    }

    lemma AllYounger(s: set<nat>, f: nat, i: nat)
      requires Valid() && f < i == |place| && Younger(s, place[f], i)
      ensures |s| == place[f]
    {
      forall r: nat
        ensures r in s <==> r < place[f]
      {
        assert r < |slot| ==> slot[r] < |place|;
      }
      CountBelow(s, place[f]);
    }

    /** The places below `p` whose slot is below `i`. */
    ghost predicate Younger(s: set<nat>, p: nat, i: nat)
      reads this
    {
      forall r: nat :: r in s <==> r < p && r < |slot| && slot[r] < i
    }
  }

  lemma IndexIs(l: seq<nat>, x: nat, p: nat)
    requires LruStack.Distinct(l) && p < |l| && l[p] == x
    ensures IndexOf(l, x) == p
  {
    IndexUnique(l, x, p);
  }

  lemma CountBelow(s: set<nat>, p: nat)
    requires forall r: nat :: r in s <==> r < p
    ensures |s| == p
  {
    if p > 0 {
      CountBelow(s - {p - 1}, p - 1);
    }
  }

  // ------------------------------------------------------------------ a chain of caches

  ghost function Own(c: Cache): set<object> {
    {c, c.tile, c.age}
  }

  ghost function Footprint(chain: seq<Cache>): set<object> {
    var caches: set<object> := set c: Cache | c in chain :: c;
    var tiles: set<object> := set c: Cache | c in chain :: c.tile;
    var ages: set<object> := set c: Cache | c in chain :: c.age;
    caches + tiles + ages
  }

  /** A cache and its parents, up to the last one, each with its own arrays. */
  ghost predicate ValidChain(cache: Cache?, chain: seq<Cache>)
    reads Footprint(chain)
  {
    if chain == [] then cache == null
    else
      && cache == chain[0] && chain[0].Valid() && Own(chain[0]) !! Footprint(chain[1..])
      && ValidChain(chain[0].parent, chain[1..])
  }

  /** What the caches hold, nearest first. */
  ghost function Lists(chain: seq<Cache>): (l: seq<seq<nat>>)
    reads chain
    ensures |l| == |chain|
  {
    if chain == [] then [] else [chain[0].list] + Lists(chain[1..])
  }

  function Capacities(chain: seq<Cache>): (c: seq<nat>)
    ensures |c| == |chain|
  {
    if chain == [] then [] else [chain[0].capacity] + Capacities(chain[1..])
  }

  lemma FootprintHead(chain: seq<Cache>)
    requires chain != []
    ensures Footprint(chain) == Own(chain[0]) + Footprint(chain[1..])
  {
    assert forall c: Cache :: c in chain <==> c == chain[0] || c in chain[1..];
  }

  lemma Nearest(cache: Cache?, chain: seq<Cache>)
    requires ValidChain(cache, chain)
    ensures cache == null <==> chain == []
    ensures cache != null ==> cache == chain[0] && cache.Valid() && Own(cache) !! Footprint(chain[1..])
    ensures cache != null ==> ValidChain(cache.parent, chain[1..])
    ensures cache != null ==> Footprint(chain) == Own(cache) + Footprint(chain[1..])
    ensures cache != null ==> Lists(chain) == [cache.list] + Lists(chain[1..])
    ensures cache != null ==> Capacities(chain) == [cache.capacity] + Capacities(chain[1..])
  {
    if cache != null {
      FootprintHead(chain);
    }
  }

  lemma FromNearest(cache: Cache, chain: seq<Cache>)
    requires chain != [] && cache == chain[0] && cache.Valid() && Own(cache) !! Footprint(chain[1..])
    requires ValidChain(cache.parent, chain[1..])
    ensures ValidChain(cache, chain) && Lists(chain) == [cache.list] + Lists(chain[1..])
  {
  }

  lemma TouchFirst(l: seq<nat>, rest: seq<seq<nat>>, c: nat, capacities: seq<nat>, x: nat)
    requires |rest| == |capacities|
    ensures TouchAll([l] + rest, [c] + capacities, x) == [Touch(l, c, x).0] + TouchAll(rest, capacities, x)
  {
  }

  /** A reference: in the nearest cache, then in all its parents; the tile evicted from the nearest. */
  method BufReferenced(cache: Cache?, x: nat, ghost chain: seq<Cache>) returns (evicted: nat)
    requires ValidChain(cache, chain) && x != 0
    modifies Footprint(chain)
    ensures ValidChain(cache, chain)
    ensures Lists(chain) == TouchAll(old(Lists(chain)), Capacities(chain), x)
    ensures evicted == if cache == null then 0 else Touch(old(Lists(chain)[0]), Capacities(chain)[0], x).1
    decreases |chain|
  {
    Nearest(cache, chain);
    if cache == null {
      return 0;
    }
    ghost var parents := chain[1..];
    ghost var lists, capacities := Lists(parents), Capacities(parents);
    TouchFirst(cache.list, lists, cache.capacity, capacities, x);
    evicted := cache.DoReferenced(x);
    assert Lists(parents) == lists;
    var above := BufReferenced(cache.parent, x, parents);
    FromNearest(cache, chain);
  }

  method Probe(cache: Cache, x: nat, ghost chain: seq<Cache>) returns (local: bool)
    requires ValidChain(cache, chain) && x != 0
    ensures chain != [] && ValidChain(cache.parent, chain[1..])
    ensures Distance(Lists(chain), x) == if local then 0 else 1 + Distance(Lists(chain[1..]), x)
  {
    Nearest(cache, chain);
    DistanceStep(cache.list, Lists(chain[1..]), x);
    local := cache.IsLocal(x);
  }

  /** How many caches to go through before one that holds `x`. */
  method BufDistance(cache: Cache?, x: nat, ghost chain: seq<Cache>) returns (i: nat)
    requires ValidChain(cache, chain) && x != 0
    ensures i == Distance(Lists(chain), x)
  {
    i := 0;
    var current := cache;
    ghost var rest := chain;
    while current != null
      invariant ValidChain(current, rest) && i + Distance(Lists(rest), x) == Distance(Lists(chain), x)
      decreases |rest|
    {
      var local := Probe(current, x, rest);
      if local {
        return;
      }
      current, rest := current.parent, rest[1..];
      i := i + 1;
    }
  }

  lemma DistanceStep(l: seq<nat>, rest: seq<seq<nat>>, x: nat)
    ensures Distance([l] + rest, x) == if x in l then 0 else 1 + Distance(rest, x)
  {
    assert ([l] + rest)[1..] == rest;
  }

  /** Caches that start empty, and are only touched through their chain, show the top of the recency stack
      of the client's references. */
  lemma ChainShowsHistory(lists: seq<seq<nat>>, capacities: seq<nat>, h: seq<nat>, x: nat)
    requires |lists| == |capacities| && lists == AfterHistory(capacities, h) && Growing(capacities)
    ensures var after := TouchAll(lists, capacities, x);
      && after == AfterHistory(capacities, h + [x])
      && forall i :: 0 <= i < |capacities| ==> after[i] == Take(Recent(h + [x]), capacities[i])
  {
    assert (h + [x])[..|h|] == h;
    LevelsAre(capacities, h + [x]);
  }

  /** A level that could hold at most one tile is skipped: its parent stands for it. */
  method CacheCreate(parent: Cache?, capacity: int) returns (cache: Cache?)
    ensures capacity <= 1 ==> cache == parent
    ensures capacity > 1 ==> cache != null && fresh(cache) && fresh(cache.tile) && fresh(cache.age) && cache.Valid()
    ensures capacity > 1 ==> cache != null && cache.list == [] && cache.parent == parent && cache.capacity == capacity
  {
    if capacity <= 1 {
      return parent;
    }
    cache := new Cache(parent, capacity);
  }
}
