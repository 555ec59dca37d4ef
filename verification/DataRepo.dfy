/** The repository of intermediate data: a hash table of reference-counted entries, each with a count
    of uses, a limit that grows while producers are still counting, and a retain count that keeps the
    entry alive meanwhile. Every operation runs under its bucket's lock and is one step here. */
module DataRepo {

  datatype Option<T> = None | Some(value: T)

  /** The counters of one entry. */
  datatype Usage = Usage(usagecnt: nat, usagelmt: nat, retained: nat)

  /** An entry whose uses reached the limit goes away, unless somebody retains it. */
  function Collect(u: Usage): Option<Usage> {
    if u.usagelmt == u.usagecnt && u.retained == 0 then None else Some(u)
  }

  function AfterCreate(o: Option<Usage>): Usage {
    match o
    case None => Usage(0, 0, 1)
    case Some(u) => u.(retained := u.retained + 1)
  }

  function AfterUse(u: Usage): Option<Usage> {
    Collect(u.(usagecnt := u.usagecnt + 1))
  }

  function AfterAddLimit(u: Usage, uses: nat): Option<Usage>
    requires u.retained > 0
  {
    Collect(u.(usagelmt := u.usagelmt + uses, retained := u.retained - 1))
  }

  function Get(m: map<nat, Usage>, key: nat): Option<Usage> {
    if key in m then Some(m[key]) else None
  }

  function Put(m: map<nat, Usage>, key: nat, o: Option<Usage>): map<nat, Usage> {
    match o
    case None => m - {key}
    case Some(u) => m[key := u]
  }

  // ------------------------------------------------------------------ a chain as a sequence of slots

  datatype Slot = Slot(key: nat, usage: Usage)

  predicate DistinctKeys(m: seq<Slot>) {
    forall i, j :: 0 <= i < j < |m| ==> m[i].key != m[j].key
  }

  predicate Absent(m: seq<Slot>, key: nat) {
    forall i :: 0 <= i < |m| ==> m[i].key != key
  }

  /** What a chain holds, as a map. */
  function Contents(m: seq<Slot>): map<nat, Usage> {
    if m == [] then map[] else Contents(m[1..])[m[0].key := m[0].usage]
  }

  function Without<T>(m: seq<T>, i: nat): (r: seq<T>)
    requires i < |m|
    ensures |r| == |m| - 1
    ensures forall j :: 0 <= j < i ==> r[j] == m[j]
    ensures forall j :: i <= j < |r| ==> r[j] == m[j + 1]
  {
    m[..i] + m[i + 1..]
  }

  lemma AbsentNotIn(m: seq<Slot>, key: nat)
    requires Absent(m, key)
    ensures key !in Contents(m)
  {
  }

  lemma SlotIn(m: seq<Slot>, i: nat)
    requires DistinctKeys(m) && i < |m|
    ensures m[i].key in Contents(m) && Contents(m)[m[i].key] == m[i].usage
  {
    if i > 0 {
      SlotIn(m[1..], i - 1);
      assert m[1..][i - 1] == m[i];
    }
  }

  /** Changing the counters of one slot changes that key and nothing else. */
  lemma SlotUpdated(m: seq<Slot>, i: nat, u: Usage)
    requires DistinctKeys(m) && i < |m|
    ensures Contents(m[i := Slot(m[i].key, u)]) == Contents(m)[m[i].key := u]
  {
    var m' := m[i := Slot(m[i].key, u)];
    if i == 0 {
      assert m'[1..] == m[1..];
    } else {
      assert m'[1..] == m[1..][i - 1 := Slot(m[i].key, u)];
      SlotUpdated(m[1..], i - 1, u);
    }
  }

  lemma WithoutDistinct(m: seq<Slot>, i: nat)
    requires DistinctKeys(m) && i < |m|
    ensures DistinctKeys(Without(m, i))
  {
  }

  lemma WithoutTail(m: seq<Slot>, i: nat)
    requires 0 < i < |m|
    ensures Without(m, i)[1..] == Without(m[1..], i - 1) && Without(m, i)[0] == m[0] && m[1..][i - 1] == m[i]
  {
    assert m[1..][i..] == m[i + 1..];
  }

  lemma {:induction false} SlotRemoved(m: seq<Slot>, i: nat)
    requires DistinctKeys(m) && i < |m|
    ensures Contents(Without(m, i)) == Contents(m) - {m[i].key}
  {
    if i == 0 {
      assert Without(m, i) == m[1..];
      TailDistinct(m);
      AbsentNotIn(m[1..], m[0].key);
      RemoveNew(Contents(m[1..]), m[0]);
    } else {
      WithoutTail(m, i);
      TailDistinct(m);
      SlotRemoved(m[1..], i - 1);
      RemoveBelow(Contents(m[1..]), m[0], m[i].key);
    }
  }

  lemma RemoveNew(m: map<nat, Usage>, s: Slot)
    requires s.key !in m
    ensures m[s.key := s.usage] - {s.key} == m
  {
  }

  lemma TailDistinct(m: seq<Slot>)
    requires DistinctKeys(m) && m != []
    ensures DistinctKeys(m[1..]) && Absent(m[1..], m[0].key)
  {
  }

  lemma RemoveBelow(m: map<nat, Usage>, s: Slot, key: nat)
    requires s.key != key
    ensures (m - {key})[s.key := s.usage] == m[s.key := s.usage] - {key}
  {
  }

  lemma SlotAdded(m: seq<Slot>, s: Slot)
    requires DistinctKeys(m) && Absent(m, s.key)
    ensures DistinctKeys([s] + m) && Contents([s] + m) == Contents(m)[s.key := s.usage]
  {
    assert ([s] + m)[1..] == m;
  }

  // ------------------------------------------------------------------ the linked structure

  class Entry {
    const key: nat
    ghost const home: Bucket
    var usagecnt: nat
    var usagelmt: nat
    var retained: nat
    var next: Entry?

    constructor (key: nat, next: Entry?, ghost home: Bucket)
      ensures this.key == key && this.home == home && this.next == next && this.AsSlot() == Slot(key, Usage(0, 0, 1))
    {
      this.key, this.home, this.next := key, home, next;
      usagecnt, usagelmt, retained := 0, 0, 1;
    }

    function AsSlot(): Slot
      reads this
    {
      Slot(key, Usage(usagecnt, usagelmt, retained))
    }
  }

  /** One bucket: a singly linked chain, newest entry first, and the slots it stands for. */
  class Bucket {
    var size: nat
    var first: Entry?
    ghost var chain: seq<Entry>
    ghost var slots: seq<Slot>

    constructor ()
      ensures Valid() && chain == [] && slots == []
    {
      size, first, chain, slots := 0, null, [], [];
    }

    /** The `i`-th entry, or the end of the chain. */
    ghost function At(i: nat): Entry?
      reads this
    {
      if i < |chain| then chain[i] else null
    }

    ghost predicate Linked()
      reads this, chain
    {
      && first == At(0)
      && forall i {:trigger chain[i].next} :: 0 <= i < |chain| ==> chain[i].next == At(i + 1)
    }

    ghost predicate Valid()
      reads this, chain
    {
      && size == |chain| == |slots| && DistinctKeys(slots) && Linked()
      && forall i {:trigger chain[i]} :: 0 <= i < |chain| ==>
           chain[i].AsSlot() == slots[i] && chain[i].home == this
    }

    /** The search loop the operations share: the entry of `key` and its predecessor in the chain. */
    method Find(key: nat) returns (p: Entry?, e: Entry?, ghost i: nat)
      requires Valid()
      ensures e == null ==> Absent(slots, key)
      ensures e != null ==> i < |chain| && chain[i] == e && slots[i].key == e.key == key
      ensures e != null ==> p == if i == 0 then null else chain[i - 1]
    {
      p, e, i := null, first, 0;
      while e != null
        invariant i <= |chain| && e == At(i)
        invariant p == if i == 0 then null else chain[i - 1]
        invariant forall j :: 0 <= j < i ==> slots[j].key != key
        decreases |chain| - i
      {
        assert chain[i] == e;
        if e.key == key {
          return;
        }
        p, e, i := e, e.next, i + 1;
      }
    }

    method LookupEntry(key: nat) returns (e: Entry?)
      requires Valid()
      ensures e == null <==> key !in Contents(slots)
      ensures e != null ==> e in chain && e.key == key && Contents(slots)[key] == e.AsSlot().usage
    {
      var p;
      ghost var i;
      p, e, i := Find(key);
      if e == null {
        AbsentNotIn(slots, key);
      } else {
        SlotIn(slots, i);
      }
    }

    method LookupEntryAndCreate(key: nat) returns (e: Entry)
      requires Valid()
      modifies this, chain
      ensures Valid() && (chain == old(chain) || (fresh(e) && chain == [e] + old(chain)))
      ensures e in chain && e.key == key
      ensures Contents(slots) == old(Contents(slots))[key := AfterCreate(old(Get(Contents(slots), key)))]
    {
      var p, found: Entry?;
      ghost var i;
      p, found, i := Find(key);
      if found != null {
        e := found;
        SetCounters(e, i, e.usagecnt, e.usagelmt, e.retained + 1);
      } else {
        AbsentNotIn(slots, key);
        SlotAdded(slots, Slot(key, Usage(0, 0, 1)));
        e := Prepend(key);
      }
    }

    method Prepend(key: nat) returns (e: Entry)
      requires Valid() && Absent(slots, key)
      modifies this
      ensures Valid() && fresh(e) && e.key == key
      ensures chain == [e] + old(chain) && slots == [Slot(key, Usage(0, 0, 1))] + old(slots)
    {
      e := new Entry(key, first, this);
      first := e;
      size := size + 1;
      chain := [e] + chain;
      slots := [e.AsSlot()] + slots;
      assert forall j :: 1 <= j < |chain| ==> chain[j] == old(chain)[j - 1];
    }

    /** Relinks the chain around its `i`-th entry. */
    method Bypass(p: Entry?, e: Entry, ghost i: nat)
      requires Linked() && i < |chain| && chain[i] == e && p == if i == 0 then null else chain[i - 1]
      requires forall j, k :: 0 <= j < k < |chain| ==> chain[j] != chain[k]
      modifies this`first, this`chain, p
      ensures Linked() && chain == Without(old(chain), i)
      ensures p != null ==> p.AsSlot() == old(p.AsSlot())
    {
      if p != null {
        p.next := e.next;
      } else {
        first := e.next;
      }
      chain := Without(chain, i);
    }

    /** Takes the `i`-th entry out of the chain. */
    method Unlink(p: Entry?, e: Entry, ghost i: nat)
      requires Valid() && i < |chain| && chain[i] == e
      requires p == if i == 0 then null else chain[i - 1]
      modifies this, p
      ensures Valid() && chain == Without(old(chain), i) && slots == Without(old(slots), i)
    {
      Bypass(p, e, i);
      size := size - 1;
      WithoutDistinct(slots, i);
      slots := Without(slots, i);
    }

    method SetCounters(e: Entry, ghost i: nat, usagecnt: nat, usagelmt: nat, retained: nat)
      requires Valid() && i < |chain| && chain[i] == e
      modifies this`slots, e`usagecnt, e`usagelmt, e`retained
      ensures Valid() && e.AsSlot() == Slot(e.key, Usage(usagecnt, usagelmt, retained))
      ensures slots == old(slots)[i := e.AsSlot()]
      ensures old(slots[i]) == Slot(e.key, old(e.AsSlot().usage))
      ensures Contents(slots) == old(Contents(slots))[e.key := e.AsSlot().usage]
      ensures Get(old(Contents(slots)), e.key) == Some(old(e.AsSlot().usage))
    {
      SlotIn(slots, i);
      e.usagecnt, e.usagelmt, e.retained := usagecnt, usagelmt, retained;
      SlotUpdated(slots, i, e.AsSlot().usage);
      slots := slots[i := e.AsSlot()];
    }

    method UsedOnce(key: nat)
      requires Valid() && key in Contents(slots)
      modifies this, chain
      ensures Valid() && forall e <- chain :: e in old(chain)
      ensures Contents(slots) == Put(old(Contents(slots)), key, AfterUse(old(Contents(slots)[key])))
    {
      var p, e: Entry?;
      ghost var i;
      p, e, i := Find(key);
      if e == null {
        AbsentNotIn(slots, key);
      }
      SetCounters(e, i, e.usagecnt + 1, e.usagelmt, e.retained);
      var r := e.usagecnt;
      if e.usagelmt == r && e.retained == 0 {
        SlotRemoved(slots, i);
        Unlink(p, e, i);
      }
    }

    method AddToUsageLimit(key: nat, usagelmt: nat)
      requires Valid() && key in Contents(slots) && Contents(slots)[key].retained > 0
      modifies this, chain
      ensures Valid() && forall e <- chain :: e in old(chain)
      ensures Contents(slots) == Put(old(Contents(slots)), key, AfterAddLimit(old(Contents(slots)[key]), usagelmt))
    {
      var p, e: Entry?;
      ghost var i;
      p, e, i := Find(key);
      if e == null {
        AbsentNotIn(slots, key);
      }
      SlotIn(slots, i);
      SetCounters(e, i, e.usagecnt, e.usagelmt + usagelmt, e.retained - 1);
      if e.usagelmt == e.usagecnt && e.retained == 0 {
        SlotRemoved(slots, i);
        Unlink(p, e, i);
      }
    }
  }

  // ------------------------------------------------------------------ the whole table

  /** The table: `nbentries` buckets, each with its own entries; a key belongs to bucket `key % nbentries`. */
  class Repo {
    const nbentries: nat
    const heads: seq<Bucket>

    constructor (hashsize: nat)
      requires hashsize > 0
      ensures Valid() && nbentries == hashsize
      ensures forall key :: Lookup(key) == None
      ensures fresh(heads)
    {
      var buckets: seq<Bucket> := [];
      while |buckets| < hashsize
        invariant |buckets| <= hashsize && fresh(buckets)
        invariant forall i :: 0 <= i < |buckets| ==> buckets[i].Valid() && buckets[i].slots == [] && buckets[i].chain == []
        invariant forall i, j :: 0 <= i < j < |buckets| ==> buckets[i] != buckets[j]
      {
        var head := new Bucket();
        buckets := buckets + [head];
      }
      nbentries, heads := hashsize, buckets;
    }

    ghost function Chains(): (r: set<object>)
      reads heads
      ensures forall i, e :: 0 <= i < |heads| && e in heads[i].chain ==> e in r
    {
      set i, e | 0 <= i < |heads| && e in heads[i].chain :: e
    }

    ghost predicate Valid()
      reads heads, Chains()
    {
      && |heads| == nbentries > 0
      && (forall i, j :: 0 <= i < j < |heads| ==> heads[i] != heads[j])
      && (forall i :: 0 <= i < |heads| ==> (forall e <- heads[i].chain :: e in Chains()) && heads[i].Valid())
    }

    /** The counters of `key`, wherever they are. */
    ghost function Lookup(key: nat): Option<Usage>
      requires nbentries == |heads| > 0
      reads heads
    {
      Get(Contents(heads[key % nbentries].slots), key)
    }

    method LookupEntry(key: nat) returns (e: Entry?)
      requires Valid()
      ensures e == null <==> Lookup(key) == None
      ensures e != null ==> e.key == key && Lookup(key) == Some(e.AsSlot().usage)
    {
      e := heads[key % nbentries].LookupEntry(key);
    }

    method LookupEntryAndCreate(key: nat) returns (e: Entry)
      requires Valid()
      modifies heads, Chains()
      ensures Valid() && e.key == key
      ensures Lookup(key) == Some(AfterCreate(old(Lookup(key))))
      ensures forall k :: k != key ==> Lookup(k) == old(Lookup(k))
    {
      var h := key % nbentries;
      e := heads[h].LookupEntryAndCreate(key);
    }

    method UsedOnce(key: nat)
      requires Valid() && Lookup(key).Some?
      modifies heads, Chains()
      ensures Valid()
      ensures Lookup(key) == AfterUse(old(Lookup(key).value))
      ensures forall k :: k != key ==> Lookup(k) == old(Lookup(k))
    {
      var h := key % nbentries;
      heads[h].UsedOnce(key);
    }

    method AddToUsageLimit(key: nat, usagelmt: nat)
      requires Valid() && Lookup(key).Some? && Lookup(key).value.retained > 0
      modifies heads, Chains()
      ensures Valid()
      ensures Lookup(key) == AfterAddLimit(old(Lookup(key).value), usagelmt)
      ensures forall k :: k != key ==> Lookup(k) == old(Lookup(k))
    {
      var h := key % nbentries;
      heads[h].AddToUsageLimit(key, usagelmt);
    }
  }
}
