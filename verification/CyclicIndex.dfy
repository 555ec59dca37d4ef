/** One dimension of a block-cyclic distribution: `length` indices are cut into blocks of `block`
    indices (the last one may be shorter) and block `k` goes to coordinate `k % procs`.
    Both matrix distributions and the benchmark matrix generator are built from this. */
module CyclicIndex {
  import opened IntegerArithmetic

  predicate Owns(x: nat, block: nat, procs: nat, coord: nat)
    requires 0 < block && 0 < procs
  {
    (x / block) % procs == coord
  }

  /** How many of the indices below `length` belong to `coord`, counted one index at a time. */
  function Owned(length: nat, block: nat, procs: nat, coord: nat): (n: nat)
    requires 0 < block && 0 < procs
    ensures n <= length
  {
    if length == 0 then 0
    else Owned(length - 1, block, procs, coord) + (if Owns(length - 1, block, procs, coord) then 1 else 0)
  }

  function Min(a: int, b: int): (m: int)
  {
    if a < b then a else b
  }

  /** First index of the `k`-th block that `coord` holds. */
  function BlockStart(k: nat, block: nat, procs: nat, coord: nat): (e: nat)
  {
    (coord + k * procs) * block
  }

  /** Which of its own blocks, counted from 0, index `x` falls in. */
  function LocalBlock(x: nat, block: nat, procs: nat): nat
    requires 0 < block && 0 < procs
  {
    (x / block) / procs
  }

  /** Position of `x` among the indices its owner holds. */
  function LocalIndex(x: nat, block: nat, procs: nat): nat
    requires 0 < block && 0 < procs
  {
    LocalBlock(x, block, procs) * block + x % block
  }

  /** The index that sits at position `l` on `coord`. */
  function GlobalIndex(l: nat, block: nat, procs: nat, coord: nat): nat
    requires 0 < block && 0 < procs
  {
    BlockStart(l / block, block, procs, coord) + l % block
  }

  /** Indices of `coord` at or after `start`, a block start of `coord`, block by block. */
  function OwnedFrom(start: nat, length: nat, block: nat, procs: nat): (n: nat)
    requires 0 < block && 0 < procs
    decreases length - start
  {
    if length <= start then 0
    else
      assert procs * block >= 1 by { MulLe(1, procs, block); }
      Min(block, length - start) + OwnedFrom(start + procs * block, length, block, procs)
  }

  lemma OwnershipWithinBlock(k: nat, d: nat, block: nat, procs: nat, coord: nat)
    requires 0 < block && 0 < procs && coord < procs && d < block
    ensures var x := BlockStart(k, block, procs, coord) + d;
      && x / block == coord + k * procs && x % block == d
      && Owns(x, block, procs, coord) && LocalBlock(x, block, procs) == k
  {
    var x := BlockStart(k, block, procs, coord) + d;
    DivModUnique(x, block, coord + k * procs, d);
    DivModUnique(coord + k * procs, procs, k, coord);
  }

  /** An owned index is recovered from its local block and its offset. */
  lemma OwnedDecompose(x: nat, block: nat, procs: nat, coord: nat)
    requires 0 < block && 0 < procs && Owns(x, block, procs, coord)
    ensures coord < procs
    ensures x == BlockStart(LocalBlock(x, block, procs), block, procs, coord) + x % block
  {
    var s := x / block;
    assert s == (s / procs) * procs + s % procs;
    assert x == s * block + x % block;
  }

  lemma BlockStartNext(k: nat, block: nat, procs: nat, coord: nat)
    ensures BlockStart(k + 1, block, procs, coord) == BlockStart(k, block, procs, coord) + procs * block
  {
    calc {
      BlockStart(k + 1, block, procs, coord);
    ==
      (coord + k * procs + procs) * block;
    ==
      (coord + k * procs) * block + procs * block;
    }
  }

  lemma BlockStartBlock(k: nat, j: nat, d: nat, block: nat, procs: nat, coord: nat)
    requires 0 < block && d < block
    ensures (BlockStart(k, block, procs, coord) + j * block + d) / block == coord + k * procs + j
  {
    var s := coord + k * procs;
    assert (s + j) * block == s * block + j * block;
    DivModUnique(s * block + j * block + d, block, s + j, d);
  }

  /** The blocks strictly between two consecutive blocks of `coord` belong to others. */
  lemma NotOwnedInGap(k: nat, j: nat, d: nat, block: nat, procs: nat, coord: nat)
    requires 0 < block && 0 < procs && coord < procs && 1 <= j < procs && d < block
    ensures !Owns(BlockStart(k, block, procs, coord) + j * block + d, block, procs, coord)
  {
    BlockStartBlock(k, j, d, block, procs, coord);
    if coord + j < procs {
      DivModUnique(coord + k * procs + j, procs, k, coord + j);
    } else {
      assert (k + 1) * procs == k * procs + procs;
      DivModUnique(coord + k * procs + j, procs, k + 1, coord + j - procs);
    }
  }

  lemma OwnedAtGap(k: nat, d: nat, block: nat, procs: nat, coord: nat)
    requires 0 < block && 0 < procs && coord < procs
    requires block <= d <= procs * block
    ensures var e := BlockStart(k, block, procs, coord);
      Owned(e + d, block, procs, coord) == Owned(e + block, block, procs, coord)
    decreases d
  {
    if d > block {
      OwnedAtGap(k, d - 1, block, procs, coord);
      var j, r := GapBlock(d - 1, block, procs);
      NotOwnedInGap(k, j, r, block, procs, coord);
      var e := BlockStart(k, block, procs, coord);
      assert e + d - 1 == e + j * block + r;
    }
  }

  lemma GapBlock(d: nat, block: nat, procs: nat) returns (j: nat, r: nat)
    requires 0 < block <= d < procs * block
    ensures 1 <= j < procs && r < block && d == j * block + r
  {
    j, r := d / block, d % block;
    if j < 1 {
      MulLe(j, 0, block);
    }
    MulLt(j, procs, block);
  }

  lemma NotOwnedAtHead(x: nat, block: nat, procs: nat, coord: nat)
    requires 0 < block && 0 < procs && coord < procs && x < coord * block
    ensures !Owns(x, block, procs, coord)
  {
    var s := x / block;
    MulLt(s, coord, block);
    DivModUnique(s, procs, 0, s);
  }

  lemma OwnedAtHead(d: nat, block: nat, procs: nat, coord: nat)
    requires 0 < block && 0 < procs && coord < procs && d <= coord * block
    ensures Owned(d, block, procs, coord) == 0
  {
    if d > 0 {
      OwnedAtHead(d - 1, block, procs, coord);
      NotOwnedAtHead(d - 1, block, procs, coord);
    }
  }

  lemma OwnedAcrossBlock(k: nat, d: nat, block: nat, procs: nat, coord: nat)
    requires 0 < block && 0 < procs && coord < procs && d <= block
    ensures var e := BlockStart(k, block, procs, coord);
      Owned(e + d, block, procs, coord) == Owned(e, block, procs, coord) + d
    decreases d
  {
    if d > 0 {
      OwnedAcrossBlock(k, d - 1, block, procs, coord);
      OwnershipWithinBlock(k, d - 1, block, procs, coord);
      var e := BlockStart(k, block, procs, coord);
      assert e + d - 1 == e + (d - 1);
    }
  }

  lemma OwnedToNext(k: nat, block: nat, procs: nat, coord: nat)
    requires 0 < block && 0 < procs && coord < procs
    ensures Owned(BlockStart(k + 1, block, procs, coord), block, procs, coord)
         == Owned(BlockStart(k, block, procs, coord), block, procs, coord) + block
  {
    var e, stride := BlockStart(k, block, procs, coord), procs * block;
    assert block <= stride by { MulLe(1, procs, block); }
    assert BlockStart(k + 1, block, procs, coord) == e + stride by { BlockStartNext(k, block, procs, coord); }
    OwnedAcrossBlock(k, block, block, procs, coord);
    OwnedAtGap(k, stride, block, procs, coord);
  }

  lemma OwnedAtStart(k: nat, block: nat, procs: nat, coord: nat)
    requires 0 < block && 0 < procs && coord < procs
    ensures Owned(BlockStart(k, block, procs, coord), block, procs, coord) == k * block
    decreases k
  {
    if k == 0 {
      OwnedAtHead(coord * block, block, procs, coord);
    } else {
      OwnedAtStart(k - 1, block, procs, coord);
      OwnedToNext(k - 1, block, procs, coord);
      assert k * block == (k - 1) * block + block;
    }
  }

  /** Below `d` indices into its `k`-th block, `coord` owns `k` full blocks and `d` more. */
  lemma OwnedInBlock(k: nat, d: nat, block: nat, procs: nat, coord: nat)
    requires 0 < block && 0 < procs && coord < procs && d <= block
    ensures Owned(BlockStart(k, block, procs, coord) + d, block, procs, coord) == k * block + d
  {
    OwnedAtStart(k, block, procs, coord);
    OwnedAcrossBlock(k, d, block, procs, coord);
  }

  /** Crossing `d` indices of block `j` adds all of them or none, as the owner of the block decides. */
  lemma OwnedOverBlock(j: nat, d: nat, block: nat, procs: nat, coord: nat)
    requires 0 < block && 0 < procs && d <= block
    ensures Owned(j * block + d, block, procs, coord)
         == Owned(j * block, block, procs, coord) + (if j % procs == coord then d else 0)
    decreases d
  {
    if d > 0 {
      OwnedOverBlock(j, d - 1, block, procs, coord);
      DivModUnique(j * block + (d - 1), block, j, d - 1);
      assert j * block + d - 1 == j * block + (d - 1);
    }
  }

  /** How many of the blocks below `k` go to `coord`. */
  function BlocksBelow(k: nat, procs: nat, coord: nat): int
    requires 0 < procs
  {
    if coord < k % procs then k / procs + 1 else k / procs
  }

  lemma BlocksBelowNext(k: nat, procs: nat, coord: nat)
    requires 0 < procs && coord < procs
    ensures BlocksBelow(k + 1, procs, coord) == BlocksBelow(k, procs, coord) + (if k % procs == coord then 1 else 0)
  {
    DivModNext(k, procs);
  }

  lemma OwnedFullBlocks(k: nat, block: nat, procs: nat, coord: nat)
    requires 0 < block && 0 < procs && coord < procs
    ensures Owned(k * block, block, procs, coord) == BlocksBelow(k, procs, coord) * block
  {
    if k > 0 {
      OwnedFullBlocks(k - 1, block, procs, coord);
      OwnedNextBlock(k - 1, block, procs, coord);
      BlocksBelowNext(k - 1, procs, coord);
      ScaleNext(BlocksBelow(k - 1, procs, coord), BlocksBelow(k, procs, coord), block);
    } else {
      DivModUnique(0, procs, 0, 0);
    }
  }

  lemma OwnedNextBlock(k: nat, block: nat, procs: nat, coord: nat)
    requires 0 < block && 0 < procs && coord < procs
    ensures Owned((k + 1) * block, block, procs, coord)
         == Owned(k * block, block, procs, coord) + (if k % procs == coord then block else 0)
  {
    ScaleNext(k, k + 1, block);
    OwnedOverBlock(k, block, block, procs, coord);
  }

  lemma ScaleNext(a: int, b: int, block: nat)
    ensures b == a + 1 ==> b * block == a * block + block
    ensures b == a ==> b * block == a * block
  {
  }

  /** The local position of an owned index is the number of owned indices before it. */
  lemma LocalIndexIsRank(x: nat, block: nat, procs: nat, coord: nat)
    requires 0 < block && 0 < procs && Owns(x, block, procs, coord)
    ensures LocalIndex(x, block, procs) == Owned(x, block, procs, coord)
    ensures Owned(x + 1, block, procs, coord) == Owned(x, block, procs, coord) + 1
  {
    OwnedDecompose(x, block, procs, coord);
    OwnedInBlock(LocalBlock(x, block, procs), x % block, block, procs, coord);
  }

  lemma OwnedMonotone(a: nat, b: nat, block: nat, procs: nat, coord: nat)
    requires 0 < block && 0 < procs && a <= b
    ensures Owned(a, block, procs, coord) <= Owned(b, block, procs, coord)
    decreases b - a
  {
    if a < b {
      OwnedMonotone(a, b - 1, block, procs, coord);
    }
  }

  /** A partial block can only be the last one: what is left after `k` full blocks, cut at one block,
      is the extent of the `k`-th block inside the matrix. */
  lemma BlockExtent(k: nat, length: nat, block: nat, procs: nat, coord: nat)
    requires 0 < block && 0 < procs && coord < procs
    ensures var n := Owned(length, block, procs, coord);
      var e := BlockStart(k, block, procs, coord);
      && (e < length <==> k * block < n)
      && (e < length ==> Min(block, length - e) == Min(block, n - k * block))
  {
    var e := BlockStart(k, block, procs, coord);
    OwnedInBlock(k, 0, block, procs, coord);
    if length <= e {
      OwnedMonotone(length, e, block, procs, coord);
    } else {
      var d := Min(block, length - e);
      OwnedInBlock(k, d, block, procs, coord);
      OwnedMonotone(e + d, length, block, procs, coord);
    }
  }

  /** The block-by-block count started at the first block of `coord` is the index-by-index count. */
  lemma OwnedFromIsOwned(k: nat, length: nat, block: nat, procs: nat, coord: nat)
    requires 0 < block && 0 < procs && coord < procs
    ensures var e := BlockStart(k, block, procs, coord);
      OwnedFrom(e, length, block, procs) ==
      if e < length then Owned(length, block, procs, coord) - k * block else 0
    decreases length - BlockStart(k, block, procs, coord)
  {
    var e := BlockStart(k, block, procs, coord);
    if e < length {
      MulLe(1, procs, block);
      BlockStartNext(k, block, procs, coord);
      OwnedFromIsOwned(k + 1, length, block, procs, coord);
      BlockExtent(k, length, block, procs, coord);
      BlockExtent(k + 1, length, block, procs, coord);
    }
  }

  lemma LocalThenGlobal(x: nat, length: nat, block: nat, procs: nat, coord: nat)
    requires 0 < block && 0 < procs && x < length && Owns(x, block, procs, coord)
    ensures LocalIndex(x, block, procs) < Owned(length, block, procs, coord)
    ensures GlobalIndex(LocalIndex(x, block, procs), block, procs, coord) == x
  {
    LocalIndexIsRank(x, block, procs, coord);
    OwnedMonotone(x + 1, length, block, procs, coord);
    OwnedDecompose(x, block, procs, coord);
    DivModUnique(LocalIndex(x, block, procs), block, LocalBlock(x, block, procs), x % block);
  }

  /** `d` places into its `k`-th block, within the number it owns, `coord` is inside the matrix. */
  lemma PlaceInside(k: nat, d: nat, length: nat, block: nat, procs: nat, coord: nat)
    requires 0 < block && 0 < procs && coord < procs && d < block
    requires k * block + d < Owned(length, block, procs, coord)
    ensures BlockStart(k, block, procs, coord) + d < length
  {
    BlockExtent(k, length, block, procs, coord);
  }

  lemma PlaceThenLocal(x: nat, k: nat, d: nat, block: nat, procs: nat, coord: nat)
    requires 0 < block && 0 < procs && coord < procs && d < block
    requires x == BlockStart(k, block, procs, coord) + d
    ensures Owns(x, block, procs, coord) && LocalIndex(x, block, procs) == k * block + d
  {
    OwnershipWithinBlock(k, d, block, procs, coord);
  }

  lemma GlobalThenLocal(l: nat, length: nat, block: nat, procs: nat, coord: nat)
    requires 0 < block && 0 < procs && coord < procs && l < Owned(length, block, procs, coord)
    ensures GlobalIndex(l, block, procs, coord) < length
    ensures Owns(GlobalIndex(l, block, procs, coord), block, procs, coord)
    ensures LocalIndex(GlobalIndex(l, block, procs, coord), block, procs) == l
  {
    var k, d := DivMod(l, block);
    PlaceInside(k, d, length, block, procs, coord);
    var x := GlobalIndex(l, block, procs, coord);
    PlaceThenLocal(x, k, d, block, procs, coord);
  }

  /** `LocalIndex` and `GlobalIndex` are inverse bijections between the indices that `coord` owns
      below `length` and the positions below their number. */
  lemma LocalGlobalInverse(length: nat, block: nat, procs: nat, coord: nat)
    requires 0 < block && 0 < procs && coord < procs
    ensures forall x: nat :: x < length && Owns(x, block, procs, coord) ==>
      && LocalIndex(x, block, procs) < Owned(length, block, procs, coord)
      && GlobalIndex(LocalIndex(x, block, procs), block, procs, coord) == x
    ensures forall l: nat :: l < Owned(length, block, procs, coord) ==>
      && GlobalIndex(l, block, procs, coord) < length
      && Owns(GlobalIndex(l, block, procs, coord), block, procs, coord)
      && LocalIndex(GlobalIndex(l, block, procs, coord), block, procs) == l
  {
    forall x: nat | x < length && Owns(x, block, procs, coord) {
      LocalThenGlobal(x, length, block, procs, coord);
    }
    forall l: nat | l < Owned(length, block, procs, coord) {
      GlobalThenLocal(l, length, block, procs, coord);
    }
  }

  /** The counting loop of the distribution constructors (rows; columns are counted the same way). */
  method CountOwned(length: nat, block: nat, procs: nat, coord: nat) returns (count: nat)
    requires 0 < block && 0 < procs && coord < procs
    ensures count == Owned(length, block, procs, coord)
  {
    count := 0;
    var temp := coord * block;
    ghost var k := 0;
    OwnedFromIsOwned(0, length, block, procs, coord);
    BlockExtent(0, length, block, procs, coord);
    while temp < length
      invariant temp == BlockStart(k, block, procs, coord)
      invariant count + OwnedFrom(temp, length, block, procs) == Owned(length, block, procs, coord)
      decreases length - temp
    {
      MulLe(1, procs, block);
      if temp + block < length {
        BlockStartNext(k, block, procs, coord);
        count := count + block;
        temp := temp + procs * block;
        k := k + 1;
        continue;
      }
      count := count + (length - temp);
      return;
    }
  }

  /** Blocks are dealt in turn, the first one to coordinate 0: every index has one owner, and the index one
      block further on belongs to the next coordinate around. */
  lemma DealtInTurn(x: nat, block: nat, procs: nat, coord: nat)
    requires 0 < block && 0 < procs && coord < procs
    ensures x < block ==> (Owns(x, block, procs, coord) <==> coord == 0)
    ensures Owns(x, block, procs, coord) <==> Owns(x + block, block, procs, if coord + 1 < procs then coord + 1 else 0)
  {
    var q, r := DivMod(x, block);
    DivModUnique(x + block, block, q + 1, r) by {
      assert (q + 1) * block == q * block + block;
    }
    if x < block {
      DivModUnique(x, block, 0, x);
      DivModUnique(0, procs, 0, 0);
    }
    DivModNext(q, procs);
  }
}
