/** The local-count macro of the benchmark generator: how many of the global indices
    `i .. i + n - 1` a process holds, when the first block has its own size. */
module Numroc {
  import opened IntegerArithmetic
  import opened CyclicIndex

  /** Block of global index `g`: the first one has `inb` indices, the others `nb`. */
  function BlockOf(g: nat, inb: nat, nb: nat): nat
    requires 0 < nb
  {
    if g < inb then 0 else 1 + (g - inb) / nb
  }

  predicate Resides(g: nat, inb: nat, nb: nat, proc: nat, src: nat, nprocs: nat)
    requires 0 < nb && 0 < nprocs
  {
    (src + BlockOf(g, inb, nb)) % nprocs == proc
  }

  /** Indices of `[i, i + n)` that reside in `proc`, counted one at a time. */
  function LocalCount(i: nat, n: nat, inb: nat, nb: nat, proc: nat, src: nat, nprocs: nat): nat
    requires 0 < nb && 0 < nprocs
  {
    if n == 0 then 0
    else
      LocalCount(i, n - 1, inb, nb, proc, src, nprocs) +
      (if Resides(i + n - 1, inb, nb, proc, src, nprocs) then 1 else 0)
  }

  /** The count when the interval starts at the first index of a block of `inb` indices held by `src`. */
  function CountFromBlock(n: nat, inb: nat, nb: nat, proc: nat, src: nat, nprocs: nat): int
    requires 0 < nb && 1 < nprocs
  {
    var n1 := n - inb;
    if n1 <= 0 then
      if proc == src then n else 0
    else
      var dist := if proc - src < 0 then proc - src + nprocs else proc - src;
      var nblk := n1 / nb + 1;
      var quot := nblk / nprocs;
      var mydist := dist - (nblk - quot * nprocs);
      if mydist < 0 then
        if proc != src then nb + nb * quot else inb + nb * quot
      else if mydist > 0 then
        nb * quot
      else if proc != src then
        n1 + nb + nb * (quot - nblk)
      else
        n + nb * (quot - nblk)
  }

  /** The macro: the number of indices of `[i, i + n)` that `proc` holds; with no source process
      or a single process every index is local. */
  method Mnumroc(n: nat, i: nat, inb: nat, nb: nat, proc: nat, src: int, nprocs: nat) returns (np: int)
    requires 0 < nb && proc < nprocs && src < nprocs
    ensures src < 0 || nprocs == 1 ==> np == n
    ensures src >= 0 ==> np == LocalCount(i, n, inb, nb, proc, src, nprocs)
  {
    if src >= 0 && nprocs > 1 {
      var inb1: int := inb - i;
      if inb1 <= 0 {
        var nblk := (-inb1) / nb + 1;
        var src1: int := src + nblk;
        src1 := src1 - (src1 / nprocs) * nprocs;
        Rebase(i, inb, nb, nblk);
        inb1 := inb1 + nblk * nb;
        SrcIsRemainder(src + nblk, nprocs);
        np := CountFromBlock(n, inb1, nb, proc, src1, nprocs);
        RebasedCount(i, n, inb, nb, proc, src, nprocs, nblk, inb1, src1);
        CountFromBlockIsCount(n, inb1, nb, proc, src1, nprocs);
      } else {
        np := CountFromBlock(n, inb1, nb, proc, src, nprocs);
        ShiftedCount(i, n, inb, nb, proc, src, nprocs);
        CountFromBlockIsCount(n, inb1, nb, proc, src, nprocs);
      }
    } else {
      np := n;
      if src >= 0 {
        SingleProcess(i, n, inb, nb, proc, src);
      }
    }
  }

  lemma SingleProcess(i: nat, n: nat, inb: nat, nb: nat, proc: nat, src: nat)
    requires 0 < nb && proc == 0
    ensures LocalCount(i, n, inb, nb, proc, src, 1) == n
  {
  }

  lemma SrcIsRemainder(x: nat, m: nat)
    requires 0 < m
    ensures x - (x / m) * m == x % m
  {
  }

  /** Past the first block, the interval starts `nblk` blocks on, `inb + nblk * nb - i` before the next one. */
  lemma Rebase(i: nat, inb: nat, nb: nat, nblk: nat)
    requires 0 < nb && inb <= i && nblk == (i - inb) / nb + 1
    ensures 0 < inb - i + nblk * nb <= nb
  {
    var q, r := DivMod(i - inb, nb);
    assert nblk * nb == q * nb + nb;
  }

  /** `g` indices on, both ways of numbering the blocks agree; `k` is the block of index `i` less one. */
  lemma RebasedBlock(g: nat, i: nat, inb: nat, nb: nat, nblk: nat, inb1: nat)
    requires 0 < nb && inb <= i && nblk == (i - inb) / nb + 1 && inb1 == inb - i + nblk * nb
    requires 0 < inb1 <= nb
    ensures BlockOf(i + g, inb, nb) == nblk + BlockOf(g, inb1, nb)
  {
    var x := i - inb + g;
    if g < inb1 {
      OneLess(nblk, nb);
      DivModUnique(x, nb, nblk - 1, nb - inb1 + g);
    } else {
      var q, r := DivMod(g - inb1, nb);
      SumTimes(nblk, q, nb);
      DivModUnique(x, nb, nblk + q, r);
    }
  }

  lemma OneLess(k: int, d: int)
    ensures (k - 1) * d == k * d - d
  {
  }

  lemma SumTimes(k: int, q: int, d: int)
    ensures (k + q) * d == k * d + q * d
  {
  }

  lemma RebasedCount(i: nat, n: nat, inb: nat, nb: nat, proc: nat, src: nat, nprocs: nat,
                     nblk: nat, inb1: nat, src1: nat)
    requires 0 < nb && 0 < nprocs && inb <= i && nblk == (i - inb) / nb + 1 && inb1 == inb - i + nblk * nb
    requires 0 < inb1 <= nb && src1 == (src + nblk) % nprocs
    ensures LocalCount(i, n, inb, nb, proc, src, nprocs) == LocalCount(0, n, inb1, nb, proc, src1, nprocs)
  {
    if n > 0 {
      RebasedCount(i, n - 1, inb, nb, proc, src, nprocs, nblk, inb1, src1);
      RebasedBlock(n - 1, i, inb, nb, nblk, inb1);
      assert i + n - 1 == i + (n - 1);
      ModAdd(src + nblk, BlockOf(n - 1, inb1, nb), nprocs);
    }
  }

  lemma ShiftedCount(i: nat, n: nat, inb: nat, nb: nat, proc: nat, src: nat, nprocs: nat)
    requires 0 < nb && 0 < nprocs && i < inb
    ensures LocalCount(i, n, inb, nb, proc, src, nprocs) == LocalCount(0, n, inb - i, nb, proc, src, nprocs)
  {
    if n > 0 {
      ShiftedCount(i, n - 1, inb, nb, proc, src, nprocs);
      assert BlockOf(i + n - 1, inb, nb) == BlockOf(n - 1, inb - i, nb);
    }
  }

  /** Distance, in grid order, from the source to `proc`. */
  function Distance(proc: nat, src: nat, nprocs: nat): nat
    requires proc < nprocs && src < nprocs
  {
    if proc < src then proc + nprocs - src else proc - src
  }

  lemma ResidesByDistance(b: nat, proc: nat, src: nat, nprocs: nat)
    requires proc < nprocs && src < nprocs
    ensures (src + b) % nprocs == proc <==> b % nprocs == Distance(proc, src, nprocs)
  {
    var q, r := DivMod(b, nprocs);
    if src + r < nprocs {
      DivModUnique(src + b, nprocs, q, src + r);
    } else {
      DivModUnique(src + b, nprocs, q + 1, src + r - nprocs);
    }
  }

  /** Index `g` past the first block is index `g - inb + nb` of a plain cyclic distribution. */
  lemma PastFirstBlock(g: nat, inb: nat, nb: nat, proc: nat, src: nat, nprocs: nat, d: nat)
    requires 0 < nb && proc < nprocs && src < nprocs && d == Distance(proc, src, nprocs) && inb <= g
    ensures Resides(g, inb, nb, proc, src, nprocs) <==> Owns(g - inb + nb, nb, nprocs, d)
  {
    var q, r := DivMod(g - inb, nb);
    SumTimes(q, 1, nb);
    DivModUnique(g - inb + nb, nb, q + 1, r);
    ResidesByDistance(q + 1, proc, src, nprocs);
  }

  lemma InFirstBlock(g: nat, inb: nat, nb: nat, proc: nat, src: nat, nprocs: nat)
    requires 0 < nb && proc < nprocs && src < nprocs && g < inb
    ensures Resides(g, inb, nb, proc, src, nprocs) <==> proc == src
  {
    DivModUnique(src, nprocs, 0, src);
  }

  lemma CountFirstBlock(n: nat, inb: nat, nb: nat, proc: nat, src: nat, nprocs: nat)
    requires 0 < nb && proc < nprocs && src < nprocs && n <= inb
    ensures LocalCount(0, n, inb, nb, proc, src, nprocs) == if proc == src then n else 0
  {
    if n > 0 {
      CountFirstBlock(n - 1, inb, nb, proc, src, nprocs);
      InFirstBlock(n - 1, inb, nb, proc, src, nprocs);
    }
  }

  /** The first block counts only for the source; the others count as in a plain cyclic distribution
      shifted by one block. */
  lemma CountAsOwned(k: nat, inb: nat, nb: nat, proc: nat, src: nat, nprocs: nat, d: nat)
    requires 0 < nb && proc < nprocs && src < nprocs && d == Distance(proc, src, nprocs)
    ensures LocalCount(0, inb + k, inb, nb, proc, src, nprocs) ==
      (if proc == src then inb else 0) + Owned(nb + k, nb, nprocs, d) - Owned(nb, nb, nprocs, d)
  {
    if k == 0 {
      CountFirstBlock(inb, inb, nb, proc, src, nprocs);
    } else {
      CountAsOwned(k - 1, inb, nb, proc, src, nprocs, d);
      PastFirstBlock(inb + k - 1, inb, nb, proc, src, nprocs, d);
      OneMoreOwned(nb + k - 1, nb, nprocs, d);
      OneMoreLocal(inb + k - 1, inb, nb, proc, src, nprocs);
    }
  }

  lemma OneMoreOwned(n: nat, nb: nat, nprocs: nat, d: nat)
    requires 0 < nb && 0 < nprocs
    ensures Owned(n + 1, nb, nprocs, d) == Owned(n, nb, nprocs, d) + (if Owns(n, nb, nprocs, d) then 1 else 0)
  {
  }

  lemma OneMoreLocal(n: nat, inb: nat, nb: nat, proc: nat, src: nat, nprocs: nat)
    requires 0 < nb && 0 < nprocs
    ensures LocalCount(0, n + 1, inb, nb, proc, src, nprocs) ==
      LocalCount(0, n, inb, nb, proc, src, nprocs) + (if Resides(n, inb, nb, proc, src, nprocs) then 1 else 0)
  {
  }

  lemma CountFromBlockIsCount(n: nat, inb: nat, nb: nat, proc: nat, src: nat, nprocs: nat)
    requires 0 < nb && 1 < nprocs && proc < nprocs && src < nprocs
    ensures CountFromBlock(n, inb, nb, proc, src, nprocs) == LocalCount(0, n, inb, nb, proc, src, nprocs)
  {
    if n <= inb {
      CountFirstBlock(n, inb, nb, proc, src, nprocs);
    } else {
      var d := Distance(proc, src, nprocs);
      var q, t := DivMod(n - inb, nb);
      var quot, e := DivMod(q + 1, nprocs);
      CountAsOwned(n - inb, inb, nb, proc, src, nprocs, d);
      assert inb + (n - inb) == n;
      FirstOwned(nb, nprocs, d);
      RestOwned(n - inb, q, t, quot, e, nb, nprocs, d);
      CountCases(n, inb, nb, proc, src, nprocs, q, t, quot, e);
    }
  }

  lemma FirstOwned(nb: nat, nprocs: nat, d: nat)
    requires 0 < nb && 1 < nprocs && d < nprocs
    ensures Owned(nb, nb, nprocs, d) == if d == 0 then nb else 0
  {
    OwnedFullBlocks(1, nb, nprocs, d);
    DivModUnique(1, nprocs, 0, 1);
  }

  /** The count below `nb + k`: full rounds, the blocks of the last round, the last partial block. */
  lemma RestOwned(k: nat, q: nat, t: nat, quot: nat, e: nat, nb: nat, nprocs: nat, d: nat)
    requires 0 < nb && 1 < nprocs && d < nprocs && t < nb && k == q * nb + t
    requires quot == (q + 1) / nprocs && e == (q + 1) % nprocs
    ensures Owned(nb + k, nb, nprocs, d) ==
      quot * nb + (if d < e then nb else 0) + (if d == e then t else 0)
  {
    SumTimes(q, 1, nb);
    OwnedFullBlocks(q + 1, nb, nprocs, d);
    OwnedOverBlock(q + 1, t, nb, nprocs, d);
    SumTimes(quot, 1, nb);
  }

  lemma CountCases(n: nat, inb: nat, nb: nat, proc: nat, src: nat, nprocs: nat, q: nat, t: nat, quot: nat, e: nat)
    requires 0 < nb && 1 < nprocs && proc < nprocs && src < nprocs && inb < n
    requires q == (n - inb) / nb && n - inb == q * nb + t && t < nb
    requires quot == (q + 1) / nprocs && q + 1 == quot * nprocs + e && e < nprocs
    ensures var d := Distance(proc, src, nprocs);
      CountFromBlock(n, inb, nb, proc, src, nprocs) ==
      (if proc == src then inb else 0) + (quot * nb + (if d < e then nb else 0) + (if d == e then t else 0))
      - (if d == 0 then nb else 0)
  {
    var d := Distance(proc, src, nprocs);
    TimesDifference(nb, quot, q + 1);
    SumTimes(q, 1, nb);
    assert q + 1 - quot * nprocs == e;
    assert nb * quot == quot * nb;
  }

  lemma TimesDifference(nb: nat, a: int, b: int)
    ensures nb * (a - b) == nb * a - b * nb
  {
  }
}
