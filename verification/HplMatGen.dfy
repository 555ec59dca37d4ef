/** The benchmark's parallel matrix generator: the sequence and its jumps on pairs of 32-bit words,
    and the block-cyclic walk that draws every local entry from the term its global position names. */
module HplMatGen {
  import opened IntegerArithmetic
  import opened CyclicIndex
  import opened Lcg
  import opened HplWords
  import opened Numroc
  import TileGenerator

  const MULT := Words(1284865837, 1481765933)
  const IADD := Words(1, 0)

  function Map(mult: Words, iadd: Words): Affine {
    Affine(Val(mult), Val(iadd))
  }

  /** The constants and the value `jumpm` numbers further on; the constants are left alone
      when there is nothing to jump over. */
  method Xjumpm(jumpm: int, mult: Words, iadd: Words, irann: Words, iam0: Words, icm0: Words)
    returns (iranm: Words, iam: Words, icm: Words)
    ensures jumpm > 0 ==> Jumps(Map(iam, icm), Map(mult, iadd), jumpm)
    ensures jumpm == 1 ==> iam == mult && icm == iadd
    ensures jumpm <= 0 ==> iam == iam0 && icm == icm0
    ensures Val(iranm) == Term(Map(mult, iadd), Val(irann), if jumpm > 0 then jumpm else 0)
  {
    iam, icm := iam0, icm0;
    if jumpm > 0 {
      iam, icm := mult, iadd;
      OneStep(Map(mult, iadd));
      for k := 1 to jumpm
        invariant k == 1 ==> iam == mult && icm == iadd
        invariant Jumps(Map(iam, icm), Map(mult, iadd), k)
      {
        ghost var f := Map(iam, icm);
        iam := Lmul(iam, mult);
        var j := Lmul(icm, mult);
        icm := Ladd(iadd, j);
        ComposeJumps(f, Map(mult, iadd), Map(mult, iadd), k, 1);
        OneStep(Map(mult, iadd));
        assert Map(iam, icm) == Compose(f, Map(mult, iadd));
      }
      iranm := Advance(iam, icm, irann);
    } else {
      iranm := irann;
    }
  }

  /** One application of the map `(mult, iadd)`. */
  method Advance(mult: Words, iadd: Words, iran: Words) returns (next: Words)
    ensures Val(next) == Apply(Map(mult, iadd), Val(iran))
  {
    var j := Lmul(iran, mult);
    next := Ladd(j, iadd);
    ApplyByParts(Val(iran), Val(mult), Val(iadd));
  }

  lemma ApplyByParts(x: nat, a: nat, c: nat)
    ensures ((x * a) % M64 + c) % M64 == Apply(Affine(a, c), x)
  {
    ModAdd(x * a, c, M64);
    assert x * a == a * x;
  }

  /** The generator's static state: current value, multiplier and increment. */
  class HplGenerator {
    var irand: Words
    var ias: Words
    var ics: Words

    constructor ()
      ensures irand == ias == ics == Words(0, 0)
    {
      irand, ias, ics := Words(0, 0), Words(0, 0), Words(0, 0);
    }

    method SetRan(option: int, iran: Words) returns (out: Words)
      modifies this
      ensures out == if option == 3 then old(irand) else iran
      ensures option == 3 ==> Val(irand) == Apply(Map(ias, ics), old(Val(irand)))
      ensures option != 3 ==> irand == if option == 0 then iran else old(irand)
      ensures ias == if option == 1 then iran else old(ias)
      ensures ics == if option == 2 then iran else old(ics)
    {
      out := iran;
      if option == 3 {
        out := irand;
        irand := Advance(ias, ics, irand);
      } else if option == 0 {
        irand := iran;
      } else if option == 1 {
        ias := iran;
      } else if option == 2 {
        ics := iran;
      }
    }

    /** Jumps from `irann` and makes the result the current value. */
    method JumpIt(mult: Words, iadd: Words, irann: Words) returns (iranm: Words)
      modifies this`irand
      ensures Val(iranm) == Apply(Map(mult, iadd), Val(irann)) && irand == iranm
    {
      iranm := Advance(mult, iadd, irann);
      irand := iranm;
    }

    /** Draws the current value, as the two words the floating-point result is made of. */
    method Rand() returns (j: Words)
      modifies this
      ensures j == old(irand) && ias == old(ias) && ics == old(ics)
      ensures Val(irand) == Apply(Map(ias, ics), old(Val(irand)))
    {
      j := SetRan(3, Words(0, 0));
    }
  }

  /** Where a process stands and what is distributed. */
  datatype Layout = Layout(nprow: nat, npcol: nat, myrow: nat, mycol: nat, m: nat, n: nat, nb: nat)

  predicate Proper(l: Layout) {
    0 < l.nb && l.myrow < l.nprow && l.mycol < l.npcol
  }

  function Mp(l: Layout): nat
    requires Proper(l)
  {
    Owned(l.m, l.nb, l.nprow, l.myrow)
  }

  function Nq(l: Layout): nat
    requires Proper(l)
  {
    Owned(l.n, l.nb, l.npcol, l.mycol)
  }

  /** The term of the sequence that global entry `(gi, gj)` of an `m`-row matrix is drawn from. */
  function Index(gi: nat, gj: nat, m: nat): nat {
    1 + gi + gj * m
  }

  ghost function Draw(seed: nat, k: nat): nat {
    Term(Map(MULT, IADD), seed, k)
  }

  function GlobalRow(l: Layout, i: nat): nat
    requires Proper(l)
  {
    GlobalIndex(i, l.nb, l.nprow, l.myrow)
  }

  function GlobalColumn(l: Layout, j: nat): nat
    requires Proper(l)
  {
    GlobalIndex(j, l.nb, l.npcol, l.mycol)
  }

  /** The value local entry `(i, j)` must have. */
  ghost function Expected(l: Layout, seed: nat, i: nat, j: nat): nat
    requires Proper(l)
  {
    Draw(seed, Index(GlobalRow(l, i), GlobalColumn(l, j), l.m))
  }

  ghost predicate Drawn(w: Words, l: Layout, seed: nat, lda: nat, p: nat)
    requires Proper(l) && 0 < lda
  {
    Val(w) == Expected(l, seed, p % lda, p / lda)
  }

  predicate InColumn(l: Layout, lda: nat, p: nat)
    requires Proper(l) && 0 < lda
  {
    p % lda < Mp(l)
  }

  /** Column-major storage with leading dimension `lda`: the entries stored before position `pos` are
      drawn, padding and everything from `pos` on is as it was. */
  ghost predicate FilledTo(a: seq<Words>, was: seq<Words>, l: Layout, seed: nat, lda: nat, pos: nat)
    requires Proper(l) && 0 < lda
  {
    && |a| == |was|
    && forall p :: 0 <= p < |a| ==>
         if p < pos && InColumn(l, lda, p) then Drawn(a[p], l, seed, lda, p) else a[p] == was[p]
  }

  /** `n` consecutive draws into `A[pos..pos + n]`, the `k`-th term first. */
  method DrawRun(gen: HplGenerator, A: array<Words>, pos: nat, n: nat, ghost seed: nat, ghost k: nat)
    requires pos + n <= A.Length && Map(gen.ias, gen.ics) == Map(MULT, IADD) && Val(gen.irand) == Draw(seed, k)
    modifies gen, A
    ensures gen.ias == old(gen.ias) && gen.ics == old(gen.ics)
    ensures forall p :: 0 <= p < A.Length ==>
      if pos <= p < pos + n then Val(A[p]) == Draw(seed, k + (p - pos)) else A[p] == old(A[p])
  {
    for ik := 0 to n
      invariant gen.ias == old(gen.ias) && gen.ics == old(gen.ics)
      invariant Val(gen.irand) == Draw(seed, k + ik)
      invariant forall p :: 0 <= p < A.Length ==>
        if pos <= p < pos + ik then Val(A[p]) == Draw(seed, k + (p - pos)) else A[p] == old(A[p])
    {
      A[pos + ik] := gen.Rand();
    }
  }

  /** Number of blocks in `count` indices and the size of the last one. */
  lemma LastBlock(count: nat, nb: nat) returns (q: nat)
    requires 0 < nb && 0 < count
    ensures q == (count - 1) / nb && (count + nb - 1) / nb == q + 1
    ensures 0 < count - q * nb <= nb
  {
    var r;
    q, r := DivMod(count - 1, nb);
    assert (q + 1) * nb == q * nb + nb;
    DivModUnique(count + nb - 1, nb, q + 1, r);
  }

  /** Position `p`, `d` entries into local block `k` of local column `j`, belongs to this global entry. */
  lemma PositionDecodes(l: Layout, lda: nat, j: nat, k: nat, d: nat, p: nat)
    requires Proper(l) && 0 < lda && d < l.nb && k * l.nb + d < lda
    requires p == j * lda + (k * l.nb + d)
    ensures p % lda == k * l.nb + d && p / lda == j
    ensures GlobalRow(l, p % lda) == BlockStart(k, l.nb, l.nprow, l.myrow) + d
  {
    DivModUnique(p, lda, j, k * l.nb + d);
    DivModUnique(k * l.nb + d, l.nb, k, d);
  }

  lemma RunEntry(w: Words, l: Layout, seed: nat, lda: nat, j: nat, k: nat, d: nat, p: nat)
    requires Proper(l) && 0 < lda && d < l.nb && k * l.nb + d < lda
    requires p == j * lda + (k * l.nb + d)
    requires Val(w) == Draw(seed, Index(BlockStart(k, l.nb, l.nprow, l.myrow) + d, GlobalColumn(l, j), l.m))
    ensures Drawn(w, l, seed, lda, p)
  {
    PositionDecodes(l, lda, j, k, d, p);
  }

  lemma RunColumn(lda: nat, j: nat, i: nat, p: nat)
    requires 0 < lda && i < lda && p == j * lda + i
    ensures p % lda == i
  {
    DivModUnique(p, lda, j, i);
  }

  /** A run drawn at block `k` of column `j` extends what is filled; `i` is its local row. */
  lemma RunFills(a: seq<Words>, b: seq<Words>, was: seq<Words>, l: Layout, seed: nat, lda: nat,
                 j: nat, k: nat, i: nat, count: nat, pos: nat, first: nat)
    requires Proper(l) && 0 < lda && Mp(l) <= lda && count <= l.nb && i == k * l.nb && i + count <= Mp(l)
    requires pos == j * lda + i
    requires FilledTo(a, was, l, seed, lda, pos) && |b| == |a|
    requires first == Index(BlockStart(k, l.nb, l.nprow, l.myrow), GlobalColumn(l, j), l.m)
    requires forall p :: 0 <= p < |b| ==>
      if pos <= p < pos + count then Val(b[p]) == Draw(seed, first + (p - pos)) else b[p] == a[p]
    ensures FilledTo(b, was, l, seed, lda, pos + count)
  {
    forall p | pos <= p < pos + count && p < |b|
      ensures Drawn(b[p], l, seed, lda, p) && InColumn(l, lda, p)
    {
      RunEntry(b[p], l, seed, lda, j, k, p - pos, p);
      RunColumn(lda, j, i + (p - pos), p);
    }
    forall p | 0 <= p < |b| && !(pos <= p < pos + count)
      ensures if p < pos + count && InColumn(l, lda, p) then Drawn(b[p], l, seed, lda, p) else b[p] == was[p]
    {
      assert b[p] == a[p];
    }
  }

  /** Past the last entry of a column there is only padding up to the next column. */
  lemma ColumnFills(a: seq<Words>, was: seq<Words>, l: Layout, seed: nat, lda: nat, j: nat)
    requires Proper(l) && 0 < lda && Mp(l) <= lda
    requires FilledTo(a, was, l, seed, lda, j * lda + Mp(l))
    ensures (j + 1) * lda == j * lda + lda
    ensures FilledTo(a, was, l, seed, lda, (j + 1) * lda)
  {
    forall p: nat | j * lda + Mp(l) <= p < j * lda + lda
      ensures !InColumn(l, lda, p)
    {
      DivModUnique(p, lda, j, p - j * lda);
    }
  }

  /** Words `ib` stand at the first row this process holds of global column `gj`. */
  ghost predicate AtColumn(ib: Words, l: Layout, seed: nat, gj: nat)
    requires Proper(l)
  {
    Val(ib) == Draw(seed, Index(BlockStart(0, l.nb, l.nprow, l.myrow), gj, l.m))
  }

  lemma JumpAhead(f: Affine, x: nat, y: nat, seed: nat, k: nat, step: nat, k': nat)
    requires Jumps(f, Map(MULT, IADD), step) && x == Draw(seed, k) && x < M64 && y == Apply(f, x) && k' == k + step
    ensures y == Draw(seed, k')
  {
    TermAdd(Map(MULT, IADD), seed, k, step);
  }

  ghost predicate Ready(gen: HplGenerator)
    reads gen
  {
    gen.ias == MULT && gen.ics == IADD
  }

  /** One local column: block after block, jumping over the rows other processes hold. */
  method FillColumn(gen: HplGenerator, A: array<Words>, l: Layout, lda: nat, pos0: nat, mp: nat, ib: Words,
                    ia2: Words, ic2: Words, ghost seed: nat, ghost j: nat, ghost was: seq<Words>)
    returns (pos: nat)
    requires Proper(l) && mp == Mp(l) && 0 < mp <= lda && pos0 == j * lda && pos0 + lda <= A.Length
    requires Ready(gen) && gen.irand == ib && AtColumn(ib, l, seed, GlobalColumn(l, j))
    requires Jumps(Map(ia2, ic2), Map(MULT, IADD), l.nprow * l.nb)
    requires FilledTo(A[..], was, l, seed, lda, pos0)
    modifies gen, A
    ensures Ready(gen) && pos == pos0 + lda == (j + 1) * lda && FilledTo(A[..], was, l, seed, lda, pos)
  {
    var mblks, lmb := (mp + l.nb - 1) / l.nb, mp - ((mp - 1) / l.nb) * l.nb;
    ghost var q := LastBlock(mp, l.nb);
    var ib1 := ib;
    pos := pos0;
    for iblk := 0 to mblks
      invariant Ready(gen) && gen.irand == ib1
      invariant Val(ib1) == Draw(seed, Index(BlockStart(iblk, l.nb, l.nprow, l.myrow), GlobalColumn(l, j), l.m))
      invariant pos == pos0 + if iblk == mblks then mp else iblk * l.nb
      invariant FilledTo(A[..], was, l, seed, lda, pos)
    {
      var count := if iblk == mblks - 1 then lmb else l.nb;
      ghost var first := Index(BlockStart(iblk, l.nb, l.nprow, l.myrow), GlobalColumn(l, j), l.m);
      ghost var before := A[..];
      BlockFits(iblk, mblks, mp, l.nb);
      DrawRun(gen, A, pos, count, seed, first);
      RunFills(before, A[..], was, l, seed, lda, j, iblk, iblk * l.nb, count, pos, first);
      pos := pos + count;
      var iran2 := gen.JumpIt(ia2, ic2, ib1);
      BlockStartNext(iblk, l.nb, l.nprow, l.myrow);
      JumpAhead(Map(ia2, ic2), Val(ib1), Val(iran2), seed, first, l.nprow * l.nb, first + l.nprow * l.nb);
      ib1 := iran2;
    }
    ColumnFills(A[..], was, l, seed, lda, j);
    pos := pos + (lda - mp);
  }

  lemma BlockFits(k: nat, blocks: nat, count: nat, nb: nat)
    requires 0 < nb && 0 < count && blocks == (count - 1) / nb + 1 && k < blocks
    ensures k < blocks - 1 ==> (k + 1) * nb == k * nb + nb <= count
    ensures k == blocks - 1 ==> k * nb + (count - ((count - 1) / nb) * nb) == count
    ensures 0 < count - ((count - 1) / nb) * nb <= nb
  {
    var q := LastBlock(count, nb);
    assert (k + 1) * nb == k * nb + nb;
    if k < q {
      MulLe(k + 1, q, nb);
    }
  }

  lemma SameBlock(g: nat, nb: nat)
    requires 0 < nb
    ensures BlockOf(g, nb, nb) == g / nb
  {
    var q, r := DivMod(g, nb);
    if g < nb {
      DivModUnique(g, nb, 0, g);
    } else {
      OneLess(q, nb);
      DivModUnique(g - nb, nb, q - 1, r);
    }
  }

  /** With equal blocks from process 0, the macro counts what the process owns. */
  lemma NumrocIsOwned(length: nat, nb: nat, procs: nat, coord: nat)
    requires 0 < nb && coord < procs
    ensures LocalCount(0, length, nb, nb, coord, 0, procs) == Owned(length, nb, procs, coord)
  {
    if length > 0 {
      NumrocIsOwned(length - 1, nb, procs, coord);
      SameBlock(length - 1, nb);
    }
  }

  /** What a process holds after the generation: every local entry drawn from the term of its global
      position, padding untouched. */
  ghost predicate Generated(a: seq<Words>, was: seq<Words>, l: Layout, seed: nat, lda: nat)
    requires Proper(l) && 0 < lda
  {
    FilledTo(a, was, l, seed, lda, if Mp(l) == 0 then 0 else Nq(l) * lda)
  }

  /** The constants of the four jumps, each given as its multiplier and its increment. */
  datatype Jumpers = Jumpers(a2: Words, c2: Words, a3: Words, c3: Words, a4: Words, c4: Words)

  ghost predicate Prepared(js: Jumpers, l: Layout) {
    && Jumps(Map(js.a2, js.c2), Map(MULT, IADD), l.nprow * l.nb)
    && Jumps(Map(js.a3, js.c3), Map(MULT, IADD), l.m)
    && Jumps(Map(js.a4, js.c4), Map(MULT, IADD), ColumnStride(l))
  }

  /** Terms between an entry and the same entry of the next column block of its process. */
  function ColumnStride(l: Layout): nat {
    (l.npcol * l.nb) * l.m
  }

  lemma Positive(a: nat, b: nat)
    requires 0 < a && 0 < b
    ensures 0 < a * b
  {
    MulLe(1, a, b);
  }

  lemma AtOrigin(i: nat, nb: nat)
    requires 0 < nb
    ensures i == 0 ==> i / nb == 0 && i % nb == 0
  {
    if i == 0 {
      DivModUnique(i, nb, 0, 0);
    }
  }

  /** Terms between the first entry of the matrix and the first one of this process: over the columns of
      the processes to the left, then over the rows of those above. */
  function Across(l: Layout): nat {
    l.mycol * (l.nb * l.m)
  }

  function Down(l: Layout): nat {
    l.myrow * l.nb
  }

  lemma FirstIndex(l: Layout, gj: nat, across: nat, down: nat)
    requires Proper(l) && gj == GlobalColumn(l, 0) && across == Across(l) && down == Down(l)
    ensures Index(BlockStart(0, l.nb, l.nprow, l.myrow), gj, l.m) == 1 + across + down
  {
    AtOrigin(0, l.nb);
    assert gj == l.mycol * l.nb;
    assert gj * l.m == l.mycol * (l.nb * l.m);
  }

  lemma FirstDraw(l: Layout, seed: nat, x1: nat, x3: nat, x: nat, across: nat, down: nat)
    requires Proper(l) && across == Across(l) && down == Down(l)
    requires x1 == Term(Map(MULT, IADD), seed, 1)
    requires x3 == Term(Map(MULT, IADD), x1, across) && x == Term(Map(MULT, IADD), x3, down)
    ensures x == Draw(seed, Index(BlockStart(0, l.nb, l.nprow, l.myrow), GlobalColumn(l, 0), l.m))
  {
    TermAdd(Map(MULT, IADD), seed, 1, across);
    TermAdd(Map(MULT, IADD), seed, 1 + across, down);
    FirstIndex(l, GlobalColumn(l, 0), across, down);
  }

  /** The first value of this process, and the constants it jumps with afterwards. */
  method Prepare(l: Layout, jseed: Words) returns (iran1: Words, ia1: Words, ic1: Words, js: Jumpers)
    requires Proper(l) && 0 < l.m
    ensures ia1 == MULT && ic1 == IADD && Prepared(js, l)
    ensures AtColumn(iran1, l, Val(jseed), GlobalColumn(l, 0))
  {
    var zero := Words(0, 0);
    iran1, ia1, ic1 := Xjumpm(1, MULT, IADD, jseed, zero, zero);
    ghost var x1 := Val(iran1);
    js := JumpConstants(l, iran1);
    var across := JumpAcross(l, js, iran1);
    iran1 := JumpDown(l, across);
    FirstDraw(l, Val(jseed), x1, Val(across), Val(iran1), Across(l), Down(l));
  }

  method JumpConstants(l: Layout, iran1: Words) returns (js: Jumpers)
    requires Proper(l) && 0 < l.m
    ensures Prepared(js, l)
  {
    var zero := Words(0, 0);
    var jump2, jump4 := l.nprow * l.nb, l.npcol * l.nb;
    Positive(l.nprow, l.nb);
    Positive(l.npcol, l.nb);
    var itmp1, ia2, ic2 := Xjumpm(jump2, MULT, IADD, iran1, zero, zero);
    var ia3, ic3;
    itmp1, ia3, ic3 := Xjumpm(l.m, MULT, IADD, iran1, zero, zero);
    var ia4, ic4;
    itmp1, ia4, ic4 := Xjumpm(jump4, ia3, ic3, iran1, zero, zero);
    JumpsCompose(Map(ia4, ic4), Map(ia3, ic3), Map(MULT, IADD), l.m, jump4);
    js := Jumpers(ia2, ic2, ia3, ic3, ia4, ic4);
  }

  /** From the first column of the matrix to the first column of this process. */
  method JumpAcross(l: Layout, js: Jumpers, iran1: Words) returns (itmp3: Words)
    requires Proper(l) && 0 < l.m && Prepared(js, l)
    ensures Val(itmp3) == Term(Map(MULT, IADD), Val(iran1), Across(l))
  {
    var zero := Words(0, 0);
    ghost var step := Map(MULT, IADD);
    var itmp1, ia5, ic5 := Xjumpm(l.nb, js.a3, js.c3, iran1, zero, zero);
    JumpsCompose(Map(ia5, ic5), Map(js.a3, js.c3), step, l.m, l.nb);
    var itmp2;
    itmp3, itmp1, itmp2 := Xjumpm(l.mycol, ia5, ic5, iran1, zero, zero);
    JumpTerm(Map(ia5, ic5), step, l.nb * l.m, Val(iran1), l.mycol);
  }

  /** From the first row of the matrix to the first row of this process. */
  method JumpDown(l: Layout, itmp3: Words) returns (iran1: Words)
    requires Proper(l)
    ensures Val(iran1) == Term(Map(MULT, IADD), Val(itmp3), Down(l))
  {
    var zero := Words(0, 0);
    var jump7 := l.myrow * l.nb;
    var itmp1, itmp2;
    iran1, itmp1, itmp2 := Xjumpm(jump7, MULT, IADD, itmp3, zero, zero);
  }

  /** Words `ib` stand at the first local entry of global column `gj`, and so does the generator. */
  ghost predicate Standing(gen: HplGenerator, ib: Words, l: Layout, seed: nat, gj: nat)
    requires Proper(l)
    reads gen
  {
    Ready(gen) && gen.irand == ib && AtColumn(ib, l, seed, gj)
  }

  lemma ColumnJump(f: Affine, l: Layout, seed: nat, ib: Words, next: Words, gj: nat, gj1: nat, step: nat)
    requires Proper(l) && AtColumn(ib, l, seed, gj) && Jumps(f, Map(MULT, IADD), step)
    requires gj1 * l.m == gj * l.m + step && Val(next) == Apply(f, Val(ib))
    ensures AtColumn(next, l, seed, gj1)
  {
    var gi := BlockStart(0, l.nb, l.nprow, l.myrow);
    JumpAhead(f, Val(ib), Val(next), seed, Index(gi, gj, l.m), step, Index(gi, gj1, l.m));
  }

  lemma NextColumn(js: Jumpers, l: Layout, seed: nat, ib: Words, next: Words, gj: nat)
    requires Proper(l) && Prepared(js, l) && AtColumn(ib, l, seed, gj)
    requires Val(next) == Apply(Map(js.a3, js.c3), Val(ib))
    ensures AtColumn(next, l, seed, gj + 1)
  {
    SumTimes(gj, 1, l.m);
    ColumnJump(Map(js.a3, js.c3), l, seed, ib, next, gj, gj + 1, l.m);
  }

  lemma NextColumnBlock(js: Jumpers, l: Layout, seed: nat, ib: Words, next: Words, k: nat, gj: nat, gj1: nat)
    requires Proper(l) && Prepared(js, l) && AtColumn(ib, l, seed, gj)
    requires gj == BlockStart(k, l.nb, l.npcol, l.mycol) && gj1 == BlockStart(k + 1, l.nb, l.npcol, l.mycol)
    requires Val(next) == Apply(Map(js.a4, js.c4), Val(ib))
    ensures AtColumn(next, l, seed, gj1)
  {
    BlockStartNext(k, l.nb, l.npcol, l.mycol);
    SumTimes(gj, l.npcol * l.nb, l.m);
    ColumnJump(Map(js.a4, js.c4), l, seed, ib, next, gj, gj1, ColumnStride(l));
  }

  lemma ColumnOfBlock(l: Layout, k: nat, d: nat)
    requires Proper(l) && d < l.nb
    ensures GlobalColumn(l, k * l.nb + d) == BlockStart(k, l.nb, l.npcol, l.mycol) + d
  {
    DivModUnique(k * l.nb + d, l.nb, k, d);
  }

  /** One block of local columns. */
  method FillBlock(gen: HplGenerator, A: array<Words>, l: Layout, lda: nat, mp: nat, pos0: nat, k: nat, jb: nat,
                   ib: Words, js: Jumpers, ghost seed: nat, ghost was: seq<Words>)
    returns (pos: nat)
    requires Proper(l) && mp == Mp(l) && 0 < mp <= lda && jb <= l.nb && k * l.nb + jb <= Nq(l)
    requires Nq(l) * lda <= A.Length && pos0 == (k * l.nb) * lda && Prepared(js, l)
    requires Standing(gen, ib, l, seed, BlockStart(k, l.nb, l.npcol, l.mycol))
    requires FilledTo(A[..], was, l, seed, lda, pos0)
    modifies gen, A
    ensures Ready(gen) && pos == (k * l.nb + jb) * lda && FilledTo(A[..], was, l, seed, lda, pos)
  {
    pos := pos0;
    var ib1, ib2 := ib, ib;
    ghost var gj := BlockStart(k, l.nb, l.npcol, l.mycol);
    for jk := 0 to jb
      invariant ib1 == ib2 && Standing(gen, ib1, l, seed, gj + jk)
      invariant pos == (k * l.nb + jk) * lda && FilledTo(A[..], was, l, seed, lda, pos)
    {
      ColumnOfBlock(l, k, jk);
      ColumnInside(k * l.nb + jk, Nq(l), lda);
      pos := FillColumn(gen, A, l, lda, pos, mp, ib1, js.a2, js.c2, seed, k * l.nb + jk, was);
      var iran3 := gen.JumpIt(js.a3, js.c3, ib2);
      NextColumn(js, l, seed, ib2, iran3, gj + jk);
      ib1, ib2 := iran3, iran3;
    }
  }

  lemma ColumnInside(j: nat, nq: nat, lda: nat)
    requires j < nq
    ensures j * lda + lda <= nq * lda
  {
    assert (j + 1) * lda == j * lda + lda;
    MulLe(j + 1, nq, lda);
  }

  /** A generator set to the first entry of this process. */
  method Start(l: Layout, jseed: Words) returns (gen: HplGenerator, iran1: Words, js: Jumpers)
    requires Proper(l) && 0 < l.m
    ensures fresh(gen) && Prepared(js, l)
    ensures Standing(gen, iran1, l, Val(jseed), BlockStart(0, l.nb, l.npcol, l.mycol))
  {
    var ia1, ic1;
    iran1, ia1, ic1, js := Prepare(l, jseed);
    AtOrigin(0, l.nb);
    gen := new HplGenerator();
    var out := gen.SetRan(0, iran1);
    out := gen.SetRan(1, ia1);
    out := gen.SetRan(2, ic1);
  }

  /** The whole generation on one process. */
  method Pdmatgen(l: Layout, A: array<Words>, lda: nat, iseed: Word)
    requires Proper(l) && 0 < lda && Mp(l) <= lda && Nq(l) * lda <= A.Length
    modifies A
    ensures Generated(A[..], old(A[..]), l, iseed, lda)
  {
    var jseed := Words(iseed, 0);
    var mp := Mnumroc(l.m, 0, l.nb, l.nb, l.myrow, 0, l.nprow);
    var nq := Mnumroc(l.n, 0, l.nb, l.nb, l.mycol, 0, l.npcol);
    NumrocIsOwned(l.m, l.nb, l.nprow, l.myrow);
    NumrocIsOwned(l.n, l.nb, l.npcol, l.mycol);
    if mp <= 0 || nq <= 0 {
      return;
    }
    var nblks, lnb := (nq + l.nb - 1) / l.nb, nq - ((nq - 1) / l.nb) * l.nb;
    ghost var q := LastBlock(nq, l.nb);
    var gen, ib3, js := Start(l, jseed);
    var pos := 0;
    for jblk := 0 to nblks
      invariant Standing(gen, ib3, l, iseed, BlockStart(jblk, l.nb, l.npcol, l.mycol))
      invariant pos == (if jblk == nblks then nq else jblk * l.nb) * lda
      invariant FilledTo(A[..], old(A[..]), l, iseed, lda, pos)
    {
      var jb := if jblk == nblks - 1 then lnb else l.nb;
      BlockFits(jblk, nblks, nq, l.nb);
      pos, ib3 := FillAndJump(gen, A, l, lda, mp, pos, jblk, jb, ib3, js, iseed, old(A[..]));
    }
  }

  /** A block of local columns, and the jump to the next one. */
  method FillAndJump(gen: HplGenerator, A: array<Words>, l: Layout, lda: nat, mp: nat, pos0: nat, k: nat, jb: nat,
                     ib: Words, js: Jumpers, ghost seed: nat, ghost was: seq<Words>)
    returns (pos: nat, next: Words)
    requires Proper(l) && mp == Mp(l) && 0 < mp <= lda && jb <= l.nb && k * l.nb + jb <= Nq(l)
    requires Nq(l) * lda <= A.Length && pos0 == (k * l.nb) * lda && Prepared(js, l)
    requires Standing(gen, ib, l, seed, BlockStart(k, l.nb, l.npcol, l.mycol))
    requires FilledTo(A[..], was, l, seed, lda, pos0)
    modifies gen, A
    ensures pos == (k * l.nb + jb) * lda && FilledTo(A[..], was, l, seed, lda, pos)
    ensures Standing(gen, next, l, seed, BlockStart(k + 1, l.nb, l.npcol, l.mycol))
  {
    pos := FillBlock(gen, A, l, lda, mp, pos0, k, jb, ib, js, seed, was);
    next := gen.JumpIt(js.a4, js.c4, ib);
    NextColumnBlock(js, l, seed, ib, next, k, BlockStart(k, l.nb, l.npcol, l.mycol),
                    BlockStart(k + 1, l.nb, l.npcol, l.mycol));
  }

  /** Two processes of two grids that generated the same matrix agree wherever both hold an entry:
      what is stored for global `(gi, gj)` depends on nothing else. */
  lemma GridIndependent(a1: seq<Words>, w1: seq<Words>, l1: Layout, lda1: nat, i1: nat, j1: nat,
                        a2: seq<Words>, w2: seq<Words>, l2: Layout, lda2: nat, i2: nat, j2: nat, seed: nat)
    requires Proper(l1) && Mp(l1) <= lda1 && 0 < lda1 && Nq(l1) * lda1 <= |a1| && i1 < Mp(l1) && j1 < Nq(l1)
    requires Proper(l2) && Mp(l2) <= lda2 && 0 < lda2 && Nq(l2) * lda2 <= |a2| && i2 < Mp(l2) && j2 < Nq(l2)
    requires l1.m == l2.m && Generated(a1, w1, l1, seed, lda1) && Generated(a2, w2, l2, seed, lda2)
    requires GlobalRow(l1, i1) == GlobalRow(l2, i2) && GlobalColumn(l1, j1) == GlobalColumn(l2, j2)
    ensures 0 <= i1 + j1 * lda1 < |a1| && 0 <= i2 + j2 * lda2 < |a2|
    ensures Val(a1[i1 + j1 * lda1]) == Val(a2[i2 + j2 * lda2])
      == Draw(seed, Index(GlobalRow(l1, i1), GlobalColumn(l1, j1), l1.m))
  {
    StoredEntry(a1, w1, l1, lda1, i1, j1, seed);
    StoredEntry(a2, w2, l2, lda2, i2, j2, seed);
  }

  lemma StoredEntry(a: seq<Words>, was: seq<Words>, l: Layout, lda: nat, i: nat, j: nat, seed: nat)
    requires Proper(l) && Mp(l) <= lda && 0 < lda && Nq(l) * lda <= |a| && i < Mp(l) && j < Nq(l)
    requires Generated(a, was, l, seed, lda)
    ensures 0 <= i + j * lda < |a| && Val(a[i + j * lda]) == Expected(l, seed, i, j)
  {
    ColumnInside(j, Nq(l), lda);
    DivModUnique(i + j * lda, lda, j, i);
  }

  /** A single process without padding holds the terms of the sequence one after the other, from the first
      one on: the parallel generation is the serial one. */
  lemma SerialOrder(a: seq<Words>, was: seq<Words>, l: Layout, seed: nat, p: nat)
    requires Proper(l) && l.nprow == l.npcol == 1 && 0 < l.m && |a| == l.n * l.m && p < |a|
    requires Generated(a, was, l, seed, l.m)
    ensures Val(a[p]) == Term(Map(MULT, IADD), seed, p + 1)
  {
    var j, i := DivMod(p, l.m);
    MulLt(j, l.n, l.m);
    AllOwned(l.m, l.nb);
    AllOwned(l.n, l.nb);
    OwnIndex(i, l.nb);
    OwnIndex(j, l.nb);
    assert p < Nq(l) * l.m;
  }

  /** One process owns everything, and local indices are global ones. */
  lemma AllOwned(length: nat, nb: nat)
    requires 0 < nb
    ensures Owned(length, nb, 1, 0) == length
  {
  }

  lemma OwnIndex(i: nat, nb: nat)
    requires 0 < nb
    ensures GlobalIndex(i, nb, 1, 0) == i
  {
    assert i == (i / nb) * nb + i % nb;
  }

  /** The benchmark and the tile generator draw from the same sequence, apart from their seeds. */
  lemma SameSequence()
    ensures Map(MULT, IADD) == TileGenerator.Rnd64() == Affine(6364136223846793005, 1)
  {
  }
}
