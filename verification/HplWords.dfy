/** 64-bit integers kept as two 32-bit words and combined 16 bits at a time, as the benchmark
    generator does: addition and multiplication are exact modulo 2^64, and no intermediate value
    leaves 32 bits. `& 65535`, `>> 16` and `<< 16` are written as remainder, quotient and product. */
module HplWords {
  import opened IntegerArithmetic
  import opened Lcg

  const LIMB := 0x1_0000

  type Word = x: int | 0 <= x < 0x1_0000_0000

  /** Low word first. */
  datatype Words = Words(lo: Word, hi: Word)

  function Val(w: Words): (v: nat)
    ensures v < M64
  {
    w.lo + w.hi * U32
  }

  /** Bitwise OR of a value below 2^16 and a multiple of 2^16: no bit is shared. */
  function OrHigh(low: int, high: int): (r: int)
    requires 0 <= low < LIMB && high % LIMB == 0
  {
    low + high
  }

  /** A word is its two 16-bit halves; the remainder is also what subtracting the shifted quotient leaves. */
  lemma Halves(x: int) returns (low: int, high: int)
    requires 0 <= x < U32
    ensures low == x % LIMB == x - (x / LIMB) * LIMB && high == x / LIMB
    ensures 0 <= low < LIMB && 0 <= high < LIMB && x == low + high * LIMB
  {
    low, high := x % LIMB, x / LIMB;
  }

  /** One 32-bit word of the sum: two 16-bit additions and the carry into the next word. */
  method AddWord(j: Word, k: Word, carryIn: Word) returns (i: Word, carryOut: Word)
    requires carryIn <= 1
    ensures i + carryOut * U32 == j + k + carryIn && carryOut <= 1
  {
    ghost var a0, a1 := Halves(k);
    ghost var b0, b1 := Halves(j);
    var itmp0: Word, itmp1: Word;
    itmp0 := carryIn + k % LIMB + j % LIMB;
    ghost var d0, c0 := Halves(itmp0);
    i := itmp0 - (itmp0 / LIMB) * LIMB;
    itmp1 := itmp0 / LIMB + k / LIMB + j / LIMB;
    ghost var d1, c1 := Halves(itmp1);
    i := OrHigh(i, (itmp1 % LIMB) * LIMB);
    carryOut := itmp1 / LIMB;
    WordSum(d0, c0, d1, c1, a0, a1, b0, b1, carryIn);
  }

  method Ladd(j: Words, k: Words) returns (i: Words)
    ensures Val(i) == (Val(j) + Val(k)) % M64
  {
    var i0, carry0 := AddWord(j.lo, k.lo, 0);
    var i1, carry1 := AddWord(j.hi, k.hi, carry0);
    i := Words(i0, i1);
    Congruent(Val(i), carry1, Val(j) + Val(k), 0, Val(j) + Val(k));
  }

  lemma WordSum(d0: int, c0: int, d1: int, c1: int, a0: int, a1: int, b0: int, b1: int, carryIn: int)
    requires carryIn + a0 + b0 == d0 + c0 * LIMB && c0 + a1 + b1 == d1 + c1 * LIMB
    ensures (d0 + d1 * LIMB) + c1 * U32 == (a0 + a1 * LIMB) + (b0 + b1 * LIMB) + carryIn
  {
  }

  /** A value below 2^64 that differs from a sum by multiples of 2^64 is its remainder. */
  lemma Congruent(v: nat, top: int, kept: int, h: int, total: int)
    requires v < M64 && v + top * M64 == kept && total == h * M64 + kept
    ensures v == total % M64
  {
    ModShift(v, h + top, M64);
  }

  /** The four 16-bit limbs of a number, lowest first, weighted by powers of 2^16. */
  function Weigh(a: seq<int>): int
    requires |a| == 4
  {
    a[0] + a[1] * LIMB + a[2] * U32 + a[3] * (U32 * LIMB)
  }

  /** Column `c` of the schoolbook product, first `r` products. */
  function ColumnSum(kk: seq<int>, jj: seq<int>, c: nat, r: nat): int
    requires |kk| == |jj| == 4 && r <= c + 1 <= 4
  {
    if r == 0 then 0 else ColumnSum(kk, jj, c, r - 1) + kk[r - 1] * jj[c - (r - 1)]
  }

  predicate Limbs(a: seq<int>) {
    |a| == 4 && forall t :: 0 <= t < 4 ==> 0 <= a[t] < LIMB
  }

  lemma LimbProduct(a: int, b: int, x: int)
    requires 0 <= a < LIMB && 0 <= b < LIMB && 0 <= x < LIMB
    ensures 0 <= a * b + x < U32
  {
    MulLe(0, a, b);
    MulLe(a, LIMB - 1, b);
    MulLe(b, LIMB - 1, LIMB - 1);
  }

  /** One product added to a column: its low half stays, its high half is carried. */
  lemma CarryStep(x: int, sum: int, product: int, low: int, carry: int)
    requires x + sum == low % LIMB + carry * LIMB
    requires 0 <= product + low % LIMB < U32
    ensures var low' := product + low % LIMB;
      var carry' := carry + (low' / LIMB) % LIMB;
      x + (sum + product) == low' % LIMB + carry' * LIMB && carry <= carry' <= carry + LIMB - 1
  {
    var l, h := Halves(product + low % LIMB);
  }

  lemma Distribute(x: int, j: seq<int>)
    requires |j| == 4
    ensures x * Weigh(j) == x * j[0] + (x * j[1]) * LIMB + (x * j[2]) * U32 + (x * j[3]) * (U32 * LIMB)
  {
  }

  /** What the four kept columns leave out of the product is a multiple of 2^64. */
  lemma ProductOfLimbs(k: seq<int>, j: seq<int>) returns (h: int)
    requires |k| == |j| == 4
    ensures Weigh(k) * Weigh(j) == h * M64 +
      (ColumnSum(k, j, 0, 1) + ColumnSum(k, j, 1, 2) * LIMB + ColumnSum(k, j, 2, 3) * U32
       + ColumnSum(k, j, 3, 4) * (U32 * LIMB))
  {
    h := k[1] * j[3] + k[2] * j[2] + k[3] * j[1]
      + (k[2] * j[3] + k[3] * j[2]) * LIMB + (k[3] * j[3]) * U32;
    Distribute(k[0], j);
    Distribute(k[1], j);
    Distribute(k[2], j);
    Distribute(k[3], j);
    Distribute(Weigh(j), k);
    Columns(k, j);
  }

  lemma Columns(k: seq<int>, j: seq<int>)
    requires |k| == |j| == 4
    ensures ColumnSum(k, j, 0, 1) == k[0] * j[0]
    ensures ColumnSum(k, j, 1, 2) == k[0] * j[1] + k[1] * j[0]
    ensures ColumnSum(k, j, 2, 3) == k[0] * j[2] + k[1] * j[1] + k[2] * j[0]
    ensures ColumnSum(k, j, 3, 4) == k[0] * j[3] + k[1] * j[2] + k[2] * j[1] + k[3] * j[0]
  {
    ColumnStep(k, j, 0, 0);
    ColumnStep(k, j, 1, 0);
    ColumnStep(k, j, 1, 1);
    ColumnStep(k, j, 2, 0);
    ColumnStep(k, j, 2, 1);
    ColumnStep(k, j, 2, 2);
    ColumnStep(k, j, 3, 0);
    ColumnStep(k, j, 3, 1);
    ColumnStep(k, j, 3, 2);
    ColumnStep(k, j, 3, 3);
  }

  lemma ColumnStep(k: seq<int>, j: seq<int>, c: nat, r: nat)
    requires |k| == |j| == 4 && r <= c <= 3
    ensures ColumnSum(k, j, c, r + 1) == ColumnSum(k, j, c, r) + k[r] * j[c - r]
    ensures ColumnSum(k, j, c, 0) == 0
  {
  }

  /** 2^16 to the power `t`. */
  function Weight(t: nat): int
    requires t <= 4
  {
    if t == 0 then 1 else if t == 1 then LIMB else if t == 2 then U32 else if t == 3 then U32 * LIMB else M64
  }

  /** The low halves of the finished columns. */
  function Finished(res: seq<int>, c: nat): int
    requires |res| == 5 && c <= 4
  {
    if c == 0 then 0 else Finished(res, c - 1) + (res[c - 1] % LIMB) * Weight(c - 1)
  }

  function ColumnsSum(k: seq<int>, j: seq<int>, c: nat): int
    requires |k| == |j| == 4 && c <= 4
  {
    if c == 0 then 0 else ColumnsSum(k, j, c - 1) + ColumnSum(k, j, c - 1, c) * Weight(c - 1)
  }

  lemma FinishedFrame(a: seq<int>, b: seq<int>, c: nat)
    requires |a| == |b| == 5 && c <= 4 && a[..c] == b[..c]
    ensures Finished(a, c) == Finished(b, c)
  {
    if c > 0 {
      assert a[c - 1] == a[..c][c - 1] == b[c - 1];
      assert a[..c - 1] == a[..c][..c - 1] == b[..c - 1];
      FinishedFrame(a, b, c - 1);
    }
  }

  /** After `r` products, `low` and `carry` hold what the column started with and the products. */
  predicate ColumnAt(x: int, k: seq<int>, j: seq<int>, c: nat, r: nat, low: int, carry: int)
    requires |k| == |j| == 4 && r <= c + 1 <= 4
  {
    && 0 <= low < U32 && 0 <= carry <= (r + 1) * (LIMB - 1)
    && x + ColumnSum(k, j, c, r) == low % LIMB + carry * LIMB
  }

  lemma ColumnNext(x: int, k: seq<int>, j: seq<int>, c: nat, r: nat, low: int, carry: int)
    requires Limbs(k) && Limbs(j) && r <= c < 4 && ColumnAt(x, k, j, c, r, low, carry)
    ensures var low' := k[r] * j[c - r] + low % LIMB;
      ColumnAt(x, k, j, c, r + 1, low', carry + (low' / LIMB) % LIMB)
  {
    LimbProduct(k[r], j[c - r], low % LIMB);
    ColumnStep(k, j, c, r);
    CarryStep(x, ColumnSum(k, j, c, r), k[r] * j[c - r], low, carry);
  }

  lemma ColumnFirst(x: int, k: seq<int>, j: seq<int>, c: nat)
    requires 0 <= x < U32 && |k| == |j| == 4 && c < 4
    ensures ColumnAt(x, k, j, c, 0, x % LIMB, (x / LIMB) % LIMB)
  {
    var l, h := Halves(x);
    ColumnStep(k, j, c, 0);
  }

  /** Column `c` of the product: the low half stays in `res[c]`, what exceeds it goes to `res[c + 1]`. */
  method MulColumn(kk: array<int>, jj: array<int>, res: array<int>, c: nat)
    requires c < 4 && res.Length == 5 && Limbs(kk[..]) && Limbs(jj[..]) && kk != res && jj != res
    requires 0 <= res[c] < U32
    modifies res
    ensures res[..c] == old(res[..c])
    ensures 0 <= res[c] < U32 && 0 <= res[c + 1] < U32
    ensures old(res[c]) + ColumnSum(kk[..], jj[..], c, c + 1) == res[c] % LIMB + res[c + 1] * LIMB
  {
    ghost var x, ks, js := res[c], kk[..], jj[..];
    ColumnFirst(x, ks, js, c);
    res[c + 1] := (res[c] / LIMB) % LIMB;
    res[c] := res[c] % LIMB;
    for r := 0 to c + 1
      invariant res[..c] == old(res[..c]) && ColumnAt(x, ks, js, c, r, res[c], res[c + 1])
    {
      ColumnNext(x, ks, js, c, r, res[c], res[c + 1]);
      res[c] := kk[r] * jj[c - r] + res[c] % LIMB;
      res[c + 1] := res[c + 1] + (res[c] / LIMB) % LIMB;
    }
  }

  method SplitLimbs(w: Words) returns (a: array<int>)
    ensures fresh(a) && Limbs(a[..]) && Weigh(a[..]) == Val(w)
  {
    a := new int[4];
    a[0], a[1] := w.lo % LIMB, (w.lo / LIMB) % LIMB;
    a[2], a[3] := w.hi % LIMB, (w.hi / LIMB) % LIMB;
    ghost var l0, h0 := Halves(w.lo);
    ghost var l1, h1 := Halves(w.hi);
  }

  method Lmul(k: Words, j: Words) returns (i: Words)
    ensures Val(i) == (Val(k) * Val(j)) % M64
  {
    var kk := SplitLimbs(k);
    var jj := SplitLimbs(j);
    var res := new int[5];
    ghost var ks, js := kk[..], jj[..];
    res[0] := 0;
    for c := 0 to 4
      invariant kk[..] == ks && jj[..] == js
      invariant 0 <= res[c] < U32
      invariant Finished(res[..], c) + res[c] * Weight(c) == ColumnsSum(ks, js, c)
    {
      ghost var before := res[..];
      MulColumn(kk, jj, res, c);
      assert res[..][..c] == before[..c];
      FinishedFrame(before, res[..], c);
      ColumnKept(before, res[..], ks, js, c);
    }
    var lo := OrHigh(res[0] % LIMB, (res[1] % LIMB) * LIMB);
    var hi := OrHigh(res[2] % LIMB, (res[3] % LIMB) * LIMB);
    i := Words(lo, hi);
    FinishedIsWords(res[..], i);
    KeptIsProduct(ks, js, Val(i), res[4]);
  }

  lemma ColumnKept(before: seq<int>, after: seq<int>, k: seq<int>, j: seq<int>, c: nat)
    requires |before| == |after| == 5 && |k| == |j| == 4 && c < 4
    requires Finished(before, c) == Finished(after, c)
    requires Finished(before, c) + before[c] * Weight(c) == ColumnsSum(k, j, c)
    requires before[c] + ColumnSum(k, j, c, c + 1) == after[c] % LIMB + after[c + 1] * LIMB
    ensures Finished(after, c + 1) + after[c + 1] * Weight(c + 1) == ColumnsSum(k, j, c + 1)
  {
  }

  lemma FinishedIsWords(res: seq<int>, w: Words)
    requires |res| == 5
    requires w.lo == res[0] % LIMB + (res[1] % LIMB) * LIMB && w.hi == res[2] % LIMB + (res[3] % LIMB) * LIMB
    ensures Finished(res, 4) == Val(w)
  {
    assert Finished(res, 1) == res[0] % LIMB;
    assert Finished(res, 2) == Finished(res, 1) + (res[1] % LIMB) * LIMB;
    assert Finished(res, 3) == Finished(res, 2) + (res[2] % LIMB) * U32;
  }

  lemma KeptIsProduct(k: seq<int>, j: seq<int>, v: nat, top: int)
    requires Limbs(k) && Limbs(j) && v < M64 && v + top * M64 == ColumnsSum(k, j, 4)
    ensures v == (Weigh(k) * Weigh(j)) % M64
  {
    var h := ProductOfLimbs(k, j);
    FourColumns(k, j);
    Congruent(v, top, ColumnsSum(k, j, 4), h, Weigh(k) * Weigh(j));
  }

  lemma FourColumns(k: seq<int>, j: seq<int>)
    requires |k| == |j| == 4
    ensures ColumnsSum(k, j, 4) ==
      ColumnSum(k, j, 0, 1) + ColumnSum(k, j, 1, 2) * LIMB + ColumnSum(k, j, 2, 3) * U32
      + ColumnSum(k, j, 3, 4) * (U32 * LIMB)
  {
    assert ColumnsSum(k, j, 1) == ColumnSum(k, j, 0, 1);
    assert ColumnsSum(k, j, 2) == ColumnsSum(k, j, 1) + ColumnSum(k, j, 1, 2) * LIMB;
    assert ColumnsSum(k, j, 3) == ColumnsSum(k, j, 2) + ColumnSum(k, j, 2, 3) * U32;
  }
}
