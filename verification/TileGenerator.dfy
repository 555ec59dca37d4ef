/** The integer sequence under every generated tile: a logarithmic jump to the first entry of each
    tile column, then one generator step per entry. */
module TileGenerator {
  import opened IntegerArithmetic
  import opened Lcg

  const RND64_A := 6364136223846793005
  const RND64_C := 1

  function Rnd64(): Affine {
    Affine(RND64_A, RND64_C)
  }

  /** Doubling a jump the way the loop does: new constants from the old ones, modulo 2^64. */
  lemma Doubling(f: Affine, k: nat)
    requires Jumps(f, Rnd64(), k)
    ensures Jumps(Affine((f.a * f.a) % M64, (f.c * (f.a + 1)) % M64), Rnd64(), 2 * k)
  {
    ModAdd(f.c * f.a, f.c, M64);
    assert f.c * (f.a + 1) == f.c * f.a + f.c;
    assert Affine((f.a * f.a) % M64, (f.c * (f.a + 1)) % M64) == Compose(f, f);
    ComposeJumps(f, f, Rnd64(), k, k);
  }

  /** The remaining jump of `n` strides of `k` steps, when its lowest bit is used up. */
  lemma HalveJump(ran: nat, n: nat, k: nat, f: Affine)
    requires ran < M64 && Jumps(f, Rnd64(), k)
    ensures var ran' := if n % 2 == 1 then Apply(f, ran) else ran;
      Term(Rnd64(), ran', (n / 2) * (2 * k)) == Term(Rnd64(), ran, n * k)
  {
    HalfStride(n / 2, n % 2, n, k);
    if n % 2 == 1 {
      TermAdd(Rnd64(), ran, k, (n / 2) * (2 * k));
    }
  }

  lemma HalfStride(h: nat, b: nat, n: nat, k: nat)
    requires n == 2 * h + b && b < 2
    ensures h * (2 * k) + (if b == 1 then k else 0) == n * k
  {
    assert (2 * h) * k == h * (2 * k);
  }

  /** State of the jump loop: `m` strides of `2^rounds` steps are left, out of `n` steps in all. */
  ghost predicate JumpInv(n: nat, seed: nat, m: nat, ran: nat, f: Affine, rounds: nat) {
    && ran < M64 && Jumps(f, Rnd64(), Pow2(rounds))
    && Term(Rnd64(), ran, m * Pow2(rounds)) == Term(Rnd64(), seed, n)
    && m == n / Pow2(rounds)
    && (rounds > 0 ==> Pow2(rounds) <= 2 * n)
  }

  lemma JumpRound(n: nat, seed: nat, m: nat, ran: nat, f: Affine, rounds: nat)
    requires JumpInv(n, seed, m, ran, f, rounds) && m != 0
    ensures JumpInv(n, seed, m / 2, if m % 2 == 1 then Apply(f, ran) else ran,
                    Affine((f.a * f.a) % M64, (f.c * (f.a + 1)) % M64), rounds + 1)
  {
    var stride := Pow2(rounds);
    HalveJump(ran, m, stride, f);
    Doubling(f, stride);
    HalveQuotient(n, stride);
  }

  /** Reaches the `n`-th term of the sequence in as many rounds as `n` has bits. */
  method Rnd64Jump(n: nat, seed: nat) returns (ran: nat, ghost rounds: nat)
    requires n < M64 && seed < M64
    ensures ran == Term(Rnd64(), seed, n)
    ensures n == 0 ==> rounds == 0
    ensures n > 0 ==> Pow2(rounds) / 2 <= n < Pow2(rounds)
  {
    var ak: nat, ck: nat := RND64_A, RND64_C;
    ran := seed;
    var m := n;
    rounds := 0;
    OneStep(Rnd64());
    while m != 0
      invariant JumpInv(n, seed, m, ran, Affine(ak, ck), rounds)
      invariant n == 0 ==> rounds == 0
      decreases m
    {
      JumpRound(n, seed, m, ran, Affine(ak, ck), rounds);
      if m % 2 == 1 {
        ran := (ak * ran + ck) % M64;
      }
      ck := (ck * (ak + 1)) % M64;
      ak := (ak * ak) % M64;
      m := m / 2;
      rounds := rounds + 1;
    }
    SmallQuotient(n, Pow2(rounds));
  }

  lemma HalveQuotient(n: nat, d: nat)
    requires 0 < d
    ensures (n / d) / 2 == n / (2 * d)
    ensures n / d != 0 ==> d <= n
  {
    var q, r := DivMod(n, d);
    var h, b := DivMod(q, 2);
    assert n == h * (2 * d) + (b * d + r);
    assert b * d <= d;
    DivModUnique(n, 2 * d, h, b * d + r);
    if q >= 1 {
      MulLe(1, q, d);
    }
  }

  lemma SmallQuotient(n: nat, d: nat)
    requires 0 < d && n / d == 0
    ensures n < d
  {
    var q, r := DivMod(n, d);
  }

  /** The term that entry `(i, j)` of tile `(row, col)` is drawn from, with 32-bit row and column offsets. */
  function EntryTerm(m: nat, nb: nat, row: nat, col: nat, i: nat, j: nat): nat {
    ColumnTerm(m, nb, row, col, j) + i
  }

  /** The jump made for column `j` of the tile. */
  function ColumnTerm(m: nat, nb: nat, row: nat, col: nat, j: nat): (t: nat)
    ensures m < U32 ==> t < M64
  {
    JumpIndexFits((row * nb) % U32, ((col * nb) % U32 + j) % U32, m);
    (row * nb) % U32 + (((col * nb) % U32 + j) % U32) * m
  }

  lemma JumpIndexFits(r: nat, c: nat, m: nat)
    ensures 0 <= c * m
    ensures r < U32 && c < U32 && m < U32 ==> r + c * m < M64
  {
    if m < U32 && c < U32 {
      MulLe(c, U32 - 1, m);
    }
  }

  /** What the `p`-th entry of the tile buffer is drawn from. */
  function EntryValue(m: nat, nb: nat, row: nat, col: nat, seed: nat, p: nat): nat
    requires 0 < nb
  {
    Term(Rnd64(), seed, EntryTerm(m, nb, row, col, p % nb, p / nb))
  }

  /** The first `pos` entries of the tile buffer are in place. */
  ghost predicate Drawn(m: nat, nb: nat, row: nat, col: nat, seed: nat, x: seq<nat>, pos: int) {
    pos <= |x| && (nb > 0 ==> forall p: nat :: p < pos ==> x[p] == EntryValue(m, nb, row, col, seed, p))
  }

  /** Fills one tile, column by column, with the integers its entries are converted from. */
  method CreateTile(m: nat, nb: nat, row: nat, col: nat, seed: nat, x: array<nat>)
    requires m < U32 && seed < M64 && x.Length == nb * nb
    modifies x
    ensures forall i: nat, j: nat :: i < nb && j < nb ==> EntryDrawn(m, nb, row, col, seed, x[..], i, j)
  {
    var pos: int := 0;
    for j := 0 to nb
      invariant pos == j * nb
      invariant Drawn(m, nb, row, col, seed, x[..], pos)
    {
      var ran, rounds := Rnd64Jump(ColumnTerm(m, nb, row, col, j), seed);
      pos := FillColumn(m, nb, row, col, seed, j, ran, x, pos);
    }
    AllDrawn(m, nb, row, col, seed, x[..]);
  }

  /** Entry `(i, j)` of the tile is in its place of the column-major buffer. */
  ghost predicate EntryDrawn(m: nat, nb: nat, row: nat, col: nat, seed: nat, x: seq<nat>, i: nat, j: nat) {
    var p := j * nb + i;
    0 <= p < |x| && x[p] == Term(Rnd64(), seed, EntryTerm(m, nb, row, col, i, j))
  }

  lemma AllDrawn(m: nat, nb: nat, row: nat, col: nat, seed: nat, x: seq<nat>)
    requires |x| == nb * nb && Drawn(m, nb, row, col, seed, x, nb * nb)
    ensures forall i: nat, j: nat :: i < nb && j < nb ==> EntryDrawn(m, nb, row, col, seed, x, i, j)
  {
    forall i: nat, j: nat | i < nb && j < nb
      ensures EntryDrawn(m, nb, row, col, seed, x, i, j)
    {
      PlaceInTile(nb, i, j);
    }
  }

  lemma PlaceInTile(nb: nat, i: nat, j: nat)
    requires i < nb && j < nb
    ensures 0 <= j * nb + i < nb * nb && (j * nb + i) % nb == i && (j * nb + i) / nb == j
  {
    DivModUnique(j * nb + i, nb, j, i);
    MulLe(j + 1, nb, nb);
  }

  lemma DrawnNext(m: nat, nb: nat, row: nat, col: nat, seed: nat, x: seq<nat>, i: nat, j: nat, pos: int)
    requires i < nb && j < nb && |x| == nb * nb && pos == j * nb + i
    requires Drawn(m, nb, row, col, seed, x, pos)
    ensures 0 <= pos < |x|
    ensures Drawn(m, nb, row, col, seed, x[pos := Term(Rnd64(), seed, ColumnTerm(m, nb, row, col, j) + i)], pos + 1)
  {
    PlaceInTile(nb, i, j);
  }

  /** One column of a tile: an entry per generator step. */
  method FillColumn(m: nat, nb: nat, row: nat, col: nat, seed: nat, j: nat, start: nat, x: array<nat>, pos: int)
    returns (next: int)
    requires m < U32 && seed < M64 && x.Length == nb * nb && j < nb && pos == j * nb
    requires start == Term(Rnd64(), seed, ColumnTerm(m, nb, row, col, j))
    requires Drawn(m, nb, row, col, seed, x[..], pos)
    modifies x
    ensures next == (j + 1) * nb
    ensures Drawn(m, nb, row, col, seed, x[..], next)
  {
    next := pos;
    var ran: nat := start;
    var i: int := 0;
    while i < nb
      invariant 0 <= i <= nb && next == pos + i
      invariant ran == Term(Rnd64(), seed, ColumnTerm(m, nb, row, col, j) + i)
      invariant Drawn(m, nb, row, col, seed, x[..], next)
    {
      DrawnNext(m, nb, row, col, seed, x[..], i, j, next);
      ghost var before := x[..];
      x[next] := ran;
      assert x[..] == before[next := ran];
      ran := (RND64_A * ran + RND64_C) % M64;
      next, i := next + 1, i + 1;
    }
  }

  /** The matrix is below 2^32 rows and columns at this tile, so no offset wraps. */
  predicate OffsetsFit(nb: nat, row: nat, col: nat) {
    (row + 1) * nb <= U32 && (col + 1) * nb <= U32
  }

  /** An entry is drawn from the term its global row and column name. */
  lemma EntryByGlobalPosition(m: nat, nb: nat, row: nat, col: nat, i: nat, j: nat)
    requires i < nb && j < nb && OffsetsFit(nb, row, col)
    ensures EntryTerm(m, nb, row, col, i, j) == (row * nb + i) + (col * nb + j) * m
  {
    NoWrap(row, nb, i);
    NoWrap(col, nb, j);
  }

  lemma NoWrap(k: nat, nb: nat, i: nat)
    requires i < nb && (k + 1) * nb <= U32
    ensures 0 <= k * nb && (k * nb) % U32 == k * nb && ((k * nb) % U32 + i) % U32 == k * nb + i
  {
    var start := k * nb;
    assert start + nb <= U32;
  }

  /** However the matrix is cut into tiles, an entry at the same global place gets the same integer. */
  lemma TilingIndependent(m: nat, seed: nat, nb: nat, row: nat, col: nat, i: nat, j: nat,
                          nb': nat, row': nat, col': nat, i': nat, j': nat)
    requires i < nb && j < nb && OffsetsFit(nb, row, col)
    requires i' < nb' && j' < nb' && OffsetsFit(nb', row', col')
    requires row * nb + i == row' * nb' + i' && col * nb + j == col' * nb' + j'
    ensures Term(Rnd64(), seed, EntryTerm(m, nb, row, col, i, j))
         == Term(Rnd64(), seed, EntryTerm(m, nb', row', col', i', j'))
  {
    EntryByGlobalPosition(m, nb, row, col, i, j);
    EntryByGlobalPosition(m, nb', row', col', i', j');
  }
}
