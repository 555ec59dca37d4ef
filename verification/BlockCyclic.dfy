/** The super-tiled two-dimensional block-cyclic distribution: which rank holds a tile, in which slot
    of its buffer, which tile a slot holds, and the order in which tiles are streamed into the buffer. */
module BlockCyclic {
  import opened IntegerArithmetic
  import opened CyclicIndex

  /** The descriptor fields the placement depends on, for one rank. */
  datatype Desc = Desc(
    lmt: nat, lnt: nat,                // rows and columns of tiles
    nrst: nat, ncst: nat,              // rows and columns of tiles in a super-tile
    gridRows: nat, gridCols: nat,
    myRank: nat, rowRank: nat, colRank: nat,
    nbElemR: nat, nbElemC: nat)        // rows and columns of tiles this rank holds

  datatype InitResult = Ready(desc: Desc) | GridTooLarge

  predicate Valid(d: Desc) {
    && 0 < d.nrst && 0 < d.ncst && 0 < d.gridRows && 0 < d.gridCols
    && d.rowRank < d.gridRows && d.colRank < d.gridCols
    && d.myRank == d.rowRank * d.gridCols + d.colRank
    && d.nbElemR == Owned(d.lmt, d.nrst, d.gridRows, d.rowRank)
    && d.nbElemC == Owned(d.lnt, d.ncst, d.gridCols, d.colRank)
  }

  function CeilDiv(a: nat, b: nat): nat
    requires 0 < b
  {
    if a % b == 0 then a / b else a / b + 1
  }

  method Init(nodes: nat, myRank: nat, mb: nat, nb: nat, lm: nat, ln: nat,
              nrst: nat, ncst: nat, gridRows: nat) returns (r: InitResult)
    requires 0 < mb && 0 < nb && 0 < nrst && 0 < ncst && 0 < gridRows
    requires nodes % gridRows == 0 && myRank < nodes
    ensures var str, stc := CeilDiv(CeilDiv(lm, mb), nrst), CeilDiv(CeilDiv(ln, nb), ncst);
      r.GridTooLarge? <==> gridRows > str || nodes / gridRows > stc
    ensures r.Ready? ==>
      && Valid(r.desc) && r.desc.myRank == myRank && r.desc.gridRows * r.desc.gridCols == nodes
      && r.desc.gridRows == gridRows && r.desc.nrst == nrst && r.desc.ncst == ncst
      && r.desc.lmt == CeilDiv(lm, mb) && r.desc.lnt == CeilDiv(ln, nb)
  {
    var gridCols, rowRank, colRank := Coordinates(nodes, myRank, gridRows);
    var lmt, lnt := CeilDiv(lm, mb), CeilDiv(ln, nb);
    var nbstileR, nbstileC := CeilDiv(lmt, nrst), CeilDiv(lnt, ncst);
    if gridRows > nbstileR || gridCols > nbstileC {
      return GridTooLarge;
    }
    var nbElemR := CountOwned(lmt, nrst, gridRows, rowRank);
    var nbElemC := CountOwned(lnt, ncst, gridCols, colRank);
    r := Ready(Desc(lmt, lnt, nrst, ncst, gridRows, gridCols, myRank, rowRank, colRank, nbElemR, nbElemC));
  }

  /** Columns of the grid, and where a rank stands in it. */
  method Coordinates(nodes: nat, myRank: nat, gridRows: nat) returns (gridCols: nat, rowRank: nat, colRank: nat)
    requires 0 < gridRows && nodes % gridRows == 0 && myRank < nodes
    ensures gridCols == nodes / gridRows && gridRows * gridCols == nodes
    ensures rowRank < gridRows && colRank < gridCols && myRank == rowRank * gridCols + colRank
  {
    gridCols := nodes / gridRows;
    RankCoordinates(myRank, nodes, gridRows);
    rowRank, colRank := myRank / gridCols, myRank % gridCols;
  }

  lemma RankCoordinates(rank: nat, nodes: nat, rows: nat)
    requires 0 < rows && nodes % rows == 0 && rank < nodes
    ensures var cols := nodes / rows;
      && rows * cols == nodes && 0 < cols
      && rank / cols < rows && rank == (rank / cols) * cols + rank % cols
  {
    var cols := nodes / rows;
    assert nodes == rows * cols;
    MulLt(0, cols, rows);
    assert rank == (rank / cols) * cols + rank % cols;
    MulLt(rank / cols, rows, cols);
  }

  function RankOf(d: Desc, m: nat, n: nat): int
    requires Valid(d)
  {
    var str, stc := m / d.nrst, n / d.ncst;
    var rr, cr := str % d.gridRows, stc % d.gridCols;
    rr * d.gridCols + cr
  }

  /** Slot, counted in tiles, of tile `(m, n)` in the buffer of the rank that holds it. */
  function Slot(d: Desc, m: nat, n: nat): int
    requires Valid(d)
  {
    var pos0 := (d.nbElemR * d.ncst) * ((n / d.ncst) / d.gridCols);
    var colSize := if n >= (d.lnt / d.ncst) * d.ncst then (d.lnt % d.ncst) * d.nrst else d.ncst * d.nrst;
    var pos1 := pos0 + colSize * ((m / d.nrst) / d.gridRows);
    var rowSize := if m >= (d.lmt / d.nrst) * d.nrst then d.lmt % d.nrst else d.nrst;
    pos1 + (n % d.ncst) * rowSize + m % d.nrst
  }

  datatype Tile = Tile(row: int, col: int)

  predicate Holds(d: Desc, m: int, n: int)
    requires Valid(d)
  {
    0 <= m < d.lmt && 0 <= n < d.lnt && RankOf(d, m, n) == d.myRank
  }

  function Capacity(d: Desc): nat {
    d.nbElemR * d.nbElemC
  }

  lemma HoldsByDimension(d: Desc, m: nat, n: nat)
    requires Valid(d)
    ensures Holds(d, m, n) <==>
      && m < d.lmt && n < d.lnt
      && Owns(m, d.nrst, d.gridRows, d.rowRank) && Owns(n, d.ncst, d.gridCols, d.colRank)
  {
    var rr, cr := (m / d.nrst) % d.gridRows, (n / d.ncst) % d.gridCols;
    if rr * d.gridCols + cr == d.myRank {
      DivModUnique(d.myRank, d.gridCols, rr, cr);
      DivModUnique(d.myRank, d.gridCols, d.rowRank, d.colRank);
    }
  }

  /** Descriptors of two ranks of one grid for one matrix. */
  predicate SameMatrix(d: Desc, e: Desc) {
    && d.lmt == e.lmt && d.lnt == e.lnt && d.nrst == e.nrst && d.ncst == e.ncst
    && d.gridRows == e.gridRows && d.gridCols == e.gridCols
  }

  /** All ranks agree on where a tile lives, and that is a rank of the grid. */
  lemma RanksAgree(d: Desc, e: Desc, m: nat, n: nat)
    requires Valid(d) && Valid(e) && SameMatrix(d, e)
    ensures RankOf(d, m, n) == RankOf(e, m, n)
    ensures 0 <= RankOf(d, m, n) < d.gridRows * d.gridCols
  {
    RankInGrid((m / d.nrst) % d.gridRows, (n / d.ncst) % d.gridCols, d.gridRows, d.gridCols);
  }

  lemma RankInGrid(rr: nat, cr: nat, rows: nat, cols: nat)
    requires rr < rows && cr < cols
    ensures 0 <= rr * cols + cr < rows * cols
  {
    MulLe(rr + 1, rows, cols);
  }

  /** The descriptor of the rank at a place of the same grid. */
  function OnPlace(d: Desc, r: nat, rowRank: nat, colRank: nat): (e: Desc)
    requires Valid(d) && rowRank < d.gridRows && colRank < d.gridCols && r == rowRank * d.gridCols + colRank
    ensures Valid(e) && SameMatrix(d, e) && e.myRank == r
  {
    d.(myRank := r, rowRank := rowRank, colRank := colRank,
       nbElemR := Owned(d.lmt, d.nrst, d.gridRows, rowRank), nbElemC := Owned(d.lnt, d.ncst, d.gridCols, colRank))
  }

  /** The descriptor of rank `r` of the same grid. */
  function OnRank(d: Desc, r: nat): (e: Desc)
    requires Valid(d) && r < d.gridRows * d.gridCols
    ensures Valid(e) && SameMatrix(d, e) && e.myRank == r
  {
    QuotientBelow(r, d.gridRows, d.gridCols);
    OnPlace(d, r, r / d.gridCols, r % d.gridCols)
  }

  /** Every tile of the matrix is held by one rank of the grid and by no other. */
  lemma OneRankHolds(d: Desc, m: nat, n: nat) returns (r: nat)
    requires Valid(d) && m < d.lmt && n < d.lnt
    ensures r < d.gridRows * d.gridCols && r == RankOf(d, m, n) && Holds(OnRank(d, r), m, n)
    ensures forall e :: Valid(e) && SameMatrix(d, e) ==> (Holds(e, m, n) <==> e.myRank == r)
  {
    RanksAgree(d, d, m, n);
    r := RankOf(d, m, n);
    forall e | Valid(e) && SameMatrix(d, e)
      ensures Holds(e, m, n) <==> e.myRank == r
    {
      RanksAgree(d, e, m, n);
    }
  }

  lemma BlockOrder(x: nat, s: nat, q: nat, r: nat, t: nat, block: nat)
    requires r < block && t < block && x == s * block + r
    ensures x < q * block <==> s < q
    ensures x < q * block + t ==> s <= q
  {
    if s < q {
      MulLe(s + 1, q, block);
    } else if q < s {
      MulLe(q + 1, s, block);
    }
  }

  /** The size the slot formula takes for the block of `x` is the part of that block inside the matrix. */
  lemma BlockSize(x: nat, length: nat, block: nat)
    requires 0 < block && x < length
    ensures (if x >= (length / block) * block then length % block else block)
         == Min(block, length - (x / block) * block)
  {
    var q, t := length / block, length % block;
    var s := x / block;
    assert length == q * block + t;
    BlockOrder(x, s, q, x % block, t, block);
    if s < q {
      MulLe(s + 1, q, block);
    }
  }

  /** `rest` inside block `k` of a line of `total` units cut in blocks of `block`, `unit` tiles each. */
  lemma PackBlock(unit: nat, block: nat, total: nat, k: nat, extent: nat, rest: nat)
    requires rest < unit * extent && extent <= block && k * block + extent <= total
    ensures 0 < unit * block
    ensures ((unit * block) * k + rest) / (unit * block) == k
    ensures ((unit * block) * k + rest) % (unit * block) == rest
    ensures (unit * block) * k + rest < unit * total
  {
    MulLe(extent, block, unit);
    var shift := unit * block;
    DivModUnique(shift * k + rest, shift, k, rest);
    MulLe(k * block + extent, total, unit);
    assert unit * (k * block + extent) == shift * k + unit * extent by {
      assert unit * (k * block) == (unit * block) * k;
    }
  }

  lemma UnpackBlock(unit: nat, block: nat, total: nat, s: nat)
    returns (shift: nat, k: nat, rest: nat, extent: nat)
    requires s < unit * total && 0 < block
    ensures 0 < shift == unit * block && k == s / shift && rest == s % shift
    ensures k * block < total && extent == Min(block, total - k * block)
    ensures rest < unit * extent
    ensures s == shift * k + rest
  {
    shift := PositiveShift(unit, block, total);
    k, rest := s / shift, s % shift;
    var start := k * block;
    UnitsBefore(unit, block, k);
    MulLt(start, total, unit);
    extent := Min(block, total - start);
    assert rest < unit * extent by {
      assert unit * (total - start) == unit * total - unit * start;
    }
  }

  lemma PositiveShift(unit: nat, block: nat, total: nat) returns (shift: nat)
    requires 0 < unit * total && 0 < block
    ensures 0 < shift == unit * block
  {
    MulLt(0, unit, total);
    MulLe(1, block, unit);
    shift := unit * block;
  }

  lemma UnitsBefore(unit: nat, block: nat, k: nat)
    ensures (unit * block) * k == unit * (k * block)
  {
  }

  function Width(d: Desc, kc: nat): nat
    requires Valid(d)
  {
    var e := BlockStart(kc, d.ncst, d.gridCols, d.colRank);
    if e < d.lnt then Min(d.ncst, d.lnt - e) else 0
  }

  function Height(d: Desc, kr: nat): nat
    requires Valid(d)
  {
    var e := BlockStart(kr, d.nrst, d.gridRows, d.rowRank);
    if e < d.lmt then Min(d.nrst, d.lmt - e) else 0
  }

  /** The slot of column `x`, row `y` of the local super-tile `(kr, kc)`. */
  function SlotIn(d: Desc, kr: nat, kc: nat, x: nat, y: nat): int
    requires Valid(d)
  {
    (d.nbElemR * d.ncst) * kc + ((Width(d, kc) * d.nrst) * kr + (x * Height(d, kr) + y))
  }

  /** Along one dimension: the local block of an owned index, its offset there, and the block's extent. */
  lemma OwnedPosition(x: nat, length: nat, block: nat, procs: nat, coord: nat)
    requires 0 < block && 0 < procs && x < length && Owns(x, block, procs, coord)
    ensures var e := BlockStart(LocalBlock(x, block, procs), block, procs, coord);
      && x == e + x % block && x % block < Min(block, length - e)
      && (if x >= (length / block) * block then length % block else block) == Min(block, length - e)
  {
    OwnedDecompose(x, block, procs, coord);
    BlockSize(x, length, block);
    assert x == (x / block) * block + x % block;
  }

  lemma SlotBySuperTile(d: Desc, m: nat, n: nat)
    requires Valid(d) && Holds(d, m, n)
    ensures var kr, kc := LocalBlock(m, d.nrst, d.gridRows), LocalBlock(n, d.ncst, d.gridCols);
      && m == BlockStart(kr, d.nrst, d.gridRows, d.rowRank) + m % d.nrst
      && n == BlockStart(kc, d.ncst, d.gridCols, d.colRank) + n % d.ncst
      && n % d.ncst < Width(d, kc) && m % d.nrst < Height(d, kr)
      && Slot(d, m, n) == SlotIn(d, kr, kc, n % d.ncst, m % d.nrst)
  {
    HoldsByDimension(d, m, n);
    OwnedPosition(m, d.lmt, d.nrst, d.gridRows, d.rowRank);
    OwnedPosition(n, d.lnt, d.ncst, d.gridCols, d.colRank);
  }

  lemma BlockStartAsCode(k: nat, block: nat, procs: nat, coord: nat)
    ensures coord * block + k * (procs * block) == BlockStart(k, block, procs, coord)
  {
    assert (coord + k * procs) * block == coord * block + (k * procs) * block;
    assert (k * procs) * block == k * (procs * block);
  }

  lemma Commute(a: int, b: int)
    ensures a * b == b * a
  {
  }

  /** Along one dimension, `unit` tiles to an index: the local block in which tile `s` lies. */
  lemma UnpackAlong(unit: nat, length: nat, block: nat, procs: nat, coord: nat, s: nat)
    returns (shift: nat, k: nat, rest: nat, extent: nat)
    requires 0 < block && 0 < procs && coord < procs && s < unit * Owned(length, block, procs, coord)
    ensures 0 < shift == unit * block == block * unit && k == s / shift && rest == s % shift && s == shift * k + rest
    ensures BlockStart(k, block, procs, coord) < length
    ensures extent == Min(block, length - BlockStart(k, block, procs, coord))
    ensures 0 < extent && rest < extent * unit == unit * extent
  {
    var owned := Owned(length, block, procs, coord);
    shift, k, rest, extent := UnpackBlock(unit, block, owned, s);
    BlockExtent(k, length, block, procs, coord);
    Commute(unit, block);
    Commute(unit, extent);
  }

  /** A slot lies in a super-tile column of the rank. */
  lemma UnpackCols(d: Desc, slot: nat) returns (shift: nat, kc: nat, tiles0: nat, w: nat)
    requires Valid(d) && slot < Capacity(d)
    ensures 0 < shift == d.ncst * d.nbElemR && kc == slot / shift && tiles0 == slot % shift
    ensures slot == shift * kc + tiles0
    ensures var e := BlockStart(kc, d.ncst, d.gridCols, d.colRank);
      e < d.lnt && w == Width(d, kc) == Min(d.ncst, d.lnt - e)
    ensures 0 < w && tiles0 < w * d.nbElemR
  {
    shift, kc, tiles0, w := UnpackAlong(d.nbElemR, d.lnt, d.ncst, d.gridCols, d.colRank, slot);
  }

  /** A tile of a super-tile column `w` tiles wide lies in a super-tile of the rank. */
  lemma UnpackRows(d: Desc, w: nat, tiles0: nat) returns (shift: nat, kr: nat, tiles1: nat, h: nat)
    requires Valid(d) && 0 < w && tiles0 < w * d.nbElemR
    ensures 0 < shift == w * d.nrst && kr == tiles0 / shift && tiles1 == tiles0 % shift
    ensures tiles0 == shift * kr + tiles1
    ensures var e := BlockStart(kr, d.nrst, d.gridRows, d.rowRank);
      e < d.lmt && h == Height(d, kr) == Min(d.nrst, d.lmt - e)
    ensures 0 < h && tiles1 < w * h
  {
    shift, kr, tiles1, h := UnpackAlong(w, d.lmt, d.nrst, d.gridRows, d.rowRank, tiles0);
  }

  lemma ColumnsDefined(d: Desc, slot: nat)
    requires Valid(d) && slot < Capacity(d)
    ensures 0 < d.ncst * d.nbElemR
    ensures var ecol := d.colRank * d.ncst + (slot / (d.ncst * d.nbElemR)) * (d.gridCols * d.ncst);
      ecol < d.lnt && slot % (d.ncst * d.nbElemR) < Min(d.ncst, d.lnt - ecol) * d.nbElemR
  {
    var shift, kc, tiles0, w := UnpackCols(d, slot);
    BlockStartAsCode(kc, d.ncst, d.gridCols, d.colRank);
  }

  lemma RowsDefined(d: Desc, w: nat, tiles0: nat)
    requires Valid(d) && 0 < w && tiles0 < w * d.nbElemR
    ensures 0 < w * d.nrst
    ensures d.rowRank * d.nrst + (tiles0 / (w * d.nrst)) * (d.gridRows * d.nrst) < d.lmt
  {
    var shift, kr, tiles1, h := UnpackRows(d, w, tiles0);
    BlockStartAsCode(kr, d.nrst, d.gridRows, d.rowRank);
  }

  /** Which tile a slot holds: the inverse computation of the data generator, columns first. */
  function TileAt(d: Desc, slot: nat): Tile
    requires Valid(d) && slot < Capacity(d)
  {
    ColumnsDefined(d, slot);
    var shift := d.ncst * d.nbElemR;
    var ecol := d.colRank * d.ncst + (slot / shift) * (d.gridCols * d.ncst);
    var cst := if d.lnt - ecol < d.ncst then d.lnt - ecol else d.ncst;
    TileInColumn(d, ecol, cst, slot % shift)
  }

  function TileInColumn(d: Desc, ecol: int, cst: nat, tiles0: nat): Tile
    requires Valid(d) && 0 < cst && tiles0 < cst * d.nbElemR
  {
    RowsDefined(d, cst, tiles0);
    var shift := cst * d.nrst;
    var erow := d.rowRank * d.nrst + (tiles0 / shift) * (d.gridRows * d.nrst);
    var tiles1 := tiles0 % shift;
    var rst := if d.lmt - erow < d.nrst then d.lmt - erow else d.nrst;
    Tile(erow + tiles1 % rst, ecol + tiles1 / rst)
  }

  lemma UnpackTile(w: nat, h: nat, t: nat) returns (x: nat, y: nat)
    requires t < w * h && 0 < h
    ensures x == t / h && y == t % h && x < w && t == x * h + y
  {
    x, y := t / h, t % h;
    MulLt(x, w, h);
  }

  lemma TileInColumnPosition(d: Desc, ecol: int, w: nat, tiles0: nat) returns (kr: nat, x: nat, y: nat)
    requires Valid(d) && 0 < w && tiles0 < w * d.nbElemR
    ensures x < w && y < Height(d, kr)
    ensures tiles0 == (w * d.nrst) * kr + (x * Height(d, kr) + y)
    ensures TileInColumn(d, ecol, w, tiles0) == Tile(BlockStart(kr, d.nrst, d.gridRows, d.rowRank) + y, ecol + x)
  {
    var shift, kr0, tiles1, h := UnpackRows(d, w, tiles0);
    kr := kr0;
    BlockStartAsCode(kr, d.nrst, d.gridRows, d.rowRank);
    x, y := UnpackTile(w, h, tiles1);
  }

  /** The super-tile and the position in it that `TileAt` finds. */
  lemma TileAtPosition(d: Desc, slot: nat) returns (kr: nat, kc: nat, x: nat, y: nat)
    requires Valid(d) && slot < Capacity(d)
    ensures x < Width(d, kc) && y < Height(d, kr)
    ensures slot == SlotIn(d, kr, kc, x, y)
    ensures TileAt(d, slot) == Tile(BlockStart(kr, d.nrst, d.gridRows, d.rowRank) + y,
                                    BlockStart(kc, d.ncst, d.gridCols, d.colRank) + x)
  {
    var shift, kc0, tiles0, w := UnpackCols(d, slot);
    kc := kc0;
    BlockStartAsCode(kc, d.ncst, d.gridCols, d.colRank);
    kr, x, y := TileInColumnPosition(d, BlockStart(kc, d.ncst, d.gridCols, d.colRank), w, tiles0);
  }

  lemma OffsetInTile(w: nat, h: nat, x: nat, y: nat) returns (t: nat)
    requires x < w && y < h
    ensures t == x * h + y < w * h && t / h == x && t % h == y
  {
    t := x * h + y;
    DivModUnique(t, h, x, y);
    MulLe(x + 1, w, h);
  }

  lemma PackRows(d: Desc, w: nat, kr: nat, x: nat, y: nat) returns (h: nat, tiles1: nat, shift: nat, tiles0: nat)
    requires Valid(d) && x < w && y < Height(d, kr)
    ensures h == Height(d, kr) && tiles1 == x * h + y && tiles1 / h == x && tiles1 % h == y
    ensures 0 < shift == w * d.nrst && tiles0 == shift * kr + tiles1 < w * d.nbElemR
    ensures tiles0 / shift == kr && tiles0 % shift == tiles1
  {
    h := Height(d, kr);
    tiles1 := OffsetInTile(w, h, x, y);
    BlockExtent(kr, d.lmt, d.nrst, d.gridRows, d.rowRank);
    PackBlock(w, d.nrst, d.nbElemR, kr, h, tiles1);
    shift := w * d.nrst;
    tiles0 := shift * kr + tiles1;
  }

  lemma PackCols(d: Desc, kc: nat, tiles0: nat) returns (w: nat, shift: nat, slot: nat)
    requires Valid(d) && tiles0 < Width(d, kc) * d.nbElemR
    ensures w == Width(d, kc) && 0 < shift == d.nbElemR * d.ncst && slot == shift * kc + tiles0 < Capacity(d)
    ensures slot / shift == kc && slot % shift == tiles0
  {
    w, shift := Width(d, kc), d.nbElemR * d.ncst;
    BlockExtent(kc, d.lnt, d.ncst, d.gridCols, d.colRank);
    PackBlock(d.nbElemR, d.ncst, d.nbElemC, kc, w, tiles0);
    slot := shift * kc + tiles0;
  }

  lemma SlotInRange(d: Desc, kr: nat, kc: nat, x: nat, y: nat)
    requires Valid(d) && x < Width(d, kc) && y < Height(d, kr)
    ensures 0 <= SlotIn(d, kr, kc, x, y) < Capacity(d)
  {
    var h, tiles1, shift1, tiles0 := PackRows(d, Width(d, kc), kr, x, y);
    var w, shift0, slot := PackCols(d, kc, tiles0);
  }

  /** Different positions have different slots. */
  lemma SlotInInjective(d: Desc, kr: nat, kc: nat, x: nat, y: nat, kr': nat, kc': nat, x': nat, y': nat)
    requires Valid(d)
    requires x < Width(d, kc) && y < Height(d, kr) && x' < Width(d, kc') && y' < Height(d, kr')
    requires SlotIn(d, kr, kc, x, y) == SlotIn(d, kr', kc', x', y')
    ensures kr == kr' && kc == kc' && x == x' && y == y'
  {
    var h, tiles1, shift1, tiles0 := PackRows(d, Width(d, kc), kr, x, y);
    var w, shift0, slot := PackCols(d, kc, tiles0);
    var h', tiles1', shift1', tiles0' := PackRows(d, Width(d, kc'), kr', x', y');
    var w', shift0', slot' := PackCols(d, kc', tiles0');
  }

  /** Every tile a rank holds has a slot inside its buffer, and the inverse computation leads back. */
  lemma SlotThenTile(d: Desc, m: nat, n: nat)
    requires Valid(d) && Holds(d, m, n)
    ensures 0 <= Slot(d, m, n) < Capacity(d)
    ensures TileAt(d, Slot(d, m, n)) == Tile(m, n)
  {
    var kr, kc := LocalBlock(m, d.nrst, d.gridRows), LocalBlock(n, d.ncst, d.gridCols);
    SlotBySuperTile(d, m, n);
    SlotInRange(d, kr, kc, n % d.ncst, m % d.nrst);
    var kr', kc', x', y' := TileAtPosition(d, Slot(d, m, n));
    SlotInInjective(d, kr, kc, n % d.ncst, m % d.nrst, kr', kc', x', y');
  }

  lemma PositionHeld(d: Desc, kr: nat, kc: nat, x: nat, y: nat)
    requires Valid(d) && x < Width(d, kc) && y < Height(d, kr)
    ensures var m := BlockStart(kr, d.nrst, d.gridRows, d.rowRank) + y;
      var n := BlockStart(kc, d.ncst, d.gridCols, d.colRank) + x;
      Holds(d, m, n) && Slot(d, m, n) == SlotIn(d, kr, kc, x, y)
  {
    var m := BlockStart(kr, d.nrst, d.gridRows, d.rowRank) + y;
    var n := BlockStart(kc, d.ncst, d.gridCols, d.colRank) + x;
    OwnershipWithinBlock(kc, x, d.ncst, d.gridCols, d.colRank);
    OwnershipWithinBlock(kr, y, d.nrst, d.gridRows, d.rowRank);
    HoldsByDimension(d, m, n);
    SlotBySuperTile(d, m, n);
  }

  /** Every slot of the buffer holds a tile of the matrix that belongs to the rank, in that very slot. */
  lemma TileThenSlot(d: Desc, slot: nat)
    requires Valid(d) && slot < Capacity(d)
    ensures var t := TileAt(d, slot); Holds(d, t.row, t.col) && Slot(d, t.row, t.col) == slot
  {
    var kr, kc, x, y := TileAtPosition(d, slot);
    PositionHeld(d, kr, kc, x, y);
  }

  /** For every matrix size, super-tile shape and grid, `Slot` is a bijection from the tiles a rank holds
      onto `[0, nbElemR * nbElemC)`, with `TileAt` as its two-sided inverse. */
  lemma SlotIsBijection(d: Desc)
    requires Valid(d)
    ensures forall m: nat, n: nat :: Holds(d, m, n) ==>
      0 <= Slot(d, m, n) < Capacity(d) && TileAt(d, Slot(d, m, n)) == Tile(m, n)
    ensures forall s: nat :: s < Capacity(d) ==>
      Holds(d, TileAt(d, s).row, TileAt(d, s).col) && Slot(d, TileAt(d, s).row, TileAt(d, s).col) == s
  {
    forall m: nat, n: nat | Holds(d, m, n)
      ensures 0 <= Slot(d, m, n) < Capacity(d) && TileAt(d, Slot(d, m, n)) == Tile(m, n)
    {
      SlotThenTile(d, m, n);
    }
    forall s: nat | s < Capacity(d)
      ensures Holds(d, TileAt(d, s).row, TileAt(d, s).col) && Slot(d, TileAt(d, s).row, TileAt(d, s).col) == s
    {
      TileThenSlot(d, s);
    }
  }

  /** The order of the buffer: super-tile columns from left to right, in each the super-tiles from top to
      bottom, in each the columns, in each the rows. */
  predicate Before(d: Desc, m: nat, n: nat, m': nat, n': nat)
    requires Valid(d)
  {
    var sc, sr, sc', sr' := n / d.ncst, m / d.nrst, n' / d.ncst, m' / d.nrst;
    sc < sc' || (sc == sc' && (sr < sr' || (sr == sr' && (n < n' || (n == n' && m < m')))))
  }

  lemma SlotOrder(d: Desc, m: nat, n: nat, m': nat, n': nat)
    requires Valid(d) && Holds(d, m, n) && Holds(d, m', n')
    ensures Slot(d, m, n) < Slot(d, m', n') <==> Before(d, m, n, m', n')
  {
    var kr, kc := LocalBlock(m, d.nrst, d.gridRows), LocalBlock(n, d.ncst, d.gridCols);
    var kr', kc' := LocalBlock(m', d.nrst, d.gridRows), LocalBlock(n', d.ncst, d.gridCols);
    SlotBySuperTile(d, m, n);
    SlotBySuperTile(d, m', n');
    HoldsByDimension(d, m, n);
    HoldsByDimension(d, m', n');
    BlocksInOrder(m, m', d.nrst, d.gridRows, d.rowRank);
    BlocksInOrder(n, n', d.ncst, d.gridCols, d.colRank);
    SlotInOrder(d, kr, kc, n % d.ncst, m % d.nrst, kr', kc', n' % d.ncst, m' % d.nrst);
  }

  /** Blocks of one owner come in the order of its local blocks, indices of one block in that of their offsets. */
  lemma BlocksInOrder(x: nat, y: nat, block: nat, procs: nat, coord: nat)
    requires 0 < block && 0 < procs && Owns(x, block, procs, coord) && Owns(y, block, procs, coord)
    ensures x / block < y / block <==> LocalBlock(x, block, procs) < LocalBlock(y, block, procs)
    ensures x / block == y / block <==> LocalBlock(x, block, procs) == LocalBlock(y, block, procs)
    ensures x / block == y / block ==> (x < y <==> x % block < y % block) && (x == y <==> x % block == y % block)
  {
    var a, r := DivMod(x / block, procs);
    var b, s := DivMod(y / block, procs);
    DivModOrder(x / block, a, coord, y / block, b, coord, procs);
    DivModOrder(y / block, b, coord, x / block, a, coord, procs);
    var p, u := DivMod(x, block);
    var q, v := DivMod(y, block);
    DivModOrder(x, p, u, y, q, v, block);
  }

  /** Slots compare as super-tile column, super-tile row, column and row do. */
  lemma SlotInOrder(d: Desc, kr: nat, kc: nat, x: nat, y: nat, kr': nat, kc': nat, x': nat, y': nat)
    requires Valid(d)
    requires x < Width(d, kc) && y < Height(d, kr) && x' < Width(d, kc') && y' < Height(d, kr')
    ensures SlotIn(d, kr, kc, x, y) < SlotIn(d, kr', kc', x', y') <==>
      kc < kc' || (kc == kc' && (kr < kr' || (kr == kr' && (x < x' || (x == x' && y < y')))))
  {
    var h, tiles1, shift1, tiles0 := PackRows(d, Width(d, kc), kr, x, y);
    var w, shift0, slot := PackCols(d, kc, tiles0);
    var h', tiles1', shift1', tiles0' := PackRows(d, Width(d, kc'), kr', x', y');
    var w', shift0', slot' := PackCols(d, kc', tiles0');
    Commute(shift0, kc);
    Commute(shift0, kc');
    DivModOrder(slot, kc, tiles0, slot', kc', tiles0', shift0);
    if kc == kc' {
      Commute(shift1, kr);
      Commute(shift1, kr');
      DivModOrder(tiles0, kr, tiles1, tiles0', kr', tiles1', shift1);
      if kr == kr' {
        DivModOrder(tiles1, x, y, tiles1', x', y', h);
      }
    }
  }

  /** Tiles of the rank in the super-tile columns before `i`. */
  function ColumnsBefore(d: Desc, i: nat): int
    requires Valid(d)
  {
    d.nbElemR * Owned(Min(i * d.ncst, d.lnt), d.ncst, d.gridCols, d.colRank)
  }

  /** Tiles of the rank in the super-tiles before row `j` of a column `w` tiles wide. */
  function RowsBefore(d: Desc, w: int, j: nat): int
    requires Valid(d)
  {
    w * Owned(Min(j * d.nrst, d.lmt), d.nrst, d.gridRows, d.rowRank)
  }

  /** Passing block `j` adds its extent when it is owned and nothing otherwise. */
  lemma OwnedByExtent(j: nat, length: nat, block: nat, procs: nat, coord: nat) returns (extent: nat)
    requires 0 < block && 0 < procs && j * block < length
    ensures extent == Min(block, length - j * block)
    ensures Owned(Min((j + 1) * block, length), block, procs, coord)
         == Owned(Min(j * block, length), block, procs, coord) + (if j % procs == coord then extent else 0)
  {
    var start := j * block;
    extent := Min(block, length - start);
    assert (j + 1) * block == start + block;
    OwnedOverBlock(j, extent, block, procs, coord);
  }

  lemma OwnedBlockStart(j: nat, block: nat, procs: nat, coord: nat)
    requires 0 < block && 0 < procs && j % procs == coord
    ensures BlockStart(j / procs, block, procs, coord) == j * block
    ensures Owned(j * block, block, procs, coord) == (j / procs) * block
  {
    assert j == coord + (j / procs) * procs;
    OwnedAtStart(j / procs, block, procs, coord);
  }

  lemma CeilDivBound(i: nat, length: nat, block: nat)
    requires 0 < block
    ensures i < CeilDiv(length, block) <==> i * block < length
  {
    var q, t := length / block, length % block;
    assert length == q * block + t;
    BlockOrder(i * block, i, q, 0, t, block);
    if i == q {
    } else if q < i {
      MulLe(q + 1, i, block);
    }
  }

  /** Position `pos` of the buffer has been filled from the tile array (column by column, `lmt` tiles a column). */
  predicate Filled<T(==)>(d: Desc, src: seq<T>, mat: seq<T>, pos: nat)
    requires Valid(d) && |src| == d.lmt * d.lnt && |mat| == Capacity(d)
  {
    pos <= Capacity(d) && forall s: nat :: s < pos ==> mat[s] == SourceTile(d, src, s)
  }

  function SourceTile<T>(d: Desc, src: seq<T>, s: nat): T
    requires Valid(d) && |src| == d.lmt * d.lnt && s < Capacity(d)
  {
    SourceOf(d, s);
    src[TileIndex(d, TileAt(d, s).row, TileAt(d, s).col)]
  }

  /** Where a tile is in the tile array, which goes column by column. */
  function TileIndex(d: Desc, m: nat, n: nat): (i: nat)
    requires m < d.lmt && n < d.lnt
    ensures i == m + d.lmt * n < d.lmt * d.lnt
  {
    SourceIndex(d, m, n);
    m + d.lmt * n
  }

  lemma SourceOf(d: Desc, s: nat)
    requires Valid(d) && s < Capacity(d)
    ensures var t := TileAt(d, s);
      0 <= t.row < d.lmt && 0 <= t.col < d.lnt
  {
    TileThenSlot(d, s);
  }

  lemma SourceIndex(d: Desc, m: nat, n: nat)
    requires m < d.lmt && n < d.lnt
    ensures m + d.lmt * n < d.lmt * d.lnt
  {
    MulLe(n + 1, d.lnt, d.lmt);
  }

  predicate SuperTileHeld(d: Desc, i: nat, j: nat)
    requires Valid(d)
  {
    j * d.nrst < d.lmt && i * d.ncst < d.lnt
    && j % d.gridRows == d.rowRank && i % d.gridCols == d.colRank
  }

  /** Where the streaming order puts super-tile `(j, i)` of the rank. */
  function StreamStart(d: Desc, i: nat, j: nat): int
    requires Valid(d)
  {
    ColumnsBefore(d, i) + RowsBefore(d, Min(d.ncst, d.lnt - i * d.ncst), j)
  }

  lemma RankOfSuperTile(d: Desc, i: nat, j: nat)
    requires Valid(d) && j * d.nrst < d.lmt && i * d.ncst < d.lnt
    ensures RankOf(d, j * d.nrst, i * d.ncst) == d.myRank <==> SuperTileHeld(d, i, j)
  {
    DivModUnique(j * d.nrst, d.nrst, j, 0);
    DivModUnique(i * d.ncst, d.ncst, i, 0);
    HoldsByDimension(d, j * d.nrst, i * d.ncst);
  }

  lemma StreamStartIsSlot(d: Desc, i: nat, j: nat) returns (kr: nat, kc: nat)
    requires Valid(d) && SuperTileHeld(d, i, j)
    ensures BlockStart(kr, d.nrst, d.gridRows, d.rowRank) == j * d.nrst
    ensures BlockStart(kc, d.ncst, d.gridCols, d.colRank) == i * d.ncst
    ensures StreamStart(d, i, j) == SlotIn(d, kr, kc, 0, 0)
  {
    kc := ColumnsStart(d, i);
    kr := RowsStart(d, Width(d, kc), j);
  }

  lemma ColumnsStart(d: Desc, i: nat) returns (kc: nat)
    requires Valid(d) && i * d.ncst < d.lnt && i % d.gridCols == d.colRank
    ensures BlockStart(kc, d.ncst, d.gridCols, d.colRank) == i * d.ncst
    ensures ColumnsBefore(d, i) == (d.nbElemR * d.ncst) * kc
  {
    kc := i / d.gridCols;
    OwnedBlockStart(i, d.ncst, d.gridCols, d.colRank);
    UnitsBefore(d.nbElemR, d.ncst, kc);
  }

  lemma RowsStart(d: Desc, w: nat, j: nat) returns (kr: nat)
    requires Valid(d) && j * d.nrst < d.lmt && j % d.gridRows == d.rowRank
    ensures BlockStart(kr, d.nrst, d.gridRows, d.rowRank) == j * d.nrst
    ensures RowsBefore(d, w, j) == (w * d.nrst) * kr
  {
    kr := j / d.gridRows;
    OwnedBlockStart(j, d.nrst, d.gridRows, d.rowRank);
    UnitsBefore(w, d.nrst, kr);
  }

  /** In the stream, tile `(j * nrst + t, i * ncst + nb)` is at exactly its slot. */
  lemma StreamSlot(d: Desc, i: nat, j: nat, nb: nat, t: nat)
    requires Valid(d) && SuperTileHeld(d, i, j)
    requires nb < Min(d.ncst, d.lnt - i * d.ncst) && t < Min(d.nrst, d.lmt - j * d.nrst)
    ensures var s := StreamStart(d, i, j) + nb * Min(d.nrst, d.lmt - j * d.nrst) + t;
      0 <= s < Capacity(d) && TileAt(d, s) == Tile(j * d.nrst + t, i * d.ncst + nb)
  {
    var kr, kc := StreamStartIsSlot(d, i, j);
    SlotInRange(d, kr, kc, nb, t);
    PositionHeld(d, kr, kc, nb, t);
    SlotThenTile(d, j * d.nrst + t, i * d.ncst + nb);
  }

  lemma StreamTile<T>(d: Desc, src: seq<T>, i: nat, j: nat, nb: nat, t: nat, pos: nat, target: nat)
    requires Valid(d) && |src| == d.lmt * d.lnt && SuperTileHeld(d, i, j)
    requires nb < Min(d.ncst, d.lnt - i * d.ncst) && t < Min(d.nrst, d.lmt - j * d.nrst)
    requires target == Target(d, i, j, nb) && pos == RunStart(d, i, j, nb)
    ensures pos + t < Capacity(d) && target + t < |src|
    ensures SourceTile(d, src, pos + t) == src[target + t]
  {
    StreamSlot(d, i, j, nb, t);
    SourceIndex(d, j * d.nrst + t, i * d.ncst + nb);
  }

  /** One contiguous run of the stream: the tiles of one column of one super-tile. */
  method CopyRun<T(==)>(d: Desc, src: seq<T>, mat: array<T>, ghost i: nat, ghost j: nat, ghost nb: nat,
                        tileSize: nat, target: nat, pos: nat) returns (next: nat)
    requires Valid(d) && |src| == d.lmt * d.lnt && mat.Length == Capacity(d)
    requires SuperTileHeld(d, i, j) && nb < Min(d.ncst, d.lnt - i * d.ncst)
    requires tileSize == Min(d.nrst, d.lmt - j * d.nrst)
    requires target == Target(d, i, j, nb) && pos == RunStart(d, i, j, nb)
    requires Filled(d, src, mat[..], pos)
    modifies mat
    ensures next == pos + tileSize
    ensures Filled(d, src, mat[..], next)
  {
    next := pos;
    var t := 0;
    while t < tileSize
      invariant 0 <= t <= tileSize && next == pos + t
      invariant Filled(d, src, mat[..], next)
    {
      StreamTile(d, src, i, j, nb, t, pos, target);
      ghost var before := mat[..];
      mat[next] := src[target + t];
      FilledNext(d, src, before, mat[..], next);
      next, t := next + 1, t + 1;
    }
  }

  lemma FilledNext<T>(d: Desc, src: seq<T>, before: seq<T>, after: seq<T>, pos: nat)
    requires Valid(d) && |src| == d.lmt * d.lnt && |before| == Capacity(d)
    requires pos < Capacity(d) && after == before[pos := SourceTile(d, src, pos)]
    requires Filled(d, src, before, pos)
    ensures Filled(d, src, after, pos + 1)
  {
  }

  /** The whole copy for one rank: after it, every tile the rank holds sits in its slot. */
  method DistributeData<T(==)>(d: Desc, src: seq<T>, mat: array<T>)
    requires Valid(d) && |src| == d.lmt * d.lnt && mat.Length == Capacity(d)
    modifies mat
    ensures forall m: nat, n: nat :: Holds(d, m, n) ==> InPlace(d, src, mat[..], m, n)
  {
    var stc := CeilDiv(d.lnt, d.ncst);
    var pos := 0;
    for i := 0 to stc
      invariant pos == ColumnsBefore(d, i)
      invariant Filled(d, src, mat[..], pos)
    {
      CeilDivBound(i, d.lnt, d.ncst);
      pos := DistributeColumn(d, src, mat, i, pos);
    }
    CeilDivBound(stc, d.lnt, d.ncst);
    forall m: nat, n: nat | Holds(d, m, n)
      ensures InPlace(d, src, mat[..], m, n)
    {
      FilledInPlace(d, src, mat[..], m, n);
    }
  }

  /** Tile `(m, n)` of the tile array is in the slot of the buffer that belongs to it. */
  predicate InPlace<T(==)>(d: Desc, src: seq<T>, mat: seq<T>, m: nat, n: nat)
    requires Valid(d) && |src| == d.lmt * d.lnt && |mat| == Capacity(d)
  {
    && m < d.lmt && n < d.lnt && 0 <= Slot(d, m, n) < |mat|
    && mat[Slot(d, m, n)] == src[TileIndex(d, m, n)]
  }

  lemma FilledInPlace<T>(d: Desc, src: seq<T>, mat: seq<T>, m: nat, n: nat)
    requires Valid(d) && |src| == d.lmt * d.lnt && |mat| == Capacity(d) && Filled(d, src, mat, Capacity(d))
    requires Holds(d, m, n)
    ensures InPlace(d, src, mat, m, n)
  {
    SlotThenTile(d, m, n);
    assert mat[Slot(d, m, n)] == SourceTile(d, src, Slot(d, m, n));
  }

  method DistributeColumn<T(==)>(d: Desc, src: seq<T>, mat: array<T>, i: nat, start: nat) returns (pos: nat)
    requires Valid(d) && |src| == d.lmt * d.lnt && mat.Length == Capacity(d)
    requires i * d.ncst < d.lnt && start == ColumnsBefore(d, i)
    requires Filled(d, src, mat[..], start)
    modifies mat
    ensures pos == ColumnsBefore(d, i + 1)
    ensures Filled(d, src, mat[..], pos)
  {
    var str := CeilDiv(d.lmt, d.nrst);
    ghost var w := OwnedByExtent(i, d.lnt, d.ncst, d.gridCols, d.colRank);
    ghost var mine := i % d.gridCols == d.colRank;
    pos := start;
    for j := 0 to str
      invariant pos == if mine then StreamStart(d, i, j) else start
      invariant Filled(d, src, mat[..], pos)
    {
      CeilDivBound(j, d.lmt, d.nrst);
      RankOfSuperTile(d, i, j);
      StreamNext(d, i, j);
      var rank := RankOf(d, j * d.nrst, i * d.ncst);
      if rank == d.myRank {
        pos := CopySuperTile(d, src, mat, i, j, pos);
      }
    }
    CeilDivBound(str, d.lmt, d.nrst);
    ColumnDone(d, i, w);
  }

  method CopySuperTile<T(==)>(d: Desc, src: seq<T>, mat: array<T>, i: nat, j: nat, start: nat) returns (pos: nat)
    requires Valid(d) && |src| == d.lmt * d.lnt && mat.Length == Capacity(d)
    requires SuperTileHeld(d, i, j) && start == StreamStart(d, i, j)
    requires Filled(d, src, mat[..], start)
    modifies mat
    ensures pos == RunStart(d, i, j, Min(d.ncst, d.lnt - i * d.ncst)) == StreamStart(d, i, j + 1)
    ensures Filled(d, src, mat[..], pos)
  {
    var tileSize, columns := Min(d.nrst, d.lmt - j * d.nrst), Min(d.ncst, d.lnt - i * d.ncst);
    var target := Target(d, i, j, 0);
    pos := start;
    for nb := 0 to columns
      invariant pos == RunStart(d, i, j, nb) && target == Target(d, i, j, nb)
      invariant Filled(d, src, mat[..], pos)
    {
      pos := CopyRun(d, src, mat, i, j, nb, tileSize, target, pos);
      target := target + d.lmt;
      RunNext(d, i, j, nb);
    }
    StreamNext(d, i, j);
  }

  /** Index in the tile array where column `nb` of super-tile `(j, i)` begins. */
  function Target(d: Desc, i: nat, j: nat, nb: nat): nat {
    j * d.nrst + d.lmt * (i * d.ncst + nb)
  }

  /** Position in the buffer where column `nb` of super-tile `(j, i)` begins. */
  function RunStart(d: Desc, i: nat, j: nat, nb: nat): int
    requires Valid(d)
  {
    StreamStart(d, i, j) + nb * Min(d.nrst, d.lmt - j * d.nrst)
  }

  lemma RunNext(d: Desc, i: nat, j: nat, nb: nat)
    requires Valid(d)
    ensures RunStart(d, i, j, nb + 1) == RunStart(d, i, j, nb) + Min(d.nrst, d.lmt - j * d.nrst)
    ensures Target(d, i, j, nb + 1) == Target(d, i, j, nb) + d.lmt
  {
    MulAdd(Min(d.nrst, d.lmt - j * d.nrst), nb, 1);
    MulAdd(d.lmt, i * d.ncst + nb, 1);
  }

  lemma StreamNext(d: Desc, i: nat, j: nat)
    requires Valid(d) && i * d.ncst < d.lnt && j * d.nrst < d.lmt
    ensures var w, h := Min(d.ncst, d.lnt - i * d.ncst), Min(d.nrst, d.lmt - j * d.nrst);
      StreamStart(d, i, j + 1) == StreamStart(d, i, j) + (if j % d.gridRows == d.rowRank then w * h else 0)
  {
    var h := OwnedByExtent(j, d.lmt, d.nrst, d.gridRows, d.rowRank);
    var w := Min(d.ncst, d.lnt - i * d.ncst);
    MulAdd(w, Owned(Min(j * d.nrst, d.lmt), d.nrst, d.gridRows, d.rowRank), h);
  }

  lemma MulAdd(u: int, a: int, b: int)
    ensures u * (a + b) == u * a + u * b
  {
  }

  lemma ColumnDone(d: Desc, i: nat, w: nat)
    requires Valid(d) && i * d.ncst < d.lnt && w == Min(d.ncst, d.lnt - i * d.ncst)
    ensures ColumnsBefore(d, i + 1) ==
      if i % d.gridCols == d.colRank then ColumnsBefore(d, i) + w * d.nbElemR else ColumnsBefore(d, i)
  {
    var w' := OwnedByExtent(i, d.lnt, d.ncst, d.gridCols, d.colRank);
    MulAdd(d.nbElemR, Owned(Min(i * d.ncst, d.lnt), d.ncst, d.gridCols, d.colRank), w);
  }
}
