/** The distribution of the lower triangle (tiles `m >= n`) of a symmetric matrix: each rank packs
    the tiles it holds column by column, and the constructor counts them with a separate loop. */
module SymBlockCyclic {
  import opened IntegerArithmetic
  import opened CyclicIndex

  datatype Desc = Desc(
    lmt: nat, lnt: nat,
    gridRows: nat, gridCols: nat,
    myRank: nat, rowRank: nat, colRank: nat)

  predicate Valid(d: Desc) {
    && 0 < d.gridRows && 0 < d.gridCols && d.rowRank < d.gridRows && d.colRank < d.gridCols
    && d.myRank == d.rowRank * d.gridCols + d.colRank
  }

  const NO_RANK := -1

  function RankOf(d: Desc, m: nat, n: nat): int
    requires Valid(d)
  {
    if m < n then NO_RANK else (m % d.gridRows) * d.gridCols + n % d.gridCols
  }

  predicate Holds(d: Desc, m: int, n: int)
    requires Valid(d)
  {
    0 <= m < d.lmt && 0 <= n < d.lnt && RankOf(d, m, n) == d.myRank
  }

  lemma HoldsByDimension(d: Desc, m: nat, n: nat)
    requires Valid(d)
    ensures Holds(d, m, n) <==>
      n <= m < d.lmt && n < d.lnt && m % d.gridRows == d.rowRank && n % d.gridCols == d.colRank
  {
    if n <= m && (m % d.gridRows) * d.gridCols + n % d.gridCols == d.myRank {
      DivModUnique(d.myRank, d.gridCols, m % d.gridRows, n % d.gridCols);
      DivModUnique(d.myRank, d.gridCols, d.rowRank, d.colRank);
    }
  }

  /** Descriptors of two ranks of one grid for one matrix. */
  predicate SameMatrix(d: Desc, e: Desc) {
    d.lmt == e.lmt && d.lnt == e.lnt && d.gridRows == e.gridRows && d.gridCols == e.gridCols
  }

  /** All ranks agree on where a tile lives: on a rank of the grid in the lower triangle, nowhere above. */
  lemma RanksAgree(d: Desc, e: Desc, m: nat, n: nat)
    requires Valid(d) && Valid(e) && SameMatrix(d, e)
    ensures RankOf(d, m, n) == RankOf(e, m, n)
    ensures if n <= m then 0 <= RankOf(d, m, n) < d.gridRows * d.gridCols else RankOf(d, m, n) == -1
  {
    if n <= m {
      MulLe(m % d.gridRows + 1, d.gridRows, d.gridCols);
    }
  }

  /** The descriptor of rank `r` of the same grid. */
  function OnRank(d: Desc, r: nat): (e: Desc)
    requires Valid(d) && r < d.gridRows * d.gridCols
    ensures Valid(e) && SameMatrix(d, e) && e.myRank == r
  {
    var rowRank, colRank := r / d.gridCols, r % d.gridCols;
    QuotientBelow(r, d.gridRows, d.gridCols);
    d.(myRank := r, rowRank := rowRank, colRank := colRank)
  }

  /** Every tile of the lower triangle is held by one rank of the grid and by no other. */
  lemma OneRankHolds(d: Desc, m: nat, n: nat) returns (r: nat)
    requires Valid(d) && n <= m < d.lmt && n < d.lnt
    ensures r < d.gridRows * d.gridCols && r == RankOf(d, m, n) && Holds(OnRank(d, r), m, n)
    ensures forall e :: Valid(e) && SameMatrix(d, e) ==> (Holds(e, m, n) <==> e.myRank == r)
  {
    RanksAgree(d, d, m, n);
    r := RankOf(d, m, n);
    forall e | Valid(e) && SameMatrix(d, e)
      ensures Holds(e, m, n) <==> e.myRank == r
    {
      RanksAgree(d, e, m, n);
    }
  }

  /** How many rows below `x` go to grid row `r`: rows are dealt one by one. */
  function RowsBelow(x: nat, p: nat, r: nat): nat
    requires 0 < p
  {
    Owned(x, 1, p, r)
  }

  lemma OneMoreRow(x: nat, p: nat, r: nat)
    requires 0 < p
    ensures RowsBelow(0, p, r) == 0
    ensures RowsBelow(x + 1, p, r) == RowsBelow(x, p, r) + (if x % p == r then 1 else 0)
  {
  }

  /** The expression both loops use for that number. */
  function RowsBelowExpr(x: nat, p: nat, r: nat): int
    requires 0 < p
  {
    if x % p > r then x / p + 1 else x / p
  }

  lemma RowsBelowIsExpr(x: nat, p: nat, r: nat)
    requires r < p
    ensures RowsBelow(x, p, r) == RowsBelowExpr(x, p, r)
  {
    if x == 0 {
      DivModUnique(0, p, 0, 0);
    } else {
      RowsBelowIsExpr(x - 1, p, r);
      OneMoreRow(x - 1, p, r);
      DivModNext(x - 1, p);
    }
  }

  /** Names the quotient the closed form rests on. */
  lemma RowsBelowSplit(x: nat, p: nat, r: nat) returns (q: nat, s: nat)
    requires r < p
    ensures x == q * p + s && s < p && q == x / p && s == x % p
    ensures RowsBelow(x, p, r) == if s > r then q + 1 else q
  {
    RowsBelowIsExpr(x, p, r);
    q, s := DivMod(x, p);
  }

  method CountRows(x: nat, p: nat, r: nat) returns (nbElem: nat)
    requires r < p
    ensures nbElem == RowsBelow(x, p, r)
  {
    RowsBelowIsExpr(x, p, r);
    nbElem := x / p;
    if x % p > r {
      nbElem := nbElem + 1;
    }
  }

  /** The `k`-th row of grid row `r` has `k` rows of it below. */
  lemma NthRow(k: nat, p: nat, r: nat) returns (m: nat)
    requires r < p
    ensures m == k * p + r && m % p == r && m / p == k && RowsBelow(m, p, r) == k
  {
    m := k * p + r;
    DivModUnique(m, p, k, r);
    RowsBelowIsExpr(m, p, r);
  }

  /** It lies under `x` exactly when `x` has more than `k` below. */
  lemma NthRowOrder(k: nat, m: nat, x: nat, p: nat, r: nat)
    requires r < p && m == k * p + r
    ensures m < x <==> k < RowsBelow(x, p, r)
  {
    var q, s := RowsBelowSplit(x, p, r);
    DivModOrder(m, k, r, x, q, s, p);
  }

  /** Dividing the distance to the diagonal counts the rows of the rank in between. */
  lemma DistanceIsCount(m: nat, n: nat, p: nat, r: nat)
    requires r < p && n <= m && m % p == r
    ensures (m - n) / p == RowsBelow(m, p, r) - RowsBelow(n, p, r)
  {
    var a, u := RowsBelowSplit(m, p, r);
    var b, s := RowsBelowSplit(n, p, r);
    DivModDifference(m, a, r, n, b, s, p);
  }

  function Column(d: Desc, k: nat): nat {
    d.colRank + k * d.gridCols
  }

  /** What both loops add for the `k`-th column of the rank. */
  function ColumnCount(d: Desc, k: nat): int
    requires Valid(d)
  {
    RowsBelow(d.lmt, d.gridRows, d.rowRank) - RowsBelow(Column(d, k), d.gridRows, d.rowRank)
  }

  function ColumnStart(d: Desc, k: nat): int
    requires Valid(d)
  {
    if k == 0 then 0 else ColumnStart(d, k - 1) + ColumnCount(d, k - 1)
  }

  lemma ColumnStep(d: Desc, k: nat)
    ensures Column(d, k + 1) == Column(d, k) + d.gridCols
  {
  }

  lemma RowsBelowMonotone(a: nat, b: nat, p: nat, r: nat)
    requires 0 < p && a <= b
    ensures RowsBelow(a, p, r) <= RowsBelow(b, p, r)
  {
    OwnedMonotone(a, b, 1, p, r);
  }

  lemma ColumnMonotone(d: Desc, j: nat, k: nat)
    requires j <= k
    ensures Column(d, j) <= Column(d, k)
  {
    MulLe(j, k, d.gridCols);
  }

  /** The number of columns of the rank to the left of `lnt`. */
  ghost predicate IsColumns(d: Desc, cols: nat) {
    Column(d, cols) >= d.lnt && (cols > 0 ==> Column(d, cols - 1) < d.lnt)
  }

  /** The slot computation: its loop stops at column `n`, its division places row `m`. */
  method Slot(d: Desc, m: nat, n: nat) returns (pos: int)
    requires Valid(d) && Holds(d, m, n)
    ensures pos == SlotOf(d, m, n)
  {
    HoldsByDimension(d, m, n);
    pos := 0;
    var column: int := d.colRank;
    var nbElemCol: int := CountRows(d.lmt, d.gridRows, d.rowRank);
    ghost var k := 0;
    ghost var last := ColumnOf(d, n);
    while column != n
      invariant k <= last && column == Column(d, k) && pos == ColumnStart(d, k)
      decreases last - k
    {
      var nbElem: int := CountRows(column, d.gridRows, d.rowRank);
      pos := pos + (nbElemCol - nbElem);
      column := column + d.gridCols;
      ColumnStep(d, k);
      k := k + 1;
    }
    ColumnInjective(d, k, last);
    pos := pos + (m - n) / d.gridRows;
  }

  lemma ColumnOf(d: Desc, n: nat) returns (k: nat)
    requires Valid(d) && n % d.gridCols == d.colRank
    ensures k == n / d.gridCols && n == Column(d, k)
  {
    var q, r := DivMod(n, d.gridCols);
    k := q;
  }

  lemma ColumnInjective(d: Desc, j: nat, k: nat)
    requires Valid(d) && Column(d, j) == Column(d, k)
    ensures j == k
  {
    DivModUnique(Column(d, j), d.gridCols, j, d.colRank);
    DivModUnique(Column(d, k), d.gridCols, k, d.colRank);
  }

  function SlotOf(d: Desc, m: nat, n: nat): int
    requires Valid(d) && n <= m
  {
    ColumnStart(d, n / d.gridCols) + (m - n) / d.gridRows
  }

  /** How many of the tile columns go to the rank's grid column. */
  function Columns(d: Desc): nat
    requires Valid(d)
  {
    RowsBelow(d.lnt, d.gridCols, d.colRank)
  }

  lemma ColumnsBelow(d: Desc, k: nat)
    requires Valid(d)
    ensures Column(d, k) < d.lnt <==> k < Columns(d)
  {
    NthRowOrder(k, Column(d, k), d.lnt, d.gridCols, d.colRank);
  }

  lemma ColumnsAre(d: Desc)
    requires Valid(d)
    ensures IsColumns(d, Columns(d))
  {
    ColumnsBelow(d, Columns(d));
    if Columns(d) > 0 {
      ColumnsBelow(d, Columns(d) - 1);
    }
  }

  /** The size of the rank's buffer: where a column after its last one would start. */
  function Allocated(d: Desc): int
    requires Valid(d)
  {
    ColumnStart(d, Columns(d))
  }

  /** The number of tiles the constructor allocates: the size of the buffer, in an unsigned 32-bit counter. */
  method Total(d: Desc) returns (total: int)
    requires Valid(d)
    ensures total == Allocated(d) % U32
  {
    total := 0;
    var column: int := d.colRank;
    var nbElemCol: int := CountRows(d.lmt, d.gridRows, d.rowRank);
    ghost var cols: nat := 0;
    while column < d.lnt
      invariant CountedTo(d, cols, column, total)
      decreases d.lnt - column
    {
      CountedNext(d, cols, column, total);
      var nbElem: int := CountRows(column, d.gridRows, d.rowRank);
      total := (total + (nbElemCol - nbElem) % U32) % U32;
      column := column + d.gridCols;
      cols := cols + 1;
    }
    ColumnsBelow(d, cols);
  }

  /** The loop has counted the first `cols` columns of the rank and looks at tile column `column`. */
  predicate CountedTo(d: Desc, cols: nat, column: int, total: int)
    requires Valid(d)
  {
    cols <= Columns(d) && column == Column(d, cols) && total == ColumnStart(d, cols) % U32
  }

  lemma CountedNext(d: Desc, cols: nat, column: int, total: int)
    requires Valid(d) && CountedTo(d, cols, column, total) && column < d.lnt
    ensures CountedTo(d, cols + 1, column + d.gridCols, (total + ColumnCount(d, cols) % U32) % U32)
  {
    ColumnsBelow(d, cols);
    ColumnStep(d, cols);
    AddWrapped(ColumnStart(d, cols), ColumnCount(d, cols), total);
  }

  lemma AddWrapped(a: int, b: int, wrapped: int)
    requires wrapped == a % U32
    ensures (wrapped + b % U32) % U32 == (a + b) % U32
  {
    ModAdd(b, wrapped, U32);
    ModAdd(a, b, U32);
  }

  /** `n` is one of the columns counted by `cols` exactly when it belongs to the rank's grid column. */
  lemma ColumnIndex(d: Desc, n: nat, cols: nat)
    requires Valid(d) && IsColumns(d, cols) && n % d.gridCols == d.colRank
    ensures n == Column(d, n / d.gridCols)
    ensures n < d.lnt <==> n / d.gridCols < cols
  {
    var k := ColumnOf(d, n);
    if k < cols {
      ColumnMonotone(d, k, cols - 1);
    } else {
      ColumnMonotone(d, cols, k);
    }
  }

  lemma StartMonotone(d: Desc, j: nat, k: nat)
    requires Valid(d) && j <= k
    requires forall i: nat :: j <= i < k ==> ColumnCount(d, i) >= 0
    ensures ColumnStart(d, j) <= ColumnStart(d, k)
    decreases k - j
  {
    if j < k {
      StartMonotone(d, j, k - 1);
    }
  }

  /** The last column of the rank does not count negative: no more rows of the rank lie above its diagonal
      than the matrix has. */
  predicate Countable(d: Desc)
    requires Valid(d)
  {
    Columns(d) == 0 || ColumnCount(d, Columns(d) - 1) >= 0
  }

  /** So it is whenever the matrix has at least as many tile rows as columns. */
  lemma TallIsCountable(d: Desc)
    requires Valid(d) && d.lnt <= d.lmt
    ensures Countable(d)
  {
    ColumnsAre(d);
    if Columns(d) > 0 {
      RowsBelowMonotone(Column(d, Columns(d) - 1), d.lmt, d.gridRows, d.rowRank);
    }
  }

  lemma CountsNonNegative(d: Desc, cols: nat)
    requires Valid(d) && cols == Columns(d) && Countable(d)
    ensures forall i: nat :: i < cols ==> ColumnCount(d, i) >= 0
  {
    forall i: nat | i < cols
      ensures ColumnCount(d, i) >= 0
    {
      ColumnMonotone(d, i, cols - 1);
      RowsBelowMonotone(Column(d, i), Column(d, cols - 1), d.gridRows, d.rowRank);
    }
  }

  /** Inside its column a tile of the rank is at its place from the diagonal down. */
  lemma PlaceInColumn(d: Desc, m: nat, n: nat) returns (k: nat, t: nat)
    requires Valid(d) && Holds(d, m, n)
    ensures n == Column(d, k) && k == n / d.gridCols && t < ColumnCount(d, k)
    ensures m == (RowsBelow(n, d.gridRows, d.rowRank) + t) * d.gridRows + d.rowRank
    ensures SlotOf(d, m, n) == ColumnStart(d, k) + t
  {
    HoldsByDimension(d, m, n);
    k := ColumnOf(d, n);
    DistanceIsCount(m, n, d.gridRows, d.rowRank);
    var i, s := RowsBelowSplit(m, d.gridRows, d.rowRank);
    NthRowOrder(i, m, d.lmt, d.gridRows, d.rowRank);
    RowsBelowMonotone(n, m, d.gridRows, d.rowRank);
    t := i - RowsBelow(n, d.gridRows, d.rowRank);
  }

  /** Whatever the shape, the slots of a rank's tiles follow its columns from left to right and each column
      from the diagonal down. */
  lemma SlotOrder(d: Desc, m: nat, n: nat, m': nat, n': nat)
    requires Valid(d) && Holds(d, m, n) && Holds(d, m', n')
    ensures n <= m && n' <= m'
    ensures SlotOf(d, m, n) < SlotOf(d, m', n') <==> n < n' || (n == n' && m < m')
  {
    HoldsByDimension(d, m, n);
    HoldsByDimension(d, m', n');
    if n < n' {
      LeftColumnFirst(d, m, n, m', n');
    } else if n' < n {
      LeftColumnFirst(d, m', n', m, n);
    } else {
      DownTheColumn(d, m, m', n);
    }
  }

  lemma LeftColumnFirst(d: Desc, m: nat, n: nat, m': nat, n': nat)
    requires Valid(d) && Holds(d, m, n) && Holds(d, m', n') && n <= m && n' <= m' && n < n'
    ensures SlotOf(d, m, n) < SlotOf(d, m', n')
  {
    var j, t := PlaceInColumn(d, m, n);
    var k, t' := PlaceInColumn(d, m', n');
    if k <= j {
      ColumnMonotone(d, k, j);
    }
    forall i: nat | i <= k
      ensures ColumnCount(d, i) >= 0
    {
      ColumnMonotone(d, i, k);
      RowsBelowMonotone(Column(d, i), Column(d, k), d.gridRows, d.rowRank);
    }
    StartMonotone(d, j + 1, k);
  }

  lemma DownTheColumn(d: Desc, m: nat, m': nat, n: nat)
    requires Valid(d) && Holds(d, m, n) && Holds(d, m', n) && n <= m && n <= m'
    ensures SlotOf(d, m, n) < SlotOf(d, m', n) <==> m < m'
  {
    var k, t := PlaceInColumn(d, m, n);
    var k', t' := PlaceInColumn(d, m', n);
    var above := RowsBelow(n, d.gridRows, d.rowRank);
    DivModOrder(m, above + t, d.rowRank, m', above + t', d.rowRank, d.gridRows);
  }

  /** Conversely every place of every counted column is a tile of the rank. */
  lemma TileInColumn(d: Desc, k: nat, t: nat, cols: nat) returns (m: nat)
    requires Valid(d) && IsColumns(d, cols) && k < cols && t < ColumnCount(d, k)
    ensures m == (RowsBelow(Column(d, k), d.gridRows, d.rowRank) + t) * d.gridRows + d.rowRank
    ensures Holds(d, m, Column(d, k)) && SlotOf(d, m, Column(d, k)) == ColumnStart(d, k) + t
  {
    var n := Column(d, k);
    var i := RowsBelow(n, d.gridRows, d.rowRank) + t;
    m := NthRow(i, d.gridRows, d.rowRank);
    NthRowOrder(i, m, d.lmt, d.gridRows, d.rowRank);
    NthRowOrder(i, m, n, d.gridRows, d.rowRank);
    DivModUnique(n, d.gridCols, k, d.colRank);
    ColumnIndex(d, n, cols);
    HoldsByDimension(d, m, n);
    DistanceIsCount(m, n, d.gridRows, d.rowRank);
  }

  datatype Tile = Tile(row: int, col: int)

  /** The `t`-th tile, from the diagonal down, of the rank's `k`-th column. */
  function TileOf(d: Desc, k: nat, t: int): Tile
    requires Valid(d)
  {
    Tile((RowsBelow(Column(d, k), d.gridRows, d.rowRank) + t) * d.gridRows + d.rowRank, Column(d, k))
  }

  /** Which tile a slot holds: skip whole columns, then count down from the diagonal. */
  function TileFrom(d: Desc, k: nat, s: int, cols: nat): Tile
    requires Valid(d)
    decreases cols - k
  {
    if k < cols && ColumnCount(d, k) <= s then TileFrom(d, k + 1, s - ColumnCount(d, k), cols)
    else TileOf(d, k, s)
  }

  lemma TileFromStep(d: Desc, k: nat, s: int, cols: nat)
    requires Valid(d)
    ensures k < cols && ColumnCount(d, k) <= s ==> TileFrom(d, k, s, cols) == TileFrom(d, k + 1, s - ColumnCount(d, k), cols)
    ensures s < ColumnCount(d, k) ==> TileFrom(d, k, s, cols) == TileOf(d, k, s)
    ensures ColumnStart(d, k + 1) == ColumnStart(d, k) + ColumnCount(d, k)
  {
  }

  /** From column `j` on, slot `s` is the `t`-th of column `k`. */
  lemma {:induction false} TileFromColumn(d: Desc, j: nat, k: nat, t: nat, s: int, cols: nat)
    requires Valid(d) && cols == Columns(d) && Countable(d) && j <= k < cols && t < ColumnCount(d, k)
    requires s == ColumnStart(d, k) - ColumnStart(d, j) + t
    ensures TileFrom(d, j, s, cols) == TileOf(d, k, t)
    decreases k - j
  {
    TileFromStep(d, j, s, cols);
    if j < k {
      CountsNonNegative(d, cols);
      StartMonotone(d, j + 1, k);
      TileFromColumn(d, j + 1, k, t, s - ColumnCount(d, j), cols);
    } else {
      assert s == t;
    }
  }

  lemma LocateColumn(d: Desc, s: nat, k: nat, cols: nat) returns (j: nat)
    requires Valid(d) && k <= cols && s < ColumnStart(d, cols) && ColumnStart(d, k) <= s
    ensures k <= j < cols && ColumnStart(d, j) <= s < ColumnStart(d, j) + ColumnCount(d, j)
    decreases cols - k
  {
    if k < cols && s < ColumnStart(d, k + 1) {
      j := k;
    } else {
      j := LocateColumn(d, s, k + 1, cols);
    }
  }

  /** Which tile a slot of the buffer holds. */
  function TileAt(d: Desc, s: int): Tile
    requires Valid(d)
  {
    TileFrom(d, 0, s, Columns(d))
  }

  /** The slots of the tiles the rank holds are exactly those of its buffer, each used once: the slot
      function and `TileAt` are inverse to each other. */
  ghost predicate Bijective(d: Desc)
    requires Valid(d)
  {
    && 0 <= Allocated(d)
    && (forall m: nat, n: nat :: Holds(d, m, n) ==> InBuffer(d, m, n))
    && (forall s: nat :: s < Allocated(d) ==> HoldsSlot(d, s))
  }

  predicate InBuffer(d: Desc, m: nat, n: nat)
    requires Valid(d)
  {
    n <= m && 0 <= SlotOf(d, m, n) < Allocated(d) && TileAt(d, SlotOf(d, m, n)) == Tile(m, n)
  }

  predicate HoldsSlot(d: Desc, s: nat)
    requires Valid(d)
  {
    var t := TileAt(d, s);
    Holds(d, t.row, t.col) && 0 <= t.col <= t.row && SlotOf(d, t.row, t.col) == s
  }

  /** For every matrix and grid the slots are a bijection onto the buffer if and only if the last column
      of the rank does not count negative. */
  lemma SlotIsBijection(d: Desc)
    requires Valid(d)
    ensures Bijective(d) <==> Countable(d)
  {
    if Countable(d) {
      forall m: nat, n: nat | Holds(d, m, n)
        ensures InBuffer(d, m, n)
      {
        TileToSlot(d, m, n, Columns(d));
      }
      forall s: nat | s < Allocated(d)
        ensures HoldsSlot(d, s)
      {
        SlotToTile(d, s, Columns(d));
      }
      CountsNonNegative(d, Columns(d));
      StartMonotone(d, 0, Columns(d));
    } else if 0 <= Allocated(d) {
      var m, n := TileOutside(d);
      assert !InBuffer(d, m, n);
    }
  }

  /** Above the bound: a column that ends past `bound`, if a later one starts there. */
  lemma PastBound(d: Desc, c: nat, bound: nat) returns (k: nat)
    requires Valid(d) && ColumnStart(d, c) > bound
    ensures k < c && ColumnCount(d, k) > 0 && ColumnStart(d, k) + ColumnCount(d, k) > bound
  {
    k := c - 1;
    if ColumnCount(d, k) <= 0 {
      k := PastBound(d, c - 1, bound);
    }
  }

  /** A negative count takes slots back that tiles of earlier columns use. */
  lemma TileOutside(d: Desc) returns (m: nat, n: nat)
    requires Valid(d) && !Countable(d) && 0 <= Allocated(d)
    ensures Holds(d, m, n) && n <= m && SlotOf(d, m, n) >= Allocated(d)
  {
    var cols := Columns(d);
    ColumnsAre(d);
    var k := PastBound(d, cols - 1, Allocated(d));
    n := Column(d, k);
    m := TileInColumn(d, k, ColumnCount(d, k) - 1, cols);
    HoldsByDimension(d, m, n);
  }

  lemma TileToSlot(d: Desc, m: nat, n: nat, cols: nat)
    requires Valid(d) && cols == Columns(d) && Countable(d) && Holds(d, m, n)
    ensures n <= m && 0 <= SlotOf(d, m, n) < ColumnStart(d, cols)
    ensures TileFrom(d, 0, SlotOf(d, m, n), cols) == Tile(m, n)
  {
    HoldsByDimension(d, m, n);
    ColumnsAre(d);
    ColumnIndex(d, n, cols);
    var k, t := PlaceInColumn(d, m, n);
    CountsNonNegative(d, cols);
    StartMonotone(d, 0, k);
    StartMonotone(d, k + 1, cols);
    TileFromColumn(d, 0, k, t, SlotOf(d, m, n), cols);
  }

  lemma SlotToTile(d: Desc, s: nat, cols: nat)
    requires Valid(d) && cols == Columns(d) && Countable(d) && s < ColumnStart(d, cols)
    ensures var t := TileFrom(d, 0, s, cols);
      Holds(d, t.row, t.col) && 0 <= t.col <= t.row && SlotOf(d, t.row, t.col) == s
  {
    ColumnsAre(d);
    var k := LocateColumn(d, s, 0, cols);
    var t := s - ColumnStart(d, k);
    TileFromColumn(d, 0, k, t, s, cols);
    var m := TileInColumn(d, k, t, cols);
  }

  /** Tiles of column `n` above row `x` that the rank holds, looked at one by one. */
  function HeldRows(d: Desc, x: nat, n: nat): nat
    requires Valid(d)
  {
    if x == 0 then 0 else HeldRows(d, x - 1, n) + (if Holds(d, x - 1, n) then 1 else 0)
  }

  /** Tiles that the rank holds in the columns before `y`. */
  function HeldTiles(d: Desc, y: nat): nat
    requires Valid(d)
  {
    if y == 0 then 0 else HeldTiles(d, y - 1) + HeldRows(d, d.lmt, y - 1)
  }

  /** The same number for the first `k` columns of the rank. */
  function HeldIn(d: Desc, k: nat): nat
    requires Valid(d)
  {
    if k == 0 then 0 else HeldIn(d, k - 1) + (if ColumnCount(d, k - 1) < 0 then 0 else ColumnCount(d, k - 1))
  }

  lemma HeldRowsAre(d: Desc, x: nat, n: nat)
    requires Valid(d) && x <= d.lmt && n < d.lnt
    ensures HeldRows(d, x, n) ==
      if n % d.gridCols == d.colRank && n < x
      then RowsBelow(x, d.gridRows, d.rowRank) - RowsBelow(n, d.gridRows, d.rowRank) else 0
  {
    if x > 0 {
      HeldRowsAre(d, x - 1, n);
      HoldsByDimension(d, x - 1, n);
      OneMoreRow(x - 1, d.gridRows, d.rowRank);
    }
  }

  lemma HeldColumn(d: Desc, n: nat, k: nat)
    requires Valid(d) && n < d.lnt && n == Column(d, k) && n % d.gridCols == d.colRank
    ensures HeldRows(d, d.lmt, n) == if ColumnCount(d, k) < 0 then 0 else ColumnCount(d, k)
  {
    HeldRowsAre(d, d.lmt, n);
    if d.lmt <= n {
      RowsBelowMonotone(d.lmt, n, d.gridRows, d.rowRank);
    } else {
      RowsBelowMonotone(n, d.lmt, d.gridRows, d.rowRank);
    }
  }

  lemma HeldByColumns(d: Desc, y: nat)
    requires Valid(d) && y <= d.lnt
    ensures HeldTiles(d, y) == HeldIn(d, RowsBelow(y, d.gridCols, d.colRank))
  {
    if y > 0 {
      HeldByColumns(d, y - 1);
      var n := y - 1;
      OneMoreRow(n, d.gridCols, d.colRank);
      if n % d.gridCols == d.colRank {
        var k := ColumnOf(d, n);
        var m := NthRow(k, d.gridCols, d.colRank);
        HeldColumn(d, n, k);
      } else {
        HeldRowsAre(d, d.lmt, n);
      }
    }
  }

  /** A matrix with more tile columns than rows can make the loop count too little: the allocation is the
      number of tiles held under exactly the same condition. */
  lemma TotalIsExactIff(d: Desc)
    requires Valid(d)
    ensures Allocated(d) == HeldTiles(d, d.lnt) <==> Countable(d)
  {
    var cols := Columns(d);
    HeldByColumns(d, d.lnt);
    TotalAtMostHeld(d, cols);
    if cols > 0 && ColumnCount(d, cols - 1) >= 0 {
      CountsDecrease(d, cols);
    }
  }

  lemma TotalAtMostHeld(d: Desc, k: nat)
    requires Valid(d)
    ensures ColumnStart(d, k) <= HeldIn(d, k)
    ensures k > 0 && ColumnCount(d, k - 1) < 0 ==> ColumnStart(d, k) < HeldIn(d, k)
  {
    if k > 0 {
      TotalAtMostHeld(d, k - 1);
    }
  }

  lemma CountsDecrease(d: Desc, k: nat)
    requires Valid(d) && k > 0 && ColumnCount(d, k - 1) >= 0
    ensures ColumnStart(d, k) == HeldIn(d, k)
  {
    if k > 1 {
      ColumnMonotone(d, k - 2, k - 1);
      RowsBelowMonotone(Column(d, k - 2), Column(d, k - 1), d.gridRows, d.rowRank);
      CountsDecrease(d, k - 1);
    }
  }

  /** One tile row, three tile columns, one rank: one tile to hold, none allocated. */
  lemma WideMatrixUndercounts(d: Desc)
    requires Valid(d) && d.gridRows == d.gridCols == 1 && d.lmt == 1 && d.lnt == 3
    ensures Holds(d, 0, 0) && HeldTiles(d, d.lnt) == 1 && Allocated(d) == 0 && !Countable(d)
  {
    HoldsByDimension(d, 0, 0);
    AllRows(d.lnt, d.gridCols, d.colRank);
    HeldByColumns(d, d.lnt);
    OneRank(d, 0);
    OneRank(d, 1);
    OneRank(d, 2);
  }

  lemma OneRank(d: Desc, k: nat)
    requires Valid(d) && d.gridRows == d.gridCols == 1 && d.lmt == 1
    ensures ColumnCount(d, k) == 1 - k
    ensures ColumnStart(d, k + 1) == ColumnStart(d, k) + 1 - k && ColumnStart(d, 0) == 0
    ensures HeldIn(d, k + 1) == HeldIn(d, k) + (if k > 1 then 0 else 1 - k) && HeldIn(d, 0) == 0
  {
    AllRows(d.lmt, d.gridRows, d.rowRank);
    AllRows(k, d.gridRows, d.rowRank);
  }

  lemma AllRows(x: nat, p: nat, r: nat)
    requires p == 1 && r == 0
    ensures RowsBelow(x, p, r) == x
  {
    if x > 0 {
      AllRows(x - 1, p, r);
      OneMoreRow(x - 1, p, r);
    }
  }
}
