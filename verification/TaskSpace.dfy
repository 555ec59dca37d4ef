/** The execution space of a task class: a list of definitions, each a range or an expression over the
    values of the earlier ones, and the integer key that the generated code gives to each task. */
module TaskSpace {
  import opened IntegerArithmetic

  /** Bounds and expressions read the values defined before. */
  datatype Def = Range(lo: seq<int> -> int, hi: seq<int> -> int) | Expr(value: seq<int> -> int)

  function Low(d: Def, before: seq<int>): int {
    if d.Range? then d.lo(before) else d.value(before)
  }

  function High(d: Def, before: seq<int>): int {
    if d.Range? then d.hi(before) else d.value(before)
  }

  /** The value of definition `i` is one that the definition allows. */
  predicate Allowed(defs: seq<Def>, v: seq<int>, i: nat)
    requires i < |defs| == |v|
  {
    Low(defs[i], v[..i]) <= v[i] <= High(defs[i], v[..i])
  }

  predicate InSpace(defs: seq<Def>, v: seq<int>) {
    |v| == |defs| && forall i :: 0 <= i < |defs| ==> Allowed(defs, v, i)
  }

  /** Number of values of definition `i`, given the earlier ones. */
  function Extent(defs: seq<Def>, v: seq<int>, i: nat): int
    requires i < |defs| == |v|
  {
    High(defs[i], v[..i]) - Low(defs[i], v[..i]) + 1
  }

  function Digit(defs: seq<Def>, v: seq<int>, i: nat): int
    requires i < |defs| == |v|
  {
    v[i] - Low(defs[i], v[..i])
  }

  /** The key of a task from definition `i` on: the first digit counts least. */
  function Key(defs: seq<Def>, v: seq<int>, i: nat): int
    requires i <= |defs| == |v|
    decreases |defs| - i
  {
    if i == |defs| then 0 else Digit(defs, v, i) + Extent(defs, v, i) * Key(defs, v, i + 1)
  }

  /** The generated hash: minima and ranges first, then one term per definition, multiplied by the
      ranges of all earlier ones. */
  method Hash(defs: seq<Def>, v: seq<int>) returns (h: int)
    requires |v| == |defs|
    ensures h == Key(defs, v, 0)
  {
    h := 0;
    var weight := 1;
    for i := 0 to |defs|
      invariant h + weight * Key(defs, v, i) == Key(defs, v, 0)
    {
      HashStep(h, weight, Digit(defs, v, i), Extent(defs, v, i), Key(defs, v, i + 1));
      h := h + (v[i] - Low(defs[i], v[..i])) * weight;
      weight := weight * Extent(defs, v, i);
    }
  }

  lemma HashStep(h: int, weight: int, digit: int, extent: int, rest: int)
    ensures h + weight * (digit + extent * rest) == (h + digit * weight) + (weight * extent) * rest
  {
    assert weight * (extent * rest) == (weight * extent) * rest;
  }

  /** Reads the values back, one definition after the other. */
  function Decode(defs: seq<Def>, before: seq<int>, key: int): seq<int>
    requires |before| <= |defs|
    decreases |defs| - |before|
  {
    var i := |before|;
    if i == |defs| then before
    else
      var low := Low(defs[i], before);
      var extent := High(defs[i], before) - low + 1;
      if extent <= 0 then before
      else Decode(defs, before + [low + key % extent], key / extent)
  }

  lemma KeyNonNegative(defs: seq<Def>, v: seq<int>, i: nat)
    requires InSpace(defs, v) && i <= |defs|
    ensures Key(defs, v, i) >= 0
    decreases |defs| - i
  {
    if i < |defs| {
      KeyNonNegative(defs, v, i + 1);
      assert Allowed(defs, v, i);
      MulLe(0, Extent(defs, v, i), Key(defs, v, i + 1));
    }
  }

  /** Decoding the key of a task gives the task back, whatever its bounds depend on. */
  lemma {:induction false} DecodeKey(defs: seq<Def>, v: seq<int>, i: nat)
    requires InSpace(defs, v) && i <= |defs|
    ensures Decode(defs, v[..i], Key(defs, v, i)) == v
    decreases |defs| - i
  {
    if i < |defs| {
      assert Allowed(defs, v, i);
      var extent, rest := Extent(defs, v, i), Key(defs, v, i + 1);
      DivModUnique(Key(defs, v, i), extent, rest, Digit(defs, v, i)) by {
        assert rest * extent == extent * rest;
      }
      assert v[..i] + [v[i]] == v[..i + 1];
      DecodeKey(defs, v, i + 1);
    } else {
      assert v[..i] == v;
    }
  }

  /** Two tasks of a class never share a key. */
  lemma HashInjective(defs: seq<Def>, v: seq<int>, w: seq<int>)
    requires InSpace(defs, v) && InSpace(defs, w) && Key(defs, v, 0) == Key(defs, w, 0)
    ensures v == w && Key(defs, v, 0) >= 0
  {
    DecodeKey(defs, v, 0);
    DecodeKey(defs, w, 0);
    KeyNonNegative(defs, v, 0);
    assert v[..0] == w[..0] == [];
  }

  /** The number of combinations of values from definition `i` on, with the bounds that task `v` sees. */
  function Volume(defs: seq<Def>, v: seq<int>, i: nat): int
    requires i <= |defs| == |v|
    decreases |defs| - i
  {
    if i == |defs| then 1 else Extent(defs, v, i) * Volume(defs, v, i + 1)
  }

  /** Keys waste no room: all are below the volume. */
  lemma {:induction false} KeyBelowVolume(defs: seq<Def>, v: seq<int>, i: nat)
    requires InSpace(defs, v) && i <= |defs|
    ensures 0 <= Key(defs, v, i) < Volume(defs, v, i)
    decreases |defs| - i
  {
    if i < |defs| {
      KeyNonNegative(defs, v, i);
      KeyBelowVolume(defs, v, i + 1);
      assert Allowed(defs, v, i);
      MulLe(Key(defs, v, i + 1) + 1, Volume(defs, v, i + 1), Extent(defs, v, i));
    }
  }

  /** The first definition counts least: tasks that agree in all later values are as far apart as their
      first values. */
  lemma FirstCountsLeast(defs: seq<Def>, v: seq<int>, w: seq<int>)
    requires |v| == |w| == |defs| > 0 && Key(defs, v, 1) == Key(defs, w, 1)
    ensures Key(defs, v, 0) - Key(defs, w, 0) == v[0] - w[0]
  {
    assert v[..0] == w[..0] == [];
  }
}
