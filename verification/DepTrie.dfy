/** The dependency arrays of a task class: a first pass over the execution space counts the tasks and
    bounds every definition, a second one allocates, level by level, only the arrays that some task
    needs. The generated loops become a recursion over the definitions with one loop per range. */
module DepTrie {
  import opened IntegerArithmetic
  import opened TaskSpace
  import opened ReleaseCell

  /** A task class: its definitions and the predicate of its tasks. */
  datatype Class = Class(defs: seq<Def>, pred: seq<int> -> bool)

  ghost predicate Task(c: Class, v: seq<int>) {
    InSpace(c.defs, v) && c.pred(v)
  }

  predicate Prefix(p: seq<int>, v: seq<int>) {
    |p| <= |v| && v[..|p|] == p
  }

  /** The tasks that extend `p`; `limit` cuts the values that follow `p`. */
  ghost predicate Below(c: Class, p: seq<int>, limit: int, v: seq<int>) {
    Task(c, v) && |p| < |v| && Prefix(p, v) && v[|p|] < limit
  }

  /** `p` is a beginning of some point of the space. */
  ghost predicate Started(c: Class, p: seq<int>) {
    |p| <= |c.defs| && forall i :: 0 <= i < |p| ==> Low(c.defs[i], p[..i]) <= p[i] <= High(c.defs[i], p[..i])
  }

  lemma StartedNext(c: Class, p: seq<int>, x: int)
    requires Started(c, p) && |p| < |c.defs| && Low(c.defs[|p|], p) <= x <= High(c.defs[|p|], p)
    ensures Started(c, p + [x])
  {
    var q := p + [x];
    assert q[..|p|] == p;
    assert forall i :: 0 <= i < |p| ==> q[..i] == p[..i];
  }

  lemma StartedPoint(c: Class, v: seq<int>)
    requires |v| == |c.defs|
    ensures Started(c, v) <==> InSpace(c.defs, v)
  {
    if Started(c, v) {
      assert forall i :: 0 <= i < |v| ==> Allowed(c.defs, v, i);
    }
    if InSpace(c.defs, v) {
      forall i | 0 <= i < |v|
        ensures Low(c.defs[i], v[..i]) <= v[i] <= High(c.defs[i], v[..i])
      {
        assert Allowed(c.defs, v, i);
      }
    }
  }

  // ------------------------------------------------------------------ first pass

  const INT_MAX := 0x7fff_ffff

  /** What the first pass has gathered. */
  datatype Bounds = Bounds(count: nat, mins: seq<int>, maxs: seq<int>)

  function Min(a: int, b: int): int {
    if a < b then a else b
  }

  function Max(a: int, b: int): int {
    if a > b then a else b
  }

  ghost predicate Bounded(n: nat, b: Bounds, v: seq<int>) {
    |v| == |b.mins| == |b.maxs| == n && forall i :: 0 <= i < n ==> b.mins[i] <= v[i] <= b.maxs[i]
  }

  /** The bounds start at the largest and at zero, and otherwise are values that some task has. */
  ghost predicate Attained(n: nat, b: Bounds, tasks: set<seq<int>>) {
    && |b.mins| == |b.maxs| == n
    && (forall i :: 0 <= i < n ==> b.mins[i] == INT_MAX || exists v <- tasks :: i < |v| && v[i] == b.mins[i])
    && (forall i :: 0 <= i < n ==> b.maxs[i] == 0 || exists v <- tasks :: i < |v| && v[i] == b.maxs[i])
  }

  /** `b` counts and bounds exactly the points of `tasks`. */
  ghost predicate Gathered(n: nat, b: Bounds, tasks: set<seq<int>>) {
    && b.count == |tasks| && |b.mins| == |b.maxs| == n
    && (forall v <- tasks :: Bounded(n, b, v))
    && Attained(n, b, tasks)
  }

  function Widen(b: Bounds, v: seq<int>): Bounds
    requires |v| == |b.mins| == |b.maxs|
  {
    Bounds(b.count + 1,
           seq(|v|, i requires 0 <= i < |v| => Min(b.mins[i], v[i])),
           seq(|v|, i requires 0 <= i < |v| => Max(b.maxs[i], v[i])))
  }

  lemma WidenGathers(n: nat, b: Bounds, tasks: set<seq<int>>, v: seq<int>)
    requires Gathered(n, b, tasks) && |v| == n && v !in tasks
    ensures Gathered(n, Widen(b, v), tasks + {v})
  {
    var b', tasks' := Widen(b, v), tasks + {v};
    forall w | w in tasks'
      ensures Bounded(n, b', w)
    {
      assert w != v ==> Bounded(n, b, w);
    }
    forall i | 0 <= i < n
      ensures b'.mins[i] == INT_MAX || exists w <- tasks' :: i < |w| && w[i] == b'.mins[i]
      ensures b'.maxs[i] == 0 || exists w <- tasks' :: i < |w| && w[i] == b'.maxs[i]
    {
      if b'.mins[i] == v[i] || b'.maxs[i] == v[i] {
        assert v in tasks' && i < |v|;
      }
    }
  }

  /** The loops from definition `|p|` on, inside the loops that gave `p` its values. */
  method FirstPass(c: Class, p: seq<int>, b0: Bounds, ghost tasks0: set<seq<int>>)
    returns (b: Bounds, ghost tasks: set<seq<int>>)
    requires Started(c, p) && Gathered(|c.defs|, b0, tasks0) && forall v <- tasks0 :: !Prefix(p, v)
    ensures Gathered(|c.defs|, b, tasks)
    ensures forall v :: v in tasks <==> v in tasks0 || (Task(c, v) && Prefix(p, v))
    decreases |c.defs| - |p|
  {
    b, tasks := b0, tasks0;
    if |p| == |c.defs| {
      StartedPoint(c, p);
      if c.pred(p) {
        WidenGathers(|c.defs|, b, tasks, p);
        b, tasks := Widen(b, p), tasks + {p};
      }
      OnlyPoint(c, p);
    } else {
      var x, end := Low(c.defs[|p|], p), High(c.defs[|p|], p);
      ghost var start := x;
      NothingBelow(c, p, start);
      while x <= end
        invariant x >= start && Gathered(|c.defs|, b, tasks)
        invariant forall v :: v in tasks <==> v in tasks0 || Below(c, p, x, v)
        decreases end + 1 - x
      {
        StartedNext(c, p, x);
        NotYet(c, p, x, tasks0, tasks);
        b, tasks := FirstPass(c, p + [x], b, tasks);
        OneMoreValue(c, p, x);
        x := x + 1;
      }
      NothingAbove(c, p, x);
    }
  }

  lemma OnlyPoint(c: Class, p: seq<int>)
    requires |p| == |c.defs|
    ensures forall v :: Task(c, v) && Prefix(p, v) <==> v == p && Task(c, p)
  {
    forall v | |v| == |p| && Prefix(p, v)
      ensures v == p
    {
      assert v[..|p|] == v;
    }
    assert Prefix(p, p) by { assert p[..|p|] == p; }
  }

  lemma NothingBelow(c: Class, p: seq<int>, x: int)
    requires |p| < |c.defs| && x == Low(c.defs[|p|], p)
    ensures forall v :: !Below(c, p, x, v)
  {
    forall v
      ensures !Below(c, p, x, v)
    {
      if Task(c, v) && Prefix(p, v) {
        assert Allowed(c.defs, v, |p|);
      }
    }
  }

  lemma NothingAbove(c: Class, p: seq<int>, x: int)
    requires |p| < |c.defs| && x > High(c.defs[|p|], p)
    ensures forall v :: Below(c, p, x, v) <==> Task(c, v) && Prefix(p, v)
  {
    forall v | Task(c, v) && Prefix(p, v)
      ensures Below(c, p, x, v)
    {
      assert Allowed(c.defs, v, |p|);
    }
  }

  lemma OneMoreValue(c: Class, p: seq<int>, x: int)
    requires |p| < |c.defs|
    ensures forall v :: Below(c, p, x + 1, v) <==> Below(c, p, x, v) || (Task(c, v) && Prefix(p + [x], v))
  {
    forall v
      ensures Below(c, p, x + 1, v) <==> Below(c, p, x, v) || (Task(c, v) && Prefix(p + [x], v))
    {
      NextPrefix(p, x, v);
    }
  }

  lemma NextPrefix(p: seq<int>, x: int, v: seq<int>)
    ensures Prefix(p + [x], v) <==> |p| < |v| && Prefix(p, v) && v[|p|] == x
  {
    if |p| < |v| {
      assert v[..|p| + 1] == v[..|p|] + [v[|p|]];
      if Prefix(p + [x], v) {
        assert (p + [x])[..|p|] == p && (p + [x])[|p|] == x;
      }
    }
  }

  lemma NotYet(c: Class, p: seq<int>, x: int, tasks0: set<seq<int>>, tasks: set<seq<int>>)
    requires |p| < |c.defs| && (forall v <- tasks0 :: !Prefix(p, v))
    requires forall v :: v in tasks <==> v in tasks0 || Below(c, p, x, v)
    ensures forall v <- tasks :: !Prefix(p + [x], v)
  {
    forall v | v in tasks
      ensures !Prefix(p + [x], v)
    {
      NextPrefix(p, x, v);
    }
  }

  /** `b` has the number and the bounds of all tasks of the class. */
  ghost predicate Describes(c: Class, b: Bounds) {
    exists tasks :: AllTasks(c, tasks) && Gathered(|c.defs|, b, tasks)
  }

  ghost predicate AllTasks(c: Class, tasks: set<seq<int>>) {
    forall v :: v in tasks <==> Task(c, v)
  }

  /** The counting pass: as many tasks as there are points of the space that satisfy the predicate. */
  method CountTasks(c: Class) returns (b: Bounds)
    ensures Describes(c, b)
  {
    var n := |c.defs|;
    b := Bounds(0, seq(n, _ => INT_MAX), seq(n, _ => 0));
    ghost var tasks;
    b, tasks := FirstPass(c, [], b, {});
    assert AllTasks(c, tasks);
  }

  // ------------------------------------------------------------------ the arrays

  /** An array of the level of one definition, indexed from its minimum; the innermost level holds the
      dependency words. */
  datatype Deps =
    | Null
    | Next(min: int, max: int, next: seq<Deps>)
    | Final(min: int, max: int, words: seq<nat>)

  /** One calloc: a slot for every value between the bounds. */
  function Allocate(b: Bounds, d: nat): Deps
    requires d < |b.mins| == |b.maxs| && b.mins[d] <= b.maxs[d]
  {
    var size := b.maxs[d] - b.mins[d] + 1;
    if d == |b.mins| - 1 then Final(b.mins[d], b.maxs[d], seq(size, _ => 0))
    else Next(b.mins[d], b.maxs[d], seq(size, _ => Null))
  }

  /** Arrays below level `d` have the bounds of their definition, and the innermost ones no more levels. */
  predicate WellShaped(t: Deps, b: Bounds, d: nat)
    requires d < |b.mins| == |b.maxs|
    decreases |b.mins| - d
  {
    match t
    case Null => true
    case Next(lo, hi, next) =>
      && d < |b.mins| - 1 && lo == b.mins[d] && hi == b.maxs[d] && |next| == hi - lo + 1
      && forall i :: 0 <= i < |next| ==> WellShaped(next[i], b, d + 1)
    case Final(lo, hi, words) =>
      d == |b.mins| - 1 && lo == b.mins[d] && hi == b.maxs[d] && |words| == hi - lo + 1
  }

  /** Follows one value per level; `Null` as soon as there is no array or no such slot. */
  function Walk(t: Deps, path: seq<int>): Deps {
    if path == [] then t
    else if t.Next? && t.min <= path[0] <= t.max && path[0] - t.min < |t.next| then
      Walk(t.next[path[0] - t.min], path[1..])
    else Null
  }

  /** Allocates what is missing on the way to the innermost array of `v`. */
  function Insert(t: Deps, b: Bounds, d: nat, v: seq<int>): (r: Deps)
    requires Bounded(|b.mins|, b, v) && d < |b.mins| && WellShaped(t, b, d)
    ensures WellShaped(r, b, d) && !r.Null?
    decreases |b.mins| - d
  {
    var here := if t.Null? then Allocate(b, d) else t;
    if d == |b.mins| - 1 then here
    else
      var i := v[d] - here.min;
      here.(next := here.next[i := Insert(here.next[i], b, d + 1, v)])
  }

  lemma WalkNull(path: seq<int>)
    ensures Walk(Null, path) == Null
  {
  }

  lemma WalkStep(t: Deps, path: seq<int>)
    requires path != []
    ensures Walk(t, path) ==
      if t.Next? && t.min <= path[0] <= t.max && path[0] - t.min < |t.next| then Walk(t.next[path[0] - t.min], path[1..])
      else Null
  {
  }

  /** One level down, only the slot of `v` changes. */
  lemma InsertStep(t: Deps, b: Bounds, d: nat, v: seq<int>, path: seq<int>) returns (sub: Deps)
    requires Bounded(|b.mins|, b, v) && d < |b.mins| - 1 && WellShaped(t, b, d) && path != []
    ensures WellShaped(sub, b, d + 1)
    ensures path[0] == v[d] ==> Walk(t, path) == Walk(sub, path[1..])
    ensures path[0] == v[d] ==> Walk(Insert(t, b, d, v), path) == Walk(Insert(sub, b, d + 1, v), path[1..])
    ensures path[0] != v[d] ==> Walk(Insert(t, b, d, v), path) == Walk(t, path)
  {
    var here := if t.Null? then Allocate(b, d) else t;
    sub := here.next[v[d] - here.min];
    WalkNull(path[1..]);
    WalkStep(here, path);
    WalkStep(Insert(t, b, d, v), path);
  }

  /** Exactly one more path leads to an innermost array. */
  lemma {:induction false} InsertWalk(t: Deps, b: Bounds, d: nat, v: seq<int>, path: seq<int>)
    requires Bounded(|b.mins|, b, v) && d < |b.mins| && WellShaped(t, b, d) && |path| == |b.mins| - 1 - d
    ensures Walk(Insert(t, b, d, v), path).Final? <==> Walk(t, path).Final? || path == v[d..|b.mins| - 1]
    decreases |b.mins| - d
  {
    if path == [] {
      assert v[d..|b.mins| - 1] == [];
    } else {
      var sub := InsertStep(t, b, d, v, path);
      SplitFirst(path, v, d, |b.mins| - 1);
      if path[0] == v[d] {
        InsertWalk(sub, b, d + 1, v, path[1..]);
      }
    }
  }

  lemma SplitFirst(path: seq<int>, v: seq<int>, d: nat, n: nat)
    requires path != [] && d < n <= |v|
    ensures path == v[d..n] <==> path[0] == v[d] && path[1..] == v[d + 1..n]
  {
    assert v[d..n] == [v[d]] + v[d + 1..n];
    assert path == [path[0]] + path[1..];
  }

  /** All dependency words that some path leads to are 0. */
  ghost predicate Blank(t: Deps) {
    forall path :: BlankAt(Walk(t, path))
  }

  predicate BlankAt(t: Deps) {
    t.Final? ==> forall i :: 0 <= i < |t.words| ==> t.words[i] == 0
  }

  /** A new array is blank, and so is everything below what is blank. */
  lemma AllocateBlank(b: Bounds, d: nat)
    requires d < |b.mins| == |b.maxs| && b.mins[d] <= b.maxs[d]
    ensures Blank(Allocate(b, d))
  {
    var t := Allocate(b, d);
    forall path
      ensures BlankAt(Walk(t, path))
    {
      if path != [] && t.Next? && t.min <= path[0] <= t.max {
        WalkNull(path[1..]);
      }
    }
  }

  lemma BlankBelow(t: Deps, i: nat)
    requires Blank(t) && t.Next? && i < |t.next| == t.max - t.min + 1
    ensures Blank(t.next[i])
  {
    forall path
      ensures BlankAt(Walk(t.next[i], path))
    {
      var q := [t.min + i] + path;
      assert q[1..] == path;
      assert BlankAt(Walk(t, q));
    }
  }

  /** Opening the way to a task does not touch a word that is there, and new ones are 0. */
  lemma {:induction false} InsertBlank(t: Deps, b: Bounds, d: nat, v: seq<int>)
    requires Bounded(|b.mins|, b, v) && d < |b.mins| && WellShaped(t, b, d) && Blank(t)
    ensures Blank(Insert(t, b, d, v))
    decreases |b.mins| - d
  {
    var here := if t.Null? then Allocate(b, d) else t;
    if t.Null? {
      AllocateBlank(b, d);
    }
    if d < |b.mins| - 1 {
      var i := v[d] - here.min;
      BlankBelow(here, i);
      InsertBlank(here.next[i], b, d + 1, v);
      var r := Insert(t, b, d, v);
      forall path
        ensures BlankAt(Walk(r, path))
      {
        assert BlankAt(Walk(here, path));
        if path != [] && path[0] == v[d] {
          assert BlankAt(Walk(r.next[i], path[1..]));
        }
      }
    }
  }

  // ------------------------------------------------------------------ second pass

  /** The last definition that is a range: `break` leaves its loop. */
  predicate LastRange(c: Class, last: nat) {
    last < |c.defs| && c.defs[last].Range? && forall i :: last < i < |c.defs| ==> c.defs[i].Expr?
  }

  /** Two tasks with the same values before the last range. */
  ghost predicate Rivals(c: Class, last: nat, v: seq<int>, w: seq<int>) {
    Task(c, v) && Task(c, w) && last < |c.defs| && v[..last] == w[..last]
  }

  /** The first task in the loop of the last range: the only one of that loop for which arrays are allocated. */
  ghost predicate First(c: Class, last: nat, v: seq<int>) {
    Task(c, v) && last < |c.defs| && forall w :: Rivals(c, last, v, w) ==> v[last] <= w[last]
  }

  /** The tasks below `p` for which arrays are allocated. */
  ghost predicate Opens(c: Class, last: nat, p: seq<int>, v: seq<int>) {
    Task(c, v) && Prefix(p, v) && (|p| <= last ==> First(c, last, v))
  }

  ghost predicate HasTask(c: Class, p: seq<int>) {
    exists v :: Task(c, v) && Prefix(p, v)
  }

  /** No task extends `p` with a value below `x`. */
  ghost predicate Clear(c: Class, p: seq<int>, x: int) {
    forall v :: !Below(c, p, x, v)
  }

  /** `q`, the values of all definitions but the innermost, is the way to one of these arrays. */
  ghost predicate LeadsTo(c: Class, last: nat, p: seq<int>, q: seq<int>) {
    exists v :: Opens(c, last, p, v) && v[..|c.defs| - 1] == q
  }

  ghost predicate LeadsBelow(c: Class, last: nat, p: seq<int>, x: int, q: seq<int>) {
    exists v :: Opens(c, last, p, v) && |p| < |v| && v[|p|] < x && v[..|c.defs| - 1] == q
  }

  predicate Innermost(t: Deps, q: seq<int>) {
    Walk(t, q).Final?
  }

  /** The second run through the loops, cut to the bounds; `broke` tells the enclosing loop to stop. */
  method SecondPass(c: Class, b: Bounds, last: nat, p: seq<int>, t0: Deps) returns (t: Deps, broke: bool)
    requires Started(c, p) && LastRange(c, last) && |b.mins| == |b.maxs| == |c.defs|
    requires (forall v :: Task(c, v) ==> Bounded(|c.defs|, b, v)) && WellShaped(t0, b, 0) && Blank(t0)
    ensures WellShaped(t, b, 0) && Blank(t)
    ensures broke <==> |p| > last && HasTask(c, p)
    ensures forall q :: |q| == |c.defs| - 1 ==> (Innermost(t, q) <==> Innermost(t0, q) || LeadsTo(c, last, p, q))
    decreases |c.defs| - |p|, 1
  {
    t, broke := t0, false;
    if |p| == |c.defs| {
      StartedPoint(c, p);
      OnlyPoint(c, p);
      assert HasTask(c, p) <==> Task(c, p);
      if c.pred(p) {
        InsertBlank(t, b, 0, p);
        t, broke := Insert(t, b, 0, p), true;
        InsertedPoint(c, b, last, p, t0);
      }
    } else if c.defs[|p|].Expr? {
      StartedNext(c, p, c.defs[|p|].value(p));
      SameTasks(c, last, p);
      t, broke := SecondPass(c, b, last, p + [c.defs[|p|].value(p)], t);
    } else {
      t := PassRange(c, b, last, p, t);
    }
  }

  lemma InsertedPoint(c: Class, b: Bounds, last: nat, p: seq<int>, t: Deps)
    requires Task(c, p) && Bounded(|c.defs|, b, p) && |b.mins| == |c.defs| > last && WellShaped(t, b, 0)
    ensures forall q :: |q| == |c.defs| - 1 ==>
      (Innermost(Insert(t, b, 0, p), q) <==> Innermost(t, q) || LeadsTo(c, last, p, q))
  {
    OnlyPoint(c, p);
    assert Opens(c, last, p, p);
    forall q | |q| == |c.defs| - 1
      ensures Innermost(Insert(t, b, 0, p), q) <==> Innermost(t, q) || LeadsTo(c, last, p, q)
    {
      InsertWalk(t, b, 0, p, q);
      assert p[0..|c.defs| - 1] == p[..|c.defs| - 1];
    }
  }

  /** An expression leaves its tasks with one value. */
  lemma SameTasks(c: Class, last: nat, p: seq<int>)
    requires |p| < |c.defs| && c.defs[|p|].Expr? && LastRange(c, last)
    ensures var x := c.defs[|p|].value(p);
      && (HasTask(c, p) <==> HasTask(c, p + [x]))
      && (forall q :: LeadsTo(c, last, p, q) <==> LeadsTo(c, last, p + [x], q))
  {
    var x := c.defs[|p|].value(p);
    forall v | Task(c, v)
      ensures Prefix(p, v) <==> Prefix(p + [x], v)
    {
      NextPrefix(p, x, v);
      assert Allowed(c.defs, v, |p|);
    }
    forall v
      ensures Opens(c, last, p, v) <==> Opens(c, last, p + [x], v)
    {
    }
  }

  /** One loop of the second run. */
  method PassRange(c: Class, b: Bounds, last: nat, p: seq<int>, t0: Deps) returns (t: Deps)
    requires Started(c, p) && LastRange(c, last) && |b.mins| == |b.maxs| == |c.defs|
    requires (forall v :: Task(c, v) ==> Bounded(|c.defs|, b, v)) && WellShaped(t0, b, 0) && Blank(t0)
    requires |p| < |c.defs| && c.defs[|p|].Range?
    ensures WellShaped(t, b, 0) && Blank(t)
    ensures forall q :: |q| == |c.defs| - 1 ==> (Innermost(t, q) <==> Innermost(t0, q) || LeadsTo(c, last, p, q))
    decreases |c.defs| - |p|, 0
  {
    var d := |p|;
    var x, stop := Max(c.defs[d].lo(p), b.mins[d]), Min(c.defs[d].hi(p), b.maxs[d]);
    ghost var start := x;
    t := t0;
    NoneBefore(c, b, last, p, start);
    while x <= stop
      invariant x >= start && WellShaped(t, b, 0) && Blank(t)
      invariant d == last ==> Clear(c, p, x)
      invariant forall q :: |q| == |c.defs| - 1 ==> (Innermost(t, q) <==> Innermost(t0, q) || LeadsBelow(c, last, p, x, q))
      decreases stop + 1 - x
    {
      StartedNext(c, p, x);
      NextValue(c, last, p, x);
      var broke;
      t, broke := SecondPass(c, b, last, p + [x], t);
      if broke {
        assert d == last;
        FoundFirst(c, last, p, x);
        return;
      }
      x := x + 1;
    }
    NoneAfter(c, b, last, p, x);
  }

  lemma NoneBefore(c: Class, b: Bounds, last: nat, p: seq<int>, x: int)
    requires |p| < |c.defs| && c.defs[|p|].Range? && |b.mins| == |b.maxs| == |c.defs|
    requires x == Max(c.defs[|p|].lo(p), b.mins[|p|]) && forall v :: Task(c, v) ==> Bounded(|c.defs|, b, v)
    ensures Clear(c, p, x)
    ensures forall q :: !LeadsBelow(c, last, p, x, q)
  {
    forall v
      ensures !Below(c, p, x, v)
    {
      if Task(c, v) && Prefix(p, v) {
        assert Allowed(c.defs, v, |p|) && Bounded(|c.defs|, b, v);
      }
    }
    forall v | Opens(c, last, p, v) && |p| < |v|
      ensures v[|p|] >= x
    {
      assert !Below(c, p, x, v);
    }
  }

  lemma NoneAfter(c: Class, b: Bounds, last: nat, p: seq<int>, x: int)
    requires |p| < |c.defs| && c.defs[|p|].Range? && |b.mins| == |b.maxs| == |c.defs|
    requires x > Min(c.defs[|p|].hi(p), b.maxs[|p|]) && forall v :: Task(c, v) ==> Bounded(|c.defs|, b, v)
    ensures forall q :: LeadsBelow(c, last, p, x, q) <==> LeadsTo(c, last, p, q)
  {
    forall v | Opens(c, last, p, v)
      ensures |p| < |v| && v[|p|] < x
    {
      assert Allowed(c.defs, v, |p|) && Bounded(|c.defs|, b, v);
    }
  }

  lemma NextValue(c: Class, last: nat, p: seq<int>, x: int)
    requires |p| < |c.defs| && LastRange(c, last) && |p| <= last
    requires |p| == last ==> Clear(c, p, x)
    ensures |p| < last ==> forall q :: LeadsBelow(c, last, p, x + 1, q) <==>
      LeadsBelow(c, last, p, x, q) || LeadsTo(c, last, p + [x], q)
    ensures |p| == last && !HasTask(c, p + [x]) ==> Clear(c, p, x + 1)
    ensures |p| == last && !HasTask(c, p + [x]) ==> forall q ::
      !LeadsTo(c, last, p + [x], q) && (LeadsBelow(c, last, p, x + 1, q) <==> LeadsBelow(c, last, p, x, q))
  {
    OneMoreValue(c, p, x);
    forall v | |p| < last
      ensures Opens(c, last, p + [x], v) <==> Opens(c, last, p, v) && |p| < |v| && v[|p|] == x
    {
      NextPrefix(p, x, v);
    }
  }

  /** The first value of the last range that has a task is where the arrays of its tasks come from. */
  lemma FoundFirst(c: Class, last: nat, p: seq<int>, x: int)
    requires LastRange(c, last) && |p| == last && Clear(c, p, x) && HasTask(c, p + [x])
    ensures forall q :: LeadsTo(c, last, p, q) <==> LeadsTo(c, last, p + [x], q)
    ensures forall q :: !LeadsBelow(c, last, p, x, q)
  {
    var v0 :| Task(c, v0) && Prefix(p + [x], v0);
    NextPrefix(p, x, v0);
    forall v
      ensures Opens(c, last, p, v) <==> Opens(c, last, p + [x], v)
    {
      NextPrefix(p, x, v);
      if Opens(c, last, p, v) {
        assert Rivals(c, last, v, v0);
        assert !Below(c, p, x, v);
      }
      if Opens(c, last, p + [x], v) {
        forall w | Rivals(c, last, v, w)
          ensures v[last] <= w[last]
        {
          assert !Below(c, p, x, w);
        }
      }
    }
    forall v | Opens(c, last, p, v) && |p| < |v|
      ensures v[|p|] >= x
    {
      assert !Below(c, p, x, v);
    }
  }

  // ------------------------------------------------------------------ the whole initialisation

  /** Number of tasks of the class and its dependency arrays. */
  method Initialise(c: Class, last: nat) returns (nbTasks: nat, t: Deps)
    requires LastRange(c, last)
    ensures exists b :: Describes(c, b) && nbTasks == b.count && Allocated(c, last, b, t)
    ensures Blank(t)
  {
    var b := CountTasks(c);
    ghost var tasks :| AllTasks(c, tasks) && Gathered(|c.defs|, b, tasks);
    nbTasks := b.count;
    t := Null;
    forall path
      ensures BlankAt(Walk(Null, path))
    {
      WalkNull(path);
    }
    if |c.defs| == 1 {
      if nbTasks != 0 {
        ghost var v :| v in tasks;
        assert Bounded(1, b, v);
        t := Allocate(b, 0);
        AllocateBlank(b, 0);
      }
      SingleDefinition(c, last, t, tasks);
    } else {
      var broke;
      t, broke := SecondPass(c, b, last, [], t);
      forall q | |q| == |c.defs| - 1
        ensures Innermost(t, q) <==> LeadsTo(c, last, [], q)
      {
        WalkNull(q);
      }
    }
    assert Allocated(c, last, b, t);
  }

  /** The arrays have the bounds of the tasks and exactly the paths that the second run opens. */
  ghost predicate Allocated(c: Class, last: nat, b: Bounds, t: Deps) {
    && |b.mins| == |b.maxs| == |c.defs| > 0 && WellShaped(t, b, 0)
    && (forall v :: Task(c, v) ==> Bounded(|c.defs|, b, v))
    && forall q :: |q| == |c.defs| - 1 ==> (Innermost(t, q) <==> LeadsTo(c, last, [], q))
  }

  lemma SingleDefinition(c: Class, last: nat, t: Deps, tasks: set<seq<int>>)
    requires LastRange(c, last) && |c.defs| == 1 && AllTasks(c, tasks)
    requires if tasks == {} then t.Null? else t.Final?
    ensures forall q :: |q| == 0 ==> (Innermost(t, q) <==> LeadsTo(c, last, [], q))
  {
    if tasks != {} {
      var v :| v in tasks;
      var f := FirstOf(c, last, v);
      assert Opens(c, last, [], f) && f[..0] == [];
    }
  }

  /** Among the tasks that share the values before the last range, one is first. */
  lemma FirstOf(c: Class, last: nat, v: seq<int>) returns (f: seq<int>)
    requires LastRange(c, last) && Task(c, v)
    ensures First(c, last, f) && Rivals(c, last, v, f)
    decreases v[last] - Low(c.defs[last], v[..last])
  {
    if First(c, last, v) {
      f := v;
    } else {
      var w :| Rivals(c, last, v, w) && w[last] < v[last];
      assert Allowed(c.defs, w, last);
      f := FirstOf(c, last, w);
    }
  }

  /** Past the last range, the values are determined. */
  lemma Determined(c: Class, last: nat, v: seq<int>, w: seq<int>, i: nat)
    requires LastRange(c, last) && Task(c, v) && Task(c, w) && last < i <= |c.defs| && v[..last + 1] == w[..last + 1]
    ensures v[..i] == w[..i]
  {
    if i > last + 1 {
      Determined(c, last, v, w, i - 1);
      assert Allowed(c.defs, v, i - 1) && Allowed(c.defs, w, i - 1);
      assert v[..i] == v[..i - 1] + [v[i - 1]] && w[..i] == w[..i - 1] + [w[i - 1]];
    }
  }

  /** What the runtime needs: from the values of a task, an innermost array and an index within it. */
  ghost predicate Reached(c: Class, t: Deps, v: seq<int>) {
    && |v| == |c.defs| > 0
    && var a := Walk(t, v[..|c.defs| - 1]);
       a.Final? && 0 <= v[|c.defs| - 1] - a.min < |a.words|
  }

  lemma WalkShape(t: Deps, b: Bounds, d: nat, path: seq<int>)
    requires d < |b.mins| == |b.maxs| && WellShaped(t, b, d) && |path| == |b.mins| - 1 - d
    ensures WellShaped(Walk(t, path), b, |b.mins| - 1)
    decreases |b.mins| - d
  {
    if path != [] && t.Next? && t.min <= path[0] <= t.max {
      WalkShape(t.next[path[0] - t.min], b, d + 1, path[1..]);
    }
  }

  lemma ReachedIffPath(c: Class, last: nat, b: Bounds, t: Deps, v: seq<int>)
    requires Allocated(c, last, b, t) && Task(c, v)
    ensures Reached(c, t, v) <==> LeadsTo(c, last, [], v[..|c.defs| - 1])
  {
    WalkShape(t, b, 0, v[..|c.defs| - 1]);
    assert Bounded(|c.defs|, b, v);
    assert Innermost(t, v[..|c.defs| - 1]) <==> LeadsTo(c, last, [], v[..|c.defs| - 1]);
  }

  /** When the innermost definition is a range, every task finds its dependency word, at any depth. */
  lemma EveryTaskReached(c: Class, last: nat, b: Bounds, t: Deps, v: seq<int>)
    requires LastRange(c, last) && Allocated(c, last, b, t) && last == |c.defs| - 1 && Task(c, v)
    ensures Reached(c, t, v)
  {
    ReachedIffPath(c, last, b, t, v);
    var f := FirstOf(c, last, v);
    assert Opens(c, last, [], f);
  }

  /** Otherwise the `break` leaves the loop of a definition that is not the innermost: every task is
      reached if and only if no two tasks share the values before the last range. */
  lemma ReachedIffAlone(c: Class, last: nat, b: Bounds, t: Deps)
    requires LastRange(c, last) && Allocated(c, last, b, t) && last < |c.defs| - 1
    ensures (forall v :: Task(c, v) ==> Reached(c, t, v)) <==> (forall v, w :: Rivals(c, last, v, w) ==> v == w)
  {
    if forall v, w :: Rivals(c, last, v, w) ==> v == w {
      forall v | Task(c, v)
        ensures Reached(c, t, v)
      {
        var f := FirstOf(c, last, v);
        ReachedIffPath(c, last, b, t, v);
        assert Opens(c, last, [], f);
      }
    }
    if forall v :: Task(c, v) ==> Reached(c, t, v) {
      forall v, w | Rivals(c, last, v, w)
        ensures v == w
      {
        ReachedRivals(c, last, b, t, v, w);
      }
    }
  }

  lemma ReachedIsFirst(c: Class, last: nat, b: Bounds, t: Deps, v: seq<int>)
    requires LastRange(c, last) && Allocated(c, last, b, t) && last < |c.defs| - 1 && Task(c, v) && Reached(c, t, v)
    ensures First(c, last, v)
  {
    ReachedIffPath(c, last, b, t, v);
    var n := |c.defs| - 1;
    var f :| Opens(c, last, [], f) && f[..n] == v[..n];
    ShorterPrefix(f, v, n, last + 1);
    Determined(c, last, f, v, |c.defs|);
    WholePrefix(f, v, |c.defs|);
  }

  lemma ShorterPrefix(v: seq<int>, w: seq<int>, n: nat, m: nat)
    requires m <= n <= |v| && n <= |w| && v[..n] == w[..n]
    ensures v[..m] == w[..m]
  {
    assert v[..m] == v[..n][..m];
    assert w[..m] == w[..n][..m];
  }

  lemma WholePrefix(v: seq<int>, w: seq<int>, n: nat)
    requires n == |v| == |w| && v[..n] == w[..n]
    ensures v == w
  {
    assert v[..n] == v && w[..n] == w;
  }

  lemma ReachedRivals(c: Class, last: nat, b: Bounds, t: Deps, v: seq<int>, w: seq<int>)
    requires LastRange(c, last) && Allocated(c, last, b, t) && last < |c.defs| - 1 && Rivals(c, last, v, w)
    requires Reached(c, t, v) && Reached(c, t, w)
    ensures v == w
  {
    ReachedIsFirst(c, last, b, t, v);
    ReachedIsFirst(c, last, b, t, w);
    assert Rivals(c, last, w, v);
    assert v[..last + 1] == v[..last] + [v[last]] && w[..last + 1] == w[..last] + [w[last]];
    Determined(c, last, v, w, |c.defs|);
    WholePrefix(v, w, |c.defs|);
  }

  /** A class with a range followed by an expression: its second task has no array. */
  lemma InnermostExpressionLosesTasks(c: Class, b: Bounds, t: Deps)
    requires c == Class([Range(_ => 0, _ => 1), Expr(before => if before == [] then 0 else before[0])], _ => true)
    requires Allocated(c, 0, b, t)
    ensures exists v :: Task(c, v) && !Reached(c, t, v)
  {
    var v, w := [0, 0], [1, 1];
    assert Allowed(c.defs, v, 0) && Allowed(c.defs, w, 0);
    assert Allowed(c.defs, v, 1) by { assert v[..1] == [0]; }
    assert Allowed(c.defs, w, 1) by { assert w[..1] == [1]; }
    assert Rivals(c, 0, v, w);
    ReachedIffAlone(c, 0, b, t);
  }

  /** The runtime's search for the dependency word of a task. */
  method FindDeps(c: Class, t: Deps, v: seq<int>) returns (deps: Deps, index: int)
    requires Reached(c, t, v)
    ensures deps.Final? && deps == Walk(t, v[..|v| - 1]) && index == v[|v| - 1] - deps.min && 0 <= index < |deps.words|
  {
    deps := t;
    var n := |v| - 1;
    for p := 0 to n
      invariant Walk(deps, v[p..n]) == Walk(t, v[..n])
    {
      assert v[p..n][0] == v[p] && v[p..n][1..] == v[p + 1..n];
      deps := deps.next[v[p] - deps.min];
    }
    index := v[n] - deps.min;
  }

  /** A word of memory as a dependency word: a number, or the set of its bits. */
  function AsWord(c: Cell, n: nat): Word {
    if c.Counter? then Num(n) else Bits(set k: nat | k <= n && (n / Pow2(k)) % 2 == 1)
  }

  /** The word the runtime finds for a task before its first release is the one from which the releases
      of its cell start. */
  lemma FoundWordIsZero(c: Class, t: Deps, v: seq<int>, cell: Cell)
    requires Reached(c, t, v) && Blank(t)
    ensures var a := Walk(t, v[..|v| - 1]);
      AsWord(cell, a.words[v[|v| - 1] - a.min]) == Zero(cell)
  {
    assert BlankAt(Walk(t, v[..|v| - 1]));
    assert (0 / Pow2(0)) % 2 == 0;
  }
}
