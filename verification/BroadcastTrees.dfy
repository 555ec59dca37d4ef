/** What the scans of `Broadcast` add up to: computed independently at every rank, they form one tree,
    along which every participant but the root gets exactly one message. */
module BroadcastTrees {
  import opened Sums
  import opened IntegerArithmetic
  import opened RankBits
  import opened Broadcast

  /** The participants in dense order: number `k + 1` is `Others(ranks, root)[k]`, the root is number 0. */
  function Others(ranks: seq<nat>, root: nat): (d: seq<nat>)
    ensures forall r :: r in d <==> r in ranks && r != root
  {
    if ranks == [] then []
    else
      var last := ranks[|ranks| - 1];
      Others(ranks[..|ranks| - 1], root) + (if last == root then [] else [last])
  }

  /** Dense number of a rank; -1 for a rank that is not there. */
  function Dense(d: seq<nat>, root: nat, rank: nat): (m: int)
    ensures m >= -1
    ensures m >= 1 ==> m <= |d| && d[m - 1] == rank
    ensures rank in d ==> m >= 0
    ensures m == 0 <==> rank == root
  {
    if rank == root then 0
    else if d == [] then -1
    else if d[|d| - 1] == rank then |d|
    else Dense(d[..|d| - 1], root, rank)
  }

  /** The children of number `me`, in the order in which they are activated. */
  function Children(policy: Policy, d: seq<nat>, me: int): seq<nat> {
    if d == [] then []
    else
      Children(policy, d[..|d| - 1], me) + (if IsChild(policy, me, |d|) then [d[|d| - 1]] else [])
  }

  predicate AllBelow(ranks: seq<nat>, x: nat) {
    forall i :: 0 <= i < |ranks| ==> ranks[i] < x
  }

  lemma OthersBelow(ranks: seq<nat>, root: nat, x: nat)
    requires AllBelow(ranks, x)
    ensures AllBelow(Others(ranks, root), x)
  {
  }

  lemma OthersAscend(ranks: seq<nat>, root: nat)
    requires Ascending(ranks)
    ensures Ascending(Others(ranks, root))
  {
    if ranks != [] {
      var rest, last := ranks[..|ranks| - 1], ranks[|ranks| - 1];
      OthersAscend(rest, root);
      OthersBelow(rest, root, last);
    }
  }

  lemma ChildrenAmong(policy: Policy, d: seq<nat>, me: int, rank: nat)
    requires rank in Children(policy, d, me)
    ensures rank in d
  {
    if rank !in Children(policy, d[..|d| - 1], me) {
      assert rank == d[|d| - 1];
    } else {
      ChildrenAmong(policy, d[..|d| - 1], me, rank);
    }
  }

  /** A number that comes after all others has no children among them. */
  lemma NoChildren(policy: Policy, d: seq<nat>, me: int)
    requires me >= |d| > 0 || me == -1
    ensures Children(policy, d, me) == []
  {
    if d != [] {
      if |d| > 1 || me == -1 {
        NoChildren(policy, d[..|d| - 1], me);
      }
    }
  }

  lemma AppendDense(d: seq<nat>, root: nat, x: nat, rank: nat)
    ensures Dense(d + [x], root, rank) ==
      if rank == root then 0 else if x == rank then |d| + 1 else Dense(d, root, rank)
  {
    assert (d + [x])[..|d|] == d;
  }

  lemma AppendChildren(policy: Policy, d: seq<nat>, x: nat, me: int)
    ensures Children(policy, d + [x], me) ==
      Children(policy, d, me) + (if IsChild(policy, me, |d| + 1) then [x] else [])
  {
    assert (d + [x])[..|d|] == d;
  }

  predicate SetOf(s: set<nat>, l: seq<nat>) {
    (forall r <- s :: r in l) && (forall r <- l :: r in s)
  }

  /** What is known at rank `my` after the ascending list `ranks` has been visited. */
  predicate Knows(policy: Policy, my: nat, root: nat, ranks: seq<nat>, s: Scan) {
    var d := Others(ranks, root);
    && s.me == Dense(d, root, my)
    && s.him == |d|
    && s.sends == Children(policy, d, s.me)
    && SetOf(s.forwarded, s.sends)
  }

  /** `my` is the root, is on the list, or comes after everything on it: so it is for any beginning of
      the list of participants, at any participant. */
  predicate Placed(my: nat, root: nat, ranks: seq<nat>) {
    my == root || my in ranks || AllBelow(ranks, my)
  }

  lemma PlacedBefore(my: nat, root: nat, ranks: seq<nat>)
    requires Ascending(ranks) && ranks != [] && Placed(my, root, ranks)
    ensures Placed(my, root, ranks[..|ranks| - 1]) && AllBelow(ranks[..|ranks| - 1], ranks[|ranks| - 1])
  {
    var last := |ranks| - 1;
    if my in ranks && my !in ranks[..last] {
      assert ranks == ranks[..last] + [ranks[last]];
      assert my == ranks[last];
    }
  }

  lemma {:induction false} ScanKnows(policy: Policy, my: nat, root: nat, ranks: seq<nat>)
    requires Ascending(ranks) && Placed(my, root, ranks)
    ensures Knows(policy, my, root, ranks, VisitAll(policy, my, root, Start(my, root), ranks))
  {
    if ranks != [] {
      var rest, x := ranks[..|ranks| - 1], ranks[|ranks| - 1];
      PlacedBefore(my, root, ranks);
      ScanKnows(policy, my, root, rest);
      KnowsNext(policy, my, root, rest, x, VisitAll(policy, my, root, Start(my, root), rest));
      assert ranks == rest + [x];
    }
  }

  lemma OthersNext(ranks: seq<nat>, root: nat, x: nat)
    ensures Others(ranks + [x], root) == Others(ranks, root) + (if x == root then [] else [x])
  {
    assert (ranks + [x])[..|ranks|] == ranks;
  }

  lemma NotThere(d: seq<nat>, root: nat, my: nat)
    requires my != root && my !in d
    ensures Dense(d, root, my) == -1
  {
  }

  /** A rank that already knows its number looks for its children; one that does not has none yet. */
  lemma KnowsOther(policy: Policy, my: nat, root: nat, d: seq<nat>, x: nat, s: Scan)
    requires x != root && x != my && AllBelow(d, x) && (s.me == -1 ==> x < my)
    requires s.me == Dense(d, root, my) && s.him == |d| && s.sends == Children(policy, d, s.me) && SetOf(s.forwarded, s.sends)
    ensures var r := Visit(policy, my, root, s, x);
      && r.me == Dense(d + [x], root, my) && r.him == |d + [x]|
      && r.sends == Children(policy, d + [x], r.me) && SetOf(r.forwarded, r.sends)
  {
    AppendDense(d, root, x, my);
    AppendChildren(policy, d, x, s.me);
    if x in Children(policy, d, s.me) {
      ChildrenAmong(policy, d, s.me, x);
    }
  }

  /** A rank meets itself: it takes the next number, and so far it has no children. */
  lemma KnowsSelf(policy: Policy, my: nat, root: nat, d: seq<nat>, s: Scan)
    requires my != root && my !in d
    requires s.me == Dense(d, root, my) && s.him == |d| && s.sends == Children(policy, d, s.me) && SetOf(s.forwarded, s.sends)
    ensures var r := Visit(policy, my, root, s, my);
      && r.me == Dense(d + [my], root, my) && r.him == |d + [my]|
      && r.sends == Children(policy, d + [my], r.me) && SetOf(r.forwarded, r.sends)
  {
    NotThere(d, root, my);
    AppendDense(d, root, my, my);
    NoChildren(policy, d, -1);
    NoChildren(policy, d + [my], |d| + 1);
  }

  lemma KnowsNext(policy: Policy, my: nat, root: nat, ranks: seq<nat>, x: nat, s: Scan)
    requires Placed(my, root, ranks) && Placed(my, root, ranks + [x]) && AllBelow(ranks, x)
    requires Knows(policy, my, root, ranks, s)
    ensures Knows(policy, my, root, ranks + [x], Visit(policy, my, root, s, x))
  {
    var d := Others(ranks, root);
    OthersNext(ranks, root, x);
    OthersBelow(ranks, root, x);
    if x == root {
      assert Others(ranks + [x], root) == d;
    } else if x == my {
      KnowsSelf(policy, my, root, d, s);
    } else {
      assert s.me == -1 ==> my !in ranks && my != root;
      KnowsOther(policy, my, root, d, x, s);
    }
  }

  /** What rank `my` sends, whatever it is, comes from the same numbering of the same list. */
  lemma SendsAreChildren(policy: Policy, my: nat, root: nat, ranks: seq<nat>)
    requires Ascending(ranks) && (my == root || my in ranks)
    ensures var d, s := Others(ranks, root), VisitAll(policy, my, root, Start(my, root), ranks);
      s.me == Dense(d, root, my) >= 0 && s.sends == Children(policy, d, s.me)
  {
    ScanKnows(policy, my, root, ranks);
  }

  // ------------------------------------------------------------------ the broadcast of one output

  /** One output of a task, shared by the ranks of its bit set and the root. */
  datatype Group = Group(policy: Policy, root: nat, output: Output)

  /** The ranks in the order of the scan. */
  function Listed(g: Group): (ranks: seq<nat>)
    ensures Ascending(ranks)
  {
    RanksAscend(g.output.bits, 32 * |g.output.bits|);
    Ranks(g.output.bits)
  }

  /** What the activation of this output sends, at rank `my`. */
  function Sends(g: Group, my: nat): seq<nat> {
    VisitOutputs(g.policy, my, g.root, Start(my, g.root), [g.output]).sends
  }

  predicate Member(g: Group, r: nat) {
    r == g.root || Has(g.output.bits, r)
  }

  lemma MemberListed(g: Group, r: nat)
    ensures Member(g, r) <==> r == g.root || r in Listed(g)
  {
    RanksAre(g.output.bits, r);
  }

  /** Every member sends to its children in the numbering that all members share. */
  lemma MemberSends(g: Group, my: nat)
    requires Member(g, my)
    ensures Sends(g, my) == Children(g.policy, Others(Listed(g), g.root), Dense(Others(Listed(g), g.root), g.root, my))
  {
    MemberListed(g, my);
    SendsAreChildren(g.policy, my, g.root, Listed(g));
    var outputs := [g.output];
    assert outputs[..0] == [];
    assert VisitOutputs(g.policy, my, g.root, Start(my, g.root), outputs[..0]) == Start(my, g.root);
  }

  // ------------------------------------------------------------------ which tree each policy builds

  /** `me` is the number of member `my`: 0 for the root, `k + 1` for the `k`-th of the other ranks in
      ascending order. */
  predicate Numbered(g: Group, my: nat, me: nat) {
    var d := Others(Listed(g), g.root);
    me <= |d| && if me == 0 then my == g.root else my == d[me - 1]
  }

  lemma NumberedIs(g: Group, my: nat, me: nat)
    requires Numbered(g, my, me)
    ensures Member(g, my) && Dense(Others(Listed(g), g.root), g.root, my) == me
  {
    MemberListed(g, my);
    OthersAscend(Listed(g), g.root);
    if me > 0 {
      DenseAt(Others(Listed(g), g.root), g.root, me - 1);
    }
  }

  lemma HasNumber(g: Group, my: nat) returns (me: nat)
    requires Member(g, my)
    ensures Numbered(g, my, me)
  {
    MemberListed(g, my);
    me := Dense(Others(Listed(g), g.root), g.root, my);
  }

  /** Chain: every member sends to the next one, the last to none. */
  lemma ChainSendsNext(g: Group, my: nat, me: nat)
    requires g.policy == Chain && Numbered(g, my, me)
    ensures var d := Others(Listed(g), g.root);
      Sends(g, my) == if me < |d| then [d[me]] else []
  {
    var d := Others(Listed(g), g.root);
    NumberedIs(g, my, me);
    MemberSends(g, my);
    ChainChild(d, me);
  }

  lemma {:induction false} ChainChild(d: seq<nat>, me: nat)
    ensures Children(Chain, d, me) == if me < |d| then [d[me]] else []
  {
    if d != [] {
      ChainChild(d[..|d| - 1], me);
    }
  }

  /** Star: the root sends to all others in ascending order, nobody else sends. */
  lemma StarSendsAll(g: Group, my: nat, me: nat)
    requires g.policy == Star && Numbered(g, my, me)
    ensures Sends(g, my) == if my == g.root then Others(Listed(g), g.root) else []
  {
    NumberedIs(g, my, me);
    MemberSends(g, my);
    StarChildren(Others(Listed(g), g.root), me);
  }

  lemma {:induction false} StarChildren(d: seq<nat>, me: nat)
    ensures Children(Star, d, me) == if me == 0 then d else []
  {
    if d != [] {
      StarChildren(d[..|d| - 1], me);
    }
  }

  /** Number `h` is number `me` with one more bit, to the left of all its bits. */
  ghost predicate OneBitLeft(me: nat, h: nat) {
    exists k: nat :: me < Pow2(k) && h == me + Pow2(k)
  }

  /** Member `d[h - 1]` is on the list `l` exactly if its number is `me` with one more bit. */
  ghost predicate OnListByBit(l: seq<nat>, d: seq<nat>, me: nat, h: nat)
    requires 0 < h <= |d|
  {
    d[h - 1] in l <==> OneBitLeft(me, h)
  }

  /** Binomial tree: member `me` sends, in ascending order, to the members whose number is that of `me`
      with one more bit to the left of all its bits. */
  lemma BinomialSendsOneBitLeft(g: Group, my: nat, me: nat)
    requires g.policy == Binomial && Numbered(g, my, me)
    ensures var d, sends := Others(Listed(g), g.root), Sends(g, my);
      && Ascending(sends) && (forall r <- sends :: r in d)
      && forall h :: 0 < h <= |d| ==> OnListByBit(sends, d, me, h)
  {
    NumberedIs(g, my, me);
    MemberSends(g, my);
    OthersAscend(Listed(g), g.root);
    BinomialChildren(Others(Listed(g), g.root), me);
  }

  lemma BinomialChildren(d: seq<nat>, me: nat)
    requires Ascending(d)
    ensures var l := Children(Binomial, d, me);
      && Ascending(l) && (forall r <- l :: r in d)
      && forall h :: 0 < h <= |d| ==> OnListByBit(l, d, me, h)
  {
    var l := Children(Binomial, d, me);
    ChildrenAscend(Binomial, d, me);
    forall r | r in l
      ensures r in d
    {
      ChildrenAmong(Binomial, d, me, r);
    }
    forall h | 0 < h <= |d|
      ensures OnListByBit(l, d, me, h)
    {
      ChildrenCount(Binomial, d, me, h - 1);
      BinomialParent(me, h);
    }
  }

  lemma {:induction false} ChildrenAscend(policy: Policy, d: seq<nat>, me: int)
    requires Ascending(d)
    ensures Ascending(Children(policy, d, me))
  {
    if d != [] {
      var rest, x := d[..|d| - 1], d[|d| - 1];
      ChildrenAscend(policy, rest, me);
      forall i | 0 <= i < |Children(policy, rest, me)|
        ensures Children(policy, rest, me)[i] < x
      {
        ChildrenAmong(policy, rest, me, Children(policy, rest, me)[i]);
      }
    }
  }

  lemma BinomialParent(me: nat, h: nat)
    requires h > 0
    ensures IsChild(Binomial, me, h) <==> OneBitLeft(me, h)
  {
    var k := TopBitOf(h);
    DropLeftIs(h, k);
    if OneBitLeft(me, h) {
      var j: nat :| me < Pow2(j) && h == me + Pow2(j);
      DropLeftIs(h, j);
    }
  }

  /** The power of two at or below a number. */
  lemma {:induction false} TopBitOf(h: nat) returns (k: nat)
    requires h > 0
    ensures Pow2(k) <= h < Pow2(k + 1)
  {
    if h == 1 {
      k := 0;
    } else {
      k := TopBitOf(h / 2);
      k := k + 1;
    }
  }

  // ------------------------------------------------------------------ several outputs

  /** Some output has rank `r` as a child of number `me`. */
  ghost predicate ChildSomewhere(policy: Policy, root: nat, outputs: seq<Output>, me: int, r: nat) {
    exists i :: 0 <= i < |outputs| && r in Children(policy, Others(Ranks(outputs[i].bits), root), me)
  }

  /** Number `me` has sent, once, to each rank that is a child of it in some output. */
  ghost predicate SentToChildren(policy: Policy, root: nat, outputs: seq<Output>, me: int, s: Scan) {
    && s.me == me >= 0 && NoDuplicates(s.sends) && SetOf(s.forwarded, s.sends)
    && forall r :: r in s.sends <==> ChildSomewhere(policy, root, outputs, me, r)
  }

  /** With several outputs, the root and the members of the first one: a rank keeps the number the first
      output gives it and sends, once, to each rank that is a child of that number in some output. */
  lemma {:induction false} SeveralOutputs(policy: Policy, my: nat, root: nat, outputs: seq<Output>)
    requires outputs != [] && (my == root || Has(outputs[0].bits, my))
    ensures SentToChildren(policy, root, outputs, Dense(Others(Ranks(outputs[0].bits), root), root, my),
                           VisitOutputs(policy, my, root, Start(my, root), outputs))
  {
    var last := |outputs| - 1;
    if last == 0 {
      FirstOutput(policy, my, root, outputs[0]);
      assert outputs == [outputs[0]];
    } else {
      SeveralOutputs(policy, my, root, outputs[..last]);
      NextOutput(policy, my, root, outputs, Dense(Others(Ranks(outputs[0].bits), root), root, my));
    }
  }

  lemma NextOutput(policy: Policy, my: nat, root: nat, outputs: seq<Output>, me: int)
    requires outputs != []
    requires SentToChildren(policy, root, outputs[..|outputs| - 1], me,
                            VisitOutputs(policy, my, root, Start(my, root), outputs[..|outputs| - 1]))
    ensures SentToChildren(policy, root, outputs, me, VisitOutputs(policy, my, root, Start(my, root), outputs))
  {
    var last := |outputs| - 1;
    var s := VisitOutputs(policy, my, root, Start(my, root), outputs[..last]);
    KnownVisits(policy, my, root, s.(him := 0), Ranks(outputs[last].bits));
    forall r
      ensures ChildSomewhere(policy, root, outputs, me, r) <==>
        ChildSomewhere(policy, root, outputs[..last], me, r) || r in Children(policy, Others(Ranks(outputs[last].bits), root), me)
    {
      OneMoreOutput(policy, root, outputs, me, r);
    }
  }

  lemma OneMoreOutput(policy: Policy, root: nat, outputs: seq<Output>, me: int, r: nat)
    requires outputs != []
    ensures var last := |outputs| - 1;
      ChildSomewhere(policy, root, outputs, me, r) <==>
        ChildSomewhere(policy, root, outputs[..last], me, r)
        || r in Children(policy, Others(Ranks(outputs[last].bits), root), me)
  {
    var rest := outputs[..|outputs| - 1];
    assert forall i :: 0 <= i < |rest| ==> rest[i] == outputs[i];
  }

  lemma FirstOutput(policy: Policy, my: nat, root: nat, output: Output)
    requires my == root || Has(output.bits, my)
    ensures var d, s := Others(Ranks(output.bits), root), VisitOutputs(policy, my, root, Start(my, root), [output]);
      && s.me == Dense(d, root, my) >= 0 && s.sends == Children(policy, d, s.me)
      && NoDuplicates(s.sends) && SetOf(s.forwarded, s.sends)
  {
    var g := Group(policy, root, output);
    MemberListed(g, my);
    ScanKnows(policy, my, root, Listed(g));
    OthersAscend(Listed(g), root);
    ChildrenAscend(policy, Others(Listed(g), root), Dense(Others(Listed(g), root), root, my));
    assert [output][..0] == [] && VisitOutputs(policy, my, root, Start(my, root), [output][..0]) == Start(my, root);
  }

  /** A rank that knows its number goes through one more output. */
  lemma {:induction false} KnownVisits(policy: Policy, my: nat, root: nat, s: Scan, ranks: seq<nat>)
    requires s.me >= 0 == s.him && NoDuplicates(s.sends) && SetOf(s.forwarded, s.sends)
    ensures var t := VisitAll(policy, my, root, s, ranks);
      && t.me == s.me && t.him == |Others(ranks, root)| && NoDuplicates(t.sends) && SetOf(t.forwarded, t.sends)
      && forall r :: r in t.sends <==> r in s.sends || r in Children(policy, Others(ranks, root), s.me)
  {
    if ranks != [] {
      var rest, x := ranks[..|ranks| - 1], ranks[|ranks| - 1];
      KnownVisits(policy, my, root, s, rest);
      var t := VisitAll(policy, my, root, s, rest);
      assert ranks == rest + [x];
      OthersNext(rest, root, x);
      if x == root {
        assert Others(ranks, root) == Others(rest, root);
      } else {
        AppendChildren(policy, Others(rest, root), x, s.me);
        KnownVisit(policy, my, root, t, x);
      }
    }
  }

  lemma KnownVisit(policy: Policy, my: nat, root: nat, s: Scan, x: nat)
    requires s.me >= 0 && x != root && NoDuplicates(s.sends) && SetOf(s.forwarded, s.sends)
    ensures var t := Visit(policy, my, root, s, x);
      && t.me == s.me && t.him == s.him + 1 && NoDuplicates(t.sends) && SetOf(t.forwarded, t.sends)
      && forall r :: r in t.sends <==> r in s.sends || (r == x && IsChild(policy, s.me, s.him + 1))
  {
  }

  predicate NoDuplicates(l: seq<nat>) {
    forall i, j :: 0 <= i < j < |l| ==> l[i] != l[j]
  }

  // ------------------------------------------------------------------ forwarding, in any order

  /** Ranks that have done their scan, and the messages that every rank has got. */
  datatype Cast = Cast(done: set<nat>, received: multiset<nat>)

  /** The root starts; any other rank forwards once a message has reached it. */
  predicate CanForward(g: Group, c: Cast, r: nat) {
    r !in c.done && (r == g.root || r in c.received)
  }

  function Forward(g: Group, c: Cast, r: nat): Cast {
    Cast(c.done + {r}, c.received + multiset(Sends(g, r)))
  }

  function ParentRank(g: Group, k: nat): nat
    requires k < |Others(Listed(g), g.root)|
  {
    var p := Parent(g.policy, k + 1);
    if p == 0 then g.root else Others(Listed(g), g.root)[p - 1]
  }

  predicate ReceivedAt(g: Group, c: Cast, k: nat)
    requires k < |Others(Listed(g), g.root)|
  {
    c.received[Others(Listed(g), g.root)[k]] == if ParentRank(g, k) in c.done then 1 else 0
  }

  /** A rank has got its message exactly if its parent in the tree has done its scan. */
  ghost predicate CastInv(g: Group, c: Cast) {
    var d := Others(Listed(g), g.root);
    && (forall r <- c.done :: Member(g, r))
    && (forall r <- c.received :: r in d)
    && (forall k :: 0 <= k < |d| ==> ReceivedAt(g, c, k))
  }

  lemma DenseAt(d: seq<nat>, root: nat, k: nat)
    requires Ascending(d) && root !in d && k < |d|
    ensures Dense(d, root, d[k]) == k + 1
  {
    if k < |d| - 1 {
      assert d[..|d| - 1][k] == d[k];
      assert root !in d[..|d| - 1];
      DenseAt(d[..|d| - 1], root, k);
    }
  }

  lemma TailCount(l: seq<nat>, x: nat, more: bool, y: nat)
    ensures multiset(l + (if more then [x] else []))[y] == multiset(l)[y] + (if more && x == y then 1 else 0)
  {
    assert multiset(l + [x]) == multiset(l) + multiset{x};
    assert l + [] == l;
  }

  lemma LastNotChild(policy: Policy, d: seq<nat>, me: int)
    requires Ascending(d) && d != []
    ensures d[|d| - 1] !in Children(policy, d[..|d| - 1], me)
  {
    if d[|d| - 1] in Children(policy, d[..|d| - 1], me) {
      ChildrenAmong(policy, d[..|d| - 1], me, d[|d| - 1]);
    }
  }

  lemma OneMoreChild(policy: Policy, rest: seq<nat>, x: nat, me: int, y: nat)
    ensures multiset(Children(policy, rest + [x], me))[y] ==
      multiset(Children(policy, rest, me))[y] + (if IsChild(policy, me, |rest| + 1) && x == y then 1 else 0)
  {
    AppendChildren(policy, rest, x, me);
    TailCount(Children(policy, rest, me), x, IsChild(policy, me, |rest| + 1), y);
  }

  /** How often rank `y` is among the children of `me`. */
  function ChildCopies(policy: Policy, d: seq<nat>, me: int, y: nat): nat {
    multiset(Children(policy, d, me))[y]
  }

  lemma ChildrenCountLast(policy: Policy, d: seq<nat>, me: int)
    requires Ascending(d) && d != []
    ensures ChildCopies(policy, d, me, d[|d| - 1]) == if IsChild(policy, me, |d|) then 1 else 0
  {
    var rest, x := d[..|d| - 1], d[|d| - 1];
    LastNotChild(policy, d, me);
    OneMoreChild(policy, rest, x, me, x);
    assert rest + [x] == d;
  }

  lemma ChildrenCountBefore(policy: Policy, d: seq<nat>, me: int, k: nat)
    requires Ascending(d) && k + 1 < |d|
    ensures d[..|d| - 1][k] == d[k]
    ensures ChildCopies(policy, d, me, d[k]) == ChildCopies(policy, d[..|d| - 1], me, d[k])
  {
    OneMoreChild(policy, d[..|d| - 1], d[|d| - 1], me, d[k]);
    assert d[..|d| - 1] + [d[|d| - 1]] == d;
  }

  lemma {:induction false} ChildrenCount(policy: Policy, d: seq<nat>, me: int, k: nat)
    requires Ascending(d) && k < |d|
    ensures ChildCopies(policy, d, me, d[k]) == if IsChild(policy, me, k + 1) then 1 else 0
  {
    if k + 1 == |d| {
      ChildrenCountLast(policy, d, me);
    } else {
      ChildrenCount(policy, d[..|d| - 1], me, k);
      ChildrenCountBefore(policy, d, me, k);
    }
  }

  /** Numbers and ranks determine each other, so a rank has exactly one parent. */
  lemma ChildOfParent(g: Group, r: nat, k: nat)
    requires Member(g, r) && k < |Others(Listed(g), g.root)|
    ensures var d := Others(Listed(g), g.root);
      IsChild(g.policy, Dense(d, g.root, r), k + 1) <==> r == ParentRank(g, k)
  {
    var d := Others(Listed(g), g.root);
    MemberListed(g, r);
    OthersAscend(Listed(g), g.root);
    var p := Parent(g.policy, k + 1);
    if p > 0 {
      DenseAt(d, g.root, p - 1);
    }
  }

  lemma ReceivedNext(g: Group, c: Cast, r: nat, k: nat)
    requires Member(g, r) && r !in c.done
    requires k < |Others(Listed(g), g.root)| && ReceivedAt(g, c, k)
    ensures ReceivedAt(g, Forward(g, c, r), k)
  {
    var d := Others(Listed(g), g.root);
    OthersAscend(Listed(g), g.root);
    MemberSends(g, r);
    ChildrenCount(g.policy, d, Dense(d, g.root, r), k);
    ChildOfParent(g, r, k);
  }

  lemma ReceivedMembers(g: Group, c: Cast, r: nat, q: nat)
    requires Member(g, r) && q in Forward(g, c, r).received && q !in c.received
    ensures q in Others(Listed(g), g.root)
  {
    var d := Others(Listed(g), g.root);
    MemberSends(g, r);
    ChildrenAmong(g.policy, d, Dense(d, g.root, r), q);
  }

  lemma ForwardKeepsInv(g: Group, c: Cast, r: nat)
    requires CastInv(g, c) && CanForward(g, c, r)
    ensures CastInv(g, Forward(g, c, r))
  {
    var d, c' := Others(Listed(g), g.root), Forward(g, c, r);
    MemberListed(g, r);
    forall q | q in c'.received
      ensures q in d
    {
      if q !in c.received {
        ReceivedMembers(g, c, r, q);
      }
    }
    forall k | 0 <= k < |d|
      ensures ReceivedAt(g, c', k)
    {
      assert ReceivedAt(g, c, k);
      ReceivedNext(g, c, r, k);
    }
  }

  predicate Legal(g: Group, c: Cast, run: seq<nat>)
    decreases |run|
  {
    run == [] || (CanForward(g, c, run[0]) && Legal(g, Forward(g, c, run[0]), run[1..]))
  }

  function AfterAll(g: Group, c: Cast, run: seq<nat>): Cast
    decreases |run|
  {
    if run == [] then c else AfterAll(g, Forward(g, c, run[0]), run[1..])
  }

  lemma {:induction false} RunKeepsInv(g: Group, c: Cast, run: seq<nat>)
    requires CastInv(g, c) && Legal(g, c, run)
    ensures CastInv(g, AfterAll(g, c, run))
    decreases |run|
  {
    if run != [] {
      ForwardKeepsInv(g, c, run[0]);
      RunKeepsInv(g, Forward(g, c, run[0]), run[1..]);
    }
  }

  lemma NobodyMissing(g: Group, c: Cast, k: nat)
    requires CastInv(g, c) && (forall r :: !CanForward(g, c, r)) && k <= |Others(Listed(g), g.root)|
    ensures g.root in c.done && forall i :: 0 <= i < k ==> Others(Listed(g), g.root)[i] in c.done
  {
    assert !CanForward(g, c, g.root);
    if k > 0 {
      NobodyMissing(g, c, k - 1);
      assert ReceivedAt(g, c, k - 1);
      assert !CanForward(g, c, Others(Listed(g), g.root)[k - 1]);
    }
  }

  /** The messages a rank must get: one if some output bit asks for it and it is not the root. */
  function Due(g: Group, r: nat): nat {
    if r != g.root && Has(g.output.bits, r) then 1 else 0
  }

  predicate AtMostOnce(g: Group, c: Cast, r: nat) {
    c.received[r] <= Due(g, r)
  }

  predicate ExactlyOnce(g: Group, c: Cast, r: nat) {
    c.received[r] == Due(g, r) && (Member(g, r) ==> r in c.done)
  }

  lemma ReceivedOnce(g: Group, c: Cast, r: nat)
    requires CastInv(g, c)
    ensures AtMostOnce(g, c, r)
    ensures (forall q :: !CanForward(g, c, q)) ==> ExactlyOnce(g, c, r)
  {
    var d := Others(Listed(g), g.root);
    RanksAre(g.output.bits, r);
    if Due(g, r) == 1 {
      var k :| 0 <= k < |d| && d[k] == r;
      assert ReceivedAt(g, c, k);
    }
    if forall q :: !CanForward(g, c, q) {
      NobodyMissing(g, c, |d|);
      if Due(g, r) == 1 {
        ParentDone(g, c, r);
      }
    }
  }

  lemma ParentDone(g: Group, c: Cast, r: nat)
    requires CastInv(g, c) && r in Others(Listed(g), g.root) && !CanForward(g, c, r) && r in c.done
    requires g.root in c.done && forall i :: 0 <= i < |Others(Listed(g), g.root)| ==> Others(Listed(g), g.root)[i] in c.done
    ensures c.received[r] == 1
  {
    var d := Others(Listed(g), g.root);
    var k :| 0 <= k < |d| && d[k] == r;
    assert ReceivedAt(g, c, k);
  }

  /** For every bit set, policy and order of forwarding, no rank gets a message it is not due; when nobody
      is left to forward, every rank of the bit set other than the root has got exactly one. */
  lemma ExactlyOneMessage(policy: Policy, root: nat, output: Output, run: seq<nat>)
    requires Legal(Group(policy, root, output), Cast({}, multiset{}), run)
    ensures var g := Group(policy, root, output);
      var c := AfterAll(g, Cast({}, multiset{}), run);
      && (forall r :: AtMostOnce(g, c, r))
      && ((forall r :: !CanForward(g, c, r)) ==> forall r :: ExactlyOnce(g, c, r))
  {
    var g, c0 := Group(policy, root, output), Cast({}, multiset{});
    RunKeepsInv(g, c0, run);
    var c := AfterAll(g, c0, run);
    forall r
      ensures AtMostOnce(g, c, r)
      ensures (forall q :: !CanForward(g, c, q)) ==> ExactlyOnce(g, c, r)
    {
      ReceivedOnce(g, c, r);
    }
  }

  // ------------------------------------------------------------------ several outputs: star

  /** What the root has sent: one message to each rank seen so far. */
  ghost predicate Sent(root: nat, s: Scan, seen: set<nat>) {
    && s.me == 0 && NoDuplicates(s.sends) && SetOf(s.forwarded, s.sends)
    && forall q :: q in s.sends <==> q in seen && q != root
  }

  lemma StarVisits(root: nat, s: Scan, ranks: seq<nat>, seen: set<nat>)
    requires Sent(root, s, seen)
    ensures Sent(root, VisitAll(Star, root, root, s, ranks), seen + set r | r in ranks)
  {
    if ranks != [] {
      var rest, x := ranks[..|ranks| - 1], ranks[|ranks| - 1];
      StarVisits(root, s, rest, seen);
      StarVisit(root, VisitAll(Star, root, root, s, rest), x, seen + set r | r in rest);
      assert ranks == rest + [x];
      assert (seen + set r | r in ranks) == (seen + set r | r in rest) + {x};
    }
  }

  lemma StarVisit(root: nat, s: Scan, x: nat, seen: set<nat>)
    requires Sent(root, s, seen)
    ensures Sent(root, Visit(Star, root, root, s, x), seen + {x})
  {
  }

  /** Ranks that some output needs. */
  function Needed(outputs: seq<Output>): set<nat> {
    if outputs == [] then {}
    else
      var ranks := Ranks(outputs[|outputs| - 1].bits);
      Needed(outputs[..|outputs| - 1]) + set r | r in ranks
  }

  lemma NeededAre(outputs: seq<Output>, q: nat)
    ensures q in Needed(outputs) <==> exists k :: 0 <= k < |outputs| && Has(outputs[k].bits, q)
  {
    if outputs != [] {
      var last := |outputs| - 1;
      NeededAre(outputs[..last], q);
      RanksAre(outputs[last].bits, q);
      assert forall k :: 0 <= k < last ==> outputs[..last][k] == outputs[k];
      if k :| 0 <= k < |outputs| && Has(outputs[k].bits, q) {
        assert k == last || Has(outputs[..last][k].bits, q);
      }
    }
  }

  lemma StarOutputs(root: nat, outputs: seq<Output>)
    ensures Sent(root, VisitOutputs(Star, root, root, Start(root, root), outputs), Needed(outputs))
  {
    if outputs != [] {
      var rest, ranks := outputs[..|outputs| - 1], Ranks(outputs[|outputs| - 1].bits);
      StarOutputs(root, rest);
      var s := VisitOutputs(Star, root, root, Start(root, root), rest);
      assert Sent(root, s.(him := 0), Needed(rest));
      StarVisits(root, s.(him := 0), ranks, Needed(rest));
      if ranks == [] {
        assert Needed(outputs) == Needed(rest);
      }
    }
  }

  lemma StarSilent(my: nat, root: nat, s: Scan, ranks: seq<nat>)
    requires my != root && s.sends == [] && s.me != 0 && s.me >= -1
    ensures var r := VisitAll(Star, my, root, s, ranks);
      r.sends == [] && r.me != 0 && r.me >= -1
  {
  }

  lemma StarOthersSilent(my: nat, root: nat, outputs: seq<Output>)
    requires my != root
    ensures var r := VisitOutputs(Star, my, root, Start(my, root), outputs);
      r.sends == [] && r.me != 0 && r.me >= -1
  {
    if outputs != [] {
      var rest := outputs[..|outputs| - 1];
      StarOthersSilent(my, root, rest);
      var s := VisitOutputs(Star, my, root, Start(my, root), rest);
      StarSilent(my, root, s.(him := 0), Ranks(outputs[|outputs| - 1].bits));
    }
  }

  /** Outputs that `rank` needs. */
  function Which(outputs: seq<Output>, rank: nat): set<nat> {
    set k: nat | k < |outputs| && Has(outputs[k].bits, rank)
  }

  /** The mask sent with an activation; the loop ends when the counts are used up. */
  method WhichMask(outputs: seq<Output>, outputCount: nat, rank: nat) returns (which: set<nat>)
    requires Balanced(outputs, outputCount) && forall k :: 0 <= k < |outputs| ==> rank / 32 < |outputs[k].bits|
    ensures which == Which(outputs, rank)
  {
    which := {};
    var k := 0;
    var left: int := outputCount;
    assert outputs[..|outputs|] == outputs;
    while left != 0
      invariant k <= |outputs| && left == outputCount - Total(outputs[..k], CountOf)
      invariant which == set i: nat | i < k && Has(outputs[i].bits, rank)
      decreases |outputs| - k
    {
      assert outputs[..k + 1][..k] == outputs[..k];
      left := left - outputs[k].count;
      if rank % 32 in outputs[k].bits[rank / 32] {
        which := which + {k};
      }
      k := k + 1;
    }
    RestIsEmpty(Star, rank, rank, outputs, k);
    forall i | k <= i < |outputs|
      ensures !Has(outputs[i].bits, rank)
    {
      RanksAre(outputs[i].bits, rank);
    }
  }

  /** In star mode the messages partition the pairs (output, rank other than the root): only the root
      sends, at most one message to a rank, and the message to `q` carries output `k` exactly if `q`
      needs it. */
  lemma StarPartition(root: nat, my: nat, outputs: seq<Output>)
    ensures var sends := VisitOutputs(Star, my, root, Start(my, root), outputs).sends;
      && (my != root ==> sends == [])
      && (my == root ==> NoDuplicates(sends) && forall k: nat, q: nat :: k < |outputs| ==>
            (q in sends && k in Which(outputs, q) <==> q != root && Has(outputs[k].bits, q)))
      && (my == root ==> forall q <- sends :: q != root && Which(outputs, q) != {})
  {
    if my != root {
      StarOthersSilent(my, root, outputs);
    } else {
      StarOutputs(root, outputs);
      var sends := VisitOutputs(Star, my, root, Start(my, root), outputs).sends;
      forall q: nat
        ensures q in sends ==> q != root && Which(outputs, q) != {}
        ensures forall k: nat :: k < |outputs| ==>
          (q in sends && k in Which(outputs, q) <==> q != root && Has(outputs[k].bits, q))
      {
        NeededAre(outputs, q);
        if k :| 0 <= k < |outputs| && Has(outputs[k].bits, q) {
          assert k in Which(outputs, q);
        }
      }
    }
  }
}
