/** Activation of remote ranks. Every participant scans the same rank bits, numbers the ranks densely
    and forwards to those it finds to be its children in a chain, a binomial tree or a star. */
module Broadcast {
  import opened Sums
  import opened IntegerArithmetic
  import opened RankBits

  datatype Policy = Chain | Binomial | Star

  /** One output of a task: the ranks that need it and how many they are. */
  datatype Output = Output(count: nat, bits: Words32)

  function CountOf(o: Output): int {
    o.count
  }

  predicate Counted(o: Output) {
    Proper(o.bits) && o.count == |Ranks(o.bits)|
  }

  /** What the scan loops rely on: each count is the number of bits, and the total is their sum. */
  predicate Balanced(outputs: seq<Output>, total: nat) {
    (forall i :: 0 <= i < |outputs| ==> Counted(outputs[i])) && Total(outputs, CountOf) == total
  }

  /** The record a releasing task fills while it visits its successors. */
  class RemoteDeps {
    var output: seq<Output>
    var remoteDepsCount: nat

    constructor (outputs: nat, words: nat)
      ensures Balanced(output, remoteDepsCount) && |output| == outputs
      ensures forall i :: 0 <= i < outputs ==> |output[i].bits| == words
      ensures forall i, r: nat :: 0 <= i < outputs ==> !Has(output[i].bits, r)
    {
      output, remoteDepsCount := seq(outputs, _ => Output(0, seq(words, _ => {}))), 0;
      new;
      NoBits(seq(words, _ => {}), 0, 32 * words);
      TotalConstant(output, CountOf, 0);
    }

    /** A remote successor of output `k` on `rank`: counted the first time only. */
    method Mark(k: nat, rank: nat)
      requires Balanced(output, remoteDepsCount) && k < |output| && rank / 32 < |output[k].bits|
      modifies this
      ensures Balanced(output, remoteDepsCount) && |output| == old(|output|)
      ensures forall i :: 0 <= i < |output| && i != k ==> output[i] == old(output[i])
      ensures |output[k].bits| == old(|output[k].bits|)
      ensures forall r: nat :: Has(output[k].bits, r) <==> r == rank || old(Has(output[k].bits, r))
    {
      var o := output[k];
      if !Has(o.bits, rank) {
        var marked := Output(o.count + 1, SetBit(o.bits, rank));
        SetBitCount(o.bits, rank, 32 * |o.bits|);
        TotalUpdate(output, k, marked, CountOf);
        output := output[k := marked];
        remoteDepsCount := remoteDepsCount + 1;
        forall r: nat
          ensures Has(marked.bits, r) <==> r == rank || Has(o.bits, r)
        {
          SetBitHas(o.bits, rank, r);
        }
      }
    }
  }

  // ------------------------------------------------------------------ children

  /** `h` without its leftmost 1 bit. */
  function DropLeft(h: nat): (r: nat)
    requires h > 0
    ensures r < h
  {
    if h == 1 then 0 else 2 * DropLeft(h / 2) + h % 2
  }

  function Parent(policy: Policy, him: nat): (p: nat)
    requires him > 0
    ensures p < him
  {
    match policy
    case Chain => him - 1
    case Binomial => DropLeft(him)
    case Star => 0
  }

  predicate IsChild(policy: Policy, me: int, him: nat) {
    him > 0 && me == Parent(policy, him)
  }

  /** Ranks and their numbers are non-negative 32-bit integers. */
  const LIMIT: nat := 0x8000_0000

  lemma IntFits(h: nat, bits: nat)
    requires h < LIMIT && bits == 32
    ensures h < Pow2(bits)
  {
    assert Pow2(4) == 16;
    Pow2Sum(4, 4);
    Pow2Sum(8, 8);
    Pow2Sum(16, 16);
  }

  lemma Pow2Sum(a: nat, b: nat)
    ensures Pow2(a + b) == Pow2(a) * Pow2(b)
  {
    if a > 0 {
      Pow2Sum(a - 1, b);
    }
  }

  lemma Pow2Half(h: nat, k: nat)
    requires 0 < k && Pow2(k) <= h < Pow2(k + 1)
    ensures Pow2(k - 1) <= h / 2 < Pow2(k)
  {
  }

  /** Below the power of two that bounds it, the leftmost bit is the power itself. */
  lemma DropLeftIs(h: nat, k: nat)
    requires Pow2(k) <= h < Pow2(k + 1)
    ensures h > 0 && DropLeft(h) == h - Pow2(k)
  {
    if k > 0 {
      Pow2Half(h, k);
      DropLeftIs(h / 2, k - 1);
    }
  }

  /** Bit `k` of a number. */
  function Bit(h: nat, k: nat): nat {
    (h / Pow2(k)) % 2
  }

  /** The test of bit `k`, for a number whose higher bits are known to be 0. */
  lemma TopBit(h: nat, k: nat)
    requires h < Pow2(k + 1)
    ensures Bit(h, k) == if h >= Pow2(k) then 1 else 0
  {
    TopQuotient(h, Pow2(k));
  }

  lemma TopQuotient(h: nat, p: nat)
    requires 0 < p && h < 2 * p
    ensures (h / p) % 2 == if h >= p then 1 else 0
  {
    if h >= p {
      QuotientOne(h, p);
    }
  }

  lemma QuotientOne(h: nat, p: nat)
    requires 0 < p <= h < 2 * p
    ensures h / p == 1
  {
  }

  /** The loop that looks for the leftmost 1 bit. */
  method BinomialChild(me: int, him: nat) returns (child: bool)
    requires me >= -1 && him < LIMIT
    ensures child == IsChild(Binomial, me, him)
  {
    if him == 0 {
      return false;
    }
    if me == -1 {
      return false;
    }
    var rest := him;
    var k := 31;
    IntFits(him, 32);
    while k >= 0
      invariant -1 <= k <= 31 && rest == him && him < Pow2(k + 1)
    {
      var mask := Pow2(k);
      TopBit(him, k);
      if Bit(rest, k) == 1 {
        rest := rest - mask;
        DropLeftIs(him, k);
        break;
      }
      k := k - 1;
    }
    child := rest == me;
  }

  method Child(policy: Policy, me: int, him: nat) returns (child: bool)
    requires me >= -1 && 0 < him < LIMIT
    ensures child == IsChild(policy, me, him)
  {
    match policy
    case Chain => child := if me == -1 then false else him == me + 1;
    case Binomial => child := BinomialChild(me, him);
    case Star => child := me == 0;
  }

  // ------------------------------------------------------------------ the scan, one rank at a time

  /** `me` is the dense number of this rank (-1: unknown so far), `him` that of the last rank seen. */
  datatype Scan = Scan(me: int, him: nat, forwarded: set<nat>, sends: seq<nat>)

  function Visit(policy: Policy, myRank: nat, root: nat, s: Scan, rank: nat): Scan {
    if rank == root then s
    else
      var learns := s.me == -1 && rank >= myRank;
      var known := if learns then s.(me := s.him + 1, him := s.him + 1) else s;
      if learns && rank == myRank then known
      else
        var next := known.(him := known.him + 1);
        if IsChild(policy, next.me, next.him) && rank !in next.forwarded then
          next.(forwarded := next.forwarded + {rank}, sends := next.sends + [rank])
        else next
  }

  function VisitAll(policy: Policy, myRank: nat, root: nat, s: Scan, ranks: seq<nat>): Scan {
    if ranks == [] then s
    else Visit(policy, myRank, root, VisitAll(policy, myRank, root, s, ranks[..|ranks| - 1]), ranks[|ranks| - 1])
  }

  /** Output after output; `him` starts again, `me` and the forwarded ranks persist. */
  function VisitOutputs(policy: Policy, myRank: nat, root: nat, s: Scan, outputs: seq<Output>): Scan {
    if outputs == [] then s
    else
      var before := VisitOutputs(policy, myRank, root, s, outputs[..|outputs| - 1]);
      var ranks := Ranks(outputs[|outputs| - 1].bits);
      if ranks == [] then before else VisitAll(policy, myRank, root, before.(him := 0), ranks)
  }

  function Start(myRank: nat, root: nat): Scan {
    Scan(if root == myRank then 0 else -1, 0, {}, [])
  }

  lemma VisitBounds(policy: Policy, myRank: nat, root: nat, s: Scan, ranks: seq<nat>)
    requires s.me >= -1
    ensures var r := VisitAll(policy, myRank, root, s, ranks);
      r.me >= -1 && (s.me != -1 ==> r.me == s.me)
      && r.him <= s.him + |ranks| + (if s.me == -1 && r.me != -1 then 1 else 0)
  {
    if ranks != [] {
      VisitBounds(policy, myRank, root, s, ranks[..|ranks| - 1]);
    }
  }

  /** What the scan does with one rank; a message in flight is one more thing to do for this rank. */
  method VisitRank(policy: Policy, myRank: nat, root: nat, s: Scan, todo0: int, rank: nat) returns (r: Scan, todo: int)
    requires s.me >= -1 && s.him + 2 < LIMIT
    ensures r == Visit(policy, myRank, root, s, rank) && todo - todo0 == |r.sends| - |s.sends|
  {
    todo := todo0;
    if rank == root {
      return s, todo;
    }
    var me, him := s.me, s.him;
    if me == -1 && rank >= myRank {
      him := him + 1;
      me := him;
      if rank == myRank {
        return Scan(me, him, s.forwarded, s.sends), todo;
      }
    }
    him := him + 1;
    var child := Child(policy, me, him);
    if child {
      if rank in s.forwarded {
        return Scan(me, him, s.forwarded, s.sends), todo;
      }
      todo := todo + 1;
      return Scan(me, him, s.forwarded + {rank}, s.sends + [rank]), todo;
    }
    return Scan(me, him, s.forwarded, s.sends), todo;
  }

  /** The scan has visited exactly the ranks below `p`. */
  predicate ScannedTo(policy: Policy, myRank: nat, root: nat, s0: Scan, words: Words32, p: nat, s: Scan, count: nat) {
    s == VisitAll(policy, myRank, root, s0, RanksBelow(words, p)) && count == |RanksBelow(words, p)|
  }

  lemma ScanStep(policy: Policy, myRank: nat, root: nat, s0: Scan, words: Words32, a: nat, b: nat, p: nat, s: Scan, count: nat)
    requires a < |words| && b < 32 && p == a * 32 + b && s0.me >= -1 && s0.him == 0 && 32 * |words| + 2 < LIMIT
    requires ScannedTo(policy, myRank, root, s0, words, p, s, count)
    ensures s.me >= -1 && s.him + 2 < LIMIT
    ensures if b in words[a]
      then ScannedTo(policy, myRank, root, s0, words, p + 1, Visit(policy, myRank, root, s, p), count + 1)
      else ScannedTo(policy, myRank, root, s0, words, p + 1, s, count)
  {
    OneMoreRank(words, a, b, p);
    VisitBounds(policy, myRank, root, s0, RanksBelow(words, p));
    VisitOneMore(policy, myRank, root, s0, RanksBelow(words, p), p);
  }

  /** The bits of a word that have not been visited. */
  ghost predicate MaskFrom(word: set<nat>, b: nat, mask: set<nat>) {
    forall x :: x in mask <==> x in word && x >= b
  }

  /** One bit of the current mask. */
  method ScanBit(policy: Policy, myRank: nat, root: nat, ghost s0: Scan, ghost o: Output, arrayIndex: nat, bitIndex: nat,
                 mask: set<nat>, s1: Scan, todo1: int, count1: nat)
    returns (currentMask: set<nat>, s: Scan, todo: int, count: nat)
    requires arrayIndex < |o.bits| && bitIndex < 32 && 32 * |o.bits| + 2 < LIMIT && s0.me >= -1 && s0.him == 0
    requires MaskFrom(o.bits[arrayIndex], bitIndex, mask)
    requires ScannedTo(policy, myRank, root, s0, o.bits, arrayIndex * 32 + bitIndex, s1, count1)
    ensures MaskFrom(o.bits[arrayIndex], bitIndex + 1, currentMask)
    ensures ScannedTo(policy, myRank, root, s0, o.bits, arrayIndex * 32 + bitIndex + 1, s, count)
    ensures todo - todo1 == |s.sends| - |s1.sends|
  {
    currentMask, s, todo, count := mask, s1, todo1, count1;
    ScanStep(policy, myRank, root, s0, o.bits, arrayIndex, bitIndex, arrayIndex * 32 + bitIndex, s1, count1);
    if bitIndex in mask {
      var rank := arrayIndex * 32 + bitIndex;
      currentMask := mask - {bitIndex};
      count := count + 1;
      s, todo := VisitRank(policy, myRank, root, s, todo, rank);
    }
  }

  /** The bits of one word. */
  method ScanWord(policy: Policy, myRank: nat, root: nat, ghost s0: Scan, o: Output, arrayIndex: nat, s1: Scan, todo1: int,
                  count1: nat)
    returns (s: Scan, todo: int, count: nat)
    requires Proper(o.bits) && arrayIndex < |o.bits| && 32 * |o.bits| + 2 < LIMIT && s0.me >= -1 && s0.him == 0
    requires ScannedTo(policy, myRank, root, s0, o.bits, 32 * arrayIndex, s1, count1)
    ensures ScannedTo(policy, myRank, root, s0, o.bits, 32 * (arrayIndex + 1), s, count)
    ensures todo - todo1 == |s.sends| - |s1.sends|
  {
    s, todo, count := s1, todo1, count1;
    var currentMask := o.bits[arrayIndex];
    var bitIndex := 0;
    while bitIndex < 32 && currentMask != {}
      invariant bitIndex <= 32 && MaskFrom(o.bits[arrayIndex], bitIndex, currentMask)
      invariant ScannedTo(policy, myRank, root, s0, o.bits, arrayIndex * 32 + bitIndex, s, count)
      invariant todo - todo1 == |s.sends| - |s1.sends|
    {
      currentMask, s, todo, count :=
        ScanBit(policy, myRank, root, s0, o, arrayIndex, bitIndex, currentMask, s, todo, count);
      bitIndex := bitIndex + 1;
    }
    ScanRest(policy, myRank, root, s0, o.bits, arrayIndex, bitIndex, currentMask, s, count);
  }

  lemma ScanRest(policy: Policy, myRank: nat, root: nat, s0: Scan, words: Words32, a: nat, b: nat, mask: set<nat>, s: Scan, count: nat)
    requires Proper(words) && a < |words| && b <= 32 && (b == 32 || mask == {}) && MaskFrom(words[a], b, mask)
    requires ScannedTo(policy, myRank, root, s0, words, a * 32 + b, s, count)
    ensures ScannedTo(policy, myRank, root, s0, words, 32 * (a + 1), s, count)
  {
    RestOfWord(words, a, b, a * 32 + b);
  }

  lemma VisitOneMore(policy: Policy, myRank: nat, root: nat, s: Scan, ranks: seq<nat>, rank: nat)
    ensures VisitAll(policy, myRank, root, s, ranks + [rank])
         == Visit(policy, myRank, root, VisitAll(policy, myRank, root, s, ranks), rank)
  {
    assert (ranks + [rank])[..|ranks|] == ranks;
  }

  lemma BitOfWord(words: Words32, a: nat, b: nat, p: nat)
    requires a < |words| && b < 32 && p == a * 32 + b
    ensures Has(words, p) <==> b in words[a]
  {
    DivModUnique(p, 32, a, b);
  }

  lemma OneMoreRank(words: Words32, a: nat, b: nat, p: nat)
    requires a < |words| && b < 32 && p == a * 32 + b
    ensures RanksBelow(words, p + 1) == if b in words[a] then RanksBelow(words, p) + [p] else RanksBelow(words, p)
  {
    BitOfWord(words, a, b, p);
  }

  lemma RestOfWord(words: Words32, a: nat, b: nat, p: nat)
    requires Proper(words) && a < |words| && b <= 32 && p == a * 32 + b
    requires b < 32 ==> MaskFrom(words[a], b, {})
    ensures RanksBelow(words, p) == RanksBelow(words, 32 * (a + 1))
  {
    forall r: nat | p <= r < 32 * (a + 1)
      ensures !Has(words, r)
    {
      BitOfWord(words, a, r - 32 * a, r);
      assert r - 32 * a !in {};
    }
    NoBits(words, p, 32 * (a + 1));
  }

  /** The nested scan of one output: words, then bits, until `count` ranks have been seen. */
  method ScanOutput(policy: Policy, myRank: nat, root: nat, s0: Scan, todo0: int, o: Output)
    returns (s: Scan, todo: int, seen: nat)
    requires Counted(o) && s0.me >= -1 && s0.him == 0 && 32 * |o.bits| + 2 < LIMIT
    ensures s == VisitAll(policy, myRank, root, s0, Ranks(o.bits)) && seen == o.count
    ensures todo - todo0 == |s.sends| - |s0.sends|
  {
    s, todo := s0, todo0;
    var arrayIndex, count: nat := 0, 0;
    while count < o.count
      invariant arrayIndex <= |o.bits|
      invariant count <= o.count && ScannedTo(policy, myRank, root, s0, o.bits, 32 * arrayIndex, s, count)
      invariant todo - todo0 == |s.sends| - |s0.sends|
      decreases |o.bits| - arrayIndex
    {
      s, todo, count := ScanWord(policy, myRank, root, s0, o, arrayIndex, s, todo, count);
      arrayIndex := arrayIndex + 1;
      RanksGrow(o.bits, 32 * arrayIndex, 32 * |o.bits|);
    }
    AllSeen(o.bits, 32 * arrayIndex, 32 * |o.bits|);
    seen := count;
  }

  lemma AllSeen(words: Words32, p: nat, q: nat)
    requires p <= q && |RanksBelow(words, p)| == |RanksBelow(words, q)|
    ensures RanksBelow(words, p) == RanksBelow(words, q)
  {
    RanksGrow(words, p, q);
    NoBits(words, p, q);
  }

  /** The whole activation: which ranks get a message, in order; the number of things to do grows by the
      number of messages, each counted before it is sent. */
  method Activate(policy: Policy, myRank: nat, root: nat, outputs: seq<Output>, remoteDepsCount: nat, todo0: int)
    returns (s: Scan, todo: int)
    requires Balanced(outputs, remoteDepsCount)
    requires forall i :: 0 <= i < |outputs| ==> 32 * |outputs[i].bits| + 2 < LIMIT
    ensures s == VisitOutputs(policy, myRank, root, Start(myRank, root), outputs)
    ensures todo == todo0 + |s.sends|
  {
    s, todo := Start(myRank, root), todo0;
    var i := 0;
    var left: int := remoteDepsCount;
    NothingLeft(outputs, |outputs|);
    assert outputs[..|outputs|] == outputs;
    while left != 0
      invariant i <= |outputs| && s.me >= -1 && todo == todo0 + |s.sends|
      invariant left == remoteDepsCount - Total(outputs[..i], CountOf)
      invariant s == VisitOutputs(policy, myRank, root, Start(myRank, root), outputs[..i])
      decreases |outputs| - i
    {
      assert i < |outputs|;
      var o := outputs[i];
      assert outputs[..i + 1][..i] == outputs[..i];
      RanksEmpty(o);
      if o.count != 0 {
        VisitBounds(policy, myRank, root, s.(him := 0), Ranks(o.bits));
        var seen;
        s, todo, seen := ScanOutput(policy, myRank, root, s.(him := 0), todo, o);
        left := left - seen;
      }
      i := i + 1;
    }
    RestIsEmpty(policy, myRank, root, outputs, i);
  }

  lemma RanksEmpty(o: Output)
    requires Counted(o)
    ensures o.count == 0 <==> Ranks(o.bits) == []
  {
  }

  lemma NothingLeft(outputs: seq<Output>, i: nat)
    requires i <= |outputs|
    ensures 0 <= Total(outputs[..i], CountOf) <= Total(outputs, CountOf)
    decreases |outputs| - i
  {
    TotalNonNegative(outputs[..i], CountOf);
    if i < |outputs| {
      NothingLeft(outputs, i + 1);
      assert outputs[..i + 1][..i] == outputs[..i];
    } else {
      assert outputs[..i] == outputs;
    }
  }

  /** Once the total is exhausted, the outputs that are left have no rank. */
  lemma RestIsEmpty(policy: Policy, myRank: nat, root: nat, outputs: seq<Output>, i: nat)
    requires i <= |outputs| && (forall j :: 0 <= j < |outputs| ==> Counted(outputs[j]))
    requires Total(outputs[..i], CountOf) == Total(outputs, CountOf)
    ensures VisitOutputs(policy, myRank, root, Start(myRank, root), outputs)
         == VisitOutputs(policy, myRank, root, Start(myRank, root), outputs[..i])
    ensures forall j :: i <= j < |outputs| ==> outputs[j].count == 0
    decreases |outputs| - i
  {
    if i < |outputs| {
      assert outputs[..i + 1][..i] == outputs[..i];
      NothingLeft(outputs, i + 1);
      RanksEmpty(outputs[i]);
      RestIsEmpty(policy, myRank, root, outputs, i + 1);
    } else {
      assert outputs[..i] == outputs;
    }
  }
}
