/** Sets of ranks as arrays of 32-bit words, and the ascending list of ranks that a scan of them visits. */
module RankBits {
  import opened IntegerArithmetic

  /** A word is the set of its bits that are 1. */
  type Words32 = seq<set<nat>>

  predicate Proper(words: Words32) {
    forall a :: 0 <= a < |words| ==> forall b <- words[a] :: b < 32
  }

  predicate Has(words: Words32, rank: nat) {
    rank / 32 < |words| && rank % 32 in words[rank / 32]
  }

  /** Ranks below `p` whose bit is set, in ascending order. */
  function RanksBelow(words: Words32, p: nat): (r: seq<nat>)
    ensures |r| <= p
  {
    if p == 0 then []
    else RanksBelow(words, p - 1) + (if Has(words, p - 1) then [p - 1] else [])
  }

  function Ranks(words: Words32): seq<nat> {
    RanksBelow(words, 32 * |words|)
  }

  lemma RanksBelowAre(words: Words32, p: nat, rank: nat)
    ensures rank in RanksBelow(words, p) <==> rank < p && Has(words, rank)
  {
  }

  lemma RanksAre(words: Words32, rank: nat)
    ensures rank in Ranks(words) <==> Has(words, rank)
  {
    RanksBelowAre(words, 32 * |words|, rank);
    var q, r := DivMod(rank, 32);
  }

  predicate Ascending(s: seq<nat>) {
    forall i, j :: 0 <= i < j < |s| ==> s[i] < s[j]
  }

  lemma RanksAscend(words: Words32, p: nat)
    ensures Ascending(RanksBelow(words, p)) && forall i :: 0 <= i < |RanksBelow(words, p)| ==> RanksBelow(words, p)[i] < p
  {
  }

  /** A stretch without bits adds nothing. */
  lemma NoBits(words: Words32, p: nat, q: nat)
    requires p <= q && forall r: nat :: p <= r < q ==> !Has(words, r)
    ensures RanksBelow(words, q) == RanksBelow(words, p)
  {
    if p < q {
      NoBits(words, p, q - 1);
    }
  }

  lemma RanksGrow(words: Words32, p: nat, q: nat)
    requires p <= q
    ensures |RanksBelow(words, p)| <= |RanksBelow(words, q)|
    ensures (exists r: nat :: p <= r < q && Has(words, r)) ==> |RanksBelow(words, p)| < |RanksBelow(words, q)|
  {
    if p < q {
      RanksGrow(words, p, q - 1);
    }
  }

  /** Setting one bit: the marking step of the release function. */
  function SetBit(words: Words32, rank: nat): Words32
    requires rank / 32 < |words|
  {
    words[rank / 32 := words[rank / 32] + {rank % 32}]
  }

  lemma SetBitHas(words: Words32, rank: nat, r: nat)
    requires rank / 32 < |words|
    ensures Has(SetBit(words, rank), r) <==> r == rank || Has(words, r)
  {
    var a, b := DivMod(rank, 32);
    var c, d := DivMod(r, 32);
  }

  lemma {:induction false} SetBitCount(words: Words32, rank: nat, p: nat)
    requires rank / 32 < |words| && !Has(words, rank)
    ensures |RanksBelow(SetBit(words, rank), p)| == |RanksBelow(words, p)| + (if rank < p then 1 else 0)
  {
    if p > 0 {
      SetBitCount(words, rank, p - 1);
      SetBitHas(words, rank, p - 1);
    }
  }
}
