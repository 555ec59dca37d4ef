/** Linear congruential sequences x -> a * x + c modulo 2^64: terms, affine jumps, and
    the composition of jumps that both matrix generators rely on. */
module Lcg {
  import opened IntegerArithmetic

  const M64 := 0x1_0000_0000_0000_0000

  /** One affine map modulo 2^64; a generator step and a jump are both of this kind. */
  datatype Affine = Affine(a: nat, c: nat)

  function Apply(f: Affine, x: nat): (y: nat)
    ensures y < M64
  {
    (f.a * x + f.c) % M64
  }

  /** The `n`-th term after `x`, one step at a time. */
  function Term(f: Affine, x: nat, n: nat): nat {
    if n == 0 then x else Apply(f, Term(f, x, n - 1))
  }

  /** Applying `f` once does what `k` steps of `g` do. */
  ghost predicate Jumps(f: Affine, g: Affine, k: nat) {
    forall x: nat :: x < M64 ==> Apply(f, x) == Term(g, x, k)
  }

  lemma OneStep(f: Affine)
    ensures Jumps(f, f, 1)
  {
    forall x: nat | x < M64
      ensures Apply(f, x) == Term(f, x, 1)
    {
      assert Term(f, x, 0) == x;
    }
  }

  lemma TermInRange(f: Affine, x: nat, n: nat)
    requires x < M64
    ensures Term(f, x, n) < M64
  {
  }

  lemma TermAdd(f: Affine, x: nat, m: nat, n: nat)
    ensures Term(f, Term(f, x, m), n) == Term(f, x, m + n)
  {
    if n > 0 {
      TermAdd(f, x, m, n - 1);
    }
  }

  /** The map that applies `f` first and `g` second, as the generators compute it. */
  function Compose(f: Affine, g: Affine): Affine {
    Affine((f.a * g.a) % M64, (g.c + (f.c * g.a) % M64) % M64)
  }

  lemma ComposeApplies(f: Affine, g: Affine, x: nat)
    ensures Apply(Compose(f, g), x) == Apply(g, Apply(f, x))
  {
    ApplyReduced(g, f.a * x + f.c);
    Expand(f, g, x);
    ComposeCoefficients(f.a * g.a, g.c, f.c * g.a, x);
  }

  /** A map does not see whether its argument was reduced. */
  lemma ApplyReduced(g: Affine, y: nat)
    ensures Apply(g, y % M64) == (g.a * y + g.c) % M64
  {
    ModMul(g.a, y, M64);
    ModAdd(g.a * (y % M64), g.c, M64);
    ModAdd(g.a * y, g.c, M64);
  }

  lemma Expand(f: Affine, g: Affine, x: nat)
    ensures g.a * (f.a * x + f.c) + g.c == (f.a * g.a) * x + (g.c + f.c * g.a)
  {
    assert g.a * (f.a * x) == (f.a * g.a) * x;
  }

  lemma ComposeCoefficients(p: nat, c: nat, q: nat, x: nat)
    ensures ((p % M64) * x + (c + q % M64) % M64) % M64 == (p * x + (c + q)) % M64
  {
    ModMul(x, p, M64);
    ModAdd(q, c, M64);
    var u, v := (p % M64) * x, (c + q) % M64;
    assert (u % M64) == (p * x) % M64;
    ModAdd(u, v, M64);
    ModAdd(p * x, v, M64);
    ModAdd(c + q, p * x, M64);
  }

  lemma ComposeJumps(f: Affine, g: Affine, h: Affine, m: nat, n: nat)
    requires Jumps(f, h, m) && Jumps(g, h, n)
    ensures Jumps(Compose(f, g), h, m + n)
  {
    forall x: nat | x < M64
      ensures Apply(Compose(f, g), x) == Term(h, x, m + n)
    {
      ComposeApplies(f, g, x);
      TermAdd(h, x, m, n);
    }
  }

  /** `n` jumps of `k` steps each are `n * k` steps. */
  lemma JumpTerm(f: Affine, g: Affine, k: nat, x: nat, n: nat)
    requires Jumps(f, g, k) && x < M64
    ensures Term(f, x, n) == Term(g, x, n * k)
  {
    if n > 0 {
      JumpTerm(f, g, k, x, n - 1);
      TermInRange(f, x, n - 1);
      TermAdd(g, x, (n - 1) * k, k);
      assert n * k == (n - 1) * k + k;
    }
  }

  lemma JumpsCompose(f: Affine, g: Affine, h: Affine, k: nat, n: nat)
    requires Jumps(g, h, k) && Jumps(f, g, n)
    ensures Jumps(f, h, n * k)
  {
    forall x: nat | x < M64
      ensures Apply(f, x) == Term(h, x, n * k)
    {
      JumpTerm(g, h, k, x, n);
    }
  }
}
