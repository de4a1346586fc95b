/**
 * The fallback random numbers: a linear congruential generator, and a sampler that draws from it
 * until the drawn number, cut to as many bits as the bound has, is within the bound.
 */
module RandomSource {
  import opened Bytes

  type word = x: int | 0 <= x < WORD

  // ----- The generator

  /** mDNSRandomFromSeed, in 32-bit arithmetic. */
  function Step(seed: word): (r: word) {
    (seed * 21 + 1) % WORD
  }

  function Draws(seed: word, n: nat): (r: word) {
    if n == 0 then seed else Step(Draws(seed, n - 1))
  }

  /** The first draws from 0, and one that wraps. */
  lemma FirstDraws()
    ensures Draws(0, 1) == 1 && Draws(0, 2) == 22 && Draws(0, 3) == 463 && Draws(0, 4) == 9724
    ensures Step(WORD - 1) == WORD - 20
  {
    assert Draws(0, 1) == 1;
    assert Draws(0, 2) == 22;
    assert Draws(0, 3) == 463;
  }

  function Pow2(k: nat): (p: nat)
    ensures p >= 1
  {
    if k == 0 then 1 else 2 * Pow2(k - 1)
  }

  /** The same generator without the 32-bit bound. */
  function Unbounded(s: int, n: nat): int {
    if n == 0 then s else Unbounded(s, n - 1) * 21 + 1
  }

  /** `d` divides the difference of `a` and `b`. */
  ghost predicate Congruent(a: int, b: int, d: int) {
    exists q: int :: Apart(a, b, q, d)
  }

  ghost predicate Apart(a: int, b: int, q: int, d: int) {
    a == b + q * d
  }

  lemma CongruentBy(a: int, b: int, d: int, q: int)
    requires a == b + q * d
    ensures Congruent(a, b, d)
  {
    assert Apart(a, b, q, d);
  }

  lemma CongruentTo(a: int, b: int, d: int) returns (q: int)
    requires Congruent(a, b, d)
    ensures a == b + q * d
  {
    q :| Apart(a, b, q, d);
  }

  lemma CongruentChain(a: int, b: int, c: int, d: int)
    requires Congruent(a, b, d) && Congruent(b, c, d)
    ensures Congruent(a, c, d) && Congruent(c, a, d)
  {
    var q := CongruentTo(a, b, d);
    var r := CongruentTo(b, c, d);
    assert (q + r) * d == q * d + r * d;
    CongruentBy(a, c, d, q + r);
    assert (-(q + r)) * d == -((q + r) * d);
    CongruentBy(c, a, d, -(q + r));
  }

  // ----- A jump of 2^k steps adds 2^k, modulo 2^(k+1)

  /** 2^k steps are the map s -> JumpFactor(k) * s + JumpOffset(k). */
  function JumpFactor(k: nat): int {
    if k == 0 then 21 else JumpFactor(k - 1) * JumpFactor(k - 1)
  }

  function JumpOffset(k: nat): int {
    if k == 0 then 1 else JumpOffset(k - 1) * (JumpFactor(k - 1) + 1)
  }

  lemma {:induction false} UnboundedAdds(s: int, m: nat, n: nat)
    ensures Unbounded(s, m + n) == Unbounded(Unbounded(s, m), n)
  {
    if n > 0 { UnboundedAdds(s, m, n - 1); }
  }

  lemma {:induction false} Jump(s: int, k: nat)
    ensures Unbounded(s, Pow2(k)) == JumpFactor(k) * s + JumpOffset(k)
    decreases k
  {
    if k == 0 {
      assert Unbounded(s, 1) == Unbounded(s, 0) * 21 + 1;
    } else {
      var p, a, c := Pow2(k - 1), JumpFactor(k - 1), JumpOffset(k - 1);
      UnboundedAdds(s, p, p);
      Jump(s, k - 1);
      Jump(a * s + c, k - 1);
      JumpTwice(a, c, s);
    }
  }

  lemma Square(x: int)
    ensures (1 + 4 * x) * (1 + 4 * x) == 1 + 8 * x + 16 * (x * x)
  {
  }

  lemma Regroup(p: int, x: int, m: int)
    ensures p * (x * m) == x * (p * m)
  {
  }

  lemma SquareForm(p: int, m: int)
    ensures (1 + 4 * (p * m)) * (1 + 4 * (p * m)) == 1 + 4 * (2 * p * (m + 2 * (p * m * m)))
  {
    var x := p * m;
    var y := x * m;
    Square(x);
    Regroup(p, x, m);
    assert 2 * p * (m + 2 * y) == 2 * (p * m) + 4 * (p * y);
  }

  lemma {:induction false} FactorForm(k: nat) returns (m: int)
    ensures JumpFactor(k) == 1 + 4 * (Pow2(k) * m)
  {
    if k == 0 {
      m := 5;
    } else {
      var p := Pow2(k - 1);
      var m0 := FactorForm(k - 1);
      m := m0 + 2 * (p * m0 * m0);
      SquareForm(p, m0);
    }
  }

  lemma {:induction false} OffsetForm(k: nat) returns (q: int)
    ensures JumpOffset(k) == Pow2(k) * (2 * q + 1)
  {
    if k == 0 {
      q := 0;
    } else {
      var p := Pow2(k - 1);
      var q0 := OffsetForm(k - 1);
      var m := FactorForm(k - 1);
      q := q0 + (p * m) * (2 * q0 + 1);
      OddTimesOdd(p, q0, p * m);
    }
  }

  lemma JumpTwice(a: int, c: int, s: int)
    ensures a * (a * s + c) + c == (a * a) * s + c * (a + 1)
  {
    assert a * (a * s + c) == a * (a * s) + a * c;
    assert a * (a * s) == (a * a) * s;
  }

  lemma OddTimesOdd(p: int, q: int, x: int)
    ensures p * (2 * q + 1) * (1 + 4 * x + 1) == 2 * p * (2 * (q + x * (2 * q + 1)) + 1)
  {
    var u := 2 * q + 1;
    var v := u + 2 * (x * u);
    assert u * (1 + 4 * x + 1) == 2 * v;
    assert p * u * (1 + 4 * x + 1) == p * (u * (1 + 4 * x + 1));
    assert p * (2 * v) == 2 * p * v;
  }

  lemma JumpSum(p: int, m: int, q: int, s: int)
    ensures (1 + 4 * (p * m)) * s + p * (2 * q + 1) == s + p + (2 * (m * s) + q) * (2 * p)
  {
    var t := p * (m * s);
    assert (p * m) * s == t;
    assert (1 + 4 * (p * m)) * s == s + 4 * ((p * m) * s);
    assert p * (2 * q + 1) == 2 * (p * q) + p;
    assert (2 * (m * s) + q) * (2 * p) == 4 * t + 2 * (p * q);
  }

  lemma JumpAdds(s: int, k: nat)
    ensures Congruent(Unbounded(s, Pow2(k)), s + Pow2(k), Pow2(k + 1))
  {
    var p := Pow2(k);
    var m := FactorForm(k);
    var q := OffsetForm(k);
    Jump(s, k);
    JumpSum(p, m, q, s);
    CongruentBy(Unbounded(s, p), s + p, Pow2(k + 1), 2 * (m * s) + q);
  }

  // ----- 2^k successive values take each residue modulo 2^k exactly once

  lemma EvenMultiple(a: int, y: int, t: int, p: int)
    requires a == y + t * p
    ensures t % 2 == 0 ==> Congruent(a, y, 2 * p)
    ensures t % 2 == 1 ==> Congruent(a + p, y, 2 * p)
  {
    if t % 2 == 0 {
      assert t == 2 * (t / 2);
      CongruentBy(a, y, 2 * p, t / 2);
    } else {
      var h := (t + 1) / 2;
      assert t == 2 * h - 1;
      assert (2 * h - 1) * p == h * (2 * p) - p;
      CongruentBy(a + p, y, 2 * p, h);
    }
  }

  lemma {:induction false} Reaches(s: int, k: nat, y: int) returns (j: nat)
    ensures j < Pow2(k) && Congruent(Unbounded(s, j), y, Pow2(k))
  {
    hide Congruent, Apart;
    if k == 0 {
      j := 0;
      CongruentBy(s, y, 1, s - y);
    } else {
      hide Unbounded;
      var p := Pow2(k - 1);
      j := Reaches(s, k - 1, y);
      var t := CongruentTo(Unbounded(s, j), y, p);
      EvenMultiple(Unbounded(s, j), y, t, p);
      if t % 2 == 1 {
        JumpAdds(Unbounded(s, j), k - 1);
        UnboundedAdds(s, j, p);
        CongruentChain(Unbounded(s, j + p), Unbounded(s, j) + p, y, 2 * p);
        j := j + p;
      }
    }
  }

  /** Half a period later the value is the same modulo half as much. */
  lemma HalfWay(s: int, k: nat, i: nat)
    requires i < 2 * Pow2(k)
    ensures var p := Pow2(k);
            Congruent(Unbounded(s, i), Unbounded(s, if i < p then i else i - p) + (if i < p then 0 else p), 2 * p)
    ensures Congruent(Unbounded(s, i), Unbounded(s, if i < Pow2(k) then i else i - Pow2(k)), Pow2(k))
  {
    var p := Pow2(k);
    if i < p {
      CongruentBy(Unbounded(s, i), Unbounded(s, i), 2 * p, 0);
      CongruentBy(Unbounded(s, i), Unbounded(s, i), p, 0);
    } else {
      UnboundedAdds(s, i - p, p);
      JumpAdds(Unbounded(s, i - p), k);
      var q := CongruentTo(Unbounded(s, i), Unbounded(s, i - p) + p, 2 * p);
      assert q * (2 * p) + p == (2 * q + 1) * p;
      CongruentBy(Unbounded(s, i), Unbounded(s, i - p), p, 2 * q + 1);
    }
  }

  /** Values that agree modulo 2p agree modulo p; if they are `u` and `v` half periods on, u and v agree too. */
  lemma SameHalf(a: int, b: int, x: int, y: int, z: int, u: int, v: int, p: int)
    requires a + u * p + x * (2 * p) == b + v * p + y * (2 * p) + z * (2 * p)
    ensures Congruent(a, b, p)
    ensures a == b && p != 0 && 0 <= u <= 1 && 0 <= v <= 1 ==> u == v
  {
    var d := 2 * (y + z - x) + v - u;
    assert a == b + d * p;
    CongruentBy(a, b, p, d);
    if a == b && p != 0 { assert d == 0; }
  }

  lemma {:induction false} ReachesOnce(s: int, k: nat, i: nat, j: nat)
    requires i < Pow2(k) && j < Pow2(k) && Congruent(Unbounded(s, i), Unbounded(s, j), Pow2(k))
    ensures i == j
    decreases k
  {
    hide Congruent, Apart, Unbounded;
    if k > 0 {
      var p := Pow2(k - 1);
      var u, v := if i < p then 0 else 1, if j < p then 0 else 1;
      var a, b := if i < p then i else i - p, if j < p then j else j - p;
      HalfWay(s, k - 1, i);
      HalfWay(s, k - 1, j);
      var x := CongruentTo(Unbounded(s, i), Unbounded(s, a) + (if i < p then 0 else p), 2 * p);
      var y := CongruentTo(Unbounded(s, j), Unbounded(s, b) + (if j < p then 0 else p), 2 * p);
      var z := CongruentTo(Unbounded(s, i), Unbounded(s, j), 2 * p);
      assert u * p == if i < p then 0 else p;
      assert v * p == if j < p then 0 else p;
      SameHalf(Unbounded(s, a), Unbounded(s, b), x, y, z, u, v, p);
      ReachesOnce(s, k - 1, a, b);
    }
  }

  // ----- The 32-bit generator, cut to k bits

  lemma {:induction false} Pow2Adds(j: nat, k: nat)
    ensures Pow2(j + k) == Pow2(j) * Pow2(k)
  {
    if j > 0 { Pow2Adds(j - 1, k); }
  }

  lemma WordIsPow2()
    ensures Pow2(32) == WORD
  {
    assert Pow2(8) == 256;
    Pow2Adds(8, 8);
    Pow2Adds(16, 16);
  }

  lemma NextCongruent(a: int, b: int)
    requires Congruent(a, b, WORD)
    ensures Congruent((a * 21 + 1) % WORD, b * 21 + 1, WORD)
  {
    var q := CongruentTo(a, b, WORD);
    hide Congruent;
    CongruentBy((a * 21 + 1) % WORD, b * 21 + 1, WORD, 21 * q - (a * 21 + 1) / WORD);
  }

  lemma {:induction false} DrawsUnbounded(seed: word, n: nat)
    ensures Congruent(Draws(seed, n), Unbounded(seed, n), WORD)
  {
    if n == 0 {
      CongruentBy(seed, seed, WORD, 0);
    } else {
      hide Congruent;
      DrawsUnbounded(seed, n - 1);
      NextCongruent(Draws(seed, n - 1), Unbounded(seed, n - 1));
    }
  }

  lemma CoarserModulus(a: int, b: int, m: int, d: int)
    requires Congruent(a, b, m * d)
    ensures Congruent(a, b, d)
  {
    var q := CongruentTo(a, b, m * d);
    assert q * (m * d) == (q * m) * d;
    CongruentBy(a, b, d, q * m);
  }

  lemma DrawsModulo(seed: word, n: nat, k: nat)
    requires k <= 32
    ensures Congruent(Draws(seed, n), Unbounded(seed, n), Pow2(k))
  {
    hide Congruent, Pow2, Draws, Unbounded;
    DrawsUnbounded(seed, n);
    WordIsPow2();
    Pow2Adds(32 - k, k);
    CoarserModulus(Draws(seed, n), Unbounded(seed, n), Pow2(32 - k), Pow2(k));
  }

  lemma ModuloIs(a: int, q: int, y: int, d: int)
    requires 0 <= y < d && a == y + q * d
    ensures a % d == y
  {
    var t := a / d - q;
    assert a == (a / d) * d + a % d;
    assert t * d == y - a % d;
    assert t * d < d && t * d > -d;
    assert t == 0 by {
      if t > 0 { Larger(t, d); } else if t < 0 { Larger(-t, d); }
    }
  }

  lemma Larger(t: int, d: int)
    requires t >= 1 && d > 0
    ensures t * d >= d
  {
  }

  /** The residue is the one number below the modulus that is congruent. */
  lemma Residue(a: int, y: int, d: int)
    requires 0 <= y < d
    ensures a % d == y <==> Congruent(a, y, d)
  {
    if a % d == y {
      assert a == (a / d) * d + a % d;
      CongruentBy(a, y, d, a / d);
    }
    if Congruent(a, y, d) {
      var q := CongruentTo(a, y, d);
      ModuloIs(a, q, y, d);
    }
  }

  lemma CongruentBack(a: int, b: int, d: int)
    requires Congruent(a, b, d)
    ensures Congruent(b, a, d)
  {
    CongruentBy(b, b, d, 0);
    CongruentChain(a, b, b, d);
  }

  /**
   * Among any 2^k successive draws, the low k bits take every value: the draw with a given value is
   * there, and there is no other.
   */
  lemma EveryValueOnce(seed: word, k: nat, y: nat) returns (j: nat)
    requires k <= 32 && y < Pow2(k)
    ensures j < Pow2(k) && Draws(seed, j) % Pow2(k) == y
    ensures forall i: nat :: i < Pow2(k) && Draws(seed, i) % Pow2(k) == y ==> i == j
  {
    hide Congruent, Pow2, Draws, Unbounded;
    var d := Pow2(k);
    j := Reaches(seed, k, y);
    DrawsModulo(seed, j, k);
    CongruentChain(Draws(seed, j), Unbounded(seed, j), y, d);
    Residue(Draws(seed, j), y, d);
    forall i: nat | i < d && Draws(seed, i) % d == y ensures i == j {
      Residue(Draws(seed, i), y, d);
      DrawsModulo(seed, i, k);
      CongruentBack(Draws(seed, i), Unbounded(seed, i), d);
      CongruentChain(Unbounded(seed, i), Draws(seed, i), y, d);
      CongruentBack(Unbounded(seed, j), y, d);
      CongruentChain(Unbounded(seed, i), y, Unbounded(seed, j), d);
      ReachesOnce(seed, k, i, j);
    }
  }

  lemma {:induction false} DrawsAdd(seed: word, m: nat, n: nat)
    ensures Draws(seed, m + n) == Draws(Draws(seed, m), n)
  {
    if n > 0 { DrawsAdd(seed, m, n - 1); }
  }

  // ----- The sampler

  /** The low bits kept: the least 2^k - 1 that is at least `max`, and at least one bit. */
  method MaskFor(max: word) returns (mask: word, ghost k: nat)
    ensures 1 <= k <= 32 && mask == Pow2(k) - 1 && max <= mask
    ensures k > 1 ==> Pow2(k - 1) - 1 < max
  {
    mask, k := 1, 1;
    WordIsPow2();
    while mask < max
      invariant 1 <= k <= 32 && mask == Pow2(k) - 1 && (k > 1 ==> Pow2(k - 1) - 1 < max)
      decreases WORD - mask
    {
      if k == 32 { assert false; }
      PowGrows(k + 1, 32);
      mask, k := mask * 2 + 1, k + 1;
    }
  }

  lemma {:induction false} PowGrows(j: nat, k: nat)
    requires j <= k
    ensures Pow2(j) <= Pow2(k)
    decreases k - j
  {
    if j < k { PowGrows(j + 1, k); }
  }

  class Source {
    var seed: word

    constructor (platformSeed: word)
      ensures seed == Draws(platformSeed, 100)
    {
      seed := Mixed(platformSeed, 100);
      new;
      MixedIsDraws(platformSeed, 100);
    }

    method RandomNumber() returns (r: word)
      modifies this
      ensures seed == Step(old(seed)) && r == seed
    {
      seed := Step(seed);
      r := seed;
    }

    /**
     * mDNSRandom: it always comes to an end, after at most mask + 1 draws, with the first draw whose
     * low bits are within the bound.
     */
    method Random(max: word) returns (ret: word, ghost k: nat, ghost draws: nat)
      modifies this
      ensures ret <= max && 1 <= k <= 32 && max < Pow2(k) && (k > 1 ==> Pow2(k - 1) <= max)
      ensures 1 <= draws <= Pow2(k) && seed == Draws(old(seed), draws) && ret == seed % Pow2(k)
      ensures forall i :: 1 <= i < draws ==> Draws(old(seed), i) % Pow2(k) > max
    {
      hide Pow2, Draws, Step;
      var mask;
      mask, k := MaskFor(max);
      var bound: int := mask;
      ghost var start := seed;
      ghost var j := EveryValueOnce(Step(start), k, 0);
      FirstDraw(start, j);
      ret := RandomNumber();
      ret := ret % (bound + 1);
      draws := 1;
      while ret > max
        invariant 1 <= draws <= j + 1 && seed == Draws(start, draws) && ret == seed % Pow2(k)
        invariant forall i :: 1 <= i < draws ==> Draws(start, i) % Pow2(k) > max
        decreases j + 1 - draws
      {
        NextDraw(start, draws);
        ret := RandomNumber();
        ret := ret % (bound + 1);
        draws := draws + 1;
      }
    }
  }

  lemma FirstDraw(seed: word, j: nat)
    ensures Draws(seed, 0) == seed && Draws(seed, 1) == Step(seed) && Draws(seed, 1 + j) == Draws(Step(seed), j)
  {
    DrawsAdd(seed, 1, j);
    assert Draws(seed, 1) == Step(Draws(seed, 0));
  }

  lemma NextDraw(seed: word, n: nat)
    ensures Draws(seed, n + 1) == Step(Draws(seed, n))
  {
  }

  /** mDNSMixRandomSeed. */
  function Mixed(seed: word, iteration: nat): word
    decreases iteration
  {
    if iteration == 0 then seed else Mixed(Step(seed), iteration - 1)
  }

  lemma {:induction false} MixedIsDraws(seed: word, n: nat)
    ensures Mixed(seed, n) == Draws(seed, n)
    decreases n
  {
    if n > 0 {
      MixedIsDraws(Step(seed), n - 1);
      DrawsAdd(seed, 1, n - 1);
      assert Draws(seed, 1) == Step(seed);
    }
  }
}
