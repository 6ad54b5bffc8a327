/**
 The 32-bit xorshift generator and the Poisson sampler that draws from it. A step never
 maps two states to one and never reaches zero, so every seed runs in a cycle through
 itself, every draw lies strictly between 0 and 1, and the sampling loop ends.
 */
module Prng {
  import opened Numbers
  import opened Wrappers
  import opened Collections
  import opened XorShift

  const WORDS: int := 0x1_0000_0000
  const DEFAULT_SEED: bv32 := 0x9e3779b9

  // ----------------------------------------------------------------- cycles

  ghost function Iterate(s: bv32, n: nat): bv32 {
    if n == 0 then s else Step(Iterate(s, n - 1))
  }

  lemma {:induction false} IterateNonZero(s: bv32, n: nat)
    requires s != 0
    ensures Iterate(s, n) != 0
  {
    if n > 0 {
      IterateNonZero(s, n - 1);
      StepNonZero(Iterate(s, n - 1));
    }
  }

  /** Equal states have equal pasts. */
  lemma {:induction false} IterateCancels(s: bv32, i: nat, j: nat)
    requires i <= j && Iterate(s, i) == Iterate(s, j)
    ensures Iterate(s, j - i) == s
    decreases i
  {
    if i > 0 {
      StepInjective(Iterate(s, i - 1), Iterate(s, j - 1));
      IterateCancels(s, i - 1, j - 1);
    }
  }

  lemma AsIntInjective(s: bv32, t: bv32)
    ensures 0 <= s as int < WORDS
    ensures s as int == t as int ==> s == t
  {
    assert (s as int) as bv32 == s && (t as int) as bv32 == t;
  }

  /** A list of numbers below n that is longer than n repeats one. */
  lemma SomeRepeats(states: seq<nat>, n: nat)
    requires |states| > n && forall x :: x in states ==> x < n
    ensures exists i, j :: 0 <= i < j < |states| && states[i] == states[j]
  {
    if NoDuplicates(states) {
      DistinctBounded(states, Below(n));
    }
  }

  /** Every seed comes back to itself, after at most as many steps as there are words. */
  lemma EverySeedIsPeriodic(s: bv32) returns (period: nat)
    ensures 0 < period <= WORDS && Iterate(s, period) == s
  {
    var states: seq<nat> := seq(WORDS + 1, i requires 0 <= i => Word(Iterate(s, i)));
    SomeRepeats(states, WORDS);
    var i, j :| 0 <= i < j < |states| && states[i] == states[j];
    AsIntInjective(Iterate(s, i), Iterate(s, j));
    IterateCancels(s, i, j);
    period := j - i;
  }

  function Word(s: bv32): (n: nat)
    ensures n < WORDS
  {
    AsIntInjective(s, s);
    s as int
  }

  // ------------------------------------------------------------------ draws

  function Fraction(s: bv32): real {
    Word(s) as real / WORDS as real
  }

  lemma FractionBounds(s: bv32)
    requires s != 0
    ensures 1.0 / WORDS as real <= Fraction(s) <= 1.0 - 1.0 / WORDS as real
    ensures 0.0 < Fraction(s) < 1.0
  {
    if Word(s) == 0 {
      AsIntInjective(s, 0);
      assert false;
    }
  }

  class DeterministicRandom {
    const seed: bv32
    var state: bv32
    ghost var drawn: nat

    ghost predicate Valid()
      reads this
    {
      seed != 0 && state == Iterate(seed, drawn)
    }

    /** From the low 32 bits of the seed; zero is replaced. */
    constructor (seedBits: bv32)
      ensures Valid() && drawn == 0
      ensures seed == if seedBits == 0 then DEFAULT_SEED else seedBits
    {
      seed := if seedBits == 0 then DEFAULT_SEED else seedBits;
      state := if seedBits == 0 then DEFAULT_SEED else seedBits;
      drawn := 0;
    }

    method Next() returns (r: real)
      requires Valid()
      modifies this
      ensures Valid() && drawn == old(drawn) + 1
      ensures r == Fraction(Iterate(seed, drawn)) && 0.0 < r < 1.0
      ensures 1.0 / WORDS as real <= r <= 1.0 - 1.0 / WORDS as real
    {
      var s := state;
      s := MixLeft13(s);
      s := MixRight17(s);
      s := MixLeft5(s);
      state := s;
      drawn := drawn + 1;
      IterateNonZero(seed, drawn);
      FractionBounds(state);
      r := Fraction(state);
    }
  }

  // ---------------------------------------------------------------- sampling

  /** Product of n draws of a generator that has drawn `start` times before. */
  ghost function PartialProduct(seed: bv32, start: nat, n: nat): real {
    if n == 0 then 1.0 else Portion(PartialProduct(seed, start, n - 1), Fraction(Iterate(seed, start + n)))
  }

  /** Draws after which a product of draws is certainly no longer above `limit`. */
  function DrawBound(limit: real): int
    requires limit > 0.0
  {
    (WORDS as real / limit).Floor + 1
  }

  lemma ProductShrinks(product: real, draw: real, n: nat)
    requires product > 0.0 && 0.0 < draw <= 1.0 - 1.0 / WORDS as real
    requires Portion(product, WORDS as real + n as real) <= WORDS as real
    ensures Portion(product, draw) > 0.0
    ensures Portion(Portion(product, draw), WORDS as real + n as real + 1.0) <= WORDS as real
  {
    var w, m := WORDS as real, WORDS as real + n as real;
    var top := (w - 1.0) / w;
    assert top == 1.0 - 1.0 / w;
    PortionMonotone(draw, top, m + 1.0);
    assert top * (m + 1.0) <= m by {
      assert (w - 1.0) * (m + 1.0) <= w * m;
      TopShrinks(w, m, top);
    }
    assert Portion(draw, m + 1.0) <= m;
    PortionMonotone(Portion(draw, m + 1.0), m, product);
    PortionAssociates(product, draw, m + 1.0);
  }

  lemma TopShrinks(w: real, m: real, top: real)
    requires w > 0.0 && top * w == w - 1.0 && (w - 1.0) * (m + 1.0) <= w * m
    ensures top * (m + 1.0) <= m
  {
    var excess := top * (m + 1.0) - m;
    assert excess * w == (w - 1.0) * (m + 1.0) - w * m;
    assert excess * w <= 0.0;
  }

  lemma PortionAssociates(x: real, y: real, z: real)
    ensures Portion(Portion(x, y), z) == Portion(Portion(y, z), x)
  {
  }

  /** While a product is above the limit, the number of its draws is below the bound. */
  lemma AboveLimitIsBounded(product: real, limit: real, n: nat)
    requires product > limit > 0.0 && Portion(product, WORDS as real + n as real) <= WORDS as real
    ensures n < DrawBound(limit)
  {
    var w, m := WORDS as real, WORDS as real + n as real;
    PortionMonotone(limit, product, m);
    QuotientAbove(limit, m, w);
    assert n as real < w / limit;
  }

  lemma QuotientAbove(limit: real, m: real, w: real)
    requires limit > 0.0 && limit * m <= w
    ensures m <= w / limit
  {
    var q := w / limit;
    assert (q - m) * limit >= 0.0;
  }

  /**
   Counts how many draws keep the product of draws above the limit. The loop ends for
   every state of the generator and every positive limit, within a bound that depends on
   the limit alone.
   */
  method CountDraws(limit: real, random: DeterministicRandom) returns (count: nat)
    requires random.Valid() && limit > 0.0
    modifies random
    ensures random.Valid() && random.drawn == old(random.drawn) + count + 1
    ensures forall k :: 1 <= k <= count ==> PartialProduct(random.seed, old(random.drawn), k) > limit
    ensures PartialProduct(random.seed, old(random.drawn), count + 1) <= limit
    ensures count <= DrawBound(limit)
  {
    ghost var start := random.drawn;
    var product: real := 1.0;
    var drawn := 0;
    var more := true;
    while more
      invariant random.Valid() && random.drawn == start + drawn && product == PartialProduct(random.seed, start, drawn)
      invariant product > 0.0 && Portion(product, WORDS as real + drawn as real) <= WORDS as real
      invariant forall k :: 1 <= k < drawn ==> PartialProduct(random.seed, start, k) > limit
      invariant more ==> drawn == 0 || product > limit
      invariant !more ==> drawn > 0 && product <= limit
      invariant drawn <= DrawBound(limit) + 1
      decreases DrawBound(limit) + 1 - drawn, if more then 1 else 0
    {
      if drawn > 0 {
        AboveLimitIsBounded(product, limit, drawn);
      }
      var draw := random.Next();
      ProductShrinks(product, draw, drawn);
      product := Portion(product, draw);
      drawn := drawn + 1;
      more := product > limit;
    }
    count := drawn - 1;
  }

  const SMALL_MEAN: real := 30.0

  datatype ArrivalError = InvalidArrivalMean

  /** The functions of the real line that the sampler calls; `normal` turns two draws into a normal one. */
  datatype RealFunctions = RealFunctions(exp: real -> real, sqrt: real -> real, normal: (real, real) -> real)

  ghost predicate ExpIsPositive(f: RealFunctions) {
    forall x :: f.exp(x) > 0.0
  }

  /** The draw n calls after the generator has drawn `start` times. */
  ghost function DrawAt(seed: bv32, start: nat, n: nat): real {
    Fraction(Iterate(seed, start + n))
  }

  /** The large-mean branch before rounding: the mean plus a normal deviation, corrected for continuity. */
  ghost function Deviated(f: RealFunctions, mean: real, first: real, second: real): real {
    mean + f.sqrt(mean) * f.normal(first, second) + 0.5
  }

  /** `samplePoissonCount` for a finite mean. */
  method SamplePoissonCount(f: RealFunctions, mean: real, random: DeterministicRandom)
    returns (r: Result<nat, ArrivalError>)
    requires random.Valid() && ExpIsPositive(f)
    modifies random
    ensures random.Valid()
    ensures r.Err? <==> mean < 0.0
    ensures mean <= 0.0 ==> random.drawn == old(random.drawn)
    ensures mean == 0.0 ==> r == Ok(0)
    ensures 0.0 < mean < SMALL_MEAN ==>
              && r.Ok? && random.drawn == old(random.drawn) + r.value + 1 && r.value <= DrawBound(f.exp(-mean))
              && PartialProduct(random.seed, old(random.drawn), r.value + 1) <= f.exp(-mean)
              && forall k :: 1 <= k <= r.value ==> PartialProduct(random.seed, old(random.drawn), k) > f.exp(-mean)
    ensures mean >= SMALL_MEAN ==>
              && r.Ok? && random.drawn == old(random.drawn) + 2
              && var deviated := Deviated(f, mean, DrawAt(random.seed, old(random.drawn), 1),
                                          DrawAt(random.seed, old(random.drawn), 2));
                 r.value as real <= deviated < r.value as real + 1.0 || (r.value == 0 && deviated < 0.0)
  {
    if mean < 0.0 {
      return Err(InvalidArrivalMean);
    }
    if mean == 0.0 {
      return Ok(0);
    }
    if mean < SMALL_MEAN {
      var count := CountDraws(f.exp(-mean), random);
      return Ok(count);
    }
    var first := random.Next();
    var second := random.Next();
    var rounded := (mean + f.sqrt(mean) * f.normal(first, second) + 0.5).Floor;
    return Ok(if rounded > 0 then rounded else 0);
  }
}
