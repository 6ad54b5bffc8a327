/**
 One step of the 32-bit xorshift generator: three shifts, each of which can be taken
 back. No two states lead to one, and only zero leads to zero.
 */
module XorShift {

  function Xor(s: bv32, t: bv32): bv32 {
    s ^ t
  }

  function MixLeft13(s: bv32): bv32 {
    s ^ (s << 13)
  }

  function Right17(s: bv32): bv32 {
    s >> 17
  }

  function MixRight17(s: bv32): bv32 {
    Xor(s, Right17(s))
  }

  function MixLeft5(s: bv32): bv32 {
    s ^ (s << 5)
  }

  function Step(s: bv32): bv32 {
    MixLeft5(MixRight17(MixLeft13(s)))
  }

  // ------------------------------------------------------- each shift alone

  lemma Left13Bits(s: bv32, t: bv32)
    requires s ^ (s << 13) == t ^ (t << 13)
    ensures s == t
  {
  }

  lemma Left5Bits(s: bv32, t: bv32)
    requires s ^ (s << 5) == t ^ (t << 5)
    ensures s == t
  {
  }

  lemma Left13Injective(s: bv32, t: bv32)
    requires MixLeft13(s) == MixLeft13(t)
    ensures s == t
  {
    Left13Bits(s, t);
  }

  lemma Left5Injective(s: bv32, t: bv32)
    requires MixLeft5(s) == MixLeft5(t)
    ensures s == t
  {
    Left5Bits(s, t);
  }

  lemma XorTwice(s: bv32, c: bv32)
    ensures Xor(Xor(s, c), c) == s
  {
  }

  lemma HighBitsStay(s: bv32, c: bv32)
    requires c >> 15 == 0
    ensures Right17(Xor(s, c)) == Right17(s)
  {
  }

  lemma Right17IsSmall(s: bv32)
    ensures Right17(s) >> 15 == 0
  {
  }

  /** Shifting right by more than half the word twice takes the shift back. */
  lemma Right17Undone(s: bv32)
    ensures MixRight17(MixRight17(s)) == s
  {
    Right17IsSmall(s);
    HighBitsStay(s, Right17(s));
    XorTwice(s, Right17(s));
  }

  lemma Right17Injective(s: bv32, t: bv32)
    requires MixRight17(s) == MixRight17(t)
    ensures s == t
  {
    Right17Undone(s);
    Right17Undone(t);
  }

  // ------------------------------------------------------------- the step

  /** No two states have the same next state. */
  lemma StepInjective(s: bv32, t: bv32)
    requires Step(s) == Step(t)
    ensures s == t
  {
    Left5Injective(MixRight17(MixLeft13(s)), MixRight17(MixLeft13(t)));
    Right17Injective(MixLeft13(s), MixLeft13(t));
    Left13Injective(s, t);
  }

  lemma ZeroStays()
    ensures Step(0) == 0
  {
  }

  /** A generator that does not start at zero never gets there. */
  lemma StepNonZero(s: bv32)
    ensures Step(s) == 0 <==> s == 0
  {
    ZeroStays();
    if Step(s) == 0 {
      StepInjective(s, 0);
    }
  }
}
