/**
 * The PCG pseudo-random number generator (`Trace.Pcg`): the "pcg32" variant of the PCG
 * family, with a 64-bit linear congruential state and a 32-bit output permuted by
 * "xorshift high, random rotation" (XSH-RR). The state and the increment are unsigned
 * 64-bit integers whose arithmetic wraps modulo 2^64, as the source's `ulong` does; the
 * output is computed with the bit operations of 64- and 32-bit words.
 */
module RandomNumbers {
  /** The source's `ulong`. */
  newtype U64 = x: int | 0 <= x < 0x1_0000_0000_0000_0000

  /** An integer reduced to 64 bits, as `ulong` arithmetic does on overflow. */
  function Wrap(x: int): U64 {
    (x % 0x1_0000_0000_0000_0000) as U64
  }

  /** The increment derived from a sequence number: shifted left by one (losing the top bit) and made odd. */
  function Increment(initSeq: U64): (inc: U64)
    ensures inc % 2 == 1
  {
    Wrap(2 * initSeq as int) + 1
  }

  /** One step of the state: multiply by 6364136223846793005 and add the increment, modulo 2^64. */
  function Advance(state: U64, inc: U64): U64 {
    Wrap(state as int * 6364136223846793005 + inc as int)
  }

  /** The state shifted right by 18, xored with itself, shifted right by 27 and cut to its 32 low bits. */
  function XorShifted(state: U64): bv32 {
    (((((state as bv64) >> 18) ^ (state as bv64)) >> 27) & 0xFFFF_FFFF) as bv32
  }

  /** The rotation: the state's top five bits. */
  function Rotation(state: U64): (rot: bv32)
    ensures rot < 32
  {
    ((state as bv64) >> 59) as bv32
  }

  /** The left shift that completes the rotation to a full turn of 32: (-rot) & 31, which is 0 when rot is. */
  function Complement(rot: bv32): (k: bv32)
    ensures k < 32 && (rot + k) & 31 == 0
    ensures rot == 0 ==> k == 0
  {
    (-rot) & 31
  }

  /**
   * The output drawn from a state: the xorshifted word shifted right by the rotation,
   * or-ed with itself shifted left by the complement.
   */
  function Output(state: U64): bv32 {
    var x, rot := XorShifted(state), Rotation(state);
    (x >> rot) | (x << Complement(rot))
  }

  /** The state a generator is left in by its constructor: one step from 0, the seed added, one more step. */
  function Seeded(initState: U64, initSeq: U64): U64 {
    Advance(Wrap(Advance(0, Increment(initSeq)) as int + initState as int), Increment(initSeq))
  }

  /** The seeded state as two steps. */
  lemma SeededUnfold(initState: U64, initSeq: U64)
    ensures Seeded(initState, initSeq) == Advance(Wrap(Advance(0, Increment(initSeq)) as int + initState as int), Increment(initSeq))
  {
  }

  /** The seeded state, reached step by step. */
  lemma SeededSteps(initState: U64, initSeq: U64, inc: U64, first: U64, second: U64)
    requires inc == Increment(initSeq) && first == Advance(0, inc) && second == Advance(Wrap(first as int + initState as int), inc)
    ensures second == Seeded(initState, initSeq)
  {
    SeededUnfold(initState, initSeq);
  }

  class Pcg {
    var State: U64
    var Inc: U64

    /** `Pcg(initState, initSeq)`: a draw from state 0, the seed added, one more draw. */
    constructor(initState: U64 := 42, initSeq: U64 := 54)
      ensures Inc == Increment(initSeq) && State == Seeded(initState, initSeq)
    {
      State := 0;
      Inc := Increment(initSeq);
      new;
      var _ := Random();
      ghost var first := State;
      State := Wrap(State as int + initState as int);
      var _ := Random();
      SeededSteps(initState, initSeq, Inc, first, State);
    }

    /** `random()`: the output of the current state; the state takes one step and `Inc` stays. */
    method Random() returns (r: bv32)
      modifies this
      ensures r == Output(old(State))
      ensures State == Advance(old(State), Inc) && Inc == old(Inc)
    {
      var oldState := State;
      State := Advance(oldState, Inc);
      r := Output(oldState);
    }

    /** `random_float()`: the next output divided by 2^32 - 1. */
    method RandomFloat() returns (f: real)
      modifies this
      ensures f == Fraction(Output(old(State)) as int)
      ensures State == Advance(old(State), Inc) && Inc == old(Inc)
    {
      var r := Random();
      f := Fraction(r as int);
    }
  }

  /** What `random_float` makes of an output: a number from 0 to 1, both ends included. */
  function Fraction(r: nat): (f: real)
    requires r < 0x1_0000_0000
    ensures 0.0 <= f <= 1.0
    ensures f == 1.0 <==> r == 0xFFFF_FFFF
    ensures f == 0.0 <==> r == 0
  {
    r as real / 0xFFFF_FFFF as real
  }

  /** With a rotation of zero the xorshifted word comes out unchanged. */
  lemma OutputWithoutRotation(state: U64)
    requires Rotation(state) == 0
    ensures Output(state) == XorShifted(state)
  {
  }

  /** Two generators built from the same seeds draw the same first number: the output depends on the seeds alone. */
  method SameSeedsSameDraw(initState: U64, initSeq: U64) returns (a: bv32, b: bv32)
    ensures a == b && a == Output(Seeded(initState, initSeq))
  {
    var first := new Pcg(initState, initSeq);
    var second := new Pcg(initState, initSeq);
    a := first.Random();
    b := second.Random();
  }

  /** The default generator: increment 109 and, after seeding, the state of the tests. */
  lemma DefaultSeed()
    ensures Increment(54) == 109
    ensures Seeded(42, 54) == 1753877967969059832
  {
    assert Increment(54) == 109;
    assert Advance(0, 109) == 109;
    assert Advance(151, 109) == 1753877967969059832;
  }

  /** The steps the default generator takes in its first six draws. */
  lemma DefaultAdvances()
    ensures Advance(1753877967969059832, 109) == 3118741472915405573
    ensures Advance(3118741472915405573, 109) == 10030406343644371790
    ensures Advance(10030406343644371790, 109) == 17800363335834976035
    ensures Advance(17800363335834976035, 109) == 16987470693695682196
    ensures Advance(16987470693695682196, 109) == 9440484487994590321
  {
  }

  /** One draw of the test: the generator is in a known state whose output is known. */
  method DrawKnown(pcg: Pcg, ghost state: U64, ghost expected: bv32) returns (r: bv32)
    requires pcg.State == state && Output(state) == expected
    modifies pcg
    ensures r == expected && pcg.State == Advance(state, pcg.Inc) && pcg.Inc == old(pcg.Inc)
  {
    r := pcg.Random();
  }

  /** The test of the generator: six draws from a default `Pcg`. */
  method DefaultSequence() returns (rs: seq<bv32>)
    ensures rs == [2707161783, 2068313097, 3122475824, 2211639955, 3215226955, 3421331566]
  {
    var pcg := new Pcg();
    DefaultSeed();
    DefaultAdvances();
    var r0 := DrawKnown(pcg, 1753877967969059832, 2707161783);
    var r1 := DrawKnown(pcg, 3118741472915405573, 2068313097);
    var r2 := DrawKnown(pcg, 10030406343644371790, 3122475824);
    var r3 := DrawKnown(pcg, 17800363335834976035, 2211639955);
    var r4 := DrawKnown(pcg, 16987470693695682196, 3215226955);
    var r5 := DrawKnown(pcg, 9440484487994590321, 3421331566);
    rs := [r0, r1, r2, r3, r4, r5];
  }
}
