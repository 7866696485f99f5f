/** The pseudo-random generator of tasks/libc/stdlib/rand.c. */
module Rand {

  const TWO32: nat := 0x1_0000_0000

  /** An unsigned int. */
  type Word = x: int | 0 <= x < TWO32

  datatype Seed = Seed(s0: Word, s1: Word)

  const STEP: Word := 0xa859c317

  function Add(x: Word, y: Word): Word
  {
    (x + y) % TWO32
  }

  function Sub(x: Word, y: Word): Word
  {
    (x - y) % TWO32
  }

  function RotateBits(b: bv32): bv32
  {
    (b << 13) | (b >> 19)
  }

  function Rotate13(x: Word): Word
  {
    RotateBits(x as bv32) as int
  }

  function LowBits(b: bv32): bv32
  {
    b & 0x7FFF_FFFF
  }

  /** The low 31 bits, a non-negative int. */
  function Low31(x: Word): Word
  {
    LowBits(x as bv32) as int
  }

  /** The seed after s. */
  function Next(s: Seed): Seed
  {
    var s0 := Add(Add(s.s0, STEP), Rotate13(s.s1));
    Seed(s0, Add(s.s1, s0))
  }

  /** The seed before s. */
  function Previous(s: Seed): Seed
  {
    var s1 := Sub(s.s1, s.s0);
    Seed(Sub(Sub(s.s0, Rotate13(s1)), STEP), s1)
  }

  /** One step, in arithmetic alone. */
  lemma StepMeans(s: Seed)
    ensures Next(s).s0 == (s.s0 + 0xa859_c317 + Rotate13(s.s1)) % 0x1_0000_0000
    ensures Next(s).s1 == (s.s1 + Next(s).s0) % 0x1_0000_0000
  {
    hide Rotate13;
  }

  lemma BitsAndBack(b: bv32)
    ensures (b as int) as bv32 == b
  {
  }

  /** Every bit moves up by 13 places, the upper 13 bits to the bottom. */
  lemma RotateMovesBits(b: bv32, k: bv6)
    requires k < 32
    ensures (RotateBits(b) >> ((k + 13) % 32)) & 1 == (b >> k) & 1
  {
  }

  /** The top bit is dropped, and no other. */
  lemma LowDropsTop(b: bv32)
    ensures LowBits(b) < 0x8000_0000 && (b == LowBits(b) || b == LowBits(b) + 0x8000_0000)
  {
  }

  /** Numbers and bits agree: what is said of the bits holds of the numbers. */
  lemma NumbersAreBits(x: Word)
    ensures Rotate13(x) as bv32 == RotateBits(x as bv32) && Low31(x) as bv32 == LowBits(x as bv32)
  {
    hide RotateBits, LowBits;
    BitsAndBack(RotateBits(x as bv32));
    BitsAndBack(LowBits(x as bv32));
  }

  class Generator {
    const seed: array<Word>

    ghost predicate Valid()
    {
      seed.Length == 2
    }

    ghost function State(): Seed
      requires Valid()
      reads seed
    {
      Seed(seed[0], seed[1])
    }

    constructor ()
      ensures Valid() && fresh(seed) && State() == Seed(0, 0)
    {
      seed := new Word[2](_ => 0);
    }

    method Rand() returns (r: Word)
      requires Valid()
      modifies seed
      ensures State() == Next(old(State())) && r == Low31(State().s0)
    {
      hide Rotate13, Low31, Add;
      seed[0] := Add(seed[0], STEP);
      seed[0] := Add(seed[0], Rotate13(seed[1]));
      seed[1] := Add(seed[1], seed[0]);
      r := Low31(seed[0]);
    }

    method Srand(newSeed: Word)
      requires Valid()
      modifies seed
      ensures State() == Seed(newSeed, newSeed)
    {
      seed[1] := newSeed;
      seed[0] := newSeed;
    }
  }

  lemma AddSub(x: Word, y: Word)
    ensures Sub(Add(x, y), y) == x && Add(Sub(x, y), y) == x
  {
  }

  /** One step loses nothing: it can be undone, and every seed has a seed before it. */
  lemma StepIsBijective(s: Seed)
    ensures Previous(Next(s)) == s && Next(Previous(s)) == s
  {
    hide Add, Sub, Rotate13;
    var n := Next(s);
    AddSub(s.s1, n.s0);
    AddSub(Add(s.s0, STEP), Rotate13(s.s1));
    AddSub(s.s0, STEP);
    var s1 := Sub(s.s1, s.s0);
    AddSub(s.s1, s.s0);
    AddSub(Sub(s.s0, Rotate13(s1)), STEP);
    AddSub(s.s0, Rotate13(s1));
  }

  function Iterate(s: Seed, n: nat): Seed
  {
    if n == 0 then s else Next(Iterate(s, n - 1))
  }

  const SEEDS: nat := 0x1_0000_0000_0000_0000

  /** A number for each of the 2^64 seeds. */
  function Code(s: Seed): (c: nat)
    ensures c < SEEDS
  {
    s.s0 * TWO32 + s.s1
  }

  lemma CodeIsInjective(s: Seed, t: Seed)
    requires Code(s) == Code(t)
    ensures s == t
  {
  }

  // ---------- Pigeonhole ----------

  lemma {:induction false} BoundedSetSize(s: set<nat>, n: nat)
    requires forall x :: x in s ==> x < n
    ensures |s| <= n
  {
    if n > 0 {
      BoundedSetSize(s - {n - 1}, n - 1);
      if n - 1 in s { assert s == (s - {n - 1}) + {n - 1}; } else { assert s - {n - 1} == s; }
    } else {
      assert s == {};
    }
  }

  /** The codes of the first n seeds of the sequence. */
  function Codes(s: Seed, n: nat): (r: set<nat>)
    ensures forall c :: c in r ==> c < SEEDS
  {
    if n == 0 then {} else Codes(s, n - 1) + {Code(Iterate(s, n - 1))}
  }

  lemma {:induction false} CodesHold(s: Seed, n: nat, c: nat) returns (i: nat)
    requires c in Codes(s, n)
    ensures i < n && Code(Iterate(s, i)) == c
  {
    if c == Code(Iterate(s, n - 1)) {
      i := n - 1;
    } else {
      i := CodesHold(s, n - 1, c);
    }
  }

  /** Either the first n seeds are all different, or two of them are equal. */
  lemma {:induction false} FindRepeat(s: Seed, n: nat) returns (i: nat, j: nat)
    requires |Codes(s, n)| < n
    ensures i < j < n && Iterate(s, i) == Iterate(s, j)
    decreases n
  {
    var c := Code(Iterate(s, n - 1));
    if c in Codes(s, n - 1) {
      i := CodesHold(s, n - 1, c);
      j := n - 1;
      CodeIsInjective(Iterate(s, i), Iterate(s, j));
    } else {
      i, j := FindRepeat(s, n - 1);
    }
  }

  lemma {:induction false} BackToStart(s: Seed, i: nat, j: nat)
    requires i <= j && Iterate(s, i) == Iterate(s, j)
    ensures Iterate(s, j - i) == s
    decreases i
  {
    if i > 0 {
      StepIsBijective(Iterate(s, i - 1));
      StepIsBijective(Iterate(s, j - 1));
      BackToStart(s, i - 1, j - 1);
    }
  }

  /** From every seed the sequence returns to that seed within 2^64 steps. */
  lemma ReturnsToSeed(s: Seed) returns (p: nat)
    ensures 0 < p <= SEEDS && Iterate(s, p) == s
  {
    BoundedSetSize(Codes(s, SEEDS + 1), SEEDS);
    var i, j := FindRepeat(s, SEEDS + 1);
    BackToStart(s, i, j);
    p := j - i;
  }

  lemma {:induction false} IterateAdds(s: Seed, p: nat, n: nat)
    ensures Iterate(Iterate(s, p), n) == Iterate(s, n + p)
  {
    if n > 0 {
      IterateAdds(s, p, n - 1);
    }
  }

  ghost predicate IsPeriod(s: Seed, p: nat)
  {
    forall n: nat :: Iterate(s, n + p) == Iterate(s, n)
  }

  /** The sequence is purely periodic: no seed is left behind for good. */
  lemma PurelyPeriodic(s: Seed)
    ensures exists p: nat :: 0 < p <= SEEDS && IsPeriod(s, p)
  {
    var p := ReturnsToSeed(s);
    forall n: nat ensures Iterate(s, n + p) == Iterate(s, n) {
      IterateAdds(s, p, n);
    }
    assert IsPeriod(s, p);
  }
}
