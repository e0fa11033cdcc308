/** The MD4 step operators: the three bitwise combining functions, the
    forward register update of each round, and the inverse updates that
    solve for the message word producing a chosen register value. */
module Ops {

  /** A 32-bit machine word; every operation below wraps modulo 2^32. */
  type Word = bv32

  /** Additive constant of round 2. */
  const Round2Constant: Word := 0x5A82_7999

  /** Additive constant of round 3. */
  const Round3Constant: Word := 0x6ED9_EBA1

  /** A word with exactly one bit set: it selects one bit position. */
  predicate SingleBit(m: Word) {
    m != 0 && m & (m - 1) == 0
  }

  /** The bit of `x` selected by the single-bit mask `m`. */
  predicate BitAt(x: Word, m: Word) {
    x & m != 0
  }

  function Count(b: bool): nat {
    if b then 1 else 0
  }

  /** Rust's `u32::rotate_left(s)`: the amount is taken modulo 32. */
  function Rotl(x: Word, s: Word): Word {
    var t := s & 31;
    (x << t) | (x >> (32 - t))
  }

  /** Rust's `u32::rotate_right(s)`. */
  function Rotr(x: Word, s: Word): Word {
    var t := s & 31;
    (x >> t) | (x << (32 - t))
  }

  lemma RotrUndoesRotl(x: Word, s: Word)
    ensures Rotr(Rotl(x, s), s) == x
  {
  }

  lemma RotlUndoesRotr(x: Word, s: Word)
    ensures Rotl(Rotr(x, s), s) == x
  {
  }

  /** Round-1 combining function: a bitwise "if x then y else z". */
  function F(x: Word, y: Word, z: Word): Word {
    (x & y) | (!x & z)
  }

  /** Round-2 combining function: a bitwise majority vote. */
  function G(x: Word, y: Word, z: Word): Word {
    (x & y) | (x & z) | (y & z)
  }

  /** Round-3 combining function: bitwise parity. */
  function H(x: Word, y: Word, z: Word): Word {
    x ^ y ^ z
  }

  // SelectBits, MajorityBits and ParityBits state the three bit facts on
  // the raw bit-vector expressions, with no function symbols for the solver
  // to unfold; FSelects, GIsMajority and HIsParity below restate them in
  // terms of F, G, H and BitAt.

  lemma SelectBits(x: Word, y: Word, z: Word, m: Word)
    requires m != 0 && m & (m - 1) == 0
    ensures ((x & y) | (!x & z)) & m != 0 <==> if x & m != 0 then y & m != 0 else z & m != 0
  {
  }

  lemma MajorityBits(x: Word, y: Word, z: Word, m: Word)
    requires m != 0 && m & (m - 1) == 0
    ensures ((x & y) | (x & z) | (y & z)) & m != 0 <==>
      (x & m != 0 && y & m != 0) || (x & m != 0 && z & m != 0) || (y & m != 0 && z & m != 0)
  {
  }

  lemma ParityBits(x: Word, y: Word, z: Word, m: Word)
    requires m != 0 && m & (m - 1) == 0
    ensures (x ^ y ^ z) & m != 0 <==> ((x & m != 0) != ((y & m != 0) != (z & m != 0)))
  {
  }

  /** Each bit of F(x, y, z) is the bit of y where x has a 1 and the bit of z elsewhere. */
  lemma FSelects(x: Word, y: Word, z: Word, m: Word)
    requires SingleBit(m)
    ensures BitAt(F(x, y, z), m) == if BitAt(x, m) then BitAt(y, m) else BitAt(z, m)
  {
    SelectBits(x, y, z, m);
  }

  /** Each bit of G(x, y, z) is set exactly when at least two of the three input bits are. */
  lemma GIsMajority(x: Word, y: Word, z: Word, m: Word)
    requires SingleBit(m)
    ensures BitAt(G(x, y, z), m) <==> Count(BitAt(x, m)) + Count(BitAt(y, m)) + Count(BitAt(z, m)) >= 2
  {
    MajorityBits(x, y, z, m);
  }

  /** Each bit of H(x, y, z) is set exactly when an odd number of the three input bits are. */
  lemma HIsParity(x: Word, y: Word, z: Word, m: Word)
    requires SingleBit(m)
    ensures BitAt(H(x, y, z), m) <==> (Count(BitAt(x, m)) + Count(BitAt(y, m)) + Count(BitAt(z, m))) % 2 == 1
  {
    ParityBits(x, y, z, m);
  }

  /** Parity does not depend on the order of its arguments. */
  lemma HSymmetric(x: Word, y: Word, z: Word)
    ensures H(x, y, z) == H(y, x, z) == H(x, z, y) == H(z, y, x)
  {
  }

  /** The wrapping sum a + f + m that every step rotates. */
  function Sum(a: Word, f: Word, m: Word): Word {
    a + f + m
  }

  /** The wrapping difference r - a - f: what is left of `r` once `a` and `f` are taken out. */
  function Unadd(r: Word, a: Word, f: Word): Word {
    r - a - f
  }

  /** Taking out what was added gives back the word that was added last. */
  lemma UnaddUndoesSum(a: Word, f: Word, m: Word)
    ensures Unadd(Sum(a, f, m), a, f) == m
  {
    assert Unadd(a + f + m, a, f) == m;
  }

  lemma SumOfDifference(r: Word, a: Word, f: Word)
    ensures Sum(a, f, r - a - f) == r
  {
  }

  /** Adding back what was taken out gives back the original word. */
  lemma SumUndoesUnadd(r: Word, a: Word, f: Word)
    ensures Sum(a, f, Unadd(r, a, f)) == r
  {
    SumOfDifference(r, a, f);
  }

  /** One round-1 register update: rotl(a + F(b,c,d) + m, s). */
  function Op1(a: Word, b: Word, c: Word, d: Word, m: Word, s: Word): Word {
    Rotl(Sum(a, F(b, c, d), m), s)
  }

  /** One round-2 register update: rotl(a + G(b,c,d) + m + 0x5A827999, s). */
  function Op2(a: Word, b: Word, c: Word, d: Word, m: Word, s: Word): Word {
    Rotl(Sum(a, G(b, c, d) + Round2Constant, m), s)
  }

  /** One round-3 register update: rotl(a + H(b,c,d) + m + 0x6ED9EBA1, s). */
  function Op3(a: Word, b: Word, c: Word, d: Word, m: Word, s: Word): Word {
    Rotl(Sum(a, H(b, c, d) + Round3Constant, m), s)
  }

  /** The message word that makes the round-1 update produce `v`:
      rotr(v, s) - a - F(b,c,d). Any register value is reachable. */
  function Op1Inv(v: Word, s: Word, a: Word, b: Word, c: Word, d: Word): (m: Word)
    ensures Op1(a, b, c, d, m, s) == v
  {
    SumUndoesUnadd(Rotr(v, s), a, F(b, c, d));
    RotlUndoesRotr(v, s);
    Unadd(Rotr(v, s), a, F(b, c, d))
  }

  /** The message word that makes the round-2 update produce `v`:
      rotr(v, s) - a - G(b,c,d) - 0x5A827999. */
  function Op2Inv(v: Word, s: Word, a: Word, b: Word, c: Word, d: Word): (m: Word)
    ensures Op2(a, b, c, d, m, s) == v
  {
    SumUndoesUnadd(Rotr(v, s), a, G(b, c, d) + Round2Constant);
    RotlUndoesRotr(v, s);
    Unadd(Rotr(v, s), a, G(b, c, d) + Round2Constant)
  }

  /** Solving for the word that produced a round-1 update gives that word back. */
  lemma Op1InvRecoversWord(a: Word, b: Word, c: Word, d: Word, m: Word, s: Word)
    ensures Op1Inv(Op1(a, b, c, d, m, s), s, a, b, c, d) == m
  {
    RotrUndoesRotl(Sum(a, F(b, c, d), m), s);
    UnaddUndoesSum(a, F(b, c, d), m);
  }

  /** Solving for the word that produced a round-2 update gives that word back. */
  lemma Op2InvRecoversWord(a: Word, b: Word, c: Word, d: Word, m: Word, s: Word)
    ensures Op2Inv(Op2(a, b, c, d, m, s), s, a, b, c, d) == m
  {
    RotrUndoesRotl(Sum(a, G(b, c, d) + Round2Constant, m), s);
    UnaddUndoesSum(a, G(b, c, d) + Round2Constant, m);
  }

  /** The round-1 update is injective in the message word, so the solved
      word is the only one that reaches the chosen register value. */
  lemma Op1InjectiveInWord(a: Word, b: Word, c: Word, d: Word, m1: Word, m2: Word, s: Word)
    ensures Op1(a, b, c, d, m1, s) == Op1(a, b, c, d, m2, s) <==> m1 == m2
  {
    Op1InvRecoversWord(a, b, c, d, m1, s);
    Op1InvRecoversWord(a, b, c, d, m2, s);
  }

  /** The round-2 update is injective in the message word. */
  lemma Op2InjectiveInWord(a: Word, b: Word, c: Word, d: Word, m1: Word, m2: Word, s: Word)
    ensures Op2(a, b, c, d, m1, s) == Op2(a, b, c, d, m2, s) <==> m1 == m2
  {
    Op2InvRecoversWord(a, b, c, d, m1, s);
    Op2InvRecoversWord(a, b, c, d, m2, s);
  }

  /** The round-3 update can be undone too: rotating its output right and
      taking out a, the parity of b, c, d and the round-3 constant gives
      back the message word. */
  lemma Op3RecoversWord(a: Word, b: Word, c: Word, d: Word, m: Word, s: Word)
    ensures Unadd(Rotr(Op3(a, b, c, d, m, s), s), a, H(b, c, d) + Round3Constant) == m
  {
    RotrUndoesRotl(Sum(a, H(b, c, d) + Round3Constant, m), s);
    UnaddUndoesSum(a, H(b, c, d) + Round3Constant, m);
  }

  /** The round-3 update is injective in the message word. */
  lemma Op3InjectiveInWord(a: Word, b: Word, c: Word, d: Word, m1: Word, m2: Word, s: Word)
    ensures Op3(a, b, c, d, m1, s) == Op3(a, b, c, d, m2, s) <==> m1 == m2
  {
    Op3RecoversWord(a, b, c, d, m1, s);
    Op3RecoversWord(a, b, c, d, m2, s);
  }

  /** `x` and `y` have the same bits wherever `m` has a 1. */
  predicate AgreeOn(x: Word, y: Word, m: Word) {
    x & m == y & m
  }

  // The lemmas ending in Raw state their facts on bit-vector expressions
  // that call no function, which the solver settles at once; the lemmas
  // after them restate the facts in terms of Rotr, Rotl, Sum and Unadd.

  lemma RotrByThree(x: Word)
    ensures Rotr(x, 3) == (x >> 3) | (x << 29)
  {
  }

  lemma RotlByThree(x: Word)
    ensures Rotl(x, 3) == (x << 3) | (x >> 29)
  {
  }

  lemma RotrKeepsLowBitsRaw(x: Word, y: Word)
    requires AgreeOn(x, y, 0x3_FFFF)
    ensures AgreeOn((x >> 3) | (x << 29), (y >> 3) | (y << 29), 0x7FFF)
  {
  }

  lemma SubKeepsLowBitsRaw(p: Word, q: Word, a: Word, f: Word)
    requires AgreeOn(p, q, 0x7FFF)
    ensures AgreeOn(p - a - f, q - a - f, 0x7FFF)
  {
  }

  lemma AddKeepsLowBitsRaw(a: Word, f: Word, m: Word, m': Word)
    requires AgreeOn(m, m', 0x7FFF)
    ensures AgreeOn(a + f + m, a + f + m', 0x7FFF)
  {
  }

  lemma RotlKeepsMiddleBitsRaw(x: Word, y: Word)
    requires AgreeOn(x, y, 0x7FFF)
    ensures AgreeOn((x << 3) | (x >> 29), (y << 3) | (y >> 29), 0x3_FFF8)
  {
  }

  /** Rotating right by 3 moves bits 3 .. 17 to bits 0 .. 14. */
  lemma RotrKeepsLowBits(x: Word, y: Word)
    requires AgreeOn(x, y, 0x3_FFFF)
    ensures AgreeOn(Rotr(x, 3), Rotr(y, 3), 0x7FFF)
  {
    RotrByThree(x);
    RotrByThree(y);
    RotrKeepsLowBitsRaw(x, y);
  }

  /** Rotating left by 3 moves bits 0 .. 14 to bits 3 .. 17. */
  lemma RotlKeepsMiddleBits(x: Word, y: Word)
    requires AgreeOn(x, y, 0x7FFF)
    ensures AgreeOn(Rotl(x, 3), Rotl(y, 3), 0x3_FFF8)
  {
    RotlByThree(x);
    RotlByThree(y);
    RotlKeepsMiddleBitsRaw(x, y);
  }

  /** Subtraction carries only upwards, so it keeps an agreement on bits 0 .. 14. */
  lemma UnaddKeepsLowBits(p: Word, q: Word, a: Word, f: Word)
    requires AgreeOn(p, q, 0x7FFF)
    ensures AgreeOn(Unadd(p, a, f), Unadd(q, a, f), 0x7FFF)
  {
    SubKeepsLowBitsRaw(p, q, a, f);
  }

  /** Addition carries only upwards, so it keeps an agreement on bits 0 .. 14. */
  lemma SumKeepsLowBits(a: Word, f: Word, m: Word, m': Word)
    requires AgreeOn(m, m', 0x7FFF)
    ensures AgreeOn(Sum(a, f, m), Sum(a, f, m'), 0x7FFF)
  {
    AddKeepsLowBitsRaw(a, f, m, m');
  }

  /** Solving the round-2 update with shift 3 for its word gives bits 0 .. 14
      of the word from bits 0 .. 17 of the target value alone. */
  lemma Op2InvKeepsLowBits(v: Word, v': Word, a: Word, b: Word, c: Word, d: Word)
    requires AgreeOn(v, v', 0x3_FFFF)
    ensures AgreeOn(Op2Inv(v, 3, a, b, c, d), Op2Inv(v', 3, a, b, c, d), 0x7FFF)
  {
    RotrKeepsLowBits(v, v');
    UnaddKeepsLowBits(Rotr(v, 3), Rotr(v', 3), a, G(b, c, d) + Round2Constant);
  }

  /** The round-1 update with shift 3 gives bits 3 .. 17 of its result from
      bits 0 .. 14 of its word alone. */
  lemma Op1KeepsMiddleBits(a: Word, b: Word, c: Word, d: Word, m: Word, m': Word)
    requires AgreeOn(m, m', 0x7FFF)
    ensures AgreeOn(Op1(a, b, c, d, m, 3), Op1(a, b, c, d, m', 3), 0x3_FFF8)
  {
    SumKeepsLowBits(a, F(b, c, d), m, m');
    RotlKeepsMiddleBits(Sum(a, F(b, c, d), m), Sum(a, F(b, c, d), m'));
  }
}
