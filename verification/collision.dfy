module Collision {
  import opened Wrappers
  import opened Ops
  import opened LittleEndian
  import opened State

  /** The kind of a condition on one bit of a chaining value. */
  datatype Kind = Equal | Zero | One

  /** A condition on bit `bit` of a chaining value. */
  datatype Condition = Condition(bit: bv5, kind: Kind)

  /** The word whose only set bit is `bit`: `1u32 << digit`. */
  function Mask(bit: bv5): Word {
    (1 as Word) << bit
  }

  /** The bits of `v` that `m` selects. */
  function Inside(v: Word, m: Word): Word {
    v & m
  }

  /** The bits of `v` that `m` does not select. */
  function Outside(v: Word, m: Word): Word {
    v & !m
  }

  lemma MasksOfDistinctBitsAreDisjoint(b1: bv5, b2: bv5)
    requires b1 != b2
    ensures Mask(b1) & Mask(b2) == 0
  {
  }

  /** Whether the bits `m` selects in `v` satisfy a condition of the given kind. */
  predicate MeetsAt(v: Word, reference: Word, kind: Kind, m: Word) {
    match kind
    case Equal => Inside(v, m) == Inside(reference, m)
    case Zero => Inside(v, m) == 0
    case One => Inside(v, m) == m
  }

  /** Whether `v` satisfies condition `c`, `reference` being the register an Equal condition copies. */
  predicate Meets(v: Word, reference: Word, c: Condition) {
    MeetsAt(v, reference, c.kind, Mask(c.bit))
  }

  /** The body of the adjustment loop for one mask: copy the masked bits
      from the reference, clear them, or set them. */
  function ForceBits(v: Word, reference: Word, kind: Kind, m: Word): Word {
    match kind
    case Equal => v ^ ((v ^ reference) & m)
    case Zero => v & !m
    case One => v | m
  }

  /** One pass of the adjustment loop: force the bit of `c` in `v`. */
  function ApplyCondition(v: Word, reference: Word, c: Condition): Word {
    ForceBits(v, reference, c.kind, Mask(c.bit))
  }

  lemma CopyBits(v: Word, reference: Word, m: Word)
    ensures Inside(ForceBits(v, reference, Equal, m), m) == Inside(reference, m)
    ensures Outside(ForceBits(v, reference, Equal, m), m) == Outside(v, m)
  {
    assert Inside(v ^ ((v ^ reference) & m), m) == Inside(reference, m);
    assert Outside(v ^ ((v ^ reference) & m), m) == Outside(v, m);
  }

  lemma ClearBits(v: Word, reference: Word, m: Word)
    ensures Inside(ForceBits(v, reference, Zero, m), m) == 0
    ensures Outside(ForceBits(v, reference, Zero, m), m) == Outside(v, m)
  {
    assert Inside(v & !m, m) == 0;
    assert Outside(v & !m, m) == Outside(v, m);
  }

  lemma SetBits(v: Word, reference: Word, m: Word)
    ensures Inside(ForceBits(v, reference, One, m), m) == m
    ensures Outside(ForceBits(v, reference, One, m), m) == Outside(v, m)
  {
    assert Inside(v | m, m) == m;
    assert Outside(v | m, m) == Outside(v, m);
  }

  /** Forcing the masked bits makes the condition hold there and changes nothing else. */
  lemma ForceBitsMeets(v: Word, reference: Word, kind: Kind, m: Word)
    ensures MeetsAt(ForceBits(v, reference, kind, m), reference, kind, m)
    ensures Outside(ForceBits(v, reference, kind, m), m) == Outside(v, m)
  {
    match kind
    case Equal => CopyBits(v, reference, m);
    case Zero => ClearBits(v, reference, m);
    case One => SetBits(v, reference, m);
  }

  /** Applying a condition makes it hold and leaves every other bit alone. */
  lemma ApplyConditionMeets(v: Word, reference: Word, c: Condition)
    ensures Meets(ApplyCondition(v, reference, c), reference, c)
    ensures Outside(ApplyCondition(v, reference, c), Mask(c.bit)) == Outside(v, Mask(c.bit))
  {
    ForceBitsMeets(v, reference, c.kind, Mask(c.bit));
  }

  /** The union of the bits the conditions name. */
  function Cover(conds: seq<Condition>): Word {
    if |conds| == 0 then 0 else Cover(conds[..|conds| - 1]) | Mask(conds[|conds| - 1].bit)
  }

  lemma CoverOfPrefix(conds: seq<Condition>, k: nat)
    requires k < |conds|
    ensures Cover(conds[..k + 1]) == Cover(conds[..k]) | Mask(conds[k].bit)
  {
    assert conds[..k + 1][..k] == conds[..k];
  }

  /** No condition after i and before upTo is on the same bit as condition i. */
  predicate LastOnBit(conds: seq<Condition>, i: nat, upTo: nat)
    requires i < upTo <= |conds|
  {
    forall j :: i < j < upTo ==> conds[j].bit != conds[i].bit
  }

  lemma KeepBitsRaw(w: Word, v: Word, m: Word, n: Word)
    requires w & !m == v & !m && n & m == 0
    ensures w & n == v & n
  {
  }

  lemma KeepBits(w: Word, v: Word, m: Word, n: Word)
    requires Outside(w, m) == Outside(v, m) && n & m == 0
    ensures Inside(w, n) == Inside(v, n)
  {
    KeepBitsRaw(w, v, m, n);
  }

  /** Bits outside a changed mask keep a condition that holds on them. */
  lemma KeepMeets(w: Word, v: Word, m: Word, reference: Word, kind: Kind, n: Word)
    requires Outside(w, m) == Outside(v, m) && n & m == 0
    requires MeetsAt(v, reference, kind, n)
    ensures MeetsAt(w, reference, kind, n)
  {
    KeepBits(w, v, m, n);
  }

  lemma GrowCoverRaw(w: Word, r: Word, v: Word, c: Word, m: Word)
    requires w & !m == r & !m && r & !c == v & !c
    ensures w & !(c | m) == v & !(c | m)
  {
  }

  lemma GrowCover(w: Word, r: Word, v: Word, c: Word, m: Word)
    requires Outside(w, m) == Outside(r, m) && Outside(r, c) == Outside(v, c)
    ensures Outside(w, c | m) == Outside(v, c | m)
  {
    GrowCoverRaw(w, r, v, c, m);
  }

  /** Applying condition k keeps every earlier condition that is still last on its bit. */
  lemma ApplyKeepsEarlier(r: Word, conds: seq<Condition>, refs: seq<Word>, k: nat)
    requires k < |conds| == |refs|
    requires forall i :: 0 <= i < k && LastOnBit(conds, i, k) ==> Meets(r, refs[i], conds[i])
    ensures forall i :: 0 <= i < k + 1 && LastOnBit(conds, i, k + 1) ==>
      Meets(ApplyCondition(r, refs[k], conds[k]), refs[i], conds[i])
  {
    var next := ApplyCondition(r, refs[k], conds[k]);
    ApplyConditionMeets(r, refs[k], conds[k]);
    forall i | 0 <= i < k && LastOnBit(conds, i, k + 1)
      ensures Meets(next, refs[i], conds[i])
    {
      assert LastOnBit(conds, i, k);
      MasksOfDistinctBitsAreDisjoint(conds[i].bit, conds[k].bit);
      KeepMeets(next, r, Mask(conds[k].bit), refs[i], conds[i].kind, Mask(conds[i].bit));
    }
  }

  /** Applying condition k changes no bit outside the first k + 1 conditions' bits. */
  lemma ApplyStaysInCover(v: Word, r: Word, conds: seq<Condition>, refs: seq<Word>, k: nat)
    requires k < |conds| == |refs|
    requires Outside(r, Cover(conds[..k])) == Outside(v, Cover(conds[..k]))
    ensures Outside(ApplyCondition(r, refs[k], conds[k]), Cover(conds[..k + 1])) == Outside(v, Cover(conds[..k + 1]))
  {
    ApplyConditionMeets(r, refs[k], conds[k]);
    CoverOfPrefix(conds, k);
    GrowCover(ApplyCondition(r, refs[k], conds[k]), r, v, Cover(conds[..k]), Mask(conds[k].bit));
  }

  /** The adjustment loop of collision.rs: apply the conditions in order,
      the i-th Equal condition copying its bit from refs[i]. The last
      condition on each bit holds afterwards, and no bit the conditions do
      not name has moved. */
  function Adjust(v: Word, conds: seq<Condition>, refs: seq<Word>): (r: Word)
    requires |refs| == |conds|
    ensures forall i {:trigger LastOnBit(conds, i, |conds|)} :: 0 <= i < |conds| && LastOnBit(conds, i, |conds|) ==> Meets(r, refs[i], conds[i])
    ensures Outside(r, Cover(conds)) == Outside(v, Cover(conds))
    decreases |conds|
  {
    if |conds| == 0 then v
    else
      var k := |conds| - 1;
      var prev := Adjust(v, conds[..k], refs[..k]);
      assert forall i :: 0 <= i < k && LastOnBit(conds, i, k) ==> LastOnBit(conds[..k], i, k);
      ApplyKeepsEarlier(prev, conds, refs, k);
      ApplyStaysInCover(v, prev, conds, refs, k);
      assert conds[..k + 1] == conds;
      ApplyCondition(prev, refs[k], conds[k])
  }

  /** The conditions the sixteen round-1 chaining values a1, d1, c1, b1,
      a2, ..., b4 must meet, indexed by step; the Equal conditions of step
      j refer to the value step j - 1 produced. */
  function R1Conditions(step: nat): seq<Condition>
    requires step < 16
  {
    match step
    case 0 => [Condition(6, Equal)] // a1
    case 1 => [Condition(6, Zero), Condition(7, Equal), Condition(10, Equal)] // d1
    case 2 => [Condition(6, One), Condition(7, One), Condition(10, Zero), Condition(25, Equal)] // c1
    case 3 => [Condition(6, One), Condition(7, Zero), Condition(10, Zero), Condition(25, Zero)] // b1
    case 4 => [Condition(7, One), Condition(10, One), Condition(25, Zero), Condition(13, Equal)] // a2
    case 5 => [Condition(13, Zero), Condition(18, Equal), Condition(19, Equal), Condition(20, Equal), Condition(21, Equal), Condition(25, One)] // d2
    case 6 => [Condition(12, Equal), Condition(13, Zero), Condition(14, Equal), Condition(18, Zero), Condition(19, Zero), Condition(20, One), Condition(21, Zero)] // c2
    case 7 => [Condition(12, One), Condition(13, One), Condition(14, Zero), Condition(16, Equal), Condition(18, Zero), Condition(19, Zero), Condition(20, Zero), Condition(21, Zero)] // b2
    case 8 => [Condition(12, One), Condition(13, One), Condition(14, One), Condition(16, Zero), Condition(18, Zero), Condition(19, Zero), Condition(20, Zero), Condition(22, Equal), Condition(21, One), Condition(25, Equal)] // a3
    case 9 => [Condition(12, One), Condition(13, One), Condition(14, One), Condition(16, Zero), Condition(19, Zero), Condition(20, One), Condition(21, One), Condition(22, Zero), Condition(25, One), Condition(29, Equal)] // d3
    case 10 => [Condition(16, One), Condition(19, Zero), Condition(20, Zero), Condition(21, Zero), Condition(22, Zero), Condition(25, Zero), Condition(29, One), Condition(31, Equal)] // c3
    case 11 => [Condition(19, Zero), Condition(20, One), Condition(21, One), Condition(22, Equal), Condition(25, One), Condition(29, Zero), Condition(31, Zero)] // b3
    case 12 => [Condition(22, Zero), Condition(25, Zero), Condition(26, Equal), Condition(28, Equal), Condition(29, One), Condition(31, Zero)] // a4
    case 13 => [Condition(22, Zero), Condition(25, Zero), Condition(26, One), Condition(28, One), Condition(29, Zero), Condition(31, One)] // d4
    case 14 => [Condition(18, Equal), Condition(22, One), Condition(25, One), Condition(26, Zero), Condition(28, Zero), Condition(29, Zero)] // c4
    case _ => [Condition(18, Zero), Condition(25, Equal), Condition(26, One), Condition(28, One), Condition(29, Zero), Condition(31, Equal)] // b4
  }

  /** The conditions on a5, each with the register an Equal condition copies from. */
  const A5Conditions: seq<(Condition, nat)> := [(Condition(18, Equal), 2), (Condition(25, One), 0), (Condition(26, Zero), 0), (Condition(28, One), 0), (Condition(31, One), 0)]

  /** The conditions on d5, each with the register an Equal condition copies from. */
  const D5Conditions: seq<(Condition, nat)> := [(Condition(18, Equal), 0), (Condition(25, Equal), 1), (Condition(26, Equal), 1), (Condition(28, Equal), 1), (Condition(31, Equal), 1)]

  /** No two conditions of a list name the same bit. */
  predicate DistinctBits(conds: seq<Condition>) {
    forall i, j :: 0 <= i < j < |conds| ==> conds[i].bit != conds[j].bit
  }

  /** The conditions of a round-2 table without their register positions. */
  function CondsOf(t: seq<(Condition, nat)>): (conds: seq<Condition>)
    ensures |conds| == |t| && forall i :: 0 <= i < |t| ==> conds[i] == t[i].0
  {
    seq(|t|, i requires 0 <= i < |t| => t[i].0)
  }

  /** The register each condition of a round-2 table refers to, read from `regs`. */
  function RefsAt(t: seq<(Condition, nat)>, regs: Registers): (refs: seq<Word>)
    requires forall i :: 0 <= i < |t| ==> t[i].1 < 4
    ensures |refs| == |t| && forall i :: 0 <= i < |t| ==> refs[i] == regs[t[i].1]
  {
    seq(|t|, i requires 0 <= i < |t| => regs[t[i].1])
  }

  /** The same reference register for every condition of a round-1 list. */
  function Repeat(w: Word, n: nat): (refs: seq<Word>)
    ensures |refs| == n && forall i :: 0 <= i < n ==> refs[i] == w
  {
    seq(n, _ => w)
  }

  /** `v` meets every condition of the list, the i-th referring to refs[i]. */
  predicate MeetsAll(v: Word, conds: seq<Condition>, refs: seq<Word>)
    requires |refs| == |conds|
  {
    forall i {:trigger Meets(v, refs[i], conds[i])} :: 0 <= i < |conds| ==> Meets(v, refs[i], conds[i])
  }

  // R1RowsHaveDistinctBits0 .. 7 each cover two rows of the round-1 table:
  // one lemma over all sixteen rows is too large a proof for the solver, so
  // the fact is split per pair of rows and reassembled in
  // TablesAreWellFormed.

  /** The round-1 lists of steps 0 and 1 each name every bit at most once. */
  lemma R1RowsHaveDistinctBits0(step: nat)
    requires step == 0 || step == 1
    ensures DistinctBits(R1Conditions(step))
  {
    if step == 0 {
      assert DistinctBits(R1Conditions(0));
    } else {
      assert DistinctBits(R1Conditions(1));
    }
  }

  /** The round-1 lists of steps 2 and 3 each name every bit at most once. */
  lemma R1RowsHaveDistinctBits1(step: nat)
    requires step == 2 || step == 3
    ensures DistinctBits(R1Conditions(step))
  {
    if step == 2 {
      assert DistinctBits(R1Conditions(2));
    } else {
      assert DistinctBits(R1Conditions(3));
    }
  }

  /** The round-1 lists of steps 4 and 5 each name every bit at most once. */
  lemma R1RowsHaveDistinctBits2(step: nat)
    requires step == 4 || step == 5
    ensures DistinctBits(R1Conditions(step))
  {
    if step == 4 {
      assert DistinctBits(R1Conditions(4));
    } else {
      assert DistinctBits(R1Conditions(5));
    }
  }

  /** The round-1 lists of steps 6 and 7 each name every bit at most once. */
  lemma R1RowsHaveDistinctBits3(step: nat)
    requires step == 6 || step == 7
    ensures DistinctBits(R1Conditions(step))
  {
    if step == 6 {
      assert DistinctBits(R1Conditions(6));
    } else {
      assert DistinctBits(R1Conditions(7));
    }
  }

  /** The round-1 lists of steps 8 and 9 each name every bit at most once. */
  lemma R1RowsHaveDistinctBits4(step: nat)
    requires step == 8 || step == 9
    ensures DistinctBits(R1Conditions(step))
  {
    if step == 8 {
      assert DistinctBits(R1Conditions(8));
    } else {
      assert DistinctBits(R1Conditions(9));
    }
  }

  /** The round-1 lists of steps 10 and 11 each name every bit at most once. */
  lemma R1RowsHaveDistinctBits5(step: nat)
    requires step == 10 || step == 11
    ensures DistinctBits(R1Conditions(step))
  {
    if step == 10 {
      assert DistinctBits(R1Conditions(10));
    } else {
      assert DistinctBits(R1Conditions(11));
    }
  }

  /** The round-1 lists of steps 12 and 13 each name every bit at most once. */
  lemma R1RowsHaveDistinctBits6(step: nat)
    requires step == 12 || step == 13
    ensures DistinctBits(R1Conditions(step))
  {
    if step == 12 {
      assert DistinctBits(R1Conditions(12));
    } else {
      assert DistinctBits(R1Conditions(13));
    }
  }

  /** The round-1 lists of steps 14 and 15 each name every bit at most once. */
  lemma R1RowsHaveDistinctBits7(step: nat)
    requires step == 14 || step == 15
    ensures DistinctBits(R1Conditions(step))
  {
    if step == 14 {
      assert DistinctBits(R1Conditions(14));
    } else {
      assert DistinctBits(R1Conditions(15));
    }
  }

  /** The condition tables name every bit at most once per list, and the
      round-2 tables refer to registers that exist. */
  lemma TablesAreWellFormed()
    ensures forall j :: 0 <= j < 16 ==> DistinctBits(R1Conditions(j))
    ensures DistinctBits(CondsOf(A5Conditions)) && DistinctBits(CondsOf(D5Conditions))
    ensures forall i :: 0 <= i < |A5Conditions| ==> A5Conditions[i].1 < 4
    ensures forall i :: 0 <= i < |D5Conditions| ==> D5Conditions[i].1 < 4
  {
    forall j | 0 <= j < 16
      ensures DistinctBits(R1Conditions(j))
    {
      if j < 2 {
        R1RowsHaveDistinctBits0(j);
      } else if j < 4 {
        R1RowsHaveDistinctBits1(j);
      } else if j < 6 {
        R1RowsHaveDistinctBits2(j);
      } else if j < 8 {
        R1RowsHaveDistinctBits3(j);
      } else if j < 10 {
        R1RowsHaveDistinctBits4(j);
      } else if j < 12 {
        R1RowsHaveDistinctBits5(j);
      } else if j < 14 {
        R1RowsHaveDistinctBits6(j);
      } else {
        R1RowsHaveDistinctBits7(j);
      }
    }
  }

  /** With distinct bits every condition is the last on its bit, so the
      adjustment loop meets all of them. */
  lemma AdjustMeetsAll(r: Word, conds: seq<Condition>, refs: seq<Word>)
    requires |refs| == |conds| && DistinctBits(conds)
    requires forall i {:trigger LastOnBit(conds, i, |conds|)} :: 0 <= i < |conds| && LastOnBit(conds, i, |conds|) ==> Meets(r, refs[i], conds[i])
    ensures MeetsAll(r, conds, refs)
  {
    forall i | 0 <= i < |conds|
      ensures Meets(r, refs[i], conds[i])
    {
      assert LastOnBit(conds, i, |conds|);
    }
  }

  /** `target_s` of find_once: the register that round-1 step k writes
      (a, d, c, b in turn). */
  const TargetRegisters: seq<nat> := [0, 3, 2, 1]

  /** The shifts of round-1 steps k = 0, 1, 2, 3 (mod 4). */
  const Round1StepShifts: seq<Word> := [3, 7, 11, 19]

  /** The round-1 chaining values in the order they are produced: entries
      0 .. 3 are a0, d0, c0, b0 of `init`, and entry k + 4 is the value
      round-1 step k computes from the four before it and word k. (The
      words in the decreases clause keep the verifier from unfolding the
      whole chain wherever a constant index appears.) */
  function Chain(init: Md4State, w: WordBlock, k: nat): Word
    requires k < 20
    decreases k, |w|
  {
    if k < 4 then init.s[TargetRegisters[k]]
    else Op1(Chain(init, w, k - 4), Chain(init, w, k - 1), Chain(init, w, k - 2), Chain(init, w, k - 3),
             w[k - 4], Round1StepShifts[k % 4])
  }

  /** Chain entry i + 4 is round-1 step i applied to entries i .. i + 3 and word i. */
  lemma ChainNext(init: Md4State, w: WordBlock, i: nat)
    requires i < 16
    ensures Chain(init, w, i + 4) ==
      Op1(Chain(init, w, i), Chain(init, w, i + 3), Chain(init, w, i + 2), Chain(init, w, i + 1), w[i], Round1StepShifts[i % 4])
  {
  }

  /** The chain is round 1 of the compression function: after n steps the
      working registers a, b, c, d hold chain entries n, n + 3, n + 2, n + 1. */
  lemma {:induction false} ChainIsRound1Run(init: Md4State, w: WordBlock, n: nat)
    requires n <= 16
    ensures Run(RegsOf(init), w, n) == Regs(Chain(init, w, n), Chain(init, w, n + 3), Chain(init, w, n + 2), Chain(init, w, n + 1))
  {
    if n > 0 {
      ChainIsRound1Run(init, w, n - 1);
      assert Round1StepShifts[(n + 3) % 4] == Round1Shifts[(n - 1) % 4];
    }
  }

  /** The registers after round 1: a4, b4, c4, d4 = chain entries 16, 19, 18, 17. */
  function AfterRound1(init: Md4State, w: WordBlock): Registers {
    [Chain(init, w, 16), Chain(init, w, 19), Chain(init, w, 18), Chain(init, w, 17)]
  }

  /** Round 1 of the compression function ends in the registers the chain describes. */
  lemma Round1IsChain(init: Md4State, w: WordBlock)
    ensures Round1(RegsOf(init), w) == RegsOf(Md4State(AfterRound1(init, w)))
  {
    Round1IsSteps(RegsOf(init), w);
    ChainIsRound1Run(init, w, 16);
  }

  /** Chain entries below n + 4 read only words below n. */
  lemma {:induction false} ChainAgreesOnPrefix(init: Md4State, w1: WordBlock, w2: WordBlock, n: nat, k: nat)
    requires n <= 16 && w1[..n] == w2[..n]
    requires k < n + 4
    ensures Chain(init, w1, k) == Chain(init, w2, k)
  {
    if k >= 4 {
      assert w1[k - 4] == w1[..n][k - 4];
      ChainAgreesOnPrefix(init, w1, w2, n, k - 4);
      ChainAgreesOnPrefix(init, w1, w2, n, k - 3);
      ChainAgreesOnPrefix(init, w1, w2, n, k - 2);
      ChainAgreesOnPrefix(init, w1, w2, n, k - 1);
    }
  }

  /** Four consecutive equal chain entries from n on, and equal words from
      n on, make every later chain entry equal. */
  lemma {:induction false} ChainAgreesAfter(init: Md4State, w1: WordBlock, w2: WordBlock, n: nat, k: nat)
    requires n <= 16 && w1[n..] == w2[n..]
    requires forall t :: n <= t < n + 4 ==> Chain(init, w1, t) == Chain(init, w2, t)
    requires n <= k < 20
    ensures Chain(init, w1, k) == Chain(init, w2, k)
  {
    if k >= n + 4 {
      assert w1[k - 4] == w1[n..][k - 4 - n];
      ChainAgreesAfter(init, w1, w2, n, k - 4);
      ChainAgreesAfter(init, w1, w2, n, k - 3);
      ChainAgreesAfter(init, w1, w2, n, k - 2);
      ChainAgreesAfter(init, w1, w2, n, k - 1);
    }
  }

  /** Round-1 step j meets its conditions: chain entry j + 4 meets the list
      of step j, the Equal conditions referring to chain entry j + 3. */
  predicate R1Holds(init: Md4State, w: WordBlock, j: nat)
    requires j < 16
  {
    MeetsAll(Chain(init, w, j + 4), R1Conditions(j), Repeat(Chain(init, w, j + 3), |R1Conditions(j)|))
  }

  /** Registers `st` hold four consecutive chain entries c0 .. c3, each in
      the register that wrote it, c0 having been written by a step k with
      k % 4 == p. */
  predicate InWindow(st: Registers, p: nat, c0: Word, c1: Word, c2: Word, c3: Word)
    requires p < 4
  {
    if p == 0 then st[0] == c0 && st[3] == c1 && st[2] == c2 && st[1] == c3
    else if p == 1 then st[3] == c0 && st[2] == c1 && st[1] == c2 && st[0] == c3
    else if p == 2 then st[2] == c0 && st[1] == c1 && st[0] == c2 && st[3] == c3
    else st[1] == c0 && st[0] == c1 && st[3] == c2 && st[2] == c3
  }

  /** The registers hold chain entries n .. n + 3, as after n round-1 steps. */
  predicate HoldsWindow(st: Registers, init: Md4State, w: WordBlock, n: nat)
    requires n <= 16
  {
    InWindow(st, n % 4, Chain(init, w, n), Chain(init, w, n + 1), Chain(init, w, n + 2), Chain(init, w, n + 3))
  }

  /** Step k with k % 4 == p reads the oldest entry from register
      target_s[p] and the newer ones from the registers after it; writing
      its result over the oldest entry moves the window on by one. */
  lemma WindowRotates(st: Registers, p: nat, c0: Word, c1: Word, c2: Word, c3: Word, c4: Word)
    requires p < 4 && InWindow(st, p, c0, c1, c2, c3)
    ensures var s := TargetRegisters[p];
      st[s] == c0 && st[(s + 1) % 4] == c3 && st[(s + 2) % 4] == c2 && st[(s + 3) % 4] == c1
    ensures InWindow(st[TargetRegisters[p] := c4], (p + 1) % 4, c1, c2, c3, c4)
  {
    if p == 0 {
      assert TargetRegisters[p] == 0;
    } else if p == 1 {
      assert TargetRegisters[p] == 3;
    } else if p == 2 {
      assert TargetRegisters[p] == 2;
    } else {
      assert TargetRegisters[p] == 1;
    }
  }

  /** The collision finder: the chaining state it starts from, the state
      it works on, and the sixteen message words it works on. */
  datatype Finder = Finder(init: Md4State, state: Md4State, data: WordBlock)

  /** `CollisionFinder::from`: the working state starts as the default
      state, which is `MD4State::new`, and the words start zeroed. */
  function From(st: Md4State): (f: Finder)
    ensures f.init == st
    ensures f.state == New() && forall k :: 0 <= k < 16 ==> f.data[k] == 0
  {
    Finder(st, New(), seq(16, _ => 0))
  }

  /** `first_round_single_step`: compute register s from the other three
      and word `step`, force the bits the step's conditions name, then
      solve for the word that produces the forced value. */
  function FirstRoundSingleStep(f: Finder, step: nat, s: nat, shift: Word): (g: Finder)
    requires step < 16 && s < 4
    ensures g.init == f.init
    ensures g.data == f.data[step := g.data[step]]
    ensures g.state.s == f.state.s[s := g.state.s[s]]
    ensures g.state.s[s] == Op1(f.state.s[s], f.state.s[(s + 1) % 4], f.state.s[(s + 2) % 4], f.state.s[(s + 3) % 4], g.data[step], shift)
    ensures MeetsAll(g.state.s[s], R1Conditions(step), Repeat(f.state.s[(s + 1) % 4], |R1Conditions(step)|))
    ensures Outside(g.state.s[s], Cover(R1Conditions(step))) ==
      Outside(Op1(f.state.s[s], f.state.s[(s + 1) % 4], f.state.s[(s + 2) % 4], f.state.s[(s + 3) % 4], f.data[step], shift), Cover(R1Conditions(step)))
  {
    var a, b, c, d := f.state.s[s], f.state.s[(s + 1) % 4], f.state.s[(s + 2) % 4], f.state.s[(s + 3) % 4];
    var conds := R1Conditions(step);
    var v := Adjust(Op1(a, b, c, d, f.data[step], shift), conds, Repeat(b, |conds|));
    TablesAreWellFormed();
    AdjustMeetsAll(v, conds, Repeat(b, |conds|));
    var m := Op1Inv(v, shift, a, b, c, d);
    Finder(f.init, Md4State(f.state.s[s := v]), f.data[step := m])
  }

  /** Changing word i leaves chain entries below i + 4 as they were. */
  lemma ChainKeepsPrefix(init: Md4State, w: WordBlock, w': WordBlock, i: nat)
    requires i < 16 && w' == w[i := w'[i]]
    ensures forall k :: 0 <= k < i + 4 ==> Chain(init, w', k) == Chain(init, w, k)
  {
    assert w'[..i] == w[..i];
    forall k | 0 <= k < i + 4
      ensures Chain(init, w', k) == Chain(init, w, k)
    {
      ChainAgreesOnPrefix(init, w', w, i, k);
    }
  }

  lemma NextPosition(i: nat)
    ensures (i + 1) % 4 == (i % 4 + 1) % 4
  {
  }

  /** Replacing word i leaves chain entries i .. i + 3 as they were, so
      the registers hold the same window of the new words. */
  lemma WindowOnNewWords(init: Md4State, st: Registers, w: WordBlock, w': WordBlock, i: nat)
    requires i < 16
    requires HoldsWindow(st, init, w, i)
    requires w' == w[i := w'[i]]
    ensures HoldsWindow(st, init, w', i)
  {
    ChainKeepsPrefix(init, w, w', i);
  }

  /** Round-1 step i, writing the register that holds chain entry i, moves
      the window on by one entry; the value it writes is chain entry i + 4. */
  lemma FirstRoundStepKeepsWindow(init: Md4State, st: Registers, w: WordBlock, i: nat, v: Word)
    requires i < 16
    requires HoldsWindow(st, init, w, i)
    requires var s := TargetRegisters[i % 4];
      v == Op1(st[s], st[(s + 1) % 4], st[(s + 2) % 4], st[(s + 3) % 4], w[i], Round1StepShifts[i % 4])
    ensures var s := TargetRegisters[i % 4];
      st[s] == Chain(init, w, i) && st[(s + 1) % 4] == Chain(init, w, i + 3) &&
      st[(s + 2) % 4] == Chain(init, w, i + 2) && st[(s + 3) % 4] == Chain(init, w, i + 1)
    ensures v == Chain(init, w, i + 4)
    ensures HoldsWindow(st[TargetRegisters[i % 4] := v], init, w, i + 1)
  {
    var p := i % 4;
    var c0, c1, c2, c3 := Chain(init, w, i), Chain(init, w, i + 1), Chain(init, w, i + 2), Chain(init, w, i + 3);
    WindowRotates(st, p, c0, c1, c2, c3, v);
    assert v == Chain(init, w, i + 4) by {
      ChainNext(init, w, i);
    }
    NextPosition(i);
  }

  /** One round-1 step adds its own conditions to those already met. */
  lemma FirstRoundStepKeepsConditions(init: Md4State, w: WordBlock, w': WordBlock, i: nat, v: Word, ref: Word)
    requires i < 16 && w' == w[i := w'[i]]
    requires forall j :: 0 <= j < i ==> R1Holds(init, w, j)
    requires v == Chain(init, w', i + 4) && ref == Chain(init, w', i + 3)
    requires MeetsAll(v, R1Conditions(i), Repeat(ref, |R1Conditions(i)|))
    ensures forall j :: 0 <= j < i + 1 ==> R1Holds(init, w', j)
  {
    ChainKeepsPrefix(init, w, w', i);
    forall j | 0 <= j < i + 1
      ensures R1Holds(init, w', j)
    {
      if j < i {
        assert R1Holds(init, w, j);
        assert Chain(init, w', j + 3) == Chain(init, w, j + 3);
        assert Chain(init, w', j + 4) == Chain(init, w, j + 4);
      }
    }
  }

  /** Before round 1 the registers hold the first four chain entries. */
  lemma WindowAtStart(init: Md4State, w: WordBlock)
    ensures HoldsWindow(init.s, init, w, 0)
  {
    assert Chain(init, w, 0) == init.s[0] && Chain(init, w, 1) == init.s[3];
    assert Chain(init, w, 2) == init.s[2] && Chain(init, w, 3) == init.s[1];
  }

  /** After round 1 the registers hold a4, b4, c4, d4. */
  lemma WindowAtEnd(st: Registers, init: Md4State, w: WordBlock)
    requires HoldsWindow(st, init, w, 16)
    ensures st == AfterRound1(init, w)
  {
    assert 16 % 4 == 0;
  }

  /** A round-1 step that reads the window entries `a`, `b`, `c`, `d` of
      the words `w` and writes the value `v` whose bits outside the step's
      conditions are those the step gives with the drawn word `draw[i]`
      keeps the draw in round-1 value i. */
  lemma StepFollowsDraw(init: Md4State, w: WordBlock, draw: WordBlock, i: nat, v: Word, a: Word, b: Word, c: Word, d: Word)
    requires i < 16
    requires a == Chain(init, w, i) && b == Chain(init, w, i + 3) && c == Chain(init, w, i + 2) && d == Chain(init, w, i + 1)
    requires v == Chain(init, w, i + 4)
    requires Outside(v, Cover(R1Conditions(i))) == Outside(Op1(a, b, c, d, draw[i], Round1StepShifts[i % 4]), Cover(R1Conditions(i)))
    ensures DrawKept(init, w, draw, i)
  {
  }

  /** One more round-1 step keeps what the steps so far established: the
      registers hold the chain window, and every step so far meets its
      conditions. */
  lemma FirstRoundStepKeeps(g: Finder, i: nat)
    requires i < 16
    requires HoldsWindow(g.state.s, g.init, g.data, i)
    requires forall j :: 0 <= j < i ==> R1Holds(g.init, g.data, j)
    ensures var next := FirstRoundSingleStep(g, i, TargetRegisters[i % 4], Round1StepShifts[i % 4]);
      next.init == g.init && HoldsWindow(next.state.s, g.init, next.data, i + 1) &&
      (forall j :: 0 <= j < i + 1 ==> R1Holds(g.init, next.data, j)) &&
      next.data == g.data[i := next.data[i]] && DrawKept(g.init, next.data, g.data, i)
  {
    var s := TargetRegisters[i % 4];
    var next := FirstRoundSingleStep(g, i, s, Round1StepShifts[i % 4]);
    WindowOnNewWords(g.init, g.state.s, g.data, next.data, i);
    FirstRoundStepKeepsWindow(g.init, g.state.s, next.data, i, next.state.s[s]);
    FirstRoundStepKeepsConditions(g.init, g.data, next.data, i, next.state.s[s], g.state.s[(s + 1) % 4]);
    var st := g.state.s;
    StepFollowsDraw(g.init, next.data, g.data, i, next.state.s[s], st[s], st[(s + 1) % 4], st[(s + 2) % 4], st[(s + 3) % 4]);
  }

  /** Round-1 value j of the words `w` comes from the drawn word `draw[j]`:
      every bit the conditions of step j do not name is that of the step
      computed from the value's four predecessors and `draw[j]`. */
  predicate DrawKept(init: Md4State, w: WordBlock, draw: WordBlock, j: nat)
    requires j < 16
  {
    Outside(Chain(init, w, j + 4), Cover(R1Conditions(j))) ==
      Outside(Op1(Chain(init, w, j), Chain(init, w, j + 3), Chain(init, w, j + 2), Chain(init, w, j + 1), draw[j], Round1StepShifts[j % 4]),
              Cover(R1Conditions(j)))
  }

  /** Changing only words from n on keeps what earlier round-1 values owe
      to their drawn words. */
  lemma DrawKeptOnPrefix(init: Md4State, w: WordBlock, w': WordBlock, draw: WordBlock, n: nat, j: nat)
    requires j < n <= 16 && w'[..n] == w[..n]
    requires DrawKept(init, w, draw, j)
    ensures DrawKept(init, w', draw, j)
  {
    ChainAgreesOnPrefix(init, w', w, n, j);
    ChainAgreesOnPrefix(init, w', w, n, j + 1);
    ChainAgreesOnPrefix(init, w', w, n, j + 2);
    ChainAgreesOnPrefix(init, w', w, n, j + 3);
    ChainAgreesOnPrefix(init, w', w, n, j + 4);
  }

  /** Words that agree with `next` through position i agree with `g`
      before it, when `next` is `g` with word i replaced. */
  lemma PrefixBeforeUpdate(g: WordBlock, next: WordBlock, h: WordBlock, i: nat)
    requires i < 16 && next == g[i := next[i]] && h[..i + 1] == next[..i + 1]
    ensures h[..i] == g[..i]
  {
    assert h[..i] == next[..i];
  }

  /** After step i the remaining steps only rewrite words i + 1 .. 15, so
      step i and the later ones all keep their drawn words. */
  lemma LaterStepsFollowDraw(init: Md4State, g: WordBlock, next: WordBlock, h: WordBlock, i: nat)
    requires i < 16 && next == g[i := next[i]] && h[..i + 1] == next[..i + 1]
    requires DrawKept(init, next, g, i)
    requires forall j :: i + 1 <= j < 16 ==> DrawKept(init, h, next, j)
    ensures forall j :: i <= j < 16 ==> DrawKept(init, h, g, j)
  {
    DrawKeptOnPrefix(init, next, h, g, i + 1, i);
    forall j | i + 1 <= j < 16
      ensures DrawKept(init, h, g, j)
    {
      assert DrawKept(init, h, next, j);
      assert next[j] == g[j];
    }
  }

  /** Round-1 steps i .. 15 of `find_once` applied to `g`, one
      `first_round_single_step` after the other: afterwards every step
      meets its conditions and the registers hold the last four chain
      values. */
  function FirstRoundFrom(g: Finder, i: nat): (h: Finder)
    requires i <= 16
    requires HoldsWindow(g.state.s, g.init, g.data, i)
    requires forall j :: 0 <= j < i ==> R1Holds(g.init, g.data, j)
    ensures h.init == g.init && HoldsWindow(h.state.s, g.init, h.data, 16)
    ensures forall j :: 0 <= j < 16 ==> R1Holds(g.init, h.data, j)
    ensures h.data[..i] == g.data[..i]
    ensures forall j :: i <= j < 16 ==> DrawKept(g.init, h.data, g.data, j)
    decreases 16 - i
  {
    if i == 16 then g
    else
      FirstRoundStepKeeps(g, i);
      var next := FirstRoundSingleStep(g, i, TargetRegisters[i % 4], Round1StepShifts[i % 4]);
      var h := FirstRoundFrom(next, i + 1);
      PrefixBeforeUpdate(g.data, next.data, h.data, i);
      LaterStepsFollowDraw(g.init, g.data, next.data, h.data, i);
      h
  }

  /** The first half of `find_once`: start from the chaining state, take the
      drawn words, and modify each round-1 step in turn so that it meets its
      conditions. */
  function FirstRound(f: Finder, draw: WordBlock): (g: Finder)
    ensures g.init == f.init
    ensures forall j :: 0 <= j < 16 ==> R1Holds(f.init, g.data, j)
    ensures g.state.s == AfterRound1(f.init, g.data)
    ensures forall j :: 0 <= j < 16 ==> DrawKept(f.init, g.data, draw, j)
  {
    WindowAtStart(f.init, draw);
    var g := FirstRoundFrom(Finder(f.init, f.init, draw), 0);
    WindowAtEnd(g.state.s, f.init, g.data);
    g
  }

  /** Two values that meet the same conditions against the same references
      agree on every bit the conditions name. */
  lemma {:induction false} MeetsAllFixesCover(v1: Word, v2: Word, conds: seq<Condition>, refs: seq<Word>)
    requires |refs| == |conds|
    requires MeetsAll(v1, conds, refs) && MeetsAll(v2, conds, refs)
    ensures Inside(v1, Cover(conds)) == Inside(v2, Cover(conds))
    decreases |conds|
  {
    if |conds| > 0 {
      var n := |conds| - 1;
      MeetsAllOnPrefix(v1, conds, refs, n);
      MeetsAllOnPrefix(v2, conds, refs, n);
      MeetsAllFixesCover(v1, v2, conds[..n], refs[..n]);
      MeetsFixesBit(v1, v2, refs[n], conds[n]);
      CoverLast(conds);
      SplitCover(v1, v2, Cover(conds), Cover(conds[..n]), Mask(conds[n].bit));
    }
  }

  /** The cover of a non-empty list adds its last condition's bit. */
  lemma CoverLast(conds: seq<Condition>)
    requires |conds| > 0
    ensures Cover(conds) == Cover(conds[..|conds| - 1]) | Mask(conds[|conds| - 1].bit)
  {
  }

  /** Meeting a list of conditions is meeting each of its prefixes. */
  lemma MeetsAllOnPrefix(v: Word, conds: seq<Condition>, refs: seq<Word>, n: nat)
    requires |refs| == |conds| && n <= |conds|
    requires MeetsAll(v, conds, refs)
    ensures MeetsAll(v, conds[..n], refs[..n])
  {
    forall i | 0 <= i < n
      ensures Meets(v, refs[..n][i], conds[..n][i])
    {
      assert Meets(v, refs[i], conds[i]);
    }
  }

  /** Two values that meet one condition against the same reference agree
      on its bit. */
  lemma MeetsFixesBit(v1: Word, v2: Word, reference: Word, c: Condition)
    requires Meets(v1, reference, c) && Meets(v2, reference, c)
    ensures Inside(v1, Mask(c.bit)) == Inside(v2, Mask(c.bit))
  {
  }

  /** Agreeing under two masks is agreeing under their union. */
  lemma SplitCover(v1: Word, v2: Word, m: Word, m1: Word, m2: Word)
    requires m == m1 | m2
    requires Inside(v1, m1) == Inside(v2, m1) && Inside(v1, m2) == Inside(v2, m2)
    ensures Inside(v1, m) == Inside(v2, m)
  {
  }

  /** A value is fixed by its bits inside and outside a mask. */
  lemma SplitDetermines(v1: Word, v2: Word, m: Word)
    requires Inside(v1, m) == Inside(v2, m) && Outside(v1, m) == Outside(v2, m)
    ensures v1 == v2
  {
  }

  /** Round-1 value i + 4 and word i are fixed by the four values before
      them, the step's conditions and the drawn word. */
  lemma Round1StepDetermined(init: Md4State, w1: WordBlock, w2: WordBlock, draw: WordBlock, i: nat)
    requires i < 16
    requires Chain(init, w1, i) == Chain(init, w2, i) && Chain(init, w1, i + 1) == Chain(init, w2, i + 1)
    requires Chain(init, w1, i + 2) == Chain(init, w2, i + 2) && Chain(init, w1, i + 3) == Chain(init, w2, i + 3)
    requires R1Holds(init, w1, i) && R1Holds(init, w2, i)
    requires DrawKept(init, w1, draw, i) && DrawKept(init, w2, draw, i)
    ensures Chain(init, w1, i + 4) == Chain(init, w2, i + 4) && w1[i] == w2[i]
  {
    var v1, v2 := Chain(init, w1, i + 4), Chain(init, w2, i + 4);
    var m := Cover(R1Conditions(i));
    MeetsAllFixesCover(v1, v2, R1Conditions(i), Repeat(Chain(init, w1, i + 3), |R1Conditions(i)|));
    SplitDetermines(v1, v2, m);
    ChainNext(init, w1, i);
    ChainNext(init, w2, i);
    Op1InjectiveInWord(Chain(init, w1, i), Chain(init, w1, i + 3), Chain(init, w1, i + 2), Chain(init, w1, i + 1),
                       w1[i], w2[i], Round1StepShifts[i % 4]);
  }

  /** The first four chain entries come from the chaining state alone. */
  lemma ChainStartAgrees(init: Md4State, w1: WordBlock, w2: WordBlock)
    ensures forall k :: 0 <= k < 4 ==> Chain(init, w1, k) == Chain(init, w2, k)
  {
  }

  /** Two word blocks whose chains meet every round-1 condition and keep
      the same draw agree on their first n words and chain entries. */
  lemma {:induction false} Round1Determined(init: Md4State, w1: WordBlock, w2: WordBlock, draw: WordBlock, n: nat)
    requires n <= 16
    requires forall j :: 0 <= j < 16 ==> R1Holds(init, w1, j) && DrawKept(init, w1, draw, j)
    requires forall j :: 0 <= j < 16 ==> R1Holds(init, w2, j) && DrawKept(init, w2, draw, j)
    ensures forall k :: 0 <= k < n + 4 ==> Chain(init, w1, k) == Chain(init, w2, k)
    ensures w1[..n] == w2[..n]
    decreases n
  {
    if n == 0 {
      ChainStartAgrees(init, w1, w2);
    } else {
      var i := n - 1;
      Round1Determined(init, w1, w2, draw, i);
      assert R1Holds(init, w1, i) && DrawKept(init, w1, draw, i);
      assert R1Holds(init, w2, i) && DrawKept(init, w2, draw, i);
      Round1StepDetermined(init, w1, w2, draw, i);
      PrefixExtends(w1, w2, n);
    }
  }

  /** Agreeing before position n - 1 and at it is agreeing before n. */
  lemma PrefixExtends(w1: WordBlock, w2: WordBlock, n: nat)
    requires 0 < n <= 16 && w1[..n - 1] == w2[..n - 1] && w1[n - 1] == w2[n - 1]
    ensures w1[..n] == w2[..n]
  {
    assert w1[..n] == w1[..n - 1] + [w1[n - 1]];
    assert w2[..n] == w2[..n - 1] + [w2[n - 1]];
  }

  /** At most one word block has a chain that meets every round-1
      condition and keeps a given draw. */
  lemma Round1Unique(init: Md4State, draw: WordBlock, w1: WordBlock, w2: WordBlock)
    requires forall j :: 0 <= j < 16 ==> R1Holds(init, w1, j) && DrawKept(init, w1, draw, j)
    requires forall j :: 0 <= j < 16 ==> R1Holds(init, w2, j) && DrawKept(init, w2, draw, j)
    ensures w1 == w2
  {
    Round1Determined(init, w1, w2, draw, 16);
    assert w1 == w1[..16] && w2 == w2[..16];
  }

  /** Round 1 settles on the one word block whose chain meets every
      round-1 condition and, outside the conditions' bits, keeps the value
      each step gives with the drawn word. */
  lemma FirstRoundCharacterized(f: Finder, draw: WordBlock, w: WordBlock)
    ensures w == FirstRound(f, draw).data <==>
      forall j :: 0 <= j < 16 ==> R1Holds(f.init, w, j) && DrawKept(f.init, w, draw, j)
  {
    var g := FirstRound(f, draw);
    if forall j :: 0 <= j < 16 ==> R1Holds(f.init, w, j) && DrawKept(f.init, w, draw, j) {
      Round1Unique(f.init, draw, w, g.data);
    }
  }

  /** Chain entries 0 .. 3 are a0, d0, c0, b0 of the chaining state. */
  lemma ChainStart(init: Md4State, w: WordBlock)
    ensures Chain(init, w, 0) == init.s[0] && Chain(init, w, 1) == init.s[3]
    ensures Chain(init, w, 2) == init.s[2] && Chain(init, w, 3) == init.s[1]
  {
  }

  /** The words `second_round_a5` writes once a5 is fixed: word 0 becomes
      `m0`, and words 1 .. 4 are solved again so that d1, c1, b1, a2 come out
      as before although a1 has changed. The values a0 .. a2 that the source
      recomputes from the chaining state are chain entries 0 .. 8. */
  function A5Words(init: Md4State, w: WordBlock, m0: Word): (m: seq<Word>)
    ensures |m| == 5 && m[0] == m0
  {
    var a0, d0, c0, b0 := Chain(init, w, 0), Chain(init, w, 1), Chain(init, w, 2), Chain(init, w, 3);
    var a1, d1, c1, b1, a2 := Chain(init, w, 4), Chain(init, w, 5), Chain(init, w, 6), Chain(init, w, 7), Chain(init, w, 8);
    var a1' := Op1(a0, b0, c0, d0, m0, 3);
    [m0, Op1Inv(d1, 7, d0, a1', b0, c0), Op1Inv(c1, 11, c0, d1, a1', b0),
     Op1Inv(b1, 19, b0, c1, d1, a1'), Op1Inv(a2, 3, a1', b1, c1, d1)]
  }

  /** The message after the a5 correction: words 0 .. 4 rewritten, the rest kept. */
  function BackPropagateA5(init: Md4State, w: WordBlock, m0: Word): (w': WordBlock)
    ensures w'[0] == m0 && w'[5..] == w[5..]
  {
    A5Words(init, w, m0) + w[5..]
  }

  /** The rewritten word 1 brings the chain back to d1. */
  lemma A5KeepsD1(init: Md4State, w: WordBlock, m0: Word)
    ensures Chain(init, BackPropagateA5(init, w, m0), 5) == Chain(init, w, 5)
  {
    var w' := BackPropagateA5(init, w, m0);
    assert w'[1] == A5Words(init, w, m0)[1];
    ChainNext(init, w', 0);
    ChainNext(init, w', 1);
  }

  /** The rewritten word 2 brings the chain back to c1. */
  lemma A5KeepsC1(init: Md4State, w: WordBlock, m0: Word)
    ensures Chain(init, BackPropagateA5(init, w, m0), 6) == Chain(init, w, 6)
  {
    var w' := BackPropagateA5(init, w, m0);
    assert w'[2] == A5Words(init, w, m0)[2];
    A5KeepsD1(init, w, m0);
    ChainNext(init, w', 0);
    ChainNext(init, w', 2);
  }

  /** The rewritten word 3 brings the chain back to b1. */
  lemma A5KeepsB1(init: Md4State, w: WordBlock, m0: Word)
    ensures Chain(init, BackPropagateA5(init, w, m0), 7) == Chain(init, w, 7)
  {
    var w' := BackPropagateA5(init, w, m0);
    assert w'[3] == A5Words(init, w, m0)[3];
    A5KeepsD1(init, w, m0);
    A5KeepsC1(init, w, m0);
    ChainNext(init, w', 0);
    ChainNext(init, w', 3);
  }

  /** The rewritten word 4 brings the chain back to a2. */
  lemma A5KeepsA2(init: Md4State, w: WordBlock, m0: Word)
    ensures Chain(init, BackPropagateA5(init, w, m0), 8) == Chain(init, w, 8)
  {
    var w' := BackPropagateA5(init, w, m0);
    assert w'[4] == A5Words(init, w, m0)[4];
    A5KeepsD1(init, w, m0);
    A5KeepsC1(init, w, m0);
    A5KeepsB1(init, w, m0);
    ChainNext(init, w', 0);
    ChainNext(init, w', 4);
  }

  /** The a5 correction changes a1 alone: it becomes the round-1 step of
      the new word 0, and every chain entry from d1 on is as before. */
  lemma BackPropagateA5KeepsChain(init: Md4State, w: WordBlock, m0: Word)
    ensures var w' := BackPropagateA5(init, w, m0);
      Chain(init, w', 4) == Op1(init.s[0], init.s[1], init.s[2], init.s[3], m0, 3) &&
      forall k :: 5 <= k < 20 ==> Chain(init, w', k) == Chain(init, w, k)
  {
    var w' := BackPropagateA5(init, w, m0);
    ChainNext(init, w', 0);
    A5KeepsD1(init, w, m0);
    A5KeepsC1(init, w, m0);
    A5KeepsB1(init, w, m0);
    A5KeepsA2(init, w, m0);
    forall k | 5 <= k < 20
      ensures Chain(init, w', k) == Chain(init, w, k)
    {
      ChainAgreesAfter(init, w', w, 5, k);
    }
  }

  /** The words `second_round_d5` writes once d5 is fixed: word 4 becomes
      `m4`, and words 5 .. 8 are solved again so that d2, c2, b2, a3 come out
      as before although a2 has changed. The values a1 .. a3 that the source
      recomputes from the chaining state are chain entries 4 .. 12. */
  function D5Words(init: Md4State, w: WordBlock, m4: Word): (m: seq<Word>)
    ensures |m| == 5 && m[0] == m4
  {
    var a1, d1, c1, b1 := Chain(init, w, 4), Chain(init, w, 5), Chain(init, w, 6), Chain(init, w, 7);
    var d2, c2, b2, a3 := Chain(init, w, 9), Chain(init, w, 10), Chain(init, w, 11), Chain(init, w, 12);
    var a2' := Op1(a1, b1, c1, d1, m4, 3);
    [m4, Op1Inv(d2, 7, d1, a2', b1, c1), Op1Inv(c2, 11, c1, d2, a2', b1),
     Op1Inv(b2, 19, b1, c2, d2, a2'), Op1Inv(a3, 3, a2', b2, c2, d2)]
  }

  /** The message after the d5 correction: words 4 .. 8 rewritten, the rest kept. */
  function BackPropagateD5(init: Md4State, w: WordBlock, m4: Word): (w': WordBlock)
    ensures w'[..4] == w[..4] && w'[4] == m4 && w'[9..] == w[9..]
  {
    w[..4] + D5Words(init, w, m4) + w[9..]
  }

  /** The d5 correction leaves a1, d1, c1, b1 as they were. */
  lemma D5KeepsPrefix(init: Md4State, w: WordBlock, m4: Word)
    ensures forall k :: 0 <= k < 8 ==> Chain(init, BackPropagateD5(init, w, m4), k) == Chain(init, w, k)
  {
    var w' := BackPropagateD5(init, w, m4);
    forall k | 0 <= k < 8
      ensures Chain(init, w', k) == Chain(init, w, k)
    {
      ChainAgreesOnPrefix(init, w', w, 4, k);
    }
  }

  /** The rewritten word 5 brings the chain back to d2. */
  lemma D5KeepsD2(init: Md4State, w: WordBlock, m4: Word)
    ensures Chain(init, BackPropagateD5(init, w, m4), 9) == Chain(init, w, 9)
  {
    var w' := BackPropagateD5(init, w, m4);
    assert w'[5] == D5Words(init, w, m4)[1];
    D5KeepsPrefix(init, w, m4);
    ChainNext(init, w', 4);
    ChainNext(init, w', 5);
  }

  /** The rewritten word 6 brings the chain back to c2. */
  lemma D5KeepsC2(init: Md4State, w: WordBlock, m4: Word)
    ensures Chain(init, BackPropagateD5(init, w, m4), 10) == Chain(init, w, 10)
  {
    var w' := BackPropagateD5(init, w, m4);
    assert w'[6] == D5Words(init, w, m4)[2];
    D5KeepsPrefix(init, w, m4);
    D5KeepsD2(init, w, m4);
    ChainNext(init, w', 4);
    ChainNext(init, w', 6);
  }

  /** The rewritten word 7 brings the chain back to b2. */
  lemma D5KeepsB2(init: Md4State, w: WordBlock, m4: Word)
    ensures Chain(init, BackPropagateD5(init, w, m4), 11) == Chain(init, w, 11)
  {
    var w' := BackPropagateD5(init, w, m4);
    assert w'[7] == D5Words(init, w, m4)[3];
    D5KeepsPrefix(init, w, m4);
    D5KeepsD2(init, w, m4);
    D5KeepsC2(init, w, m4);
    ChainNext(init, w', 4);
    ChainNext(init, w', 7);
  }

  /** The rewritten word 8 brings the chain back to a3. */
  lemma D5KeepsA3(init: Md4State, w: WordBlock, m4: Word)
    ensures Chain(init, BackPropagateD5(init, w, m4), 12) == Chain(init, w, 12)
  {
    var w' := BackPropagateD5(init, w, m4);
    assert w'[8] == D5Words(init, w, m4)[4];
    D5KeepsPrefix(init, w, m4);
    D5KeepsD2(init, w, m4);
    D5KeepsC2(init, w, m4);
    D5KeepsB2(init, w, m4);
    ChainNext(init, w', 4);
    ChainNext(init, w', 8);
  }

  /** The d5 correction changes a2 alone: it becomes the round-1 step of
      the new word 4, and every other chain entry is as before. */
  lemma BackPropagateD5KeepsChain(init: Md4State, w: WordBlock, m4: Word)
    ensures var w' := BackPropagateD5(init, w, m4);
      Chain(init, w', 8) == Op1(Chain(init, w, 4), Chain(init, w, 7), Chain(init, w, 6), Chain(init, w, 5), m4, 3) &&
      forall k :: 0 <= k < 20 && k != 8 ==> Chain(init, w', k) == Chain(init, w, k)
  {
    var w' := BackPropagateD5(init, w, m4);
    D5KeepsPrefix(init, w, m4);
    ChainNext(init, w', 4);
    D5KeepsD2(init, w, m4);
    D5KeepsC2(init, w, m4);
    D5KeepsB2(init, w, m4);
    D5KeepsA3(init, w, m4);
    forall k | 9 <= k < 20
      ensures Chain(init, w', k) == Chain(init, w, k)
    {
      ChainAgreesAfter(init, w', w, 9, k);
    }
  }

  /** a5 meets the conditions of its table, an Equal condition copying
      its bit from the register of `regs` the table names. */
  predicate A5Holds(regs: Registers, a5: Word) {
    TablesAreWellFormed();
    MeetsAll(a5, CondsOf(A5Conditions), RefsAt(A5Conditions, regs))
  }

  /** d5 meets the conditions of its table, read against `regs`. */
  predicate D5Holds(regs: Registers, d5: Word) {
    TablesAreWellFormed();
    MeetsAll(d5, CondsOf(D5Conditions), RefsAt(D5Conditions, regs))
  }

  /** The a5 the correction keeps: `v` with the bits of its table forced,
      read against the registers `s` after round 1. Every condition of the
      table holds, and every bit the table does not name is that of `v`. */
  function CorrectedA5(s: Registers, v: Word): (a5: Word)
    ensures A5Holds(s, a5)
    ensures Outside(a5, Cover(CondsOf(A5Conditions))) == Outside(v, Cover(CondsOf(A5Conditions)))
  {
    var conds, refs := CondsOf(A5Conditions), RefsAt(A5Conditions, s);
    TablesAreWellFormed();
    var a5 := Adjust(v, conds, refs);
    AdjustMeetsAll(a5, conds, refs);
    a5
  }

  /** The d5 the correction keeps: `v` with the bits of its table forced,
      read against the registers `s` that hold a5. Every condition of the
      table holds, and every bit the table does not name is that of `v`. */
  function CorrectedD5(s: Registers, v: Word): (d5: Word)
    ensures D5Holds(s, d5)
    ensures Outside(d5, Cover(CondsOf(D5Conditions))) == Outside(v, Cover(CondsOf(D5Conditions)))
  {
    var conds, refs := CondsOf(D5Conditions), RefsAt(D5Conditions, s);
    TablesAreWellFormed();
    var d5 := Adjust(v, conds, refs);
    AdjustMeetsAll(d5, conds, refs);
    d5
  }

  /** `second_round_a5`: compute round-2 value a5 from the registers after
      round 1 and word 0, force the bits its conditions name, solve for the
      word 0 that produces it, and rewrite words 1 .. 4 so that round 1
      still reaches d1, c1, b1, a2. */
  function SecondRoundA5(f: Finder): (g: Finder)
    ensures g.init == f.init
    ensures g.state.s == f.state.s[0 := g.state.s[0]]
    ensures g.data[5..] == f.data[5..]
    ensures g.state.s[0] == Op2(f.state.s[0], f.state.s[1], f.state.s[2], f.state.s[3], g.data[0], 3)
    ensures A5Holds(f.state.s, g.state.s[0])
    ensures Outside(g.state.s[0], Cover(CondsOf(A5Conditions))) ==
      Outside(Op2(f.state.s[0], f.state.s[1], f.state.s[2], f.state.s[3], f.data[0], 3), Cover(CondsOf(A5Conditions)))
    ensures Chain(f.init, g.data, 4) == Op1(f.init.s[0], f.init.s[1], f.init.s[2], f.init.s[3], g.data[0], 3)
    ensures forall k :: 5 <= k < 20 ==> Chain(f.init, g.data, k) == Chain(f.init, f.data, k)
  {
    var s := f.state.s;
    var a5 := CorrectedA5(s, Op2(s[0], s[1], s[2], s[3], f.data[0], 3));
    var m0 := Op2Inv(a5, 3, s[0], s[1], s[2], s[3]);
    BackPropagateA5KeepsChain(f.init, f.data, m0);
    Finder(f.init, Md4State(s[0 := a5]), BackPropagateA5(f.init, f.data, m0))
  }

  /** `second_round_d5`: compute round-2 value d5 from a5, the other
      registers and word 4, force the bits its conditions name, solve for
      the word 4 that produces it, and rewrite words 5 .. 8 so that round 1
      still reaches d2, c2, b2, a3. */
  function SecondRoundD5(f: Finder): (g: Finder)
    ensures g.init == f.init
    ensures g.state.s == f.state.s[3 := g.state.s[3]]
    ensures g.data[..4] == f.data[..4] && g.data[9..] == f.data[9..]
    ensures g.state.s[3] == Op2(f.state.s[3], f.state.s[0], f.state.s[1], f.state.s[2], g.data[4], 5)
    ensures D5Holds(f.state.s, g.state.s[3])
    ensures Outside(g.state.s[3], Cover(CondsOf(D5Conditions))) ==
      Outside(Op2(f.state.s[3], f.state.s[0], f.state.s[1], f.state.s[2], f.data[4], 5), Cover(CondsOf(D5Conditions)))
    ensures Chain(f.init, g.data, 8) ==
      Op1(Chain(f.init, f.data, 4), Chain(f.init, f.data, 7), Chain(f.init, f.data, 6), Chain(f.init, f.data, 5), g.data[4], 3)
    ensures forall k :: 0 <= k < 20 && k != 8 ==> Chain(f.init, g.data, k) == Chain(f.init, f.data, k)
  {
    var s := f.state.s;
    var d5 := CorrectedD5(s, Op2(s[3], s[0], s[1], s[2], f.data[4], 5));
    var m4 := Op2Inv(d5, 5, s[3], s[0], s[1], s[2]);
    BackPropagateD5KeepsChain(f.init, f.data, m4);
    Finder(f.init, Md4State(s[3 := d5]), BackPropagateD5(f.init, f.data, m4))
  }

  /** Round-2 value a5 of a message: step 0 of round 2 from the registers
      after round 1 and word 0. */
  function A5Value(init: Md4State, w: WordBlock): Word {
    var r := AfterRound1(init, w);
    Op2(r[0], r[1], r[2], r[3], w[0], 3)
  }

  /** Round-2 value d5 of a message: step 1 of round 2, which reads a5. */
  function D5Value(init: Md4State, w: WordBlock): Word {
    var r := AfterRound1(init, w);
    Op2(r[3], A5Value(init, w), r[1], r[2], w[4], 5)
  }

  /** What `find_once` establishes about the first block before it applies
      the differential: every round-1 step meets its conditions except the
      steps of a2 and d2 (the d5 correction changes a2, and d2's Equal
      conditions read it), and a5 and d5 meet theirs. */
  predicate Prepared(init: Md4State, w: WordBlock) {
    TablesAreWellFormed();
    var r := AfterRound1(init, w);
    (forall j :: 0 <= j < 16 && j != 4 && j != 5 ==> R1Holds(init, w, j)) &&
    A5Holds(r, A5Value(init, w)) && D5Holds(r[0 := A5Value(init, w)], D5Value(init, w))
  }

  /** The two corrections leave round 1 where it was from d1 on, except a2. */
  lemma CorrectionsKeepRound1(init: Md4State, w1: WordBlock, w2: WordBlock, w3: WordBlock)
    requires forall j :: 0 <= j < 16 ==> R1Holds(init, w1, j)
    requires forall k :: 5 <= k < 20 ==> Chain(init, w2, k) == Chain(init, w1, k)
    requires forall k :: 0 <= k < 20 && k != 8 ==> Chain(init, w3, k) == Chain(init, w2, k)
    ensures forall j :: 0 <= j < 16 && j != 0 && j != 1 && j != 4 && j != 5 ==> R1Holds(init, w3, j)
    ensures AfterRound1(init, w3) == AfterRound1(init, w1)
  {
    forall j | 0 <= j < 16 && j != 0 && j != 1 && j != 4 && j != 5
      ensures R1Holds(init, w3, j)
    {
      assert R1Holds(init, w1, j);
      assert Chain(init, w3, j + 3) == Chain(init, w1, j + 3);
      assert Chain(init, w3, j + 4) == Chain(init, w1, j + 4);
    }
    assert Chain(init, w3, 16) == Chain(init, w1, 16) && Chain(init, w3, 17) == Chain(init, w1, 17);
    assert Chain(init, w3, 18) == Chain(init, w1, 18) && Chain(init, w3, 19) == Chain(init, w1, 19);
  }

  /** The message difference of the attack: word 1 gains 2^31, word 2 gains
      2^31 and then loses 2^28, word 12 loses 2^16, all modulo 2^32. */
  function Differential(w: WordBlock): (w': WordBlock)
    ensures w'[1] == w[1] + 0x8000_0000 && w'[2] == w[2] + 0x8000_0000 - 0x1000_0000 && w'[12] == w[12] - 0x1_0000
    ensures forall k :: 0 <= k < 16 && k != 1 && k != 2 && k != 12 ==> w'[k] == w[k]
  {
    w[1 := w[1] + 0x8000_0000][2 := w[2] + 0x8000_0000 - 0x1000_0000][12 := w[12] - 0x1_0000]
  }

  /** The first message of a pair, recovered from the second. */
  function Undifferential(w: WordBlock): (w': WordBlock)
    ensures w'[1] == w[1] - 0x8000_0000 && w'[2] == w[2] + 0x1000_0000 - 0x8000_0000 && w'[12] == w[12] + 0x1_0000
    ensures forall k :: 0 <= k < 16 && k != 1 && k != 2 && k != 12 ==> w'[k] == w[k]
  {
    w[1 := w[1] - 0x8000_0000][2 := w[2] + 0x1000_0000 - 0x8000_0000][12 := w[12] + 0x1_0000]
  }

  lemma DifferenceCancels(x: Word)
    ensures x + 0x8000_0000 - 0x8000_0000 == x && x - 0x8000_0000 + 0x8000_0000 == x
    ensures x + 0x8000_0000 - 0x1000_0000 + 0x1000_0000 - 0x8000_0000 == x
    ensures x + 0x1000_0000 - 0x8000_0000 + 0x8000_0000 - 0x1000_0000 == x
    ensures x - 0x1_0000 + 0x1_0000 == x && x + 0x1_0000 - 0x1_0000 == x
  {
  }

  /** Reversing the differential gives back the first message. */
  lemma UndifferentialOfDifferential(w: WordBlock)
    ensures Undifferential(Differential(w)) == w
  {
    DifferenceCancels(w[1]);
    DifferenceCancels(w[2]);
    DifferenceCancels(w[12]);
    var u := Undifferential(Differential(w));
    assert u[1] == w[1] && u[2] == w[2] && u[12] == w[12];
    assert forall k :: 0 <= k < 16 ==> u[k] == w[k];
  }

  /** Applying the differential to a reversed message gives it back. */
  lemma DifferentialOfUndifferential(w: WordBlock)
    ensures Differential(Undifferential(w)) == w
  {
    DifferenceCancels(w[1]);
    DifferenceCancels(w[2]);
    DifferenceCancels(w[12]);
    var d := Differential(Undifferential(w));
    assert d[1] == w[1] && d[2] == w[2] && d[12] == w[12];
    assert forall k :: 0 <= k < 16 ==> d[k] == w[k];
  }

  /** The two messages differ in exactly the words 1, 2 and 12. */
  lemma DifferentialChangesThreeWords(w: WordBlock)
    ensures forall k :: 0 <= k < 16 ==> (Differential(w)[k] != w[k] <==> k == 1 || k == 2 || k == 12)
  {
  }

  /** The two blocks of a pair are never equal. */
  lemma PairBlocksDiffer(w: WordBlock)
    ensures EncodeWords(w) != EncodeWords(Differential(w))
  {
    DecodeEncode(w);
    DecodeEncode(Differential(w));
    assert Differential(w)[1] != w[1];
  }

  /** The finder `find_once` has made from the chaining state `init` and
      the drawn words before it applies the differential: the round-1
      steps, then the a5 and d5 corrections. Its words are prepared, and
      its registers hold a5, b4, c4 and d5. */
  function PrepareFinder(init: Md4State, draw: WordBlock): (g: Finder)
    ensures g.init == init && Prepared(init, g.data)
    ensures g.state.s == AfterRound1(init, g.data)[0 := A5Value(init, g.data)][3 := D5Value(init, g.data)]
  {
    var g1 := FirstRound(From(init), draw);
    FindOnceIsPrepared(init, g1);
    SecondRoundD5(SecondRoundA5(g1))
  }

  /** The pair `find_once` returns for the first block `w`: the
      little-endian blocks of `w` and of its differential, never equal. */
  function PairOf(w: WordBlock): (p: (ByteBlock, ByteBlock))
    ensures p.0 != p.1
  {
    PairBlocksDiffer(w);
    (EncodeWords(w), EncodeWords(Differential(w)))
  }

  /** The words of the first block of the pair made from `init` and `draw`. */
  function Prepare(init: Md4State, draw: WordBlock): WordBlock {
    PrepareFinder(init, draw).data
  }

  /** The corrections rewrite words 0 .. 8 only, so words 9 .. 15 of the
      first block are those round 1 settled on for the draw. */
  lemma PrepareKeepsLateWords(init: Md4State, draw: WordBlock)
    ensures Prepare(init, draw)[9..] == FirstRound(From(init), draw).data[9..]
  {
    CorrectionsKeepLateWords(FirstRound(From(init), draw));
  }

  /** The two corrections leave words 9 .. 15 alone. */
  lemma CorrectionsKeepLateWords(g1: Finder)
    ensures SecondRoundD5(SecondRoundA5(g1)).data[9..] == g1.data[9..]
  {
    var g2 := SecondRoundA5(g1);
    assert g2.data[9..] == g2.data[5..][4..] == g1.data[5..][4..] == g1.data[9..];
  }

  /** The pair made from the first block `w` collides: `w` and its
      differential compress to the same state from `init`. */
  predicate Collides(init: Md4State, w: WordBlock) {
    ProcessWords(init, w) == ProcessWords(init, Differential(w))
  }

  /** A pair collides exactly when the little-endian blocks written from
      its two word sets compress alike, the comparison `find_once` makes. */
  lemma CollidesOnBlocks(init: Md4State, w: WordBlock)
    ensures Collides(init, w) <==> ProcessBlock(init, EncodeWords(w)) == ProcessBlock(init, EncodeWords(Differential(w)))
  {
    ProcessBlockOfEncoding(init, w);
    ProcessBlockOfEncoding(init, Differential(w));
  }

  /** `find_once` with `draw` as the sixteen random words: round-1
      single-step modification, the a5 and d5 corrections, then the
      differential; the pair is returned only when both blocks compress
      to the same state from `init`. `g` is the finder afterwards, whose
      words are those of the second block. What it returns depends on the
      chaining state and the draw alone, not on the finder's earlier words. */
  method FindOnce(f: Finder, draw: WordBlock) returns (g: Finder, r: Option<(ByteBlock, ByteBlock)>)
    ensures g.init == f.init
    ensures g.data == Differential(Prepare(f.init, draw))
    ensures Prepared(f.init, Prepare(f.init, draw))
    ensures var w := Prepare(f.init, draw);
      g.state.s == AfterRound1(f.init, w)[0 := A5Value(f.init, w)][3 := D5Value(f.init, w)]
    ensures r.Some? <==> Collides(f.init, Prepare(f.init, draw))
    ensures r.Some? ==> r.value == PairOf(Prepare(f.init, draw))
    ensures r.Some? ==> r.value.0 != r.value.1 && ProcessBlock(f.init, r.value.0) == ProcessBlock(f.init, r.value.1)
  {
    var prepared := PrepareFinder(f.init, draw);
    var w1 := prepared.data;
    var b1: ByteBlock := EncodeWords(w1);
    var w2 := Differential(w1);
    var b2: ByteBlock := EncodeWords(w2);
    g := Finder(f.init, prepared.state, w2);
    PairBlocksDiffer(w1);
    CollidesOnBlocks(f.init, w1);
    if ProcessBlock(f.init, b1) == ProcessBlock(f.init, b2) {
      r := Some((b1, b2));
    } else {
      r := None;
    }
  }

  /** The bits the a5 table names: 18, 25, 26, 28 and 31. */
  lemma A5Cover()
    ensures Cover(CondsOf(A5Conditions)) == 0x9604_0000
  {
    var conds := CondsOf(A5Conditions);
    assert conds == [Condition(18, Equal), Condition(25, One), Condition(26, Zero), Condition(28, One), Condition(31, One)];
    CoverOfPrefix(conds, 0);
    CoverOfPrefix(conds, 1);
    CoverOfPrefix(conds, 2);
    CoverOfPrefix(conds, 3);
    CoverOfPrefix(conds, 4);
    assert conds[..5] == conds;
  }

  /** Values that differ only in the a5 bits 18, 25, 26, 28 and 31 agree on bits 0 .. 17. */
  lemma OutsideA5BitsAgreeLow(x: Word, y: Word)
    requires Outside(x, 0x9604_0000) == Outside(y, 0x9604_0000)
    ensures AgreeOn(x, y, 0x3_FFFF)
  {
    OutsideA5BitsAgreeLowRaw(x, y);
  }

  lemma OutsideA5BitsAgreeLowRaw(x: Word, y: Word)
    requires x & !0x9604_0000 == y & !0x9604_0000
    ensures AgreeOn(x, y, 0x3_FFFF)
  {
  }

  /** The a5 correction changes word 0 only by a multiple of 2^15: forcing
      bits 18, 25, 26, 28 and 31 of a5 and solving op2 for word 0 again
      leaves bits 0 .. 14 of the word as they were. */
  lemma A5CorrectionKeepsLowWordBits(s: Registers, m: Word)
    ensures var a5 := CorrectedA5(s, Op2(s[0], s[1], s[2], s[3], m, 3));
      AgreeOn(Op2Inv(a5, 3, s[0], s[1], s[2], s[3]), m, 0x7FFF)
  {
    var v := Op2(s[0], s[1], s[2], s[3], m, 3);
    var a5 := CorrectedA5(s, v);
    A5Cover();
    OutsideA5BitsAgreeLow(a5, v);
    Op2InvKeepsLowBits(a5, v, s[0], s[1], s[2], s[3]);
    Op2InvRecoversWord(s[0], s[1], s[2], s[3], m, 3);
  }

  /** The rows of a1 and d1 read a1 only at bits 6, 7 and 10, and read d1
      and b0, so they still hold when a1 keeps bits 3 .. 17 and d1 is unchanged. */
  lemma RowsOfA1AndD1Kept(init: Md4State, w1: WordBlock, w3: WordBlock)
    requires R1Holds(init, w1, 0) && R1Holds(init, w1, 1)
    requires Chain(init, w3, 5) == Chain(init, w1, 5)
    requires AgreeOn(Chain(init, w3, 4), Chain(init, w1, 4), 0x3_FFF8)
    ensures R1Holds(init, w3, 0) && R1Holds(init, w3, 1)
  {
    MiddleBitsSelect(Chain(init, w3, 4), Chain(init, w1, 4));
    RowOfA1Kept(init, w1, w3);
    RowOfD1Kept(init, w1, w3);
  }

  lemma RowOfA1Kept(init: Md4State, w1: WordBlock, w3: WordBlock)
    requires R1Holds(init, w1, 0)
    requires Inside(Chain(init, w3, 4), Mask(6)) == Inside(Chain(init, w1, 4), Mask(6))
    ensures R1Holds(init, w3, 0)
  {
    ChainStart(init, w1);
    ChainStart(init, w3);
    var conds := R1Conditions(0);
    var r, r' := Repeat(Chain(init, w1, 3), 1), Repeat(Chain(init, w3, 3), 1);
    assert Meets(Chain(init, w1, 4), r[0], conds[0]);
    assert Meets(Chain(init, w3, 4), r'[0], conds[0]);
  }

  lemma RowOfD1Kept(init: Md4State, w1: WordBlock, w3: WordBlock)
    requires R1Holds(init, w1, 1)
    requires Chain(init, w3, 5) == Chain(init, w1, 5)
    requires Inside(Chain(init, w3, 4), Mask(7)) == Inside(Chain(init, w1, 4), Mask(7))
    requires Inside(Chain(init, w3, 4), Mask(10)) == Inside(Chain(init, w1, 4), Mask(10))
    ensures R1Holds(init, w3, 1)
  {
    var conds := R1Conditions(1);
    var v := Chain(init, w1, 5);
    var r, r' := Repeat(Chain(init, w1, 4), 3), Repeat(Chain(init, w3, 4), 3);
    assert Meets(v, r[0], conds[0]) && Meets(v, r[1], conds[1]) && Meets(v, r[2], conds[2]);
    assert Meets(v, r'[0], conds[0]) && Meets(v, r'[1], conds[1]) && Meets(v, r'[2], conds[2]);
  }

  /** Words that agree on bits 3 .. 17 agree on bits 6, 7 and 10. */
  lemma MiddleBitsSelect(x: Word, y: Word)
    requires AgreeOn(x, y, 0x3_FFF8)
    ensures Inside(x, Mask(6)) == Inside(y, Mask(6)) && Inside(x, Mask(7)) == Inside(y, Mask(7))
    ensures Inside(x, Mask(10)) == Inside(y, Mask(10))
  {
    MasksOfA1Rows();
    MiddleBitsSelectRaw(x, y);
  }

  lemma MiddleBitsSelectRaw(x: Word, y: Word)
    requires AgreeOn(x, y, 0x3_FFF8)
    ensures AgreeOn(x, y, 0x40) && AgreeOn(x, y, 0x80) && AgreeOn(x, y, 0x400)
  {
  }

  lemma MasksOfA1Rows()
    ensures Mask(6) == 0x40 && Mask(7) == 0x80 && Mask(10) == 0x400
  {
  }

  /** The a5 correction keeps the rows of a1 and d1. */
  lemma A5CorrectionKeepsRowsOfA1AndD1(init: Md4State, g1: Finder)
    requires g1.init == init && g1.state.s == AfterRound1(init, g1.data)
    requires R1Holds(init, g1.data, 0) && R1Holds(init, g1.data, 1)
    ensures R1Holds(init, SecondRoundA5(g1).data, 0) && R1Holds(init, SecondRoundA5(g1).data, 1)
  {
    var g2 := SecondRoundA5(g1);
    var s := g1.state.s;
    A5CorrectionKeepsLowWordBits(s, g1.data[0]);
    ChainStart(init, g1.data);
    ChainNext(init, g1.data, 0);
    Op1KeepsMiddleBits(init.s[0], init.s[1], init.s[2], init.s[3], g2.data[0], g1.data[0]);
    RowsOfA1AndD1Kept(init, g1.data, g2.data);
  }

  /** Both corrections keep the rows of a1 and d1: the d5 correction
      leaves a0 .. b1 alone. */
  lemma CorrectionsKeepRowsOfA1AndD1(init: Md4State, g1: Finder)
    requires g1.init == init && g1.state.s == AfterRound1(init, g1.data)
    requires R1Holds(init, g1.data, 0) && R1Holds(init, g1.data, 1)
    ensures var g3 := SecondRoundD5(SecondRoundA5(g1));
      R1Holds(init, g3.data, 0) && R1Holds(init, g3.data, 1)
  {
    var g2 := SecondRoundA5(g1);
    var g3 := SecondRoundD5(g2);
    A5CorrectionKeepsRowsOfA1AndD1(init, g1);
    assert Chain(init, g3.data, 4) == Chain(init, g2.data, 4) && Chain(init, g3.data, 5) == Chain(init, g2.data, 5);
    RowsOfA1AndD1Kept(init, g2.data, g3.data);
  }

  /** After the two corrections round 1 still meets the conditions of
      every step that does not read or write a1 or a2, and ends where it
      did. (The rows of a1 and d1 hold as well: CorrectionsKeepRowsOfA1AndD1.) */
  lemma CorrectionsKeepConditions(init: Md4State, g1: Finder)
    requires g1.init == init && g1.state.s == AfterRound1(init, g1.data)
    requires forall j :: 0 <= j < 16 ==> R1Holds(init, g1.data, j)
    ensures var g2 := SecondRoundA5(g1); var g3 := SecondRoundD5(g2);
      (forall j :: 0 <= j < 16 && j != 0 && j != 1 && j != 4 && j != 5 ==> R1Holds(init, g3.data, j)) &&
      AfterRound1(init, g3.data) == g1.state.s && g3.data[0] == g2.data[0]
  {
    var g2 := SecondRoundA5(g1);
    var g3 := SecondRoundD5(g2);
    CorrectionsKeepRound1(init, g1.data, g2.data, g3.data);
    assert g3.data[..4][0] == g2.data[..4][0];
  }

  /** After the two corrections a5 is step 0 of round 2 of the final
      words, and it meets its conditions. */
  lemma CorrectionsGiveA5(init: Md4State, g1: Finder)
    requires g1.init == init && g1.state.s == AfterRound1(init, g1.data)
    requires forall j :: 0 <= j < 16 ==> R1Holds(init, g1.data, j)
    ensures var g2 := SecondRoundA5(g1); var w := SecondRoundD5(g2).data;
      A5Value(init, w) == g2.state.s[0] && A5Holds(AfterRound1(init, w), A5Value(init, w))
  {
    CorrectionsKeepConditions(init, g1);
  }

  /** After the two corrections d5 is step 1 of round 2 of the final
      words, it meets its conditions, and the registers hold a5, b4, c4, d5. */
  lemma CorrectionsGiveD5(init: Md4State, g1: Finder)
    requires g1.init == init && g1.state.s == AfterRound1(init, g1.data)
    requires forall j :: 0 <= j < 16 ==> R1Holds(init, g1.data, j)
    ensures var g2 := SecondRoundA5(g1); var g3 := SecondRoundD5(g2); var w := g3.data;
      var r := AfterRound1(init, w);
      D5Value(init, w) == g3.state.s[3] && D5Holds(r[0 := A5Value(init, w)], D5Value(init, w)) &&
      g3.state.s == r[0 := A5Value(init, w)][3 := D5Value(init, w)]
  {
    CorrectionsKeepConditions(init, g1);
    CorrectionsGiveA5(init, g1);
  }

  /** The round-1 loop and the two corrections together leave the words
      prepared and the registers at a5, b4, c4, d5. */
  lemma FindOnceIsPrepared(init: Md4State, g1: Finder)
    requires g1.init == init && g1.state.s == AfterRound1(init, g1.data)
    requires forall j :: 0 <= j < 16 ==> R1Holds(init, g1.data, j)
    ensures var g3 := SecondRoundD5(SecondRoundA5(g1));
      Prepared(init, g3.data) &&
      g3.state.s == AfterRound1(init, g3.data)[0 := A5Value(init, g3.data)][3 := D5Value(init, g3.data)]
  {
    CorrectionsKeepConditions(init, g1);
    CorrectionsKeepRowsOfA1AndD1(init, g1);
    CorrectionsGiveA5(init, g1);
    CorrectionsGiveD5(init, g1);
  }
}
