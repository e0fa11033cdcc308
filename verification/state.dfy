/** The MD4 chaining state and its compression function (rounds 1 to 3
    and the feed-forward of section 3.4 of RFC 1320), written as the
    program writes it, together with the step-table form of the same
    computation that the RFC gives. */
module State {
  import opened Ops
  import opened LittleEndian

  /** Four 32-bit registers a, b, c, d, in that order. */
  type Registers = s: seq<Word> | |s| == 4 witness [0, 0, 0, 0]

  /** One message block as sixteen words. */
  type WordBlock = s: seq<Word> | |s| == 16 witness seq(16, _ => 0)

  /** One message block as sixty-four bytes. */
  type ByteBlock = s: seq<Byte> | |s| == 64 witness seq(64, _ => 0)

  datatype Md4State = Md4State(s: Registers)

  /** The initial buffer of section 3.3 of RFC 1320. */
  function New(): (st: Md4State)
    ensures st.s[0] == 0x6745_2301 && st.s[1] == 0xefcd_ab89
    ensures st.s[2] == 0x98ba_dcfe && st.s[3] == 0x1032_5476
  {
    Md4State([0x6745_2301, 0xefcd_ab89, 0x98ba_dcfe, 0x1032_5476])
  }

  /** The working registers while the 48 steps run. */
  datatype Regs = Regs(a: Word, b: Word, c: Word, d: Word)

  /** Round 1 as the program's loop body writes it, for the quadruple of words starting at i. */
  function Round1Quad(r: Regs, x: WordBlock, i: nat): Regs
    requires i <= 12
  {
    var a := Op1(r.a, r.b, r.c, r.d, x[i], 3);
    var d := Op1(r.d, a, r.b, r.c, x[i + 1], 7);
    var c := Op1(r.c, d, a, r.b, x[i + 2], 11);
    var b := Op1(r.b, c, d, a, x[i + 3], 19);
    Regs(a, b, c, d)
  }

  /** Round 2's loop body: words i, i+4, i+8, i+12. */
  function Round2Quad(r: Regs, x: WordBlock, i: nat): Regs
    requires i <= 3
  {
    var a := Op2(r.a, r.b, r.c, r.d, x[i], 3);
    var d := Op2(r.d, a, r.b, r.c, x[i + 4], 5);
    var c := Op2(r.c, d, a, r.b, x[i + 8], 9);
    var b := Op2(r.b, c, d, a, x[i + 12], 13);
    Regs(a, b, c, d)
  }

  /** Round 3's loop body: words i, i+8, i+4, i+12. */
  function Round3Quad(r: Regs, x: WordBlock, i: nat): Regs
    requires i <= 3
  {
    var a := Op3(r.a, r.b, r.c, r.d, x[i], 3);
    var d := Op3(r.d, a, r.b, r.c, x[i + 8], 9);
    var c := Op3(r.c, d, a, r.b, x[i + 4], 11);
    var b := Op3(r.b, c, d, a, x[i + 12], 15);
    Regs(a, b, c, d)
  }

  /** The program's round 1 loop: `Round1Quad` for each start index of
      `idx` in turn. */
  function Round1Loop(r: Regs, x: WordBlock, idx: seq<nat>): Regs
    requires forall k :: 0 <= k < |idx| ==> idx[k] <= 12
    decreases |idx|
  {
    if |idx| == 0 then r else Round1Loop(Round1Quad(r, x, idx[0]), x, idx[1..])
  }

  /** The program's round 2 loop. */
  function Round2Loop(r: Regs, x: WordBlock, idx: seq<nat>): Regs
    requires forall k :: 0 <= k < |idx| ==> idx[k] <= 3
    decreases |idx|
  {
    if |idx| == 0 then r else Round2Loop(Round2Quad(r, x, idx[0]), x, idx[1..])
  }

  /** The program's round 3 loop. */
  function Round3Loop(r: Regs, x: WordBlock, idx: seq<nat>): Regs
    requires forall k :: 0 <= k < |idx| ==> idx[k] <= 3
    decreases |idx|
  {
    if |idx| == 0 then r else Round3Loop(Round3Quad(r, x, idx[0]), x, idx[1..])
  }

  function Round1(r: Regs, x: WordBlock): Regs {
    Round1Loop(r, x, [0, 4, 8, 12])
  }

  function Round2(r: Regs, x: WordBlock): Regs {
    Round2Loop(r, x, [0, 1, 2, 3])
  }

  /** Round 3 visits its quadruples in the order 0, 2, 1, 3. */
  function Round3(r: Regs, x: WordBlock): Regs {
    Round3Loop(r, x, [0, 2, 1, 3])
  }

  /** Each round is its four quadruples one after the other. */
  lemma RoundsUnrolled(r: Regs, x: WordBlock)
    ensures Round1(r, x) == Round1Quad(Round1Quad(Round1Quad(Round1Quad(r, x, 0), x, 4), x, 8), x, 12)
    ensures Round2(r, x) == Round2Quad(Round2Quad(Round2Quad(Round2Quad(r, x, 0), x, 1), x, 2), x, 3)
    ensures Round3(r, x) == Round3Quad(Round3Quad(Round3Quad(Round3Quad(r, x, 0), x, 2), x, 1), x, 3)
  {
    assert [0, 4, 8, 12][1..] == [4, 8, 12] && [4, 8, 12][1..] == [8, 12] && [8, 12][1..] == [12];
    assert [0, 1, 2, 3][1..] == [1, 2, 3] && [1, 2, 3][1..] == [2, 3] && [2, 3][1..] == [3];
    assert [0, 2, 1, 3][1..] == [2, 1, 3] && [2, 1, 3][1..] == [1, 3] && [1, 3][1..] == [3];
  }

  function RegsOf(st: Md4State): Regs {
    Regs(st.s[0], st.s[1], st.s[2], st.s[3])
  }

  /** Each final register wrapping-added to the register it started from. */
  function FeedForward(st: Md4State, r: Regs): Md4State {
    Md4State([r.a + st.s[0], r.b + st.s[1], r.c + st.s[2], r.d + st.s[3]])
  }

  /** `process_u32array`: compress sixteen words into the state. */
  function ProcessWords(st: Md4State, x: WordBlock): Md4State {
    FeedForward(st, Round3(Round2(Round1(RegsOf(st), x), x), x))
  }

  /** `process_block`: read the block as little-endian words, then compress. */
  function ProcessBlock(st: Md4State, input: ByteBlock): Md4State {
    ProcessWords(st, DecodeWords(input))
  }

  /** `apply_block`: the state after absorbing one more block. */
  function ApplyBlock(st: Md4State, input: ByteBlock): Md4State {
    ProcessBlock(st, input)
  }

  // The step table of section 3.4 of RFC 1320.

  const Round2Order: seq<nat> := [0, 4, 8, 12, 1, 5, 9, 13, 2, 6, 10, 14, 3, 7, 11, 15]
  const Round3Order: seq<nat> := [0, 8, 4, 12, 2, 10, 6, 14, 1, 9, 5, 13, 3, 11, 7, 15]
  const Round1Shifts: seq<Word> := [3, 7, 11, 19]
  const Round2Shifts: seq<Word> := [3, 5, 9, 13]
  const Round3Shifts: seq<Word> := [3, 9, 11, 15]

  /** The message word read by step i of the 48. */
  function WordIndex(i: nat): (k: nat)
    requires i < 48
    ensures k < 16
  {
    if i < 16 then i
    else if i < 32 then Round2Order[i - 16]
    else Round3Order[i - 32]
  }

  /** The rotation amount of step i of the 48. */
  function ShiftOf(i: nat): Word
    requires i < 48
  {
    if i < 16 then Round1Shifts[i % 4]
    else if i < 32 then Round2Shifts[i % 4]
    else Round3Shifts[i % 4]
  }

  /** Step i of the RFC's table. The register being updated is always
      kept in the first field: the new value moves to the second field
      and the others rotate, so that after four steps the fields are
      a, b, c, d again. */
  function Step(r: Regs, x: WordBlock, i: nat): Regs
    requires i < 48
  {
    var m := x[WordIndex(i)];
    var v :=
      if i < 16 then Op1(r.a, r.b, r.c, r.d, m, ShiftOf(i))
      else if i < 32 then Op2(r.a, r.b, r.c, r.d, m, ShiftOf(i))
      else Op3(r.a, r.b, r.c, r.d, m, ShiftOf(i));
    Regs(r.d, v, r.b, r.c)
  }

  /** The first n steps of the table. */
  function Run(r: Regs, x: WordBlock, n: nat): Regs
    requires n <= 48
  {
    if n == 0 then r else Step(Run(r, x, n - 1), x, n - 1)
  }

  /** Rounds 2 and 3 each read every one of the sixteen words, none twice. */
  lemma RoundOrdersArePermutations()
    ensures forall k :: 0 <= k < 16 ==> k in Round2Order && k in Round3Order
    ensures forall j1, j2 :: 0 <= j1 < j2 < 16 ==> Round2Order[j1] != Round2Order[j2] && Round3Order[j1] != Round3Order[j2]
  {
  }

  lemma {:induction false} RunFour(r: Regs, x: WordBlock, n: nat)
    requires n + 4 <= 48
    ensures Run(r, x, n + 4) == FourSteps(Run(r, x, n), x, n)
  {
    assert Run(r, x, n + 4) == Step(Run(r, x, n + 3), x, n + 3);
    assert Run(r, x, n + 3) == Step(Run(r, x, n + 2), x, n + 2);
    assert Run(r, x, n + 2) == Step(Run(r, x, n + 1), x, n + 1);
  }

  /** Four consecutive steps of the table starting at step n. */
  function FourSteps(r: Regs, x: WordBlock, n: nat): Regs
    requires n + 4 <= 48
  {
    Step(Step(Step(Step(r, x, n), x, n + 1), x, n + 2), x, n + 3)
  }

  /** Words and shifts of steps n .. n+3, read off the table. */
  predicate QuadReads(n: nat, w0: nat, w1: nat, w2: nat, w3: nat, s0: Word, s1: Word, s2: Word, s3: Word)
    requires n + 4 <= 48
  {
    WordIndex(n) == w0 && WordIndex(n + 1) == w1 && WordIndex(n + 2) == w2 && WordIndex(n + 3) == w3 &&
    ShiftOf(n) == s0 && ShiftOf(n + 1) == s1 && ShiftOf(n + 2) == s2 && ShiftOf(n + 3) == s3
  }

  /** Round 1's quadruple k reads words 4k .. 4k+3 with shifts 3, 7, 11, 19. */
  lemma Round1Reads(k: nat)
    requires k < 4
    ensures QuadReads(4 * k, 4 * k, 4 * k + 1, 4 * k + 2, 4 * k + 3, 3, 7, 11, 19)
  {
  }

  /** Round 2's quadruple k reads words k, k+4, k+8, k+12 with shifts 3, 5, 9, 13. */
  lemma Round2Reads(k: nat)
    requires k < 4
    ensures QuadReads(16 + 4 * k, k, k + 4, k + 8, k + 12, 3, 5, 9, 13)
  {
  }

  /** Round 3's quadruple k starts at word i = 0, 2, 1, 3 and reads
      words i, i+8, i+4, i+12 with shifts 3, 9, 11, 15. */
  lemma Round3Reads(k: nat)
    requires k < 4
    ensures var i := [0, 2, 1, 3][k]; QuadReads(32 + 4 * k, i, i + 8, i + 4, i + 12, 3, 9, 11, 15)
  {
  }

  lemma Round1QuadIsFourSteps(r: Regs, x: WordBlock, k: nat)
    requires k < 4
    ensures Round1Quad(r, x, 4 * k) == FourSteps(r, x, 4 * k)
  {
    Round1Reads(k);
  }

  lemma Round2QuadIsFourSteps(r: Regs, x: WordBlock, k: nat)
    requires k < 4
    ensures Round2Quad(r, x, k) == FourSteps(r, x, 16 + 4 * k)
  {
    Round2Reads(k);
  }

  lemma Round3QuadIsFourSteps(r: Regs, x: WordBlock, k: nat)
    requires k < 4
    ensures Round3Quad(r, x, [0, 2, 1, 3][k]) == FourSteps(r, x, 32 + 4 * k)
  {
    Round3Reads(k);
  }

  /** Round 1 of the program is steps 0 .. 15 of the table. */
  lemma Round1IsSteps(r: Regs, x: WordBlock)
    ensures Round1(r, x) == Run(r, x, 16)
  {
    RoundsUnrolled(r, x);
    RunFour(r, x, 0);
    Round1QuadIsFourSteps(r, x, 0);
    RunFour(r, x, 4);
    Round1QuadIsFourSteps(Run(r, x, 4), x, 1);
    RunFour(r, x, 8);
    Round1QuadIsFourSteps(Run(r, x, 8), x, 2);
    RunFour(r, x, 12);
    Round1QuadIsFourSteps(Run(r, x, 12), x, 3);
  }

  /** Round 2 of the program is steps 16 .. 31 of the table. */
  lemma Round2IsSteps(r: Regs, x: WordBlock)
    ensures Round2(Run(r, x, 16), x) == Run(r, x, 32)
  {
    RoundsUnrolled(Run(r, x, 16), x);
    RunFour(r, x, 16);
    Round2QuadIsFourSteps(Run(r, x, 16), x, 0);
    RunFour(r, x, 20);
    Round2QuadIsFourSteps(Run(r, x, 20), x, 1);
    RunFour(r, x, 24);
    Round2QuadIsFourSteps(Run(r, x, 24), x, 2);
    RunFour(r, x, 28);
    Round2QuadIsFourSteps(Run(r, x, 28), x, 3);
  }

  /** Round 3 of the program is steps 32 .. 47 of the table. */
  lemma Round3IsSteps(r: Regs, x: WordBlock)
    ensures Round3(Run(r, x, 32), x) == Run(r, x, 48)
  {
    RoundsUnrolled(Run(r, x, 32), x);
    RunFour(r, x, 32);
    Round3QuadIsFourSteps(Run(r, x, 32), x, 0);
    RunFour(r, x, 36);
    Round3QuadIsFourSteps(Run(r, x, 36), x, 1);
    RunFour(r, x, 40);
    Round3QuadIsFourSteps(Run(r, x, 40), x, 2);
    RunFour(r, x, 44);
    Round3QuadIsFourSteps(Run(r, x, 44), x, 3);
  }

  /** Compression is the 48-step table followed by the feed-forward addition. */
  lemma ProcessWordsIsStepTable(st: Md4State, x: WordBlock)
    ensures ProcessWords(st, x) == FeedForward(st, Run(RegsOf(st), x, 48))
  {
    Round1IsSteps(RegsOf(st), x);
    Round2IsSteps(RegsOf(st), x);
    Round3IsSteps(RegsOf(st), x);
  }

  /** Compressing a block is compressing its words, word k being bytes
      4k .. 4k+3 read least significant first. */
  lemma ProcessBlockReadsLittleEndian(st: Md4State, input: ByteBlock, x: WordBlock)
    requires forall k :: 0 <= k < 16 ==> x[k] == WordOf(input[4 * k], input[4 * k + 1], input[4 * k + 2], input[4 * k + 3])
    ensures ProcessBlock(st, input) == ProcessWords(st, x)
  {
    forall k | 0 <= k < 16
      ensures DecodeWords(input)[k] == x[k]
    {
      DecodedWord(input, k);
    }
    assert DecodeWords(input) == x;
  }

  /** Compressing the encoding of sixteen words is compressing those words. */
  lemma ProcessBlockOfEncoding(st: Md4State, x: WordBlock)
    ensures |EncodeWords(x)| == 64
    ensures ProcessBlock(st, EncodeWords(x)) == ProcessWords(st, x)
  {
    DecodeEncode(x);
  }

  const EmptyBlock: WordBlock := [0x80, 0x0, 0x0, 0x0, 0x0, 0x0, 0x0, 0x0, 0x0, 0x0, 0x0, 0x0, 0x0, 0x0, 0x0, 0x0]

  lemma EmptyRound1()
    ensures Round1(RegsOf(New()), EmptyBlock) == Regs(0xaddc_b303, 0x3665_f296, 0x8ee8_f245, 0xa483_a664)
  {
    RoundsUnrolled(RegsOf(New()), EmptyBlock);
    assert Op1(0x6745_2301, 0xefcd_ab89, 0x98ba_dcfe, 0x1032_5476, 0x80, 3) == 0x3f8;
    assert Op1(0x1032_5476, 0x3f8, 0xefcd_ab89, 0x98ba_dcfe, 0x0, 7) == 0x769a_0254;
    assert Op1(0x98ba_dcfe, 0x769a_0254, 0x3f8, 0xefcd_ab89, 0x0, 11) == 0x0446_b910;
    assert Op1(0xefcd_ab89, 0x0446_b910, 0x769a_0254, 0x3f8, 0x0, 19) == 0x740f_9e7d;
    assert Op1(0x3f8, 0x740f_9e7d, 0x0446_b910, 0x769a_0254, 0x0, 3) == 0x34b4_e040;
    assert Op1(0x769a_0254, 0x34b4_e040, 0x740f_9e7d, 0x0446_b910, 0x0, 7) == 0x704d_d255;
    assert Op1(0x0446_b910, 0x704d_d255, 0x34b4_e040, 0x740f_9e7d, 0x0, 11) == 0x6c2b_c1c2;
    assert Op1(0x740f_9e7d, 0x6c2b_c1c2, 0x704d_d255, 0x34b4_e040, 0x0, 19) == 0xf5ef_256b;
    assert Op1(0x34b4_e040, 0xf5ef_256b, 0x6c2b_c1c2, 0x704d_d255, 0x0, 3) == 0xc705_9cb4;
    assert Op1(0x704d_d255, 0xc705_9cb4, 0xf5ef_256b, 0x6c2b_c1c2, 0x0, 7) == 0xbe8b_dbae;
    assert Op1(0x6c2b_c1c2, 0xbe8b_dbae, 0xc705_9cb4, 0xf5ef_256b, 0x0, 11) == 0x8bf5_399c;
    assert Op1(0xf5ef_256b, 0x8bf5_399c, 0xbe8b_dbae, 0xc705_9cb4, 0x0, 19) == 0x18be_2386;
    assert Op1(0xc705_9cb4, 0x18be_2386, 0x8bf5_399c, 0xbe8b_dbae, 0x0, 3) == 0xaddc_b303;
    assert Op1(0xbe8b_dbae, 0xaddc_b303, 0x18be_2386, 0x8bf5_399c, 0x0, 7) == 0xa483_a664;
    assert Op1(0x8bf5_399c, 0xa483_a664, 0xaddc_b303, 0x18be_2386, 0x0, 11) == 0x8ee8_f245;
    assert Op1(0x18be_2386, 0x8ee8_f245, 0xa483_a664, 0xaddc_b303, 0x0, 19) == 0x3665_f296;
  }

  lemma EmptyRound2()
    ensures Round2(Regs(0xaddc_b303, 0x3665_f296, 0x8ee8_f245, 0xa483_a664), EmptyBlock) == Regs(0x3748_91bf, 0x6f95_2b2e, 0xb49a_4dae, 0x0a15_c329)
  {
    RoundsUnrolled(Regs(0xaddc_b303, 0x3665_f296, 0x8ee8_f245, 0xa483_a664), EmptyBlock);
    assert Op2(0xaddc_b303, 0x3665_f296, 0x8ee8_f245, 0xa483_a664, 0x80, 3) == 0x7a08_fb05;
    assert Op2(0xa483_a664, 0x7a08_fb05, 0x3665_f296, 0x8ee8_f245, 0x0, 5) == 0xade2_4047;
    assert Op2(0x8ee8_f245, 0xade2_4047, 0x7a08_fb05, 0x3665_f296, 0x0, 9) == 0x98bb_ca4f;
    assert Op2(0x3665_f296, 0x98bb_ca4f, 0xade2_4047, 0x7a08_fb05, 0x0, 13) == 0x66ce_c932;
    assert Op2(0x7a08_fb05, 0x66ce_c932, 0x98bb_ca4f, 0xade2_4047, 0x0, 3) == 0x0bb1_e72c;
    assert Op2(0xade2_4047, 0x0bb1_e72c, 0x66ce_c932, 0x98bb_ca4f, 0x0, 5) == 0x6410_a1c2;
    assert Op2(0x98bb_ca4f, 0x6410_a1c2, 0x0bb1_e72c, 0x66ce_c932, 0x0, 9) == 0x9e4a_14b3;
    assert Op2(0x66ce_c932, 0x9e4a_14b3, 0x6410_a1c2, 0x0bb1_e72c, 0x0, 13) == 0x3d0d_b9ec;
    assert Op2(0x0bb1_e72c, 0x3d0d_b9ec, 0x9e4a_14b3, 0x6410_a1c2, 0x0, 3) == 0x11e8_953d;
    assert Op2(0x6410_a1c2, 0x11e8_953d, 0x3d0d_b9ec, 0x9e4a_14b3, 0x0, 5) == 0x7b76_231b;
    assert Op2(0x9e4a_14b3, 0x7b76_231b, 0x11e8_953d, 0x3d0d_b9ec, 0x0, 9) == 0x727f_1264;
    assert Op2(0x3d0d_b9ec, 0x727f_1264, 0x7b76_231b, 0x11e8_953d, 0x0, 13) == 0xc8d8_4161;
    assert Op2(0x11e8_953d, 0xc8d8_4161, 0x727f_1264, 0x7b76_231b, 0x0, 3) == 0x3748_91bf;
    assert Op2(0x7b76_231b, 0x3748_91bf, 0xc8d8_4161, 0x727f_1264, 0x0, 5) == 0x0a15_c329;
    assert Op2(0x727f_1264, 0x0a15_c329, 0x3748_91bf, 0xc8d8_4161, 0x0, 9) == 0xb49a_4dae;
    assert Op2(0xc8d8_4161, 0xb49a_4dae, 0x0a15_c329, 0x3748_91bf, 0x0, 13) == 0x6f95_2b2e;
  }

  lemma EmptyRound3()
    ensures Round3(Regs(0x3748_91bf, 0x6f95_2b2e, 0xb49a_4dae, 0x0a15_c329), EmptyBlock) == Regs(0x798a_b330, 0x421b_bf48, 0x3e9e_5fb9, 0xb057_6c6a)
  {
    RoundsUnrolled(Regs(0x3748_91bf, 0x6f95_2b2e, 0xb49a_4dae, 0x0a15_c329), EmptyBlock);
    assert Op3(0x3748_91bf, 0x6f95_2b2e, 0xb49a_4dae, 0x0a15_c329, 0x80, 3) == 0xb9e9_1c4b;
    assert Op3(0x0a15_c329, 0xb9e9_1c4b, 0x6f95_2b2e, 0xb49a_4dae, 0x0, 9) == 0xac53_2bb7;
    assert Op3(0xb49a_4dae, 0xac53_2bb7, 0xb9e9_1c4b, 0x6f95_2b2e, 0x0, 11) == 0x1ab1_0ced;
    assert Op3(0x6f95_2b2e, 0x1ab1_0ced, 0xac53_2bb7, 0xb9e9_1c4b, 0x0, 15) == 0x28f0_76bd;
    assert Op3(0xb9e9_1c4b, 0x28f0_76bd, 0x1ab1_0ced, 0xac53_2bb7, 0x0, 3) == 0x36aa_ce9e;
    assert Op3(0xac53_2bb7, 0x36aa_ce9e, 0x28f0_76bd, 0x1ab1_0ced, 0x0, 9) == 0x3198_4c40;
    assert Op3(0x1ab1_0ced, 0x3198_4c40, 0x36aa_ce9e, 0x28f0_76bd, 0x0, 11) == 0x6f67_8dca;
    assert Op3(0x28f0_76bd, 0x6f67_8dca, 0x3198_4c40, 0x36aa_ce9e, 0x0, 15) == 0xb8b9_000f;
    assert Op3(0x36aa_ce9e, 0xb8b9_000f, 0x6f67_8dca, 0x3198_4c40, 0x0, 3) == 0x5e5b_de24;
    assert Op3(0x3198_4c40, 0x5e5b_de24, 0xb8b9_000f, 0x6f67_8dca, 0x0, 9) == 0xef17_8453;
    assert Op3(0x6f67_8dca, 0xef17_8453, 0x5e5b_de24, 0xb8b9_000f, 0x0, 11) == 0xb69f_1f41;
    assert Op3(0xb8b9_000f, 0xb69f_1f41, 0xef17_8453, 0x5e5b_de24, 0x0, 15) == 0x1873_17b3;
    assert Op3(0x5e5b_de24, 0x1873_17b3, 0xb69f_1f41, 0xef17_8453, 0x0, 3) == 0x798a_b330;
    assert Op3(0xef17_8453, 0x798a_b330, 0x1873_17b3, 0xb69f_1f41, 0x0, 9) == 0xb057_6c6a;
    assert Op3(0xb69f_1f41, 0xb057_6c6a, 0x798a_b330, 0x1873_17b3, 0x0, 11) == 0x3e9e_5fb9;
    assert Op3(0x1873_17b3, 0x3e9e_5fb9, 0xb057_6c6a, 0x798a_b330, 0x0, 15) == 0x421b_bf48;
  }

  /** Section A.5 of RFC 1320: the padded empty message (a single block
      holding the 0x80 marker and a zero length) compresses to the digest
      31d6cfe0 d16ae931 b73c59d7 e0c089c0. */
  lemma EmptyDigest()
    ensures ProcessWords(New(), EmptyBlock).s == [0xe0cf_d631, 0x31e9_6ad1, 0xd759_3cb7, 0xc089_c0e0]
  {
    EmptyRound1();
    EmptyRound2();
    EmptyRound3();
  }

  const AbcBlock: WordBlock := [0x8063_6261, 0x0, 0x0, 0x0, 0x0, 0x0, 0x0, 0x0, 0x0, 0x0, 0x0, 0x0, 0x0, 0x0, 0x18, 0x0]

  lemma AbcRound1()
    ensures Round1(RegsOf(New()), AbcBlock) == Regs(0xa299_a540, 0xda71_7395, 0x24ba_adcb, 0x04e1_9293)
  {
    RoundsUnrolled(RegsOf(New()), AbcBlock);
    assert Op1(0x6745_2301, 0xefcd_ab89, 0x98ba_dcfe, 0x1032_5476, 0x8063_6261, 3) == 0x031b_1304;
    assert Op1(0x1032_5476, 0x031b_1304, 0xefcd_ab89, 0x98ba_dcfe, 0x0, 7) == 0xee12_3855;
    assert Op1(0x98ba_dcfe, 0xee12_3855, 0x031b_1304, 0xefcd_ab89, 0x0, 11) == 0xd384_54e4;
    assert Op1(0xefcd_ab89, 0xd384_54e4, 0xee12_3855, 0x031b_1304, 0x0, 19) == 0xf66d_8f45;
    assert Op1(0x031b_1304, 0xf66d_8f45, 0xd384_54e4, 0xee12_3855, 0x0, 3) == 0xe98a_3ac6;
    assert Op1(0xee12_3855, 0xe98a_3ac6, 0xf66d_8f45, 0xd384_54e4, 0x0, 7) == 0x0f43_5cf0;
    assert Op1(0xd384_54e4, 0x0f43_5cf0, 0xe98a_3ac6, 0xf66d_8f45, 0x0, 11) == 0x9785_4e65;
    assert Op1(0xf66d_8f45, 0x9785_4e65, 0x0f43_5cf0, 0xe98a_3ac6, 0x0, 19) == 0x613b_2bc8;
    assert Op1(0xe98a_3ac6, 0x613b_2bc8, 0x9785_4e65, 0x0f43_5cf0, 0x0, 3) == 0xc65c_c9b7;
    assert Op1(0x0f43_5cf0, 0xc65c_c9b7, 0x613b_2bc8, 0x9785_4e65, 0x0, 7) == 0x6e36_5830;
    assert Op1(0x9785_4e65, 0x6e36_5830, 0xc65c_c9b7, 0x613b_2bc8, 0x0, 11) == 0x15d2_eef5;
    assert Op1(0x613b_2bc8, 0x15d2_eef5, 0x6e36_5830, 0xc65c_c9b7, 0x0, 19) == 0xa7d1_3acb;
    assert Op1(0xc65c_c9b7, 0xa7d1_3acb, 0x15d2_eef5, 0x6e36_5830, 0x0, 3) == 0xa299_a540;
    assert Op1(0x6e36_5830, 0xa299_a540, 0xa7d1_3acb, 0x15d2_eef5, 0x0, 7) == 0x04e1_9293;
    assert Op1(0x15d2_eef5, 0x04e1_9293, 0xa299_a540, 0xa7d1_3acb, 0x18, 11) == 0x24ba_adcb;
    assert Op1(0xa7d1_3acb, 0x24ba_adcb, 0x04e1_9293, 0xa299_a540, 0x0, 19) == 0xda71_7395;
  }

  lemma AbcRound2()
    ensures Round2(Regs(0xa299_a540, 0xda71_7395, 0x24ba_adcb, 0x04e1_9293), AbcBlock) == Regs(0x7296_594c, 0x8e53_1b8f, 0x3dd4_2422, 0x4e7e_1748)
  {
    RoundsUnrolled(Regs(0xa299_a540, 0xda71_7395, 0x24ba_adcb, 0x04e1_9293), AbcBlock);
    assert Op2(0xa299_a540, 0xda71_7395, 0x24ba_adcb, 0x04e1_9293, 0x8063_6261, 3) == 0x1389_a66c;
    assert Op2(0x04e1_9293, 0x1389_a66c, 0xda71_7395, 0x24ba_adcb, 0x0, 5) == 0x43b6_7f2e;
    assert Op2(0x24ba_adcb, 0x43b6_7f2e, 0x1389_a66c, 0xda71_7395, 0x0, 9) == 0xdd3d_21a5;
    assert Op2(0xda71_7395, 0xdd3d_21a5, 0x43b6_7f2e, 0x1389_a66c, 0x0, 13) == 0x228b_5116;
    assert Op2(0x1389_a66c, 0x228b_5116, 0xdd3d_21a5, 0x43b6_7f2e, 0x0, 3) == 0x8e5c_895d;
    assert Op2(0x43b6_7f2e, 0x8e5c_895d, 0x228b_5116, 0xdd3d_21a5, 0x0, 5) == 0x8abf_3b85;
    assert Op2(0xdd3d_21a5, 0x8abf_3b85, 0x8e5c_895d, 0x228b_5116, 0x0, 9) == 0xbd68_a784;
    assert Op2(0x228b_5116, 0xbd68_a784, 0x8abf_3b85, 0x8e5c_895d, 0x0, 13) == 0x4ec6_8171;
    assert Op2(0x8e5c_895d, 0x4ec6_8171, 0xbd68_a784, 0x8abf_3b85, 0x0, 3) == 0xbe6d_33db;
    assert Op2(0x8abf_3b85, 0xbe6d_33db, 0x4ec6_8171, 0xbd68_a784, 0x0, 5) == 0x75cb_1df4;
    assert Op2(0xbd68_a784, 0x75cb_1df4, 0xbe6d_33db, 0x4ec6_8171, 0x0, 9) == 0x7466_1d2d;
    assert Op2(0x4ec6_8171, 0x7466_1d2d, 0x75cb_1df4, 0xbe6d_33db, 0x18, 13) == 0x0323_e3b7;
    assert Op2(0xbe6d_33db, 0x0323_e3b7, 0x7466_1d2d, 0x75cb_1df4, 0x0, 3) == 0x7296_594c;
    assert Op2(0x75cb_1df4, 0x7296_594c, 0x0323_e3b7, 0x7466_1d2d, 0x0, 5) == 0x4e7e_1748;
    assert Op2(0x7466_1d2d, 0x4e7e_1748, 0x7296_594c, 0x0323_e3b7, 0x0, 9) == 0x3dd4_2422;
    assert Op2(0x0323_e3b7, 0x3dd4_2422, 0x4e7e_1748, 0x7296_594c, 0x0, 13) == 0x8e53_1b8f;
  }

  lemma AbcRound3()
    ensures Round3(Regs(0x7296_594c, 0x8e53_1b8f, 0x3dd4_2422, 0x4e7e_1748), AbcBlock) == Regs(0x12bc_25a3, 0x630a_7626, 0x4f4f_e461, 0x8d40_5204)
  {
    RoundsUnrolled(Regs(0x7296_594c, 0x8e53_1b8f, 0x3dd4_2422, 0x4e7e_1748), AbcBlock);
    assert Op3(0x7296_594c, 0x8e53_1b8f, 0x3dd4_2422, 0x4e7e_1748, 0x8063_6261, 3) == 0xfe66_819a;
    assert Op3(0x4e7e_1748, 0xfe66_819a, 0x8e53_1b8f, 0x3dd4_2422, 0x0, 9) == 0x7382_4016;
    assert Op3(0x3dd4_2422, 0x7382_4016, 0xfe66_819a, 0x8e53_1b8f, 0x0, 11) == 0x2f4e_3583;
    assert Op3(0x8e53_1b8f, 0x2f4e_3583, 0x7382_4016, 0xfe66_819a, 0x0, 15) == 0xfd9f_cfeb;
    assert Op3(0xfe66_819a, 0xfd9f_cfeb, 0x2f4e_3583, 0x7382_4016, 0x0, 3) == 0x74a1_3dc8;
    assert Op3(0x7382_4016, 0x74a1_3dc8, 0xfd9f_cfeb, 0x2f4e_3583, 0x0, 9) == 0x99e6_af11;
    assert Op3(0x2f4e_3583, 0x99e6_af11, 0x74a1_3dc8, 0xfd9f_cfeb, 0x0, 11) == 0x03f2_b578;
    assert Op3(0xfd9f_cfeb, 0x03f2_b578, 0x99e6_af11, 0x74a1_3dc8, 0x18, 15) == 0x71a2_ad97;
    assert Op3(0x74a1_3dc8, 0x71a2_ad97, 0x03f2_b578, 0x99e6_af11, 0x0, 3) == 0x798f_0b3e;
    assert Op3(0x99e6_af11, 0x798f_0b3e, 0x71a2_ad97, 0x03f2_b578, 0x0, 9) == 0x3f5d_0629;
    assert Op3(0x03f2_b578, 0x3f5d_0629, 0x798f_0b3e, 0x71a2_ad97, 0x0, 11) == 0xea0c_cd51;
    assert Op3(0x71a2_ad97, 0xea0c_cd51, 0x3f5d_0629, 0x798f_0b3e, 0x0, 15) == 0xacbf_46ad;
    assert Op3(0x798f_0b3e, 0xacbf_46ad, 0xea0c_cd51, 0x3f5d_0629, 0x0, 3) == 0x12bc_25a3;
    assert Op3(0x3f5d_0629, 0x12bc_25a3, 0xacbf_46ad, 0xea0c_cd51, 0x0, 9) == 0x8d40_5204;
    assert Op3(0xea0c_cd51, 0x8d40_5204, 0x12bc_25a3, 0xacbf_46ad, 0x0, 11) == 0x4f4f_e461;
    assert Op3(0xacbf_46ad, 0x4f4f_e461, 0x8d40_5204, 0x12bc_25a3, 0x0, 15) == 0x630a_7626;
  }

  /** Section A.5 of RFC 1320: the padded message "abc" (bytes 61 62 63,
      the 0x80 marker, and the bit length 24 in word 14) compresses to the
      digest a448017a af21d852 5fc10ae8 7aa6729d. */
  lemma AbcDigest()
    ensures ProcessWords(New(), AbcBlock).s == [0x7a01_48a4, 0x52d8_21af, 0xe80a_c15f, 0x9d72_a67a]
  {
    AbcRound1();
    AbcRound2();
    AbcRound3();
  }
}
