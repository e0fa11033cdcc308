# md4rip in Dafny

md4rip produces two different 64-byte blocks with the same MD4 compression
output. It follows the Wang et al. differential attack on MD4. An
arbitrary prefix is first absorbed into an MD4 chaining state. Its last
partial block is padded with zero bytes, not with standard MD4
finalisation. The collision finder then runs from the resulting state.

This project models the core of that program as pure Dafny functions and
small methods over immutable values:

- **Ops** (`ops.dfy`) models `src/ops.rs`:
  - the combining functions F, G and H;
  - the three round updates `op1`, `op2` and `op3` on `bv32` words, with every addition wrapping modulo 2^32;
  - the two inverse updates `op1_t` and `op2_t`, which solve for the message word that makes a round update produce a chosen register value.
- **LittleEndian** (`le.dfy`) provides the little-endian conversion between 64 bytes and 16 words that the program takes from the `byteorder` crate.
- **State** (`state.dfy`) models `src/state.rs`:
  - the MD4 chaining state and its RFC 1320 initial value;
  - the three-round compression `process_u32array` as the program's loops write it, then the feed-forward addition;
  - `process_block` and `apply_block`.

  The compression is proved equal to an independent 48-step table: the word order and shift of every step. It is also proved to give the digests of appendix A.5 of RFC 1320 on the padded empty message and on "abc".
- **Collision** (`collision.dfy`) models `src/collision.rs`:
  - the bit-condition `Kind`, the round-1 table (one row per step a1 … b4) and the a5 and d5 tables;
  - the bit adjustment loop;
  - `first_round_single_step`;
  - the round-2 corrections `second_round_a5` and `second_round_d5`, with their back-propagation through the round-1 chain;
  - the fixed message differential on words 1, 2 and 12;
  - `find_once`, with the sixteen random words passed in as a parameter.

  Round 1 also has a characterisation that does not follow the loop. A word block is what round 1 makes of a draw exactly when two things hold. Its chain meets every round-1 condition. Outside the bits a condition names, each chain value is the one its step computes with the drawn word.

  The round-1 chaining values are named by position (`Chain`). Entries 0 … 3 are a0, d0, c0, b0 of the finder's initial state. Entry k + 4 is the value round-1 step k computes, so a1 is entry 4 and b4 is entry 19.
- **BlockStream** (`stream.dfy`) models the block buffer that `src/builder.rs` feeds bytes through. The buffer is generic over its per-block callback, as it is in the program:
  - `Blocks` cuts a byte stream into whole 64-byte blocks;
  - `Absorb` feeds those blocks through a callback;
  - `FeedBuffer` is the buffer's `input`: it completes a partly filled buffer, passes whole blocks straight from the input, and keeps the rest.
- **Builder** (`builder.dfy`) models `src/builder.rs`:
  - `new`, `input`, `set_timeout` and `build`;
  - the zero padding rule;
  - the retry loop around `find_once`.

  An end-to-end method proves the chaining-state form of the collision the library's tests look for. Prefix, padding and either block of the pair, absorbed from the initial state, end in the same chaining state.
  The tests compare full MD4 digests. Equal digests follow because MD4's finalisation depends only on this state and the message length, which the two messages share. That finalisation step is not modelled.

`apply_block` replaces the state by `process_block` of it. In the model,
`State.ApplyBlock` returns that value, and `process_block` returns a new
state without touching its argument.

The random words of each attempt are an input: a 16-word block per
attempt, in a sequence of draws. Nothing in the model reads a clock,
a random source or a file.

A round-1 Equal condition copies its bit from `state.s[(s + 1) % 4]`
(src/collision.rs:77). That register is the second argument of `op1`, and
it holds the value the previous step wrote.

## Model

| member | source | states |
|---|---|---|
| `Ops.FSelects` | src/ops.rs:1-4 | each bit of F(x, y, z) is the bit of y where x has a 1 and the bit of z elsewhere |
| `Ops.GIsMajority` | src/ops.rs:6-9 | a bit of G(x, y, z) is set exactly when at least two of the three input bits are set |
| `Ops.HIsParity` | src/ops.rs:11-14 | a bit of H(x, y, z) is set exactly when an odd number of the three input bits are set |
| `Ops.HSymmetric` | src/ops.rs:11-14 | H gives the same word under every exchange of its arguments |
| `Ops.RotrUndoesRotl` | src/ops.rs:38-40 | rotating right by s undoes rotating left by s, for every amount (taken mod 32 as Rust does) |
| `Ops.RotlUndoesRotr` | src/ops.rs:17-19 | rotating left by s undoes rotating right by s |
| `Ops.Op1Inv` | src/ops.rs:38-40 | op1 applied to the word op1_t solves for produces exactly the requested value v, so every register value is reachable |
| `Ops.Op2Inv` | src/ops.rs:43-48 | the same for op2 and op2_t, with the round-2 constant 0x5A827999 |
| `Ops.Op1InvRecoversWord` | src/ops.rs:17-19 | op1_t of the op1 output gives back the message word that produced it |
| `Ops.Op2InvRecoversWord` | src/ops.rs:22-27 | op2_t of the op2 output gives back the message word that produced it |
| `Ops.Op1InjectiveInWord` | src/ops.rs:17-19 | two message words give the same op1 output if and only if they are equal |
| `Ops.Op2InjectiveInWord` | src/ops.rs:22-27 | two message words give the same op2 output if and only if they are equal |
| `Ops.Op3RecoversWord` | src/ops.rs:30-35 | rotating the op3 output right by s and taking out a, the parity of b, c, d and the round-3 constant 0x6ED9EBA1 gives back the message word |
| `Ops.Op2InvKeepsLowBits` | src/ops.rs:43-48 | op2_t with shift 3 gives bits 0 .. 14 of the word from bits 0 .. 17 of the target value alone: two targets that agree there give words that agree there |
| `Ops.Op1KeepsMiddleBits` | src/ops.rs:17-19 | op1 with shift 3 gives bits 3 .. 17 of its result from bits 0 .. 14 of the word alone: two words that agree there give results that agree there |
| `Ops.Op3InjectiveInWord` | src/ops.rs:30-35 | two message words give the same op3 output if and only if they are equal |
| `LittleEndian.DecodedWord` | src/state.rs:29-30 | word k of a decoded block is bytes 4k .. 4k+3 read least significant first |
| `LittleEndian.EncodedWord` | src/collision.rs:239-240 | bytes 4k .. 4k+3 of an encoded block are the bytes of word k, least significant first |
| `LittleEndian.DecodeEncode` | src/collision.rs:239-240 | decoding the encoding of a word sequence gives the words back |
| `LittleEndian.EncodeDecode` | src/state.rs:29-30 | encoding the decoding of a byte string of whole words gives the bytes back |
| `State.New` | src/state.rs:17-21 | the initial state is 0x67452301, 0xefcdab89, 0x98badcfe, 0x10325476 in that order |
| `State.RoundOrdersArePermutations` | src/state.rs:50-63 | the round-2 and round-3 word orders each read every one of the 16 words exactly once |
| `State.Round2Reads` | src/state.rs:50-55 | the four steps of round-2 quadruple k read words k, k+4, k+8, k+12 with shifts 3, 5, 9, 13 |
| `State.Round3Reads` | src/state.rs:58-63 | the four steps of round-3 quadruple k (i = 0, 2, 1, 3) read words i, i+8, i+4, i+12 with shifts 3, 9, 11, 15 |
| `State.Round1IsSteps` | src/state.rs:42-47 | the program's round-1 loop computes the first 16 steps of the step table, updating a, d, c, b cyclically |
| `State.Round2IsSteps` | src/state.rs:50-55 | the round-2 loop computes steps 16 … 31 of the step table |
| `State.Round3IsSteps` | src/state.rs:58-63 | the round-3 loop computes steps 32 … 47 of the step table |
| `State.ProcessWordsIsStepTable` | src/state.rs:35-73 | the compression is the 48-step table run from the input registers, with each result register wrapping-added to the corresponding input register |
| `State.ProcessBlockReadsLittleEndian` | src/state.rs:27-33 | compressing a byte block is compressing the 16 words whose word k is bytes 4k .. 4k+3 read little-endian |
| `State.ProcessBlockOfEncoding` | src/state.rs:27-33 | compressing the little-endian encoding of 16 words is compressing those words |
| `State.EmptyDigest` | src/state.rs:35-73 | compressing the RFC-padded empty message from the initial state gives the appendix A.5 digest 31d6cfe0d16ae931b73c59d7e0c089c0 |
| `State.AbcDigest` | src/state.rs:35-73 | compressing the RFC-padded message "abc" from the initial state gives the appendix A.5 digest a448017aaf21d8525fc10ae87aa6729d |
| `Collision.ForceBitsMeets` | src/collision.rs:75-81 | one adjustment makes its bits Zero, One or equal to the reference and leaves every other bit as it was |
| `Collision.ApplyConditionMeets` | src/collision.rs:76-80 | one table entry, applied, holds afterwards and changes no other bit |
| `Collision.Adjust` | src/collision.rs:75-81 | after the adjustment loop the last entry on each bit holds, and every bit no entry names keeps its value from the step output |
| `Collision.AdjustMeetsAll` | src/collision.rs:23-51 | when the digits of a table row are distinct, every entry of the row holds after adjustment |
| `Collision.TablesAreWellFormed` | src/collision.rs:23-51 | no row of the three tables names a digit twice, and every register index of the a5 and d5 tables is below 4 |
| `Collision.ChainIsRound1Run` | src/state.rs:42-47 | after n round-1 steps of the compression the registers a, b, c, d are chain entries n, n+3, n+2, n+1 |
| `Collision.Round1IsChain` | src/collision.rs:220-224 | the compression's round 1 ends on the last four chain entries (a4, b4, c4, d4) |
| `Collision.ChainAgreesOnPrefix` | src/collision.rs:222-224 | two word blocks that agree on their first n words have the same first n + 4 chain entries |
| `Collision.ChainAgreesAfter` | src/collision.rs:222-224 | two word blocks that agree from word n on, and on the four chain entries at n, agree on every later chain entry |
| `Collision.WindowRotates` | src/collision.rs:65-72 | the registers a round-1 step reads are the four previous chain entries, and writing the new value moves the window by one |
| `Collision.From` | src/collision.rs:55-61 | a new finder keeps the given state as its initial state; its working state is `MD4State::new()`, the `Default` of the state type, and its words are zero |
| `Collision.FirstRoundSingleStep` | src/collision.rs:63-95 | the written register equals op1 of the old registers with the new word, it meets its table row referencing the previous register, every unlisted bit is the natural op1 output, and only that register and that word change |
| `Collision.ChainKeepsPrefix` | src/collision.rs:84-91 | changing word i leaves chain entries 0 … i+3 unchanged |
| `Collision.FirstRoundStepKeepsWindow` | src/collision.rs:63-95 | the registers round-1 step i reads are chain entries i, i+3, i+2, i+1; the value it writes is entry i+4; afterwards the registers hold entries i+1 … i+4 |
| `Collision.FirstRoundStepKeepsConditions` | src/collision.rs:75-94 | the table rows of all earlier steps still hold after step i, and step i's row holds too |
| `Collision.WindowAtStart` | src/collision.rs:207-208 | the finder's state, copied from `init`, holds chain entries 0 … 3 |
| `Collision.WindowAtEnd` | src/collision.rs:220-224 | after 16 steps the state is the last four chain entries |
| `Collision.DrawKeptOnPrefix` | src/collision.rs:84-91 | whether chain value j + 4 keeps the draw outside row j's bits depends only on words 0 … j |
| `Collision.LaterStepsFollowDraw` | src/collision.rs:222-224 | steps after i replace only later words, so what step i kept of the draw still holds at the end of round 1 |
| `Collision.FirstRoundFrom` | src/collision.rs:222-224 | running steps i … 15 keeps the words before i; it leaves every row holding and the state at the last four chain entries; each step from i on keeps the draw outside its row's bits |
| `Collision.FirstRound` | src/collision.rs:219-224 | after round 1 every round-1 table row holds on the chain computed from `init` over the final words, and the state is its last four entries. Outside the bits row j names, chain value j + 4 is op1 of the four values before it with the drawn word j |
| `Collision.MeetsAllFixesCover` | src/collision.rs:75-81 | two values that meet the same row against the same references agree on every bit the row names |
| `Collision.Round1StepDetermined` | src/collision.rs:63-95 | the four previous chain values, the step's row and the drawn word fix the value the step writes and the word it leaves |
| `Collision.Round1Determined` | src/collision.rs:222-224 | two word blocks that both meet every round-1 row and keep the same draw agree on their first n words and first n + 4 chain values |
| `Collision.Round1Unique` | src/collision.rs:219-224 | at most one word block meets every round-1 row while keeping a given draw |
| `Collision.FirstRoundCharacterized` | src/collision.rs:219-224 | a word block is round 1's result for a draw if and only if its chain meets every round-1 row and keeps the draw outside each row's bits |
| `Collision.BackPropagateA5` | src/collision.rs:138-143 | the a5 correction replaces m0 by the new word and leaves words 5 … 15 alone |
| `Collision.A5KeepsD1` | src/collision.rs:140 | the recomputed m1 reproduces the original d1 |
| `Collision.A5KeepsC1` | src/collision.rs:141 | the recomputed m2 reproduces the original c1 |
| `Collision.A5KeepsB1` | src/collision.rs:142 | the recomputed m3 reproduces the original b1 |
| `Collision.A5KeepsA2` | src/collision.rs:143 | the recomputed m4 reproduces the original a2 |
| `Collision.BackPropagateA5KeepsChain` | src/collision.rs:127-143 | after the a5 correction, a1 is op1 of the initial state with the new m0, and every chain entry from d1 on is unchanged |
| `Collision.CorrectedA5` | src/collision.rs:108-115 | the adjusted a5 meets every entry of the a5 table against the registers after round 1, and every bit the table does not name is that of the op2 output |
| `Collision.SecondRoundA5` | src/collision.rs:97-147 | a5 is op2 of the old state with the new m0, meets the a5 table, differs from the natural op2 output only on table bits; only state word 0 and words 0 … 4 change; the chain from d1 on is unchanged |
| `Collision.BackPropagateD5` | src/collision.rs:196-200 | the d5 correction keeps words 0 … 3 and 9 … 15 and replaces m4 by the new word |
| `Collision.D5KeepsPrefix` | src/collision.rs:180-186 | chain entries a0 … b1 are unchanged by the d5 correction |
| `Collision.D5KeepsD2` | src/collision.rs:197 | the recomputed m5 reproduces the original d2 |
| `Collision.D5KeepsC2` | src/collision.rs:198 | the recomputed m6 reproduces the original c2 |
| `Collision.D5KeepsB2` | src/collision.rs:199 | the recomputed m7 reproduces the original b2 |
| `Collision.D5KeepsA3` | src/collision.rs:200 | the recomputed m8 reproduces the original a3 |
| `Collision.BackPropagateD5KeepsChain` | src/collision.rs:180-200 | after the d5 correction, a2 is op1 of a1, b1, c1, d1 with the new m4, and every other chain entry is unchanged |
| `Collision.CorrectedD5` | src/collision.rs:160-167 | the adjusted d5 meets every entry of the d5 table against the registers holding a5, and every bit the table does not name is that of the op2 output |
| `Collision.SecondRoundD5` | src/collision.rs:149-204 | d5 is op2 of the old d, a, b, c with the new m4, meets the d5 table, differs from the natural op2 output only on table bits; only state word 3 and words 4 … 8 change; every chain entry but a2 is unchanged |
| `Collision.CorrectionsKeepRound1` | src/collision.rs:228-230 | after both corrections, every round-1 table row except those of a1, d1, a2 and d2 still holds, and round 1 ends in the same four registers |
| `Collision.A5CorrectionKeepsLowWordBits` | src/collision.rs:108-125 | forcing the a5 bits 18, 25, 26, 28, 31 and solving op2 for word 0 again keeps bits 0 .. 14 of word 0, so the word changes by a multiple of 2^15 |
| `Collision.RowsOfA1AndD1Kept` | src/collision.rs:24-25 | the rows of a1 and d1 still hold for an a1 with the same bits 3 .. 17 and the same d1 |
| `Collision.A5CorrectionKeepsRowsOfA1AndD1` | src/collision.rs:97-147 | after the a5 correction the round-1 rows of a1 and d1 still hold, although a1 has changed |
| `Collision.CorrectionsKeepRowsOfA1AndD1` | src/collision.rs:228-230 | after both corrections the round-1 rows of a1 and d1 still hold |
| `Collision.Differential` | src/collision.rs:235-237 | word 1 gains 2^31, word 2 gains 2^31 and loses 2^28, word 12 loses 2^16, all modulo 2^32, and every other word is unchanged |
| `Collision.Undifferential` | src/collision.rs:235-237 | undoing the differential subtracts the same three amounts from words 1, 2 and 12 and touches no other word |
| `Collision.UndifferentialOfDifferential` | src/collision.rs:235-237 | undoing the differential gives back the first message |
| `Collision.DifferentialOfUndifferential` | src/collision.rs:235-237 | every word block is the differential of its undoing, so together with the row above the differential is a bijection on word blocks |
| `Collision.DifferentialChangesThreeWords` | src/collision.rs:235-237 | a word of the second message differs from the first exactly at positions 1, 2 and 12 |
| `Collision.CorrectionsKeepLateWords` | src/collision.rs:138-200 | the two corrections rewrite words 0 … 8 only; words 9 … 15 are unchanged |
| `Collision.PairBlocksDiffer` | src/collision.rs:232-240 | the two encoded blocks are different |
| `Collision.PrepareFinder` | src/collision.rs:207-232 | the finder made from `init` and the draw by round 1 and the two corrections has prepared words (every round-1 row except those of a2 and d2, and the a5 and d5 tables), and its registers hold a5, b4, c4, d5 |
| `Collision.PrepareKeepsLateWords` | src/collision.rs:219-232 | words 9 … 15 of the first block are those round 1 settles on for the draw |
| `Collision.PairOf` | src/collision.rs:239-243 | the two blocks of a returned pair are different |
| `Collision.CollidesOnBlocks` | src/collision.rs:242-246 | a prepared block collides exactly when its little-endian block and that of its differential compress to the same state from `init` |
| `Collision.FindOnce` | src/collision.rs:206-247 | the finder's words become the differential of the block prepared from `init` and the draw; the result is `Some` exactly when that block collides, and it is then the block and its differential, encoded; the two blocks differ and compress alike from `init`; `init` is unchanged; the prepared block meets every round-1 row except those of a2 and d2, and the a5 and d5 tables; the registers end at a5, b4, c4, d5 |
| `Collision.FindOnceIsPrepared` | src/collision.rs:219-232 | after round 1 and both corrections every round-1 row except those of a2 and d2 holds, a5 and d5 meet their tables, and the registers hold a5, b4, c4, d5 |
| `BlockStream.Blocks` | src/builder.rs:21-23 | a stream has one whole block per 64 bytes, rounded down |
| `BlockStream.PendingOf` | src/builder.rs:21-23 | what the buffer keeps is the last length-mod-64 bytes of the stream |
| `BlockStream.FlattenBlocks` | src/builder.rs:21-23 | the whole blocks of a stream of whole blocks, laid end to end, are the stream |
| `BlockStream.BlocksFlatten` | src/builder.rs:21-23 | cutting blocks laid end to end gives the same blocks |
| `BlockStream.BlocksAppend` | src/builder.rs:21-23 | the blocks of whole blocks followed by more bytes are the blocks of each part |
| `BlockStream.SplitAtPending` | src/builder.rs:21-23 | a stream is its whole blocks followed by what the buffer keeps |
| `BlockStream.PendingAfterWhole` | src/builder.rs:21-23 | whole blocks in front of a stream do not change what the buffer keeps |
| `BlockStream.FoldAppend` | src/builder.rs:21-23 | feeding two runs of blocks in turn is feeding their concatenation |
| `BlockStream.AbsorbAppend` | src/builder.rs:21-23 | absorbing whole blocks and then more bytes is absorbing the concatenation |
| `BlockStream.AbsorbSnoc` | src/builder.rs:21-23 | one more block after whole blocks is one more call of the callback |
| `BlockStream.AbsorbIgnoresTail` | src/builder.rs:21-23 | a partial last block is not passed to the callback |
| `BlockStream.FeedBuffer` | src/builder.rs:21-23 | after the buffer's input the state is every whole block of buffer contents plus input fed in order, and the buffer keeps the rest |
| `BlockStream.FeedKeepsStream` | src/builder.rs:18-24 | feeding input to a buffer that stands for a stream leaves it standing for the longer stream, whatever the pieces were |
| `Builder.NewBuilder` | src/builder.rs:15-17 | a new builder has counted nothing, holds the empty stream, starts from the RFC 1320 initial state and has timeout 0 |
| `Builder.Input` | src/builder.rs:18-24 | the counter grows by the input length modulo 2^64, every completed block is absorbed with apply_block in order, fewer than 64 bytes stay pending, and the timeout is kept |
| `Builder.InputKeepsStream` | src/builder.rs:18-24 | after any sequence of inputs the state is every whole block of everything taken in, absorbed in order, and the rest is pending |
| `Builder.SetTimeout` | src/builder.rs:26-28 | the timeout is stored and the counter, buffer and state are unchanged |
| `Builder.Padding` | src/builder.rs:33-41 | no padding when the buffer position is 0, otherwise `remaining` zero bytes |
| `Builder.PaddingFollowsRule` | src/builder.rs:33-41 | the padding is (64 − N mod 64) mod 64 zero bytes for N bytes taken in, and the padded stream has ceil(N / 64) blocks |
| `Builder.PaddedTail` | src/builder.rs:36-41 | the pending bytes and the padding are nothing or exactly one block, so the buffer ends empty |
| `Builder.PaddingCompletesStream` | src/builder.rs:36-41 | the padded stream is whole blocks, and absorbing the padded tail gives the state of absorbing the whole padded stream |
| `Builder.Attempt` | src/builder.rs:44-50 | after draws 0 … n − 1 have all failed, one `find_once` with draw n either returns the pair of the first colliding draw or shows that draws 0 … n all fail |
| `Builder.Retry` | src/builder.rs:43-51 | the result is `None` exactly when no draw's prepared block collides; otherwise it is the pair made from the first draw that does, and its two blocks differ and compress alike from the state |
| `Builder.PadPending` | src/builder.rs:31-41 | the padding is the zero-padding rule's bytes; the state is the pending bytes plus padding absorbed; the buffer ends empty; counter and timeout are kept |
| `Builder.Build` | src/builder.rs:30-52 | the finder starts from the state after the padded tail; the padding follows the rule; the result is `None` exactly when no draw collides, and otherwise the pair of the first colliding draw, two different blocks that compress alike from that state |
| `Builder.CompletedStreamsCollide` | src/lib.rs:62-70 | two blocks that compress alike after a stream of whole blocks make the two extended streams absorb to the same state |
| `Builder.CollideAfter` | src/lib.rs:47-70 | for any prefix, the finder starts from the state of prefix and padding absorbed from the initial state, the padding follows the rule, and prefix, padding and either block absorb to the same state |
| `Builder.EmptyPrefixStartsFromNew` | src/lib.rs:21-34 | with no prefix there is no padding and the finder starts from the initial state itself |

## Left out

- The command-line program (`src/app.rs`, `src/main.rs`, `src/bin/md4.rs`) reads files, writes the outputs and prints digests. It is I/O around the core.
- `src/lib.rs` is module wiring and tests. The tests appear only as the end-to-end property `Builder.CollideAfter`.
- `rand::random` is not modelled. Each attempt takes its 16 words from a caller-supplied draw.
- `Builder.Build`: the source loops until `find_once` succeeds and returns only `Ok`. The model tries each supplied draw once, in order, and returns `None` when the draws run out. That the attack eventually succeeds is probabilistic and is not claimed.
- `Builder.Build`: the source returns `(padding, m1, m2)` in one tuple. The model returns the padding on its own and the pair as an option.
- The timeout is stored by `set_timeout` and never read, in the source and in the model alike.
- `timeout_sec` is a `usize` in the source and a `nat` here, because nothing computes with it.
- The `block_buffer` crate is not part of this model. Its buffer is modelled as the pending bytes, with `position` their length and `remaining` 64 minus that.
- The `byteorder` crate is replaced by explicit little-endian packing of four bytes per word.
- Standard MD4 finalisation (the 0x80 marker and the length suffix) is not implemented by the program and is not modelled. The appendix A.5 conformance lemmas build the RFC-padded block by hand.
- `find_once` also writes the first block at two earlier points. Those encodings are overwritten before use, so only the last one is modelled.
- `Collision.BackPropagateA5`: the source recomputes a1 … a2 from `init` with op1. The model names the same values as round-1 chain entries of the current words. The two are the same values because each chain entry is op1 of the four before it.
- `Collision.BackPropagateD5`: the same holds for the recomputed a1 … a3.
- `Collision.FindOnce`: the prepared-message property leaves out the round-1 rows of a2 and d2. The d5 correction recomputes a2 from a new word 4, and a carry can change the bits those two rows test. The source does not restore them; its final equality check decides, and the model's check does the same. The rows of a1 and d1 are kept: the a5 correction changes word 0 by a multiple of 2^15, so a1 keeps bits 3 .. 17 (`Collision.CorrectionsKeepRowsOfA1AndD1`).
- The collision finder's `init` and scratch state, and the builder, are values that operations return anew, not objects updated in place.
