/** The prefix builder: it absorbs a prefix block by block into an MD4
    chaining state, pads the last partial block with zeros, and runs the
    collision finder from the resulting state until a draw succeeds. */
module Builder {
  import opened Wrappers
  import opened LittleEndian
  import opened State
  import opened Collision
  import opened BlockStream

  /** The byte counter is a `u64` and wraps modulo 2^64. */
  const CounterModulus: nat := 0x1_0000_0000_0000_0000

  /** `Builder`: the number of bytes taken in so far, the bytes of the
      block not yet complete (the block buffer's contents up to its
      position), the chaining state after every completed block, and the
      stored timeout. */
  datatype Builder = Builder(inputBytes: nat, pending: seq<Byte>, state: Md4State, timeoutSec: nat)

  /** The counter fits its 64 bits and the buffer never holds a whole block. */
  predicate Valid(b: Builder) {
    b.inputBytes < CounterModulus && |b.pending| < 64
  }

  /** The builder stands for the byte stream `taken` fed from `start`:
      every whole block of it has been absorbed with `apply_block`, and its
      partial last block is in the buffer. */
  predicate Holds(b: Builder, start: Md4State, taken: seq<Byte>) {
    b.state == Absorb(ApplyBlock, start, taken) && b.pending == PendingOf(taken)
  }

  /** `Builder::new`: nothing taken in, the RFC 1320 initial state, no timeout. */
  function NewBuilder(): (b: Builder)
    ensures Valid(b) && b.inputBytes == 0 && b.timeoutSec == 0
    ensures Holds(b, New(), [])
  {
    AbsorbNothing(ApplyBlock, New());
    Builder(0, [], New(), 0)
  }

  /** `Builder::input`: count the bytes modulo 2^64 and pass them through the
      block buffer, absorbing every block that fills up. */
  method Input(b: Builder, input: seq<Byte>) returns (b': Builder)
    requires Valid(b)
    ensures Valid(b')
    ensures b'.inputBytes == (b.inputBytes + |input|) % CounterModulus
    ensures b'.timeoutSec == b.timeoutSec
    ensures b'.state == Absorb(ApplyBlock, b.state, b.pending + input)
    ensures b'.pending == PendingOf(b.pending + input)
  {
    var st, pending := FeedBuffer(ApplyBlock, b.state, b.pending, input);
    b' := Builder((b.inputBytes + |input|) % CounterModulus, pending, st, b.timeoutSec);
  }

  /** Taking in more bytes keeps the builder standing for the whole stream
      so far, whatever pieces the stream arrived in. */
  lemma InputKeepsStream(b: Builder, b': Builder, start: Md4State, taken: seq<Byte>, input: seq<Byte>)
    requires Holds(b, start, taken)
    requires b'.state == Absorb(ApplyBlock, b.state, b.pending + input)
    requires b'.pending == PendingOf(b.pending + input)
    ensures Holds(b', start, taken + input)
  {
    FeedKeepsStream(ApplyBlock, start, taken, b.pending, input);
  }

  /** `Builder::set_timeout`: the timeout is stored and nothing else changes. */
  function SetTimeout(b: Builder, seconds: nat): (b': Builder)
    ensures b'.timeoutSec == seconds
    ensures b'.inputBytes == b.inputBytes && b'.pending == b.pending && b'.state == b.state
  {
    b.(timeoutSec := seconds)
  }

  /** The zero padding `build` appends: nothing when the buffer is empty,
      and otherwise zero bytes up to the end of the block. */
  function Padding(b: Builder): (pad: seq<Byte>)
    requires Valid(b)
    ensures |b.pending| == 0 ==> pad == []
    ensures |b.pending| != 0 ==> |pad| == 64 - |b.pending| && forall i :: 0 <= i < |pad| ==> pad[i] == 0
  {
    if |b.pending| == 0 then [] else seq(64 - |b.pending|, _ => 0)
  }

  /** The padding rule stated on the length of the whole stream: zero
      bytes up to the next multiple of 64, and none at a multiple of 64. */
  function PaddingFor(n: nat): seq<Byte> {
    seq((64 - n % 64) % 64, _ => 0)
  }

  /** The padding `build` computes from the buffer is the padding rule
      applied to the length of everything taken in, and the padded stream
      has one block for every started block of the stream. */
  lemma PaddingFollowsRule(b: Builder, taken: seq<Byte>)
    requires Valid(b) && b.pending == PendingOf(taken)
    ensures Padding(b) == PaddingFor(|taken|)
    ensures |Blocks(taken + Padding(b))| == (|taken| + 63) / 64
  {
  }

  /** The padded tail is empty or exactly one block, so nothing is left pending. */
  lemma PaddedTail(b: Builder)
    requires Valid(b)
    ensures |b.pending + Padding(b)| == 0 || |b.pending + Padding(b)| == 64
    ensures PendingOf(b.pending + Padding(b)) == []
  {
  }

  /** Padding completes the stream the builder stands for to whole blocks. */
  lemma PaddingCompletesStream(b: Builder, start: Md4State, taken: seq<Byte>)
    requires Valid(b) && Holds(b, start, taken)
    ensures |taken + Padding(b)| % 64 == 0
    ensures Absorb(ApplyBlock, b.state, b.pending + Padding(b)) == Absorb(ApplyBlock, start, taken + Padding(b))
  {
    FeedKeepsStream(ApplyBlock, start, taken, b.pending, Padding(b));
    PaddedTail(b);
  }

  /** Attempt i is the first of `draws` whose pair, prepared from the
      chaining state `st`, collides. */
  predicate FirstToCollide(st: Md4State, draws: seq<WordBlock>, i: nat)
    requires i < |draws|
  {
    Collides(st, Prepare(st, draws[i])) && NoneCollide(st, draws, i)
  }

  /** None of the first n draws gives a colliding pair from `st`. */
  predicate NoneCollide(st: Md4State, draws: seq<WordBlock>, n: nat)
    requires n <= |draws|
  {
    forall i {:trigger Collides(st, Prepare(st, draws[i]))} :: 0 <= i < n ==> !Collides(st, Prepare(st, draws[i]))
  }

  /** Draw i is the first to collide from `st`, and `p` is its pair. */
  predicate FoundAt(st: Md4State, draws: seq<WordBlock>, i: nat, p: (ByteBlock, ByteBlock))
    requires i < |draws|
  {
    FirstToCollide(st, draws, i) && p == PairOf(Prepare(st, draws[i]))
  }

  /** What the retry loop returns for `draws` from `st`: nothing exactly
      when no draw gives a colliding pair, and otherwise the pair (first
      block, second block) made from the first draw that does. */
  predicate FindsFirst(st: Md4State, draws: seq<WordBlock>, r: Option<(ByteBlock, ByteBlock)>) {
    (r.None? <==> NoneCollide(st, draws, |draws|)) &&
    (r.Some? ==> exists i :: 0 <= i < |draws| && FoundAt(st, draws, i, r.value))
  }

  /** A draw that fails after draws that failed extends the failing prefix. */
  lemma NoneCollideStep(st: Md4State, draws: seq<WordBlock>, n: nat)
    requires n < |draws| && NoneCollide(st, draws, n) && !Collides(st, Prepare(st, draws[n]))
    ensures NoneCollide(st, draws, n + 1)
  {
  }

  /** The pair of the first colliding draw is what the loop should return. */
  lemma FoundFirst(st: Md4State, draws: seq<WordBlock>, n: nat, r: Option<(ByteBlock, ByteBlock)>)
    requires n < |draws| && NoneCollide(st, draws, n) && Collides(st, Prepare(st, draws[n]))
    requires r == Some(PairOf(Prepare(st, draws[n])))
    ensures FindsFirst(st, draws, r)
  {
    assert FoundAt(st, draws, n, r.value);
  }

  /** When every draw fails the loop rightly returns nothing. */
  lemma FoundNone(st: Md4State, draws: seq<WordBlock>)
    requires NoneCollide(st, draws, |draws|)
    ensures FindsFirst(st, draws, None)
  {
  }

  /** One pass of the retry loop: `find_once` with draw n, after draws
      0 .. n-1 have all failed. A pair that comes back is the first; no pair
      means draws 0 .. n fail. */
  method Attempt(finder: Finder, draws: seq<WordBlock>, n: nat) returns (finder': Finder, r: Option<(ByteBlock, ByteBlock)>)
    requires n < |draws| && NoneCollide(finder.init, draws, n)
    ensures finder'.init == finder.init
    ensures r.None? ==> NoneCollide(finder.init, draws, n + 1)
    ensures r.Some? ==> FindsFirst(finder.init, draws, r)
    ensures r.Some? ==> r.value.0 != r.value.1 && ApplyBlock(finder.init, r.value.0) == ApplyBlock(finder.init, r.value.1)
  {
    finder', r := FindOnce(finder, draws[n]);
    if r.Some? {
      FoundFirst(finder.init, draws, n, r);
    } else {
      NoneCollideStep(finder.init, draws, n);
    }
  }

  /** The retry loop of `Builder::build`: a finder starts from `st`, and
      `find_once` runs with one draw after another until it returns a pair.
      The source retries forever; here the attempts stop when the draws run
      out. */
  method Retry(st: Md4State, draws: seq<WordBlock>) returns (r: Option<(ByteBlock, ByteBlock)>)
    ensures FindsFirst(st, draws, r)
    ensures r.Some? ==> r.value.0 != r.value.1 && ApplyBlock(st, r.value.0) == ApplyBlock(st, r.value.1)
  {
    var finder := From(st);
    r := None;
    for i := 0 to |draws|
      invariant finder.init == st && r.None?
      invariant NoneCollide(st, draws, i)
    {
      finder, r := Attempt(finder, draws, i);
      if r.Some? {
        return;
      }
    }
    FoundNone(st, draws);
  }

  /** The first half of `Builder::build`: pad the pending bytes with
      zeros up to the end of the block and absorb them, leaving the buffer
      empty. */
  method PadPending(b: Builder) returns (b': Builder, pad: seq<Byte>)
    requires Valid(b)
    ensures pad == Padding(b)
    ensures Valid(b') && b'.pending == [] && b'.inputBytes == b.inputBytes && b'.timeoutSec == b.timeoutSec
    ensures b'.state == Absorb(ApplyBlock, b.state, b.pending + pad)
  {
    pad := Padding(b);
    var st, pending := b.state, b.pending;
    if |pending| != 0 {
      st, pending := FeedBuffer(ApplyBlock, st, pending, pad);
      PaddedTail(b);
    } else {
      assert b.pending + pad == [];
      AbsorbNothing(ApplyBlock, st);
    }
    b' := Builder(b.inputBytes, pending, st, b.timeoutSec);
  }

  /** `Builder::build` with the finder's random words drawn from `draws`:
      pad the pending bytes with zeros and absorb them, then run the retry
      loop from the resulting state. `build` returns the padding together
      with the pair; here the padding comes back on its own and the pair as
      an option: none exactly when no draw collides, and otherwise the pair
      of the first draw that does. */
  method Build(b: Builder, draws: seq<WordBlock>) returns (b': Builder, pad: seq<Byte>, r: Option<(ByteBlock, ByteBlock)>)
    requires Valid(b)
    ensures Valid(b') && b'.pending == [] && b'.inputBytes == b.inputBytes && b'.timeoutSec == b.timeoutSec
    ensures pad == Padding(b)
    ensures b'.state == Absorb(ApplyBlock, b.state, b.pending + pad)
    ensures FindsFirst(b'.state, draws, r)
    ensures r.Some? ==> r.value.0 != r.value.1 && ApplyBlock(b'.state, r.value.0) == ApplyBlock(b'.state, r.value.1)
  {
    b', pad := PadPending(b);
    r := Retry(b'.state, draws);
  }

  /** Two blocks that compress alike from the state after a stream of whole
      blocks make the two extended streams absorb to the same state. */
  lemma CompletedStreamsCollide(start: Md4State, stream: seq<Byte>, m1: ByteBlock, m2: ByteBlock)
    requires |stream| % 64 == 0
    requires ApplyBlock(Absorb(ApplyBlock, start, stream), m1) == ApplyBlock(Absorb(ApplyBlock, start, stream), m2)
    ensures Absorb(ApplyBlock, start, stream + m1) == Absorb(ApplyBlock, start, stream + m2)
  {
    var k := WholeBlocks(stream);
    AbsorbSnoc(ApplyBlock, start, stream, k, m1);
    AbsorbSnoc(ApplyBlock, start, stream, k, m2);
  }

  /** The number of whole blocks in a stream of whole blocks. */
  lemma WholeBlocks(data: seq<Byte>) returns (k: nat)
    requires |data| % 64 == 0
    ensures |data| == 64 * k
  {
    k := |data| / 64;
  }

  /** The chaining-state form of the collision the library's tests look
      for: take in `prefix` and build. The finder starts from the state of
      absorbing the prefix and its zero padding from the RFC 1320 initial
      state, and the prefix, the padding and either block of the pair end
      in the same state. The tests compare full digests; those are equal
      because MD4's finalisation depends only on this state and the message
      length, which the two messages share, and finalisation is not part
      of this model. */
  method CollideAfter(prefix: seq<Byte>, draws: seq<WordBlock>) returns (st: Md4State, pad: seq<Byte>, r: Option<(ByteBlock, ByteBlock)>)
    ensures pad == PaddingFor(|prefix|) && |prefix + pad| % 64 == 0
    ensures st == Absorb(ApplyBlock, New(), prefix + pad)
    ensures FindsFirst(st, draws, r)
    ensures r.Some? ==> r.value.0 != r.value.1 && ApplyBlock(st, r.value.0) == ApplyBlock(st, r.value.1)
    ensures r.Some? ==>
      Absorb(ApplyBlock, New(), prefix + pad + r.value.0) == Absorb(ApplyBlock, New(), prefix + pad + r.value.1)
  {
    var b := NewBuilder();
    var b1 := Input(b, prefix);
    InputKeepsStream(b, b1, New(), [], prefix);
    assert [] + prefix == prefix;
    PaddingCompletesStream(b1, New(), prefix);
    PaddingFollowsRule(b1, prefix);
    var b2;
    b2, pad, r := Build(b1, draws);
    st := b2.state;
    if r.Some? {
      CompletedStreamsCollide(New(), prefix + pad, r.value.0, r.value.1);
    }
  }

  /** The library's test without a prefix: nothing is padded and the
      finder starts from the RFC 1320 initial state itself. */
  lemma EmptyPrefixStartsFromNew()
    ensures PaddingFor(0) == []
    ensures Absorb(ApplyBlock, New(), [] + PaddingFor(0)) == New()
  {
    assert [] + PaddingFor(0) == [];
    AbsorbNothing(ApplyBlock, New());
  }
}
