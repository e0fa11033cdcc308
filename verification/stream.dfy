/** A byte stream cut into 64-byte blocks, and the block buffer that feeds
    such a stream to a per-block callback as the bytes arrive in pieces.
    The callback is a parameter, as it is in the buffer's `input`, so that
    nothing here depends on what the callback computes. */
module BlockStream {
  import opened LittleEndian
  import opened State

  // Byte streams and their blocks. The lemmas of this part are about
  // lengths and slices only.

  /** The whole 64-byte blocks at the front of a byte stream, in order; a
      last partial block is not among them. */
  function Blocks(data: seq<Byte>): (bs: seq<ByteBlock>)
    ensures |bs| == |data| / 64
    decreases |data|
  {
    if |data| < 64 then [] else [data[..64]] + Blocks(data[64..])
  }

  /** Blocks laid end to end as one byte stream. */
  function Flatten(bs: seq<ByteBlock>): (data: seq<Byte>)
    ensures |data| == 64 * |bs|
  {
    if |bs| == 0 then [] else bs[0] + Flatten(bs[1..])
  }

  /** The bytes after the last whole block of a stream: what the block
      buffer holds once the stream has gone through it. */
  function PendingOf(data: seq<Byte>): (p: seq<Byte>)
    ensures |p| == |data| % 64 && p == data[|data| - |p|..]
  {
    data[|data| - |data| % 64..]
  }

  /** Cutting a stream of whole blocks into blocks and laying them end to
      end gives the stream back. */
  lemma {:induction false} FlattenBlocks(data: seq<Byte>, k: nat)
    requires |data| == 64 * k
    ensures Flatten(Blocks(data)) == data
  {
    if k > 0 {
      FlattenBlocks(data[64..], k - 1);
      assert Blocks(data)[1..] == Blocks(data[64..]);
    }
  }

  /** Laying blocks end to end and cutting the stream again gives the same blocks. */
  lemma {:induction false} BlocksFlatten(bs: seq<ByteBlock>)
    ensures Blocks(Flatten(bs)) == bs
  {
    if |bs| > 0 {
      var data := Flatten(bs);
      assert data[..64] == bs[0] && data[64..] == Flatten(bs[1..]);
      BlocksFlatten(bs[1..]);
      assert bs == [bs[0]] + bs[1..];
    }
  }

  /** The blocks of a concatenation whose first part is whole blocks are
      the blocks of each part. */
  lemma {:induction false} BlocksAppend(x: seq<Byte>, y: seq<Byte>, k: nat)
    requires |x| == 64 * k
    ensures Blocks(x + y) == Blocks(x) + Blocks(y)
  {
    if k > 0 {
      assert (x + y)[..64] == x[..64];
      assert (x + y)[64..] == x[64..] + y;
      BlocksAppend(x[64..], y, k - 1);
    } else {
      assert x + y == y;
    }
  }

  /** A stream shorter than a block has no whole block. */
  lemma BlocksOfShort(p: seq<Byte>)
    requires |p| < 64
    ensures Blocks(p) == []
  {
  }

  /** A single block is its own only block. */
  lemma BlocksOfBlock(block: ByteBlock)
    ensures Blocks(block) == [block]
  {
    assert block[..64] == block && |block[64..]| == 0;
  }

  /** A stream is its whole blocks followed by its pending tail. */
  lemma SplitAtPending(data: seq<Byte>)
    ensures var whole := data[..|data| - |PendingOf(data)|];
      data == whole + PendingOf(data) && |whole| == 64 * (|data| / 64)
  {
  }

  /** Whole blocks in front do not change the pending tail. */
  lemma PendingAfterWhole(whole: seq<Byte>, rest: seq<Byte>, k: nat)
    requires |whole| == 64 * k
    ensures PendingOf(whole + rest) == PendingOf(rest)
  {
    assert (whole + rest)[|whole + rest| - |rest| % 64..] == rest[|rest| - |rest| % 64..];
  }

  /** A stream that is whole blocks and then fewer than 64 bytes has those
      bytes as its pending tail. */
  lemma PendingOfSplit(data: seq<Byte>, k: nat, p: seq<Byte>)
    requires |data| == 64 * k + |p| && |p| < 64 && p == data[64 * k..]
    ensures PendingOf(data) == p
  {
  }

  // Running a per-block callback over a stream.

  /** Feeds blocks, in order, through `step`. */
  function Fold<S>(step: (S, ByteBlock) -> S, st: S, bs: seq<ByteBlock>): S
    decreases |bs|
  {
    if |bs| == 0 then st else Fold(step, step(st, bs[0]), bs[1..])
  }

  /** Feeding two runs of blocks one after the other is feeding both. */
  lemma {:induction false} FoldAppend<S>(step: (S, ByteBlock) -> S, st: S, x: seq<ByteBlock>, y: seq<ByteBlock>)
    ensures Fold(step, st, x + y) == Fold(step, Fold(step, st, x), y)
    decreases |x|
  {
    if |x| > 0 {
      assert (x + y)[0] == x[0];
      assert (x + y)[1..] == x[1..] + y;
      FoldAppend(step, step(st, x[0]), x[1..], y);
    } else {
      assert x + y == y;
    }
  }

  /** Feeding every whole block of a byte stream. */
  function Absorb<S>(step: (S, ByteBlock) -> S, st: S, data: seq<Byte>): S {
    Fold(step, st, Blocks(data))
  }

  /** Absorbing nothing leaves the state as it is. */
  lemma AbsorbNothing<S>(step: (S, ByteBlock) -> S, st: S)
    ensures Absorb(step, st, []) == st
  {
    assert Blocks([]) == [];
  }

  /** Absorbing a stream of whole blocks and then another stream is
      absorbing their concatenation. */
  lemma AbsorbAppend<S>(step: (S, ByteBlock) -> S, st: S, x: seq<Byte>, y: seq<Byte>, k: nat)
    requires |x| == 64 * k
    ensures Absorb(step, st, x + y) == Absorb(step, Absorb(step, st, x), y)
  {
    BlocksAppend(x, y, k);
    FoldAppend(step, st, Blocks(x), Blocks(y));
  }

  /** One more block after a stream of whole blocks is one more step. */
  lemma AbsorbSnoc<S>(step: (S, ByteBlock) -> S, st: S, x: seq<Byte>, k: nat, block: ByteBlock)
    requires |x| == 64 * k
    ensures Absorb(step, st, x + block) == step(Absorb(step, st, x), block)
  {
    AbsorbAppend(step, st, x, block, k);
    BlocksOfBlock(block);
    var s := Absorb(step, st, x);
    assert Fold(step, s, [block]) == Fold(step, step(s, block), []);
  }

  /** A partial block at the end is not absorbed. */
  lemma AbsorbIgnoresTail<S>(step: (S, ByteBlock) -> S, st: S, x: seq<Byte>, k: nat, p: seq<Byte>)
    requires |x| == 64 * k && |p| < 64
    ensures Absorb(step, st, x + p) == Absorb(step, st, x)
  {
    BlocksAppend(x, p, k);
    BlocksOfShort(p);
    assert Blocks(x) + [] == Blocks(x);
  }

  // The block buffer.

  /** The block buffer's `input`: first complete a partly filled buffer if
      the input reaches the end of the block, then pass whole blocks
      straight from the input to `step`, and keep what is left as the new
      buffer contents. Whatever pieces the bytes arrive in, `step` sees
      every whole block of the stream once, in order. */
  method FeedBuffer<S>(step: (S, ByteBlock) -> S, st: S, pending: seq<Byte>, input: seq<Byte>)
    returns (st': S, pending': seq<Byte>)
    requires |pending| < 64
    ensures st' == Absorb(step, st, pending + input)
    ensures pending' == PendingOf(pending + input)
  {
    ghost var all := pending + input;
    st', pending' := st, pending;
    var rest := input;
    ghost var n := 0;
    AbsorbNothing(step, st);
    if |pending'| != 0 && |rest| >= 64 - |pending'| {
      var k := 64 - |pending'|;
      FirstBlockOfStream(step, st, pending, input, k);
      st' := step(st', pending' + rest[..k]);
      rest := rest[k..];
      pending' := [];
      n := 1;
    }
    while |rest| >= 64
      invariant |pending'| < 64 && (|pending'| == 0 || |pending'| + |rest| < 64)
      invariant |all| == 64 * n + |pending'| + |rest|
      invariant pending' + rest == all[64 * n..]
      invariant st' == Absorb(step, st, all[..64 * n])
      decreases |rest|
    {
      NextBlockOfStream(step, st, all, rest, n);
      st' := step(st', rest[..64]);
      rest := rest[64..];
      n := n + 1;
    }
    pending' := pending' + rest;
    EndOfStream(step, st, all, n, pending');
  }

  /** Completing the partly filled buffer feeds the stream's first block. */
  lemma FirstBlockOfStream<S>(step: (S, ByteBlock) -> S, st: S, pending: seq<Byte>, input: seq<Byte>, k: nat)
    requires |pending| + k == 64 && k <= |input|
    ensures var all := pending + input;
      step(st, pending + input[..k]) == Absorb(step, st, all[..64]) &&
      [] + input[k..] == all[64..]
  {
    var all := pending + input;
    assert all[..64] == [] + (pending + input[..k]);
    AbsorbSnoc(step, st, [], 0, pending + input[..k]);
    AbsorbNothing(step, st);
  }

  /** Feeding a whole block from the front of what is left extends the
      absorbed part of the stream by that block. */
  lemma NextBlockOfStream<S>(step: (S, ByteBlock) -> S, st: S, all: seq<Byte>, rest: seq<Byte>, n: nat)
    requires 64 <= |rest| && |all| == 64 * n + |rest| && rest == all[64 * n..]
    ensures Absorb(step, st, all[..64 * (n + 1)]) == step(Absorb(step, st, all[..64 * n]), rest[..64])
    ensures rest[64..] == all[64 * (n + 1)..]
  {
    assert all[..64 * (n + 1)] == all[..64 * n] + rest[..64];
    AbsorbSnoc(step, st, all[..64 * n], n, rest[..64]);
  }

  /** Once fewer than 64 bytes are left, they are the stream's pending
      tail, and the absorbed part is everything the stream has to absorb. */
  lemma EndOfStream<S>(step: (S, ByteBlock) -> S, st: S, all: seq<Byte>, n: nat, p: seq<Byte>)
    requires |all| == 64 * n + |p| && |p| < 64 && p == all[64 * n..]
    ensures Absorb(step, st, all[..64 * n]) == Absorb(step, st, all)
    ensures p == PendingOf(all)
  {
    PendingOfSplit(all, n, p);
    assert all == all[..64 * n] + p;
    AbsorbIgnoresTail(step, st, all[..64 * n], n, p);
  }

  /** If `st` and `pending` stand for the stream `taken` fed from `start`,
      feeding `input` through the buffer leaves them standing for
      `taken + input`: the pieces the bytes came in do not matter. */
  lemma FeedKeepsStream<S>(step: (S, ByteBlock) -> S, start: S, taken: seq<Byte>, pending: seq<Byte>, input: seq<Byte>)
    requires pending == PendingOf(taken)
    ensures Absorb(step, Absorb(step, start, taken), pending + input) == Absorb(step, start, taken + input)
    ensures PendingOf(pending + input) == PendingOf(taken + input)
  {
    SplitAtPending(taken);
    var k := |taken| / 64;
    var whole := taken[..|taken| - |pending|];
    assert taken + input == whole + (pending + input);
    AbsorbIgnoresTail(step, start, whole, k, pending);
    AbsorbAppend(step, start, whole, pending + input, k);
    PendingAfterWhole(whole, pending + input, k);
  }
}
