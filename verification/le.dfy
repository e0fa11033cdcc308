/** Little-endian conversion between bytes and 32-bit words, as the
    `byteorder` crate's `LE::read_u32_into` and `LE::write_u32_into` do it. */
module LittleEndian {
  import opened Ops

  type Byte = bv8

  /** The word whose bytes, least significant first, are b0, b1, b2, b3. */
  function WordOf(b0: Byte, b1: Byte, b2: Byte, b3: Byte): Word {
    (b0 as Word) | ((b1 as Word) << 8) | ((b2 as Word) << 16) | ((b3 as Word) << 24)
  }

  /** The four bytes of `w`, least significant first. */
  function BytesOf(w: Word): seq<Byte> {
    [(w & 0xFF) as Byte, ((w >> 8) & 0xFF) as Byte, ((w >> 16) & 0xFF) as Byte, ((w >> 24) & 0xFF) as Byte]
  }

  lemma WordOfBytesOf(w: Word)
    ensures WordOf(BytesOf(w)[0], BytesOf(w)[1], BytesOf(w)[2], BytesOf(w)[3]) == w
  {
  }

  lemma BytesOfWordOf(b0: Byte, b1: Byte, b2: Byte, b3: Byte)
    ensures BytesOf(WordOf(b0, b1, b2, b3)) == [b0, b1, b2, b3]
  {
  }

  /** Reads consecutive little-endian words from a byte string whose
      length is a multiple of four. */
  function DecodeWords(b: seq<Byte>): (w: seq<Word>)
    requires |b| % 4 == 0
    ensures |w| == |b| / 4
  {
    if |b| == 0 then [] else [WordOf(b[0], b[1], b[2], b[3])] + DecodeWords(b[4..])
  }

  /** Writes words as consecutive little-endian byte quadruples. */
  function EncodeWords(w: seq<Word>): (b: seq<Byte>)
    ensures |b| == 4 * |w|
  {
    if |w| == 0 then [] else BytesOf(w[0]) + EncodeWords(w[1..])
  }

  /** Word k of a decoding is read from bytes 4k .. 4k+3. */
  lemma {:induction false} DecodedWord(b: seq<Byte>, k: nat)
    requires |b| % 4 == 0 && k < |b| / 4
    ensures DecodeWords(b)[k] == WordOf(b[4 * k], b[4 * k + 1], b[4 * k + 2], b[4 * k + 3])
  {
    if k > 0 {
      DecodedWord(b[4..], k - 1);
    }
  }

  /** Bytes 4k .. 4k+3 of an encoding are the bytes of word k. */
  lemma {:induction false} EncodedWord(w: seq<Word>, k: nat)
    requires k < |w|
    ensures EncodeWords(w)[4 * k .. 4 * k + 4] == BytesOf(w[k])
  {
    if k > 0 {
      EncodedWord(w[1..], k - 1);
      assert EncodeWords(w)[4..] == EncodeWords(w[1..]);
    }
  }

  /** Reading back what was written gives the same words. */
  lemma {:induction false} DecodeEncode(w: seq<Word>)
    ensures DecodeWords(EncodeWords(w)) == w
  {
    if |w| > 0 {
      var b := EncodeWords(w);
      var bs := BytesOf(w[0]);
      assert b[..4] == bs && b[4..] == EncodeWords(w[1..]);
      assert b[0] == bs[0] && b[1] == bs[1] && b[2] == bs[2] && b[3] == bs[3];
      WordOfBytesOf(w[0]);
      DecodeEncode(w[1..]);
    }
  }

  /** Writing what was read gives the same bytes. */
  lemma {:induction false} EncodeDecode(b: seq<Byte>)
    requires |b| % 4 == 0
    ensures EncodeWords(DecodeWords(b)) == b
  {
    if |b| > 0 {
      BytesOfWordOf(b[0], b[1], b[2], b[3]);
      EncodeDecode(b[4..]);
      assert b == b[..4] + b[4..];
    }
  }
}
