/** The loops that unpack words into bytes and pack bytes into words
    (MD5Encode and MD5Decode). A C pointer into a byte array is an array and
    an offset. */
module Codec {
  import opened Word32
  import opened LittleEndian

  /** What storing a word in a byte keeps of it. */
  function Byte(w: u32): u8 { w % 0x100 }

  lemma MaskedByte(w: u32)
    ensures Byte(And(w, 0xFF)) == w % 0x100
  {
    hide And;
    ByteMask(w);
  }

  lemma ExtractedBytes(w: u32)
    ensures [Byte(And(w, 0xFF)), Byte(And(Shr(w, 8), 0xFF)), Byte(And(Shr(w, 16), 0xFF)), Byte(And(Shr(w, 24), 0xFF))]
      == WordBytes(w)
  {
    hide And, Byte, Shr;
    ShrValues(w);
    MaskedByte(w);
    MaskedByte(Shr(w, 8));
    MaskedByte(Shr(w, 16));
    MaskedByte(Shr(w, 24));
  }

  lemma PackedWord(b: seq<u8>)
    requires |b| == 4
    ensures Or(Or(Or(b[0], Shl(b[1], 8)), Shl(b[2], 16)), Shl(b[3], 24)) == Word(b)
  {
    hide Or, Pow2, Shl;
    Pow2Values();
    ShlExact(b[1], 8);
    ShlExact(b[2], 16);
    ShlExact(b[3], 24);
    OrIsSum(Shl(b[1], 8), b[0], b[1], 8);
    OrIsSum(Shl(b[2], 16), Or(b[0], Shl(b[1], 8)), b[2], 16);
    OrIsSum(Shl(b[3], 24), Or(Or(b[0], Shl(b[1], 8)), Shl(b[2], 16)), b[3], 24);
  }

  /** The loops move whole words: a length is rounded up to a multiple of four. */
  function WordCount(len: nat): (n: nat)
    ensures 4 * n - 4 < len <= 4 * n
  {
    (len + 3) / 4
  }

  lemma NextWord(s: seq<u8>, at: nat, j: nat)
    requires at + j + 4 <= |s|
    ensures s[at..at + (j + 4)] == s[at..at + j] + s[at + j..at + j + 4]
    ensures s[at + j..at + j + 4] == [s[at + j], s[at + j + 1], s[at + j + 2], s[at + j + 3]]
  {
  }

  method Encode(output: array<u8>, at: nat, input: array<u32>, len: u32)
    requires len <= 0xFFFF_FFFC
    requires at + 4 * WordCount(len) <= output.Length && WordCount(len) <= input.Length
    modifies output
    ensures output[..]
      == old(output[..at]) + Bytes(input[..WordCount(len)]) + old(output[at + 4 * WordCount(len)..])
  {
    hide *;
    var i: u32, j: u32 := 0, 0;
    ghost var n := WordCount(len);
    while j < len
      invariant j == 4 * i <= 4 * n
      invariant output[..at] == old(output[..at])
      invariant output[at..at + j] == Bytes(input[..i])
      invariant output[at + 4 * n..] == old(output[at + 4 * n..])
    {
      ghost var done := output[at..at + j];
      output[at + j] := Byte(And(input[i], 0xFF));
      output[at + j + 1] := Byte(And(Shr(input[i], 8), 0xFF));
      output[at + j + 2] := Byte(And(Shr(input[i], 16), 0xFF));
      output[at + j + 3] := Byte(And(Shr(input[i], 24), 0xFF));
      ExtractedBytes(input[i]);
      BytesSnoc(input[..i], input[i]);
      NextWord(output[..], at, j);
      assert output[at..at + j] == done;
      assert input[..i + 1] == input[..i] + [input[i]];
      i := i + 1;
      j := j + 4;
    }
    assert input[..i] == input[..n];
    assert output[..] == output[..at] + output[at..at + j] + output[at + j..];
  }

  method Decode(output: array<u32>, input: array<u8>, offset: nat, len: u32)
    requires len <= 0xFFFF_FFFC
    requires WordCount(len) <= output.Length && offset + 4 * WordCount(len) <= input.Length
    modifies output
    ensures output[..] == Words(input[offset..offset + 4 * WordCount(len)]) + old(output[WordCount(len)..])
  {
    hide *;
    var i: u32, j: u32 := 0, 0;
    ghost var n := WordCount(len);
    while j < len
      invariant j == 4 * i <= 4 * n
      invariant output[..i] == Words(input[offset..offset + j])
      invariant output[n..] == old(output[n..])
    {
      ghost var b := input[offset + j..offset + j + 4];
      PackedWord(b);
      NextWord(input[..], offset, j);
      WordsSnoc(input[offset..offset + j], b);
      output[i] := Or(Or(Or(input[offset + j], Shl(input[offset + j + 1], 8)), Shl(input[offset + j + 2], 16)),
        Shl(input[offset + j + 3], 24));
      assert output[..i + 1] == output[..i] + [Word(b)];
      i := i + 1;
      j := j + 4;
    }
  }
}
