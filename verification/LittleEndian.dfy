/** Words as little-endian byte strings (section 2 of RFC 1321): the meaning
    of a string of bytes, independent of the loops that pack and unpack it. */
module LittleEndian {
  import opened Word32

  /** The word whose least significant byte comes first. */
  function Word(b: seq<u8>): u32
    requires |b| == 4
  {
    var b0: nat, b1: nat, b2: nat, b3: nat := b[0], b[1], b[2], b[3];
    b0 + 0x100 * b1 + 0x1_0000 * b2 + 0x100_0000 * b3
  }

  function WordBytes(w: u32): (b: seq<u8>)
    ensures |b| == 4
  {
    [w % 0x100, w / 0x100 % 0x100, w / 0x1_0000 % 0x100, w / 0x100_0000]
  }

  function Words(bytes: seq<u8>): (ws: seq<u32>)
    requires |bytes| % 4 == 0
    ensures |ws| == |bytes| / 4
  {
    if bytes == [] then []
    else Words(bytes[..|bytes| - 4]) + [Word(bytes[|bytes| - 4..])]
  }

  function Bytes(ws: seq<u32>): (bytes: seq<u8>)
    ensures |bytes| == 4 * |ws|
  {
    if ws == [] then []
    else Bytes(ws[..|ws| - 1]) + WordBytes(ws[|ws| - 1])
  }

  lemma BytesSnoc(ws: seq<u32>, w: u32)
    ensures Bytes(ws + [w]) == Bytes(ws) + WordBytes(w)
  {
    assert (ws + [w])[..|ws|] == ws;
  }

  lemma WordsSnoc(bytes: seq<u8>, b: seq<u8>)
    requires |bytes| % 4 == 0 && |b| == 4
    ensures Words(bytes + b) == Words(bytes) + [Word(b)]
  {
    assert (bytes + b)[..|bytes|] == bytes;
    assert (bytes + b)[|bytes|..] == b;
  }

  lemma WordOfBytes(w: u32)
    ensures Word(WordBytes(w)) == w
  {
    assert w / 0x1_0000 == w / 0x100 / 0x100;
    assert w / 0x100_0000 == w / 0x1_0000 / 0x100;
  }

  lemma BytesOfWord(b: seq<u8>)
    requires |b| == 4
    ensures WordBytes(Word(b)) == b
  {
    var b0: nat, b1: nat, b2: nat, b3: nat := b[0], b[1], b[2], b[3];
    DivModUnique(Word(b), 0x100, b1 + 0x100 * b2 + 0x1_0000 * b3, b0);
    DivModUnique(b1 + 0x100 * b2 + 0x1_0000 * b3, 0x100, b2 + 0x100 * b3, b1);
    DivModUnique(Word(b), 0x1_0000, b2 + 0x100 * b3, b0 + 0x100 * b1);
    DivModUnique(b2 + 0x100 * b3, 0x100, b3, b2);
    DivModUnique(Word(b), 0x100_0000, b3, b0 + 0x100 * b1 + 0x1_0000 * b2);
  }

  /** Packing undoes unpacking, and the other way round. */
  lemma {:induction false} WordsOfBytes(ws: seq<u32>)
    ensures Words(Bytes(ws)) == ws
  {
    if ws != [] {
      hide Word, WordBytes, Words, Bytes;
      var n := |ws| - 1;
      assert ws == ws[..n] + [ws[n]];
      BytesSnoc(ws[..n], ws[n]);
      WordsSnoc(Bytes(ws[..n]), WordBytes(ws[n]));
      WordsOfBytes(ws[..n]);
      WordOfBytes(ws[n]);
    }
  }

  lemma {:induction false} BytesOfWords(bytes: seq<u8>)
    requires |bytes| % 4 == 0
    ensures Bytes(Words(bytes)) == bytes
  {
    if bytes != [] {
      hide Word, WordBytes, Words, Bytes;
      var n := |bytes| - 4;
      assert bytes == bytes[..n] + bytes[n..];
      WordsSnoc(bytes[..n], bytes[n..]);
      BytesSnoc(Words(bytes[..n]), Word(bytes[n..]));
      BytesOfWords(bytes[..n]);
      BytesOfWord(bytes[n..]);
    }
  }
}
