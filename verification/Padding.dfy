/** The padding of sections 3.1 and 3.2 of RFC 1321: least, undoable, and what
    the three updates at the end of md5.c feed to a context. */
module Padding {
  import opened Word32
  import opened LittleEndian
  import opened Rfc1321
  import opened Blocks
  import opened Streaming

  /* The padding is the shortest that leaves room for the length */

  /** Leaves eight bytes of the last block free. */
  ghost predicate Fits(n: nat, p: nat) { (n + p) % 64 == 56 }

  lemma PadLengthIsLeast(n: nat)
    ensures Fits(n, PadLength(n))
    ensures forall p :: 1 <= p < PadLength(n) ==> !Fits(n, p)
  {
    var r := n % 64;
    assert PadLength(n) == if r < 56 then 56 - r else 120 - r;
    forall p | 1 <= p < PadLength(n)
      ensures !Fits(n, p)
    {
      assert (n + p) % 64 == (r + p) % 64;
    }
  }

  lemma PaddedSize(m: seq<u8>)
    ensures |Pad(m)| == |m| + PadLength(|m|) + 8
  {
  }

  lemma BlockCount(m: seq<u8>)
    ensures |Pad(m)| % 64 == 0 && |Pad(m)| / 64 == (|m| + 8) / 64 + 1
  {
    hide Pad;
    PaddedSize(m);
    PadLengthIsLeast(|m|);
  }

  /* What the padding is, byte by byte */

  /** Byte j of a number, the least significant first. */
  function ByteAt(x: nat, j: nat): u8 { x / Pow2(8 * j) % 0x100 }

  lemma ByteOfMod(x: nat, n: nat, j: nat)
    requires j < n
    ensures ByteAt(x % Pow2(8 * n), j) == ByteAt(x, j)
  {
    hide Pow2;
    var p, q := Pow2(8 * j), Pow2(8 * (n - j - 1));
    Pow2Add(8 * (n - j - 1), 8);
    Pow2Add(8 * (n - j - 1) + 8, 8 * j);
    Pow2Values();
    QuotientOfMod(x, q * 0x100, p);
    ModOfMod(x / p, q, 0x100);
  }

  lemma QuotientOfMod(x: nat, q: nat, p: nat)
    requires p > 0 && q > 0
    ensures q * p > 0 && x % (q * p) / p == x / p % q
  {
    ModOfProduct(x, q, p);
    DivModUnique(x % (q * p), p, x / p % q, x % p);
  }

  lemma ModOfMod(x: nat, q: nat, p: nat)
    requires p > 0 && q > 0
    ensures q * p > 0 && x % (q * p) % p == x % p
  {
    ModOfProduct(x, q, p);
    DivModUnique(x % (q * p), p, x / p % q, x % p);
  }

  lemma ByteOfHighWord(x: nat, j: nat)
    ensures ByteAt(x / 0x1_0000_0000, j) == ByteAt(x, 4 + j)
  {
    hide Pow2;
    Pow2Add(8 * j, 32);
    Pow2Values();
    ModOfProduct(x, Pow2(8 * j), 0x1_0000_0000);
  }

  lemma WordByteAt(w: u32, j: nat)
    requires j < 4
    ensures WordBytes(w)[j] == ByteAt(w, j)
  {
    Pow2Values();
    SmallMod(w / 0x100_0000, 0x100);
  }

  lemma CountByteAt(count: u64, j: nat)
    requires j < 8
    ensures CountBytes(count)[j] == ByteAt(count, j)
  {
    hide ByteAt, WordBytes, Bytes, Pow2;
    var low, high := count % 0x1_0000_0000, count / 0x1_0000_0000;
    TwoWords(low, high);
    Pow2Values();
    if j < 4 {
      WordByteAt(low, j);
      ByteOfMod(count, 4, j);
    } else {
      WordByteAt(high, j - 4);
      ByteOfHighWord(count, j - 4);
    }
  }

  lemma TwoWords(low: u32, high: u32)
    ensures Bytes([low, high]) == WordBytes(low) + WordBytes(high)
  {
    hide Bytes, WordBytes;
    BytesSnoc([], low);
    BytesSnoc([low], high);
    assert [] + [low] == [low] && [low] + [high] == [low, high];
    assert Bytes([]) == [];
  }

  /** The message, the byte 0x80, zeros, and the length in bits. */
  lemma PadBytes(m: seq<u8>, i: nat)
    requires i < |Pad(m)|
    ensures Pad(m)[i] ==
      if i < |m| then m[i]
      else if i == |m| then 0x80
      else if i < |Pad(m)| - 8 then 0
      else 8 * |m| / Pow2(8 * (i - (|Pad(m)| - 8))) % 0x100
  {
    hide Pow2, CountBytes, PadLength;
    var j := i - (|Pad(m)| - 8);
    if j >= 0 {
      assert Pad(m)[i] == CountBytes(BitLength(|m|))[j];
      hide Pad;
      LengthByteAt(|m|, j);
    }
  }

  lemma LengthByteAt(n: nat, j: nat)
    requires j < 8
    ensures CountBytes(BitLength(n))[j] == 8 * n / Pow2(8 * j) % 0x100
  {
    hide Pow2, CountBytes;
    CountByteAt(BitLength(n), j);
    ByteOfMod(8 * n, 8, j);
    Pow2Add(32, 32);
    Pow2Values();
  }

  /* The padding can be undone */

  function StripZeros(s: seq<u8>): seq<u8> {
    if s != [] && s[|s| - 1] == 0 then StripZeros(s[..|s| - 1]) else s
  }

  /** Takes off the length, the zeros and the byte 0x80. */
  function Unpad(p: seq<u8>): seq<u8> {
    if |p| < 8 then [] else
      var q := StripZeros(p[..|p| - 8]);
      if q == [] then [] else q[..|q| - 1]
  }

  lemma {:induction false} StripsZeros(s: seq<u8>, n: nat)
    requires s != [] && s[|s| - 1] != 0
    ensures StripZeros(s + Zeros(n)) == s
  {
    if n == 0 {
      assert s + Zeros(0) == s;
    } else {
      assert (s + Zeros(n))[..|s| + n - 1] == s + Zeros(n - 1);
      StripsZeros(s, n - 1);
    }
  }

  lemma UnpadInverse(m: seq<u8>)
    ensures Unpad(Pad(m)) == m
  {
    hide CountBytes, PadLength;
    var n := PadLength(|m|) - 1;
    assert Pad(m)[..|Pad(m)| - 8] == m + [0x80] + Zeros(n);
    StripsZeros(m + [0x80], n);
  }

  lemma PadInjective(m: seq<u8>, k: seq<u8>)
    ensures Pad(m) == Pad(k) <==> m == k
  {
    hide Pad, Unpad;
    UnpadInverse(m);
    UnpadInverse(k);
  }

  /* The length field */

  /** The last eight bytes as a little-endian number. */
  function LengthField(p: seq<u8>): u64
    requires |p| >= 8
  {
    var ws := Words(p[|p| - 8..]);
    Word64(ws[0], ws[1])
  }

  /** The field holds the bit length modulo 2^64, and so gives away the length
      of exactly the messages under 2^61 bytes. */
  lemma LengthFieldExact(m: seq<u8>)
    ensures LengthField(Pad(m)) == BitLength(|m|)
    ensures LengthField(Pad(m)) / 8 == |m| <==> |m| < 0x2000_0000_0000_0000
  {
    hide Bytes, Words;
    var n := BitLength(|m|);
    var ws := [n % 0x1_0000_0000, n / 0x1_0000_0000];
    assert Pad(m)[|Pad(m)| - 8..] == Bytes(ws);
    WordsOfBytes(ws);
  }

  /* What the end of a digest feeds to a context */

  function PaddingBytes(): (p: seq<u8>)
    ensures |p| == 64
  {
    [0x80] + Zeros(63)
  }

  /** The two-branch padding length of MD5Final. */
  function PadLen(index: nat): nat
    requires index < 64
  {
    if index < 56 then 56 - index else 120 - index
  }

  lemma PadLenExact(n: nat)
    ensures PadLen(n % 64) == PadLength(n)
  {
  }

  /** The context after the padding and length updates of MD5Final. */
  function Finished(c: Context<State>): Context<State> {
    PadLenExact(Index(c));
    Absorb(Compress, Absorb(Compress, c, PaddingBytes()[..PadLen(Index(c))]), CountBytes(c.count))
  }

  /** Those updates amount to one with the rest of the padded message, so that
      no byte is left over. */
  lemma FinishedRepresents(c: Context<State>, m: seq<u8>)
    requires Represents(Compress, INITIAL, c, m)
    ensures Represents(Compress, INITIAL, Finished(c), Pad(m)) && Live(Finished(c)) == []
    ensures Output(Finished(c).state) == Digest(m)
  {
    hide Absorb, Fold, Bytes;
    var p := PaddingBytes()[..PadLen(Index(c))];
    PadLenExact(|m|);
    IndexRepresents(c, m);
    assert p == [0x80] + Zeros(PadLength(|m|) - 1);
    AbsorbRepresents(Compress, INITIAL, c, m, p);
    AbsorbRepresents(Compress, INITIAL, Absorb(Compress, c, p), m + p, CountBytes(BitLength(|m|)));
    BlockCount(m);
  }

  lemma IndexRepresents(c: Context<State>, m: seq<u8>)
    requires Represents(Compress, INITIAL, c, m)
    ensures Index(c) == |m| % 64
  {
    assert |Live(c)| == |Tail(m)|;
  }

  /** A digest compresses the (|m| + 8) / 64 + 1 blocks of the padded message in turn. */
  lemma DigestIsLoop(m: seq<u8>)
    ensures var n := (|m| + 8) / 64 + 1;
      |Pad(m)| == 64 * n && Digest(m) == Output(CompressedBlocks(Compress, INITIAL, Pad(m), n))
  {
    hide Pad, Fold, CompressedBlocks, Compress, Output;
    BlockCount(m);
    FoldWhole(Compress, INITIAL, Pad(m), (|m| + 8) / 64 + 1);
  }

  /** Any cutting up of a message, over any old buffer, gives its digest. */
  lemma StreamedDigest(buffer: Block, chunks: seq<seq<u8>>)
    ensures Output(Finished(Run(Compress, Initial(INITIAL, buffer), chunks)).state) == Digest(Concat(chunks))
  {
    hide *;
    StreamingInvariant(Compress, INITIAL, buffer, chunks);
    FinishedRepresents(Run(Compress, Initial(INITIAL, buffer), chunks), Concat(chunks));
  }

  lemma StaleBytesFinished(c: Context<State>, d: Context<State>)
    requires Agree(c, d)
    ensures Agree(Finished(c), Finished(d))
  {
    hide Absorb;
    assert Index(c) == Index(d);
    var p := PaddingBytes()[..PadLen(Index(c))];
    StaleBytesIgnored(Compress, c, d, p);
    StaleBytesIgnored(Compress, Absorb(Compress, c, p), Absorb(Compress, d, p), CountBytes(c.count));
  }

  /** Old buffer bytes reach no digest, however many updates come in between. */
  lemma StaleBytesDigest(c: Context<State>, d: Context<State>, chunks: seq<seq<u8>>)
    requires Agree(c, d)
    ensures Finished(Run(Compress, c, chunks)).state == Finished(Run(Compress, d, chunks)).state
  {
    hide Finished, Run;
    RunsAgree(Compress, c, d, chunks);
    StaleBytesFinished(Run(Compress, c, chunks), Run(Compress, d, chunks));
  }
}
