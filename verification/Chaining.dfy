/** Chaining and length padding together add no way of confusing two messages:
    messages with one digest meet in a compression of one of their own blocks. */
module Chaining {
  import opened Word32
  import opened LittleEndian
  import opened Rfc1321
  import opened Blocks
  import opened Padding

  lemma OutputInjective(s: State, t: State)
    requires Output(s) == Output(t)
    ensures s == t
  {
    hide Words, Bytes;
    WordsOfBytes([s.a, s.b, s.c, s.d]);
    WordsOfBytes([t.a, t.b, t.c, t.d]);
    assert [s.a, s.b, s.c, s.d] == [t.a, t.b, t.c, t.d];
  }

  lemma LastBlocksDiffer(m: seq<u8>, k: seq<u8>)
    requires |m| != |k| && |m| < 0x2000_0000_0000_0000 && |k| < 0x2000_0000_0000_0000
    requires |Pad(m)| >= 64 && |Pad(k)| >= 64
    ensures Last(Pad(m), 64) != Last(Pad(k), 64)
  {
    hide *;
    LengthFieldExact(m);
    LengthFieldExact(k);
    LastEight(Pad(m));
    LastEight(Pad(k));
  }

  lemma LastEight(p: seq<u8>)
    requires |p| >= 64
    ensures LengthField(p) == LengthField(Last(p, 64))
  {
    hide Words;
    assert Last(p, 64)[56..] == p[|p| - 8..];
  }

  /** The number of blocks before the last one of a padded message. */
  function LastBlock(m: seq<u8>): nat { (|m| + 8) / 64 }

  lemma LastBlockOf(m: seq<u8>)
    ensures |Pad(m)| == 64 * LastBlock(m) + 64
    ensures Last(Pad(m), 64) == Pad(m)[64 * LastBlock(m)..64 * LastBlock(m) + 64]
  {
    hide Pad;
    BlockCount(m);
  }

  lemma DifferentLengths(m: seq<u8>, k: seq<u8>)
    requires |m| != |k| && |m| < 0x2000_0000_0000_0000 && |k| < 0x2000_0000_0000_0000
    requires Fold(Compress, INITIAL, Pad(m)) == Fold(Compress, INITIAL, Pad(k))
    ensures CollideAt(Compress, INITIAL, Pad(m), LastBlock(m), Pad(k), LastBlock(k))
  {
    hide Pad, Fold, Compress, Last, LastBlock;
    LastBlockOf(m);
    LastBlockOf(k);
    LastBlocksDiffer(m, k);
    FoldWhole(Compress, INITIAL, Pad(m), LastBlock(m) + 1);
    FoldWhole(Compress, INITIAL, Pad(k), LastBlock(k) + 1);
  }

  lemma EqualLengths(m: seq<u8>, k: seq<u8>)
    requires |m| == |k| && m != k && Fold(Compress, INITIAL, Pad(m)) == Fold(Compress, INITIAL, Pad(k))
    ensures exists i: nat :: CollideAt(Compress, INITIAL, Pad(m), i, Pad(k), i)
  {
    hide Pad, Fold, Compress, CollideAt, CompressedBlocks;
    var n := LastBlock(m) + 1;
    LastBlockOf(m);
    LastBlockOf(k);
    FoldWhole(Compress, INITIAL, Pad(m), LastBlock(m) + 1);
    FoldWhole(Compress, INITIAL, Pad(k), LastBlock(k) + 1);
    PadInjective(m, k);
    assert Pad(m)[..64 * n] == Pad(m) && Pad(k)[..64 * n] == Pad(k);
    PrefixesCollide(Compress, INITIAL, Pad(m), Pad(k), n);
  }

  /** Two messages within the length field share a digest only if they are the
      same, or compressing some block i of one and some block j of the other, in
      the states their own digests reach there, is two calls with one result. */
  lemma DigestsMeetInCompression(m: seq<u8>, k: seq<u8>)
    requires |m| < 0x2000_0000_0000_0000 && |k| < 0x2000_0000_0000_0000
    requires Rfc1321.Digest(m) == Rfc1321.Digest(k)
    ensures m == k || exists i: nat, j: nat :: CollideAt(Compress, INITIAL, Pad(m), i, Pad(k), j)
  {
    hide Pad, Fold, Compress, Output, CollideAt, LastBlock;
    OutputInjective(Fold(Compress, INITIAL, Pad(m)), Fold(Compress, INITIAL, Pad(k)));
    if |m| != |k| {
      DifferentLengths(m, k);
    } else if m != k {
      EqualLengths(m, k);
    }
  }
}
