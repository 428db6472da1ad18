/** Byte streams cut into 64-byte blocks, and any compression function f folded
    over the complete ones. */
module Blocks {
  import opened Word32

  function Zeros(n: nat): (z: seq<u8>)
    ensures |z| == n
  {
    seq(n, _ => 0)
  }

  type Block = s: seq<u8> | |s| == 64 witness Zeros(64)

  /** A length in bits, modulo 2^64. */
  function BitLength(n: nat): u64 { 8 * n % 0x1_0000_0000_0000_0000 }

  /** The state after the complete blocks of a byte string. */
  function Fold<S>(f: (S, Block) -> S, s: S, bytes: seq<u8>): S
    decreases |bytes|
  {
    if |bytes| < 64 then s else Fold(f, f(s, bytes[..64]), bytes[64..])
  }

  function Last(s: seq<u8>, n: nat): (t: seq<u8>)
    requires n <= |s|
    ensures |t| == n
  {
    s[|s| - n..]
  }

  /** The bytes after the last complete block. */
  function Tail(s: seq<u8>): (t: seq<u8>)
    ensures |t| == |s| % 64
  {
    Last(s, |s| % 64)
  }

  lemma SliceOfSlice(s: seq<u8>, offset: nat, n: nat, i: nat, k: nat)
    requires offset + n <= |s| && i + k <= n
    ensures s[offset..offset + n][i..i + k] == s[offset + i..offset + i + k]
  {
    var inner, outer := s[offset..offset + n][i..i + k], s[offset + i..offset + i + k];
    assert forall j :: 0 <= j < k ==> inner[j] == outer[j];
  }

  /* Folding over pieces of a stream */

  lemma TailDrop(a: seq<u8>)
    requires |a| >= 64
    ensures Tail(a[64..]) == Tail(a)
  {
  }

  lemma {:induction false} FoldPieces<S>(f: (S, Block) -> S, s: S, a: seq<u8>, b: seq<u8>)
    ensures Fold(f, s, a + b) == Fold(f, Fold(f, s, a), Tail(a) + b)
    decreases |a|
  {
    if |a| < 64 {
      assert Tail(a) == a;
    } else {
      assert (a + b)[..64] == a[..64] && (a + b)[64..] == a[64..] + b;
      TailDrop(a);
      hide Tail;
      FoldPieces(f, f(s, a[..64]), a[64..], b);
    }
  }

  lemma FoldOne<S>(f: (S, Block) -> S, s: S, block: seq<u8>)
    requires |block| == 64
    ensures Fold(f, s, block) == f(s, block)
  {
    assert block[..64] == block;
  }

  lemma FoldSnoc<S>(f: (S, Block) -> S, s: S, a: seq<u8>, block: seq<u8>)
    requires |a| % 64 == 0 && |block| == 64
    ensures Fold(f, s, a + block) == f(Fold(f, s, a), block)
  {
    hide Fold;
    FoldPieces(f, s, a, block);
    assert Tail(a) + block == block;
    FoldOne(f, Fold(f, s, a), block);
  }

  lemma FoldNext<S>(f: (S, Block) -> S, s: S, live: seq<u8>, data: seq<u8>, i: nat)
    requires (|live| + i) % 64 == 0 && i + 64 <= |data|
    ensures Fold(f, s, live + data[..i + 64]) == f(Fold(f, s, live + data[..i]), data[i..i + 64])
  {
    hide Fold;
    assert live + data[..i] + data[i..i + 64] == live + data[..i + 64];
    FoldSnoc(f, s, live + data[..i], data[i..i + 64]);
  }

  lemma FoldRest<S>(f: (S, Block) -> S, s: S, a: seq<u8>, rest: seq<u8>)
    requires |a| % 64 == 0 && |rest| < 64
    ensures Fold(f, s, a + rest) == Fold(f, s, a)
    ensures Tail(a + rest) == rest
  {
    hide Last;
    FoldPieces(f, s, a, rest);
    assert Tail(a) + rest == rest;
    TailRest(a, rest);
  }

  lemma TailRest(a: seq<u8>, rest: seq<u8>)
    requires |a| % 64 == 0 && |rest| < 64
    ensures Tail(a + rest) == rest
  {
    assert (|a| + |rest|) % 64 == |rest|;
  }

  /** The state after compressing the first n blocks, one slice after another. */
  function CompressedBlocks<S>(f: (S, Block) -> S, s: S, stream: seq<u8>, n: nat): S
    requires 64 * n <= |stream|
  {
    if n == 0 then s else f(CompressedBlocks(f, s, stream, n - 1), stream[64 * (n - 1)..64 * n])
  }

  /** A fold compresses every complete block once, in order, and nothing else. */
  lemma FoldIsLoop<S>(f: (S, Block) -> S, s: S, stream: seq<u8>)
    ensures Fold(f, s, stream) == CompressedBlocks(f, s, stream, |stream| / 64)
  {
    hide Fold, CompressedBlocks;
    var n := |stream| / 64;
    FoldIsLoopTo(f, s, stream, n);
    FoldRest(f, s, stream[..64 * n], stream[64 * n..]);
    assert stream[..64 * n] + stream[64 * n..] == stream;
  }

  lemma {:induction false} FoldIsLoopTo<S>(f: (S, Block) -> S, s: S, stream: seq<u8>, n: nat)
    requires 64 * n <= |stream|
    ensures Fold(f, s, stream[..64 * n]) == CompressedBlocks(f, s, stream, n)
  {
    if n > 0 {
      hide Fold;
      var k := 64 * (n - 1);
      FoldIsLoopTo(f, s, stream, n - 1);
      FoldSnoc(f, s, stream[..k], stream[k..k + 64]);
      assert stream[..k] + stream[k..k + 64] == stream[..64 * n];
    }
  }

  lemma FoldWhole<S>(f: (S, Block) -> S, s: S, stream: seq<u8>, n: nat)
    requires |stream| == 64 * n
    ensures Fold(f, s, stream) == CompressedBlocks(f, s, stream, n)
  {
    hide Fold, CompressedBlocks;
    FoldIsLoop(f, s, stream);
  }

  lemma TailPieces(a: seq<u8>, b: seq<u8>)
    ensures Tail(Tail(a) + b) == Tail(a + b)
  {
    hide Last;
    ModSum(|a|, |b|, 64);
    LastPieces(a, b, |a| % 64, (|a| + |b|) % 64);
  }

  lemma LastPieces(a: seq<u8>, b: seq<u8>, m: nat, n: nat)
    requires m <= |a| && n <= m + |b|
    ensures Last(Last(a, m) + b, n) == Last(a + b, n)
  {
    assert Last(a, m) + b == (a + b)[|a| - m..];
  }

  /* Equal results from different streams */

  ghost predicate Collide<S>(f: (S, Block) -> S, s: S, a: Block, t: S, b: Block) {
    (s, a) != (t, b) && f(s, a) == f(t, b)
  }

  /** Compressing block i of one stream and block j of the other, each after the
      blocks before it, is two different calls of f with one result. */
  ghost predicate CollideAt<S>(f: (S, Block) -> S, s: S, a: seq<u8>, i: nat, b: seq<u8>, j: nat) {
    && 64 * i + 64 <= |a| && 64 * j + 64 <= |b|
    && Collide(f, CompressedBlocks(f, s, a, i), a[64 * i..64 * i + 64],
               CompressedBlocks(f, s, b, j), b[64 * j..64 * j + 64])
  }

  /** Streams that differ in their first n blocks meet at one place in both. */
  lemma {:induction false} PrefixesCollide<S>(f: (S, Block) -> S, s: S, a: seq<u8>, b: seq<u8>, n: nat)
    requires 64 * n <= |a| && 64 * n <= |b| && a[..64 * n] != b[..64 * n]
    requires CompressedBlocks(f, s, a, n) == CompressedBlocks(f, s, b, n)
    ensures exists i: nat :: CollideAt(f, s, a, i, b, i)
  {
    var k := 64 * (n - 1);
    if !CollideAt(f, s, a, n - 1, b, n - 1) {
      assert a[..64 * n] == a[..k] + a[k..k + 64] && b[..64 * n] == b[..k] + b[k..k + 64];
      PrefixesCollide(f, s, a, b, n - 1);
    }
  }
}
