/** What a hashing context means: the effect of one update on any context, and
    of any run of updates, for any compression function f. */
module Streaming {
  import opened Word32
  import opened Blocks

  /** The values in an MD5_CTX, the two counter words taken as one number of bits. */
  datatype Context<S> = Context(count: u64, state: S, buffer: Block)

  /** Bytes of the buffer in use. */
  function Index<S>(c: Context<S>): (i: nat)
    ensures i < 64
  {
    c.count / 8 % 64
  }

  function Live<S>(c: Context<S>): seq<u8> { c.buffer[..Index(c)] }

  /** The buffer once a stream has gone through it: the stream's tail, then
      what is left of the first block, or of the old buffer. */
  function Refilled(buffer: Block, stream: seq<u8>): Block {
    if |stream| < 64 then stream + buffer[|stream|..]
    else Tail(stream) + stream[|stream| % 64..64]
  }

  /** A 64-bit bit count n bytes later: every byte adds eight. */
  function Advance(bits: u64, n: nat): u64 {
    if n == 0 then bits else (Advance(bits, n - 1) + 8) % 0x1_0000_0000_0000_0000
  }

  /** A context that has been fed some more bytes. */
  function Absorb<S>(f: (S, Block) -> S, c: Context<S>, data: seq<u8>): Context<S> {
    var stream := Live(c) + data;
    Context(Advance(c.count, |data|), Fold(f, c.state, stream), Refilled(c.buffer, stream))
  }

  /* What an update leaves in use */

  lemma {:induction false} AdvanceIsSum(bits: u64, n: nat)
    ensures Advance(bits, n) == (bits + 8 * n) % 0x1_0000_0000_0000_0000
  {
    if n > 0 {
      AdvanceIsSum(bits, n - 1);
      ModSum(bits + 8 * (n - 1), 8, 0x1_0000_0000_0000_0000);
    }
  }

  lemma IndexAfter(count: u64, n: nat)
    ensures Advance(count, n) / 8 % 64 == (count / 8 % 64 + n) % 64
  {
    hide Advance;
    AdvanceIsSum(count, n);
    var x: nat := count + 8 * n;
    var q := x / 0x1_0000_0000_0000_0000;
    var eighths, lost := count / 8 + n, 0x2000_0000_0000_0000 * q;
    DivModUnique(Advance(count, n), 8, eighths - lost, count % 8);
    ModSum(eighths, -lost, 64);
    DivModUnique(eighths % 64 - lost, 64, -0x80_0000_0000_0000 * q, eighths % 64);
    ModSum(count / 8, n, 64);
  }

  lemma IndexAdvances<S>(f: (S, Block) -> S, c: Context<S>, data: seq<u8>)
    ensures Index(Absorb(f, c, data)) == (Index(c) + |data|) % 64
  {
    hide Fold, Refilled, Advance, Live;
    IndexAfter(c.count, |data|);
  }

  /** What every byte of the buffer is after a stream has gone through it. */
  lemma RefilledBytes(buffer: Block, stream: seq<u8>, i: nat)
    requires i < 64
    ensures Refilled(buffer, stream)[i] ==
      if i < |stream| % 64 then stream[|stream| - |stream| % 64 + i]
      else if |stream| >= 64 then stream[i]
      else buffer[i]
  {
  }

  lemma RefilledTail(buffer: Block, stream: seq<u8>)
    ensures Refilled(buffer, stream)[..|stream| % 64] == Tail(stream)
  {
  }

  lemma LiveAfter<S>(f: (S, Block) -> S, c: Context<S>, data: seq<u8>)
    ensures Live(Absorb(f, c, data)) == Tail(Live(c) + data)
  {
    hide Fold, Refilled, Advance, Index, Tail;
    IndexAdvances(f, c, data);
    RefilledTail(c.buffer, Live(c) + data);
  }

  /* Contexts that differ only in bytes nobody reads again */

  ghost predicate Agree<S>(c: Context<S>, d: Context<S>) {
    c.count == d.count && c.state == d.state && Live(c) == Live(d)
  }

  lemma StaleBytesIgnored<S>(f: (S, Block) -> S, c: Context<S>, d: Context<S>, data: seq<u8>)
    requires Agree(c, d)
    ensures Agree(Absorb(f, c, data), Absorb(f, d, data))
  {
    hide Fold, Refilled, Advance, Tail;
    LiveAfter(f, c, data);
    LiveAfter(f, d, data);
  }

  lemma AdvanceTwice(bits: u64, m: nat, n: nat)
    ensures Advance(Advance(bits, m), n) == Advance(bits, m + n)
  {
    hide Advance;
    AdvanceIsSum(bits, m);
    AdvanceIsSum(Advance(bits, m), n);
    AdvanceIsSum(bits, m + n);
    ModSum(bits + 8 * m, 8 * n, 0x1_0000_0000_0000_0000);
  }

  /** One update with a + b, or one with a and one with b: the same context. */
  lemma ChunkingIndependent<S>(f: (S, Block) -> S, c: Context<S>, a: seq<u8>, b: seq<u8>)
    ensures Agree(Absorb(f, Absorb(f, c, a), b), Absorb(f, c, a + b))
  {
    hide Fold, Refilled, Index, Tail, Advance;
    var c1 := Absorb(f, c, a);
    assert Live(c) + (a + b) == Live(c) + a + b;
    LiveAfter(f, c, a);
    LiveAfter(f, c1, b);
    LiveAfter(f, c, a + b);
    FoldPieces(f, c.state, Live(c) + a, b);
    TailPieces(Live(c) + a, b);
    AdvanceTwice(c.count, |a|, |b|);
  }

  /* Runs of updates */

  function Run<S>(f: (S, Block) -> S, c: Context<S>, chunks: seq<seq<u8>>): Context<S> {
    if chunks == [] then c else Absorb(f, Run(f, c, chunks[..|chunks| - 1]), chunks[|chunks| - 1])
  }

  lemma {:induction false} RunsAgree<S>(f: (S, Block) -> S, c: Context<S>, d: Context<S>, chunks: seq<seq<u8>>)
    requires Agree(c, d)
    ensures Agree(Run(f, c, chunks), Run(f, d, chunks))
  {
    hide Absorb, Live;
    if chunks != [] {
      var before, last := chunks[..|chunks| - 1], chunks[|chunks| - 1];
      RunsAgree(f, c, d, before);
      StaleBytesIgnored(f, Run(f, c, before), Run(f, d, before), last);
    }
  }

  lemma RunSnoc<S>(f: (S, Block) -> S, c: Context<S>, chunks: seq<seq<u8>>, k: nat)
    requires k < |chunks|
    ensures Run(f, c, chunks[..k + 1]) == Absorb(f, Run(f, c, chunks[..k]), chunks[k])
  {
    assert chunks[..k + 1][..k] == chunks[..k];
  }

  function Concat(chunks: seq<seq<u8>>): seq<u8> {
    if chunks == [] then [] else Concat(chunks[..|chunks| - 1]) + chunks[|chunks| - 1]
  }

  /** Any run of updates amounts to one update with everything it was fed. */
  lemma {:induction false} RunIsOneUpdate<S>(f: (S, Block) -> S, c: Context<S>, chunks: seq<seq<u8>>)
    ensures Agree(Run(f, c, chunks), Absorb(f, c, Concat(chunks)))
  {
    hide Absorb, Live;
    if chunks == [] {
      AbsorbNothing(f, c);
    } else {
      var before, last := chunks[..|chunks| - 1], chunks[|chunks| - 1];
      RunIsOneUpdate(f, c, before);
      StaleBytesIgnored(f, Run(f, c, before), Absorb(f, c, Concat(before)), last);
      ChunkingIndependent(f, c, Concat(before), last);
    }
  }

  lemma AbsorbNothing<S>(f: (S, Block) -> S, c: Context<S>)
    ensures Agree(c, Absorb(f, c, []))
  {
    hide Refilled;
    assert Live(c) + [] == Live(c);
    assert Tail(Live(c)) == Live(c);
    assert Fold(f, c.state, Live(c)) == c.state;
    LiveAfter(f, c, []);
    assert Advance(c.count, 0) == c.count;
  }

  lemma RunIndex<S>(f: (S, Block) -> S, c: Context<S>, chunks: seq<seq<u8>>)
    ensures Index(Run(f, c, chunks)) == (Index(c) + |Concat(chunks)|) % 64
  {
    hide Run, Absorb, Concat;
    RunIsOneUpdate(f, c, chunks);
    IndexAdvances(f, c, Concat(chunks));
  }

  /** Two ways of cutting up one message leave the same context behind. */
  lemma SplittingsAgree<S>(f: (S, Block) -> S, c: Context<S>, chunks: seq<seq<u8>>, others: seq<seq<u8>>)
    requires Concat(chunks) == Concat(others)
    ensures Agree(Run(f, c, chunks), Run(f, c, others))
  {
    hide Run, Absorb, Live, Concat;
    RunIsOneUpdate(f, c, chunks);
    RunIsOneUpdate(f, c, others);
  }

  /* The streaming invariant */

  function Initial<S>(s: S, buffer: Block): Context<S> { Context(0, s, buffer) }

  /** The context, started from state s, has seen exactly the bytes of m. */
  ghost predicate Represents<S>(f: (S, Block) -> S, s: S, c: Context<S>, m: seq<u8>) {
    && c.count == BitLength(|m|)
    && c.state == Fold(f, s, m)
    && Live(c) == Tail(m)
  }

  lemma InitialIndex<S>(s: S, buffer: Block)
    ensures Index(Initial(s, buffer)) == 0
  {
  }

  lemma InitialRepresents<S>(f: (S, Block) -> S, s: S, buffer: Block)
    ensures Represents(f, s, Initial(s, buffer), [])
  {
  }

  lemma AbsorbRepresents<S>(f: (S, Block) -> S, s: S, c: Context<S>, m: seq<u8>, data: seq<u8>)
    requires Represents(f, s, c, m)
    ensures Represents(f, s, Absorb(f, c, data), m + data)
  {
    hide Fold, Refilled, Index, Tail, Advance;
    LiveAfter(f, c, data);
    AdvanceIsSum(0, |m|);
    AdvanceIsSum(0, |m| + |data|);
    FoldPieces(f, s, m, data);
    TailPieces(m, data);
    AdvanceTwice(0, |m|, |data|);
  }

  /** After any run, whatever the buffer held at the start: the state folds the
      complete blocks, the buffer holds the tail and the counter is 8 |m| mod 2^64. */
  lemma {:induction false} StreamingInvariant<S>(f: (S, Block) -> S, s: S, buffer: Block, chunks: seq<seq<u8>>)
    ensures Represents(f, s, Run(f, Initial(s, buffer), chunks), Concat(chunks))
  {
    if chunks == [] {
    } else {
      hide Represents, Absorb;
      var before, last := chunks[..|chunks| - 1], chunks[|chunks| - 1];
      StreamingInvariant(f, s, buffer, before);
      AbsorbRepresents(f, s, Run(f, Initial(s, buffer), before), Concat(before), last);
    }
  }
}
