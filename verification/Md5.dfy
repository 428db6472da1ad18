/** The MD5 context of md5.c, updated in place. */
module Md5 {
  import opened Word32
  import LittleEndian
  import opened Rfc1321
  import opened Blocks
  import opened Streaming
  import opened Counter
  import opened Loops
  import opened Compression

  method Memcpy(dst: array<u8>, at: nat, src: array<u8>, from: nat, n: nat)
    requires at + n <= dst.Length && from + n <= src.Length
    requires dst == src ==> at + n <= from || from + n <= at
    modifies dst
    ensures dst[..] == old(dst[..at]) + old(src[from..from + n]) + old(dst[at + n..])
  {
    forall k | 0 <= k < n {
      dst[at + k] := src[from + k];
    }
  }

  /* What the branches of an update amount to */

  /** A context with some bytes of its buffer overwritten. */
  function Filled(c: Context<State>, at: nat, bytes: seq<u8>): Context<State>
    requires at + |bytes| <= 64
  {
    c.(buffer := c.buffer[..at] + bytes + c.buffer[at + |bytes|..])
  }

  lemma LongUpdate(c: Context<State>, data: seq<u8>, i: nat)
    requires 64 - Index(c) <= i <= |data| < i + 64 && (Index(c) + i) % 64 == 0
    ensures var state, buffer := Fold(Compress, c.state, Live(c) + data[..i]), Live(c) + data[..64 - Index(c)];
      Absorb(Compress, c, data) == Filled(Context(Advance(c.count, |data|), state, buffer), 0, data[i..])
  {
    hide Index, Compress, Fold, Advance, Refilled, Tail, Filled;
    var stream, first := Live(c) + data, Live(c) + data[..64 - Index(c)];
    FoldRest(Compress, c.state, Live(c) + data[..i], data[i..]);
    assert Live(c) + data[..i] + data[i..] == stream;
    assert stream[..64] == first;
    RefilledFrom(c.buffer, stream, data[i..]);
    FilledStart(Context(Advance(c.count, |data|), Fold(Compress, c.state, Live(c) + data[..i]), first), data[i..]);
  }

  lemma RefilledFrom(buffer: Block, stream: seq<u8>, rest: seq<u8>)
    requires |stream| >= 64 && rest == Tail(stream)
    ensures Refilled(buffer, stream) == rest + stream[..64][|rest|..]
  {
  }

  lemma FilledStart(c: Context<State>, bytes: seq<u8>)
    requires |bytes| <= 64
    ensures Filled(c, 0, bytes) == c.(buffer := bytes + c.buffer[|bytes|..])
  {
    assert c.buffer[..0] + bytes + c.buffer[|bytes|..] == bytes + c.buffer[|bytes|..];
  }

  lemma ShortUpdate(c: Context<State>, data: seq<u8>)
    requires |data| < 64 - Index(c)
    ensures Absorb(Compress, c, data) == Filled(c.(count := Advance(c.count, |data|)), Index(c), data)
  {
    hide Index, Compress, Advance;
  }

  /** A pointer to the input of an update, and its length. */
  datatype Slice = Slice(bytes: array<u8>, offset: nat, length: u32)
  {
    ghost predicate Holds(chunk: seq<u8>)
      reads bytes
    {
      offset + length <= bytes.Length && bytes[offset..offset + length] == chunk
    }
  }

  /** With so many bytes in the buffer, the block loops of all these updates end. */
  ghost predicate LoopsEnd(index: nat, chunks: seq<seq<u8>>) {
    forall k :: 0 <= k < |chunks| ==> |chunks[k]| < LastIndex(64 - (index + |Concat(chunks[..k])|) % 64)
  }

  lemma NextLoopEnds(c: Context<State>, chunks: seq<seq<u8>>, k: nat)
    requires k < |chunks| && LoopsEnd(Index(c), chunks)
    ensures |chunks[k]| < LastIndex(64 - Index(Run(Compress, c, chunks[..k])))
  {
    hide Run, Concat, Index, LastIndex;
    RunIndex(Compress, c, chunks[..k]);
  }

  class Md5Context {
    const count: array<u32>
    const state: array<u32>
    const buffer: array<u8>

    ghost predicate Valid() {
      count.Length == 2 && state.Length == 4 && buffer.Length == 64 && count != state
    }

    ghost function View(): Context<State>
      requires Valid()
      reads count, state, buffer
    {
      Context(Word64(count[0], count[1]), Registers(state), buffer[..])
    }

    /** The uninitialised structure. */
    constructor ()
      ensures Valid() && fresh(count) && fresh(state) && fresh(buffer)
    {
      count := new u32[2];
      state := new u32[4];
      buffer := new u8[64];
    }

    method Init()
      requires Valid()
      modifies count, state
      ensures View() == Initial(INITIAL, buffer[..])
      ensures count[..] == [0, 0] && UpAndDown(LittleEndian.Bytes(state[..]))
    {
      count[0] := 0;
      count[1] := 0;
      state[0] := 0x6745_2301;
      state[1] := 0xEFCD_AB89;
      state[2] := 0x98BA_DCFE;
      state[3] := 0x1032_5476;
      InitialBytes();
      assert state[..] == [INITIAL.a, INITIAL.b, INITIAL.c, INITIAL.d];
    }

    /** The counter part of an update. */
    method Count(inputlen: u32)
      requires Valid()
      modifies count
      ensures View() == old(View()).(count := Advance(old(View()).count, inputlen))
    {
      hide Advance, Word64, Add, Shl, Shr, Registers;
      CounterIsExact(count[0], count[1], inputlen);
      count[0] := Add(count[0], Shl(inputlen, 3));
      if count[0] < Shl(inputlen, 3) {
        count[1] := Add(count[1], 1);
      }
      count[1] := Add(count[1], Shr(inputlen, 29));
    }

    /** memcpy into the buffer. */
    method Fill(at: nat, input: array<u8>, from: nat, n: nat)
      requires Valid() && input != buffer && at + n <= 64 && from + n <= input.Length
      modifies buffer
      ensures View() == Filled(old(View()), at, input[from..from + n])
    {
      hide Registers;
      Memcpy(buffer, at, input, from, n);
    }

    /** The long branch of an update: fills up the buffer, compresses it and
        then every whole block left in the input, of which i bytes are gone. */
    method CompressBlocks(input: array<u8>, offset: nat, inputlen: u32, index: u32, partlen: u32) returns (i: u32)
      requires Valid() && input != buffer && partlen <= inputlen && offset + inputlen <= input.Length
      requires 1 <= partlen == 64 - index && inputlen < LastIndex(partlen)
      modifies state, buffer
      ensures partlen <= i <= inputlen < i + 64 && (index + i) % 64 == 0
      ensures var c, live, data := old(View()), old(View()).buffer[..index], input[offset..offset + inputlen];
        View() == c.(state := Fold(Compress, c.state, live + data[..i]), buffer := live + data[..partlen])
    {
      hide Compress, Add, Registers, Fold, LastIndex;
      ghost var c, live, data := View(), View().buffer[..index], input[offset..offset + inputlen];
      SliceOfSlice(input[..], offset, inputlen, 0, partlen);
      Fill(index, input, offset, partlen);
      assert View().buffer == live + data[..partlen];
      FoldOne(Compress, c.state, live + data[..partlen]);
      assert buffer[0..64] == View().buffer;
      Transform(state, buffer, 0);
      i := partlen;
      while Add(i, 64) <= inputlen
        invariant partlen <= i <= inputlen && (index + i) % 64 == 0
        invariant View() == c.(state := Fold(Compress, c.state, live + data[..i]), buffer := live + data[..partlen])
        modifies state
        decreases inputlen - i
      {
        NoWrap(index, i, inputlen);
        FoldNext(Compress, c.state, live, data, i);
        SliceOfSlice(input[..], offset, inputlen, i, 64);
        Transform(state, input, offset + i);
        i := Add(i, 64);
      }
      NoWrap(index, i, inputlen);
    }

    method Update(input: array<u8>, offset: nat, inputlen: u32)
      requires Valid() && input != buffer && offset + inputlen <= input.Length
      requires inputlen < LastIndex(64 - Index(View()))
      modifies count, state, buffer
      ensures View() == Absorb(Compress, old(View()), input[offset..offset + inputlen])
    {
      hide Absorb, And, Shr, Filled, Fold, Advance;
      ghost var c, data := View(), input[offset..offset + inputlen];
      IndexBits(count[0], count[1]);
      var i: u32, index: u32, partlen: u32 := 0, And(Shr(count[0], 3), 0x3F), 0;
      partlen := 64 - index;
      hide View, Index;
      Count(inputlen);
      if inputlen >= partlen {
        i := CompressBlocks(input, offset, inputlen, index, partlen);
        LongUpdate(c, data, i);
        index := 0;
      } else {
        i := 0;
        ShortUpdate(c, data);
      }
      SliceOfSlice(input[..], offset, inputlen, i, inputlen - i);
      Fill(index, input, offset + i, inputlen - i);
    }

    /** Any run of updates. */
    method UpdateAll(inputs: seq<Slice>, ghost chunks: seq<seq<u8>>)
      requires Valid() && |chunks| == |inputs| && LoopsEnd(Index(View()), chunks)
      requires forall k :: 0 <= k < |inputs| ==> inputs[k].bytes != buffer && inputs[k].Holds(chunks[k])
      modifies count, state, buffer
      ensures View() == Run(Compress, old(View()), chunks)
    {
      hide Absorb, Compress, View, Index, LastIndex, LoopsEnd;
      ghost var c := View();
      assert View() == Run(Compress, c, chunks[..0]);
      hide Run;
      for k := 0 to |inputs|
        invariant View() == Run(Compress, c, chunks[..k])
        invariant forall j :: k <= j < |inputs| ==> inputs[j].Holds(chunks[j])
      {
        NextLoopEnds(c, chunks, k);
        RunSnoc(Compress, c, chunks, k);
        Update(inputs[k].bytes, inputs[k].offset, inputs[k].length);
      }
      assert chunks[..|inputs|] == chunks;
    }
  }
}
