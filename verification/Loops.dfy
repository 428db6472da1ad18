/** The 32-bit loop variables of md5.c, and when the loops over them end. */
module Loops {
  import opened Word32

  /** The loop variable after k iterations, as a 32-bit register holds it. */
  function LoopIndex(start: u32, step: u32, k: nat): u32 {
    if k == 0 then start else Add(LoopIndex(start, step, k - 1), step)
  }

  lemma AddAligned(x: u32, step: u32)
    requires step == 4 || step == 64
    ensures Add(x, step) % step == x % step
  {
    if step == 4 {
      assert Add(x, 4) % 4 == x % 4;
    } else {
      assert Add(x, 64) % 64 == x % 64;
    }
  }

  lemma {:induction false} LoopIndexAligned(start: u32, step: u32, k: nat)
    requires step == 4 || step == 64
    ensures LoopIndex(start, step, k) % step == start % step
  {
    hide Add;
    if k > 0 {
      LoopIndexAligned(start, step, k - 1);
      AddAligned(LoopIndex(start, step, k - 1), step);
    }
  }

  lemma {:induction false} LoopIndexExact(start: u32, step: u32, k: nat)
    requires start + step * k < 0x1_0000_0000
    ensures LoopIndex(start, step, k) == start + step * k
  {
    if k > 0 {
      hide Add;
      assert step * k == step * (k - 1) + step;
      LoopIndexExact(start, step, k - 1);
      AddExact(start + step * (k - 1), step);
    }
  }

  lemma AddExact(x: u32, y: u32)
    requires x + y < 0x1_0000_0000
    ensures Add(x, y) == x + y
  {
  }

  /* The byte loops: j += 4 while j < len */

  /** Some iteration finds no byte left. */
  ghost predicate ByteLoopStops(len: u32) {
    exists k: nat :: LoopIndex(0, 4, k) >= len
  }

  /** Past 2^32 - 4 the byte index wraps round before it reaches the length. */
  lemma ByteLoopStopsExactly(len: u32)
    ensures ByteLoopStops(len) <==> len <= 0xFFFF_FFFC
  {
    if len <= 0xFFFF_FFFC {
      LoopIndexExact(0, 4, (len + 3) / 4);
    } else {
      forall k: nat
        ensures LoopIndex(0, 4, k) < len
      {
        LoopIndexAligned(0, 4, k);
      }
    }
  }

  /* The block loop: i += 64 while i + 64 <= len */

  /** Some iteration finds less than a block left. */
  ghost predicate BlockLoopStops(start: u32, len: u32) {
    exists k: nat :: Add(LoopIndex(start, 64, k), 64) > len
  }

  /** Largest 32-bit value that the loop variable can take. */
  function LastIndex(start: u32): u32 { 0xFFFF_FFC0 + start % 64 }

  lemma StopsBelow(start: u32, len: u32)
    requires 1 <= start <= 64 && start <= len < LastIndex(start)
    ensures BlockLoopStops(start, len)
  {
    var k := (len - start) / 64;
    LoopIndexExact(start, 64, k);
    NoWrap(64 - start, start + 64 * k, len);
    assert Add(LoopIndex(start, 64, k), 64) > len;
  }

  lemma GoesOn(start: u32, len: u32, k: nat)
    requires LastIndex(start) <= len
    ensures Add(LoopIndex(start, 64, k), 64) <= len
  {
    LoopIndexAligned(start, 64, k + 1);
  }

  /** i + 64 wraps round past a length of LastIndex(start) or more; the loop
      stops exactly for the shorter lengths. */
  lemma BlockLoopStopsExactly(start: u32, len: u32)
    requires 1 <= start <= 64 && start <= len
    ensures BlockLoopStops(start, len) <==> len < LastIndex(start)
  {
    if len < LastIndex(start) {
      StopsBelow(start, len);
    } else {
      forall k: nat
        ensures Add(LoopIndex(start, 64, k), 64) <= len
      {
        GoesOn(start, len, k);
      }
    }
  }

  lemma NoWrap(index: nat, i: u32, len: u32)
    requires index < 64 && (index + i) % 64 == 0 && i <= len < LastIndex(64 - index)
    ensures Add(i, 64) == i + 64 && (index + (i + 64)) % 64 == 0
  {
  }

  /** The shortest input to an empty buffer on which the block loop never ends. */
  lemma LongInputNeverStops()
    ensures !BlockLoopStops(64, 0xFFFF_FFC0)
  {
    BlockLoopStopsExactly(64, 0xFFFF_FFC0);
  }
}
