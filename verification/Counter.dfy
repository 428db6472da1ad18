/** The arithmetic on the two-word bit counter of a context. */
module Counter {
  import opened Word32
  import opened Streaming

  lemma IndexBits(low: u32, high: u32)
    ensures And(Shr(low, 3), 0x3F) == Word64(low, high) / 8 % 64
  {
    hide Bitwise, Shr, Pow2;
    ShrValues(low);
    Pow2Values();
    AndMask(Shr(low, 3), 6);
    var h: nat := high;
    DivModUnique(Word64(low, high), 8, 0x2000_0000 * h + low / 8, low % 8);
    DivModUnique(0x2000_0000 * h + low / 8, 64, 0x80_0000 * h + low / 8 / 64, low / 8 % 64);
  }

  /** The carry test and the bits shifted out add up to 64-bit addition. */
  lemma CounterIsExact(low: u32, high: u32, len: u32)
    ensures var low' := Add(low, Shl(len, 3));
      var carried := if low' < Shl(len, 3) then Add(high, 1) else high;
      Word64(low', Add(carried, Shr(len, 29))) == Advance(Word64(low, high), len)
  {
    hide Shl, Shr, Pow2, Wrap, Advance;
    AdvanceIsSum(Word64(low, high), len);
    var shifted, out := Shl(len, 3), Shr(len, 29);
    ShiftedParts(len);
    var carry := if Add(low, shifted) < shifted then 1 else 0;
    CarrySum(low, shifted, carry);
    var carried := Add(high, carry);
    WordsOfSum(high + carry + out, Add(low, shifted));
    WrapSum(high + carry, out);
    WrapSum(high, 0);
  }

  lemma ShiftedParts(len: u32)
    ensures 8 * len == 0x1_0000_0000 * Shr(len, 29) + Shl(len, 3)
  {
    hide Shl, Shr;
    Pow2Values();
    ShrValues(len);
    ShlIsProduct(len, 3);
    assert len == len / 0x2000_0000 * 0x2000_0000 + len % 0x2000_0000;
    DivModUnique(8 * len, 0x1_0000_0000, len / 0x2000_0000, 8 * (len % 0x2000_0000));
  }

  lemma CarrySum(low: u32, shifted: u32, carry: nat)
    requires carry == if Add(low, shifted) < shifted then 1 else 0
    ensures low + shifted == 0x1_0000_0000 * carry + Add(low, shifted)
  {
  }

  /** Truncating a sum to two words truncates its high word. */
  lemma WordsOfSum(high: nat, low: u32)
    ensures (0x1_0000_0000 * high + low) % 0x1_0000_0000_0000_0000 == Word64(low, Wrap(high))
  {
    DivModUnique(0x1_0000_0000 * high + low, 0x1_0000_0000_0000_0000, high / 0x1_0000_0000,
      Word64(low, Wrap(high)));
  }
}
