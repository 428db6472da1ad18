/** NVIC_Init of the peripheral library (misc.c) against NVIC_SetPriority and
    NVIC_EncodePriority of core_cm3.h: when the two store one priority byte. */
module NvicInit {
  import opened Word32
  import opened Nvic

  /** The implemented priority bits of the STM32. */
  const BITS: Width := 4

  /** PRIGROUP, bits 10:8 of SCB->AIRCR. */
  function Group(aircr: u32): u32 { aircr / 0x100 % 8 }

  /** The byte that NVIC_Init stores for an enabled channel. C leaves a shift by
      32 or more undefined; Shl gives zero, like the processor's LSL. */
  function InitByte(aircr: u32, preempt: u8, sub: u8): u8 {
    var width := Shr(Sub(0x700, And(aircr, 0x700)), 8);
    var tmppre, tmpsub := Sub(4, width), Shr(0xF, width);
    Shl(Or(Shl(preempt, tmppre), And(sub, tmpsub)), 4) % 0x100
  }

  /** x doubled k times, without truncation. */
  function Doubled(x: nat, k: nat): nat {
    if k == 0 then x else 2 * Doubled(x, k - 1)
  }

  /** A mask of shifted-up bits looks at the shifted-down word. */
  lemma {:induction false} AndDoubled(x: u32, m: nat, k: nat)
    ensures Bitwise(AndGate, x, Doubled(m, k)) == Doubled(Bitwise(AndGate, Shr(x, k), m), k)
  {
    if k > 0 {
      hide Bitwise;
      AndDoubled(x / 2, m, k - 1);
      BitwiseStep(AndGate, x, Doubled(m, k));
    }
  }

  lemma {:induction false} DoubledIsProduct(x: nat, k: nat)
    ensures Doubled(x, k) == x * Pow2(k)
  {
    if k > 0 {
      DoubledIsProduct(x, k - 1);
    }
  }

  lemma MaskedGroup(aircr: u32)
    ensures And(aircr, 0x700) == 0x100 * Group(aircr)
  {
    hide Bitwise, Doubled, Shr, Pow2;
    AndDoubled(aircr, 7, 8);
    ShrValues(aircr);
    DoubledIsProduct(7, 8);
    DoubledIsProduct(aircr / 0x100 % 8, 8);
    LowThreeBits(aircr / 0x100);
    Pow2Values();
  }

  lemma GroupBits(aircr: u32)
    ensures Shr(Sub(0x700, And(aircr, 0x700)), 8) == 7 - Group(aircr)
  {
    hide And, Shr, Group;
    MaskedGroup(aircr);
    GroupRange(aircr);
    ShrValues(0x700 - 0x100 * Group(aircr));
  }

  lemma GroupRange(aircr: u32)
    ensures Group(aircr) < 8
  {
  }

  /** 4 - tmppriority wraps round to an impossible shift below PRIGROUP 3. */
  lemma ShiftDefined(aircr: u32)
    ensures Sub(4, Shr(Sub(0x700, And(aircr, 0x700)), 8)) < 32 <==> Group(aircr) >= 3
  {
    hide And, Shr, Group;
    GroupBits(aircr);
    GroupRange(aircr);
  }

  /** What NVIC_Init ends up storing: the byte that NVIC_SetPriority stores for
      the encoded pair or, below PRIGROUP 3, always the most urgent priority. */
  function InitStored(group: u32, preempt: u8, sub: u8): u8 {
    if group < 3 then 0 else StoredByte(EncodePriority(group, preempt, sub, BITS), BITS)
  }

  lemma InitByteValue(aircr: u32, preempt: u8, sub: u8)
    ensures InitByte(aircr, preempt, sub) == InitStored(Group(aircr), preempt, sub)
  {
    hide InitByte, Group, EncodePriority, StoredByte;
    if Group(aircr) < 3 {
      LowGroups(aircr, preempt, sub);
    } else {
      HighGroups(aircr, preempt, sub);
    }
  }

  lemma HighGroups(aircr: u32, preempt: u8, sub: u8)
    requires Group(aircr) >= 3
    ensures InitByte(aircr, preempt, sub) == InitStored(Group(aircr), preempt, sub)
  {
    hide And, Or, Pow2, Shl, EncodePriority, Group, PreemptBits, SubBits;
    var g := Group(aircr);
    var n, k := PreemptBits(g, BITS), SubBits(g, BITS);
    GroupRange(aircr);
    GroupBits(aircr);
    GroupWidths(g);
    EncodedValue(g, preempt, sub, BITS);
    SubMask(sub, n, k);
    InitValue(preempt, sub % Pow2(k), n, k);
    Pow2Values();
    SmallMod(EncodePriority(g, preempt, sub, BITS), 16);
  }

  /** The shifts leave nothing of either priority. */
  lemma LowGroups(aircr: u32, preempt: u8, sub: u8)
    requires Group(aircr) < 3
    ensures InitByte(aircr, preempt, sub) == 0
  {
    hide And, Or, Shl, Shr, Group;
    var width := 7 - Group(aircr);
    GroupBits(aircr);
    NothingLeft(width);
    ShlOver(preempt, Sub(4, width));
    ZeroOperands(sub);
  }

  lemma NothingLeft(width: nat)
    requires width >= 4
    ensures Shr(0xF, width) == 0
  {
    hide Shr, Pow2;
    ShrIsQuotient(0xF, width);
    Pow2Values();
    Pow2Monotone(4, width);
    DivModUnique(0xF, Pow2(width), 0, 0xF);
  }

  lemma ZeroOperands(x: u32)
    ensures And(x, 0) == 0 && Or(0, 0) == 0 && Shl(0, 4) == 0
  {
    AndZero(x);
  }

  /** Over-long shifts lose every bit. */
  lemma ShlOver(x: u32, n: nat)
    requires n >= 32
    ensures Shl(x, n) == 0
  {
    hide Shl, Pow2;
    ShlIsProduct(x, n);
    Pow2Add(n - 32, 32);
    Pow2Values();
    WrapMultiple(x, Pow2(n - 32));
  }

  lemma WrapMultiple(x: nat, p: nat)
    ensures Wrap(x * (p * 0x1_0000_0000)) == 0
  {
    assert x * (p * 0x1_0000_0000) == x * p * 0x1_0000_0000;
    DivModUnique(x * (p * 0x1_0000_0000), 0x1_0000_0000, x * p, 0);
  }

  /** The two agree on exactly the groupings 3 to 7, and otherwise on the
      preemption priorities whose four low bits are zero. */
  lemma InitAgrees(aircr: u32, preempt: u8, sub: u8)
    ensures InitByte(aircr, preempt, sub) == StoredByte(EncodePriority(Group(aircr), preempt, sub, BITS), BITS)
      <==> Group(aircr) >= 3 || preempt % 16 == 0
  {
    hide InitByte, EncodePriority, StoredByte, Group;
    InitByteValue(aircr, preempt, sub);
    if Group(aircr) < 3 {
      PreemptOnly(Group(aircr), preempt, sub);
    }
  }

  lemma PreemptOnly(group: u32, preempt: u8, sub: u8)
    requires group < 3
    ensures StoredByte(EncodePriority(group, preempt, sub, BITS), BITS) == preempt % 16 * 16
  {
    hide EncodePriority, StoredByte, PreemptBits, SubBits, Pow2;
    WidthsSum(group, BITS);
    EncodedValue(group, preempt, sub, BITS);
    Pow2Values();
    UnitField(preempt % 16, sub, Pow2(SubBits(group, BITS)));
    StoredNibble(preempt % 16);
  }

  lemma UnitField(hi: nat, lo: nat, s: nat)
    requires s == 1
    ensures hi * s + lo % s == hi
  {
  }

  lemma StoredNibble(x: nat)
    requires x < 16
    ensures StoredByte(x, BITS) == x * 16
  {
    hide Pow2;
    Pow2Values();
  }

  /** The call of uart.c under the reset value of PRIGROUP. */
  lemma UartPriority(aircr: u32)
    requires Group(aircr) == 0
    ensures InitByte(aircr, 3, 3) == 0 && StoredByte(EncodePriority(0, 3, 3, BITS), BITS) == 0x30
  {
    hide InitByte, EncodePriority, StoredByte, Group;
    InitByteValue(aircr, 3, 3);
    PreemptOnly(0, 3, 3);
  }

  lemma GroupWidths(g: u32)
    requires 3 <= g < 8
    ensures PreemptBits(g, BITS) == 7 - g && SubBits(g, BITS) == g - 3 == Sub(4, 7 - g)
  {
    hide PreemptBits, SubBits;
    WidthsSum(g, BITS);
  }

  lemma SubMask(sub: u8, n: nat, k: nat)
    requires n + k == 4
    ensures And(sub, Shr(0xF, n)) == sub % Pow2(k)
  {
    hide And;
    MaskIsMod(sub, k);
    MaskValue(k);
    assert Shr(0xF, n) == Pow2(k) - 1 by {
      ShrIsQuotient(0xF, n);
      Pow2Values();
      if n == 0 {} else if n == 1 {} else if n == 2 {} else if n == 3 {} else {}
    }
  }

  lemma InitValue(hi: u8, lo: nat, n: nat, k: nat)
    requires n + k == 4 && lo < Pow2(k)
    ensures lo < 0x10
    ensures Shl(Or(Shl(hi, k), lo), 4) % 0x100 == (hi % Pow2(n) * Pow2(k) + lo) * 0x10
  {
    hide Or, Pow2, Shl;
    Pow2Values();
    Pow2Monotone(k, 4);
    Pow2Add(n, k);
    FieldsFit(hi, lo, 0x100, Pow2(k));
    MulLe(Pow2(k), 0x10, 0x100);
    ShlExact(hi, k);
    OrIsSum(Shl(hi, k), lo, hi, k);
    TopNibble(hi * Pow2(k) + lo);
    JoinedMod(hi, lo, Pow2(n), Pow2(k));
  }

  lemma JoinedMod(hi: nat, lo: nat, p: nat, s: nat)
    requires p > 0 && lo < s
    ensures p * s > 0 && (hi * s + lo) % (p * s) == hi % p * s + lo
  {
    ModOfProduct(hi * s + lo, p, s);
    DivModUnique(hi * s + lo, s, hi, lo);
  }

  lemma TopNibble(x: nat)
    requires x < 0x1000
    ensures Shl(x, 4) % 0x100 == x % 0x10 * 0x10
  {
    hide Shl, Pow2;
    Pow2Values();
    ShlExact(x, 4);
    ScaleMod(x, 16, 16);
  }

  /** NVIC_Init on the priority registers; a disabled channel keeps its priority. */
  method InitPriority(c: Controller, aircr: u32, channel: u8, preempt: u8, sub: u8, enable: bool)
    requires c.Valid() && c.prioBits == BITS && channel < 240
    modifies c.ip
    ensures var b := InitStored(Group(aircr), preempt, sub);
      && c.View() == (if enable then Store(old(c.View()), channel, b) else old(c.View()))
      && c.ip[..] == if enable then old(c.ip[..])[channel := b] else old(c.ip[..])
  {
    hide InitByte, InitStored, Group;
    if enable {
      InitByteValue(aircr, preempt, sub);
      c.ip[channel] := InitByte(aircr, preempt, sub);
    }
  }
}
