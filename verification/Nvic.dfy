/** Interrupt priorities of core_cm3.h, for any number of implemented
    priority bits (__NVIC_PRIO_BITS). */
module Nvic {
  import opened Word32

  type Width = p: nat | p <= 8

  /* Splitting a priority into a preemption and a sub priority */

  function PreemptBits(group: u32, prioBits: Width): nat {
    var g := And(group, 7);
    if Sub(7, g) > prioBits then prioBits else Sub(7, g)
  }

  function SubBits(group: u32, prioBits: Width): nat {
    var g := And(group, 7);
    if Add(g, prioBits) < 7 then 0 else Add(Sub(g, 7), prioBits)
  }

  /** (1 << bits) - 1 */
  function Mask(bits: nat): u32 { Sub(Shl(1, bits), 1) }

  function EncodePriority(group: u32, preempt: u32, sub: u32, prioBits: Width): u32 {
    var p, s := PreemptBits(group, prioBits), SubBits(group, prioBits);
    Or(Shl(And(preempt, Mask(p)), s), And(sub, Mask(s)))
  }

  lemma LowThreeBits(group: u32)
    ensures And(group, 7) == group % 8
  {
    Pow2Values();
    AndMask(group, 3);
  }

  /** The two field widths share out the priority bits. */
  lemma WidthsSum(group: u32, prioBits: Width)
    ensures PreemptBits(group, prioBits) == if prioBits < 7 - group % 8 then prioBits else 7 - group % 8
    ensures PreemptBits(group, prioBits) + SubBits(group, prioBits) == prioBits
  {
    hide And, Add, Sub;
    LowThreeBits(group);
    SmallDifferences(group % 8, prioBits);
  }

  lemma SmallDifferences(g: nat, prioBits: Width)
    requires g < 8
    ensures Sub(7, g) == 7 - g && Add(g, prioBits) == g + prioBits
    ensures g + prioBits >= 7 ==> Add(Sub(g, 7), prioBits) == g + prioBits - 7
  {
    ModSum(g - 7, prioBits, 0x1_0000_0000);
  }

  lemma {:induction false} Pow2Monotone(m: nat, n: nat)
    requires m <= n
    ensures Pow2(m) <= Pow2(n)
  {
    if m < n {
      Pow2Monotone(m, n - 1);
    }
  }

  lemma MaskValue(bits: Width)
    ensures Mask(bits) == Pow2(bits) - 1
  {
    hide Pow2, Shl;
    Pow2Values();
    Pow2Monotone(bits, 8);
    ShlExact(1, bits);
  }

  lemma MaskIsMod(x: u32, bits: Width)
    ensures And(x, Mask(bits)) == x % Pow2(bits)
  {
    hide Bitwise, Pow2, Mask;
    MaskValue(bits);
    AndMask(x, bits);
  }

  /** Two fields side by side in one word. */
  lemma JoinedFields(hi: nat, lo: nat, n: nat, k: nat)
    requires n + k <= 8 && hi < Pow2(n) && lo < Pow2(k)
    ensures hi < 0x100 && lo < 0x100 && Pow2(n) * Pow2(k) == Pow2(n + k)
    ensures Or(Shl(hi, k), lo) == hi * Pow2(k) + lo < Pow2(n + k)
  {
    hide Pow2, Or, Shl;
    Pow2Values();
    Pow2Monotone(n, 8);
    Pow2Monotone(k, 8);
    Pow2Monotone(n + k, 8);
    Pow2Add(n, k);
    FieldsFit(hi, lo, Pow2(n), Pow2(k));
    ShlExact(hi, k);
    OrIsSum(Shl(hi, k), lo, hi, k);
  }

  /** Both fields reduced to their widths, the preemption priority on top. */
  lemma EncodedValue(group: u32, preempt: u32, sub: u32, prioBits: Width)
    ensures var p, s := Pow2(PreemptBits(group, prioBits)), Pow2(SubBits(group, prioBits));
      && p * s == Pow2(prioBits)
      && EncodePriority(group, preempt, sub, prioBits) == preempt % p * s + sub % s < Pow2(prioBits)
  {
    hide And, Or, Mask, PreemptBits, SubBits, Pow2, Shl;
    WidthsSum(group, prioBits);
    var n, k := PreemptBits(group, prioBits), SubBits(group, prioBits);
    MaskIsMod(preempt, n);
    MaskIsMod(sub, k);
    JoinedFields(preempt % Pow2(n), sub % Pow2(k), n, k);
  }

  /** The fields of a priority: the quotient and remainder by 2 to the sub width. */
  function DecodedPreempt(priority: nat, group: u32, prioBits: Width): nat {
    priority / Pow2(SubBits(group, prioBits)) % Pow2(PreemptBits(group, prioBits))
  }

  function DecodedSub(priority: nat, group: u32, prioBits: Width): nat {
    priority % Pow2(SubBits(group, prioBits))
  }

  lemma DecodedBits(priority: u32, group: u32, prioBits: Width)
    ensures var p, s := PreemptBits(group, prioBits), SubBits(group, prioBits);
      && And(Shr(priority, s), Mask(p)) == DecodedPreempt(priority, group, prioBits)
      && And(priority, Mask(s)) == DecodedSub(priority, group, prioBits)
  {
    hide And, Mask, PreemptBits, SubBits, Pow2, Shr;
    WidthsSum(group, prioBits);
    ShrIsQuotient(priority, SubBits(group, prioBits));
    MaskIsMod(Shr(priority, SubBits(group, prioBits)), PreemptBits(group, prioBits));
    MaskIsMod(priority, SubBits(group, prioBits));
  }

  /** A pointer is an array of one cell or more; the second store wins if the
      two pointers are the same. */
  method DecodePriority(priority: u32, group: u32, prioBits: Width, pPreempt: array<u32>, pSub: array<u32>)
    requires pPreempt.Length >= 1 && pSub.Length >= 1
    modifies pPreempt, pSub
    ensures pSub[0] == DecodedSub(priority, group, prioBits) && pSub[1..] == old(pSub[1..])
    ensures pPreempt != pSub ==> pPreempt[0] == DecodedPreempt(priority, group, prioBits)
    ensures pPreempt[1..] == old(pPreempt[1..])
  {
    hide *;
    DecodedBits(priority, group, prioBits);
    var p, s := PreemptBits(group, prioBits), SubBits(group, prioBits);
    pPreempt[0] := And(Shr(priority, s), Mask(p));
    pSub[0] := And(priority, Mask(s));
  }

  /** Decoding an encoded priority gives both fields back, reduced to their widths. */
  lemma DecodeEncode(group: u32, preempt: u32, sub: u32, prioBits: Width)
    ensures var e := EncodePriority(group, preempt, sub, prioBits);
      && DecodedPreempt(e, group, prioBits) == preempt % Pow2(PreemptBits(group, prioBits))
      && DecodedSub(e, group, prioBits) == sub % Pow2(SubBits(group, prioBits))
  {
    hide EncodePriority, PreemptBits, SubBits, Pow2;
    var p, s := Pow2(PreemptBits(group, prioBits)), Pow2(SubBits(group, prioBits));
    EncodedValue(group, preempt, sub, prioBits);
    DivModUnique(preempt % p * s + sub % s, s, preempt % p, sub % s);
    SmallMod(preempt % p, p);
  }

  /** Encoding a decoded priority gives its low prioBits bits. */
  lemma EncodeDecode(priority: u32, group: u32, prioBits: Width)
    ensures var preempt, sub := DecodedPreempt(priority, group, prioBits), DecodedSub(priority, group, prioBits);
      && preempt < 0x1_0000_0000 && sub < 0x1_0000_0000
      && EncodePriority(group, preempt, sub, prioBits) == priority % Pow2(prioBits)
  {
    DecodedBits(priority, group, prioBits);
    hide EncodePriority, DecodedPreempt, DecodedSub, PreemptBits, SubBits, Pow2, And, Shr, Mask;
    EncodeDecoded(priority, group, prioBits, DecodedPreempt(priority, group, prioBits),
      DecodedSub(priority, group, prioBits));
  }

  lemma EncodeDecoded(priority: u32, group: u32, prioBits: Width, preempt: u32, sub: u32)
    requires preempt == DecodedPreempt(priority, group, prioBits) && sub == DecodedSub(priority, group, prioBits)
    ensures EncodePriority(group, preempt, sub, prioBits) == priority % Pow2(prioBits)
  {
    hide EncodePriority, PreemptBits, SubBits, Pow2;
    var p, s := Pow2(PreemptBits(group, prioBits)), Pow2(SubBits(group, prioBits));
    EncodedValue(group, preempt, sub, prioBits);
    SmallMod(priority / s % p, p);
    SmallMod(priority % s, s);
    ModOfProduct(priority, p, s);
  }

  /** Encoded priorities are ordered by preemption priority first, then by sub
      priority, each reduced to its field. */
  lemma EncodeOrders(group: u32, p1: u32, s1: u32, p2: u32, s2: u32, prioBits: Width)
    ensures var p, s := Pow2(PreemptBits(group, prioBits)), Pow2(SubBits(group, prioBits));
      var e1, e2 := EncodePriority(group, p1, s1, prioBits), EncodePriority(group, p2, s2, prioBits);
      e1 < e2 <==> p1 % p < p2 % p || (p1 % p == p2 % p && s1 % s < s2 % s)
  {
    hide EncodePriority, PreemptBits, SubBits, Pow2;
    var p, s := Pow2(PreemptBits(group, prioBits)), Pow2(SubBits(group, prioBits));
    EncodedValue(group, p1, s1, prioBits);
    EncodedValue(group, p2, s2, prioBits);
    PairOrder(p1 % p, s1 % s, p2 % p, s2 % s, s);
  }

  lemma PairOrder(hi1: nat, lo1: nat, hi2: nat, lo2: nat, s: nat)
    requires lo1 < s && lo2 < s
    ensures hi1 * s + lo1 < hi2 * s + lo2 <==> hi1 < hi2 || (hi1 == hi2 && lo1 < lo2)
  {
    if hi1 < hi2 {
      FieldsFit(hi1, lo1, hi2, s);
    } else if hi2 < hi1 {
      FieldsFit(hi2, lo2, hi1, s);
    }
  }

  /* The priority registers */

  datatype Registers = Registers(shp: seq<u8>, ip: seq<u8>)

  ghost predicate WellFormed(r: Registers) { |r.shp| == 12 && |r.ip| == 240 }

  /** Exceptions with a priority register: system ones -12..-1, external ones 0..239. */
  type Irq = n: int | -12 <= n < 240

  /** ((uint32_t)IRQn & 0xF) - 4 */
  function SystemIndex(n: int): u32 { Sub(And(Wrap(n), 0xF), 4) }

  /** Among the core exceptions -16..-1, those that index into SHP. */
  lemma SystemIndexRange(n: int)
    requires -16 <= n < 0
    ensures SystemIndex(n) < 12 <==> -12 <= n
    ensures -12 <= n ==> SystemIndex(n) == n + 12
  {
    hide And;
    LowFourBits(Wrap(n));
    assert Wrap(n) == n + 0x1_0000_0000;
  }

  lemma LowFourBits(x: u32)
    ensures And(x, 0xF) == x % 16
  {
    Pow2Values();
    AndMask(x, 4);
  }

  function Load(r: Registers, n: Irq): u8
    requires WellFormed(r)
  {
    if n < 0 then r.shp[n + 12] else r.ip[n]
  }

  function Store(r: Registers, n: Irq, b: u8): (q: Registers)
    requires WellFormed(r)
    ensures WellFormed(q)
  {
    if n < 0 then r.(shp := r.shp[n + 12 := b]) else r.(ip := r.ip[n := b])
  }

  /** No two exceptions share a register. */
  lemma LoadStore(r: Registers, n: Irq, b: u8, k: Irq)
    requires WellFormed(r)
    ensures Load(Store(r, n, b), k) == if k == n then b else Load(r, k)
  {
  }

  /** The byte kept for a priority: its low prioBits bits, at the top of the byte. */
  function StoredByte(priority: u32, prioBits: Width): u8 {
    StoredBits(priority, prioBits);
    priority % Pow2(prioBits) * Pow2(8 - prioBits)
  }

  lemma StoredBits(priority: u32, prioBits: Width)
    ensures And(Shl(priority, 8 - prioBits), 0xFF) == priority % Pow2(prioBits) * Pow2(8 - prioBits) < 0x100
  {
    hide And, Pow2, Shl;
    ByteMask(Shl(priority, 8 - prioBits));
    ShlIsProduct(priority, 8 - prioBits);
    Pow2Add(8 - prioBits, prioBits);
    Pow2Values();
    WrappedByte(priority * Pow2(8 - prioBits));
    ScaleMod(priority, Pow2(8 - prioBits), Pow2(prioBits));
  }

  lemma StoredValue(priority: u32, prioBits: Width)
    ensures StoredByte(priority, prioBits) / Pow2(8 - prioBits) == priority % Pow2(prioBits)
  {
    hide Pow2;
    ExactQuotient(priority % Pow2(prioBits), Pow2(8 - prioBits));
  }

  lemma WrappedByte(x: nat)
    ensures Wrap(x) % 0x100 == x % 0x100
  {
  }

  lemma ExactQuotient(x: nat, d: nat)
    requires d > 0
    ensures x * d / d == x
  {
    DivModUnique(x * d, d, x, 0);
  }

  /* Any sequence of priority settings */

  /** The priority that a register keeps. */
  function Priority(r: Registers, n: Irq, prioBits: Width): u32
    requires WellFormed(r)
  {
    ShrIsQuotient(Load(r, n), 8 - prioBits);
    Load(r, n) / Pow2(8 - prioBits)
  }

  datatype Setting = Setting(irq: Irq, priority: u32)

  function Settled(r: Registers, settings: seq<Setting>, prioBits: Width): (q: Registers)
    requires WellFormed(r)
    ensures WellFormed(q)
  {
    if settings == [] then r else
      var last := settings[|settings| - 1];
      Store(Settled(r, settings[..|settings| - 1], prioBits), last.irq, StoredByte(last.priority, prioBits))
  }

  /** Settings after position i leave exception n alone. */
  ghost predicate LastSetting(settings: seq<Setting>, n: Irq, i: nat)
    requires i < |settings|
  {
    settings[i].irq == n && forall j :: i < j < |settings| ==> settings[j].irq != n
  }

  /** What is read is what was set last, reduced to prioBits bits. */
  lemma {:induction false} LastSettingWins(r: Registers, settings: seq<Setting>, n: Irq, i: nat, prioBits: Width)
    requires WellFormed(r) && i < |settings| && LastSetting(settings, n, i)
    ensures Priority(Settled(r, settings, prioBits), n, prioBits) == settings[i].priority % Pow2(prioBits)
  {
    hide Load, Store, StoredByte, Pow2;
    var before, last := settings[..|settings| - 1], settings[|settings| - 1];
    LoadStore(Settled(r, before, prioBits), last.irq, StoredByte(last.priority, prioBits), n);
    if i == |settings| - 1 {
      StoredValue(last.priority, prioBits);
    } else {
      LastSettingWins(r, before, n, i, prioBits);
    }
  }

  /** Setting other exceptions disturbs nothing. */
  lemma {:induction false} OthersUndisturbed(r: Registers, settings: seq<Setting>, n: Irq, prioBits: Width)
    requires WellFormed(r) && forall s :: s in settings ==> s.irq != n
    ensures Load(Settled(r, settings, prioBits), n) == Load(r, n)
  {
    hide Load, Store, StoredByte;
    if settings != [] {
      var before, last := settings[..|settings| - 1], settings[|settings| - 1];
      LoadStore(Settled(r, before, prioBits), last.irq, StoredByte(last.priority, prioBits), n);
      OthersUndisturbed(r, before, n, prioBits);
    }
  }

  /** The stored bytes, which the hardware compares, keep the order of the priorities. */
  lemma StoredOrders(x: u32, y: u32, prioBits: Width)
    requires x < Pow2(prioBits) && y < Pow2(prioBits)
    ensures StoredByte(x, prioBits) < StoredByte(y, prioBits) <==> x < y
  {
    hide Pow2;
    SmallMod(x, Pow2(prioBits));
    SmallMod(y, Pow2(prioBits));
    PairOrder(x, 0, y, 0, Pow2(8 - prioBits));
  }

  /** So do the stored bytes of encoded priorities: preemption first, then sub priority. */
  lemma StoredLexicographic(group: u32, p1: u32, s1: u32, p2: u32, s2: u32, prioBits: Width)
    ensures var p, s := Pow2(PreemptBits(group, prioBits)), Pow2(SubBits(group, prioBits));
      var e1, e2 := EncodePriority(group, p1, s1, prioBits), EncodePriority(group, p2, s2, prioBits);
      var b1, b2 := StoredByte(e1, prioBits), StoredByte(e2, prioBits);
      b1 < b2 <==> p1 % p < p2 % p || (p1 % p == p2 % p && s1 % s < s2 % s)
  {
    hide StoredByte, EncodePriority, PreemptBits, SubBits, Pow2;
    EncodedValue(group, p1, s1, prioBits);
    EncodedValue(group, p2, s2, prioBits);
    EncodeOrders(group, p1, s1, p2, s2, prioBits);
    StoredOrders(EncodePriority(group, p1, s1, prioBits), EncodePriority(group, p2, s2, prioBits), prioBits);
  }

  /** Encode, set, get and decode: both fields come back, reduced to their widths. */
  lemma ConfiguredPriority(r: Registers, n: Irq, group: u32, preempt: u32, sub: u32, prioBits: Width)
    requires WellFormed(r)
    ensures var q := Store(r, n, StoredByte(EncodePriority(group, preempt, sub, prioBits), prioBits));
      && DecodedPreempt(Priority(q, n, prioBits), group, prioBits) == preempt % Pow2(PreemptBits(group, prioBits))
      && DecodedSub(Priority(q, n, prioBits), group, prioBits) == sub % Pow2(SubBits(group, prioBits))
  {
    hide Load, Store, StoredByte, EncodePriority, DecodedPreempt, DecodedSub, PreemptBits, SubBits, Pow2;
    var e := EncodePriority(group, preempt, sub, prioBits);
    EncodedValue(group, preempt, sub, prioBits);
    LoadStore(r, n, StoredByte(e, prioBits), n);
    StoredValue(e, prioBits);
    SmallMod(e, Pow2(prioBits));
    DecodeEncode(group, preempt, sub, prioBits);
  }

  class Controller {
    const prioBits: Width
    const shp: array<u8>
    const ip: array<u8>

    ghost predicate Valid() {
      shp.Length == 12 && ip.Length == 240 && shp != ip
    }

    ghost function View(): Registers
      requires Valid()
      reads shp, ip
    {
      Registers(shp[..], ip[..])
    }

    constructor (prioBits: Width)
      ensures Valid() && this.prioBits == prioBits && fresh(shp) && fresh(ip)
    {
      this.prioBits := prioBits;
      shp := new u8[12];
      ip := new u8[240];
    }

    method SetPriority(irq: Irq, priority: u32)
      requires Valid()
      modifies shp, ip
      ensures View() == Store(old(View()), irq, StoredByte(priority, prioBits))
      ensures var b := And(Shl(priority, 8 - prioBits), 0xFF); if irq < 0
        then shp[..] == old(shp[..])[irq + 12 := b] && ip[..] == old(ip[..])
        else ip[..] == old(ip[..])[irq := b] && shp[..] == old(shp[..])
    {
      hide SystemIndex, And, Shl, Pow2;
      StoredBits(priority, prioBits);
      if irq < 0 {
        SystemIndexRange(irq);
        shp[SystemIndex(irq)] := And(Shl(priority, 8 - prioBits), 0xFF);
      } else {
        ip[irq] := And(Shl(priority, 8 - prioBits), 0xFF);
      }
    }

    method GetPriority(irq: Irq) returns (priority: u32)
      requires Valid()
      ensures priority == Priority(View(), irq, prioBits)
      ensures priority == Shr(if irq < 0 then shp[irq + 12] else ip[irq], 8 - prioBits)
    {
      hide SystemIndex, Shr, Pow2;
      ShrIsQuotient(Load(View(), irq), 8 - prioBits);
      if irq < 0 {
        SystemIndexRange(irq);
        priority := Shr(shp[SystemIndex(irq)], 8 - prioBits);
      } else {
        priority := Shr(ip[irq], 8 - prioBits);
      }
    }

    /** Any sequence of settings. */
    method SetAll(settings: seq<Setting>)
      requires Valid()
      modifies shp, ip
      ensures View() == Settled(old(View()), settings, prioBits)
    {
      hide Store, StoredByte;
      ghost var r := View();
      assert settings[..0] == [];
      for k := 0 to |settings|
        invariant View() == Settled(r, settings[..k], prioBits)
      {
        assert settings[..k + 1][..k] == settings[..k];
        SetPriority(settings[k].irq, settings[k].priority);
      }
      assert settings[..|settings|] == settings;
    }
  }
}
