/** Unsigned 8- and 32-bit words, with C's operators on them given bit by bit,
    and the arithmetic meaning of masks, shifts, disjoint ORs and rotations. */
module Word32 {

  type u8 = x: nat | x < 0x100

  type u16 = x: nat | x < 0x1_0000

  type u32 = x: nat | x < 0x1_0000_0000

  type u64 = x: nat | x < 0x1_0000_0000_0000_0000

  function Pow2(n: nat): (p: nat)
    ensures p >= 1
  {
    if n == 0 then 1 else 2 * Pow2(n - 1)
  }

  /* Bitwise operators */

  datatype Gate = AndGate | OrGate | XorGate
  {
    predicate On(p: bool, q: bool) {
      match this
      case AndGate => p && q
      case OrGate => p || q
      case XorGate => p != q
    }
  }

  /** Applies the gate to each pair of bits of x and y. */
  function Bitwise(g: Gate, x: nat, y: nat): nat
  {
    if x == 0 && y == 0 then 0
    else 2 * Bitwise(g, x / 2, y / 2) + if g.On(x % 2 == 1, y % 2 == 1) then 1 else 0
  }

  predicate Bit(x: nat, i: nat) {
    if i == 0 then x % 2 == 1 else Bit(x / 2, i - 1)
  }

  lemma BitwiseStep(g: Gate, x: nat, y: nat)
    ensures Bitwise(g, x, y) / 2 == Bitwise(g, x / 2, y / 2)
    ensures (Bitwise(g, x, y) % 2 == 1) == g.On(x % 2 == 1, y % 2 == 1)
  {
  }

  lemma {:induction false} BitwiseBit(g: Gate, x: nat, y: nat, i: nat)
    ensures Bit(Bitwise(g, x, y), i) == g.On(Bit(x, i), Bit(y, i))
  {
    hide Bitwise;
    BitwiseStep(g, x, y);
    if i > 0 {
      BitwiseBit(g, x / 2, y / 2, i - 1);
    }
  }

  lemma {:induction false} BitwiseBelow(g: Gate, x: nat, y: nat, k: nat)
    requires x < Pow2(k) && y < Pow2(k)
    ensures Bitwise(g, x, y) < Pow2(k)
  {
    if k > 0 {
      BitwiseBelow(g, x / 2, y / 2, k - 1);
    }
  }

  function Gated(g: Gate, x: u32, y: u32): u32 {
    Pow2Values();
    BitwiseBelow(g, x, y, 32);
    Bitwise(g, x, y)
  }

  function And(x: u32, y: u32): u32 { Gated(AndGate, x, y) }

  function Or(x: u32, y: u32): u32 { Gated(OrGate, x, y) }

  function Xor(x: u32, y: u32): u32 { Gated(XorGate, x, y) }

  function Not(x: u32): u32 { 0xFFFF_FFFF - x }

  lemma {:induction false} NotBit(x: nat, n: nat, i: nat)
    requires x < Pow2(n) && i < n
    ensures Bit(Pow2(n) - 1 - x, i) == !Bit(x, i)
  {
    DivModUnique(Pow2(n) - 1 - x, 2, Pow2(n - 1) - 1 - x / 2, 1 - x % 2);
    if i > 0 {
      NotBit(x / 2, n - 1, i - 1);
    }
  }

  lemma NotBits(x: u32, i: nat)
    requires i < 32
    ensures Bit(Not(x), i) == !Bit(x, i)
  {
    Pow2Values();
    NotBit(x, 32, i);
  }

  /* Wrapping arithmetic and shifts */

  /** A sum or product as a 32-bit register keeps it. */
  function Wrap(x: int): u32 { x % 0x1_0000_0000 }

  function Add(x: u32, y: u32): u32 { Wrap(x + y) }

  function Sub(x: u32, y: u32): u32 { Wrap(x - y) }

  /** Shifts move the bits one place at a time. */
  function Shl(x: u32, n: nat): u32 {
    if n == 0 then x else Wrap(2 * Shl(x, n - 1))
  }

  function Shr(x: u32, n: nat): u32 {
    if n == 0 then x else Shr(x / 2, n - 1)
  }

  /** Two words as one 64-bit number. */
  function Word64(low: u32, high: u32): u64 {
    var h: nat := high;
    0x1_0000_0000 * h + low
  }

  /* Division facts */

  lemma MulLe(a: int, b: int, c: nat)
    requires a <= b
    ensures a * c <= b * c
  {
    assert (b - a) * c >= 0;
    assert (b - a) * c == b * c - a * c;
  }

  lemma DivModUnique(x: int, d: nat, q: int, r: int)
    requires d > 0 && x == q * d + r && 0 <= r < d
    ensures x / d == q && x % d == r
  {
    if x / d < q {
      MulLe(x / d + 1, q, d);
    } else if q < x / d {
      MulLe(q + 1, x / d, d);
    }
  }

  lemma SmallMod(x: nat, m: nat)
    requires x < m
    ensures x % m == x
  {
    DivModUnique(x, m, 0, x);
  }

  lemma ModSum(x: int, y: int, d: nat)
    requires d > 0
    ensures (x % d + y) % d == (x + y) % d
  {
    var k := (x % d + y) / d;
    assert x + y == (x / d + k) * d + (x % d + y) % d;
    DivModUnique(x + y, d, x / d + k, (x % d + y) % d);
  }

  lemma Regroup(h: int, l: int, p: int, q: int)
    ensures (h * q + l) * p == h * (p * q) + l * p
  {
  }

  lemma FieldsFit(hi: nat, lo: nat, p: nat, s: nat)
    requires hi < p && lo < s
    ensures hi * s + lo < p * s
  {
    MulLe(hi + 1, p, s);
  }

  lemma ModOfProduct(x: nat, p: nat, s: nat)
    requires p > 0 && s > 0
    ensures p * s > 0 && x / (p * s) == x / s / p && x % (p * s) == x / s % p * s + x % s
  {
    var q := x / s;
    MulLe(1, p, s);
    FieldsFit(q % p, x % s, p, s);
    TwoDigits(x, q, x % s, q / p, q % p, p, s);
    DivModUnique(x, p * s, q / p, q % p * s + x % s);
  }

  lemma TwoDigits(x: int, q: int, r: int, h: int, l: int, p: int, s: int)
    requires x == q * s + r && q == h * p + l
    ensures x == h * (p * s) + (l * s + r)
  {
    Regroup(h, l, s, p);
  }

  lemma WrapSum(x: int, y: int)
    ensures Wrap(Wrap(x) + y) == Wrap(x + y)
  {
    ModSum(x, y, 0x1_0000_0000);
  }

  lemma {:induction false} Pow2Add(m: nat, n: nat)
    ensures Pow2(m + n) == Pow2(m) * Pow2(n)
  {
    if m > 0 {
      Pow2Add(m - 1, n);
    }
  }

  lemma Pow2Values()
    ensures Pow2(0) == 1 && Pow2(3) == 8 && Pow2(4) == 16 && Pow2(6) == 64 && Pow2(8) == 0x100 && Pow2(16) == 0x1_0000
    ensures Pow2(24) == 0x100_0000 && Pow2(29) == 0x2000_0000 && Pow2(32) == 0x1_0000_0000
  {
  }

  /* What masks, disjoint ORs and shifts compute */

  lemma AndMask(x: nat, k: nat)
    ensures Bitwise(AndGate, x, Pow2(k) - 1) == x % Pow2(k)
  {
    hide Bitwise, Pow2;
    AndKeepsLow(x, k);
    LowIsMod(x, k);
  }

  lemma ByteMask(x: u32)
    ensures And(x, 0xFF) == x % 0x100
  {
    Pow2Values();
    AndMask(x, 8);
  }

  /** The low k bits of x. */
  function Low(x: nat, k: nat): nat {
    if k == 0 then 0 else 2 * Low(x / 2, k - 1) + x % 2
  }

  lemma {:induction false} AndKeepsLow(x: nat, k: nat)
    ensures Bitwise(AndGate, x, Pow2(k) - 1) == Low(x, k)
  {
    if k == 0 {
      AndZero(x);
    } else {
      hide Bitwise;
      AndKeepsLow(x / 2, k - 1);
      BitwiseStep(AndGate, x, Pow2(k) - 1);
      assert (Pow2(k) - 1) / 2 == Pow2(k - 1) - 1;
    }
  }

  lemma {:induction false} LowIsMod(x: nat, k: nat)
    ensures Low(x, k) == x % Pow2(k)
  {
    if k > 0 {
      LowIsMod(x / 2, k - 1);
      HalveMod(x, Pow2(k - 1));
    }
  }

  lemma HalveMod(x: nat, p: nat)
    requires p > 0
    ensures x % (2 * p) == 2 * (x / 2 % p) + x % 2
  {
    var q, r := x / 2 / p, x / 2 % p;
    assert q * (2 * p) == 2 * (q * p);
    DivModUnique(x, 2 * p, q, 2 * r + x % 2);
  }

  lemma {:induction false} AndZero(x: nat)
    ensures Bitwise(AndGate, x, 0) == 0
  {
    if x > 0 {
      AndZero(x / 2);
    }
  }

  lemma {:induction false} OrZero(x: nat)
    ensures Bitwise(OrGate, x, 0) == Bitwise(OrGate, 0, x) == x
  {
    if x > 0 {
      OrZero(x / 2);
    }
  }

  lemma {:induction false} OrDisjoint(h: nat, l: nat, k: nat)
    requires l < Pow2(k)
    ensures Bitwise(OrGate, h * Pow2(k), l) == Bitwise(OrGate, l, h * Pow2(k)) == h * Pow2(k) + l
  {
    if k == 0 {
      OrZero(h);
    } else {
      assert h * Pow2(k) == 2 * (h * Pow2(k - 1));
      OrDisjoint(h, l / 2, k - 1);
    }
  }

  lemma OrIsSum(x: u32, y: u32, h: nat, k: nat)
    requires x == h * Pow2(k) && y < Pow2(k)
    ensures Or(x, y) == Or(y, x) == x + y
  {
    OrDisjoint(h, y, k);
  }

  lemma {:induction false} ShrIsQuotient(x: u32, n: nat)
    ensures Shr(x, n) == x / Pow2(n)
  {
    if n > 0 {
      ShrIsQuotient(x / 2, n - 1);
      HalveQuotient(x, Pow2(n - 1));
    }
  }

  lemma HalveQuotient(x: nat, p: nat)
    requires p > 0
    ensures x / (2 * p) == x / 2 / p
  {
    var q, r := x / 2 / p, x / 2 % p;
    assert q * (2 * p) == 2 * (q * p);
    DivModUnique(x, 2 * p, q, 2 * r + x % 2);
  }

  lemma ShrValues(x: u32)
    ensures Shr(x, 3) == x / 8 && Shr(x, 8) == x / 0x100 && Shr(x, 16) == x / 0x1_0000
    ensures Shr(x, 24) == x / 0x100_0000 && Shr(x, 29) == x / 0x2000_0000
  {
    hide Shr, Pow2;
    Pow2Values();
    ShrIsQuotient(x, 3);
    ShrIsQuotient(x, 8);
    ShrIsQuotient(x, 16);
    ShrIsQuotient(x, 24);
    ShrIsQuotient(x, 29);
  }

  lemma {:induction false} ShlIsProduct(x: u32, n: nat)
    ensures Shl(x, n) == Wrap(x * Pow2(n))
  {
    if n > 0 {
      hide Wrap;
      var p := Pow2(n - 1);
      ShlIsProduct(x, n - 1);
      WrapDouble(x * p);
      ProductDouble(x, p);
    }
  }

  lemma ProductDouble(x: int, p: int)
    ensures x * (2 * p) == 2 * (x * p)
  {
  }

  lemma WrapDouble(x: int)
    ensures Wrap(2 * Wrap(x)) == Wrap(2 * x)
  {
    ModSum(x, Wrap(x), 0x1_0000_0000);
    ModSum(x, x, 0x1_0000_0000);
  }

  /** A product that fits in a word is not truncated. */
  lemma ShlExact(x: u32, n: nat)
    requires x * Pow2(n) < 0x1_0000_0000
    ensures Shl(x, n) == x * Pow2(n)
  {
    hide Shl, Pow2;
    ShlIsProduct(x, n);
    assert 0 <= x * Pow2(n);
  }

  /** Shifting left keeps the low 32 - n bits of x. */
  lemma ShlKeepsLow(x: u32, n: nat)
    requires n <= 32
    ensures Shl(x, n) == x % Pow2(32 - n) * Pow2(n)
  {
    hide Shl;
    ShlIsProduct(x, n);
    Pow2Add(n, 32 - n);
    Pow2Values();
    ScaleMod(x, Pow2(n), Pow2(32 - n));
  }

  lemma ScaleMod(x: nat, p: nat, q: nat)
    requires p > 0 && q > 0
    ensures p * q > 0 && x * p % (p * q) == x % q * p
  {
    MulLe(1, p, q);
    MulLe(x % q, q - 1, p);
    Regroup(x / q, x % q, p, q);
    DivModUnique(x * p, p * q, x / q, x % q * p);
  }

  /* Rotation */

  function RotateLeft(x: u32, n: nat): u32
    requires n <= 32
  {
    Or(Shl(x, n), Shr(x, 32 - n))
  }

  function RotateRight(x: u32, n: nat): u32
    requires n <= 32
  {
    RotateLeft(x, 32 - n)
  }

  /** A left rotation swaps the high n bits with the low 32 - n. */
  lemma RotateLeftSwaps(x: u32, n: nat)
    requires n <= 32
    ensures x / Pow2(32 - n) < Pow2(n)
    ensures RotateLeft(x, n) == x % Pow2(32 - n) * Pow2(n) + x / Pow2(32 - n)
  {
    hide Shl, Shr, Or;
    assert x < Pow2(n) * Pow2(32 - n) by {
      Pow2Add(n, 32 - n);
      Pow2Values();
    }
    QuotientUnder(x, Pow2(n), Pow2(32 - n));
    ShlKeepsLow(x, n);
    ShrIsQuotient(x, 32 - n);
    OrIsSum(Shl(x, n), Shr(x, 32 - n), x % Pow2(32 - n), n);
  }

  lemma QuotientUnder(x: nat, p: nat, q: nat)
    requires q > 0 && x < p * q
    ensures x / q < p
  {
    if p <= x / q {
      MulLe(p, x / q, q);
    }
  }

  lemma RotateInverse(x: u32, n: nat)
    requires n <= 32
    ensures RotateRight(RotateLeft(x, n), n) == x
    ensures RotateLeft(RotateRight(x, n), n) == x
  {
    RotateThere(x, n);
    RotateThere(x, 32 - n);
  }

  lemma RotateThere(x: u32, n: nat)
    requires n <= 32
    ensures RotateLeft(RotateLeft(x, n), 32 - n) == x
  {
    RotateLeftSwaps(x, n);
    RotateLeftSwaps(RotateLeft(x, n), 32 - n);
    SwapTwice(x, Pow2(n), Pow2(32 - n));
  }

  lemma SwapTwice(x: nat, p: nat, q: nat)
    requires p > 0 && q > 0 && x / q < p
    ensures var y := x % q * p + x / q; y % p * q + y / p == x
  {
    DivModUnique(x % q * p + x / q, p, x % q, x / q);
  }
}
