/** MD5 as RFC 1321 defines it on whole messages. */
module Rfc1321 {
  import opened Word32
  import opened Blocks
  import LittleEndian

  datatype State = State(a: u32, b: u32, c: u32, d: u32)

  /** Section 3.3. */
  const INITIAL := State(0x6745_2301, 0xEFCD_AB89, 0x98BA_DCFE, 0x1032_5476)

  /* Section 3.4: the auxiliary functions, the step table and the steps */

  function F(x: u32, y: u32, z: u32): u32 { Or(And(x, y), And(Not(x), z)) }

  function G(x: u32, y: u32, z: u32): u32 { Or(And(x, z), And(y, Not(z))) }

  function H(x: u32, y: u32, z: u32): u32 { Xor(Xor(x, y), z) }

  function I(x: u32, y: u32, z: u32): u32 { Xor(y, Or(x, Not(z))) }

  /** Bit by bit: F and G choose, H is the parity, I flips y. */
  lemma AuxiliaryBits(x: u32, y: u32, z: u32, i: nat)
    requires i < 32
    ensures Bit(F(x, y, z), i) == if Bit(x, i) then Bit(y, i) else Bit(z, i)
    ensures Bit(G(x, y, z), i) == if Bit(z, i) then Bit(x, i) else Bit(y, i)
    ensures Bit(H(x, y, z), i) == ((Bit(x, i) != Bit(y, i)) != Bit(z, i))
    ensures Bit(I(x, y, z), i) == (Bit(y, i) != (Bit(x, i) || !Bit(z, i)))
  {
    hide Bit, Bitwise, Pow2, Not;
    NotBits(x, i);
    NotBits(z, i);
    BitwiseBit(AndGate, x, y, i);
    BitwiseBit(AndGate, Not(x), z, i);
    BitwiseBit(OrGate, And(x, y), And(Not(x), z), i);
    BitwiseBit(AndGate, x, z, i);
    BitwiseBit(AndGate, y, Not(z), i);
    BitwiseBit(OrGate, And(x, z), And(y, Not(z)), i);
    BitwiseBit(XorGate, x, y, i);
    BitwiseBit(XorGate, Xor(x, y), z, i);
    BitwiseBit(OrGate, x, Not(z), i);
    BitwiseBit(XorGate, y, Or(x, Not(z)), i);
  }

  function Auxiliary(round: nat, x: u32, y: u32, z: u32): u32
  {
    if round == 0 then F(x, y, z)
    else if round == 1 then G(x, y, z)
    else if round == 2 then H(x, y, z)
    else I(x, y, z)
  }

  /** What a step mixes in: word k, a rotation by s and the constant t. */
  datatype Row = Row(k: nat, s: nat, t: u32)

  /** The rows of section 3.4. */
  const ROUND_1: seq<Row> := [
    Row(0, 7, 0xd76aa478), Row(1, 12, 0xe8c7b756), Row(2, 17, 0x242070db), Row(3, 22, 0xc1bdceee),
    Row(4, 7, 0xf57c0faf), Row(5, 12, 0x4787c62a), Row(6, 17, 0xa8304613), Row(7, 22, 0xfd469501),
    Row(8, 7, 0x698098d8), Row(9, 12, 0x8b44f7af), Row(10, 17, 0xffff5bb1), Row(11, 22, 0x895cd7be),
    Row(12, 7, 0x6b901122), Row(13, 12, 0xfd987193), Row(14, 17, 0xa679438e), Row(15, 22, 0x49b40821)
  ]

  const ROUND_2: seq<Row> := [
    Row(1, 5, 0xf61e2562), Row(6, 9, 0xc040b340), Row(11, 14, 0x265e5a51), Row(0, 20, 0xe9b6c7aa),
    Row(5, 5, 0xd62f105d), Row(10, 9, 0x02441453), Row(15, 14, 0xd8a1e681), Row(4, 20, 0xe7d3fbc8),
    Row(9, 5, 0x21e1cde6), Row(14, 9, 0xc33707d6), Row(3, 14, 0xf4d50d87), Row(8, 20, 0x455a14ed),
    Row(13, 5, 0xa9e3e905), Row(2, 9, 0xfcefa3f8), Row(7, 14, 0x676f02d9), Row(12, 20, 0x8d2a4c8a)
  ]

  const ROUND_3: seq<Row> := [
    Row(5, 4, 0xfffa3942), Row(8, 11, 0x8771f681), Row(11, 16, 0x6d9d6122), Row(14, 23, 0xfde5380c),
    Row(1, 4, 0xa4beea44), Row(4, 11, 0x4bdecfa9), Row(7, 16, 0xf6bb4b60), Row(10, 23, 0xbebfbc70),
    Row(13, 4, 0x289b7ec6), Row(0, 11, 0xeaa127fa), Row(3, 16, 0xd4ef3085), Row(6, 23, 0x04881d05),
    Row(9, 4, 0xd9d4d039), Row(12, 11, 0xe6db99e5), Row(15, 16, 0x1fa27cf8), Row(2, 23, 0xc4ac5665)
  ]

  const ROUND_4: seq<Row> := [
    Row(0, 6, 0xf4292244), Row(7, 10, 0x432aff97), Row(14, 15, 0xab9423a7), Row(5, 21, 0xfc93a039),
    Row(12, 6, 0x655b59c3), Row(3, 10, 0x8f0ccc92), Row(10, 15, 0xffeff47d), Row(1, 21, 0x85845dd1),
    Row(8, 6, 0x6fa87e4f), Row(15, 10, 0xfe2ce6e0), Row(6, 15, 0xa3014314), Row(13, 21, 0x4e0811a1),
    Row(4, 6, 0xf7537e82), Row(11, 10, 0xbd3af235), Row(2, 15, 0x2ad7d2bb), Row(9, 21, 0xeb86d391)
  ]

  function StepRow(i: nat): Row
    requires i < 64
  {
    if i < 16 then ROUND_1[i]
    else if i < 32 then ROUND_2[i - 16]
    else if i < 48 then ROUND_3[i - 32]
    else ROUND_4[i - 48]
  }

  /* The word order and the rotation amounts of the rounds in closed form */

  lemma Round1Order(i: nat)
    requires 0 <= i < 16
    ensures var row := ROUND_1[i];
      row.k == i && row.k < 16 && row.s == [7, 12, 17, 22][i % 4]
  {
  }

  lemma Round2Order(i: nat)
    requires 16 <= i < 32
    ensures var row := ROUND_2[i - 16];
      row.k == (5 * i + 1) % 16 && row.k < 16 && row.s == [5, 9, 14, 20][i % 4]
  {
  }

  lemma Round3Order(i: nat)
    requires 32 <= i < 48
    ensures var row := ROUND_3[i - 32];
      row.k == (3 * i + 5) % 16 && row.k < 16 && row.s == [4, 11, 16, 23][i % 4]
  {
  }

  lemma Round4Order(i: nat)
    requires 48 <= i < 64
    ensures var row := ROUND_4[i - 48];
      row.k == 7 * i % 16 && row.k < 16 && row.s == [6, 10, 15, 21][i % 4]
  {
  }

  function WordIndex(i: nat): nat {
    if i < 16 then i else if i < 32 then (5 * i + 1) % 16 else if i < 48 then (3 * i + 5) % 16 else 7 * i % 16
  }

  function Shift(i: nat): nat
    requires i < 64
  {
    [[7, 12, 17, 22], [5, 9, 14, 20], [4, 11, 16, 23], [6, 10, 15, 21]][i / 16][i % 4]
  }

  lemma RowFormula(i: nat)
    requires i < 64
    ensures StepRow(i).k == WordIndex(i) < 16 && StepRow(i).s == Shift(i) && 0 < Shift(i) < 32
  {
    hide ROUND_1, ROUND_2, ROUND_3, ROUND_4;
    if i < 16 {
      Round1Order(i);
    } else if i < 32 {
      Round2Order(i);
    } else if i < 48 {
      Round3Order(i);
    } else {
      Round4Order(i);
    }
  }

  /** b + ((a + f + x + t) <<< s), the new value of register a. */
  function Mixed(f: u32, a: u32, b: u32, x: u32, s: nat, t: u32): u32
    requires s <= 32
  {
    Wrap(b + RotateLeft(Wrap(a + f + x + t), s))
  }

  /** Step i replaces register a and renames (a, b, c, d) to (d, a, b, c). */
  function Step(r: State, x: seq<u32>, i: nat): State
    requires |x| == 16 && i < 64
  {
    RowFormula(i);
    var row := StepRow(i);
    State(r.d, Mixed(Auxiliary(i / 16, r.b, r.c, r.d), r.a, r.b, x[row.k], row.s, row.t), r.b, r.c)
  }

  function Steps(r: State, x: seq<u32>, n: nat): State
    requires |x| == 16 && n <= 64
  {
    if n == 0 then r else Step(Steps(r, x, n - 1), x, n - 1)
  }

  function FeedForward(s: State, r: State): State {
    State(Wrap(s.a + r.a), Wrap(s.b + r.b), Wrap(s.c + r.c), Wrap(s.d + r.d))
  }

  function Compress(s: State, block: Block): State {
    FeedForward(s, Steps(s, LittleEndian.Words(block), 64))
  }

  /* Whole messages */

  /** Section 3.1: at least one byte, up to 56 modulo 64. */
  function PadLength(n: nat): (p: nat)
    ensures 1 <= p <= 64
  {
    1 + (119 - n % 64) % 64
  }

  /** A 64-bit count as eight bytes, low-order word first. */
  function CountBytes(count: u64): (b: seq<u8>)
    ensures |b| == 8
  {
    LittleEndian.Bytes([count % 0x1_0000_0000, count / 0x1_0000_0000])
  }

  function Pad(m: seq<u8>): seq<u8> {
    m + ([0x80] + Zeros(PadLength(|m|) - 1)) + CountBytes(BitLength(|m|))
  }

  /** Section 3.5. */
  function Output(s: State): seq<u8> {
    LittleEndian.Bytes([s.a, s.b, s.c, s.d])
  }

  lemma OutputWords(s: State)
    ensures |Output(s)| == 16 && LittleEndian.Words(Output(s)) == [s.a, s.b, s.c, s.d]
  {
    hide LittleEndian.Words, LittleEndian.Bytes;
    LittleEndian.WordsOfBytes([s.a, s.b, s.c, s.d]);
  }

  /** The bytes of section 3.3: up from 01 to ef, and down from fe to 10. */
  ghost predicate UpAndDown(bytes: seq<u8>) {
    |bytes| == 16 && forall i :: 0 <= i < 16 ==> bytes[i] == if i < 8 then 0x01 + 0x22 * i else 0xfe - 0x22 * (i - 8)
  }

  lemma InitialBytes()
    ensures UpAndDown(Output(INITIAL))
  {
    InitialWords();
    hide LittleEndian.WordBytes, LittleEndian.Bytes;
    StateBytes(INITIAL.a, INITIAL.b, INITIAL.c, INITIAL.d);
  }

  lemma InitialWords()
    ensures LittleEndian.WordBytes(INITIAL.a) == [0x01, 0x23, 0x45, 0x67]
    ensures LittleEndian.WordBytes(INITIAL.b) == [0x89, 0xab, 0xcd, 0xef]
    ensures LittleEndian.WordBytes(INITIAL.c) == [0xfe, 0xdc, 0xba, 0x98]
    ensures LittleEndian.WordBytes(INITIAL.d) == [0x76, 0x54, 0x32, 0x10]
  {
  }

  lemma StateBytes(a: u32, b: u32, c: u32, d: u32)
    ensures LittleEndian.Bytes([a, b, c, d])
      == LittleEndian.WordBytes(a) + LittleEndian.WordBytes(b) + LittleEndian.WordBytes(c) + LittleEndian.WordBytes(d)
  {
    hide LittleEndian.WordBytes, LittleEndian.Bytes;
    LittleEndian.BytesSnoc([], a);
    LittleEndian.BytesSnoc([a], b);
    LittleEndian.BytesSnoc([a, b], c);
    LittleEndian.BytesSnoc([a, b, c], d);
    assert LittleEndian.Bytes([]) == [];
    assert [] + [a] == [a] && [a] + [b] == [a, b] && [a, b] + [c] == [a, b, c] && [a, b, c] + [d] == [a, b, c, d];
  }

  function Digest(m: seq<u8>): seq<u8> { Output(Fold(Compress, INITIAL, Pad(m))) }
}
