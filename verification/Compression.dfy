/** The compression step of md5.c, unrolled into 64 macro calls, and its
    agreement with the table-driven loop of RFC 1321. */
module Compression {
  import opened Word32
  import opened Rfc1321
  import LittleEndian
  import Codec

  /** Three wrapping updates of the first argument: the body all four step
      macros share, f being their auxiliary function's value. */
  method Accumulate(a0: u32, b: u32, f: u32, x: u32, s: nat, ac: u32) returns (a: u32)
    requires s <= 32
    ensures a == Mixed(f, a0, b, x, s, ac) == Wrap(b + RotateLeft(Wrap(a0 + f + x + ac), s))
  {
    hide Wrap, RotateLeft;
    a := a0;
    WrapSum(f + x, ac);
    WrapSum(f + x + ac, a);
    a := Add(a, Add(Add(f, x), ac));
    a := RotateLeft(a, s);
    a := Add(a, b);
  }

  /** Word, shift and constant are those of step i. */
  ghost predicate IsStep(w: seq<u32>, i: nat, x: u32, s: nat, ac: u32)
    requires |w| == 16 && i < 64
  {
    RowFormula(i);
    var row := StepRow(i);
    x == w[row.k] && s == row.s && ac == row.t
  }

  /* The step macros of md5.h. The ghost parameters say which step of the RFC a
     call is meant to be: r and w are the registers and words at the start, and i
     counts the steps before it. */

  method FF(a0: u32, b: u32, c: u32, d: u32, x: u32, s: nat, ac: u32, ghost r: State, ghost w: seq<u32>, ghost i: nat)
    returns (a: u32)
    requires s <= 32 && |w| == 16 && 0 <= i < 16
    ensures a == Mixed(F(b, c, d), a0, b, x, s, ac)
    ensures IsStep(w, i, x, s, ac) && State(a0, b, c, d) == Steps(r, w, i) ==> State(d, a, b, c) == Steps(r, w, i + 1)
  {
    hide Mixed, F, StepRow;
    RowFormula(i);
    a := Accumulate(a0, b, F(b, c, d), x, s, ac);
  }

  method GG(a0: u32, b: u32, c: u32, d: u32, x: u32, s: nat, ac: u32, ghost r: State, ghost w: seq<u32>, ghost i: nat)
    returns (a: u32)
    requires s <= 32 && |w| == 16 && 16 <= i < 32
    ensures a == Mixed(G(b, c, d), a0, b, x, s, ac)
    ensures IsStep(w, i, x, s, ac) && State(a0, b, c, d) == Steps(r, w, i) ==> State(d, a, b, c) == Steps(r, w, i + 1)
  {
    hide Mixed, G, StepRow;
    RowFormula(i);
    a := Accumulate(a0, b, G(b, c, d), x, s, ac);
  }

  method HH(a0: u32, b: u32, c: u32, d: u32, x: u32, s: nat, ac: u32, ghost r: State, ghost w: seq<u32>, ghost i: nat)
    returns (a: u32)
    requires s <= 32 && |w| == 16 && 32 <= i < 48
    ensures a == Mixed(H(b, c, d), a0, b, x, s, ac)
    ensures IsStep(w, i, x, s, ac) && State(a0, b, c, d) == Steps(r, w, i) ==> State(d, a, b, c) == Steps(r, w, i + 1)
  {
    hide Mixed, H, StepRow;
    RowFormula(i);
    a := Accumulate(a0, b, H(b, c, d), x, s, ac);
  }

  method II(a0: u32, b: u32, c: u32, d: u32, x: u32, s: nat, ac: u32, ghost r: State, ghost w: seq<u32>, ghost i: nat)
    returns (a: u32)
    requires s <= 32 && |w| == 16 && 48 <= i < 64
    ensures a == Mixed(I(b, c, d), a0, b, x, s, ac)
    ensures IsStep(w, i, x, s, ac) && State(a0, b, c, d) == Steps(r, w, i) ==> State(d, a, b, c) == Steps(r, w, i + 1)
  {
    hide Mixed, I, StepRow;
    RowFormula(i);
    a := Accumulate(a0, b, I(b, c, d), x, s, ac);
  }

  /* The 64 calls, sixteen to a round */

  method Round1(a0: u32, b0: u32, c0: u32, d0: u32, x: array<u32>, ghost r: State, ghost w: seq<u32>)
    returns (a: u32, b: u32, c: u32, d: u32)
    requires |w| == 16 && x.Length == 64 && x[..16] == w
    requires State(a0, b0, c0, d0) == Steps(r, w, 0)
    ensures State(a, b, c, d) == Steps(r, w, 16)
  {
    hide Steps, Mixed, F;
    a, b, c, d := a0, b0, c0, d0;
    a := FF(a, b, c, d, x[0], 7, 0xd76aa478, r, w, 0);
    d := FF(d, a, b, c, x[1], 12, 0xe8c7b756, r, w, 1);
    c := FF(c, d, a, b, x[2], 17, 0x242070db, r, w, 2);
    b := FF(b, c, d, a, x[3], 22, 0xc1bdceee, r, w, 3);
    a := FF(a, b, c, d, x[4], 7, 0xf57c0faf, r, w, 4);
    d := FF(d, a, b, c, x[5], 12, 0x4787c62a, r, w, 5);
    c := FF(c, d, a, b, x[6], 17, 0xa8304613, r, w, 6);
    b := FF(b, c, d, a, x[7], 22, 0xfd469501, r, w, 7);
    a := FF(a, b, c, d, x[8], 7, 0x698098d8, r, w, 8);
    d := FF(d, a, b, c, x[9], 12, 0x8b44f7af, r, w, 9);
    c := FF(c, d, a, b, x[10], 17, 0xffff5bb1, r, w, 10);
    b := FF(b, c, d, a, x[11], 22, 0x895cd7be, r, w, 11);
    a := FF(a, b, c, d, x[12], 7, 0x6b901122, r, w, 12);
    d := FF(d, a, b, c, x[13], 12, 0xfd987193, r, w, 13);
    c := FF(c, d, a, b, x[14], 17, 0xa679438e, r, w, 14);
    b := FF(b, c, d, a, x[15], 22, 0x49b40821, r, w, 15);
  }

  method Round2(a0: u32, b0: u32, c0: u32, d0: u32, x: array<u32>, ghost r: State, ghost w: seq<u32>)
    returns (a: u32, b: u32, c: u32, d: u32)
    requires |w| == 16 && x.Length == 64 && x[..16] == w
    requires State(a0, b0, c0, d0) == Steps(r, w, 16)
    ensures State(a, b, c, d) == Steps(r, w, 32)
  {
    hide Steps, Mixed, G;
    a, b, c, d := a0, b0, c0, d0;
    a := GG(a, b, c, d, x[1], 5, 0xf61e2562, r, w, 16);
    d := GG(d, a, b, c, x[6], 9, 0xc040b340, r, w, 17);
    c := GG(c, d, a, b, x[11], 14, 0x265e5a51, r, w, 18);
    b := GG(b, c, d, a, x[0], 20, 0xe9b6c7aa, r, w, 19);
    a := GG(a, b, c, d, x[5], 5, 0xd62f105d, r, w, 20);
    d := GG(d, a, b, c, x[10], 9, 0x2441453, r, w, 21);
    c := GG(c, d, a, b, x[15], 14, 0xd8a1e681, r, w, 22);
    b := GG(b, c, d, a, x[4], 20, 0xe7d3fbc8, r, w, 23);
    a := GG(a, b, c, d, x[9], 5, 0x21e1cde6, r, w, 24);
    d := GG(d, a, b, c, x[14], 9, 0xc33707d6, r, w, 25);
    c := GG(c, d, a, b, x[3], 14, 0xf4d50d87, r, w, 26);
    b := GG(b, c, d, a, x[8], 20, 0x455a14ed, r, w, 27);
    a := GG(a, b, c, d, x[13], 5, 0xa9e3e905, r, w, 28);
    d := GG(d, a, b, c, x[2], 9, 0xfcefa3f8, r, w, 29);
    c := GG(c, d, a, b, x[7], 14, 0x676f02d9, r, w, 30);
    b := GG(b, c, d, a, x[12], 20, 0x8d2a4c8a, r, w, 31);
  }

  method Round3(a0: u32, b0: u32, c0: u32, d0: u32, x: array<u32>, ghost r: State, ghost w: seq<u32>)
    returns (a: u32, b: u32, c: u32, d: u32)
    requires |w| == 16 && x.Length == 64 && x[..16] == w
    requires State(a0, b0, c0, d0) == Steps(r, w, 32)
    ensures State(a, b, c, d) == Steps(r, w, 48)
  {
    hide Steps, Mixed, H;
    a, b, c, d := a0, b0, c0, d0;
    a := HH(a, b, c, d, x[5], 4, 0xfffa3942, r, w, 32);
    d := HH(d, a, b, c, x[8], 11, 0x8771f681, r, w, 33);
    c := HH(c, d, a, b, x[11], 16, 0x6d9d6122, r, w, 34);
    b := HH(b, c, d, a, x[14], 23, 0xfde5380c, r, w, 35);
    a := HH(a, b, c, d, x[1], 4, 0xa4beea44, r, w, 36);
    d := HH(d, a, b, c, x[4], 11, 0x4bdecfa9, r, w, 37);
    c := HH(c, d, a, b, x[7], 16, 0xf6bb4b60, r, w, 38);
    b := HH(b, c, d, a, x[10], 23, 0xbebfbc70, r, w, 39);
    a := HH(a, b, c, d, x[13], 4, 0x289b7ec6, r, w, 40);
    d := HH(d, a, b, c, x[0], 11, 0xeaa127fa, r, w, 41);
    c := HH(c, d, a, b, x[3], 16, 0xd4ef3085, r, w, 42);
    b := HH(b, c, d, a, x[6], 23, 0x4881d05, r, w, 43);
    a := HH(a, b, c, d, x[9], 4, 0xd9d4d039, r, w, 44);
    d := HH(d, a, b, c, x[12], 11, 0xe6db99e5, r, w, 45);
    c := HH(c, d, a, b, x[15], 16, 0x1fa27cf8, r, w, 46);
    b := HH(b, c, d, a, x[2], 23, 0xc4ac5665, r, w, 47);
  }

  method Round4(a0: u32, b0: u32, c0: u32, d0: u32, x: array<u32>, ghost r: State, ghost w: seq<u32>)
    returns (a: u32, b: u32, c: u32, d: u32)
    requires |w| == 16 && x.Length == 64 && x[..16] == w
    requires State(a0, b0, c0, d0) == Steps(r, w, 48)
    ensures State(a, b, c, d) == Steps(r, w, 64)
  {
    hide Steps, Mixed, I;
    a, b, c, d := a0, b0, c0, d0;
    a := II(a, b, c, d, x[0], 6, 0xf4292244, r, w, 48);
    d := II(d, a, b, c, x[7], 10, 0x432aff97, r, w, 49);
    c := II(c, d, a, b, x[14], 15, 0xab9423a7, r, w, 50);
    b := II(b, c, d, a, x[5], 21, 0xfc93a039, r, w, 51);
    a := II(a, b, c, d, x[12], 6, 0x655b59c3, r, w, 52);
    d := II(d, a, b, c, x[3], 10, 0x8f0ccc92, r, w, 53);
    c := II(c, d, a, b, x[10], 15, 0xffeff47d, r, w, 54);
    b := II(b, c, d, a, x[1], 21, 0x85845dd1, r, w, 55);
    a := II(a, b, c, d, x[8], 6, 0x6fa87e4f, r, w, 56);
    d := II(d, a, b, c, x[15], 10, 0xfe2ce6e0, r, w, 57);
    c := II(c, d, a, b, x[6], 15, 0xa3014314, r, w, 58);
    b := II(b, c, d, a, x[13], 21, 0x4e0811a1, r, w, 59);
    a := II(a, b, c, d, x[4], 6, 0xf7537e82, r, w, 60);
    d := II(d, a, b, c, x[11], 10, 0xbd3af235, r, w, 61);
    c := II(c, d, a, b, x[2], 15, 0x2ad7d2bb, r, w, 62);
    b := II(b, c, d, a, x[9], 21, 0xeb86d391, r, w, 63);
  }

  ghost function Registers(state: array<u32>): State
    requires state.Length == 4
    reads state
  {
    State(state[0], state[1], state[2], state[3])
  }

  method Transform(state: array<u32>, block: array<u8>, offset: nat)
    requires state.Length == 4 && offset + 64 <= block.Length
    modifies state
    ensures Registers(state) == Compress(old(Registers(state)), block[offset..offset + 64])
  {
    hide Steps, Wrap, LittleEndian.Words;
    var a, b, c, d := state[0], state[1], state[2], state[3];
    var x := new u32[64];
    Codec.Decode(x, block, offset, 64);
    ghost var r := State(a, b, c, d);
    ghost var w := LittleEndian.Words(block[offset..offset + 64]);
    assert x[..16] == w;
    NoSteps(r, w);
    a, b, c, d := Round1(a, b, c, d, x, r, w);
    a, b, c, d := Round2(a, b, c, d, x, r, w);
    a, b, c, d := Round3(a, b, c, d, x, r, w);
    a, b, c, d := Round4(a, b, c, d, x, r, w);
    state[0] := Add(state[0], a);
    state[1] := Add(state[1], b);
    state[2] := Add(state[2], c);
    state[3] := Add(state[3], d);
  }

  lemma NoSteps(r: State, w: seq<u32>)
    requires |w| == 16
    ensures Steps(r, w, 0) == r
  {
  }
}
