/** The 64 steps permute the registers: subtracting, rotating right and
    subtracting again undoes a step, and undoing them in reverse order undoes
    them all. */
module Permutation {
  import opened Word32
  import opened LittleEndian
  import opened Blocks
  import opened Rfc1321

  function Unmixed(f: u32, m: u32, b: u32, x: u32, s: nat, t: u32): u32
    requires s <= 32
  {
    Wrap(RotateRight(Wrap(m - b), s) - f - x - t)
  }

  lemma WrapCancel(x: u32, y: int)
    ensures Wrap(Wrap(x + y) - y) == x
    ensures Wrap(y + Wrap(x - y)) == x
  {
    ModSum(x + y, -y, 0x1_0000_0000);
    ModSum(x - y, y, 0x1_0000_0000);
  }

  lemma MixedInverse(f: u32, a: u32, b: u32, x: u32, s: nat, t: u32)
    requires s <= 32
    ensures Unmixed(f, Mixed(f, a, b, x, s, t), b, x, s, t) == a
    ensures Mixed(f, Unmixed(f, a, b, x, s, t), b, x, s, t) == a
  {
    hide RotateLeft, RotateRight, Wrap;
    RotateInverse(Wrap(a + f + x + t), s);
    WrapCancel(RotateLeft(Wrap(a + f + x + t), s), b);
    WrapCancel(a, f + x + t);
    RotateInverse(Wrap(a - b), s);
    WrapCancel(RotateRight(Wrap(a - b), s), f + x + t);
    WrapCancel(a, b);
  }

  function Unstep(r: State, x: seq<u32>, i: nat): State
    requires |x| == 16 && i < 64
  {
    RowFormula(i);
    var row, b, c, d := StepRow(i), r.c, r.d, r.a;
    State(Unmixed(Auxiliary(i / 16, b, c, d), r.b, b, x[row.k], row.s, row.t), b, c, d)
  }

  lemma StepInverse(r: State, x: seq<u32>, i: nat)
    requires |x| == 16 && i < 64
    ensures Unstep(Step(r, x, i), x, i) == r
    ensures Step(Unstep(r, x, i), x, i) == r
  {
    hide StepRow, Auxiliary, Mixed, Unmixed;
    RowFormula(i);
    var row := StepRow(i);
    MixedInverse(Auxiliary(i / 16, r.b, r.c, r.d), r.a, r.b, x[row.k], row.s, row.t);
    MixedInverse(Auxiliary(i / 16, r.c, r.d, r.a), r.b, r.c, x[row.k], row.s, row.t);
  }

  function Unsteps(r: State, x: seq<u32>, n: nat): State
    requires |x| == 16 && n <= 64
    decreases n
  {
    hide Unstep;
    if n == 0 then r else Unsteps(Unstep(r, x, n - 1), x, n - 1)
  }

  lemma {:induction false} StepsInverse(r: State, x: seq<u32>, n: nat)
    requires |x| == 16 && n <= 64
    ensures Unsteps(Steps(r, x, n), x, n) == r
    ensures Steps(Unsteps(r, x, n), x, n) == r
    decreases n
  {
    hide Step, Unstep;
    if n > 0 {
      StepsInverse(r, x, n - 1);
      StepInverse(Steps(r, x, n - 1), x, n - 1);
      StepsInverse(Unstep(r, x, n - 1), x, n - 1);
      StepInverse(r, x, n - 1);
    }
  }

  /** Subtracting the old state and undoing all 64 steps gives the old state back. */
  lemma CompressInverse(s: State, block: Block)
    ensures var c := Compress(s, block);
      Unsteps(State(Wrap(c.a - s.a), Wrap(c.b - s.b), Wrap(c.c - s.c), Wrap(c.d - s.d)), Words(block), 64) == s
  {
    hide Words, Steps, Unsteps, Wrap;
    var r := Steps(s, Words(block), 64);
    WrapCancel(r.a, s.a);
    WrapCancel(r.b, s.b);
    WrapCancel(r.c, s.c);
    WrapCancel(r.d, s.d);
    StepsInverse(s, Words(block), 64);
  }

  /** Registers that differ before the steps differ after them. */
  lemma StepsInjective(r: State, q: State, x: seq<u32>, n: nat)
    requires |x| == 16 && n <= 64
    ensures Steps(r, x, n) == Steps(q, x, n) <==> r == q
  {
    hide Steps, Unsteps;
    StepsInverse(r, x, n);
    StepsInverse(q, x, n);
  }
}
