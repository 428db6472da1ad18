/** The constants of section 3.4 of RFC 1321 against their definition: the
    integer part of 4294967296 times |sin(i)|, i in radians from 1 to 64. */
module Sines {
  import opened Word32
  import opened Rfc1321

  /* Sine and cosine of natural numbers */

  datatype Angle = Angle(sin: real, cos: real)

  function Factorial(n: nat): (f: nat)
    ensures f > 0
  {
    if n == 0 then 1 else n * Factorial(n - 1)
  }

  /** The first k terms of the power series of sine (first is 1) or cosine
      (first is 0) at 1: every second 1 / n!, with alternating signs. */
  function Partial(first: nat, k: nat): real {
    if k == 0 then 0.0 else
      var term := 1.0 / Factorial(first + 2 * (k - 1)) as real;
      Partial(first, k - 1) + if k % 2 == 1 then term else -term
  }

  /** An alternating series converges to what lies between its partial sums. */
  ghost predicate IsSum(x: real, first: nat) {
    forall k: nat :: if k % 2 == 0 then Partial(first, k) <= x else x <= Partial(first, k)
  }

  lemma TermsDecrease(n: nat)
    ensures 1.0 / Factorial(n + 2) as real <= 1.0 / Factorial(n) as real
  {
    var f := Factorial(n);
    assert Factorial(n + 2) == (n + 2) * ((n + 1) * f);
    MulLe(1, n + 1, f);
    MulLe(1, n + 2, (n + 1) * f);
    ReciprocalOrder(f as real, Factorial(n + 2) as real);
  }

  lemma ReciprocalOrder(x: real, y: real)
    requires 0.0 < x <= y
    ensures 1.0 / y <= 1.0 / x
  {
  }

  lemma NextPartials(first: nat, k: nat)
    ensures if k % 2 == 0 then Partial(first, k) <= Partial(first, k + 1) && Partial(first, k) <= Partial(first, k + 2)
            else Partial(first, k + 2) <= Partial(first, k)
  {
    hide Factorial;
    TermsDecrease(first + 2 * k);
    assert 1.0 / Factorial(first + 2 * k) as real >= 0.0;
  }

  lemma {:induction false} PartialsApproach(first: nat, k: nat, d: nat)
    ensures if k % 2 == 0 then Partial(first, k) <= Partial(first, k + 2 * d)
            else Partial(first, k + 2 * d) <= Partial(first, k)
  {
    if d > 0 {
      hide Partial;
      var n := k + 2 * (d - 1);
      assert n % 2 == k % 2;
      PartialsApproach(first, k, d - 1);
      NextPartials(first, n);
    }
  }

  /** The partial sums that bound a sum from below stay below those that bound
      it from above, so that there always is something between them. */
  lemma PartialsNested(first: nat, j: nat, k: nat)
    requires j % 2 == 0 && k % 2 == 1
    ensures Partial(first, j) <= Partial(first, k)
  {
    hide Partial;
    PartialsApproach(first, j, (k - 1) / 2);
    PartialsApproach(first, k, j / 2);
    NextPartials(first, j + k - 1);
  }

  ghost predicate IsRadian(u: Angle) { IsSum(u.sin, 1) && IsSum(u.cos, 0) }

  /** The addition formulas. */
  function Turn(p: Angle, q: Angle): Angle {
    Angle(p.sin * q.cos + p.cos * q.sin, p.cos * q.cos - p.sin * q.sin)
  }

  /** The sine and cosine of n times the angle u. */
  function Turned(u: Angle, n: nat): Angle {
    if n == 0 then Angle(0.0, 1.0) else Turn(Turned(u, n - 1), u)
  }

  lemma TurnAssociates(p: Angle, q: Angle, r: Angle)
    ensures Turn(Turn(p, q), r) == Turn(p, Turn(q, r))
  {
  }

  lemma {:induction false} TurnedSum(u: Angle, m: nat, n: nat)
    ensures Turned(u, m + n) == Turn(Turned(u, m), Turned(u, n))
  {
    if n > 0 {
      hide Turn;
      TurnedSum(u, m, n - 1);
      TurnAssociates(Turned(u, m), Turned(u, n - 1), u);
    } else {
      assert Turned(u, 0) == Angle(0.0, 1.0);
    }
  }

  /* Approximations */

  predicate Near(x: real, y: real, e: real) { -e <= x - y <= e }

  predicate NearAngle(p: Angle, q: Angle, e: real) { Near(p.sin, q.sin, e) && Near(p.cos, q.cos, e) }

  predicate Bounded(p: Angle) { Near(p.sin, 0.0, 1.0) && Near(p.cos, 0.0, 1.0) }

  /** Named, so that proofs can leave its meaning out of sight. */
  function Times(x: real, y: real): real { x * y }

  lemma SmallProduct(x: real, y: real, d: real, e: real)
    requires Near(x, 0.0, d) && Near(y, 0.0, e)
    ensures Near(Times(x, y), 0.0, d * e)
  {
    assert (d - x) * (e + y) >= 0.0 && (d + x) * (e - y) >= 0.0;
    assert (d - x) * (e - y) >= 0.0 && (d + x) * (e + y) >= 0.0;
  }

  lemma NearProduct(x: real, y: real, x': real, y': real, e: real)
    requires Near(x, x', e) && Near(y, y', e) && e <= 1.0
    requires Near(x', 0.0, 1.0) && Near(y', 0.0, 1.0)
    ensures Near(Times(x, y), Times(x', y'), 3.0 * e)
  {
    assert Near(x - x', 0.0, e) && Near(y - y', 0.0, e) && Near(y, 0.0, 2.0);
    hide Times, Near;
    SmallProduct(x - x', y, e, 2.0);
    SmallProduct(x', y - y', 1.0, e);
    TimesDifference(x, y, x', y');
    NearParts(Times(x, y), Times(x', y'), Times(x - x', y), Times(x', y - y'), e);
  }

  lemma TimesDifference(x: real, y: real, x': real, y': real)
    ensures Times(x, y) - Times(x', y') == Times(x - x', y) + Times(x', y - y')
  {
  }

  lemma NearParts(x: real, y: real, a: real, b: real, e: real)
    requires x - y == a + b && Near(a, 0.0, e * 2.0) && Near(b, 0.0, 1.0 * e)
    ensures Near(x, y, 3.0 * e)
  {
  }

  lemma NearBoth(x: real, y: real, x': real, y': real, d: real)
    requires Near(x, x', d) && Near(y, y', d)
    ensures Near(x + y, x' + y', 2.0 * d) && Near(x - y, x' - y', 2.0 * d)
  {
  }

  lemma TurnTimes(p: Angle, q: Angle)
    ensures Turn(p, q).sin == Times(p.sin, q.cos) + Times(p.cos, q.sin)
    ensures Turn(p, q).cos == Times(p.cos, q.cos) - Times(p.sin, q.sin)
  {
  }

  lemma NearTurn(p: Angle, q: Angle, p': Angle, q': Angle, e: real)
    requires NearAngle(p, p', e) && NearAngle(q, q', e) && e <= 1.0 && Bounded(p') && Bounded(q')
    ensures NearAngle(Turn(p, q), Turn(p', q'), 6.0 * e)
  {
    hide Near, Times;
    TurnTimes(p, q);
    TurnTimes(p', q');
    hide Turn;
    NearProduct(p.sin, q.cos, p'.sin, q'.cos, e);
    NearProduct(p.cos, q.sin, p'.cos, q'.sin, e);
    NearProduct(p.cos, q.cos, p'.cos, q'.cos, e);
    NearProduct(p.sin, q.sin, p'.sin, q'.sin, e);
    NearBoth(Times(p.sin, q.cos), Times(p.cos, q.sin), Times(p'.sin, q'.cos), Times(p'.cos, q'.sin), 3.0 * e);
    NearBoth(Times(p.cos, q.cos), Times(p.sin, q.sin), Times(p'.cos, q'.cos), Times(p'.sin, q'.sin), 3.0 * e);
    assert 2.0 * (3.0 * e) == 6.0 * e;
  }

  /** An addition costs a decimal digit. */
  lemma NearSum(u: Angle, m: nat, n: nat, p: Angle, q: Angle, r: Angle, e: real)
    requires NearAngle(Turned(u, m), p, e) && NearAngle(Turned(u, n), q, e) && e <= 1.0
    requires Bounded(p) && Bounded(q) && NearAngle(Turn(p, q), r, 4.0 * e)
    ensures NearAngle(Turned(u, m + n), r, 10.0 * e)
  {
    hide Turn, Turned;
    TurnedSum(u, m, n);
    NearTurn(Turned(u, m), Turned(u, n), p, q, e);
  }

  /** The angles 1 to 8. */
  const ONES: seq<Angle> := [
    Angle(0.8414709848078965066525, 0.5403023058681397174009),
    Angle(0.9092974268256816953960, -0.4161468365471423869976),
    Angle(0.1411200080598672221007, -0.9899924966004454572716),
    Angle(-0.7568024953079282513726, -0.6536436208636119146392),
    Angle(-0.9589242746631384688932, 0.2836621854632262644666),
    Angle(-0.2794154981989258728116, 0.9601702866503660205457),
    Angle(0.6569865987187890903970, 0.7539022543433046381412),
    Angle(0.9893582466233817778081, -0.1455000338086135258688)
  ]

  /** The angles 0, 8 and so on up to 56. */
  const EIGHTS: seq<Angle> := [
    Angle(0.0000000000000000000000, 1.0000000000000000000000),
    Angle(0.9893582466233817778081, -0.1455000338086135258688),
    Angle(-0.2879033166650652947845, -0.9576594803233846418996),
    Angle(-0.9055783620066238451358, 0.4241790073369969759371),
    Angle(0.5514266812416905506616, 0.8342233605065102722155),
    Angle(0.7451131604793487869877, -0.6669380616522618443841),
    Angle(-0.7682546613236667990450, -0.6401443394691997313129),
    Angle(-0.5215510020869118801874, 0.8532201077225841139697)
  ]

  lemma Factorials()
    ensures Factorial(0) == 1 && Factorial(1) == 1
    ensures Factorial(2) == 2 && Factorial(3) == 6
    ensures Factorial(4) == 24 && Factorial(5) == 120
    ensures Factorial(6) == 720 && Factorial(7) == 5040
    ensures Factorial(8) == 40320 && Factorial(9) == 362880
    ensures Factorial(10) == 3628800 && Factorial(11) == 39916800
    ensures Factorial(12) == 479001600 && Factorial(13) == 6227020800
    ensures Factorial(14) == 87178291200 && Factorial(15) == 1307674368000
    ensures Factorial(16) == 20922789888000 && Factorial(17) == 355687428096000
    ensures Factorial(18) == 6402373705728000 && Factorial(19) == 121645100408832000
    ensures Factorial(20) == 2432902008176640000 && Factorial(21) == 51090942171709440000
    ensures Factorial(22) == 1124000727777607680000 && Factorial(23) == 25852016738884976640000
  {
  }

  lemma SinePartials()
    ensures ONES[0].sin - 0.00000000000000000001 <= Partial(1, 12)
    ensures Partial(1, 11) <= ONES[0].sin + 0.00000000000000000001
  {
    Factorials();
    hide Factorial;
  }

  lemma CosinePartials()
    ensures ONES[0].cos - 0.00000000000000000001 <= Partial(0, 12)
    ensures Partial(0, 11) <= ONES[0].cos + 0.00000000000000000001
  {
    Factorials();
    hide Factorial;
  }

  lemma NearRadian(u: Angle)
    requires IsRadian(u)
    ensures NearAngle(u, ONES[0], 0.00000000000000000001)
  {
    hide Partial;
    SinePartials();
    CosinePartials();
    assert Partial(1, 12) <= u.sin <= Partial(1, 11);
    assert Partial(0, 12) <= u.cos <= Partial(0, 11);
  }

  lemma NearOnes(u: Angle)
    requires IsRadian(u)
    ensures forall n :: 1 <= n <= 8 ==> NearAngle(Turned(u, n), ONES[n - 1], 0.00000000000000001)
  {
    NearRadian(u);
    assert Turned(u, 1) == u;
    hide Turned, IsRadian;
    NearSum(u, 1, 1, ONES[0], ONES[0], ONES[1], 0.00000000000000000001);
    NearSum(u, 2, 1, ONES[1], ONES[0], ONES[2], 0.0000000000000000001);
    NearSum(u, 2, 2, ONES[1], ONES[1], ONES[3], 0.0000000000000000001);
    NearSum(u, 4, 1, ONES[3], ONES[0], ONES[4], 0.000000000000000001);
    NearSum(u, 4, 2, ONES[3], ONES[1], ONES[5], 0.000000000000000001);
    NearSum(u, 4, 3, ONES[3], ONES[2], ONES[6], 0.000000000000000001);
    NearSum(u, 4, 4, ONES[3], ONES[3], ONES[7], 0.000000000000000001);
  }

  lemma NearEights(u: Angle)
    requires IsRadian(u)
    ensures forall k :: 0 <= k < 8 ==> NearAngle(Turned(u, 8 * k), EIGHTS[k], 0.00000000000001)
  {
    NearOnes(u);
    assert Turned(u, 0) == EIGHTS[0];
    hide Turned, IsRadian;
    assert EIGHTS[1] == ONES[7];
    NearSum(u, 8, 8, EIGHTS[1], EIGHTS[1], EIGHTS[2], 0.00000000000000001);
    NearSum(u, 16, 8, EIGHTS[2], EIGHTS[1], EIGHTS[3], 0.0000000000000001);
    NearSum(u, 16, 16, EIGHTS[2], EIGHTS[2], EIGHTS[4], 0.0000000000000001);
    NearSum(u, 32, 8, EIGHTS[4], EIGHTS[1], EIGHTS[5], 0.000000000000001);
    NearSum(u, 32, 16, EIGHTS[4], EIGHTS[2], EIGHTS[6], 0.000000000000001);
    NearSum(u, 32, 24, EIGHTS[4], EIGHTS[3], EIGHTS[7], 0.000000000000001);
  }

  /* The table */

  /** The integer part of 4294967296 times |x|. */
  function Scaled(x: real): int {
    (4294967296.0 * if x < 0.0 then -x else x).Floor
  }

  /** A product of approximations well inside the interval of one constant. */
  predicate Inside(x: real, t: u32) {
    t as real + 0.01 <= 4294967296.0 * x <= t as real + 0.99
  }

  predicate Matches(p: Angle, q: Angle, t: u32) {
    Inside(Turn(p, q).sin, t) || Inside(-Turn(p, q).sin, t)
  }

  lemma ScaledMatch(u: Angle, m: nat, n: nat, p: Angle, q: Angle, t: u32)
    requires NearAngle(Turned(u, m), p, 0.00000000000001) && NearAngle(Turned(u, n), q, 0.00000000000001)
    requires Bounded(p) && Bounded(q) && Matches(p, q, t)
    ensures t == Scaled(Turned(u, m + n).sin)
  {
    hide Turned, Turn;
    NearSum(u, m, n, p, q, Turn(p, q), 0.00000000000001);
  }

  ghost predicate RowMatches(k: nat)
    requires k < 8
  {
    forall n :: 0 <= n < 8 ==> Matches(EIGHTS[k], ONES[n], StepRow(8 * k + n).t)
  }

  lemma Row0Matches()
    ensures RowMatches(0)
  {
  }

  lemma Row1Matches()
    ensures RowMatches(1)
  {
  }

  lemma Row2Matches()
    ensures RowMatches(2)
  {
  }

  lemma Row3Matches()
    ensures RowMatches(3)
  {
  }

  lemma Row4Matches()
    ensures RowMatches(4)
  {
  }

  lemma Row5Matches()
    ensures RowMatches(5)
  {
  }

  lemma Row6Matches()
    ensures RowMatches(6)
  {
  }

  lemma Row7Matches()
    ensures RowMatches(7)
  {
  }

  lemma AllMatch(k: nat, n: nat)
    requires k < 8 && n < 8
    ensures Matches(EIGHTS[k], ONES[n], StepRow(8 * k + n).t)
  {
    hide Matches, StepRow;
    assert RowMatches(k) by {
      hide RowMatches;
      if k == 0 {
        Row0Matches();
      } else if k == 1 {
        Row1Matches();
      } else if k == 2 {
        Row2Matches();
      } else if k == 3 {
        Row3Matches();
      } else if k == 4 {
        Row4Matches();
      } else if k == 5 {
        Row5Matches();
      } else if k == 6 {
        Row6Matches();
      } else {
        Row7Matches();
      }
    }
  }

  lemma Looser(p: Angle, q: Angle)
    requires NearAngle(p, q, 0.00000000000000001)
    ensures NearAngle(p, q, 0.00000000000001)
  {
  }

  lemma AnchorsBounded(k: nat)
    requires k < 8
    ensures Bounded(ONES[k]) && Bounded(EIGHTS[k])
  {
  }

  lemma SineOfSum(u: Angle, k: nat, n: nat)
    requires IsRadian(u) && k < 8 && n < 8
    ensures StepRow(8 * k + n).t == Scaled(Turned(u, 8 * k + (n + 1)).sin)
  {
    NearOnes(u);
    assert NearAngle(Turned(u, n + 1), ONES[(n + 1) - 1], 0.00000000000000001);
    assert |ONES| == |EIGHTS| == 8;
    hide *;
    NearEights(u);
    AnchorsBounded(k);
    AnchorsBounded(n);
    AllMatch(k, n);
    assert NearAngle(Turned(u, n + 1), ONES[n], 0.00000000000001) by { Looser(Turned(u, n + 1), ONES[n]); }
    ScaledMatch(u, 8 * k, n + 1, EIGHTS[k], ONES[n], StepRow(8 * k + n).t);
  }

  /** The additive constants of the steps are the sines of 1 to 64. */
  lemma SineTable(u: Angle, i: nat)
    requires IsRadian(u) && i < 64
    ensures StepRow(i).t == Scaled(Turned(u, i + 1).sin)
  {
    hide *;
    SineOfSum(u, i / 8, i % 8);
  }
}
