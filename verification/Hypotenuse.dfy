/** game.c's integer hypotenuse: a guess and three Newton steps, on a 64-bit long. */
module Hypotenuse {
  /** r = (dd/r+r)>>1 */
  function Newton(dd: nat, r: nat): nat
    requires r > 0
  {
    (dd / r + r) / 2
  }

  lemma SquareMonotone(a: int, b: int)
    requires 0 <= a <= b
    ensures a * a <= b * b
  {
  }

  lemma TimesMonotone(a: int, b: int, c: int)
    requires a <= b && 0 <= c
    ensures a * c <= b * c
  {
  }

  lemma CancelLess(a: int, b: int, c: int)
    requires c > 0 && a * c < b * c
    ensures a < b
  {
    if a >= b { TimesMonotone(b, a, c); }
  }

  lemma ProductSquare(a: int, b: int)
    ensures (a * b) * (a * b) == (a * a) * (b * b)
  {
  }

  /** What the two divisions give, without division. */
  lemma NewtonRange(dd: nat, r: nat)
    requires r >= 1
    ensures 2 * (Newton(dd, r) * r) <= dd + r * r < 2 * ((Newton(dd, r) + 1) * r)
  {
    var q, r' := dd / r, Newton(dd, r);
    QuotientRange(dd, q, r);
    assert 2 * r' <= q + r <= 2 * r' + 1;
    TimesMonotone(2 * r', q + r, r);
    TimesMonotone(q + r, 2 * r' + 1, r);
    assert (q + r) * r == q * r + r * r;
    assert 2 * r' * r == 2 * (r' * r);
    assert (2 * r' + 1) * r == 2 * (r' * r) + r;
    assert (r' + 1) * r == r' * r + r;
  }

  lemma QuotientRange(dd: nat, q: nat, r: nat)
    requires r >= 1 && q == dd / r
    ensures q * r <= dd < q * r + r
  {
    assert dd == r * (dd / r) + dd % r;
  }

  /** One step never falls a whole unit below the root, and squares the error. */
  lemma NewtonStep(dd: nat, r: nat)
    requires dd >= 1 && r >= 1
    ensures var r' := Newton(dd, r);
            && r' >= 1 && dd < (r' + 1) * (r' + 1)
            && 4 * (r * r) * (r' * r' - dd) <= (r * r - dd) * (r * r - dd)
  {
    var r' := Newton(dd, r);
    NewtonRange(dd, r);
    Below(dd, r * r, r, r');
    Above(dd, r * r, r, r' + 1);
  }

  lemma Below(dd: int, s: int, r: int, t: int)
    requires s == r * r && r >= 1 && dd >= 0 && t >= 0 && 2 * (t * r) <= dd + s
    ensures 4 * s * (t * t - dd) <= (s - dd) * (s - dd)
  {
    var m := t * r;
    assert m >= 0;
    SquareMonotone(2 * m, dd + s);
    assert (2 * m) * (2 * m) == 4 * (m * m);
    ProductSquare(t, r);
    SquareOfSum(dd, s);
    Spread(s, t * t, dd);
  }

  lemma Spread(s: int, a: int, dd: int)
    ensures 4 * s * (a - dd) == 4 * (a * s) - 4 * (s * dd)
  {
  }

  lemma SquareOfSum(a: int, b: int)
    ensures (a + b) * (a + b) == (b - a) * (b - a) + 4 * (b * a) && (b - a) * (b - a) >= 0
  {
  }

  lemma Above(dd: int, s: int, r: int, t: int)
    requires s == r * r && r >= 1 && dd >= 0 && t >= 0 && dd + s < 2 * (t * r)
    ensures dd < t * t
  {
    var m := t * r;
    SquareMonotone(dd + s + 1, 2 * m);
    assert (2 * m) * (2 * m) == 4 * (m * m);
    assert (dd + s + 1) * (dd + s + 1) == (dd + s) * (dd + s) + 2 * (dd + s) + 1;
    SquareOfSum(dd, s);
    ProductSquare(t, r);
    assert s * dd < (t * t) * s;
    assert s >= 1;
    CancelLess(dd, t * t, s);
  }

  /** The square of r is at most dd/k above dd, or one, and not more than 2r below. */
  ghost predicate Close(dd: int, r: int, k: int) {
    r >= 1 && -2 * r <= r * r - dd && (k * (r * r - dd) <= dd || r * r - dd <= 1)
  }

  lemma ErrorShrinks(dd: int, s: int, e: int, e': int, k: int)
    requires s >= 1 && dd >= 1 && k >= 1 && e == s - dd && 4 * s * e' <= e * e
    requires 0 <= e && k * e <= dd
    ensures 4 * k * k * e' <= dd
  {
    var k2 := k * k;
    assert k2 >= 1 && 4 * k * k * e' == 4 * (k2 * e');
    if e' > 0 {
      TimesMonotone(0, e, k);
      SquareMonotone(k * e, dd);
      ProductSquare(k, e);
      TimesMonotone(dd, s, e');
      assert 4 * s * e' == 4 * (s * e');
      assert 4 * (dd * e') <= e * e;
      TimesMonotone(4 * (dd * e'), e * e, k2);
      Regroup(dd, e', k2);
      assert 4 * (k2 * e') * dd <= dd * dd < (dd + 1) * dd;
      CancelLess(4 * (k2 * e'), dd + 1, dd);
    } else {
      TimesMonotone(e', 0, k2);
    }
  }

  lemma Regroup(a: int, b: int, c: int)
    ensures 4 * (a * b) * c == 4 * (c * b) * a
  {
  }

  lemma SmallError(s: int, r: int, e: int, e': int)
    requires r >= 1 && s == r * r && 4 * s * e' <= e * e && -2 * r <= e <= 1
    ensures e' <= 1
  {
    if e < 0 {
      SquareMonotone(-e, 2 * r);
      assert (-e) * (-e) == e * e && (2 * r) * (2 * r) == 4 * s;
    }
    assert e * e <= 4 * s;
    if e' >= 2 { TimesMonotone(2, e', 4 * s); }
  }

  /** Each step takes the relative error from 1/k to 1/(4k^2). */
  lemma CloserStep(dd: nat, r: nat, k: nat)
    requires dd >= 1 && k >= 1 && Close(dd, r, k)
    ensures Close(dd, Newton(dd, r), 4 * k * k)
    ensures dd < (Newton(dd, r) + 1) * (Newton(dd, r) + 1)
  {
    NewtonStep(dd, r);
    var r' := Newton(dd, r);
    var s, e, e' := r * r, r * r - dd, r' * r' - dd;
    assert (r' + 1) * (r' + 1) == r' * r' + 2 * r' + 1;
    if e >= 0 && k * e <= dd {
      ErrorShrinks(dd, s, e, e', k);
    } else {
      if e < 0 { TimesMonotone(e, 0, k); }
      SmallError(s, r, e, e');
    }
  }

  /** The guess: the larger side and half the smaller. */
  function Guess(m: nat, n: nat): nat { m + n / 2 }

  lemma SumSquared(m: int, h: int)
    ensures (m + h) * (m + h) == m * m + 2 * (m * h) + h * h
  {
  }

  lemma SquareOfDifference(m: int, n: int)
    ensures m * m - 4 * (n * m) + 4 * (n * n) >= 0
  {
    assert (m - 2 * n) * (m - 2 * n) == m * m - 4 * (n * m) + 4 * (n * n);
  }

  lemma DoubleProducts(m: int, n: int, h: int)
    requires 0 <= h && 2 * h <= n <= m
    ensures 2 * (m * h) <= n * m && 4 * (h * h) <= n * n
  {
    TimesMonotone(2 * h, n, m);
    assert 2 * h * m == 2 * (m * h);
    SquareMonotone(2 * h, n);
    assert (2 * h) * (2 * h) == 4 * (h * h);
  }

  lemma GuessNotHigh(m: int, n: int, h: int)
    requires 0 <= h && 2 * h <= n <= m
    ensures 4 * ((m + h) * (m + h) - (m * m + n * n)) <= m * m + n * n
  {
    SumSquared(m, h);
    DoubleProducts(m, n, h);
    SquareOfDifference(m, n);
  }

  lemma GuessNotLow(m: int, n: int, h: int)
    requires 0 <= h && 2 * h <= n <= 2 * h + 1 && n <= m && m >= 1
    ensures (m + h) * (m + h) - (m * m + n * n) >= -2
  {
    assert (m + h) * (m + h) == m * m + 2 * (m * h) + h * h;
    TimesMonotone(n, m, h);
    if n == 2 * h {
      assert n * n == 4 * (h * h) && n * h == 2 * (h * h);
    } else {
      assert n * n == 4 * (h * h) + 4 * h + 1 && n * h == 2 * (h * h) + h;
      assert (h - 1) * (h - 1) == h * h - 2 * h + 1;
      assert (h - 1) * (h - 1) >= 0;
    }
    assert h * h >= 0;
  }

  lemma GuessClose(m: nat, n: nat)
    requires n <= m && m >= 1
    ensures Close(m * m + n * n, Guess(m, n), 4)
  {
    GuessNotHigh(m, n, n / 2);
    GuessNotLow(m, n, n / 2);
  }

  /** The three steps. */
  lemma ThreeSteps(dd: nat, r: nat)
    requires 1 <= dd <= 8589672450 && Close(dd, r, 4)
    ensures var r1 := Newton(dd, r);
            r1 >= 1 && var r2 := Newton(dd, r1);
            r2 >= 1 && var r3 := Newton(dd, r2);
            r3 >= 1 && (r3 - 1) * (r3 - 1) <= dd < (r3 + 1) * (r3 + 1)
  {
    var r1 := Newton(dd, r);
    CloserStep(dd, r, 4);
    var r2 := Newton(dd, r1);
    CloserStep(dd, r1, 64);
    CloserStep(dd, r2, 16384);
    WithinOne(dd, Newton(dd, r2));
  }

  /** lhypot is within one of the hypotenuse, for both coordinates up to 65535. */
  method LHypot(dx0: int, dy0: int) returns (r: nat)
    requires -65535 <= dx0 <= 65535 && -65535 <= dy0 <= 65535
    ensures r == 0 <==> dx0 == 0 && dy0 == 0
    ensures r != 0 ==> (r - 1) * (r - 1) <= dx0 * dx0 + dy0 * dy0 < (r + 1) * (r + 1)
  {
    var dx, dy := dx0, dy0;
    var dd := dx * dx + dy * dy;
    if dx < 0 { dx := -dx; }
    if dy < 0 { dy := -dy; }
    SameSquare(dx0, dx);
    SameSquare(dy0, dy);
    r := if dx > dy then dx + dy / 2 else dy + dx / 2;
    if r == 0 { return; }
    Bounded(dx, dy);
    GuessClose(if dx > dy then dx else dy, if dx > dy then dy else dx);
    ThreeSteps(dd, r);
    r := (dd / r + r) / 2;
    r := (dd / r + r) / 2;
    r := (dd / r + r) / 2;
  }

  lemma SameSquare(a: int, b: int)
    requires a == b || a == -b
    ensures a * a == b * b
  {
  }

  lemma Bounded(x: int, y: int)
    requires 0 <= x <= 65535 && 0 <= y <= 65535 && (x > 0 || y > 0)
    ensures 1 <= x * x + y * y <= 8589672450
  {
    SquareMonotone(x, 65535);
    SquareMonotone(y, 65535);
    if x > 0 { SquareMonotone(1, x); } else { SquareMonotone(1, y); }
  }

  lemma WithinOne(dd: nat, r: nat)
    requires 1 <= dd <= 8589672450 && Close(dd, r, 1073741824) && dd < (r + 1) * (r + 1)
    ensures (r - 1) * (r - 1) <= dd
  {
    var e := r * r - dd;
    assert (r - 1) * (r - 1) == r * r - 2 * r + 1;
    if e > 1 {
      assert e <= 7;
      assert dd >= 1073741824 * 2;
      if r <= 4 { SquareMonotone(r + 1, 5); }
    }
  }
}
