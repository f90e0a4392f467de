/** Congruence of integers modulo a positive number. */
module Congruence {

  function Times(q: int, m: int): int { q * m }

  ghost predicate Congruent(x: int, y: int, m: int)
  {
    exists q :: x == y + Times(q, m)
  }

  lemma CongruentRefl(x: int, m: int)
    ensures Congruent(x, x, m)
  {
    assert x == x + Times(0, m);
  }

  lemma CongruentOne(x: int, y: int)
    ensures Congruent(x, y, 1)
  {
    assert x == y + Times(x - y, 1);
  }

  lemma CongruentTrans(x: int, y: int, z: int, m: int)
    requires Congruent(x, y, m) && Congruent(y, z, m)
    ensures Congruent(x, z, m)
  {
    var p :| x == y + Times(p, m);
    var q :| y == z + Times(q, m);
    assert x == z + Times(p + q, m);
  }

  lemma CongruentAdd(x: int, y: int, a: int, b: int, m: int)
    requires Congruent(x, y, m) && Congruent(a, b, m)
    ensures Congruent(x + a, y + b, m)
  {
    var p :| x == y + Times(p, m);
    var q :| a == b + Times(q, m);
    assert x + a == y + b + Times(p + q, m);
  }

  lemma CongruentSub(x: int, y: int, a: int, b: int, m: int)
    requires Congruent(x, y, m) && Congruent(a, b, m)
    ensures Congruent(x - a, y - b, m)
  {
    var p :| x == y + Times(p, m);
    var q :| a == b + Times(q, m);
    assert x - a == y - b + Times(p - q, m);
  }

  lemma CongruentMul(x: int, y: int, a: int, b: int, m: int)
    requires Congruent(x, y, m) && Congruent(a, b, m)
    ensures Congruent(x * a, y * b, m)
  {
    var p :| x == y + Times(p, m);
    var q :| a == b + Times(q, m);
    var s := p * b + q * y + p * q * m;
    calc {
      x * a;
      (y + p * m) * (b + q * m);
      y * b + y * (q * m) + (p * m) * b + (p * m) * (q * m);
      y * b + (q * y) * m + (p * b) * m + (p * q * m) * m;
      y * b + s * m;
    }
    assert x * a == y * b + Times(s, m);
  }

  lemma CongruentFactor(x: int, y: int, a: int, m: int)
    requires Congruent(x, y, a * m)
    ensures Congruent(x, y, m)
  {
    var q :| x == y + Times(q, a * m);
    assert q * (a * m) == (q * a) * m;
    assert x == y + Times(q * a, m);
  }

  lemma CongruentHalf(x: int, y: int, m: int)
    requires Congruent(x, y, 2 * m)
    ensures x % 2 == y % 2 && Congruent(x / 2, y / 2, m)
  {
    var q :| x == y + Times(q, 2 * m);
    var h := Times(q, m);
    assert Times(q, 2 * m) == 2 * h;
    assert x / 2 == y / 2 + h;
  }

  lemma CongruentDouble(c: int, u: int, v: int, m: int)
    requires Congruent(u, v, m)
    ensures Congruent(c + 2 * u, c + 2 * v, 2 * m)
  {
    var q :| u == v + Times(q, m);
    assert Times(q, 2 * m) == 2 * Times(q, m);
    assert c + 2 * u == c + 2 * v + Times(q, 2 * m);
  }

  lemma ModCongruent(x: int, m: int)
    requires m > 0
    ensures Congruent(x % m, x, m) && Congruent(x, x % m, m)
  {
    var q := x / m;
    assert x == x % m + Times(q, m);
    assert x % m == x + Times(-q, m);
  }

  /** Congruent numbers have the same remainder. */
  lemma CongruentMod(x: int, y: int, m: int)
    requires m > 0 && Congruent(x, y, m)
    ensures x % m == y % m
  {
    ModCongruent(x, m);
    ModCongruent(y, m);
    CongruentTrans(x % m, x, y, m);
    CongruentTrans(x % m, y, y % m, m);
    var q :| x % m == y % m + Times(q, m);
    SmallMultiple(x % m - y % m, q, m);
  }

  lemma SmallMultiple(d: int, q: int, m: int)
    requires m > 0 && -m < d < m && d == Times(q, m)
    ensures d == 0
  {
    assert q > 0 ==> q * m >= m;
    assert q < 0 ==> q * m <= -m;
  }
}
