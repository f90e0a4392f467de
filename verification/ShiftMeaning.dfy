/** What shifts of defined vectors do to the numbers that the vectors stand for. */
module ShiftMeaning {
  import opened FourState
  import opened Powers
  import opened Integers
  import opened ConstantCases

  // ----- Shapes -----

  lemma LeftShape(signed: bool, v: Vec, amount: Vec)
    requires Defined(amount)
    ensures var n := ToNat(amount);
            Shift(ShiftLeft, signed, v, amount) == if n <= |v| then Fill(V0, n) + v[..|v| - n] else Fill(V0, |v|)
  {
    hide ToNat;
  }

  lemma RightShape(op: ShiftOp, signed: bool, v: Vec, amount: Vec)
    requires Defined(amount) && op != ShiftLeft
    ensures var n, fill := ToNat(amount), ShiftFill(op, signed, v);
            Shift(op, signed, v, amount) == if n < |v| then v[n..] + Fill(fill, n) else Fill(fill, |v|)
  {
    hide ToNat, ShiftFill;
  }

  lemma Appended(low: Vec, high: Vec)
    ensures ToNat(low + high) == ToNat(low) + Pow2(|low|) * ToNat(high)
  {
    ToNatSplit(low + high, |low|);
    assert (low + high)[..|low|] == low && (low + high)[|low|..] == high;
  }

  // ----- Arithmetic on plain numbers -----

  lemma Times(low: int, a: int, high: int, p: int)
    ensures (low + a * high) * p == p * low + (a * p) * high
  {
  }

  lemma Regroup(x: int, a: int, b: int)
    ensures x * (a * b) == a * (b * x) && 0 * a == 0 && a * 0 == 0
  {
  }

  lemma Factor(low: int, p: int, high: int, a: int)
    ensures low + p * high - p * a == low + p * (high - a)
    ensures p * (a - 1) == p * a - p && p * 0 == 0
  {
  }

  lemma Step(p: int, k: int, m: int)
    requires p >= 0
    ensures k <= m ==> p * k <= p * m
  {
    if k <= m { assert p * (m - k) >= 0; }
  }

  /** The quotient by p, rounded down. */
  lemma Divides(low: int, p: int, high: int)
    requires 0 <= low < p
    ensures (low + p * high) / p == high
  {
    var x := low + p * high;
    var q := x / p;
    assert x == p * q + x % p && 0 <= x % p < p;
    Step(p, q + 1, high);
    Step(p, high + 1, q);
    Factor(0, p, 0, high + 1);
    Factor(0, p, 0, q + 1);
  }

  /** Shifting low + p * high right by p, with a * p the weight above and ones coming in for a
      negative number. */
  lemma Shifted(low: int, p: int, high: int, a: int, neg: bool)
    requires 0 <= low < p
    ensures var x, w := low + p * high, p * a;
            high + a * (if neg then p - 1 else 0) - (if neg then w else 0) == (x - if neg then w else 0) / p
  {
    Factor(low, p, high, a);
    Factor(0, a, 0, p);
    Regroup(1, a, p);
    Divides(low, p, if neg then high - a else high);
  }

  /** The same without what comes in: the quotient of the signed number. */
  lemma Quotient(low: int, p: int, high: int, a: int, neg: bool)
    requires 0 <= low < p
    ensures (low + p * high - (if neg then p * a else 0)) / p == high - if neg then a else 0
  {
    Factor(low, p, high, a);
    Divides(low, p, if neg then high - a else high);
  }

  // ----- Meaning -----

  /** A left shift multiplies by the power of two and drops what leaves the top. */
  lemma LeftShiftMeans(signed: bool, v: Vec, amount: Vec)
    requires Defined(v) && Defined(amount)
    ensures var r := Shift(ShiftLeft, signed, v, amount);
            ToNat(r) < Pow2(|v|) && exists q: nat :: ToNat(v) * Pow2(ToNat(amount)) == ToNat(r) + Pow2(|v|) * q
  {
    hide Shift, ToNat, Pow2, Defined;
    var n, w, r := ToNat(amount), |v|, Shift(ShiftLeft, signed, v, amount);
    LeftShape(signed, v, amount);
    ToNatBelow(r);
    if n <= w {
      var low, high := v[..w - n], v[w - n..];
      assert v == low + high;
      Appended(low, high);
      Appended(Fill(V0, n), low);
      ToNatFill(V0, n);
      Pow2Add(w - n, n);
      Times(ToNat(low), Pow2(w - n), ToNat(high), Pow2(n));
      assert ToNat(v) * Pow2(n) == ToNat(r) + Pow2(w) * ToNat(high);
    } else {
      ToNatFill(V0, w);
      Pow2Add(w, n - w);
      var x: nat := Pow2(n - w) * ToNat(v);
      Regroup(ToNat(v), Pow2(w), Pow2(n - w));
      assert ToNat(v) * Pow2(n) == ToNat(r) + Pow2(w) * x;
    }
  }

  lemma SignOf(v: Vec, signed: bool)
    requires v != []
    ensures AsInt(v, signed) == ToNat(v) - if signed && v[|v| - 1] == V1 then Pow2(|v|) else 0
  {
  }

  lemma FillOf(op: ShiftOp, signed: bool, v: Vec)
    requires v != [] && Defined(v)
    ensures ShiftFill(op, signed, v) == if op == ShiftRightArithmetic && signed && v[|v| - 1] == V1 then V1 else V0
  {
  }

  /** The numbers before and after, in terms of the two halves of the vector. */
  lemma ShortNumbers(op: ShiftOp, signed: bool, v: Vec, n: nat, r: Vec, s: bool)
    requires Defined(v) && 0 < n < |v| && s == (op == ShiftRightArithmetic && signed)
    requires r == v[n..] + Fill(ShiftFill(op, signed, v), n)
    ensures var low, high, p, a, neg := ToNat(v[..n]), ToNat(v[n..]), Pow2(n), Pow2(|v| - n), s && v[|v| - 1] == V1;
            && AsInt(v, s) == low + p * high - (if neg then p * a else 0)
            && AsInt(r, s) == high + a * (if neg then p - 1 else 0) - if neg then p * a else 0
  {
    FillOf(op, signed, v);
    hide ToNat, Pow2, Defined, AsInt, ShiftFill;
    var w, low, high, fill := |v|, v[..n], v[n..], ShiftFill(op, signed, v);
    assert v == low + high;
    Appended(low, high);
    Appended(high, Fill(fill, n));
    ToNatFill(fill, n);
    Pow2Add(n, w - n);
    SignOf(v, s);
    SignOf(r, s);
    assert r[w - 1] == fill;
  }

  lemma ShortShift(op: ShiftOp, signed: bool, v: Vec, n: nat, r: Vec, s: bool)
    requires Defined(v) && n < |v| && s == (op == ShiftRightArithmetic && signed)
    requires r == v[n..] + Fill(ShiftFill(op, signed, v), n)
    ensures Pow2(n) >= 1 && AsInt(r, s) == AsInt(v, s) / Pow2(n)
  {
    hide ToNat, Pow2, Defined, AsInt, ShiftFill;
    Pow2Positive(n);
    if n == 0 {
      OnePower();
      assert r == v;
    } else {
      ShortNumbers(op, signed, v, n, r, s);
      ToNatBelow(v[..n]);
      Shifted(ToNat(v[..n]), Pow2(n), ToNat(v[n..]), Pow2(|v| - n), s && v[|v| - 1] == V1);
    }
  }

  lemma OnePower()
    ensures Pow2(0) == 1
  {
  }

  lemma PastEnd(x: int, p: int, neg: bool)
    requires if neg then 0 - p <= x < 0 else 0 <= x < p
    ensures x / p == if neg then -1 else 0
  {
    Divides(if neg then x + p else x, p, if neg then -1 else 0);
  }

  lemma LongShift(op: ShiftOp, signed: bool, v: Vec, n: nat, r: Vec, s: bool)
    requires Defined(v) && 0 < |v| <= n && s == (op == ShiftRightArithmetic && signed)
    requires r == Fill(ShiftFill(op, signed, v), |v|)
    ensures Pow2(n) >= 1 && AsInt(r, s) == AsInt(v, s) / Pow2(n)
  {
    FillOf(op, signed, v);
    hide ToNat, Pow2, Defined, AsInt, ShiftFill;
    Pow2Positive(n);
    ToNatBelow(v);
    Pow2Grows(|v|, n);
    SignOf(v, s);
    SignOf(r, s);
    ToNatFill(r[0], |v|);
    PastEnd(AsInt(v, s), Pow2(n), s && v[|v| - 1] == V1);
  }

  /** A right shift divides by the power of two, rounding down; an arithmetic shift of a signed
      vector divides the signed number. */
  lemma RightShiftMeans(op: ShiftOp, signed: bool, v: Vec, amount: Vec)
    requires Defined(v) && Defined(amount) && op != ShiftLeft && v != []
    ensures var r, s := Shift(op, signed, v, amount), op == ShiftRightArithmetic && signed;
            Pow2(ToNat(amount)) >= 1 && AsInt(r, s) == AsInt(v, s) / Pow2(ToNat(amount))
  {
    hide Shift, ToNat, Pow2, Defined, AsInt, ShiftFill;
    var n, r, s := ToNat(amount), Shift(op, signed, v, amount), op == ShiftRightArithmetic && signed;
    RightShape(op, signed, v, amount);
    if n < |v| { ShortShift(op, signed, v, n, r, s); } else { LongShift(op, signed, v, n, r, s); }
  }
}
