/**
 What the computed widths are good for: in a lossless mode nothing overflows, and evaluating
 only as many bits as are used, but not fewer than `min_width`, gives the same bits.
 */
module SizingExact {
  import opened Congruence
  import opened Powers
  import opened Sizing
  import opened Options

  // ----- Arithmetic modulo powers of two -----

  function Mod(x: int, n: nat): nat
  {
    Pow2Positive(n);
    x % Pow2(n)
  }

  /** `x` and `y` have the same low `n` bits. */
  ghost predicate Same(x: int, y: int, n: nat)
  {
    Congruent(x, y, Pow2(n))
  }

  lemma SameFewer(x: int, y: int, k: nat, n: nat)
    requires Same(x, y, n) && k <= n
    ensures Same(x, y, k)
  {
    hide Pow2;
    Pow2Add(n - k, k);
    CongruentFactor(x, y, Pow2(n - k), Pow2(k));
  }

  /** Truncation to `n` bits keeps any `k <= n` low bits. */
  lemma ModKeeps(x: int, k: nat, n: nat)
    requires k <= n
    ensures Same(Mod(x, n), x, k) && Same(x, Mod(x, n), k)
  {
    hide Pow2;
    Pow2Positive(n);
    ModCongruent(x, Pow2(n));
    SameFewer(Mod(x, n), x, k, n);
    SameFewer(x, Mod(x, n), k, n);
  }

  // ----- Bitwise operators -----

  datatype BitOp = And | Or | Xor | Nand | Nor | Xnor

  predicate OnBits(op: BitOp, a: bool, b: bool)
  {
    match op
    case And => a && b
    case Or => a || b
    case Xor => a != b
    case Nand => !(a && b)
    case Nor => !(a || b)
    case Xnor => a == b
  }

  function OneBit(op: BitOp, a: int, b: int): nat
  {
    if OnBits(op, a % 2 == 1, b % 2 == 1) then 1 else 0
  }

  /** The operator on the low `n` bits. */
  function OnVectors(op: BitOp, a: int, b: int, n: nat): nat
    decreases n
  {
    if n == 0 then 0 else OneBit(op, a, b) + 2 * OnVectors(op, a / 2, b / 2, n - 1)
  }

  lemma SameHalf(x: int, y: int, n: nat)
    requires Same(x, y, n) && n > 0
    ensures x % 2 == y % 2 && Same(x / 2, y / 2, n - 1)
  {
    assert Pow2(n) == 2 * Pow2(n - 1);
    CongruentHalf(x, y, Pow2(n - 1));
  }

  /** Low bits of the result depend on the same low bits of the operands only. */
  lemma {:induction false} OnVectorsPrunes(op: BitOp, x: int, y: int, a: int, b: int, k: nat, n: nat, m: nat)
    requires Same(x, y, k) && Same(a, b, k) && k <= n && k <= m
    ensures Same(OnVectors(op, x, a, n), OnVectors(op, y, b, m), k)
    decreases k
  {
    if k == 0 {
      CongruentOne(OnVectors(op, x, a, n), OnVectors(op, y, b, m));
    } else {
      SameHalf(x, y, k);
      SameHalf(a, b, k);
      OnVectorsPrunes(op, x / 2, y / 2, a / 2, b / 2, k - 1, n - 1, m - 1);
      assert Pow2(k) == 2 * Pow2(k - 1);
      hide Same, Pow2;
      assert OneBit(op, x, a) == OneBit(op, y, b);
      SameDouble(OneBit(op, x, a), OnVectors(op, x / 2, a / 2, n - 1), OnVectors(op, y / 2, b / 2, m - 1), k);
    }
  }

  lemma SameDouble(bit: int, u: int, v: int, k: nat)
    requires k > 0 && Same(u, v, k - 1)
    ensures Same(bit + 2 * u, bit + 2 * v, k)
  {
    CongruentDouble(bit, u, v, Pow2(k - 1));
  }

  // ----- Expressions with values -----

  /** An expression together with the values of its operands: the bits of each atom, the
      amount of each shift, the outcome of each condition. */
  datatype Term =
    | Atom(e: Expr, bits: nat)
    | Op(op: BinOp, l: Term, r: Term)
    | Bitwise(bop: BitOp, l: Term, r: Term)
    | ShiftL(l: Term, amount: nat)
    | ShiftR(l: Term, amount: nat)
    | Choose(cond: bool, t: Term, f: Term)
    | Invert(x: Term)
    | Negate(x: Term)

  function AtomWidth(e: Expr): nat
  {
    match e
    case Num(len, _, _) => len
    case Param(w, _, _) => w
    case Leaf(w, _) => w
    case _ => 0
  }

  /** The expression the sizing pass sees. */
  function Shape(t: Term): Expr
  {
    match t
    case Atom(e, _) => e
    case Op(op, l, r) => Bin(op, Shape(l), Shape(r))
    case Bitwise(_, l, r) => Bin(Bits, Shape(l), Shape(r))
    case ShiftL(l, n) => Shift(Left, Shape(l), Leaf(LONG_BITS - 1, false), Some(n), 0)
    case ShiftR(l, n) => Shift(Right, Shape(l), Leaf(LONG_BITS - 1, false), Some(n), 0)
    case Choose(_, a, b) => Cond(Shape(a), Shape(b))
    case Invert(x) => Unary(Shape(x))
    case Negate(x) => Unary(Shape(x))
  }

  /** Atoms are atoms, and their bits fit their widths. */
  predicate Proper(t: Term)
  {
    match t
    case Atom(e, bits) => (e.Num? || e.Param? || e.Leaf?) && 1 <= AtomWidth(e) && bits < Pow2(AtomWidth(e))
    case Op(_, l, r) => Proper(l) && Proper(r)
    case Bitwise(_, l, r) => Proper(l) && Proper(r)
    case ShiftL(l, _) => Proper(l)
    case ShiftR(l, _) => Proper(l)
    case Choose(_, a, b) => Proper(a) && Proper(b)
    case Invert(x) => Proper(x)
    case Negate(x) => Proper(x)
  }

  /** Bits read as a number, signed or not. */
  function Decode(bits: nat, w: nat, signed: bool): int
  {
    if signed && w > 0 && bits >= Pow2(w - 1) then bits - Pow2(w) else bits
  }

  function Quotient(a: nat, b: nat): (q: nat)
    requires b > 0
  {
    a / b
  }

  function Combine(op: BinOp, a: nat, b: nat, w: nat): nat
  {
    match op
    case Add => Mod(a + b, w)
    case Sub => Mod(a - b, w)
    case Mul => Mod(a * b, w)
    case Div => if b == 0 then 0 else Mod(Quotient(a, b), w)
    case Bits => 0
  }

  /** Evaluation with every operand extended, and every result truncated, to `w` bits. */
  function EvalAt(t: Term, w: nat, signed: bool): nat
  {
    match t
    case Atom(e, bits) => Mod(Decode(bits, AtomWidth(e), signed), w)
    case Op(op, l, r) => Combine(op, EvalAt(l, w, signed), EvalAt(r, w, signed), w)
    case Bitwise(op, l, r) => OnVectors(op, EvalAt(l, w, signed), EvalAt(r, w, signed), w)
    case ShiftL(l, n) => Mod(EvalAt(l, w, signed) * Pow2(n), w)
    case ShiftR(l, n) => Pow2Positive(n); Quotient(EvalAt(l, w, signed), Pow2(n))
    case Choose(c, a, b) => if c then EvalAt(a, w, signed) else EvalAt(b, w, signed)
    case Invert(x) => Mod(-1 - EvalAt(x, w, signed), w)
    case Negate(x) => Mod(0 - EvalAt(x, w, signed), w)
  }

  // ----- Pruning -----

  lemma TwoTruncations(x: int, y: int, k: nat, w: nat, full: nat)
    requires k <= w && k <= full && Same(x, y, k)
    ensures Same(Mod(x, w), Mod(y, full), k)
  {
    hide Pow2;
    ModKeeps(x, k, w);
    ModKeeps(y, k, full);
    CongruentTrans(Mod(x, w), x, y, Pow2(k));
    CongruentTrans(Mod(x, w), y, Mod(y, full), Pow2(k));
  }

  lemma CombinePrunes(op: BinOp, a: nat, a': nat, b: nat, b': nat, k: nat, w: nat, full: nat)
    requires op != Div && k <= w && k <= full && Same(a, a', k) && Same(b, b', k)
    ensures Same(Combine(op, a, b, w), Combine(op, a', b', full), k)
  {
    hide Pow2, Mod;
    var m := Pow2(k);
    match op
    case Add => CongruentAdd(a, a', b, b', m); TwoTruncations(a + b, a' + b', k, w, full);
    case Sub => CongruentSub(a, a', b, b', m); TwoTruncations(a - b, a' - b', k, w, full);
    case Mul => CongruentMul(a, a', b, b', m); TwoTruncations(a * b, a' * b', k, w, full);
    case Bits => CongruentRefl(0, m);
  }

  /** Where `min_width` is not disabled, the low `k` bits come out the same at every width from
      max(min_width, k) up; in fact `k` bits are enough. */
  lemma {:induction false} PruningSound(t: Term, signed: bool, k: nat, w: nat, full: nat)
    requires MinWidth(Shape(t)) < UINT_MAX && k <= w && k <= full
    ensures Same(EvalAt(t, w, signed), EvalAt(t, full, signed), k)
  {
    hide Pow2, Mod, Same, Combine, OnVectors;
    match t
    case Atom(e, bits) =>
      var v := Decode(bits, AtomWidth(e), signed);
      SameRefl(v, k);
      TwoTruncations(v, v, k, w, full);
    case Op(op, l, r) =>
      PruningSound(l, signed, k, w, full);
      PruningSound(r, signed, k, w, full);
      CombinePrunes(op, EvalAt(l, w, signed), EvalAt(l, full, signed), EvalAt(r, w, signed), EvalAt(r, full, signed), k, w, full);
    case Bitwise(op, l, r) =>
      PruningSound(l, signed, k, w, full);
      PruningSound(r, signed, k, w, full);
      OnVectorsPrunes(op, EvalAt(l, w, signed), EvalAt(l, full, signed), EvalAt(r, w, signed), EvalAt(r, full, signed), k, w, full);
    case ShiftL(l, n) =>
      PruningSound(l, signed, k, w, full);
      SameScaled(EvalAt(l, w, signed), EvalAt(l, full, signed), Pow2(n), k);
      TwoTruncations(EvalAt(l, w, signed) * Pow2(n), EvalAt(l, full, signed) * Pow2(n), k, w, full);
    case Choose(_, a, b) =>
      PruningSound(a, signed, k, w, full);
      PruningSound(b, signed, k, w, full);
    case Invert(x) =>
      PruningSound(x, signed, k, w, full);
      SameNegated(-1, EvalAt(x, w, signed), EvalAt(x, full, signed), k);
      TwoTruncations(-1 - EvalAt(x, w, signed), -1 - EvalAt(x, full, signed), k, w, full);
    case Negate(x) =>
      PruningSound(x, signed, k, w, full);
      SameNegated(0, EvalAt(x, w, signed), EvalAt(x, full, signed), k);
      TwoTruncations(0 - EvalAt(x, w, signed), 0 - EvalAt(x, full, signed), k, w, full);
  }

  lemma SameRefl(x: int, k: nat)
    ensures Same(x, x, k)
  {
    CongruentRefl(x, Pow2(k));
  }

  lemma SameScaled(x: int, y: int, p: int, k: nat)
    requires Same(x, y, k)
    ensures Same(x * p, y * p, k)
  {
    CongruentRefl(p, Pow2(k));
    CongruentMul(x, y, p, p, Pow2(k));
  }

  lemma SameNegated(c: int, x: int, y: int, k: nat)
    requires Same(x, y, k)
    ensures Same(c - x, c - y, k)
  {
    CongruentRefl(c, Pow2(k));
    CongruentSub(c, c, x, y, Pow2(k));
  }

  /** A right shift does need its upper bits: 2 >> 1 has low bit 1, at one bit it has 0. */
  lemma RightShiftNotPrunable()
    ensures var t := ShiftR(Atom(Leaf(2, false), 2), 1);
      Proper(t) && !Same(EvalAt(t, 1, false), EvalAt(t, 2, false), 1)
  {
    var a := Atom(Leaf(2, false), 2);
    assert Pow2(0) == 1 && Pow2(1) == 2 && Pow2(2) == 4;
    assert EvalAt(a, 1, false) == 0 && EvalAt(a, 2, false) == 2;
    if Congruent(0, 1, 2) { CongruentMod(0, 1, 2); assert false; }
  }

  // ----- Lossless widths -----

  predicate Fits(v: int, w: nat, signed: bool)
  {
    if signed then w > 0 && 0 <= v + Pow2(w - 1) && v < Pow2(w - 1) else 0 <= v < Pow2(w)
  }

  /** Sums, products and choices over atoms of one signedness; differences of signed ones only. */
  predicate Arith(t: Term, signed: bool)
  {
    match t
    case Atom(e, _) => Sign(e) == signed
    case Op(op, l, r) => (op == Add || op == Mul || (op == Sub && signed)) && Arith(l, signed) && Arith(r, signed)
    case Choose(_, a, b) => Arith(a, signed) && Arith(b, signed)
    case _ => false
  }

  /** The value over the unbounded integers. */
  function Exact(t: Term, signed: bool): int
    requires Arith(t, signed)
  {
    match t
    case Atom(e, bits) => Decode(bits, AtomWidth(e), signed)
    case Op(op, l, r) =>
      var a, b := Exact(l, signed), Exact(r, signed);
      if op == Add then a + b else if op == Sub then a - b else a * b
    case Choose(c, a, b) => if c then Exact(a, signed) else Exact(b, signed)
  }

  lemma FitsWider(v: int, w: nat, w': nat, signed: bool)
    requires Fits(v, w, signed) && w <= w'
    ensures Fits(v, w', signed)
  {
    Pow2Grows(w, w');
    if signed { Pow2Grows(w - 1, w' - 1); }
  }

  lemma FitsSum(a: int, b: int, w: nat, signed: bool)
    requires Fits(a, w, signed) && Fits(b, w, signed)
    ensures Fits(a + b, w + 1, signed) && (signed ==> Fits(a - b, w + 1, signed))
  {
    assert Pow2(w + 1) == 2 * Pow2(w);
    if signed { assert Pow2(w) == 2 * Pow2(w - 1); }
  }

  lemma ProductBound(a: int, b: int, p: int, q: int)
    requires -p <= a <= p && -q <= b <= q
    ensures -(p * q) <= a * b <= p * q
  {
    var n := if a >= 0 then a else -a;
    Scaled(b, q, n);
    Scaled(-q, b, n);
    Scaled(n, p, q);
    Swapped(a, b, q, n);
  }

  lemma Swapped(a: int, b: int, q: int, n: int)
    requires n == a || n == -a
    ensures q * n == n * q && (-q) * n == -(n * q)
    ensures n == a ==> b * n == a * b
    ensures n == -a ==> b * n == -(a * b)
  {
  }

  lemma Commutes(a: int, b: int)
    ensures a * b == b * a
  {
  }

  lemma ExpandLess(p: int, q: int)
    ensures (q - 1) * (p - 1) == p * q - p - q + 1
  {
  }

  lemma UnsignedProduct(a: int, b: int, p: int, q: int)
    requires 0 <= a < p && 0 <= b < q
    ensures 0 <= a * b < p * q
  {
    Scaled(0, a, b);
    Scaled(a, p - 1, b);
    Scaled(b, q - 1, p - 1);
    Commutes(b, p - 1);
    ExpandLess(p, q);
  }

  lemma FitsProduct(a: int, b: int, w: nat, v: nat, signed: bool)
    requires Fits(a, w, signed) && Fits(b, v, signed)
    ensures Fits(a * b, w + v, signed)
  {
    if signed {
      Pow2Add(w - 1, v - 1);
      ProductBound(a, b, Pow2(w - 1), Pow2(v - 1));
      assert Pow2(w + v - 1) == 2 * Pow2(w - 1 + (v - 1));
      Pow2Positive(w - 1 + (v - 1));
    } else {
      Pow2Add(w, v);
      UnsignedProduct(a, b, Pow2(w), Pow2(v));
    }
  }

  /** Under the lossless rule the exact value fits the computed width. */
  lemma {:induction false} ExactFits(c: Config, t: Term, signed: bool)
    requires Proper(t) && Arith(t, signed)
    ensures Fits(Exact(t, signed), WidthBy(c, Shape(t), AllLossless), signed)
  {
    hide Fits;
    match t
    case Atom(e, bits) => AtomFits(e, bits, signed);
    case Op(op, l, r) =>
      ExactFits(c, l, signed);
      ExactFits(c, r, signed);
      var a, b := WidthBy(c, Shape(l), AllLossless), WidthBy(c, Shape(r), AllLossless);
      if op == Mul {
        FitsProduct(Exact(l, signed), Exact(r, signed), a, b, signed);
      } else {
        FitsWider(Exact(l, signed), a, Max(a, b), signed);
        FitsWider(Exact(r, signed), b, Max(a, b), signed);
        FitsSum(Exact(l, signed), Exact(r, signed), Max(a, b), signed);
      }
    case Choose(_, x, y) =>
      ExactFits(c, x, signed);
      ExactFits(c, y, signed);
      var a, b := WidthBy(c, Shape(x), AllLossless), WidthBy(c, Shape(y), AllLossless);
      FitsWider(Exact(x, signed), a, Max(a, b), signed);
      FitsWider(Exact(y, signed), b, Max(a, b), signed);
  }

  lemma AtomFits(e: Expr, bits: nat, signed: bool)
    requires 1 <= AtomWidth(e) && bits < Pow2(AtomWidth(e))
    ensures Fits(Decode(bits, AtomWidth(e), signed), AtomWidth(e), signed)
  {
    assert Pow2(AtomWidth(e)) == 2 * Pow2(AtomWidth(e) - 1);
  }

  /** Evaluation at any width is the exact value modulo that width. */
  lemma {:induction false} EvalIsExact(t: Term, w: nat, signed: bool)
    requires Arith(t, signed)
    ensures Same(EvalAt(t, w, signed), Exact(t, signed), w)
  {
    hide Pow2, Mod, Same, Combine;
    match t
    case Atom(e, bits) => ModKeeps(Decode(bits, AtomWidth(e), signed), w, w);
    case Op(op, l, r) =>
      EvalIsExact(l, w, signed);
      EvalIsExact(r, w, signed);
      CombineIsExact(op, EvalAt(l, w, signed), EvalAt(r, w, signed), Exact(l, signed), Exact(r, signed), w);
    case Choose(_, a, b) =>
      EvalIsExact(a, w, signed);
      EvalIsExact(b, w, signed);
  }

  lemma CombineIsExact(op: BinOp, a: nat, b: nat, x: int, y: int, w: nat)
    requires Same(a, x, w) && Same(b, y, w) && (op == Add || op == Sub || op == Mul)
    ensures Same(Combine(op, a, b, w), if op == Add then x + y else if op == Sub then x - y else x * y, w)
  {
    hide Pow2, Mod;
    var m := Pow2(w);
    if op == Add {
      CongruentAdd(a, x, b, y, m); ModKeeps(a + b, w, w); CongruentTrans(Mod(a + b, w), a + b, x + y, m);
    } else if op == Sub {
      CongruentSub(a, x, b, y, m); ModKeeps(a - b, w, w); CongruentTrans(Mod(a - b, w), a - b, x - y, m);
    } else {
      CongruentMul(a, x, b, y, m); ModKeeps(a * b, w, w); CongruentTrans(Mod(a * b, w), a * b, x * y, m);
    }
  }

  lemma {:induction false} EvalBelow(t: Term, w: nat, signed: bool)
    requires Arith(t, signed)
    ensures EvalAt(t, w, signed) < Pow2(w)
  {
    Pow2Positive(w);
    match t
    case Atom(_, _) =>
    case Op(op, l, r) =>
    case Choose(_, a, b) =>
      EvalBelow(a, w, signed);
      EvalBelow(b, w, signed);
  }

  /** A fitting number is recovered from its low bits. */
  lemma DecodeFits(bits: nat, v: int, w: nat, signed: bool)
    requires Fits(v, w, signed) && bits < Pow2(w) && Same(bits, v, w)
    ensures Decode(bits, w, signed) == v
  {
    var d := Decode(bits, w, signed);
    var q :| bits == v + Times(q, Pow2(w));
    Pow2Positive(w);
    if signed { assert Pow2(w) == 2 * Pow2(w - 1); }
    var k := if d == bits then q else q - 1;
    assert d - v == Times(k, Pow2(w)) by { assert Times(q - 1, Pow2(w)) == Times(q, Pow2(w)) - Pow2(w); }
    SmallMultiple(d - v, k, Pow2(w));
  }

  /** When the test ends in a lossless mode, evaluating the whole expression at the returned
      width, or any larger one, never wraps: it gives the value over the integers. */
  lemma LosslessNeverWraps(c: Config, t: Term, m: Mode, w: nat)
    requires var s := Sign(Shape(t)); Proper(t) && Arith(t, s)
    requires var r := TestWidth(c, Shape(t), m); IsLossless(r.mode) && w >= r.width
    ensures var s := Sign(Shape(t)); Decode(EvalAt(t, w, s), w, s) == Exact(t, s)
  {
    var s, r := Sign(Shape(t)), TestWidth(c, Shape(t), m);
    TestWidthIsTwoPass(c, Shape(t), m);
    assert r.width == WidthBy(c, Shape(t), AllLossless);
    hide TestWidth, WidthBy, EvalAt, Exact, Pow2, Fits, Decode, Same;
    ExactFits(c, t, s);
    FitsWider(Exact(t, s), r.width, w, s);
    EvalIsExact(t, w, s);
    EvalBelow(t, w, s);
    DecodeFits(EvalAt(t, w, s), Exact(t, s), w, s);
  }

  // ----- Lossless widths of powers and shifts -----

  function RaisedTo(b: int, r: nat): int
  {
    if r == 0 then 1 else b * RaisedTo(b, r - 1)
  }

  lemma {:induction false} UnsignedPower(b: int, w: nat, r: nat)
    requires Fits(b, w, false) && r >= 1
    ensures Fits(RaisedTo(b, r), w * r, false)
  {
    if r == 1 {
      assert RaisedTo(b, 1) == b * RaisedTo(b, 0) == b;
    } else {
      UnsignedPower(b, w, r - 1);
      FitsProduct(b, RaisedTo(b, r - 1), w, w * (r - 1), false);
      assert w + w * (r - 1) == w * r;
    }
  }

  lemma OneLess(a: nat, r: nat)
    requires r >= 1
    ensures 0 <= a * (r - 1) && a + a * (r - 1) == a * r
  {
  }

  /** A signed power is at most 2^((w-1)r) in size. */
  lemma {:induction false} SignedPowerBound(b: int, w: nat, r: nat)
    requires w >= 1 && 0 <= b + Pow2(w - 1) && b <= Pow2(w - 1)
    ensures 0 <= RaisedTo(b, r) + Pow2((w - 1) * r) && RaisedTo(b, r) <= Pow2((w - 1) * r)
  {
    if r == 0 {
      assert (w - 1) * 0 == 0;
    } else {
      SignedPowerBound(b, w, r - 1);
      hide Pow2;
      OneLess(w - 1, r);
      ProductBound(b, RaisedTo(b, r - 1), Pow2(w - 1), Pow2((w - 1) * (r - 1)));
      Pow2Add(w - 1, (w - 1) * (r - 1));
    }
  }

  lemma SignedPower(b: int, w: nat, r: nat)
    requires Fits(b, w, true)
    ensures Fits(RaisedTo(b, r), (w - 1) * r + 2, true)
  {
    SignedPowerBound(b, w, r);
    var k := (w - 1) * r;
    assert Pow2(k + 1) == 2 * Pow2(k);
    Pow2Positive(k);
  }

  lemma Scaled(a: int, b: int, p: int)
    requires a <= b && p >= 0
    ensures a * p <= b * p
  {
  }

  lemma ShiftFits(b: int, w: nat, r: nat, signed: bool)
    requires Fits(b, w, signed)
    ensures Fits(b * Pow2(r), w + r, signed)
  {
    hide Pow2;
    Pow2Positive(r);
    if signed {
      var h, p := Pow2(w - 1), Pow2(r);
      Pow2Add(w - 1, r);
      assert w + r - 1 == w - 1 + r;
      Scaled(0, b + h, p);
      Scaled(b, h - 1, p);
      Spread(b, h, p);
    } else {
      Pow2Add(w, r);
      Scaled(0, b, Pow2(r));
      Scaled(b, Pow2(w) - 1, Pow2(r));
      Spread(0, Pow2(w), Pow2(r));
    }
  }

  lemma Spread(b: int, h: int, p: int)
    ensures (b + h) * p == b * p + h * p && (h - 1) * p == h * p - p && 0 * p == 0
  {
  }

  /** The width computed for `x << r` and `x ** r` with a constant r up to the cap holds every
      result, when x is unsized and fits `lw` bits. For an unsigned power that is not one of
      literal numbers this needs r >= 1 and fails at r = 0, where no bits are allotted for the
      value 1. The power of literal numbers is computed, and `powLen` is the length it needs. */
  lemma ShiftWidthBounds(c: Config, e: Expr, x: int, lw: nat, signed: bool, rWidth: nat, rSigned: bool)
    requires e.Shift? && e.amount.Some? && 0 <= e.amount.value <= c.cap
    requires rWidth < LONG_BITS && Fits(x, lw, signed)
    requires e.sop == Power && e.l.Num? ==> Fits(RaisedTo(x, e.amount.value), e.powLen, signed)
    ensures var r, w := e.amount.value, ShiftWidth(c, e, lw, signed, false, rWidth, rSigned);
      && (e.sop == Left ==> Fits(x * Pow2(r), w, signed))
      && (e.sop == Power && signed ==> Fits(RaisedTo(x, r), w, signed))
      && (e.sop == Power && !signed ==> (Fits(RaisedTo(x, r), w, signed) <==> r >= 1 || e.l.Num?))
  {
    var r := e.amount.value;
    assert Reach(c, e.sop, e.amount, rWidth, rSigned) == r;
    hide Reach;
    match e.sop
    case Left => ShiftFits(x, lw, r, signed);
    case Right =>
    case Power =>
      if e.l.Num? { FitsWider(RaisedTo(x, r), e.powLen, Max(lw, e.powLen), signed); }
      else if signed { SignedPower(x, lw, r); }
      else if r >= 1 { UnsignedPower(x, lw, r); }
      else { assert lw * 0 == 0 && RaisedTo(x, 0) == 1 && Pow2(0) == 1; }
  }
}
