/**
 Closed forms for the widths, signs and minimum widths that sizing computes: what the operators
 add up to over the leaves of an expression, and that the room left by the lossless rule is no
 more than is needed.
 */
module SizingLaws {
  import opened Powers
  import opened Options
  import opened Sizing
  import opened SizingExact

  // ----- The standard width -----

  /** The operands whose width counts: numbers, names, reductions, and shifts or powers, which
      have the width of their left operand. */
  function WidthLeaves(e: Expr): set<Expr>
  {
    match e
    case Bin(_, l, r) => WidthLeaves(l) + WidthLeaves(r)
    case Cond(t, f) => WidthLeaves(t) + WidthLeaves(f)
    case Unary(x) => WidthLeaves(x)
    case _ => {e}
  }

  /** An unsized number counts at least as an integer. */
  function LeafWidth(c: Config, x: Expr): nat
  {
    match x
    case Num(len, sized, _) => if sized || len >= c.integer then len else c.integer
    case Param(width, _, _) => width
    case Leaf(width, _) => width
    case Shift(_, l, _, _, _) => SelfWidth(c, l)
    case _ => 1
  }

  /** `w` is the largest width among the leaves. */
  ghost predicate IsLargest(c: Config, leaves: set<Expr>, w: nat)
  {
    (exists x :: x in leaves && LeafWidth(c, x) == w) && forall x :: x in leaves ==> LeafWidth(c, x) <= w
  }

  lemma LargestOfTwo(c: Config, a: set<Expr>, b: set<Expr>, v: nat, w: nat)
    requires IsLargest(c, a, v) && IsLargest(c, b, w)
    ensures IsLargest(c, a + b, if v < w then w else v)
  {
    hide LeafWidth;
    if v < w {
      var x :| x in b && LeafWidth(c, x) == w;
      assert x in a + b;
    } else {
      var x :| x in a && LeafWidth(c, x) == v;
      assert x in a + b;
    }
  }

  lemma {:induction false} StandardIsLargest(c: Config, e: Expr)
    ensures IsLargest(c, WidthLeaves(e), WidthBy(c, e, Standard))
  {
    match e
    case Bin(op, l, r) =>
      StandardIsLargest(c, l);
      StandardIsLargest(c, r);
      LargestOfTwo(c, WidthLeaves(l), WidthLeaves(r), WidthBy(c, l, Standard), WidthBy(c, r, Standard));
    case Cond(t, f) =>
      StandardIsLargest(c, t);
      StandardIsLargest(c, f);
      LargestOfTwo(c, WidthLeaves(t), WidthLeaves(f), WidthBy(c, t, Standard), WidthBy(c, f, Standard));
    case Unary(x) => StandardIsLargest(c, x);
    case _ => assert e in WidthLeaves(e);
  }

  /** A test that starts sized or unsized and does not turn lossless returns the largest width
      among the leaves, whatever the operators. */
  lemma SizedIsLargest(c: Config, e: Expr, m: Mode)
    requires (m == SIZED || m == UNSIZED) && !IsLossless(TestWidth(c, e, m).mode)
    ensures IsLargest(c, WidthLeaves(e), TestWidth(c, e, m).width)
  {
    hide TestWidth, WidthBy, IsLargest;
    TestWidthIsTwoPass(c, e, m);
    StandardIsLargest(c, e);
  }

  /** An expanding test leaves room for every leaf. */
  lemma {:induction false} ExpandingHolds(c: Config, e: Expr, x: Expr)
    requires NoShift(e) && x in WidthLeaves(e)
    ensures LeafWidth(c, x) <= WidthBy(c, e, Expanding)
  {
    match e
    case Bin(_, l, r) => if x in WidthLeaves(l) { ExpandingHolds(c, l, x); } else { ExpandingHolds(c, r, x); }
    case Cond(t, f) => if x in WidthLeaves(t) { ExpandingHolds(c, t, x); } else { ExpandingHolds(c, f, x); }
    case Unary(y) => ExpandingHolds(c, y, x);
    case _ =>
  }

  lemma ExpandIsEnough(c: Config, e: Expr, x: Expr)
    requires NoShift(e) && x in WidthLeaves(e) && !IsLossless(TestWidth(c, e, EXPAND).mode)
    ensures LeafWidth(c, x) <= TestWidth(c, e, EXPAND).width
  {
    hide TestWidth, WidthBy;
    TestWidthIsTwoPass(c, e, EXPAND);
    ExpandingHolds(c, e, x);
  }

  // ----- Signs and first-pass marks -----

  /** The operands whose sign counts. */
  function SignLeaves(e: Expr): set<Expr>
  {
    match e
    case Bin(_, l, r) => SignLeaves(l) + SignLeaves(r)
    case Shift(_, l, _, _, _) => SignLeaves(l)
    case Cond(t, f) => SignLeaves(t) + SignLeaves(f)
    case Unary(x) => SignLeaves(x)
    case _ => {e}
  }

  predicate LeafSigned(x: Expr)
  {
    (x.Num? && x.signed) || (x.Param? && x.signed) || (x.Leaf? && x.signed)
  }

  ghost predicate AllSigned(leaves: set<Expr>)
  {
    forall x :: x in leaves ==> LeafSigned(x)
  }

  lemma AllOfTwo(a: set<Expr>, b: set<Expr>)
    ensures AllSigned(a + b) <==> AllSigned(a) && AllSigned(b)
  {
    if AllSigned(a + b) {
      forall x | x in a ensures LeafSigned(x) { assert x in a + b; }
      forall x | x in b ensures LeafSigned(x) { assert x in a + b; }
    }
  }

  /** An expression is signed exactly when all of them are. */
  lemma {:induction false} SignIsAllLeaves(e: Expr)
    ensures Sign(e) <==> AllSigned(SignLeaves(e))
  {
    match e
    case Bin(_, l, r) =>
      SignIsAllLeaves(l);
      SignIsAllLeaves(r);
      AllOfTwo(SignLeaves(l), SignLeaves(r));
    case Shift(_, l, _, _, _) => SignIsAllLeaves(l);
    case Cond(t, f) =>
      SignIsAllLeaves(t);
      SignIsAllLeaves(f);
      AllOfTwo(SignLeaves(t), SignLeaves(f));
    case Unary(x) => SignIsAllLeaves(x);
    case _ => assert e in SignLeaves(e);
  }

  /** A sized test turns unsized exactly by a short unsized number among the open leaves. */
  lemma {:induction false} HasUnsizedIsSomeLeaf(c: Config, e: Expr)
    ensures HasUnsized(c, e) <==> exists x :: x in OpenLeaves(e) && x.Num? && !x.sized && x.len < c.integer
  {
    match e
    case Bin(_, l, r) => HasUnsizedIsSomeLeaf(c, l); HasUnsizedIsSomeLeaf(c, r);
    case Shift(_, l, _, _, _) => HasUnsizedIsSomeLeaf(c, l);
    case Cond(t, f) => HasUnsizedIsSomeLeaf(c, t); HasUnsizedIsSomeLeaf(c, f);
    case Unary(x) => HasUnsizedIsSomeLeaf(c, x);
    case Reduce(x) => HasUnsizedIsSomeLeaf(c, x);
    case _ => assert e in OpenLeaves(e);
  }

  // ----- Minimum widths -----

  /** No division, right shift or power stands open. */
  predicate Prunable(e: Expr)
  {
    match e
    case Bin(op, l, r) => op != Div && Prunable(l) && Prunable(r)
    case Shift(op, l, _, _, _) => op == Left && Prunable(l)
    case Cond(t, f) => Prunable(t) && Prunable(f)
    case Unary(x) => Prunable(x)
    case _ => true
  }

  function LeafMin(x: Expr): nat
  {
    match x
    case Num(len, _, _) => len
    case Param(w, _, _) => w
    case Leaf(w, _) => w
    case _ => 1
  }

  /** Pruning is disabled where one does; else the minimum width is the largest of the leaves, an
      unsized number counting as long as it is. */
  lemma {:induction false} MinIsLargest(e: Expr)
    ensures !Prunable(e) ==> MinWidth(e) >= UINT_MAX
    ensures Prunable(e) ==> (exists x :: x in SignLeaves(e) && LeafMin(x) == MinWidth(e))
    ensures Prunable(e) ==> forall x :: x in SignLeaves(e) ==> LeafMin(x) <= MinWidth(e)
  {
    match e
    case Bin(_, l, r) => MinIsLargest(l); MinIsLargest(r);
    case Shift(_, l, _, _, _) => MinIsLargest(l);
    case Cond(t, f) => MinIsLargest(t); MinIsLargest(f);
    case Unary(x) => MinIsLargest(x);
    case _ => assert e in SignLeaves(e);
  }

  // ----- The room that the lossless rule leaves is needed -----

  function Result(op: BinOp, a: int, b: int): int
    requires op == Add || op == Sub || op == Mul
  {
    if op == Add then a + b else if op == Sub then a - b else a * b
  }

  lemma PowStep(n: nat)
    requires n >= 1
    ensures Pow2(n) == 2 * Pow2(n - 1) && Pow2(n - 1) >= 1
  {
    Pow2Positive(n - 1);
  }

  /** Some signed operands of `l` and `r` bits have a result that needs all bits of the loose
      width. */
  lemma LooseIsLeast(op: BinOp, l: nat, r: nat)
    requires l >= 1 && r >= 1 && (op == Add || op == Sub || op == Mul)
    ensures exists a, b :: Fits(a, l, true) && Fits(b, r, true) && !Fits(Result(op, a, b), OpWidth(op, l, r, true) - 1, true)
  {
    var p, q := Pow2(l - 1), Pow2(r - 1);
    PowStep(l);
    PowStep(r);
    var a, b := if op == Sub then p - 1 else -(p as int), -(q as int);
    assert Fits(a, l, true) && Fits(b, r, true);
    if op == Mul {
      Pow2Add(l - 1, r - 1);
      assert l + r - 2 == l - 1 + (r - 1);
      NegativeProduct(p, q);
      assert Result(op, a, b) == Pow2(l + r - 2);
    } else if l >= r {
      Pow2Grows(r - 1, l - 1);
    } else {
      Pow2Grows(l - 1, r - 1);
    }
  }

  lemma NegativeProduct(p: int, q: int)
    ensures (-p) * (-q) == p * q
  {
  }

  /** A loose mode makes no difference to a quotient or a bitwise operation. */
  lemma LooseNoMatter(op: BinOp, l: nat, r: nat)
    requires op == Div || op == Bits
    ensures OpWidth(op, l, r, true) == OpWidth(op, l, r, false)
  {
  }

  /** A left shift of an unsized operand needs the operand's width and the amount. */
  lemma LeftIsLeast(c: Config, e: Expr, lw: nat, rWidth: nat, rSigned: bool)
    requires e.Shift? && e.sop == Left && e.amount.Some? && 0 <= e.amount.value <= c.cap && rWidth < LONG_BITS && lw >= 1
    ensures var w := ShiftWidth(c, e, lw, false, false, rWidth, rSigned);
            w >= 1 && Fits(Pow2(lw) - 1, lw, false) && !Fits((Pow2(lw) - 1) * Pow2(e.amount.value), w - 1, false)
  {
    var n: nat := e.amount.value;
    assert Reach(c, e.sop, e.amount, rWidth, rSigned) == n;
    PowStep(lw);
    Pow2Add(lw - 1, n);
    Pow2Positive(n);
    Scaled(Pow2(lw - 1), Pow2(lw) - 1, Pow2(n));
  }

  lemma {:induction false} EvenPower(p: int, k: nat, n: nat)
    requires p == Pow2(k)
    ensures RaisedTo(-p, 2 * n) == Pow2(k * (2 * n))
  {
    if n == 0 {
      assert k * 0 == 0;
    } else {
      EvenPower(p, k, n - 1);
      var x := RaisedTo(-p, 2 * (n - 1));
      TwoMore(p, k, n, x);
      Pow2Add(k, k);
      Pow2Add(k + k, k * (2 * (n - 1)));
    }
  }

  lemma TwoMore(p: int, k: nat, n: nat, x: int)
    requires n >= 1 && x == RaisedTo(-p, 2 * (n - 1))
    ensures RaisedTo(-p, 2 * n) == (p * p) * x
    ensures k * (2 * n) == k + k + k * (2 * (n - 1)) && k * (2 * (n - 1)) >= 0
  {
    assert RaisedTo(-p, 2 * n - 1) == (-p) * x;
    NegativeProduct(p, p);
    Grouped(-p, -p, x);
  }

  lemma Grouped(a: int, b: int, x: int)
    ensures a * (b * x) == (a * b) * x
  {
  }

  /** A signed power with an even exponent needs all bits that it is given. */
  lemma SignedPowerIsLeast(c: Config, e: Expr, lw: nat, n: nat, rWidth: nat, rSigned: bool)
    requires e.Shift? && e.sop == Power && !e.l.Num? && e.amount == Some(2 * n) && 2 * n <= c.cap && rWidth < LONG_BITS && lw >= 1
    ensures var w := ShiftWidth(c, e, lw, true, false, rWidth, rSigned);
            w >= 1 && Fits(-(Pow2(lw - 1) as int), lw, true) && !Fits(RaisedTo(-(Pow2(lw - 1) as int), 2 * n), w - 1, true)
  {
    assert Reach(c, e.sop, e.amount, rWidth, rSigned) == 2 * n;
    PowStep(lw);
    EvenPower(Pow2(lw - 1), lw - 1, n);
    var k := (lw - 1) * (2 * n);
    NotNegative(lw - 1, 2 * n);
    assert ShiftWidth(c, e, lw, true, false, rWidth, rSigned) == k + 2;
  }

  lemma NotNegative(a: nat, b: nat)
    ensures a * b >= 0
  {
  }

  /** An unsigned power is given one more operand width for each step of the exponent, and
      nothing for the exponent 0. */
  lemma UnsignedPowerStep(c: Config, e: Expr, lw: nat, n: nat, rWidth: nat, rSigned: bool)
    requires e.Shift? && e.sop == Power && !e.l.Num? && n + 1 <= c.cap && rWidth < LONG_BITS
    ensures ShiftWidth(c, e.(amount := Some(0)), lw, false, false, rWidth, rSigned) == 0
    ensures ShiftWidth(c, e.(amount := Some(n + 1)), lw, false, false, rWidth, rSigned)
         == ShiftWidth(c, e.(amount := Some(n)), lw, false, false, rWidth, rSigned) + lw
  {
    assert Reach(c, e.sop, Some(n), rWidth, rSigned) == n && Reach(c, e.sop, Some(n + 1), rWidth, rSigned) == n + 1;
    assert Reach(c, e.sop, Some(0), rWidth, rSigned) == 0;
    OneMoreTime(lw, n);
  }

  lemma OneMoreTime(a: nat, n: nat)
    ensures a * (n + 1) == a * n + a && a * 0 == 0
  {
  }

  /** A right shift, and a left shift of a sized operand, stay as wide as the operand. */
  lemma NoGrowth(c: Config, e: Expr, lw: nat, lSigned: bool, lSized: bool, rWidth: nat, rSigned: bool)
    requires e.Shift? && (e.sop == Right || (e.sop == Left && lSized))
    ensures ShiftWidth(c, e, lw, lSigned, lSized, rWidth, rSigned) == lw
  {
  }

  /** The largest amount that `w` bits can hold; half of that as a signed exponent. */
  function Largest(op: ShiftOp, w: nat, signed: bool): nat
  {
    Pow2Positive(w);
    if op == Power && signed then (Pow2(w) - 1) / 2 else Pow2(w) - 1
  }

  /** An amount that is not known is taken for the largest, unless that passes the integer width:
      then it is the integer width. Amounts past the cap and below 0 count as the cap and as 0. */
  lemma UnknownAmount(c: Config, e: Expr, lw: nat, lSigned: bool, lSized: bool, rWidth: nat, rSigned: bool, v: int)
    requires e.Shift? && rWidth < LONG_BITS && !e.l.Num?
    ensures var top := ShiftWidth(c, e.(amount := Some(Largest(e.sop, rWidth, rSigned))), lw, lSigned, lSized, rWidth, rSigned);
            ShiftWidth(c, e.(amount := None), lw, lSigned, lSized, rWidth, rSigned)
            == if top <= lw || top <= c.integer then top else c.integer
    ensures ShiftWidth(c, e.(amount := Some(v)), lw, lSigned, lSized, rWidth, rSigned)
         == ShiftWidth(c, e.(amount := Some(if v < 0 then 0 else if v > c.cap then c.cap else v)), lw, lSigned, lSized, rWidth, rSigned)
  {
    var most := Largest(e.sop, rWidth, rSigned);
    assert Reach(c, e.sop, Some(most), rWidth, rSigned) == Reach(c, e.sop, None, rWidth, rSigned);
    assert Reach(c, e.sop, Some(v), rWidth, rSigned)
        == Reach(c, e.sop, Some(if v < 0 then 0 else if v > c.cap then c.cap else v), rWidth, rSigned);
    hide Reach;
  }
}
