/**
 Expression sizing. `test_width` walks an expression bottom-up with a width mode that it may
 raise, and tests an operand again when the mode turned lossless after the operand was tested.
 */
module Sizing {
  import opened Powers
  import opened Options

  datatype Mode = SIZED | UNSIZED | EXPAND | LOSSLESS | UPSIZE

  function Rank(m: Mode): nat
  {
    match m case SIZED => 0 case UNSIZED => 1 case EXPAND => 2 case LOSSLESS => 3 case UPSIZE => 4
  }

  predicate Loose(m: Mode) { Rank(m) >= Rank(EXPAND) }

  predicate IsLossless(m: Mode) { Rank(m) >= Rank(LOSSLESS) }

  datatype BinOp = Add | Sub | Mul | Div | Bits

  datatype ShiftOp = Left | Right | Power

  /** Vector expressions. A right operand of a shift or power may be a known constant, and
      `powLen` is then the length of the power of two literal numbers. */
  datatype Expr =
    | Num(len: nat, sized: bool, signed: bool)
    | Param(width: nat, hasWidth: bool, signed: bool)
    | Leaf(width: nat, signed: bool)
    | Bin(op: BinOp, l: Expr, r: Expr)
    | Shift(sop: ShiftOp, l: Expr, r: Expr, amount: Option<int>, powLen: nat)
    | Cond(t: Expr, f: Expr)
    | Unary(e: Expr)
    | Reduce(e: Expr)

  /** Widths of `integer` and the cap on lossless widths; both are compiler settings. */
  datatype Config = Config(integer: nat, cap: nat)

  const UINT_MAX: nat := 0xFFFF_FFFF

  const LONG_BITS: nat := 64

  function Max(a: nat, b: nat): nat { if a < b then b else a }

  /** The width of a binary operation; a loose mode leaves room for carries and products. */
  function OpWidth(op: BinOp, l: nat, r: nat, loose: bool): nat
  {
    match op
    case Add => if loose then Max(l, r) + 1 else Max(l, r)
    case Sub => if loose then Max(l, r) + 1 else Max(l, r)
    case Mul => if loose then l + r else Max(l, r)
    case Div => Max(l, r)
    case Bits => Max(l, r)
  }

  /** What a test leaves in a node and returns: `width` is returned, `full` is expr_width_. */
  datatype Tested = Tested(width: nat, full: nat, min: nat, signed: bool, mode: Mode)

  /** PExpr::fix_width_ */
  function Fix(c: Config, width: nat, min: nat, signed: bool, m: Mode): Tested
  {
    Tested(width, if m == UPSIZE then Max(width, c.integer) else width, min, signed, m)
  }

  /** The shift amount or exponent a lossless width has to allow for. */
  function Reach(c: Config, op: ShiftOp, amount: Option<int>, rWidth: nat, rSigned: bool): nat
  {
    var top := if rWidth < LONG_BITS then Pow2(rWidth) - 1 else Pow2(LONG_BITS - 1) - 1;
    var guess := if op == Power && rSigned && rWidth < LONG_BITS then top / 2 else top;
    var cwid := if rSigned then LONG_BITS else LONG_BITS - 1;
    var v := if amount.Some? && rWidth <= cwid then amount.value else guess;
    if v < 0 then 0 else if v > c.cap then c.cap else v
  }

  /** The lossless width of a shift or power, given the width of its left operand. */
  function ShiftWidth(c: Config, e: Expr, lWidth: nat, lSigned: bool, lSized: bool, rWidth: nat, rSigned: bool): nat
    requires e.Shift?
  {
    var n := Reach(c, e.sop, e.amount, rWidth, rSigned);
    var use := match e.sop
      case Left => if lSized then lWidth else lWidth + n
      case Right => lWidth
      case Power =>
        if e.l.Num? && e.amount.Some? then Max(lWidth, e.powLen)
        else if lSigned then (if lWidth == 0 then 0 else lWidth - 1) * n + 2
        else lWidth * n;
    if e.amount.None? && use > lWidth && use > c.integer then c.integer else use
  }

  /** What a binary operator makes of its tested operands; the mode of the right one counts. */
  function Combined(c: Config, op: BinOp, l: Tested, r: Tested): Tested
  {
    var m' := if r.mode == LOSSLESS && l.signed != r.signed then UPSIZE else r.mode;
    Fix(c, OpWidth(op, l.width, r.width, Loose(m')), if op == Div then UINT_MAX else Max(l.min, r.min), l.signed && r.signed, m')
  }

  /** The same for the conditional operator; the mode of the true clause counts. */
  function Chosen(c: Config, t: Tested, f: Tested): Tested
  {
    var m' := if t.mode == LOSSLESS && t.signed != f.signed then UPSIZE else t.mode;
    Fix(c, Max(t.width, f.width), Max(t.min, f.min), t.signed && f.signed, m')
  }

  /** The same for a shift or power in mode `m`, whose operands are tested on their own. */
  function Shifted(c: Config, e: Expr, m: Mode, l: Tested, r: Tested): Tested
    requires e.Shift?
  {
    var m1 := if m == SIZED then l.mode else m;
    var m' := if e.sop == Right && m1 == LOSSLESS && l.signed then UPSIZE else m1;
    var width := if Loose(m1) then ShiftWidth(c, e, l.width, l.signed, l.mode == SIZED, r.width, r.signed) else l.width;
    Fix(c, width, if e.sop == Left then l.min else UINT_MAX, l.signed, m')
  }

  /** The stateful pass, with the mode threaded through. */
  function TestWidth(c: Config, e: Expr, m: Mode): Tested
    decreases e
  {
    match e
    case Num(len, sized, signed) =>
      if !sized && !IsLossless(m) then
        if len < c.integer then
          Tested(c.integer, c.integer, len, signed, if m == SIZED then UNSIZED else m)
        else Tested(len, len, len, signed, LOSSLESS)
      else Tested(len, len, len, signed, m)
    case Param(width, hasWidth, signed) =>
      Tested(width, width, width, signed, if !hasWidth && !IsLossless(m) then LOSSLESS else m)
    case Leaf(width, signed) => Tested(width, width, width, signed, m)
    case Bin(op, l, r) =>
      var r1 := TestWidth(c, r, m);
      var l1 := TestWidth(c, l, r1.mode);
      var r2 := if IsLossless(l1.mode) && !IsLossless(r1.mode) then TestWidth(c, r, l1.mode) else r1.(mode := l1.mode);
      Combined(c, op, l1, r2)
    case Shift(op, l, r, _, _) =>
      var r1 := TestWidth(c, r, SIZED);
      var l1 := TestWidth(c, l, SIZED);
      Shifted(c, e, m, l1, r1)
    case Cond(t, f) =>
      var t1 := TestWidth(c, t, m);
      var f1 := TestWidth(c, f, t1.mode);
      var t2 := if IsLossless(f1.mode) && !IsLossless(t1.mode) then TestWidth(c, t, f1.mode) else t1.(mode := f1.mode);
      Chosen(c, t2, f1)
    case Unary(x) =>
      var x1 := TestWidth(c, x, m);
      Fix(c, x1.width, x1.min, x1.signed, x1.mode)
    case Reduce(x) =>
      Tested(1, 1, 1, false, TestWidth(c, x, m).mode)
  }

  /** The test of a binary operator, step by step. */
  lemma TestBin(c: Config, e: Expr, m: Mode)
    requires e.Bin?
    ensures var r1 := TestWidth(c, e.r, m);
            var l1 := TestWidth(c, e.l, r1.mode);
            var r2 := TestWidth(c, e.r, l1.mode);
            TestWidth(c, e, m) ==
              Combined(c, e.op, l1, if IsLossless(l1.mode) && !IsLossless(r1.mode) then r2 else r1.(mode := l1.mode))
  {
  }

  lemma TestCond(c: Config, e: Expr, m: Mode)
    requires e.Cond?
    ensures var t1 := TestWidth(c, e.t, m);
            var f1 := TestWidth(c, e.f, t1.mode);
            var t2 := TestWidth(c, e.t, f1.mode);
            TestWidth(c, e, m) ==
              Chosen(c, if IsLossless(f1.mode) && !IsLossless(t1.mode) then t2 else t1.(mode := f1.mode), f1)
  {
  }

  lemma TestShifted(c: Config, e: Expr, m: Mode)
    requires e.Shift?
    ensures TestWidth(c, e, m) == Shifted(c, e, m, TestWidth(c, e.l, SIZED), TestWidth(c, e.r, SIZED))
  {
  }

  // ----- The two-pass specification -----

  /** First pass. Does the expression hold an unsized number that makes a sized test unsized? */
  predicate HasUnsized(c: Config, e: Expr)
  {
    match e
    case Num(len, sized, _) => !sized && len < c.integer
    case Param(_, _, _) => false
    case Leaf(_, _) => false
    case Bin(_, l, r) => HasUnsized(c, l) || HasUnsized(c, r)
    case Shift(_, l, _, _, _) => HasUnsized(c, l)
    case Cond(t, f) => HasUnsized(c, t) || HasUnsized(c, f)
    case Unary(x) => HasUnsized(c, x)
    case Reduce(x) => HasUnsized(c, x)
  }

  /** First pass. Does the expression force the lossless mode? A shift or power passes on what
      its left operand forces only where the test is still sized. */
  predicate Forces(c: Config, e: Expr, sized: bool)
  {
    match e
    case Num(len, sz, _) => !sz && len >= c.integer
    case Param(_, hasWidth, _) => !hasWidth
    case Leaf(_, _) => false
    case Bin(_, l, r) => Forces(c, r, sized) || Forces(c, l, sized && !HasUnsized(c, r))
    case Shift(_, l, _, _, _) => sized && Forces(c, l, true)
    case Cond(t, f) => Forces(c, t, sized) || Forces(c, f, sized && !HasUnsized(c, t))
    case Unary(x) => Forces(c, x, sized)
    case Reduce(x) => Forces(c, x, sized)
  }

  predicate Sign(e: Expr)
  {
    match e
    case Num(_, _, s) => s
    case Param(_, _, s) => s
    case Leaf(_, s) => s
    case Bin(_, l, r) => Sign(l) && Sign(r)
    case Shift(_, l, _, _, _) => Sign(l)
    case Cond(t, f) => Sign(t) && Sign(f)
    case Unary(x) => Sign(x)
    case Reduce(_) => false
  }

  function MinWidth(e: Expr): nat
  {
    match e
    case Num(len, _, _) => len
    case Param(w, _, _) => w
    case Leaf(w, _) => w
    case Bin(op, l, r) => if op == Div then UINT_MAX else Max(MinWidth(l), MinWidth(r))
    case Shift(op, l, _, _, _) => if op == Left then MinWidth(l) else UINT_MAX
    case Cond(t, f) => Max(MinWidth(t), MinWidth(f))
    case Unary(x) => MinWidth(x)
    case Reduce(_) => 1
  }

  /** The rule by which all widths of an expression are computed. */
  datatype Rule = Standard | Expanding | AllLossless

  /** Second pass. The width under one rule for the whole expression. */
  function WidthBy(c: Config, e: Expr, rule: Rule): nat
    decreases e, 0
  {
    match e
    case Num(len, sized, _) => if !sized && rule != AllLossless then Max(len, c.integer) else len
    case Param(w, _, _) => w
    case Leaf(w, _) => w
    case Bin(op, l, r) =>
      OpWidth(op, WidthBy(c, l, rule), WidthBy(c, r, rule), rule != Standard)
    case Shift(_, l, r, _, _) =>
      var a := SelfWidth(c, l);
      if rule == Standard then a
      else ShiftWidth(c, e, a, Sign(l), !Forces(c, l, true) && !HasUnsized(c, l), SelfWidth(c, r), Sign(r))
    case Cond(t, f) => Max(WidthBy(c, t, rule), WidthBy(c, f, rule))
    case Unary(x) => WidthBy(c, x, rule)
    case Reduce(_) => 1
  }

  /** The width of a self-determined operand. */
  function SelfWidth(c: Config, e: Expr): nat
    decreases e, 1
  {
    WidthBy(c, e, if Forces(c, e, true) then AllLossless else Standard)
  }

  function RuleFor(m: Mode, m': Mode): Rule
  {
    if IsLossless(m') then AllLossless else if m == EXPAND then Expanding else Standard
  }

  /** Tested in mode `m`, the expression ends in the mode and with the width of the two passes. */
  ghost predicate TwoPass(c: Config, e: Expr, m: Mode, r: Tested)
  {
    && Rank(m) <= Rank(r.mode)
    && (IsLossless(r.mode) <==> IsLossless(m) || Forces(c, e, m == SIZED))
    && (!IsLossless(r.mode) ==> r.mode == if m == SIZED && HasUnsized(c, e) then UNSIZED else m)
    && r.width == WidthBy(c, e, RuleFor(m, r.mode))
    && r.signed == Sign(e) && r.min == MinWidth(e)
  }

  lemma BinTwoPass(c: Config, e: Expr, m: Mode)
    requires e.Bin?
    requires TwoPass(c, e.r, m, TestWidth(c, e.r, m))
    requires var m1 := TestWidth(c, e.r, m).mode; TwoPass(c, e.l, m1, TestWidth(c, e.l, m1))
    requires var m2 := TestWidth(c, e.l, TestWidth(c, e.r, m).mode).mode; TwoPass(c, e.r, m2, TestWidth(c, e.r, m2))
    ensures TwoPass(c, e, m, TestWidth(c, e, m))
  {
    hide OpWidth;
    var r1 := TestWidth(c, e.r, m);
    var l1 := TestWidth(c, e.l, r1.mode);
    var r2 := if IsLossless(l1.mode) && !IsLossless(r1.mode) then TestWidth(c, e.r, l1.mode) else r1.(mode := l1.mode);
    assert RuleFor(r1.mode, l1.mode) == RuleFor(m, l1.mode);
    assert r2.width == WidthBy(c, e.r, RuleFor(m, l1.mode));
    assert l1.width == WidthBy(c, e.l, RuleFor(m, l1.mode));
  }

  lemma CondTwoPass(c: Config, e: Expr, m: Mode)
    requires e.Cond?
    requires TwoPass(c, e.t, m, TestWidth(c, e.t, m))
    requires var m1 := TestWidth(c, e.t, m).mode; TwoPass(c, e.f, m1, TestWidth(c, e.f, m1))
    requires var m2 := TestWidth(c, e.f, TestWidth(c, e.t, m).mode).mode; TwoPass(c, e.t, m2, TestWidth(c, e.t, m2))
    ensures TwoPass(c, e, m, TestWidth(c, e, m))
  {
    var t1 := TestWidth(c, e.t, m);
    var f1 := TestWidth(c, e.f, t1.mode);
    assert RuleFor(t1.mode, f1.mode) == RuleFor(m, f1.mode);
  }

  lemma ShiftTwoPass(c: Config, e: Expr, m: Mode)
    requires e.Shift?
    requires TwoPass(c, e.r, SIZED, TestWidth(c, e.r, SIZED)) && TwoPass(c, e.l, SIZED, TestWidth(c, e.l, SIZED))
    ensures TwoPass(c, e, m, TestWidth(c, e, m))
  {
    hide ShiftWidth;
    var l1 := TestWidth(c, e.l, SIZED);
    assert l1.width == SelfWidth(c, e.l);
    assert TestWidth(c, e.r, SIZED).width == SelfWidth(c, e.r);
    assert l1.mode == SIZED <==> !Forces(c, e.l, true) && !HasUnsized(c, e.l);
  }

  /** The single pass with operand re-test refines the two-pass specification. */
  lemma {:induction false} TestWidthIsTwoPass(c: Config, e: Expr, m: Mode)
    ensures TwoPass(c, e, m, TestWidth(c, e, m))
  {
    match e
    case Num(_, _, _) =>
    case Param(_, _, _) =>
    case Leaf(_, _) =>
    case Bin(op, l, r) =>
      hide TwoPass;
      var m1 := TestWidth(c, r, m).mode;
      TestWidthIsTwoPass(c, r, m);
      TestWidthIsTwoPass(c, l, m1);
      TestWidthIsTwoPass(c, r, TestWidth(c, l, m1).mode);
      BinTwoPass(c, e, m);
    case Shift(op, l, r, _, _) =>
      hide TwoPass;
      TestWidthIsTwoPass(c, r, SIZED);
      TestWidthIsTwoPass(c, l, SIZED);
      ShiftTwoPass(c, e, m);
    case Cond(t, f) =>
      hide TwoPass;
      var m1 := TestWidth(c, t, m).mode;
      TestWidthIsTwoPass(c, t, m);
      TestWidthIsTwoPass(c, f, m1);
      TestWidthIsTwoPass(c, t, TestWidth(c, f, m1).mode);
      CondTwoPass(c, e, m);
    case Unary(x) => TestWidthIsTwoPass(c, x, m);
    case Reduce(x) => TestWidthIsTwoPass(c, x, m);
  }

  // ----- Consequences -----

  /** The numbers and names whose mode changes reach the whole expression, and whether shifts
      or powers stand between them and it. */
  function OpenLeaves(e: Expr): set<Expr>
  {
    match e
    case Num(_, _, _) => {e}
    case Param(_, _, _) => {e}
    case Leaf(_, _) => {e}
    case Bin(_, l, r) => OpenLeaves(l) + OpenLeaves(r)
    case Shift(_, l, _, _, _) => OpenLeaves(l)
    case Cond(t, f) => OpenLeaves(t) + OpenLeaves(f)
    case Unary(x) => OpenLeaves(x)
    case Reduce(x) => OpenLeaves(x)
  }

  predicate NoShift(e: Expr)
  {
    match e
    case Num(_, _, _) => true
    case Param(_, _, _) => true
    case Leaf(_, _) => true
    case Bin(_, l, r) => NoShift(l) && NoShift(r)
    case Shift(_, _, _, _, _) => false
    case Cond(t, f) => NoShift(t) && NoShift(f)
    case Unary(x) => NoShift(x)
    case Reduce(x) => NoShift(x)
  }

  predicate LeafForces(c: Config, x: Expr)
  {
    (x.Num? && !x.sized && x.len >= c.integer) || (x.Param? && !x.hasWidth)
  }

  /** Without shifts the lossless mode is forced exactly by the leaves, in any position. */
  lemma {:induction false} ForcesIsSomeLeaf(c: Config, e: Expr, sized: bool)
    requires NoShift(e)
    ensures Forces(c, e, sized) <==> exists x :: x in OpenLeaves(e) && LeafForces(c, x)
  {
    match e
    case Num(_, _, _) => assert e in OpenLeaves(e);
    case Param(_, _, _) => assert e in OpenLeaves(e);
    case Leaf(_, _) =>
    case Bin(_, l, r) =>
      ForcesIsSomeLeaf(c, r, sized);
      ForcesIsSomeLeaf(c, l, sized && !HasUnsized(c, r));
    case Cond(t, f) =>
      ForcesIsSomeLeaf(c, t, sized);
      ForcesIsSomeLeaf(c, f, sized && !HasUnsized(c, t));
    case Unary(x) => ForcesIsSomeLeaf(c, x, sized);
    case Reduce(x) => ForcesIsSomeLeaf(c, x, sized);
  }

  /** With shifts it depends on the order of the operands: `5 + (P << 1)` is lossless for an
      unsized parameter P, `(P << 1) + 5` is not. */
  lemma ShiftOrderMatters(c: Config)
    requires c.integer > 3
    ensures var five, shifted := Num(3, false, true), Shift(Left, Param(8, false, true), Leaf(1, false), Some(1), 0);
      && IsLossless(TestWidth(c, Bin(Add, five, shifted), SIZED).mode)
      && !IsLossless(TestWidth(c, Bin(Add, shifted, five), SIZED).mode)
  {
    var five, shifted := Num(3, false, true), Shift(Left, Param(8, false, true), Leaf(1, false), Some(1), 0);
    assert Forces(c, shifted.l, true);
    TestWidthIsTwoPass(c, Bin(Add, five, shifted), SIZED);
    TestWidthIsTwoPass(c, Bin(Add, shifted, five), SIZED);
    hide TestWidth, WidthBy, MinWidth, ShiftWidth;
    assert HasUnsized(c, five) && !Forces(c, five, true) && !Forces(c, shifted, false);
  }

  /** Some operator mixes a signed and an unsigned operand. */
  predicate Mixed(e: Expr)
  {
    match e
    case Num(_, _, _) => false
    case Param(_, _, _) => false
    case Leaf(_, _) => false
    case Bin(_, l, r) => Sign(l) != Sign(r) || Mixed(l) || Mixed(r)
    case Shift(_, l, _, _, _) => Mixed(l)
    case Cond(t, f) => Sign(t) != Sign(f) || Mixed(t) || Mixed(f)
    case Unary(x) => Mixed(x)
    case Reduce(x) => Mixed(x)
  }

  /** The mode that a test starts from, as far as it matters here. */
  datatype Start = AtSized | AtLoose | AtLossless

  function StartOf(m: Mode): Start
  {
    if IsLossless(m) then AtLossless else if m == SIZED then AtSized else AtLoose
  }

  /** The start of a test that follows the test of `e`. */
  function After(c: Config, e: Expr, s: Start): Start
  {
    if s == AtLossless || Forces(c, e, s == AtSized) then AtLossless
    else if s == AtSized && HasUnsized(c, e) then AtLoose
    else s
  }

  /** First pass. A test that starts at `s` and ends lossless asks for at least the integer width:
      a signed operand meets an unsigned one, or a signed operand is shifted right. What clashes
      inside the left operand of a shift counts only where the test of the shift is sized. */
  predicate Clash(c: Config, e: Expr, s: Start)
  {
    match e
    case Num(_, _, _) => false
    case Param(_, _, _) => false
    case Leaf(_, _) => false
    case Bin(_, l, r) =>
      Sign(l) != Sign(r) || Clash(c, l, After(c, r, s)) || Clash(c, r, if After(c, r, s) == AtLossless then s else AtLossless)
    case Shift(op, l, _, _, _) => (op == Right && Sign(l)) || (s == AtSized && Clash(c, l, AtSized))
    case Cond(t, f) =>
      Sign(t) != Sign(f) || Clash(c, f, After(c, t, s)) || Clash(c, t, if After(c, t, s) == AtLossless then s else AtLossless)
    case Unary(x) => Clash(c, x, s)
    case Reduce(x) => Clash(c, x, s)
  }

  /** Tested in mode `m`, the expression ends in UPSIZE exactly when the first pass says so, and
      an operator then stores at least the integer width. */
  ghost predicate Upsized(c: Config, e: Expr, m: Mode, r: Tested)
  {
    && (r.mode == UPSIZE <==> m == UPSIZE || (IsLossless(r.mode) && Clash(c, e, StartOf(m))))
    && r.full == if r.mode == UPSIZE && (e.Bin? || e.Shift? || e.Cond? || e.Unary?) then Max(r.width, c.integer) else r.width
  }

  lemma AfterIs(c: Config, e: Expr, m: Mode)
    ensures StartOf(TestWidth(c, e, m).mode) == After(c, e, StartOf(m))
  {
    hide WidthBy, MinWidth;
    TestWidthIsTwoPass(c, e, m);
  }

  lemma Signs(c: Config, e: Expr, m: Mode)
    ensures TestWidth(c, e, m).signed == Sign(e) && Rank(m) <= Rank(TestWidth(c, e, m).mode)
  {
    hide WidthBy, MinWidth, Forces;
    TestWidthIsTwoPass(c, e, m);
  }

  lemma BinUpsized(c: Config, e: Expr, m: Mode)
    requires e.Bin?
    requires Upsized(c, e.r, m, TestWidth(c, e.r, m))
    requires var m1 := TestWidth(c, e.r, m).mode; Upsized(c, e.l, m1, TestWidth(c, e.l, m1))
    requires var m2 := TestWidth(c, e.l, TestWidth(c, e.r, m).mode).mode; Upsized(c, e.r, m2, TestWidth(c, e.r, m2))
    ensures Upsized(c, e, m, TestWidth(c, e, m))
  {
    TestBin(c, e, m);
    hide TestWidth, OpWidth, After, Forces, HasUnsized, Sign;
    var r1 := TestWidth(c, e.r, m);
    var l1 := TestWidth(c, e.l, r1.mode);
    AfterIs(c, e.r, m);
    Signs(c, e.r, m);
    Signs(c, e.l, r1.mode);
    Signs(c, e.r, l1.mode);
  }

  lemma CondUpsized(c: Config, e: Expr, m: Mode)
    requires e.Cond?
    requires Upsized(c, e.t, m, TestWidth(c, e.t, m))
    requires var m1 := TestWidth(c, e.t, m).mode; Upsized(c, e.f, m1, TestWidth(c, e.f, m1))
    requires var m2 := TestWidth(c, e.f, TestWidth(c, e.t, m).mode).mode; Upsized(c, e.t, m2, TestWidth(c, e.t, m2))
    ensures Upsized(c, e, m, TestWidth(c, e, m))
  {
    TestCond(c, e, m);
    hide TestWidth, OpWidth, After, Forces, HasUnsized, Sign;
    var t1 := TestWidth(c, e.t, m);
    var f1 := TestWidth(c, e.f, t1.mode);
    AfterIs(c, e.t, m);
    Signs(c, e.t, m);
    Signs(c, e.f, t1.mode);
    Signs(c, e.t, f1.mode);
  }

  lemma ShiftUpsized(c: Config, e: Expr, m: Mode)
    requires e.Shift? && Upsized(c, e.l, SIZED, TestWidth(c, e.l, SIZED))
    ensures Upsized(c, e, m, TestWidth(c, e, m))
  {
    hide ShiftWidth, Sign;
    Signs(c, e.l, SIZED);
  }

  /** The mode that a test ends in is decided by the first pass, for every expression. */
  lemma {:induction false} UpsizeIff(c: Config, e: Expr, m: Mode)
    ensures Upsized(c, e, m, TestWidth(c, e, m))
  {
    match e
    case Num(_, _, _) =>
    case Param(_, _, _) =>
    case Leaf(_, _) =>
    case Bin(op, l, r) =>
      hide Upsized;
      var m1 := TestWidth(c, r, m).mode;
      UpsizeIff(c, r, m);
      UpsizeIff(c, l, m1);
      UpsizeIff(c, r, TestWidth(c, l, m1).mode);
      BinUpsized(c, e, m);
    case Shift(op, l, r, _, _) =>
      hide Upsized;
      UpsizeIff(c, l, SIZED);
      ShiftUpsized(c, e, m);
    case Cond(t, f) =>
      hide Upsized;
      var m1 := TestWidth(c, t, m).mode;
      UpsizeIff(c, t, m);
      UpsizeIff(c, f, m1);
      UpsizeIff(c, t, TestWidth(c, f, m1).mode);
      CondUpsized(c, e, m);
    case Unary(x) => UpsizeIff(c, x, m);
    case Reduce(x) => UpsizeIff(c, x, m);
  }

  /** Without shifts it is any operator that mixes signed and unsigned, wherever it stands. */
  lemma {:induction false} ClashIsMixed(c: Config, e: Expr, s: Start)
    requires NoShift(e)
    ensures Clash(c, e, s) <==> Mixed(e)
  {
    match e
    case Num(_, _, _) =>
    case Param(_, _, _) =>
    case Leaf(_, _) =>
    case Bin(_, l, r) =>
      ClashIsMixed(c, l, After(c, r, s));
      ClashIsMixed(c, r, if After(c, r, s) == AtLossless then s else AtLossless);
    case Cond(t, f) =>
      ClashIsMixed(c, f, After(c, t, s));
      ClashIsMixed(c, t, if After(c, t, s) == AtLossless then s else AtLossless);
    case Unary(x) => ClashIsMixed(c, x, s);
    case Reduce(x) => ClashIsMixed(c, x, s);
  }
}
