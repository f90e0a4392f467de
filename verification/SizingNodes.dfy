/**
 Expression nodes as the elaborator holds them: `test_width` writes the fields of a node and,
 through its operands, of the whole subtree; a re-test overwrites them.
 */
module SizingNodes {
  import opened Sizing

  class PExpr {
    /** The parsed expression and the nodes of its operands, as `Operands` lists them. */
    const e: Expr
    const kids: seq<PExpr>
    ghost const repr: set<PExpr>

    var exprWidth: nat
    var minWidth: nat
    var signedFlag: bool

    /** The nodes form a tree for `e`. */
    ghost predicate Valid()
      decreases e
    {
      && this in repr && |kids| == |Operands(e)|
      && (forall k :: 0 <= k < |kids| ==>
            && kids[k].e == Operands(e)[k] && kids[k].e < e
            && kids[k].repr <= repr && this !in kids[k].repr && kids[k].Valid())
      && forall j, k :: 0 <= j < k < |kids| ==> kids[j].repr !! kids[k].repr
    }

    constructor (expr: Expr, operands: seq<PExpr>)
      requires |operands| == |Operands(expr)|
      requires forall k :: 0 <= k < |operands| ==> operands[k].Valid() && operands[k].e == Operands(expr)[k]
      requires forall j, k :: 0 <= j < k < |operands| ==> operands[j].repr !! operands[k].repr
      ensures Valid() && e == expr && kids == operands
    {
      e, kids := expr, operands;
      exprWidth, minWidth, signedFlag := 0, 0, false;
      repr := {this} + set k, p | 0 <= k < |operands| && p in operands[k].repr :: p;
    }

    /** A node with two operands: separate subtrees that do not hold the node. */
    lemma Pair()
      requires Valid() && |Operands(e)| == 2
      ensures |kids| == 2 && this in repr && kids[0].repr <= repr && kids[1].repr <= repr
      ensures kids[0].Valid() && kids[0].e == Operands(e)[0] && kids[0].e < e && kids[0] in kids[0].repr && this !in kids[0].repr
      ensures kids[1].Valid() && kids[1].e == Operands(e)[1] && kids[1].e < e && kids[1] in kids[1].repr && this !in kids[1].repr
      ensures kids[0].repr !! kids[1].repr
    {
    }

    /** The fields of this node hold what the last test found. */
    predicate Holds(t: Tested)
      reads this
    {
      exprWidth == t.full && minWidth == t.min && signedFlag == t.signed
    }

    /** PExpr::fix_width_ */
    method FixWidth(c: Config, mode: Mode) returns (w: nat)
      modifies this`exprWidth
      ensures w == old(exprWidth)
      ensures exprWidth == if mode == UPSIZE then Max(old(exprWidth), c.integer) else old(exprWidth)
    {
      w := exprWidth;
      if mode == UPSIZE && w < c.integer { exprWidth := c.integer; }
    }

    /** The test_width methods: returns the width and the new mode, and fills in the node. */
    method TestWidth(c: Config, mode: Mode) returns (w: nat, mode': Mode)
      requires Valid()
      modifies repr
      ensures var t := Sizing.TestWidth(c, e, mode); w == t.width && mode' == t.mode && Holds(t)
      decreases e, 2
    {
      mode' := mode;
      match e {
        case Num(len, sized, signed) =>
          exprWidth, minWidth, signedFlag := len, len, signed;
          if !sized && !IsLossless(mode') {
            if exprWidth < c.integer {
              exprWidth := c.integer;
              if mode' == SIZED { mode' := UNSIZED; }
            } else {
              mode' := LOSSLESS;
            }
          }
          w := exprWidth;
        case Param(width, hasWidth, signed) =>
          exprWidth, minWidth, signedFlag := width, width, signed;
          if !hasWidth && !IsLossless(mode') { mode' := LOSSLESS; }
          w := exprWidth;
        case Leaf(width, signed) =>
          exprWidth, minWidth, signedFlag := width, width, signed;
          w := exprWidth;
        case Bin(op, _, _) =>
          w, mode' := TestBinary(c, mode);
        case Shift(op, _, _, _, _) =>
          w, mode' := TestShift(c, mode);
        case Cond(_, _) =>
          w, mode' := TestTernary(c, mode);
        case Unary(_) =>
          exprWidth, mode' := kids[0].TestWidth(c, mode);
          minWidth, signedFlag := kids[0].minWidth, kids[0].signedFlag;
          w := FixWidth(c, mode');
        case Reduce(_) =>
          exprWidth, mode' := kids[0].TestWidth(c, mode);
          var subWidth, subMode := kids[0].TestWidth(c, SIZED);
          exprWidth, minWidth, signedFlag := 1, 1, false;
          w := exprWidth;
      }
    }

    /** The two operands of a binary operator: right, left, and right once more when the left
        one turned the mode lossless. */
    method TestOperands(c: Config, mode: Mode) returns (lWidth: nat, rWidth: nat, mode': Mode)
      requires Valid() && e.Bin?
      modifies repr
      ensures var r1 := Sizing.TestWidth(c, e.r, mode);
              var l1 := Sizing.TestWidth(c, e.l, r1.mode);
              var r2 := if IsLossless(l1.mode) && !IsLossless(r1.mode) then Sizing.TestWidth(c, e.r, l1.mode) else r1.(mode := l1.mode);
              && |kids| == 2 && lWidth == l1.width && rWidth == r2.width && mode' == r2.mode
              && kids[0].minWidth == l1.min && kids[0].signedFlag == l1.signed
              && kids[1].minWidth == r2.min && kids[1].signedFlag == r2.signed
      decreases e, 0
    {
      Pair();
      hide Sizing.TestWidth, Valid;
      var left, right := kids[0], kids[1];
      var m1;
      rWidth, m1 := right.TestWidth(c, mode);
      lWidth, mode' := left.TestWidth(c, m1);
      if IsLossless(mode') && !IsLossless(m1) {
        rWidth, mode' := right.TestWidth(c, mode');
      }
    }

    /** PEBinary::test_width. */
    method TestBinary(c: Config, mode: Mode) returns (w: nat, mode': Mode)
      requires Valid() && e.Bin?
      modifies repr
      ensures var t := Sizing.TestWidth(c, e, mode); w == t.width && mode' == t.mode && Holds(t)
      decreases e, 1
    {
      TestBin(c, e, mode);
      Pair();
      hide OpWidth, Sizing.TestWidth, Valid;
      var lWidth, rWidth;
      lWidth, rWidth, mode' := TestOperands(c, mode);
      var left, right := kids[0], kids[1];
      minWidth := Max(left.minWidth, right.minWidth);
      signedFlag := left.signedFlag && right.signedFlag;
      if mode' == LOSSLESS && left.signedFlag != right.signedFlag { mode' := UPSIZE; }
      SetBinaryWidth(lWidth, rWidth, mode');
      w := FixWidth(c, mode');
    }

    method SetBinaryWidth(lWidth: nat, rWidth: nat, mode: Mode)
      requires e.Bin?
      modifies this`exprWidth, this`minWidth
      ensures exprWidth == OpWidth(e.op, lWidth, rWidth, Loose(mode))
      ensures minWidth == if e.op == Div then UINT_MAX else old(minWidth)
    {
      exprWidth := Max(lWidth, rWidth);
      match e.op {
        case Add => if Loose(mode) { exprWidth := exprWidth + 1; }
        case Sub => if Loose(mode) { exprWidth := exprWidth + 1; }
        case Mul => if Loose(mode) { exprWidth := lWidth + rWidth; }
        case Div => minWidth := UINT_MAX;
        case Bits =>
      }
    }

    /** PETernary::test_width. */
    method TestTernary(c: Config, mode: Mode) returns (w: nat, mode': Mode)
      requires Valid() && e.Cond?
      modifies repr
      ensures var t := Sizing.TestWidth(c, e, mode); w == t.width && mode' == t.mode && Holds(t)
      decreases e, 0
    {
      TestCond(c, e, mode);
      Pair();
      hide Sizing.TestWidth, Valid;
      var tru, fal := kids[0], kids[1];
      var truWidth, m1 := tru.TestWidth(c, mode);
      var saved := m1;
      var falWidth, m2 := fal.TestWidth(c, m1);
      mode' := m2;
      if IsLossless(mode') && !IsLossless(saved) {
        truWidth, mode' := tru.TestWidth(c, mode');
      }
      exprWidth := Max(truWidth, falWidth);
      minWidth := Max(tru.minWidth, fal.minWidth);
      signedFlag := tru.signedFlag && fal.signedFlag;
      if mode' == LOSSLESS && tru.signedFlag != fal.signedFlag { mode' := UPSIZE; }
      w := FixWidth(c, mode');
    }

    /** PEBLeftWidth::test_width. */
    method TestShift(c: Config, mode: Mode) returns (w: nat, mode': Mode)
      requires Valid() && e.Shift?
      modifies repr
      ensures var t := Sizing.TestWidth(c, e, mode); w == t.width && mode' == t.mode && Holds(t)
      decreases e, 0
    {
      TestShifted(c, e, mode);
      Pair();
      hide Sizing.TestWidth, Valid, ShiftWidth;
      var left, right := kids[0], kids[1];
      var rWidth, rMode := right.TestWidth(c, SIZED);
      var width, lMode := left.TestWidth(c, SIZED);
      exprWidth, signedFlag := width, left.signedFlag;
      mode' := mode;
      if mode' == SIZED { mode' := lMode; }
      if Loose(mode') {
        exprWidth := ShiftWidth(c, e, exprWidth, signedFlag, lMode == SIZED, rWidth, right.signedFlag);
        if e.sop == Right && mode' == LOSSLESS && signedFlag { mode' := UPSIZE; }
      }
      minWidth := if e.sop == Left then left.minWidth else UINT_MAX;
      w := FixWidth(c, mode');
    }
  }

  function Operands(e: Expr): seq<Expr>
  {
    match e
    case Num(_, _, _) => []
    case Param(_, _, _) => []
    case Leaf(_, _) => []
    case Bin(_, l, r) => [l, r]
    case Shift(_, l, r, _, _) => [l, r]
    case Cond(t, f) => [t, f]
    case Unary(x) => [x]
    case Reduce(x) => [x]
  }
}
