/**
 Short cuts that the elaboration of an expression takes when operands are constant, and the
 four-state operators that they must agree with (sections 5.1.5, 5.1.9, 5.1.12 and 5.1.13 of
 IEEE 1364-2005).
 */
module ConstantCases {
  import opened FourState
  import opened Powers
  import opened Integers
  import opened Options

  // ----- The general operators -----

  datatype ShiftOp = ShiftLeft | ShiftRight | ShiftRightArithmetic

  /** The bit that a right shift brings in. */
  function ShiftFill(op: ShiftOp, signed: bool, v: Vec): V
  {
    if op == ShiftRightArithmetic && signed && v != [] then v[|v| - 1] else V0
  }

  function Shift(op: ShiftOp, signed: bool, v: Vec, amount: Vec): (r: Vec)
    ensures |r| == |v|
  {
    if !Defined(amount) then Fill(Vx, |v|)
    else
      var n := ToNat(amount);
      if op == ShiftLeft then
        seq(|v|, i requires 0 <= i < |v| => if i >= n then v[i - n] else V0)
      else
        seq(|v|, i requires 0 <= i < |v| => if i + n < |v| then v[i + n] else ShiftFill(op, signed, v))
  }

  function Multiply(a: Vec, b: Vec, w: nat): (r: Vec)
    ensures |r| == w
  {
    if Defined(a) && Defined(b) then FromNat(ToNat(a) * ToNat(b), w) else Fill(Vx, w)
  }

  function Or(a: V, b: V): V
  {
    if a == V1 || b == V1 then V1 else if a == V0 && b == V0 then V0 else Vx
  }

  function Not(a: V): V
  {
    match a case V0 => V1 case V1 => V0 case _ => Vx
  }

  /** The bits of a vector, or-ed together. */
  function OrFold(v: Vec): V
  {
    if v == [] then V0 else Or(v[0], OrFold(v[1..]))
  }

  /** An unknown condition leaves the bits that both alternatives share. */
  function Ternary(c: Vec, t: Vec, f: Vec): Vec
    requires |t| == |f|
  {
    if OrFold(c) == V1 then t
    else if OrFold(c) == V0 then f
    else seq(|t|, i requires 0 <= i < |t| => if t[i] == f[i] then t[i] else Vx)
  }

  // ----- What the operators mean -----

  /** A condition with a 1 picks the first clause, one that is all zero the second; else the bits
      on which they agree are kept and the others are unknown. */
  lemma TernaryMeans(c: Vec, t: Vec, f: Vec)
    requires |t| == |f|
    ensures V1 in c ==> Ternary(c, t, f) == t
    ensures (forall i :: 0 <= i < |c| ==> c[i] == V0) ==> Ternary(c, t, f) == f
    ensures V1 !in c && (exists i :: 0 <= i < |c| && c[i] != V0) ==>
      |Ternary(c, t, f)| == |t| && forall i :: 0 <= i < |t| ==> Ternary(c, t, f)[i] == if t[i] == f[i] then t[i] else Vx
  {
    OrFoldMeans(c);
  }

  // ----- What elaboration makes of them -----

  /** A constant, the left operand itself, its top bit repeated, or the general operator with
      its operands possibly exchanged. */
  datatype Elaborated =
    | Constant(v: Vec)
    | LeftOperand
    | TopBitRepeated
    | General(exchanged: bool)

  predicate IsZero(v: Vec)
  {
    forall i :: 0 <= i < |v| ==> v[i] == V0
  }

  lemma {:induction false} ZeroToNat(v: Vec)
    requires Defined(v)
    ensures IsZero(v) <==> ToNat(v) == 0
  {
    if v != [] {
      ZeroToNat(v[1..]);
      assert IsZero(v) ==> IsZero(v[1..]);
      if v[0] == V0 && IsZero(v[1..]) {
        forall i | 0 <= i < |v| ensures v[i] == V0 { if i > 0 { assert v[i] == v[1..][i - 1]; } }
      }
    }
  }

  const WORD: nat := 0x1_0000_0000_0000_0000

  lemma OneBit(b: V)
    ensures ToNat([b]) == if b == V1 then 1 else 0
  {
    assert [b][1..] == [];
  }

  lemma WordIs()
    ensures Pow2(64) == WORD
  {
    assert Pow2(4) == 16;
    Pow2Add(4, 4);
    Pow2Add(8, 8);
    Pow2Add(16, 16);
    Pow2Add(32, 32);
  }

  /** A power of two below a word reaches at most the word when doubled. */
  lemma WordPower(n: nat)
    ensures Pow2(n) < WORD ==> 2 * Pow2(n) <= WORD
  {
    WordIs();
    if n < 64 { Pow2Grows(n + 1, 64); } else { Pow2Grows(64, n); }
  }

  /** as_ulong: the number, or all ones where it needs more than 64 bits. */
  method AsUlong(v: Vec) returns (r: nat)
    ensures Defined(v) ==> r == if ToNat(v) < WORD then ToNat(v) else WORD - 1
    ensures !Defined(v) ==> r == 0
  {
    r := 0;
    if !Defined(v) {
      return;
    }
    hide ToNat, Pow2, Defined;
    var mask := 1;
    ghost var power := 1;
    StartBits(v);
    for idx := 0 to |v|
      invariant power == Pow2(idx) && mask == (if power < WORD then power else 0)
      invariant r == ToNat(v[..idx]) && r < WORD && r < power
    {
      BitStep(v, idx);
      WordPower(idx);
      if v[idx] == V1 {
        if mask == 0 {
          return WORD - 1;
        }
        r := r + mask;
      }
      mask := (2 * mask) % WORD;
      power := 2 * power;
    }
    assert v[..|v|] == v;
  }

  lemma StartBits(v: Vec)
    ensures v[..0] == [] && ToNat([]) == 0 && Pow2(0) == 1
  {
  }

  /** One more bit of a number. */
  lemma BitStep(v: Vec, idx: nat)
    requires idx < |v|
    ensures ToNat(v[..idx + 1]) == ToNat(v[..idx]) + (if v[idx] == V1 then Pow2(idx) else 0) <= ToNat(v)
    ensures Pow2(idx + 1) == 2 * Pow2(idx)
  {
    var low := v[..idx + 1];
    ToNatSplit(low, idx);
    assert low[..idx] == v[..idx] && low[idx..] == [v[idx]];
    OneBit(v[idx]);
    LessOne(Pow2(idx), 2);
    ToNatSplit(v, idx + 1);
    Product(Pow2(idx + 1), ToNat(v[idx + 1..]));
  }

  lemma Product(a: nat, b: nat)
    ensures a * b >= 0
  {
  }

  // ----- Shifts -----

  /** The run-time operands l and r agree with what is known of them: a constant has its value,
      and an operand of a two-state type has no x or z. */
  ghost predicate Agrees(known: Option<Vec>, twoState: bool, v: Vec)
  {
    (known.Some? ==> v == known.value) && (twoState ==> Defined(v))
  }

  function ShiftValue(e: Elaborated, op: ShiftOp, signed: bool, l: Vec, r: Vec): Vec
    requires l != []
  {
    match e
    case Constant(v) => v
    case LeftOperand => l
    case TopBitRepeated => Fill(l[|l| - 1], |l|)
    case General(_) => Shift(op, signed, l, r)
  }

  /** Every short cut of a shift gives what the shift gives. */
  method ElaborateShift(op: ShiftOp, signed: bool, l: Option<Vec>, r: Option<Vec>, rTwoState: bool, w: nat)
    returns (e: Elaborated)
    requires 0 < w < WORD && (l.Some? ==> |l.value| == w)
    ensures forall lv, rv :: |lv| == w && Agrees(l, false, lv) && Agrees(r, rTwoState, rv) ==>
      ShiftValue(e, op, signed, lv, rv) == Shift(op, signed, lv, rv)
    ensures e.General? <==>
      if l.Some? then !(IsZero(l.value) && rTwoState) else r.None? || (Defined(r.value) && 0 < ToNat(r.value) < w)
    ensures e.LeftOperand? <==> l.None? && r.Some? && Defined(r.value) && ToNat(r.value) == 0
    ensures e.TopBitRepeated? <==>
      l.None? && r.Some? && Defined(r.value) && ToNat(r.value) >= w && op == ShiftRightArithmetic && signed
  {
    hide Shift, ShiftFill, Defined, ToNat;
    if l.Some? {
      if IsZero(l.value) && rTwoState {
        ShiftOfZero(op, signed, l.value);
        return Constant(Fill(V0, w));
      }
    } else if r.Some? {
      if !Defined(r.value) {
        ShiftByUnknown(op, signed, r.value, w);
        return Constant(Fill(Vx, w));
      }
      var shift := AsUlong(r.value);
      if shift == 0 {
        ShiftByZero(op, signed, r.value, w);
        return LeftOperand;
      }
      if op == ShiftRightArithmetic && signed && shift >= w {
        ShiftPast(op, signed, r.value, w);
        return TopBitRepeated;
      }
      if shift >= w {
        ShiftPast(op, signed, r.value, w);
        return Constant(Fill(V0, w));
      }
    }
    e := General(false);
  }

  lemma ShiftByZero(op: ShiftOp, signed: bool, r: Vec, w: nat)
    requires Defined(r) && ToNat(r) == 0
    ensures forall v: Vec :: |v| == w ==> Shift(op, signed, v, r) == v
  {
  }

  lemma ShiftOfZero(op: ShiftOp, signed: bool, z: Vec)
    requires IsZero(z)
    ensures forall r: Vec :: Defined(r) ==> Shift(op, signed, z, r) == Fill(V0, |z|)
  {
    forall r: Vec | Defined(r) ensures Shift(op, signed, z, r) == Fill(V0, |z|) {
      var s, n := Shift(op, signed, z, r), ToNat(r);
      forall i | 0 <= i < |z| ensures s[i] == V0 {
        assert ShiftFill(op, signed, z) == V0;
        if op == ShiftLeft && i >= n { assert z[i - n] == V0; }
        if op != ShiftLeft && i + n < |z| { assert z[i + n] == V0; }
      }
    }
  }

  lemma ShiftByUnknown(op: ShiftOp, signed: bool, r: Vec, w: nat)
    requires !Defined(r)
    ensures forall v: Vec :: |v| == w ==> Shift(op, signed, v, r) == Fill(Vx, w)
  {
  }

  lemma ShiftPast(op: ShiftOp, signed: bool, r: Vec, w: nat)
    requires Defined(r) && ToNat(r) >= w
    ensures op == ShiftRightArithmetic && signed ==>
      forall v: Vec :: |v| == w && v != [] ==> Shift(op, signed, v, r) == Fill(v[|v| - 1], w)
    ensures !(op == ShiftRightArithmetic && signed) ==>
      forall v: Vec :: |v| == w ==> Shift(op, signed, v, r) == Fill(V0, w)
  {
    forall v: Vec | |v| == w
      ensures Shift(op, signed, v, r) == Fill(if op == ShiftLeft then V0 else ShiftFill(op, signed, v), w)
    {
      var s := Shift(op, signed, v, r);
      assert forall i :: 0 <= i < w ==> s[i] == if op == ShiftLeft then V0 else ShiftFill(op, signed, v);
    }
  }

  // ----- Multiplication -----

  function MultiplyValue(e: Elaborated, l: Vec, r: Vec, w: nat): Vec
  {
    match e
    case Constant(v) => v
    case General(exchanged) => if exchanged then Multiply(r, l, w) else Multiply(l, r, w)
    case _ => []
  }

  lemma MultiplyCommutes(a: Vec, b: Vec, w: nat)
    ensures Multiply(a, b, w) == Multiply(b, a, w)
  {
    assert ToNat(a) * ToNat(b) == ToNat(b) * ToNat(a);
  }

  lemma {:induction false} FromZero(w: nat)
    ensures FromNat(0, w) == Fill(V0, w)
  {
    if w > 0 {
      FromZero(w - 1);
      assert Fill(V0, w)[1..] == Fill(V0, w - 1);
      assert FromNat(0, w)[1..] == FromNat(0, w - 1);
      assert FromNat(0, w)[0] == V0;
      assert Fill(V0, w) == [V0] + Fill(V0, w - 1);
    }
  }

  /** The low bits read back as the number modulo the power of two. */
  lemma {:induction false} FromNatToNat(n: nat, w: nat)
    ensures ToNat(FromNat(n, w)) < Pow2(w)
    ensures exists q: nat :: n == ToNat(FromNat(n, w)) + Pow2(w) * q
  {
    if w == 0 {
      assert n == 0 + Pow2(0) * n;
    } else {
      FromNatToNat(n / 2, w - 1);
      var q: nat :| n / 2 == ToNat(FromNat(n / 2, w - 1)) + Pow2(w - 1) * q;
      assert FromNat(n, w)[1..] == FromNat(n / 2, w - 1);
      TwiceProduct(Pow2(w - 1), q);
      assert n == ToNat(FromNat(n, w)) + Pow2(w) * q;
    }
  }

  /** What the product of defined vectors is: the product of the numbers, reduced to the width. */
  lemma MultiplyMeans(a: Vec, b: Vec, w: nat)
    requires Defined(a) && Defined(b)
    ensures Defined(Multiply(a, b, w)) && ToNat(Multiply(a, b, w)) < Pow2(w)
    ensures exists q: nat :: ToNat(a) * ToNat(b) == ToNat(Multiply(a, b, w)) + Pow2(w) * q
  {
    Product(ToNat(a), ToNat(b));
    FromNatToNat(ToNat(a) * ToNat(b), w);
  }

  /** An operand that is not defined makes all of the product unknown. */
  lemma MultiplyUnknown(a: Vec, b: Vec, w: nat, i: nat)
    requires (exists k :: 0 <= k < |a| && (a[k] == Vx || a[k] == Vz)) || (exists k :: 0 <= k < |b| && (b[k] == Vx || b[k] == Vz))
    requires i < w
    ensures Multiply(a, b, w)[i] == Vx
  {
  }

  /** Both short cuts of a product give what the product gives, whichever side the constant
      stands on. */
  method ElaborateMultiply(l: Option<Vec>, lTwoState: bool, r: Option<Vec>, rTwoState: bool, w: nat)
    returns (e: Elaborated)
    ensures !e.LeftOperand? && !e.TopBitRepeated?
    ensures forall lv, rv :: Agrees(l, lTwoState, lv) && Agrees(r, rTwoState, rv) ==>
      MultiplyValue(e, lv, rv, w) == Multiply(lv, rv, w)
    ensures e.Constant? <==>
      if l.Some? then (if rTwoState then IsZero(l.value) else !Defined(l.value))
      else r.Some? && if lTwoState then IsZero(r.value) else !Defined(r.value)
    ensures e == General(true) ==> l.Some?
  {
    var right, leftTwoState, exchanged := r, lTwoState, false;
    if l.Some? {
      right, leftTwoState, exchanged := l, rTwoState, true;
    }
    forall a, b ensures Multiply(a, b, w) == Multiply(b, a, w) {
      MultiplyCommutes(a, b, w);
    }
    if right.Some? {
      if !Defined(right.value) && !leftTwoState {
        return Constant(Fill(Vx, w));
      }
      if IsZero(right.value) && leftTwoState {
        FromZero(w);
        ZeroToNat(right.value);
        ByZero(right.value, w);
        return Constant(Fill(V0, w));
      }
    }
    e := General(exchanged);
  }

  lemma ByZero(z: Vec, w: nat)
    requires IsZero(z)
    ensures forall v: Vec :: Defined(v) ==> Multiply(v, z, w) == Fill(V0, w)
  {
    ZeroToNat(z);
    FromZero(w);
    forall v: Vec | Defined(v) ensures Multiply(v, z, w) == Fill(V0, w) {
      assert ToNat(v) * 0 == 0;
    }
  }

  // ----- Logical negation -----

  lemma {:induction false} OrFoldMeans(v: Vec)
    ensures OrFold(v) == if V1 in v then V1 else if IsZero(v) then V0 else Vx
  {
    if v != [] {
      OrFoldMeans(v[1..]);
      assert v == [v[0]] + v[1..];
      assert IsZero(v) <==> v[0] == V0 && IsZero(v[1..]) by {
        if v[0] == V0 && IsZero(v[1..]) {
          forall i | 0 <= i < |v| ensures v[i] == V0 { if i > 0 { assert v[i] == v[1..][i - 1]; } }
        }
        if IsZero(v) {
          forall i | 0 <= i < |v[1..]| ensures v[1..][i] == V0 { assert v[1..][i] == v[i + 1]; }
        }
      }
    }
  }

  /** The loop that counts ones and unknowns computes the negated or of the bits. */
  method LogicalNot(v: Vec) returns (r: V)
    ensures r == Not(OrFold(v))
    ensures V1 in v ==> r == V0
    ensures (forall i :: 0 <= i < |v| ==> v[i] == V0) ==> r == V1
    ensures V1 !in v && (exists i :: 0 <= i < |v| && v[i] != V0) ==> r == Vx
  {
    var v1, vx := 0, 0;
    for idx := 0 to |v|
      invariant v1 > 0 <==> V1 in v[..idx]
      invariant vx == 0 <==> forall i :: 0 <= i < idx ==> v[i] == V0 || v[i] == V1
    {
      assert v[..idx + 1] == v[..idx] + [v[idx]];
      match v[idx] {
        case V0 =>
        case V1 => v1 := v1 + 1;
        case _ => vx := vx + 1;
      }
    }
    assert v[..|v|] == v;
    OrFoldMeans(v);
    r := if v1 > 0 then V0 else if vx > 0 then Vx else V1;
  }

  // ----- The conditional operator -----

  /** condition_reduce keeps one bit as it is; a wider condition becomes a comparison with
      zero, which is not evaluated at this point and so is no constant. */
  function Reduced(c: Option<Vec>): Option<V>
  {
    if c.Some? && |c.value| == 1 then Some(c.value[0]) else None
  }

  datatype Choice = TrueClause | FalseClause | Both

  function ChoiceValue(x: Choice, c: Vec, t: Vec, f: Vec): Vec
    requires |t| == |f|
  {
    match x case TrueClause => t case FalseClause => f case Both => Ternary(c, t, f)
  }

  /** The short cut on a constant condition gives what the operator gives. It is taken exactly
      for a condition of one bit that is 0 or 1. */
  method ElaborateTernary(c: Option<Vec>) returns (x: Choice)
    ensures forall cv, t: Vec, f: Vec :: |t| == |f| && Agrees(c, false, cv) ==>
      ChoiceValue(x, cv, t, f) == Ternary(cv, t, f)
    ensures x == TrueClause <==> c == Some([V1])
    ensures x == FalseClause <==> c == Some([V0])
  {
    x := Both;
    var bit := Reduced(c);
    if bit.Some? {
      OrFoldMeans(c.value);
      assert c.value == [c.value[0]];
      if bit.value == V1 { return TrueClause; }
      if bit.value == V0 { return FalseClause; }
    }
  }

  /** A wide condition is left to the operator although it is known. */
  method WideCondition() returns (x: Choice)
    ensures x == Both && OrFold([V0, V1]) == V1
  {
    OrFoldMeans([V0, V1]);
    assert V1 in [V0, V1];
    x := ElaborateTernary(Some([V0, V1]));
  }
}
