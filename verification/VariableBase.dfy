/**
 Part selects whose base is only known at run time (normalize_variable_base): the elaborator
 builds an expression for the canonical base, with enough bits not to overflow.
 */
module VariableBase {
  import opened Powers
  import opened Ranges
  import opened Selects

  /** The base expression itself, or its sum with or difference from a constant, computed in a
      given number of bits. */
  datatype Canonical =
    | Base
    | Plus(offset: int, width: nat, signed: bool)
    | Minus(offset: int, width: nat, signed: bool)

  /** The number that the low n bits of x stand for. */
  function Wrapped(x: int, n: nat, signed: bool): int
    requires n >= 1
  {
    Pow2Positive(n);
    var m := x % Pow2(n);
    if signed && m >= Pow2(n - 1) then m - Pow2(n) else m
  }

  predicate FitsIn(x: int, n: nat, signed: bool)
    requires n >= 1
  {
    if signed then 0 - Pow2(n - 1) <= x < Pow2(n - 1) else 0 <= x < Pow2(n)
  }

  lemma WrappedExact(x: int, n: nat, signed: bool)
    requires n >= 1 && FitsIn(x, n, signed)
    ensures Wrapped(x, n, signed) == x
  {
    Pow2Positive(n);
    assert Pow2(n) == 2 * Pow2(n - 1);
    Remainder(x, Pow2(n));
  }

  lemma Remainder(x: int, m: nat)
    requires m >= 1
    ensures 0 <= x < m ==> x % m == x
    ensures 0 - m <= x < 0 ==> x % m == x + m
  {
    var q := x / m;
    assert x == q * m + x % m;
    if 0 - m <= x < 0 {
      Monotone(0, q, m);
      Monotone(q, -2, m);
      assert q == -1;
    }
  }

  predicate Sized(e: Canonical)
  {
    e.Base? || e.width >= 1
  }

  /** The value of the expression when the base is b. */
  function Value(e: Canonical, b: int): int
    requires Sized(e)
  {
    match e
    case Base => b
    case Plus(offset, n, signed) => Wrapped(b + offset, n, signed)
    case Minus(offset, n, signed) => Wrapped(offset - b, n, signed)
  }

  /** The number of bits that a number needs; a negative one also has a sign bit. */
  method NumBits(arg: int) returns (res: nat)
    ensures arg >= 0 ==> arg < Pow2(res) && (res > 0 ==> arg >= Pow2(res - 1))
    ensures arg < 0 ==> res >= 1 && 0 - Pow2(res - 1) <= arg
  {
    res := 0;
    var a := arg;
    if a < 0 {
      a := -a - 1;
      res := 1;
    }
    ghost var whole, first := a, res;
    ghost var scale := 1;
    while a > 0
      invariant a >= 0 && res >= first && scale == Pow2(res - first) && scale >= 1
      invariant a * scale <= whole < (a + 1) * scale
      invariant res > first && a == 0 ==> whole >= Pow2(res - first - 1)
      decreases a
    {
      var half := a / 2;
      Halve(a, half, scale, whole);
      scale := 2 * scale;
      a := half;
      res := res + 1;
    }
  }

  lemma Halve(a: int, half: int, scale: nat, whole: int)
    requires a > 0 && half == a / 2 && scale >= 1 && a * scale <= whole < (a + 1) * scale
    ensures half * (2 * scale) <= whole < (half + 1) * (2 * scale)
    ensures whole >= scale
  {
    Monotone(1, a, scale);
    Monotone(2 * half, a, scale);
    Monotone(a + 1, 2 * half + 2, scale);
    assert (2 * half) * scale == half * (2 * scale);
    assert (2 * half + 2) * scale == (half + 1) * (2 * scale);
  }

  /** The canonical base of the select as a function of its base, in exact arithmetic. */
  function Exact(r: Range, w: nat, dir: Direction, soff: int, b: int): int
  {
    soff + r.Idx(Lowest(r, dir, b, w))
  }

  /** The expression that is built has the exact value for every base of its width: the
      arithmetic never overflows, with the sign or without. */
  method Normalize(baseWid: nat, baseSigned: bool, r: Range, w: nat, dir: Direction, soff: int)
    returns (e: Canonical)
    requires baseWid >= 1 && w >= 1
    ensures Sized(e)
    ensures forall b :: FitsIn(b, baseWid, baseSigned) ==> Value(e, b) == Exact(r, w, dir, soff, b)
  {
    var msbLow := r.msb < r.lsb;
    var offset := soff;
    if msbLow {
      offset := offset + r.lsb;
      if dir == Up { offset := offset - (w - 1); }
    } else {
      offset := offset - r.lsb;
      if dir == Down { offset := offset - (w - 1); }
      if offset == 0 {
        return Base;
      }
    }
    var offWid := NumBits(offset);
    var addBaseSign := !baseSigned && (offset < 0 || (msbLow && offWid <= baseWid));
    var addOffSign := offset >= 0 && (baseSigned || addBaseSign);
    var o := offWid + if addOffSign then 1 else 0;
    var s := baseWid + if addBaseSign then 1 else 0;
    var minWid := 1 + if o > s then o else s;
    var signed := baseSigned || addBaseSign;
    e := if msbLow then Minus(offset, minWid, signed) else Plus(offset, minWid, signed);
    forall b | FitsIn(b, baseWid, baseSigned) ensures Value(e, b) == Exact(r, w, dir, soff, b) {
      var x := if msbLow then offset - b else b + offset;
      assert x == Exact(r, w, dir, soff, b);
      NoOverflow(baseWid, baseSigned, msbLow, offset, offWid, minWid, b);
      WrappedExact(x, minWid, signed);
    }
  }

  lemma NoOverflow(baseWid: nat, baseSigned: bool, msbLow: bool, offset: int, offWid: nat, minWid: nat, b: int)
    requires baseWid >= 1 && FitsIn(b, baseWid, baseSigned)
    requires offset >= 0 ==> offset < Pow2(offWid) && (offWid > 0 ==> offset >= Pow2(offWid - 1))
    requires offset < 0 ==> offWid >= 1 && 0 - Pow2(offWid - 1) <= offset
    requires var addBaseSign := !baseSigned && (offset < 0 || (msbLow && offWid <= baseWid));
             var addOffSign := offset >= 0 && (baseSigned || addBaseSign);
             && minWid >= 1 + offWid + (if addOffSign then 1 else 0)
             && minWid >= 1 + baseWid + (if addBaseSign then 1 else 0)
    ensures var addBaseSign := !baseSigned && (offset < 0 || (msbLow && offWid <= baseWid));
            FitsIn(if msbLow then offset - b else b + offset, minWid, baseSigned || addBaseSign)
  {
    var addBaseSign := !baseSigned && (offset < 0 || (msbLow && offWid <= baseWid));
    var n := minWid - 1;
    if baseSigned || addBaseSign {
      var half := Pow2(n - 1);
      if offset >= 0 { Pow2Grows(offWid, n - 1); } else { Pow2Grows(offWid - 1, n - 1); }
      if baseSigned { Pow2Grows(baseWid - 1, n - 1); } else { Pow2Grows(baseWid, n - 1); }
      assert Pow2(n) == 2 * half;
    } else {
      Pow2Grows(offWid, n);
      Pow2Grows(baseWid, n);
      if msbLow { Pow2Grows(baseWid, offWid - 1); }
    }
  }

  /** A run-time base leads to the bits that Select names, in and out of range alike. */
  lemma ExactIsSelect(dims: Dims, prefix: seq<int>, dir: Direction, b: int, w: nat)
    requires |prefix| + 1 == |dims| && w >= 1
    ensures var r := dims[|prefix|];
            Exact(r, w, dir, Offset(dims, prefix + [r.lsb]), b) == Select(dims, prefix, dir, b, w).base
  {
    hide Offset;
    assert dims[|prefix| + 1..] == [];
    assert Size([]) == 1;
    hide Size;
    OffsetLast(dims, prefix, Lowest(dims[|prefix|], dir, b, w));
  }

  /** The test on a constant base: its low 32 bits, read as a signed number, are negative. */
  lemma WrappedBaseIff(signed: bool, b: int)
    ensures WrappedBase(signed, b) <==> !signed && Wrapped(b, 32, true) < 0
  {
    WordsOf32();
  }

  lemma WordsOf32()
    ensures Pow2(31) == 0x8000_0000 && Pow2(32) == 0x1_0000_0000
  {
    assert Pow2(4) == 16;
    Pow2Add(4, 4);
    Pow2Add(8, 8);
    Pow2Add(16, 16);
    assert Pow2(32) == 2 * Pow2(31);
  }
}
