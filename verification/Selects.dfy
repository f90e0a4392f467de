/**
 Indexed part selects [b +: w] and [b -: w] of a packed vector with a constant base. Three
 pieces of code turn them into canonical bits: for a value that is read
 (elaborate_expr_net_idx_up_ and _do_), for the target of a procedural assignment
 (elaborate_lval_net_idx_) and for the target of a net (eval_part_select_).
 */
module Selects {
  import opened FourState
  import opened Ranges

  datatype Direction = Up | Down

  /** The outcome: no select because the indices are out of bounds, or nothing is selected
      because the base is outside, or a run of canonical bits. */
  datatype Selected = Failed | Outside | Bits(base: int, width: int)

  /** The declared index at the far end of the select. */
  function FarEnd(dir: Direction, b: int, w: nat): int
  {
    if dir == Up then b + w - 1 else b - w + 1
  }

  /** The declared index of the select that lies lowest in the vector. */
  function Lowest(r: Range, dir: Direction, b: int, w: nat): int
  {
    if (r.msb >= r.lsb) == (dir == Up) then b else FarEnd(dir, b, w)
  }

  /** The bits that a select means: w elements from the lowest one. */
  function Select(dims: Dims, prefix: seq<int>, dir: Direction, b: int, w: nat): Selected
    requires |prefix| < |dims|
  {
    Bits(Offset(dims, prefix + [Lowest(dims[|prefix|], dir, b, w)]), w * Size(dims[|prefix| + 1..]))
  }

  /** Both ends lie in the declared range. */
  predicate Within(r: Range, dir: Direction, b: int, w: nat)
  {
    r.Holds(b) && r.Holds(FarEnd(dir, b, w))
  }

  /** A base without a sign that does not fit 32 bits with one. */
  predicate WrappedBase(signed: bool, b: int)
  {
    !signed && b % 0x1_0000_0000 >= 0x8000_0000
  }

  /** i is one of the declared indices that the select names. */
  predicate Named(dir: Direction, b: int, w: nat, i: int)
  {
    if dir == Up then b <= i < b + w else b - w < i <= b
  }

  /** The n-th run of s bits from base holds bit k. */
  predicate Covers(base: int, s: nat, n: int, k: int)
  {
    base + n * s <= k < base + n * s + s
  }

  /** w runs of s bits make one run. */
  lemma Runs(base: int, s: nat, w: nat, k: int)
    requires s >= 1
    ensures base <= k < base + w * s <==> exists n :: 0 <= n < w && Covers(base, s, n, k)
  {
    if base <= k < base + w * s {
      var n := (k - base) / s;
      assert k - base == n * s + (k - base) % s;
      Bounded(n, w, s, k - base);
      assert Covers(base, s, n, k);
    }
    forall n | 0 <= n < w && Covers(base, s, n, k) ensures base <= k < base + w * s {
      Scale(n, w, s);
    }
  }

  lemma Bounded(n: int, w: nat, s: nat, a: int)
    requires s >= 1 && n * s <= a < n * s + s && 0 <= a < w * s
    ensures 0 <= n < w
  {
    Monotone(n, -1, s);
    Monotone(w, n, s);
  }

  lemma Monotone(m: int, n: int, s: nat)
    ensures m <= n ==> m * s <= n * s
  {
    if m <= n { assert (n - m) * s >= 0; }
  }

  /** Bit k is a bit of element i. */
  predicate BitOf(dims: Dims, prefix: seq<int>, i: int, k: int)
    requires |prefix| < |dims|
  {
    Covers(Offset(dims, prefix + [i]), Size(dims[|prefix| + 1..]), 0, k)
  }

  /** The n-th element from the lowest one. */
  function Element(r: Range, dir: Direction, b: int, w: nat, n: int): int
  {
    r.From(Lowest(r, dir, b, w), n)
  }

  lemma ElementBit(dims: Dims, prefix: seq<int>, dir: Direction, b: int, w: nat, n: int, k: int)
    requires |prefix| < |dims|
    ensures Covers(Select(dims, prefix, dir, b, w).base, Size(dims[|prefix| + 1..]), n, k)
      <==> BitOf(dims, prefix, Element(dims[|prefix|], dir, b, w, n), k)
  {
    hide Offset, Size;
    var r := dims[|prefix|];
    OffsetFrom(dims, prefix, Lowest(r, dir, b, w), Element(r, dir, b, w, n));
    assert r.Idx(Element(r, dir, b, w, n)) - r.Idx(Lowest(r, dir, b, w)) == n;
  }

  /** What Select means: canonical bit k belongs to it exactly when k is a bit of one of the
      elements that the select names. */
  lemma SelectMeans(dims: Dims, prefix: seq<int>, dir: Direction, b: int, w: nat, k: int)
    requires |prefix| < |dims| && w >= 1
    ensures var s := Select(dims, prefix, dir, b, w);
            s.base <= k < s.base + s.width <==> exists i :: Named(dir, b, w, i) && BitOf(dims, prefix, i, k)
  {
    var r := dims[|prefix|];
    var size := Size(dims[|prefix| + 1..]);
    var s := Select(dims, prefix, dir, b, w);
    Runs(s.base, size, w, k);
    hide Size, Select, BitOf, Covers;
    if exists n :: 0 <= n < w && Covers(s.base, size, n, k) {
      var n :| 0 <= n < w && Covers(s.base, size, n, k);
      ElementBit(dims, prefix, dir, b, w, n, k);
      assert Named(dir, b, w, Element(r, dir, b, w, n));
    }
    forall i | Named(dir, b, w, i) && BitOf(dims, prefix, i, k)
      ensures exists n :: 0 <= n < w && Covers(s.base, size, n, k)
    {
      var n := if r.msb >= r.lsb then i - Lowest(r, dir, b, w) else Lowest(r, dir, b, w) - i;
      ElementBit(dims, prefix, dir, b, w, n, k);
      assert 0 <= n < w && Covers(s.base, size, n, k);
    }
  }

  lemma OffsetFrom(dims: Dims, prefix: seq<int>, i: int, j: int)
    requires |prefix| < |dims|
    ensures Offset(dims, prefix + [j]) ==
      Offset(dims, prefix + [i]) + (dims[|prefix|].Idx(j) - dims[|prefix|].Idx(i)) * Size(dims[|prefix| + 1..])
  {
    OffsetLast(dims, prefix, i);
    OffsetLast(dims, prefix, j);
  }

  lemma TopOffset(dims: Dims, prefix: seq<int>, dir: Direction, b: int, w: nat)
    requires |prefix| < |dims| && w >= 1
    ensures Offset(dims, prefix + [Element(dims[|prefix|], dir, b, w, w - 1)]) ==
      Offset(dims, prefix + [Lowest(dims[|prefix|], dir, b, w)]) + (w - 1) * Size(dims[|prefix| + 1..])
  {
    hide Size, Offset;
    var r := dims[|prefix|];
    var low, top := Lowest(r, dir, b, w), Element(r, dir, b, w, w - 1);
    OffsetFrom(dims, prefix, low, top);
    assert r.Idx(top) - r.Idx(low) == w - 1;
  }

  /** A select within a range stays within the vector. */
  lemma SelectInside(dims: Dims, prefix: seq<int>, dir: Direction, b: int, w: nat)
    requires |prefix| < |dims| && InRange(dims, prefix) && w >= 1 && Within(dims[|prefix|], dir, b, w)
    ensures var s := Select(dims, prefix, dir, b, w); 0 <= s.base && s.base + s.width <= Size(dims)
  {
    hide Size, Offset;
    var r := dims[|prefix|];
    var low, top := Lowest(r, dir, b, w), Element(r, dir, b, w, w - 1);
    InsideAt(dims, prefix, low);
    InsideAt(dims, prefix, top);
    TopOffset(dims, prefix, dir, b, w);
    Distribute(w, Size(dims[|prefix| + 1..]));
  }

  lemma Distribute(w: nat, s: nat)
    ensures (w - 1) * s + s == w * s
  {
  }

  lemma InsideAt(dims: Dims, prefix: seq<int>, i: int)
    requires |prefix| < |dims| && InRange(dims, prefix) && dims[|prefix|].Holds(i)
    ensures 0 <= Offset(dims, prefix + [i]) && Offset(dims, prefix + [i]) + Size(dims[|prefix| + 1..]) <= Size(dims)
  {
    OffsetInside(dims, prefix + [i]);
  }

  // ----- Reading -----

  /** A range of one element has neither direction for the code that chooses an end. */
  predicate OneWide(r: Range)
  {
    r.msb == r.lsb
  }

  /** The base that the code for reading and for procedural assignment computes: the offset of
      the given base, moved to the other end where that end is lower. */
  function RelBase(dims: Dims, prefix: seq<int>, dir: Direction, b: int, w: nat): int
    requires |prefix| + 1 == |dims|
  {
    var r := dims[|prefix|];
    Offset(dims, prefix + [b])
    + if (dir == Up && r.msb < r.lsb) || (dir == Down && r.msb > r.lsb) then 1 - w else 0
  }

  lemma RelBaseIs(dims: Dims, prefix: seq<int>, dir: Direction, b: int, w: nat)
    requires |prefix| + 1 == |dims| && w >= 1
    ensures var s := Select(dims, prefix, dir, b, w);
            && s.width == w
            && RelBase(dims, prefix, dir, b, w) == s.base + if OneWide(dims[|prefix|]) && dir == Down then w - 1 else 0
  {
    var r := dims[|prefix|];
    assert dims[|prefix| + 1..] == [];
    OffsetFrom(dims, prefix, b, Lowest(r, dir, b, w));
    assert Size([]) == 1;
  }

  /** It is the lowest bit of the select, a downward select of several bits of a range of one
      bit excepted. */
  lemma RelBaseExact(dims: Dims, prefix: seq<int>, dir: Direction, b: int, w: nat)
    requires |prefix| + 1 == |dims| && w >= 1
    ensures Bits(RelBase(dims, prefix, dir, b, w), w) == Select(dims, prefix, dir, b, w)
      <==> !(OneWide(dims[|prefix|]) && dir == Down && w > 1)
  {
    hide RelBase;
    RelBaseIs(dims, prefix, dir, b, w);
  }

  /** The base as found, unless the select is taken for the whole vector. A downward select is
      compared by its upper end. */
  function OrWhole(dir: Direction, base: int, width: int, vector: int): Selected
  {
    if width == vector && base == (if dir == Up then 0 else width - 1) then Bits(0, vector)
    else Bits(base, width)
  }

  /** wid is the width in bits that sizing found: the number of elements times their size. */
  method ReadSelect(dims: Dims, prefix: seq<int>, dir: Direction, signed: bool, b: int, ghost w: nat, wid: nat)
    returns (r: Selected)
    requires |prefix| < |dims| && w >= 1 && wid == w * Size(dims[|prefix| + 1..])
    ensures WrappedBase(signed, b) ==> r == Outside
    ensures !WrappedBase(signed, b) && |prefix| + 1 < |dims| ==>
      r == if Within(dims[|prefix|], dir, b, w) then
             OrWhole(dir, Select(dims, prefix, dir, b, w).base, wid, Size(dims))
           else Failed
    ensures !WrappedBase(signed, b) && |prefix| + 1 == |dims| ==>
      r == OrWhole(dir, RelBase(dims, prefix, dir, b, w), wid, Size(dims))
  {
    if !signed && b % 0x1_0000_0000 >= 0x8000_0000 {
      return Outside;
    }
    var relBase;
    if |prefix| + 1 < |dims| {
      var swid := Size(dims[|prefix| + 1..]);
      CountOf(w, swid);
      var mok, moff, mwid := SbToSlice(dims, prefix, b);
      var lok, loff, lwid := SbToSlice(dims, prefix, if dir == Up then b + wid / swid - 1 else b - wid / swid + 1);
      if !mok || !lok {
        return Failed;
      }
      relBase := if moff > loff then loff else moff;
      LowerOfEnds(dims, prefix, dir, b, w);
    } else {
      var rng := dims[|dims| - 1];
      var offset := 0;
      if dir == Up && rng.msb < rng.lsb { offset := 1 - wid; }
      if dir == Down && rng.msb > rng.lsb { offset := 1 - wid; }
      relBase := SbToIdx(dims, prefix, b);
      relBase := relBase + offset;
      assert dims[|prefix| + 1..] == [];
    }
    if dir == Up && relBase == 0 && wid == Size(dims) {
      return Bits(0, Size(dims));
    }
    if dir == Down && relBase == wid - 1 && wid == Size(dims) {
      return Bits(0, Size(dims));
    }
    r := Bits(relBase, wid);
  }

  lemma CountOf(w: nat, s: nat)
    requires s >= 1
    ensures (w * s) / s == w
  {
    var q := (w * s) / s;
    assert w * s == q * s + (w * s) % s;
    Monotone(w + 1, q, s);
    Monotone(q + 1, w, s);
  }

  /** The lower of the two end elements is the lowest. */
  lemma LowerOfEnds(dims: Dims, prefix: seq<int>, dir: Direction, b: int, w: nat)
    requires |prefix| < |dims| && w >= 1
    ensures var m, l := Offset(dims, prefix + [b]), Offset(dims, prefix + [FarEnd(dir, b, w)]);
            var size := Size(dims[|prefix| + 1..]);
            && (if m > l then l else m) == Select(dims, prefix, dir, b, w).base
            && (if m > l then m else l) == Select(dims, prefix, dir, b, w).base + (w - 1) * size
  {
    hide Size, Offset;
    TopOffset(dims, prefix, dir, b, w);
    Ends(dims[|prefix|], dir, b, w);
    Monotone(0, w - 1, Size(dims[|prefix| + 1..]));
  }

  lemma Ends(r: Range, dir: Direction, b: int, w: nat)
    requires w >= 1
    ensures var low, top, far := Lowest(r, dir, b, w), Element(r, dir, b, w, w - 1), FarEnd(dir, b, w);
            (low == b && top == far) || (low == far && top == b)
  {
  }

  // ----- Procedural assignment -----

  /** Some bit of the run is one of these. */
  ghost predicate Meets(s: Selected, bits: set<int>)
    requires s.Bits?
  {
    exists k :: k in bits && InBits(s, k)
  }

  method PartDriven(base: int, width: int, bits: set<int>) returns (r: bool)
    ensures r == Meets(Bits(base, width), bits)
  {
    var k := base;
    while k < base + width
      invariant forall j :: j in bits && base <= j < k ==> false
      invariant base <= k
    {
      if k in bits {
        assert InBits(Bits(base, width), k);
        return true;
      }
      k := k + 1;
    }
    return false;
  }

  /** The outcome of an assignment when these bits of an unresolved net are driven already. */
  ghost function Checked(s: Selected, taken: set<int>): Selected
  {
    if s.Bits? && Meets(s, taken) then Failed else s
  }

  /** Here w counts elements, and the width in bits comes from the two ends. `taken` are the bits
      that something else drives, of a net that takes one driver only. */
  method AssignSelect(dims: Dims, prefix: seq<int>, dir: Direction, signed: bool, b: int, w: nat, taken: set<int>)
    returns (r: Selected)
    requires |prefix| < |dims| && w >= 1
    ensures WrappedBase(signed, b) ==> r == Outside
    ensures !WrappedBase(signed, b) && |prefix| + 1 < |dims| ==>
      r == if Within(dims[|prefix|], dir, b, w) then Checked(Select(dims, prefix, dir, b, w), taken) else Failed
    ensures !WrappedBase(signed, b) && |prefix| + 1 == |dims| ==>
      r == Checked(Bits(RelBase(dims, prefix, dir, b, w), w), taken)
  {
    if !signed && b % 0x1_0000_0000 >= 0x8000_0000 {
      return Outside;
    }
    hide Meets;
    var relBase, wid := 0, w;
    if |prefix| + 1 < |dims| {
      var mok, moff, mwid := SbToSlice(dims, prefix, b);
      var lok, loff, lwid := SbToSlice(dims, prefix, if dir == Up then b + wid - 1 else b - wid + 1);
      if !mok || !lok {
        return Failed;
      }
      LowerOfEnds(dims, prefix, dir, b, w);
      Distribute(w, Size(dims[|prefix| + 1..]));
      if moff > loff {
        relBase, wid := loff, moff + mwid - loff;
      } else {
        relBase, wid := moff, loff + lwid - moff;
      }
    } else {
      var rng := dims[|dims| - 1];
      var offset := 0;
      if (rng.msb < rng.lsb && dir == Up) || (rng.msb > rng.lsb && dir == Down) {
        offset := 1 - wid;
      }
      relBase := SbToIdx(dims, prefix, b);
      relBase := relBase + offset;
    }
    var conflict := PartDriven(relBase, wid, taken);
    if conflict {
      return Failed;
    }
    if relBase == 0 && wid == Size(dims) {
      return Bits(0, Size(dims));
    }
    r := Bits(relBase, wid);
  }

  // ----- Net targets -----

  /** midx and lidx are the two ends in canonical order. A select wholly outside the vector is
      skipped. */
  method NetSelect(dims: Dims, prefix: seq<int>, dir: Direction, signed: bool, b: int, w: nat)
    returns (r: Selected)
    requires |prefix| < |dims| && w >= 1
    ensures WrappedBase(signed, b) ==> r == Outside
    ensures !WrappedBase(signed, b) && |prefix| + 1 < |dims| ==>
      r == if Within(dims[|prefix|], dir, b, w) then Select(dims, prefix, dir, b, w) else Failed
    ensures !WrappedBase(signed, b) && |prefix| + 1 == |dims| ==>
      var s := Select(dims, prefix, dir, b, w);
      r == if s.base >= Size(dims) || s.base + s.width <= 0 then Outside else s
  {
    if !signed && b % 0x1_0000_0000 >= 0x8000_0000 {
      return Outside;
    }
    LowerOfEnds(dims, prefix, dir, b, w);
    var midx, lidx;
    if |prefix| + 1 < |dims| {
      Distribute(w, Size(dims[|prefix| + 1..]));
      var mok, moff, mwid := SbToSlice(dims, prefix, b);
      var lok, loff, lwid := SbToSlice(dims, prefix, if dir == Up then b + w - 1 else b - w + 1);
      if !mok || !lok {
        return Failed;
      }
      if moff > loff {
        lidx, midx := loff, moff + mwid - 1;
      } else {
        lidx, midx := moff, loff + lwid - 1;
      }
    } else {
      assert dims[|prefix| + 1..] == [];
      midx := SbToIdx(dims, prefix, b);
      lidx := SbToIdx(dims, prefix, if dir == Up then b + w - 1 else b - w + 1);
      if midx < lidx {
        midx, lidx := lidx, midx;
      }
      if lidx >= Size(dims) || midx < 0 {
        return Outside;
      }
    }
    r := Bits(lidx, midx - lidx + 1);
  }

  // ----- Agreement -----

  /** Within the declared range the three agree: each yields the bits of Select. */
  lemma InRangeAgree(dims: Dims, prefix: seq<int>, dir: Direction, b: int, w: nat)
    requires |prefix| < |dims| && InRange(dims, prefix) && w >= 1 && Within(dims[|prefix|], dir, b, w)
    ensures var s := Select(dims, prefix, dir, b, w);
            && OrWhole(dir, s.base, s.width, Size(dims)) == s
            && (|prefix| + 1 == |dims| ==> Bits(RelBase(dims, prefix, dir, b, w), w) == s)
            && !(s.base >= Size(dims) || s.base + s.width <= 0)
  {
    SelectInside(dims, prefix, dir, b, w);
    if |prefix| + 1 == |dims| { RelBaseExact(dims, prefix, dir, b, w); }
    Monotone(1, w, Size(dims[|prefix| + 1..]));
  }

  /** Reading a single-level select means what it says exactly when its base is right and it
      is not a downward select that is taken for the whole vector without being it. */
  lemma ReadExact(dims: Dims, prefix: seq<int>, dir: Direction, b: int, w: nat)
    requires |prefix| + 1 == |dims| && w >= 1
    ensures OrWhole(dir, RelBase(dims, prefix, dir, b, w), w, Size(dims)) == Select(dims, prefix, dir, b, w) <==>
      if dir == Down && w == Size(dims) && RelBase(dims, prefix, dir, b, w) == w - 1
      then w == 1 || OneWide(dims[|prefix|])
      else !(OneWide(dims[|prefix|]) && dir == Down && w > 1)
  {
    hide RelBase, Size;
    RelBaseIs(dims, prefix, dir, b, w);
    hide Select;
  }

  /** Two selects outside the declared range that are read wrongly: eight bits from bit 7 of
      [7:0] give the whole vector, and two bits down from bit 0 of [0:0] are bits 0 and 1. */
  lemma OutOfRangeReads()
    ensures OrWhole(Down, RelBase([Range(7, 0)], [], Down, 14, 8), 8, Size([Range(7, 0)])) == Bits(0, 8)
         && Select([Range(7, 0)], [], Down, 14, 8) == Bits(7, 8)
    ensures OrWhole(Down, RelBase([Range(0, 0)], [], Down, 0, 2), 2, Size([Range(0, 0)])) == Bits(0, 2)
         && Select([Range(0, 0)], [], Down, 0, 2) == Bits(-1, 2)
  {
    assert Size([]) == 1;
    assert Size([Range(7, 0)]) == 8 && Size([Range(0, 0)]) == 1;
    OffsetFrom([Range(7, 0)], [], 0, 14);
    OffsetFrom([Range(7, 0)], [], 0, 7);
    OffsetFrom([Range(0, 0)], [], 0, -1);
    assert [] + [0] == [0] && [0][1..] == [];
    assert Offset([Range(7, 0)], [0]) == 0 && Offset([Range(0, 0)], [0]) == 0;
  }

  // ----- Write, then read -----

  /** Some bits of a vector; what lies outside reads as x. */
  function ReadBits(v: Vec, s: Selected): Vec
    requires s.Bits? && s.width >= 0
  {
    seq(s.width, k => if 0 <= s.base + k < |v| then v[s.base + k] else Vx)
  }

  function WriteBits(v: Vec, s: Selected, d: Vec): Vec
    requires s.Bits? && |d| == s.width
  {
    seq(|v|, k requires 0 <= k < |v| => if s.base <= k < s.base + s.width then d[k - s.base] else v[k])
  }

  predicate InBits(s: Selected, k: int)
    requires s.Bits?
  {
    s.base <= k < s.base + s.width
  }

  lemma WriteReadBack(v: Vec, s: Selected, d: Vec)
    requires s.Bits? && |d| == s.width && 0 <= s.base && s.base + s.width <= |v|
    ensures ReadBits(WriteBits(v, s, d), s) == d
  {
  }

  lemma WriteElsewhere(v: Vec, s: Selected, d: Vec, e: Selected)
    requires s.Bits? && |d| == s.width && e.Bits? && e.width >= 0 && forall k :: !(InBits(s, k) && InBits(e, k))
    ensures ReadBits(WriteBits(v, s, d), e) == ReadBits(v, e)
  {
    forall k | 0 <= k < e.width ensures ReadBits(WriteBits(v, s, d), e)[k] == ReadBits(v, e)[k] {
      assert InBits(e, e.base + k);
    }
  }

  /** Bits written to a run are read back from it, and an element at the same level that the
      select does not name keeps its value. */
  lemma WriteRead(dims: Dims, prefix: seq<int>, dir: Direction, b: int, w: nat, v: Vec, d: Vec, other: int)
    requires |prefix| < |dims| && InRange(dims, prefix) && w >= 1 && Within(dims[|prefix|], dir, b, w)
    requires |v| == Size(dims) && |d| == Select(dims, prefix, dir, b, w).width
    ensures ReadBits(WriteBits(v, Select(dims, prefix, dir, b, w), d), Select(dims, prefix, dir, b, w)) == d
    ensures Select(dims, prefix, Up, other, 1).width >= 1
    ensures dims[|prefix|].Holds(other) && !Named(dir, b, w, other) ==>
      ReadBits(WriteBits(v, Select(dims, prefix, dir, b, w), d), Select(dims, prefix, Up, other, 1))
      == ReadBits(v, Select(dims, prefix, Up, other, 1))
  {
    SelectInside(dims, prefix, dir, b, w);
    var s, e := Select(dims, prefix, dir, b, w), Select(dims, prefix, Up, other, 1);
    assert e.width == 1 * Size(dims[|prefix| + 1..]);
    hide Size, Offset, Select;
    WriteReadBack(v, s, d);
    if dims[|prefix|].Holds(other) && !Named(dir, b, w, other) {
      forall k ensures !(InBits(s, k) && InBits(e, k)) {
        Apart(dims, prefix, dir, b, w, other, k);
      }
      WriteElsewhere(v, s, d, e);
    }
  }

  /** A bit of an element that the select does not name is not a bit of the select. */
  lemma Apart(dims: Dims, prefix: seq<int>, dir: Direction, b: int, w: nat, other: int, k: int)
    requires |prefix| < |dims| && InRange(dims, prefix) && w >= 1 && Within(dims[|prefix|], dir, b, w)
    requires dims[|prefix|].Holds(other) && !Named(dir, b, w, other)
    ensures !(InBits(Select(dims, prefix, dir, b, w), k) && InBits(Select(dims, prefix, Up, other, 1), k))
  {
    SelectMeans(dims, prefix, dir, b, w, k);
    SelectMeans(dims, prefix, Up, other, 1, k);
    hide Size, Offset, BitOf, Select;
    forall i | Named(dir, b, w, i) ensures !(BitOf(dims, prefix, i, k) && BitOf(dims, prefix, other, k)) {
      BitsApart(dims, prefix, i, other, k);
    }
  }

  lemma BitsApart(dims: Dims, prefix: seq<int>, i: int, j: int, k: int)
    requires |prefix| < |dims| && InRange(dims, prefix) && i != j
    requires dims[|prefix|].Holds(i) && dims[|prefix|].Holds(j)
    ensures !(BitOf(dims, prefix, i, k) && BitOf(dims, prefix, j, k))
  {
    OffsetDisjoint(dims, prefix + [i], prefix + [j]);
  }

  // ----- The three together -----

  /** One select within the declared range, elaborated for reading, for procedural assignment
      and as a net target: the three address the bits of Select exactly when the base is not
      an unsigned one that wraps, and address nothing when it is. */
  method AllThree(dims: Dims, prefix: seq<int>, dir: Direction, signed: bool, b: int, w: nat)
    returns (read: Selected, target: Selected, net: Selected)
    requires |prefix| < |dims| && InRange(dims, prefix) && w >= 1 && Within(dims[|prefix|], dir, b, w)
    ensures read == target == net
    ensures read == Select(dims, prefix, dir, b, w) <==> !WrappedBase(signed, b)
    ensures read == Outside <==> WrappedBase(signed, b)
    ensures signed || 0 <= b < 0x8000_0000 ==> read == Select(dims, prefix, dir, b, w)
    ensures !signed && 0x8000_0000 <= b < 0x1_0000_0000 ==> read == Outside
  {
    InRangeAgree(dims, prefix, dir, b, w);
    assert |prefix| + 1 == |dims| ==> Select(dims, prefix, dir, b, w).width == w by {
      if |prefix| + 1 == |dims| { RelBaseIs(dims, prefix, dir, b, w); }
    }
    hide Size, Offset, RelBase;
    read := ReadSelect(dims, prefix, dir, signed, b, w, w * Size(dims[|prefix| + 1..]));
    target := AssignSelect(dims, prefix, dir, signed, b, w, {});
    net := NetSelect(dims, prefix, dir, signed, b, w);
  }

  /** Assigning to a select within the declared range and reading the same select gives the
      value assigned, and the elements not named keep theirs. A base that wraps makes the
      assignment do nothing, and the select reads as x. */
  method AssignThenRead(dims: Dims, prefix: seq<int>, dir: Direction, signed: bool, b: int, w: nat, v: Vec, d: Vec)
    returns (v': Vec, r: Vec)
    requires |prefix| < |dims| && InRange(dims, prefix) && w >= 1 && Within(dims[|prefix|], dir, b, w)
    requires |v| == Size(dims) && |d| == w * Size(dims[|prefix| + 1..])
    ensures |v'| == |v|
    ensures !WrappedBase(signed, b) ==> r == d
    ensures signed || 0 <= b < 0x8000_0000 ==> r == d
    ensures !WrappedBase(signed, b) ==> forall other ::
      dims[|prefix|].Holds(other) && !Named(dir, b, w, other) ==> ElementValue(dims, prefix, v', other) == ElementValue(dims, prefix, v, other)
    ensures WrappedBase(signed, b) ==> v' == v && r == Fill(Vx, |d|)
  {
    var read, target, net := AllThree(dims, prefix, dir, signed, b, w);
    v' := v;
    if target.Bits? { v' := WriteBits(v, target, d); }
    r := Fill(Vx, |d|);
    if read.Bits? { r := ReadBits(v', read); }
    forall other
      ensures !WrappedBase(signed, b) ==> r == d
      ensures !WrappedBase(signed, b) && dims[|prefix|].Holds(other) && !Named(dir, b, w, other) ==>
        ElementValue(dims, prefix, v', other) == ElementValue(dims, prefix, v, other)
    {
      WriteRead(dims, prefix, dir, b, w, v, d, other);
    }
  }

  /** The value of a single element. */
  function ElementValue(dims: Dims, prefix: seq<int>, v: Vec, i: int): Vec
    requires |prefix| < |dims|
  {
    ReadBits(v, Select(dims, prefix, Up, i, 1))
  }

  /** A select within its range whose unsigned base wraps: bit 0x80000001 of the range
      [0x80000010:0x80000000] is never read or assigned. */
  method WrappedInRange() returns (read: Selected, target: Selected, net: Selected)
    ensures Within(Range(0x8000_0010, 0x8000_0000), Up, 0x8000_0001, 1)
    ensures Select([Range(0x8000_0010, 0x8000_0000)], [], Up, 0x8000_0001, 1) == Bits(1, 1)
    ensures read == Outside && target == Outside && net == Outside
  {
    var dims := [Range(0x8000_0010, 0x8000_0000)];
    assert InRange(dims, []);
    OffsetFrom(dims, [], 0x8000_0000, 0x8000_0001);
    assert [] + [0x8000_0000] == [0x8000_0000] && dims[1..] == [];
    assert Offset(dims, [0x8000_0000]) == 0;
    read, target, net := AllThree(dims, [], Up, false, 0x8000_0001, 1);
  }
}
