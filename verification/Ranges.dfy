/** Packed dimensions and the canonical position of an element of a packed array. */
module Ranges {

  /** A declared range [msb:lsb]; descending when msb >= lsb, else ascending. */
  datatype Range = Range(msb: int, lsb: int) {
    function Width(): (w: nat)
      ensures w >= 1
    {
      if msb >= lsb then msb - lsb + 1 else lsb - msb + 1
    }

    predicate Holds(i: int)
    {
      lsb <= i <= msb || msb <= i <= lsb
    }

    /** The position of a declared index, counted from the least significant end. */
    function Idx(i: int): (p: int)
      ensures 0 <= p < Width() <==> Holds(i)
    {
      if msb >= lsb then i - lsb else lsb - i
    }

    /** The declared index n places above index i. */
    function From(i: int, n: int): (j: int)
      ensures Idx(j) == Idx(i) + n
    {
      if msb >= lsb then i + n else i - n
    }
  }

  /** Outermost dimension first. */
  type Dims = seq<Range>

  function Size(dims: Dims): (n: nat)
    ensures n >= 1
  {
    if dims == [] then 1
    else
      Positive(dims[0].Width(), Size(dims[1..]));
      dims[0].Width() * Size(dims[1..])
  }

  lemma Positive(a: nat, b: nat)
    requires a >= 1 && b >= 1
    ensures a * b >= 1
  {
  }

  /** The canonical bit offset of the element that some outermost indices select. */
  function Offset(dims: Dims, idx: seq<int>): int
    requires |idx| <= |dims|
  {
    if idx == [] then 0
    else dims[0].Idx(idx[0]) * Size(dims[1..]) + Offset(dims[1..], idx[1..])
  }

  ghost predicate InRange(dims: Dims, idx: seq<int>)
    requires |idx| <= |dims|
  {
    forall k :: 0 <= k < |idx| ==> dims[k].Holds(idx[k])
  }

  lemma Scale(p: int, n: int, s: nat)
    requires 0 <= p < n && s >= 1
    ensures 0 <= p * s && p * s + s <= n * s
  {
    NonNegative(p, s);
    NonNegative(n - p - 1, s);
    Split(n - p - 1, p, s);
  }

  lemma NonNegative(a: int, s: nat)
    requires a >= 0
    ensures a * s >= 0
  {
  }

  lemma Split(a: int, p: int, s: int)
    ensures (a + p + 1) * s == a * s + p * s + s
  {
  }

  /** An element that the indices select lies within the vector. */
  lemma {:induction false} OffsetInside(dims: Dims, idx: seq<int>)
    requires |idx| <= |dims| && InRange(dims, idx)
    ensures 0 <= Offset(dims, idx) && Offset(dims, idx) + Size(dims[|idx|..]) <= Size(dims)
  {
    if idx == [] {
      assert dims[0..] == dims;
    } else {
      var inner := dims[1..];
      assert InRange(inner, idx[1..]);
      OffsetInside(inner, idx[1..]);
      assert inner[|idx| - 1..] == dims[|idx|..];
      Scale(dims[0].Idx(idx[0]), dims[0].Width(), Size(inner));
    }
  }

  /** Different elements of one level do not share a bit. */
  lemma {:induction false} OffsetDisjoint(dims: Dims, a: seq<int>, b: seq<int>)
    requires |a| == |b| <= |dims| && InRange(dims, a) && InRange(dims, b) && a != b
    ensures Offset(dims, a) + Size(dims[|a|..]) <= Offset(dims, b)
         || Offset(dims, b) + Size(dims[|a|..]) <= Offset(dims, a)
  {
    var inner := dims[1..];
    var s := Size(inner);
    assert InRange(inner, a[1..]) && InRange(inner, b[1..]);
    assert inner[|a| - 1..] == dims[|a|..];
    assert a == [a[0]] + a[1..] && b == [b[0]] + b[1..];
    if a[0] == b[0] {
      OffsetDisjoint(inner, a[1..], b[1..]);
    } else {
      OffsetInside(inner, a[1..]);
      OffsetInside(inner, b[1..]);
      var p, q := dims[0].Idx(a[0]), dims[0].Idx(b[0]);
      if p < q { Scale(p, q, s); } else { Scale(q, p, s); }
    }
  }

  /** The offset is linear in the last index. */
  lemma {:induction false} OffsetLast(dims: Dims, prefix: seq<int>, i: int)
    requires |prefix| < |dims|
    ensures Offset(dims, prefix + [i]) ==
      Offset(dims, prefix + [dims[|prefix|].lsb]) + dims[|prefix|].Idx(i) * Size(dims[|prefix| + 1..])
  {
    var j := dims[|prefix|].lsb;
    if prefix == [] {
      assert [] + [i] == [i] && [] + [j] == [j];
      assert [i][1..] == [] && [j][1..] == [];
      assert dims[0].Idx(j) == 0;
    } else {
      var inner := dims[1..];
      OffsetLast(inner, prefix[1..], i);
      assert (prefix + [i])[1..] == prefix[1..] + [i] && (prefix + [j])[1..] == prefix[1..] + [j];
      assert inner[|prefix|..] == dims[|prefix| + 1..];
    }
  }

  /** The ends of a range: the position of lsb is 0, that of msb is the last. */
  lemma RangeEnds(r: Range)
    ensures r.Idx(r.lsb) == 0 && r.Idx(r.msb) == r.Width() - 1
    ensures forall i, j :: r.Idx(i) == r.Idx(j) ==> i == j
  {
  }

  /** An element begins where its own lowest element begins, at every depth. */
  lemma {:induction false} OffsetDown(dims: Dims, idx: seq<int>)
    requires |idx| < |dims|
    ensures Offset(dims, idx + [dims[|idx|].lsb]) == Offset(dims, idx)
  {
    if idx == [] {
      var j := dims[0].lsb;
      assert [] + [j] == [j] && [j][1..] == [];
    } else {
      assert (idx + [dims[|idx|].lsb])[1..] == idx[1..] + [dims[1..][|idx| - 1].lsb];
      OffsetDown(dims[1..], idx[1..]);
    }
  }

  // ----- The loops of the program -----

  lemma OffsetStep(dims: Dims, idx: seq<int>, k: nat)
    requires k < |idx| <= |dims|
    ensures Offset(dims[k..], idx[k..]) ==
      dims[k].Idx(idx[k]) * Size(dims[k + 1..]) + Offset(dims[k + 1..], idx[k + 1..])
    ensures Size(dims[k..]) == dims[k].Width() * Size(dims[k + 1..])
  {
    assert dims[k..][1..] == dims[k + 1..] && idx[k..][1..] == idx[k + 1..];
  }

  lemma SizeStep(dims: Dims, k: nat)
    requires k < |dims|
    ensures Size(dims[k..]) == Size(dims[k + 1..]) * dims[k].Width()
  {
    assert dims[k..][1..] == dims[k + 1..];
  }

  lemma Whole(dims: Dims, idx: seq<int>)
    ensures dims[0..] == dims && idx[0..] == idx && dims[|dims|..] == [] && Size([]) == 1
  {
  }

  /** Where the offset starts from: the last index alone. */
  lemma OffsetOne(dims: Dims, idx: seq<int>)
    requires 1 <= |idx| <= |dims|
    ensures var k := |idx| - 1;
            Offset(dims[k..], idx[k..]) == dims[k].Idx(idx[k]) * Size(dims[k + 1..])
  {
    OffsetStep(dims, idx, |idx| - 1);
    assert idx[|idx|..] == [];
  }

  /** sb_to_idx: the canonical bit that a full list of indices selects. */
  method SbToIdx(dims: Dims, prefix: seq<int>, sb: int) returns (off: int)
    requires |prefix| + 1 == |dims|
    ensures off == Offset(dims, prefix + [sb])
  {
    hide Size, Offset;
    ghost var idx := prefix + [sb];
    Whole(dims, idx);
    var k := |prefix|;
    off := dims[k].Idx(sb);
    var wid := dims[k].Width();
    OffsetOne(dims, idx);
    SizeStep(dims, k);
    while k > 0
      invariant 0 <= k <= |prefix|
      invariant off == Offset(dims[k..], idx[k..]) && wid == Size(dims[k..])
    {
      k := k - 1;
      OffsetStep(dims, idx, k);
      SizeStep(dims, k);
      off := off + dims[k].Idx(prefix[k]) * wid;
      wid := wid * dims[k].Width();
    }
  }

  /** The width of the elements that n indices select. */
  method SliceWidth(dims: Dims, n: nat) returns (acc: nat)
    requires n <= |dims|
    ensures acc == Size(dims[n..])
  {
    hide Size;
    Whole(dims, []);
    acc := 1;
    var k := |dims|;
    while k > n
      invariant n <= k <= |dims|
      invariant acc == Size(dims[k..])
    {
      k := k - 1;
      SizeStep(dims, k);
      acc := acc * dims[k].Width();
    }
  }

  /** prefix_to_slice: offset and width of the element that the indices select, refused when
      the last index is out of its range. */
  method SbToSlice(dims: Dims, prefix: seq<int>, sb: int) returns (ok: bool, off: int, wid: nat)
    requires |prefix| < |dims|
    ensures ok == dims[|prefix|].Holds(sb)
    ensures ok ==> off == Offset(dims, prefix + [sb])
    ensures wid == Size(dims[|prefix| + 1..])
  {
    hide Size, Offset;
    var k := |prefix|;
    var acc := SliceWidth(dims, k + 1);
    wid, off := acc, 0;
    if sb < dims[k].msb && sb < dims[k].lsb { return false, off, wid; }
    if sb > dims[k].msb && sb > dims[k].lsb { return false, off, wid; }
    ghost var idx := prefix + [sb];
    Whole(dims, idx);
    off := dims[k].Idx(sb) * acc;
    OffsetOne(dims, idx);
    while k > 0
      invariant 0 <= k <= |prefix|
      invariant off == Offset(dims[k..], idx[k..]) && acc == Size(dims[k + 1..])
    {
      SizeStep(dims, k);
      acc := acc * dims[k].Width();
      k := k - 1;
      OffsetStep(dims, idx, k);
      off := off + dims[k].Idx(prefix[k]) * acc;
    }
    ok := true;
  }
}
