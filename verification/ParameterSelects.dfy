/**
 Selects of a parameter with constant indices: a bit (elaborate_expr_param_bit_), a part
 (elaborate_expr_param_part_) and indexed parts (elaborate_expr_param_idx_up_ and _do_).
 */
module ParameterSelects {
  import opened FourState
  import opened Powers
  import opened Integers
  import ShiftMeaning
  import opened Ranges
  import opened Selects
  import opened Options

  /** A parameter value; without a fixed length it goes on for ever above its top bit. */
  datatype Param = Param(value: Vec, hasLen: bool, signed: bool, range: Range)

  /** The bit at a declared index; x where the index is undefined or outside. */
  function BitSelect(p: Param, sel: Option<int>): V
    requires p.value != []
  {
    if sel.None? then Vx
    else
      var i := if p.range.msb >= p.range.lsb then sel.value - p.range.lsb else p.range.lsb - sel.value;
      if 0 <= i < |p.value| then p.value[i]
      else if i >= 0 && !p.hasLen then (if p.signed then p.value[|p.value| - 1] else V0)
      else Vx
  }

  /** Bit k of r is the bit of the parameter k places above declared index i. */
  ghost predicate BitsFrom(p: Param, i: int, r: Vec)
    requires p.value != []
  {
    forall k :: 0 <= k < |r| ==> r[k] == BitSelect(p, Some(p.range.From(i, k)))
  }

  /** param_part_select_bits: wid bits from canonical position lsv. */
  method PartSelectBits(p: Param, wid: nat, lsv: int) returns (result: Vec)
    requires p.value != []
    ensures |result| == wid && BitsFrom(p, p.range.From(p.range.lsb, lsv), result)
  {
    result := Fill(Vx, wid);
    for idx := 0 to wid
      invariant |result| == wid
      invariant forall k :: 0 <= k < idx ==> result[k] == BitSelect(p, Some(p.range.From(p.range.From(p.range.lsb, lsv), k)))
      invariant forall k :: idx <= k < wid ==> result[k] == Vx
    {
      var off := idx + lsv;
      if off < 0 {
        continue;
      } else if off < |p.value| {
        result := result[idx := p.value[off]];
      } else if !p.hasLen {
        result := result[idx := if p.signed then p.value[|p.value| - 1] else V0];
      }
    }
  }

  /** P[m:l]. A part in the wrong order is an error; otherwise bit k is the bit of the
      declared index k places above l. */
  method PartSelect(p: Param, msv: int, lsv: int) returns (r: Option<Vec>)
    requires p.value != []
    ensures r.None? <==> if p.range.msb < p.range.lsb then msv > lsv else msv < lsv
    ensures r.Some? ==> |r.value| == Range(msv, lsv).Width() && BitsFrom(p, lsv, r.value)
    ensures r.Some? ==> p.range.From(lsv, |r.value| - 1) == msv
  {
    if (msv > lsv && p.range.msb < p.range.lsb) || (msv < lsv && p.range.msb >= p.range.lsb) {
      return None;
    }
    var wid := 1 + if msv >= lsv then msv - lsv else lsv - msv;
    var base;
    if p.range.msb < p.range.lsb {
      base := p.range.lsb - lsv;
    } else {
      base := lsv - p.range.lsb;
    }
    assert p.range.From(p.range.lsb, base) == lsv;
    var bits := PartSelectBits(p, wid, base);
    r := Some(bits);
  }

  /** P[b +: w] and P[b -: w]: the bits of the w declared indices that are named, from the
      lowest one up; all x where the base is undefined. */
  method IndexedSelect(p: Param, dir: Direction, b: Option<int>, wid: nat) returns (r: Vec)
    requires p.value != [] && wid >= 1
    ensures |r| == wid
    ensures b.None? ==> r == Fill(Vx, wid)
    ensures b.Some? ==> BitsFrom(p, Lowest(p.range, dir, b.value, wid), r)
  {
    if b.None? {
      return Fill(Vx, wid);
    }
    var lsv := b.value;
    var parBase := if dir == Up then p.range.lsb else p.range.lsb + wid - 1;
    if p.range.msb < p.range.lsb {
      parBase := lsv;
      lsv := if dir == Up then p.range.lsb - wid + 1 else p.range.lsb;
    }
    assert p.range.From(p.range.lsb, lsv - parBase) == Lowest(p.range, dir, b.value, wid);
    r := PartSelectBits(p, wid, lsv - parBase);
  }

  /** The declared indices that an indexed select delivers are those that it names, each once:
      the map from result bits to named indices is a bijection. */
  lemma NamedOnce(r: Range, dir: Direction, b: int, w: nat, i: int)
    requires w >= 1
    ensures Named(dir, b, w, i) <==>
      exists k :: 0 <= k < w && Element(r, dir, b, w, k) == i
    ensures forall j, k :: 0 <= j < k < w ==>
      Element(r, dir, b, w, j) != Element(r, dir, b, w, k)
  {
    var low := Lowest(r, dir, b, w);
    if Named(dir, b, w, i) {
      var k := if r.msb >= r.lsb then i - low else low - i;
      assert 0 <= k < w && Element(r, dir, b, w, k) == i;
    }
  }

  // ----- What a bit select means -----

  /** A parameter of fixed length: the bits of its value by position, x outside. */
  lemma SizedBit(p: Param, i: int)
    requires p.value != [] && p.hasLen
    ensures BitSelect(p, Some(i)) == if 0 <= p.range.Idx(i) < |p.value| then p.value[p.range.Idx(i)] else Vx
    ensures BitSelect(p, None) == Vx
  {
  }

  lemma Halves(v: Vec, k: nat)
    requires k < |v|
    ensures ToNat(v[k..]) == (if v[k] == V1 then 1 else 0) + 2 * ToNat(v[k + 1..])
    ensures Pow2(|v| - k) == 2 * Pow2(|v| - k - 1)
  {
    assert v[k..][1..] == v[k + 1..];
  }

  lemma ByPosition(v: Vec, k: nat, signed: bool)
    requires Defined(v) && k < |v|
    ensures Pow2(k) >= 1
    ensures AsInt(v, signed) / Pow2(k) == ToNat(v[k..]) - if signed && v[|v| - 1] == V1 then Pow2(|v| - k) else 0
  {
    ShiftMeaning.SignOf(v, signed);
    hide ToNat, Pow2, Defined, AsInt;
    Pow2Positive(k);
    ToNatSplit(v, k);
    ToNatBelow(v[..k]);
    Pow2Add(k, |v| - k);
    ShiftMeaning.Quotient(ToNat(v[..k]), Pow2(k), ToNat(v[k..]), Pow2(|v| - k), signed && v[|v| - 1] == V1);
  }

  lemma Parity(bit: int, rest: int, half: int, neg: bool)
    requires bit == 0 || bit == 1
    ensures (bit + 2 * rest - if neg then 2 * half else 0) % 2 == bit
  {
  }

  lemma PastTop(v: Vec, k: nat, signed: bool)
    requires Defined(v) && v != [] && k >= |v|
    ensures Pow2(k) >= 1
    ensures AsInt(v, signed) / Pow2(k) == if signed && v[|v| - 1] == V1 then -1 else 0
  {
    AsIntRange(v, signed);
    TopBit(v);
    Pow2Grows(|v|, k);
    Pow2Positive(k);
    var n, p := AsInt(v, signed), Pow2(k);
    hide ToNat, Pow2, Defined, AsInt;
    ShiftMeaning.Factor(0, p, 0, 1);
    ShiftMeaning.Divides(if n < 0 then n + p else n, p, if n < 0 then -1 else 0);
  }

  /** A parameter without a fixed length has the bits of its integer, at any position from 0. */
  lemma UnsizedBit(p: Param, i: int)
    requires p.value != [] && !p.hasLen && Defined(p.value) && p.range.Idx(i) >= 0
    ensures Pow2(p.range.Idx(i)) >= 1
    ensures BitSelect(p, Some(i)) == if (AsInt(p.value, p.signed) / Pow2(p.range.Idx(i))) % 2 == 1 then V1 else V0
  {
    var k: nat := p.range.Idx(i);
    if k < |p.value| {
      hide AsInt, ToNat, Pow2;
      ByPosition(p.value, k, p.signed);
      Halves(p.value, k);
      Parity(if p.value[k] == V1 then 1 else 0, ToNat(p.value[k + 1..]), Pow2(|p.value| - k - 1),
             p.signed && p.value[|p.value| - 1] == V1);
    } else {
      hide AsInt, ToNat, Pow2;
      PastTop(p.value, k, p.signed);
    }
  }

  /** Below its range every parameter reads x; above it an undefined top bit of a signed one
      without a fixed length goes on. */
  lemma BeyondBit(p: Param, i: int)
    requires p.value != []
    ensures p.range.Idx(i) < 0 ==> BitSelect(p, Some(i)) == Vx
    ensures p.range.Idx(i) >= |p.value| && !p.hasLen ==>
      BitSelect(p, Some(i)) == if p.signed then p.value[|p.value| - 1] else V0
  {
  }
}
