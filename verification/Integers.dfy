/** Four-state vectors read as integers, and the conversions between widths. */
module Integers {
  import opened FourState
  import opened Powers

  // ----- Vectors as integers -----

  function AsInt(v: Vec, signed: bool): int
  {
    if signed && v != [] && v[|v| - 1] == V1 then ToNat(v) - Pow2(|v|) else ToNat(v)
  }

  lemma {:induction false} ToNatBelow(v: Vec)
    ensures ToNat(v) < Pow2(|v|)
  {
    if v != [] { ToNatBelow(v[1..]); }
  }

  lemma {:induction false} ToNatInjective(a: Vec, b: Vec)
    requires Defined(a) && Defined(b) && |a| == |b| && ToNat(a) == ToNat(b)
    ensures a == b
  {
    if a != [] {
      assert a[0] == b[0] && ToNat(a[1..]) == ToNat(b[1..]);
      ToNatInjective(a[1..], b[1..]);
      assert a == [a[0]] + a[1..] && b == [b[0]] + b[1..];
    }
  }

  lemma TwiceProduct(a: int, x: int)
    ensures (2 * a) * x == 2 * (a * x)
  {
  }

  lemma LessOne(a: int, b: int)
    ensures a * (b - 1) == a * b - a && a * 0 == 0
  {
  }

  lemma {:induction false} ToNatSplit(v: Vec, k: nat)
    requires k <= |v|
    ensures ToNat(v) == ToNat(v[..k]) + Pow2(k) * ToNat(v[k..])
  {
    if k == 0 {
      assert v[..0] == [] && v[0..] == v;
    } else {
      ToNatSplit(v[1..], k - 1);
      assert v[1..][..k - 1] == v[..k][1..] && v[1..][k - 1..] == v[k..];
      TwiceProduct(Pow2(k - 1), ToNat(v[k..]));
    }
  }

  lemma {:induction false} ToNatFill(b: V, n: nat)
    ensures ToNat(Fill(b, n)) == if b == V1 then Pow2(n) - 1 else 0
  {
    if n > 0 {
      assert Fill(b, n)[1..] == Fill(b, n - 1);
      ToNatFill(b, n - 1);
    }
  }

  /** The sign bit decides the upper half. */
  lemma TopBit(v: Vec)
    requires v != [] && Defined(v)
    ensures Pow2(|v|) == 2 * Pow2(|v| - 1)
    ensures v[|v| - 1] == V1 <==> ToNat(v) >= Pow2(|v| - 1)
    ensures ToNat(v) < Pow2(|v|)
  {
    var k := |v| - 1;
    ToNatSplit(v, k);
    ToNatBelow(v[..k]);
    ToNatBelow(v);
    assert v[k..] == [v[k]] && v[k..][1..] == [];
    assert ToNat(v[k..]) == if v[k] == V1 then 1 else 0;
    assert Pow2(k) * 1 == Pow2(k) && Pow2(k) * 0 == 0;
  }

  /** A signed vector is in the signed range and is its bits modulo the power of two. */
  lemma AsIntRange(v: Vec, signed: bool)
    requires v != [] && Defined(v)
    ensures signed ==> 0 - Pow2(|v| - 1) <= AsInt(v, signed) < Pow2(|v| - 1)
    ensures !signed ==> 0 <= AsInt(v, signed) < Pow2(|v|)
    ensures AsInt(v, signed) == ToNat(v) || AsInt(v, signed) == ToNat(v) - Pow2(|v|)
  {
    TopBit(v);
  }

  lemma AsIntInjective(a: Vec, b: Vec, signed: bool)
    requires Defined(a) && Defined(b) && |a| == |b| && AsInt(a, signed) == AsInt(b, signed)
    ensures a == b
  {
    if a != [] { TopBit(a); TopBit(b); }
    ToNatInjective(a, b);
  }

  /** Adding one, dropping a carry out of the top. */
  function Inc(v: Vec): (r: Vec)
    ensures |r| == |v| && (Defined(v) ==> Defined(r))
  {
    if v == [] then []
    else if v[0] == V1 then [V0] + Inc(v[1..])
    else [V1] + v[1..]
  }

  lemma {:induction false} IncToNat(v: Vec)
    requires Defined(v)
    ensures ToNat(Inc(v)) == if ToNat(v) == Pow2(|v|) - 1 then 0 else ToNat(v) + 1
  {
    if v != [] {
      ToNatBelow(v[1..]);
      if v[0] == V1 {
        IncToNat(v[1..]);
        assert ([V0] + Inc(v[1..]))[1..] == Inc(v[1..]);
      } else {
        assert ([V1] + v[1..])[1..] == v[1..];
      }
    }
  }

  /** A vector of width w >= 1 holding one. */
  function One(w: nat): (r: Vec)
    requires w > 0
    ensures |r| == w && Defined(r)
  {
    [V1] + Fill(V0, w - 1)
  }

  lemma OneToNat(w: nat)
    requires w > 0
    ensures ToNat(One(w)) == 1
  {
    assert One(w)[1..] == Fill(V0, w - 1);
    ToNatFill(V0, w - 1);
  }

  /** max_value: a power of two less the increment. The increment has the width and the
      signedness of the enumeration, so that one signed bit holding one counts as minus one. */
  function MaxValue(w: nat, signed: bool): int
    requires w > 0
  {
    Pow2(if signed then w - 1 else w) - AsInt(One(w), signed)
  }

  lemma MaxValueIs(w: nat, signed: bool)
    requires w > 0 && !(signed && w == 1)
    ensures MaxValue(w, signed) == Pow2(if signed then w - 1 else w) - 1
  {
    OneToNat(w);
  }

  lemma AtMostMax(v: Vec, signed: bool)
    requires Defined(v) && v != [] && !(signed && |v| == 1)
    ensures AsInt(v, signed) <= MaxValue(|v|, signed)
  {
    TopBit(v);
    MaxValueIs(|v|, signed);
  }

  /** One signed bit: the maximum is out of reach, and the increment flips the bit. */
  lemma OneSignedBit(v: Vec)
    requires Defined(v) && |v| == 1
    ensures AsInt(v, true) != MaxValue(1, true)
    ensures (v == [V0] && Inc(v) == [V1]) || (v == [V1] && Inc(v) == [V0])
    ensures AsInt([V0], true) == 0 && AsInt([V1], true) == -1
  {
    assert v == [v[0]];
    assert One(1) == [V1];
    assert [V1][1..] == [] && [V0][1..] == [];
    assert Pow2(1) == 2 * Pow2(0) && Pow2(0) == 1;
    assert ToNat([V1]) == 1 && ToNat([V0]) == 0;
    assert [V0] + Inc([]) == [V0] && [V1] + [] == [V1];
  }

  lemma IncWide(v: Vec, signed: bool)
    requires Defined(v) && v != [] && !(signed && |v| == 1)
    ensures AsInt(v, signed) != MaxValue(|v|, signed) ==> AsInt(Inc(v), signed) == AsInt(v, signed) + 1
  {
    hide MaxValue, Inc;
    IncToNat(v);
    MaxValueIs(|v|, signed);
    TopBit(v);
    TopBit(Inc(v));
    Pow2Positive(|v| - 1);
  }

  /** A value that is not taken for the maximum is incremented to its integer plus one, except
      for one signed bit holding 0. */
  lemma IncAsInt(v: Vec, signed: bool)
    requires Defined(v) && v != [] && AsInt(v, signed) != MaxValue(|v|, signed)
    ensures AsInt(Inc(v), signed) == AsInt(v, signed) + 1 <==> !(signed && v == [V0])
  {
    if signed && |v| == 1 { OneSignedBit(v); } else { IncWide(v, signed); }
  }

  // ----- Padding and trimming -----

  predicate Negative(v: Vec, signed: bool)
  {
    signed && v != [] && v[|v| - 1] == V1
  }

  /** pad_to_width: sign extension of signed numbers, zero extension of others. A number
      without a defined length keeps an undefined top bit. */
  function Pad(v: Vec, w: nat, signed: bool, hasLen: bool): (r: Vec)
    ensures |r| == if |v| < w then w else |v|
    ensures Defined(v) ==> Defined(r)
  {
    if |v| >= w then v
    else if v == [] then Fill(V0, w)
    else
      var top := v[|v| - 1];
      var pad := if top == V1 && !signed then V0
                 else if hasLen && !signed && (top == Vx || top == Vz) then V0 else top;
      v + Fill(pad, w - |v|)
  }

  /** All bits of v from k up are b. */
  predicate AllFrom(v: Vec, k: nat, b: V)
  {
    forall i :: k <= i < |v| ==> v[i] == b
  }

  lemma UpperToNat(v: Vec, k: nat, b: V)
    requires k <= |v| && Defined(v) && AllFrom(v, k, b)
    ensures ToNat(v) == ToNat(v[..k]) + if b == V1 then Pow2(|v|) - Pow2(k) else 0
  {
    hide Pow2, ToNat, Defined;
    var n := |v| - k;
    ToNatSplit(v, k);
    assert v[k..] == Fill(b, n);
    ToNatFill(b, n);
    Pow2Add(k, n);
    LessOne(Pow2(k), Pow2(n));
  }

  lemma {:induction false} SmallIsZeroAbove(v: Vec, k: nat)
    requires Defined(v) && ToNat(v) < Pow2(k)
    ensures AllFrom(v, k, V0)
  {
    if v != [] && k > 0 {
      SmallIsZeroAbove(v[1..], k - 1);
      forall i | k <= i < |v| ensures v[i] == V0 { assert v[i] == v[1..][i - 1]; }
    } else if v != [] {
      SmallIsZeroAbove(v[1..], 0);
      forall i | 1 <= i < |v| ensures v[i] == V0 { assert v[i] == v[1..][i - 1]; }
    }
  }

  lemma {:induction false} LargeIsOneAbove(v: Vec, k: nat)
    requires Defined(v) && k <= |v| && ToNat(v) >= Pow2(|v|) - Pow2(k)
    ensures AllFrom(v, k, V1)
  {
    if v != [] {
      ToNatBelow(v[1..]);
      LargeIsOneAbove(v[1..], if k == 0 then 0 else k - 1);
      forall i | k <= i < |v| && i >= 1 ensures v[i] == V1 { assert v[i] == v[1..][i - 1]; }
    }
  }

  /** Padding keeps the integer unless a negative number is then read unsigned. */
  lemma PadAsInt(v: Vec, w: nat, signed: bool, hasLen: bool, outSigned: bool)
    requires Defined(v) && v != [] && |v| < w && (outSigned || !Negative(v, signed))
    ensures AsInt(Pad(v, w, signed, hasLen), outSigned) == AsInt(v, signed)
  {
    var r := Pad(v, w, signed, hasLen);
    var b := r[w - 1];
    assert AllFrom(r, |v|, b);
    UpperToNat(r, |v|, b);
    assert r[..|v|] == v;
  }

  /** The bits above width w are a repetition of bit w - 1, or zero where the enumeration is
      unsigned. */
  predicate Trimmable(v: Vec, w: nat, outSigned: bool)
    requires 0 < w < |v|
  {
    AllFrom(v, w, v[w - 1]) || (!outSigned && AllFrom(v, w, V0))
  }

  /** What a wider value must meet to be cut to w bits without an error. */
  predicate Cuttable(v: Vec, w: nat, signed: bool, outSigned: bool)
    requires 0 < w < |v|
  {
    Trimmable(v, w, outSigned) && (signed || v[w] != V1) && (outSigned || !Negative(v, signed))
  }

  lemma CutAsInt(v: Vec, w: nat, signed: bool, outSigned: bool)
    requires 0 < w < |v| && Defined(v) && Cuttable(v, w, signed, outSigned)
    ensures AsInt(v[..w], outSigned) == AsInt(v, signed)
  {
    UpperToNat(v, w, v[w]);
  }

  lemma CutComplete(v: Vec, w: nat, signed: bool, outSigned: bool, r: Vec)
    requires 0 < w < |v| && Defined(v)
    requires Defined(r) && |r| == w && AsInt(r, outSigned) == AsInt(v, signed)
    ensures Cuttable(v, w, signed, outSigned)
  {
    TopBit(r);
    TopBit(v);
    if Negative(v, signed) {
      LargeIsOneAbove(v, w - 1);
    } else if outSigned {
      SmallIsZeroAbove(v, w - 1);
    } else {
      SmallIsZeroAbove(v, w);
    }
  }

  /** The low w bits of a number. */
  function FromNat(n: nat, w: nat): (r: Vec)
    ensures |r| == w && Defined(r)
  {
    if w == 0 then [] else [if n % 2 == 1 then V1 else V0] + FromNat(n / 2, w - 1)
  }

  lemma {:induction false} FromNatSmall(n: nat, w: nat)
    requires n < Pow2(w)
    ensures ToNat(FromNat(n, w)) == n
  {
    if w > 0 {
      FromNatSmall(n / 2, w - 1);
      assert FromNat(n, w)[1..] == FromNat(n / 2, w - 1);
    }
  }

  lemma Numeral(n: int, w: nat, signed: bool) returns (v: Vec)
    requires w > 0 && (if signed then 0 - Pow2(w - 1) <= n < Pow2(w - 1) else 0 <= n < Pow2(w))
    ensures |v| == w && Defined(v) && AsInt(v, signed) == n
  {
    Pow2Positive(w - 1);
    assert Pow2(w) == 2 * Pow2(w - 1);
    var bits: nat := if n < 0 then n + Pow2(w) else n;
    v := FromNat(bits, w);
    FromNatSmall(bits, w);
    TopBit(v);
  }
}
