/**
 Merging the part-select drivers of a net into one concatenation
 (cprop_functor::lpm_part_select).
 */
module CpropCollapse {
  import opened FourState
  import opened Netlists
  import opened CpropRules
  import opened Options

  // ----- Interval tiling -----

  /** What a PV part select contributes: `wid` bits from `src`, placed at `base`. */
  datatype Part = Part(base: nat, wid: nat, src: nat)
  {
    function Top(): nat { base + wid }

    predicate Covers(i: int) { base <= i < Top() }
  }

  /** A pin of the concatenation: a constant filler or the input of a part select. */
  datatype Pin = Gap(len: nat) | Src(src: nat)

  predicate Sorted(parts: seq<Part>)
  {
    forall j, k :: 0 <= j < k < |parts| ==> parts[j].base <= parts[k].base
  }

  /** The overlap check, which looks at neighbours only, and the tail check, which looks
      at the last part only. */
  predicate Accepted(parts: seq<Part>, width: nat)
  {
    && (forall k :: 1 <= k < |parts| ==> parts[k - 1].Top() <= parts[k].base)
    && (parts != [] ==> parts[|parts| - 1].Top() <= width)
  }

  ghost predicate Disjoint(parts: seq<Part>)
  {
    forall j, k, i :: 0 <= j < k < |parts| && parts[j].Covers(i) ==> !parts[k].Covers(i)
  }

  ghost predicate InRange(parts: seq<Part>, width: nat)
  {
    forall k :: 0 <= k < |parts| ==> parts[k].Top() <= width
  }

  lemma {:induction false} AcceptedOrder(parts: seq<Part>, width: nat, j: nat, k: nat)
    requires Accepted(parts, width) && j < k < |parts|
    ensures parts[j].Top() <= parts[k].base
    decreases k
  {
    if j < k - 1 { AcceptedOrder(parts, width, j, k - 1); }
  }

  /** For parts sorted by base the two local checks decide the global property. */
  lemma AcceptedIff(parts: seq<Part>, width: nat)
    requires Sorted(parts) && forall k :: 0 <= k < |parts| ==> parts[k].wid > 0
    ensures Accepted(parts, width) <==> Disjoint(parts) && InRange(parts, width)
  {
    if Accepted(parts, width) {
      forall j, k, i | 0 <= j < k < |parts| && parts[j].Covers(i) ensures !parts[k].Covers(i) {
        AcceptedOrder(parts, width, j, k);
      }
      forall k | 0 <= k < |parts| ensures parts[k].Top() <= width {
        if k < |parts| - 1 { AcceptedOrder(parts, width, k, |parts| - 1); }
      }
    }
    if Disjoint(parts) && InRange(parts, width) {
      forall k | 1 <= k < |parts| ensures parts[k - 1].Top() <= parts[k].base {
        if parts[k - 1].Top() > parts[k].base {
          assert parts[k - 1].Covers(parts[k].base) && parts[k].Covers(parts[k].base);
        }
      }
    }
  }

  predicate Tiled(parts: seq<Part>, off: nat, width: nat)
  {
    if parts == [] then off <= width
    else off <= parts[0].base && Tiled(parts[1..], parts[0].Top(), width)
  }

  lemma {:induction false} AcceptedTiled(parts: seq<Part>, off: nat, width: nat)
    requires Accepted(parts, width) && off <= width
    requires parts != [] ==> off <= parts[0].base
    ensures Tiled(parts, off, width)
  {
    if parts != [] {
      var tail := parts[1..];
      if tail != [] { assert tail[|tail| - 1] == parts[|parts| - 1]; }
      assert parts[0].Top() <= width by {
        if tail != [] { AcceptedOrder(parts, width, 0, |parts| - 1); }
      }
      assert forall k :: 1 <= k < |tail| ==> tail[k - 1] == parts[k] && tail[k] == parts[k + 1];
      AcceptedTiled(tail, parts[0].Top(), width);
    }
  }

  /** The pins of the concatenation that covers [off, width). */
  function Layout(parts: seq<Part>, off: nat, width: nat): seq<Pin>
  {
    if parts == [] then
      if off < width then [Gap(width - off)] else []
    else
      var p := parts[0];
      var at := if p.base > off then p.base else off;
      (if p.base > off then [Gap(p.base - off)] else []) + [Src(p.src)]
        + Layout(parts[1..], at + p.wid, width)
  }

  function PinVec(pin: Pin, val: Valuation, fill: V): Vec
  {
    if pin.Gap? then Fill(fill, pin.len) else At(val, pin.src)
  }

  function Render(pins: seq<Pin>, val: Valuation, fill: V): Vec
  {
    if pins == [] then [] else PinVec(pins[0], val, fill) + Render(pins[1..], val, fill)
  }

  lemma {:induction false} RenderConcat(a: seq<Pin>, b: seq<Pin>, val: Valuation, fill: V)
    ensures Render(a + b, val, fill) == Render(a, val, fill) + Render(b, val, fill)
  {
    if a == [] {
      assert a + b == b;
    } else {
      assert (a + b)[1..] == a[1..] + b;
      RenderConcat(a[1..], b, val, fill);
    }
  }

  /** Bit `i` of a net driven by disjoint parts, with `fill` where no part reaches. */
  function Painted(parts: seq<Part>, val: Valuation, fill: V, i: int): V
  {
    if parts == [] then fill
    else if parts[0].Covers(i) then Bit(At(val, parts[0].src), i - parts[0].base)
    else Painted(parts[1..], val, fill, i)
  }

  lemma {:induction false} PaintedBelow(parts: seq<Part>, val: Valuation, fill: V, off: nat, width: nat, i: int)
    requires Tiled(parts, off, width) && i < off
    ensures Painted(parts, val, fill, i) == fill
  {
    if parts != [] { PaintedBelow(parts[1..], val, fill, parts[0].Top(), width, i); }
  }

  function Head(p: Part, off: nat): seq<Pin>
  {
    (if p.base > off then [Gap(p.base - off)] else []) + [Src(p.src)]
  }

  lemma RenderHead(p: Part, off: nat, val: Valuation, fill: V)
    requires off <= p.base
    ensures Render(Head(p, off), val, fill) == Fill(fill, p.base - off) + At(val, p.src)
  {
    assert Render([Src(p.src)], val, fill) == At(val, p.src) + Render([Src(p.src)][1..], val, fill);
    if p.base > off {
      assert Head(p, off)[1..] == [Src(p.src)];
    } else {
      assert Head(p, off) == [Src(p.src)];
    }
  }

  ghost predicate Paints(r: Vec, parts: seq<Part>, val: Valuation, fill: V, off: nat, width: nat)
  {
    && off <= width && |r| == width - off
    && forall i :: off <= i < width ==> r[i - off] == Painted(parts, val, fill, i)
  }

  lemma PaintsStep(r: Vec, parts: seq<Part>, val: Valuation, fill: V, off: nat, width: nat)
    requires parts != [] && Tiled(parts, off, width)
    requires |At(val, parts[0].src)| == parts[0].wid
    requires Paints(r, parts[1..], val, fill, parts[0].Top(), width)
    ensures Paints(Fill(fill, parts[0].base - off) + At(val, parts[0].src) + r, parts, val, fill, off, width)
  {
    var p := parts[0];
    forall i | off <= i < p.base ensures Painted(parts, val, fill, i) == fill {
      PaintedBelow(parts[1..], val, fill, p.Top(), width, i);
    }
  }

  lemma PaintsNone(val: Valuation, fill: V, off: nat, width: nat)
    requires off <= width
    ensures Paints(Render(Layout([], off, width), val, fill), [], val, fill, off, width)
  {
    if off < width {
      assert [Gap(width - off)][1..] == [];
      assert Render([Gap(width - off)], val, fill) == Fill(fill, width - off) + [];
    }
  }

  /** The pin widths add up, and each bit of the concatenation is the painted bit. */
  lemma {:induction false} RenderLayout(parts: seq<Part>, val: Valuation, fill: V, off: nat, width: nat)
    requires Tiled(parts, off, width)
    requires forall k :: 0 <= k < |parts| ==> |At(val, parts[k].src)| == parts[k].wid
    ensures Paints(Render(Layout(parts, off, width), val, fill), parts, val, fill, off, width)
  {
    hide Render, Paints;
    if parts == [] {
      PaintsNone(val, fill, off, width);
    } else {
      var p, tail := parts[0], parts[1..];
      RenderLayout(tail, val, fill, p.Top(), width);
      var rest := Layout(tail, p.Top(), width);
      assert Layout(parts, off, width) == Head(p, off) + rest;
      RenderConcat(Head(p, off), rest, val, fill);
      RenderHead(p, off, val, fill);
      PaintsStep(Render(rest, val, fill), parts, val, fill, off, width);
    }
  }

  lemma {:induction false} PaintedBy(parts: seq<Part>, val: Valuation, fill: V, i: int, k: nat)
    requires Disjoint(parts) && k < |parts| && parts[k].Covers(i)
    ensures Painted(parts, val, fill, i) == Bit(At(val, parts[k].src), i - parts[k].base)
  {
    if k > 0 {
      assert !parts[0].Covers(i);
      var tail := parts[1..];
      assert Disjoint(tail) by {
        forall a, b, x | 0 <= a < b < |tail| && tail[a].Covers(x) ensures !tail[b].Covers(x) {
          assert parts[a + 1].Covers(x);
        }
      }
      PaintedBy(tail, val, fill, i, k - 1);
    }
  }

  lemma {:induction false} PaintedByNone(parts: seq<Part>, val: Valuation, fill: V, i: int)
    requires forall k :: 0 <= k < |parts| ==> !parts[k].Covers(i)
    ensures Painted(parts, val, fill, i) == fill
  {
    if parts != [] {
      assert !parts[0].Covers(i);
      PaintedByNone(parts[1..], val, fill, i);
    }
  }
}
