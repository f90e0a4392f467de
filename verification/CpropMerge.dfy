/**
 The netlist after its PV drivers have been merged, and the proof that the merge keeps
 the meaning of the netlist and does not depend on the order of the links.
 */
module CpropMerge {
  import opened FourState
  import opened Netlists
  import opened CpropRules
  import opened CpropCollapse

  function PartOf(N: Netlist, id: nat): Part
  {
    if id in N.nodes && N.nodes[id].PartPV?
    then Part(N.nodes[id].base, N.nodes[id].wid, N.nodes[id].src)
    else Part(0, 0, 0)
  }

  function PartsOf(N: Netlist, order: seq<nat>): (r: seq<Part>)
    ensures |r| == |order| && forall k :: 0 <= k < |order| ==> r[k] == PartOf(N, order[k])
  {
    seq(|order|, k requires 0 <= k < |order| => PartOf(N, order[k]))
  }

  ghost predicate OnlyPV(N: Netlist, t: nat)
  {
    && t in N.nexus
    && (forall s :: s in N.nexus[t].sigs ==> !s.Output())
    && forall id :: id in Drivers(N, t) ==> N.nodes[id].PartPV?
  }

  ghost predicate PartsDisjoint(N: Netlist, ids: set<nat>)
  {
    forall a, b, i :: a in ids && b in ids && a != b && PartOf(N, a).Covers(i) ==> !PartOf(N, b).Covers(i)
  }

  ghost predicate PartsInside(N: Netlist, ids: set<nat>, width: nat)
  {
    forall a :: a in ids ==> PartOf(N, a).Top() <= width
  }

  /** Nothing but part selects drives the net, at least two of them (or one, if the net is
      two-state), pairwise disjoint and inside the vector. */
  ghost predicate MergeEnabled(N: Netlist, t: nat)
  {
    && OnlyPV(N, t)
    && (|Drivers(N, t)| > 1 || (|Drivers(N, t)| == 1 && N.nexus[t].TwoState()))
    && PartsDisjoint(N, Drivers(N, t)) && PartsInside(N, Drivers(N, t), N.nexus[t].width)
  }

  predicate NoDup(s: seq<nat>)
  {
    forall j, k :: 0 <= j < k < |s| ==> s[j] != s[k]
  }

  /** `order` lists the drivers of `t` by increasing base. */
  ghost predicate OrderOf(N: Netlist, t: nat, order: seq<nat>)
  {
    && OnlyPV(N, t) && NoDup(order)
    && (forall id :: id in order <==> id in Drivers(N, t))
    && Sorted(PartsOf(N, order))
  }

  /** The signal that carries a filler constant: a local four-state wire. */
  const FillerSignal := Signal(KWire, false, false, false, true, NotAPort, false)

  function FillFor(N: Netlist, t: nat): V
  {
    if t in N.nexus && N.nexus[t].TwoState() then V0 else Vz
  }

  function PinNexuses(pins: seq<Pin>, first: nat): (r: seq<nat>)
    ensures |r| == |pins|
    ensures forall k :: 0 <= k < |pins| ==> r[k] == if pins[k].Gap? then first + k else pins[k].src
  {
    seq(|pins|, k requires 0 <= k < |pins| => if pins[k].Gap? then first + k else pins[k].src)
  }

  predicate IsGap(pins: seq<Pin>, first: nat, n: int)
  {
    first <= n < first + |pins| && pins[n - first].Gap?
  }

  function FillerNodes(pins: seq<Pin>, first: nat, fill: V): map<nat, Node>
  {
    map n: nat | first <= n < first + |pins| && IsGap(pins, first, n) :: Const(n, Fill(fill, pins[n - first].len))
  }

  function FillerNexuses(pins: seq<Pin>, first: nat): map<nat, Nexus>
  {
    map n: nat | first <= n < first + |pins| && IsGap(pins, first, n) ::
      Nexus(pins[n - first].len, [FillerSignal], false)
  }

  function PinsOf(N: Netlist, t: nat, order: seq<nat>): seq<Pin>
  {
    Layout(PartsOf(N, order), 0, Width(N, t))
  }

  /** `n` names a filler of the merge of `t`. */
  predicate Filler(N: Netlist, t: nat, order: seq<nat>, n: nat)
  {
    IsGap(PinsOf(N, t, order), N.next + 1, n)
  }

  /** The new concatenation takes the next name; the filler of pin k takes the k-th after it. */
  function Merge(N: Netlist, t: nat, order: seq<nat>): Netlist
  {
    var pins := PinsOf(N, t, order);
    var first := N.next + 1;
    Netlist((N.nodes - Drivers(N, t))[N.next := Concat(t, PinNexuses(pins, first), false)]
              + FillerNodes(pins, first, FillFor(N, t)),
            N.nexus + FillerNexuses(pins, first),
            first + |pins|)
  }

  /** What the pass knows when it goes on to build the concatenation. */
  ghost predicate Mergeable(N: Netlist, t: nat, order: seq<nat>)
  {
    OrderOf(N, t, order) && order != [] && Accepted(PartsOf(N, order), Width(N, t))
  }

  // ----- Independence of the link order -----

  lemma {:induction false} SortedUnique(N: Netlist, a: seq<nat>, b: seq<nat>)
    requires forall id :: id in a + b ==> id in N.nodes && N.nodes[id].PartPV?
    requires forall j, k :: 0 <= j < k < |a| ==> N.nodes[a[j]].base < N.nodes[a[k]].base
    requires forall j, k :: 0 <= j < k < |b| ==> N.nodes[b[j]].base < N.nodes[b[k]].base
    requires forall id :: id in a <==> id in b
    ensures a == b
  {
    assert (a != [] ==> a[0] in a) && (b != [] ==> b[0] in b);
    if a != [] && b != [] {
      var j :| 0 <= j < |b| && b[j] == a[0];
      var k :| 0 <= k < |a| && a[k] == b[0];
      assert N.nodes[b[0]].base <= N.nodes[b[j]].base && N.nodes[a[0]].base <= N.nodes[a[k]].base;
      assert j == 0;
      var a', b' := a[1..], b[1..];
      assert a[0] !in a' && b[0] !in b';
      forall id ensures id in a' <==> id in b' {
        assert id in a <==> id == a[0] || id in a';
        assert id in b <==> id == b[0] || id in b';
      }
      SortedUnique(N, a', b');
    }
  }

  /** What an order lists: each part select of `t` once, each reading a nexus of its width. */
  lemma OrderParts(N: Netlist, t: nat, order: seq<nat>)
    requires WellFormed(N) && OrderOf(N, t, order)
    ensures forall k :: 0 <= k < |order| ==>
              var p := PartsOf(N, order)[k];
              && order[k] in Drivers(N, t) && N.nodes[order[k]] == PartPV(t, p.src, p.base, p.wid)
              && p.wid > 0 && p.src in N.nexus && N.nexus[p.src].width == p.wid
    ensures forall j :: j in Drivers(N, t) ==> exists k :: 0 <= k < |order| && order[k] == j
  {
    forall k | 0 <= k < |order|
      ensures order[k] in Drivers(N, t) && NodeFits(N, N.nodes[order[k]])
    {
    }
  }

  lemma DisjointByIndex(N: Netlist, ids: set<nat>, order: seq<nat>)
    requires NoDup(order) && forall id :: id in order <==> id in ids
    ensures PartsDisjoint(N, ids) <==> Disjoint(PartsOf(N, order))
  {
    hide PartOf;
    var parts := PartsOf(N, order);
    if Disjoint(parts) {
      forall a, b, i | a in ids && b in ids && a != b && PartOf(N, a).Covers(i) ensures !PartOf(N, b).Covers(i) {
        var j :| 0 <= j < |order| && order[j] == a;
        var k :| 0 <= k < |order| && order[k] == b;
        assert parts[j].Covers(i) && parts[k] == PartOf(N, b);
      }
    }
    if PartsDisjoint(N, ids) {
      forall j, k, i | 0 <= j < k < |parts| && parts[j].Covers(i) ensures !parts[k].Covers(i) {
        assert order[j] in ids && order[k] in ids && PartOf(N, order[j]).Covers(i);
      }
    }
  }

  lemma InsideByIndex(N: Netlist, ids: set<nat>, order: seq<nat>, width: nat)
    requires forall id :: id in order <==> id in ids
    ensures PartsInside(N, ids, width) <==> InRange(PartsOf(N, order), width)
  {
    hide PartOf;
    var parts := PartsOf(N, order);
    if InRange(parts, width) {
      forall a | a in ids ensures PartOf(N, a).Top() <= width {
        var k :| 0 <= k < |order| && order[k] == a;
        assert parts[k].Top() <= width;
      }
    }
    if PartsInside(N, ids, width) {
      forall k | 0 <= k < |parts| ensures parts[k].Top() <= width { assert order[k] in ids; }
    }
  }

  /** The checks on neighbours and on the last part decide disjointness and range of all parts. */
  lemma MergeOrderAccepted(N: Netlist, t: nat, order: seq<nat>)
    requires WellFormed(N) && OrderOf(N, t, order)
    ensures PartsDisjoint(N, Drivers(N, t)) && PartsInside(N, Drivers(N, t), Width(N, t))
            <==> Accepted(PartsOf(N, order), Width(N, t))
  {
    OrderParts(N, t, order);
    AcceptedIff(PartsOf(N, order), Width(N, t));
    DisjointByIndex(N, Drivers(N, t), order);
    InsideByIndex(N, Drivers(N, t), order, Width(N, t));
  }

  /** However the links are walked and ties are sorted, the merge is the same netlist. */
  lemma MergeUnique(N: Netlist, t: nat, a: seq<nat>, b: seq<nat>)
    requires WellFormed(N) && Mergeable(N, t, a) && OrderOf(N, t, b)
    ensures a == b && Merge(N, t, a) == Merge(N, t, b)
  {
    MergeOrderAccepted(N, t, a);
    MergeOrderAccepted(N, t, b);
    StrictlySorted(N, t, a);
    StrictlySorted(N, t, b);
    SortedUnique(N, a, b);
  }

  lemma StrictlySorted(N: Netlist, t: nat, a: seq<nat>)
    requires WellFormed(N) && OrderOf(N, t, a) && Accepted(PartsOf(N, a), Width(N, t))
    ensures forall id :: id in a ==> id in N.nodes && N.nodes[id].PartPV?
    ensures forall j, k :: 0 <= j < k < |a| ==> N.nodes[a[j]].base < N.nodes[a[k]].base
  {
    OrderParts(N, t, a);
    forall j, k | 0 <= j < k < |a| ensures PartsOf(N, a)[j].base < PartsOf(N, a)[k].base {
      AcceptedOrder(PartsOf(N, a), Width(N, t), j, k);
    }
  }
}
