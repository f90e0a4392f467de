/** Merging part selects keeps the meaning of the netlist. */
module CpropMergeProof {
  import opened FourState
  import opened Netlists
  import opened CpropRules
  import opened CpropCollapse
  import opened CpropMerge
  import opened Options

  lemma {:induction false} JoinReads(ins: seq<nat>, val: Valuation, val': Valuation)
    requires forall n :: n in ins ==> At(val, n) == At(val', n)
    ensures Join(ins, val) == Join(ins, val')
  {
    if ins != [] {
      assert ins[0] in ins;
      JoinReads(ins[1..], val, val');
    }
  }

  /** What a node drives depends only on the nexuses it reads. */
  lemma DriveReads(w: World, val: Valuation, val': Valuation, node: Node, i: int)
    requires forall n :: n in Reads(node) ==> At(val, n) == At(val', n)
    ensures Drive(w, val, node, i) == Drive(w, val', node, i)
  {
    match node
    case Concat(_, ins, _) => JoinReads(ins, val, val');
    case Mux(_, _, data) => assert Values(data, val) == Values(data, val');
    case Gate(_, _, ins) => assert Values(ins, val) == Values(ins, val');
    case _ =>
  }

  lemma {:induction false} JoinPins(pins: seq<Pin>, first: nat, val: Valuation, val': Valuation, fill: V)
    requires forall k :: 0 <= k < |pins| ==>
               At(val', PinNexuses(pins, first)[k]) == PinVec(pins[k], val, fill)
    ensures Join(PinNexuses(pins, first), val') == Render(pins, val, fill)
  {
    if pins != [] {
      var tail := pins[1..];
      assert PinNexuses(pins, first)[1..] == PinNexuses(tail, first + 1);
      forall k | 0 <= k < |tail| ensures At(val', PinNexuses(tail, first + 1)[k]) == PinVec(tail[k], val, fill) {
        assert PinNexuses(tail, first + 1)[k] == PinNexuses(pins, first)[k + 1];
      }
      JoinPins(tail, first + 1, val, val', fill);
    }
  }

  lemma {:induction false} LayoutSources(parts: seq<Part>, off: nat, width: nat, pin: Pin)
    requires pin in Layout(parts, off, width) && pin.Src?
    ensures exists k :: 0 <= k < |parts| && parts[k].src == pin.src
  {
    if parts != [] {
      var at := if parts[0].base > off then parts[0].base else off;
      if pin != Src(parts[0].src) {
        LayoutSources(parts[1..], at + parts[0].wid, width, pin);
        var k :| 0 <= k < |parts[1..]| && parts[1..][k].src == pin.src;
        assert parts[k + 1].src == pin.src;
      }
    }
  }

  /** `val'` gives the old nexuses the values of `val` and the fillers their constants. */
  ghost predicate Extends(N: Netlist, t: nat, order: seq<nat>, val: Valuation, val': Valuation)
  {
    && (forall n :: n in N.nexus ==> At(val', n) == At(val, n))
    && forall n: nat :: Filler(N, t, order, n) ==> At(val', n) == FillerVec(N, t, order, n)
  }

  function FillerVec(N: Netlist, t: nat, order: seq<nat>, n: nat): Vec
  {
    if Filler(N, t, order, n)
    then Fill(FillFor(N, t), PinsOf(N, t, order)[n - N.next - 1].len) else []
  }

  /** Where a pin of the merged concatenation comes from: a part select, or a filler. */
  lemma PinSource(N: Netlist, t: nat, order: seq<nat>, pin: Pin) returns (id: nat)
    requires WellFormed(N) && OrderOf(N, t, order) && pin in PinsOf(N, t, order) && pin.Src?
    ensures id in N.nodes && N.nodes[id].PartPV? && N.nodes[id].src == pin.src && pin.src in N.nexus
  {
    OrderParts(N, t, order);
    LayoutSources(PartsOf(N, order), 0, Width(N, t), pin);
    hide Layout, WellFormed, OrderOf, PinsOf;
    var j :| 0 <= j < |order| && PartsOf(N, order)[j].src == pin.src;
    id := order[j];
  }

  lemma PinName(N: Netlist, t: nat, order: seq<nat>, k: nat)
    requires k < |PinsOf(N, t, order)|
    ensures var n, pin := PinNexuses(PinsOf(N, t, order), N.next + 1)[k], PinsOf(N, t, order)[k];
            && (pin.Src? ==> n == pin.src && pin in PinsOf(N, t, order))
            && (pin.Gap? ==> n > N.next && Filler(N, t, order, n))
  {
    hide PinsOf;
  }

  // ----- The nodes and nexuses after the merge -----

  lemma NamesOld(N: Netlist)
    requires WellFormed(N)
    ensures forall n :: n in N.nexus ==> n < N.next
    ensures forall j :: j in N.nodes ==> j < N.next && N.nodes[j].out in N.nexus
  {
  }

  /** Old nodes stay unless they were merged ... */
  lemma MergeOldNodes(N: Netlist, t: nat, order: seq<nat>, j: nat)
    requires WellFormed(N) && j < N.next
    ensures j in Merge(N, t, order).nodes <==> j in N.nodes && N.nodes[j].out != t
    ensures j in Merge(N, t, order).nodes ==> Merge(N, t, order).nodes[j] == N.nodes[j]
  {
    hide WellFormed, PinsOf, PinNexuses;
  }

  /** ... and the new nodes are the concatenation and the fillers. */
  lemma MergeNewNodes(N: Netlist, t: nat, order: seq<nat>, j: nat)
    requires WellFormed(N) && j >= N.next
    ensures j == N.next ==>
              && j in Merge(N, t, order).nodes
              && Merge(N, t, order).nodes[j] == Concat(t, PinNexuses(PinsOf(N, t, order), N.next + 1), false)
    ensures j > N.next ==>
              && (j in Merge(N, t, order).nodes <==> Filler(N, t, order, j))
              && (j in Merge(N, t, order).nodes ==>
                    Merge(N, t, order).nodes[j] == Const(j, FillerVec(N, t, order, j)))
  {
    hide WellFormed, PinsOf, PinNexuses, FillerNodes, Filler, FillerVec;
    NamesOld(N);
    FillerNodesAre(N, t, order, j);
  }

  lemma FillerNodesAre(N: Netlist, t: nat, order: seq<nat>, j: nat)
    ensures j in FillerNodes(PinsOf(N, t, order), N.next + 1, FillFor(N, t)) <==> Filler(N, t, order, j)
    ensures Filler(N, t, order, j) ==>
              && j > N.next
              && FillerNodes(PinsOf(N, t, order), N.next + 1, FillFor(N, t))[j] == Const(j, FillerVec(N, t, order, j))
  {
    hide PinsOf;
  }

  lemma MergeNexuses(N: Netlist, t: nat, order: seq<nat>, n: nat)
    requires WellFormed(N)
    ensures n in Merge(N, t, order).nexus <==> n in N.nexus || Filler(N, t, order, n)
    ensures n in N.nexus ==> n < N.next && Merge(N, t, order).nexus[n] == N.nexus[n]
    ensures Filler(N, t, order, n) ==>
              n !in N.nexus &&
              Merge(N, t, order).nexus[n] == Nexus(|FillerVec(N, t, order, n)|, [FillerSignal], false)
  {
    hide WellFormed, PinsOf, PinNexuses;
    NamesOld(N);
  }

  lemma MergeDrivers(N: Netlist, t: nat, order: seq<nat>, n: nat)
    requires WellFormed(N) && t in N.nexus
    ensures n in N.nexus && n != t ==> Drivers(Merge(N, t, order), n) == Drivers(N, n)
    ensures Drivers(Merge(N, t, order), t) == {N.next}
    ensures Filler(N, t, order, n) ==> Drivers(Merge(N, t, order), n) == {n}
  {
    NamesOld(N);
    var M := Merge(N, t, order);
    hide Merge, WellFormed, PinsOf;
    forall j: nat
      ensures j in Drivers(M, t) <==> j == N.next
      ensures n in N.nexus && n != t ==> (j in Drivers(M, n) <==> j in Drivers(N, n))
      ensures Filler(N, t, order, n) ==> (j in Drivers(M, n) <==> j == n)
    {
      if j < N.next { MergeOldNodes(N, t, order, j); } else { MergeNewNodes(N, t, order, j); }
    }
  }

  // ----- Nexuses other than the merged one -----

  /** Two netlists that agree about a nexus and its drivers agree about its settled value. */
  lemma SettledTransfer(N: Netlist, N': Netlist, w: World, val: Valuation, val': Valuation, n: nat)
    requires n in N.nexus && n in N'.nexus && N.nexus[n] == N'.nexus[n] && At(val, n) == At(val', n)
    requires Drivers(N, n) == Drivers(N', n)
    requires forall j :: j in Drivers(N, n) ==> N.nodes[j] == N'.nodes[j]
    requires forall j, i :: j in Drivers(N, n) ==>
               Drive(w, val, N.nodes[j], i) == Drive(w, val', N'.nodes[j], i)
    ensures SettledAt(N, w, val, n) <==> SettledAt(N', w, val', n)
  {
    hide Drive;
    forall i ensures Driven(N, w, val, n, i) == Driven(N', w, val', n, i) {
      var A := set j | j in Drivers(N, n) :: Drive(w, val, N.nodes[j], i);
      var B := set j | j in Drivers(N', n) :: Drive(w, val', N'.nodes[j], i);
      forall v | v in A ensures v in B {
        var j :| j in Drivers(N, n) && v == Drive(w, val, N.nodes[j], i);
        assert v == Drive(w, val', N'.nodes[j], i);
      }
      forall v | v in B ensures v in A {
        var j :| j in Drivers(N', n) && v == Drive(w, val', N'.nodes[j], i);
        assert v == Drive(w, val, N.nodes[j], i);
      }
      assert A == B;
    }
  }

  lemma ReadsOld(N: Netlist, j: nat)
    requires WellFormed(N) && j in N.nodes
    ensures Reads(N.nodes[j]) <= N.nexus.Keys
  {
  }

  lemma MergeElsewhere(N: Netlist, t: nat, order: seq<nat>, w: World, val: Valuation, val': Valuation, n: nat)
    requires WellFormed(N) && Extends(N, t, order, val, val')
    requires t in N.nexus && n in N.nexus && n != t && n in Merge(N, t, order).nexus
    ensures SettledAt(N, w, val, n) <==> SettledAt(Merge(N, t, order), w, val', n)
  {
    var M := Merge(N, t, order);
    MergeNexuses(N, t, order, n);
    MergeDrivers(N, t, order, n);
    NamesOld(N);
    hide WellFormed, Merge;
    forall j | j in Drivers(N, n) ensures N.nodes[j] == M.nodes[j] { MergeOldNodes(N, t, order, j); }
    forall j, i | j in Drivers(N, n)
      ensures Drive(w, val, N.nodes[j], i) == Drive(w, val', M.nodes[j], i)
    {
      ReadsOld(N, j);
      DriveReads(w, val, val', N.nodes[j], i);
    }
    hide Drive;
    SettledTransfer(N, M, w, val, val', n);
  }

  lemma FillerSettled(N: Netlist, t: nat, order: seq<nat>, w: World, val': Valuation, n: nat)
    requires WellFormed(N) && t in N.nexus && Filler(N, t, order, n)
    ensures n in Merge(N, t, order).nexus
    ensures SettledAt(Merge(N, t, order), w, val', n) <==> At(val', n) == FillerVec(N, t, order, n)
  {
    var M, v := Merge(N, t, order), FillerVec(N, t, order, n);
    MergeDrivers(N, t, order, n);
    MergeNewNodes(N, t, order, n);
    MergeNexuses(N, t, order, n);
    hide WellFormed, Merge, PinsOf, FillerVec;
    LoneConstant(M, w, val', n, v);
  }

  /** A four-state wire whose only driver is a constant holds that constant. */
  lemma LoneConstant(M: Netlist, w: World, val: Valuation, n: nat, v: Vec)
    requires n in M.nexus && M.nexus[n] == Nexus(|v|, [FillerSignal], false)
    requires Drivers(M, n) == {n} && n in M.nodes && M.nodes[n] == Const(n, v)
    ensures SettledAt(M, w, val, n) <==> At(val, n) == v
  {
    var x := M.nexus[n];
    assert !x.External() && !x.TwoState() && Pulls(x.sigs) == [];
    forall i | 0 <= i < |v| ensures x.Finish(Driven(M, w, val, n, i)) == v[i] {
      assert Driven(M, w, val, n, i) == {v[i]};
      FinishOne(x, v[i]);
    }
  }

  // ----- The merged net itself -----

  ghost predicate WidthsHold(N: Netlist, val: Valuation)
  {
    forall n :: n in N.nexus ==> |At(val, n)| == N.nexus[n].width
  }

  lemma PinValues(N: Netlist, t: nat, order: seq<nat>, val: Valuation, val': Valuation, k: nat)
    requires WellFormed(N) && OrderOf(N, t, order) && Extends(N, t, order, val, val')
    requires k < |PinsOf(N, t, order)|
    ensures At(val', PinNexuses(PinsOf(N, t, order), N.next + 1)[k])
         == PinVec(PinsOf(N, t, order)[k], val, FillFor(N, t))
  {
    var pin := PinsOf(N, t, order)[k];
    OrderParts(N, t, order);
    if pin.Src? { LayoutSources(PartsOf(N, order), 0, Width(N, t), pin); }
    hide Layout, WellFormed, OrderOf, PinsOf;
    assert pin.Gap? ==> Filler(N, t, order, N.next + 1 + k);
  }

  /** After the merge every bit is driven by the concatenation, which paints it. */
  lemma MergedConcat(N: Netlist, t: nat, order: seq<nat>, w: World, val: Valuation, val': Valuation, i: int)
    requires WellFormed(N) && Mergeable(N, t, order) && Extends(N, t, order, val, val') && WidthsHold(N, val)
    requires 0 <= i < Width(N, t)
    ensures Drive(w, val', Concat(t, PinNexuses(PinsOf(N, t, order), N.next + 1), false), i)
         == Painted(PartsOf(N, order), val, FillFor(N, t), i)
  {
    hide WellFormed, Mergeable, OrderOf, Extends, Layout, Render, Accepted, PartsOf, PinsOf, FillFor, WidthsHold, PinVec;
    var parts, fill := PartsOf(N, order), FillFor(N, t);
    MergedJoin(N, t, order, val, val');
    MergeTiles(N, t, order, val);
    RenderLayout(parts, val, fill, 0, Width(N, t));
    assert PinsOf(N, t, order) == Layout(parts, 0, Width(N, t)) by { PinsAre(N, t, order); }
  }

  lemma PinsAre(N: Netlist, t: nat, order: seq<nat>)
    ensures PinsOf(N, t, order) == Layout(PartsOf(N, order), 0, Width(N, t))
  {
  }

  lemma MergedJoin(N: Netlist, t: nat, order: seq<nat>, val: Valuation, val': Valuation)
    requires WellFormed(N) && Mergeable(N, t, order) && Extends(N, t, order, val, val')
    ensures Join(PinNexuses(PinsOf(N, t, order), N.next + 1), val') == Render(PinsOf(N, t, order), val, FillFor(N, t))
  {
    hide WellFormed, OrderOf, Extends, Accepted, PinsOf, FillFor, PinVec;
    var pins := PinsOf(N, t, order);
    forall k | 0 <= k < |pins|
      ensures At(val', PinNexuses(pins, N.next + 1)[k]) == PinVec(pins[k], val, FillFor(N, t))
    {
      PinValues(N, t, order, val, val', k);
    }
    JoinPins(pins, N.next + 1, val, val', FillFor(N, t));
  }

  lemma MergeTiles(N: Netlist, t: nat, order: seq<nat>, val: Valuation)
    requires WellFormed(N) && Mergeable(N, t, order) && WidthsHold(N, val)
    ensures Tiled(PartsOf(N, order), 0, Width(N, t))
    ensures forall k :: 0 <= k < |order| ==> |At(val, PartsOf(N, order)[k].src)| == PartsOf(N, order)[k].wid
  {
    hide WellFormed;
    OrderParts(N, t, order);
    AcceptedTiled(PartsOf(N, order), 0, Width(N, t));
  }

  lemma MergedDriven(N: Netlist, t: nat, order: seq<nat>, w: World, val: Valuation, val': Valuation, i: int)
    requires WellFormed(N) && Mergeable(N, t, order) && Extends(N, t, order, val, val') && WidthsHold(N, val)
    requires 0 <= i < Width(N, t)
    ensures Driven(Merge(N, t, order), w, val', t, i)
         == {Painted(PartsOf(N, order), val, FillFor(N, t), i)} + Outside(N, w, t, i)
  {
    assert t in N.nexus;
    hide WellFormed, Mergeable, Extends, Drive, Driven, Drivers, Merge, Painted, WidthsHold, PinsOf, PartsOf;
    MergedConcat(N, t, order, w, val, val', i);
    MergeDrivers(N, t, order, t);
    MergeNewNodes(N, t, order, N.next);
    MergeNexuses(N, t, order, t);
    DrivenByOne(Merge(N, t, order), w, val', t, i, N.next);
  }

  lemma DrivenByOne(N: Netlist, w: World, val: Valuation, n: nat, i: int, id: nat)
    requires Drivers(N, n) == {id}
    ensures Driven(N, w, val, n, i) == {Drive(w, val, N.nodes[id], i)} + Outside(N, w, n, i)
  {
    hide Drive, Outside;
  }

  function PartDrives(N: Netlist, t: nat, w: World, val: Valuation, i: int): set<V>
  {
    set j | j in Drivers(N, t) :: Drive(w, val, N.nodes[j], i)
  }

  lemma OrderDisjoint(N: Netlist, t: nat, order: seq<nat>)
    requires WellFormed(N) && Mergeable(N, t, order)
    ensures Disjoint(PartsOf(N, order))
  {
    OrderParts(N, t, order);
    AcceptedIff(PartsOf(N, order), Width(N, t));
  }

  /** Before the merge a covered bit is driven by its part and by z ... */
  lemma PartsPaintCovered(N: Netlist, t: nat, order: seq<nat>, w: World, val: Valuation, fill: V, i: int, c: nat)
    requires WellFormed(N) && Mergeable(N, t, order)
    requires c < |order| && PartsOf(N, order)[c].Covers(i)
    ensures order[c] in Drivers(N, t)
    ensures Drive(w, val, N.nodes[order[c]], i) == Painted(PartsOf(N, order), val, fill, i)
    ensures PartDrives(N, t, w, val, i) - {Vz} == {Painted(PartsOf(N, order), val, fill, i)} - {Vz}
  {
    hide WellFormed, Painted, Accepted;
    var parts := PartsOf(N, order);
    OrderParts(N, t, order);
    OrderDisjoint(N, t, order);
    PaintedBy(parts, val, fill, i, c);
    var b := Painted(parts, val, fill, i);
    assert b in PartDrives(N, t, w, val, i);
    forall m | m in Drivers(N, t) ensures Drive(w, val, N.nodes[m], i) in {b, Vz} {
      var k :| 0 <= k < |order| && order[k] == m;
      assert k != c ==> !parts[k].Covers(i);
    }
  }

  /** ... and a gap is driven by z only. */
  lemma PartsPaintGap(N: Netlist, t: nat, order: seq<nat>, w: World, val: Valuation, fill: V, i: int)
    requires WellFormed(N) && Mergeable(N, t, order)
    requires forall k :: 0 <= k < |order| ==> !PartsOf(N, order)[k].Covers(i)
    ensures PartDrives(N, t, w, val, i) <= {Vz} && Painted(PartsOf(N, order), val, fill, i) == fill
  {
    hide WellFormed, Painted, Accepted;
    OrderParts(N, t, order);
    PaintedByNone(PartsOf(N, order), val, fill, i);
    forall m | m in Drivers(N, t) ensures Drive(w, val, N.nodes[m], i) == Vz {
      var k :| 0 <= k < |order| && order[k] == m;
      assert !PartsOf(N, order)[k].Covers(i);
    }
  }

  lemma SameButZ(a: set<V>, b: set<V>, c: set<V>)
    requires a - {Vz} == b - {Vz}
    ensures (a + c) - {Vz} == (b + c) - {Vz}
  {
    assert (a + c) - {Vz} == (a - {Vz}) + (c - {Vz});
    assert (b + c) - {Vz} == (b - {Vz}) + (c - {Vz});
  }

  /** No part reaches bit `i`. */
  ghost predicate GapAt(N: Netlist, order: seq<nat>, i: int)
  {
    forall k :: 0 <= k < |order| ==> !PartsOf(N, order)[k].Covers(i)
  }

  lemma FinishCovered(x: Nexus, before: set<V>, after: V, outside: set<V>)
    requires before - {Vz} == {after} - {Vz}
    ensures x.Finish(before + outside) == x.Finish({after} + outside)
  {
    SameButZ(before, {after}, outside);
    ResolveIgnoresZ(x.Wiring(), before + outside, {after} + outside);
  }

  lemma FinishGap(x: Nexus, before: set<V>, outside: set<V>)
    requires before <= {Vz}
    ensures x.Finish(before + outside) == x.Finish({if x.TwoState() then V0 else Vz} + outside)
            <==> (x.TwoState() ==> AbsorbsZero(x, outside))
  {
    hide AbsorbsZero;
    AbsorbsZeroIff(x, outside);
    assert {V0} + outside == outside + {V0} && {Vz} + outside == outside + {Vz};
    assert (before + outside) - {Vz} == (outside + {Vz}) - {Vz};
    ResolveIgnoresZ(x.Wiring(), before + outside, outside + {Vz});
  }

  /** The merged net holds the same bit before and after, unless a two-state net's filler 0
      meets an outside driver that does not absorb it. */
  lemma MergedBit(N: Netlist, t: nat, order: seq<nat>, w: World, val: Valuation, val': Valuation, i: int)
    requires WellFormed(N) && Mergeable(N, t, order) && Extends(N, t, order, val, val') && WidthsHold(N, val)
    requires t in N.nexus && 0 <= i < Width(N, t)
    ensures (N.nexus[t].Finish(Driven(N, w, val, t, i)) == N.nexus[t].Finish(Driven(Merge(N, t, order), w, val', t, i)))
            <==> (N.nexus[t].TwoState() && GapAt(N, order, i) ==> AbsorbsZero(N.nexus[t], Outside(N, w, t, i)))
  {
    var x, parts, fill := N.nexus[t], PartsOf(N, order), FillFor(N, t);
    MergedDriven(N, t, order, w, val, val', i);
    hide WellFormed, Mergeable, Extends, Drive, Merge, Painted, WidthsHold, AbsorbsZero, PartsOf;
    var before, outside := PartDrives(N, t, w, val, i), Outside(N, w, t, i);
    if c :| 0 <= c < |order| && parts[c].Covers(i) {
      assert !GapAt(N, order, i);
      PartsPaintCovered(N, t, order, w, val, fill, i, c);
      FinishCovered(x, before, Painted(parts, val, fill, i), outside);
    } else {
      PartsPaintGap(N, t, order, w, val, fill, i);
      FinishGap(x, before, outside);
    }
  }

  /** In this world the fillers of the merge make no difference to the net. */
  ghost predicate GapsAbsorbed(N: Netlist, t: nat, order: seq<nat>, w: World)
  {
    t in N.nexus && N.nexus[t].TwoState() ==>
      forall i :: 0 <= i < Width(N, t) && GapAt(N, order, i) ==> AbsorbsZero(N.nexus[t], Outside(N, w, t, i))
  }

  /** So they are where nothing outside the netlist drives the net. */
  lemma NothingOutside(N: Netlist, t: nat, order: seq<nat>, w: World)
    requires OrderOf(N, t, order) && !(N.nexus[t].TwoState() && N.nexus[t].External())
    ensures GapsAbsorbed(N, t, order, w)
  {
    if N.nexus[t].TwoState() {
      forall i ensures AbsorbsZero(N.nexus[t], Outside(N, w, t, i)) {
        assert Outside(N, w, t, i) == {};
      }
    }
  }

  lemma MergedSettled(N: Netlist, t: nat, order: seq<nat>, w: World, val: Valuation, val': Valuation)
    requires WellFormed(N) && Mergeable(N, t, order) && Extends(N, t, order, val, val') && WidthsHold(N, val)
    requires t in N.nexus && t in Merge(N, t, order).nexus && GapsAbsorbed(N, t, order, w)
    ensures SettledAt(N, w, val, t) <==> SettledAt(Merge(N, t, order), w, val', t)
  {
    hide WellFormed, Mergeable, Driven, WidthsHold, Merge, PinsOf, AbsorbsZero, GapAt;
    MergeNexuses(N, t, order, t);
    assert At(val, t) == At(val', t);
    forall i | 0 <= i < N.nexus[t].width
      ensures N.nexus[t].Finish(Driven(N, w, val, t, i))
           == N.nexus[t].Finish(Driven(Merge(N, t, order), w, val', t, i))
    {
      MergedBit(N, t, order, w, val, val', i);
    }
  }

  // ----- The whole netlist -----

  lemma SettledWidths(N: Netlist, w: World, val: Valuation)
    requires Settled(N, w, val)
    ensures WidthsHold(N, val)
  {
    forall n | n in N.nexus ensures |At(val, n)| == N.nexus[n].width { assert SettledAt(N, w, val, n); }
  }

  lemma MergeSettled(N: Netlist, t: nat, order: seq<nat>, w: World, val: Valuation, val': Valuation)
    requires WellFormed(N) && Mergeable(N, t, order) && WidthsHold(N, val) && t in N.nexus
    requires Extends(N, t, order, val, val') && GapsAbsorbed(N, t, order, w)
    ensures (forall n :: n in N.nexus ==> SettledAt(N, w, val, n)) <==>
            (forall n :: n in Merge(N, t, order).nexus ==> SettledAt(Merge(N, t, order), w, val', n))
  {
    var M := Merge(N, t, order);
    hide GapsAbsorbed, WellFormed, Mergeable, WidthsHold, SettledAt, Merge, PinsOf, Filler, FillerVec;
    forall n: nat
      ensures n in M.nexus <==> n in N.nexus || Filler(N, t, order, n)
      ensures n in N.nexus ==> (SettledAt(N, w, val, n) <==> SettledAt(M, w, val', n))
      ensures Filler(N, t, order, n) ==> SettledAt(M, w, val', n)
    {
      MergeNexuses(N, t, order, n);
      if n == t { MergedSettled(N, t, order, w, val, val'); }
      else if n in N.nexus { MergeElsewhere(N, t, order, w, val, val', n); }
      if Filler(N, t, order, n) { FillerSettled(N, t, order, w, val', n); }
    }
  }

  lemma MergeForward(N: Netlist, t: nat, order: seq<nat>, w: World, val: Valuation) returns (val': Valuation)
    requires WellFormed(N) && Mergeable(N, t, order) && t in N.nexus && Settled(N, w, val)
    requires GapsAbsorbed(N, t, order, w)
    ensures Settled(Merge(N, t, order), w, val') && Restrict(val', N.nexus.Keys) == val
  {
    hide GapsAbsorbed, WellFormed, Mergeable, WidthsHold, SettledAt, Merge, FillerVec, PinsOf;
    var M, first := Merge(N, t, order), N.next + 1;
    SettledWidths(N, w, val);
    NamesOld(N);
    var pins := PinsOf(N, t, order);
    val' := val + map n: nat | first <= n < first + |pins| && Filler(N, t, order, n) :: FillerVec(N, t, order, n);
    GapsFresh(N, t, order);
    assert forall n: nat :: n in val' <==> n in N.nexus || Filler(N, t, order, n);
    hide Filler;
    assert Extends(N, t, order, val, val');
    MergeSettled(N, t, order, w, val, val');
    forall n: nat ensures n in M.nexus <==> n in val' { MergeNexuses(N, t, order, n); }
    assert M.nexus.Keys == val'.Keys;
    assert Restrict(val', N.nexus.Keys) == val;
  }

  lemma GapsFresh(N: Netlist, t: nat, order: seq<nat>)
    requires WellFormed(N)
    ensures forall n: nat :: Filler(N, t, order, n) ==> n > N.next
    ensures forall n: nat :: Filler(N, t, order, n) ==> n !in N.nexus
  {
    NamesOld(N);
  }

  lemma MergeBackward(N: Netlist, t: nat, order: seq<nat>, w: World, val': Valuation)
    requires WellFormed(N) && Mergeable(N, t, order) && t in N.nexus && Settled(Merge(N, t, order), w, val')
    requires GapsAbsorbed(N, t, order, w)
    ensures Settled(N, w, Restrict(val', N.nexus.Keys))
  {
    hide GapsAbsorbed, WellFormed, Mergeable, SettledAt, Merge, PinsOf, Filler, FillerVec;
    var M, val := Merge(N, t, order), Restrict(val', N.nexus.Keys);
    SettledWidths(M, w, val');
    forall n: nat
      ensures n in M.nexus <==> n in N.nexus || Filler(N, t, order, n)
      ensures n in N.nexus ==> M.nexus[n] == N.nexus[n]
    {
      MergeNexuses(N, t, order, n);
    }
    forall n: nat | Filler(N, t, order, n) ensures At(val', n) == FillerVec(N, t, order, n) {
      FillerSettled(N, t, order, w, val', n);
    }
    assert Extends(N, t, order, val, val');
    assert WidthsHold(N, val);
    MergeSettled(N, t, order, w, val, val');
  }

  /** Merging the part selects of a net keeps the meaning of the netlist. */
  lemma MergeSameMeaning(N: Netlist, t: nat, order: seq<nat>, w: World)
    requires WellFormed(N) && Mergeable(N, t, order) && GapsAbsorbed(N, t, order, w)
    ensures SameMeaning(N, Merge(N, t, order), w)
  {
    assert t in N.nexus;
    hide WellFormed, Mergeable, Merge, Settled, Restrict, GapsAbsorbed;
    var M := Merge(N, t, order);
    forall n | n in N.nexus ensures n in M.nexus && M.nexus[n] == N.nexus[n] { MergeNexuses(N, t, order, n); }
    assert Extended(N, M, w) by {
      forall val | Settled(N, w, val)
        ensures exists val' :: Settled(M, w, val') && Restrict(val', N.nexus.Keys) == val
      {
        var val' := MergeForward(N, t, order, w, val);
      }
    }
    assert Restricted(N, M, w) by {
      forall val' | Settled(M, w, val') ensures Settled(N, w, Restrict(val', N.nexus.Keys)) {
        MergeBackward(N, t, order, w, val');
      }
    }
  }

  lemma SettledExtends(N: Netlist, t: nat, order: seq<nat>, w: World, val': Valuation)
    requires WellFormed(N) && t in N.nexus && Settled(Merge(N, t, order), w, val')
    ensures Extends(N, t, order, Restrict(val', N.nexus.Keys), val')
  {
    hide WellFormed, SettledAt, Merge, PinsOf, Filler, FillerVec;
    forall n: nat ensures n in Merge(N, t, order).nexus <==> n in N.nexus || Filler(N, t, order, n) {
      MergeNexuses(N, t, order, n);
    }
    forall n: nat | Filler(N, t, order, n) ensures At(val', n) == FillerVec(N, t, order, n) {
      FillerSettled(N, t, order, w, val', n);
    }
  }

  lemma BothSettled(N: Netlist, t: nat, order: seq<nat>, w: World, val: Valuation, val': Valuation)
    requires WellFormed(N) && Mergeable(N, t, order) && Extends(N, t, order, val, val') && t in N.nexus
    requires Settled(N, w, val) && Settled(Merge(N, t, order), w, val')
    ensures GapsAbsorbed(N, t, order, w)
  {
    var M := Merge(N, t, order);
    SettledWidths(N, w, val);
    MergeNexuses(N, t, order, t);
    assert SettledAt(N, w, val, t) && SettledAt(M, w, val', t) && At(val, t) == At(val', t);
    hide WellFormed, Mergeable, Driven, WidthsHold, Merge, PinsOf, AbsorbsZero, GapAt, Settled, Extends;
    forall i | 0 <= i < Width(N, t)
      ensures N.nexus[t].TwoState() && GapAt(N, order, i) ==> AbsorbsZero(N.nexus[t], Outside(N, w, t, i))
    {
      MergedBit(N, t, order, w, val, val', i);
      assert At(val, t)[i] == At(val', t)[i];
    }
  }

  /** Where the netlist can settle at all, the merge keeps its meaning if and only if the
      fillers make no difference: always, unless a two-state net with gaps is driven from
      outside too. */
  lemma MergeExact(N: Netlist, t: nat, order: seq<nat>, w: World, val: Valuation)
    requires WellFormed(N) && Mergeable(N, t, order) && Settled(N, w, val)
    ensures SameMeaning(N, Merge(N, t, order), w) <==> GapsAbsorbed(N, t, order, w)
  {
    assert t in N.nexus;
    hide WellFormed, Mergeable, Merge, Settled, Restrict, GapsAbsorbed, Extends;
    if GapsAbsorbed(N, t, order, w) { MergeSameMeaning(N, t, order, w); }
    if SameMeaning(N, Merge(N, t, order), w) {
      var val' :| Settled(Merge(N, t, order), w, val') && Restrict(val', N.nexus.Keys) == val;
      SettledExtends(N, t, order, w, val');
      BothSettled(N, t, order, w, val, val');
    }
  }
}
