/**
 Whole runs of the propagation: every rewrite keeps the netlist well formed, keeps its
 meaning and lowers its rank, so every run does, whatever the order of the rewrites.
 */
module CpropRun {
  import opened FourState
  import opened Netlists
  import opened CpropRules
  import opened CpropCollapse
  import opened CpropMerge
  import opened CpropMergeProof
  import opened Options

  datatype Rewrite = DoFold(id: nat) | DoMux(id: nat) | DoMerge(t: nat, order: seq<nat>)

  ghost predicate Enabled(N: Netlist, r: Rewrite)
  {
    match r
    case DoFold(id) => FoldEnabled(N, id)
    case DoMux(id) => MuxEnabled(N, id)
    case DoMerge(t, order) => MergeEnabled(N, t) && OrderOf(N, t, order)
  }

  ghost function Apply(N: Netlist, r: Rewrite): Netlist
    requires Enabled(N, r)
  {
    match r
    case DoFold(id) => Fold(N, id)
    case DoMux(id) => MuxToBuf(N, id)
    case DoMerge(t, order) => Merge(N, t, order)
  }

  /** The netlists `trace[0]`, `trace[1]`, ... follow from each other by single rewrites. */
  ghost predicate IsRun(trace: seq<Netlist>)
  {
    && trace != []
    && forall k :: 0 <= k < |trace| - 1 ==> Rewrites(trace[k], trace[k + 1])
  }

  ghost predicate Rewrites(N: Netlist, N': Netlist)
  {
    exists r :: Enabled(N, r) && N' == Apply(N, r)
  }

  // ----- Well-formedness -----

  lemma {:induction false} ConstVecWidth(N: Netlist, n: nat, depth: nat)
    requires WellFormed(N) && ConstVec(N, n, depth).Some?
    ensures |ConstVec(N, n, depth).value| == Width(N, n)
    decreases depth
  {
    hide WellFormed, Pulls, NodeFits;
    if Drivers(N, n) == {} {
    } else {
      var id := ConstVecDriver(N, n, depth);
      Fits(N, id);
      ConstantFits(N, id);
      if N.nodes[id].Substitute? {
        ConstVecWidth(N, N.nodes[id].vec, depth - 1);
      }
    }
  }

  lemma ConstantFits(N: Netlist, id: nat)
    requires id in N.nodes && NodeFits(N, N.nodes[id])
    ensures N.nodes[id].Const? ==> |N.nodes[id].value| == Width(N, N.nodes[id].out)
    ensures N.nodes[id].Substitute? ==> Width(N, N.nodes[id].vec) == Width(N, N.nodes[id].out)
  {
  }

  lemma {:induction false} ConstJoinWidth(N: Netlist, ins: seq<nat>)
    requires WellFormed(N) && forall n :: n in ins ==> Constant(N, n).Some?
    ensures |ConstJoin(N, ins)| == SumWidths(N, ins)
  {
    hide WellFormed, ConstVec;
    if ins != [] {
      assert ins[0] in ins;
      ConstVecWidth(N, ins[0], N.next);
      ConstJoinWidth(N, ins[1..]);
    }
  }

  lemma {:induction false} SameSumWidths(N: Netlist, N': Netlist, ns: seq<nat>)
    requires forall n :: n in ns ==> Width(N, n) == Width(N', n)
    ensures SumWidths(N, ns) == SumWidths(N', ns)
  {
    if ns != [] {
      assert ns[0] in ns;
      SameSumWidths(N, N', ns[1..]);
    }
  }

  lemma ReplaceWellFormed(N: Netlist, id: nat, node: Node)
    requires WellFormed(N) && id in N.nodes && NodeFits(N, node) && !node.PartPV?
    ensures WellFormed(Replace(N, id, node))
  {
    var N' := Replace(N, id, node);
    forall j | j in N'.nodes ensures j < N'.next && NodeFits(N', N'.nodes[j]) {
      KeepsFitting(N, N', N'.nodes[j]);
    }
  }

  /** A node still fits when the nexuses it hangs on keep their widths. */
  lemma KeepsFitting(N: Netlist, N': Netlist, node: Node)
    requires NodeFits(N, node)
    requires forall n :: n in N.nexus ==> n in N'.nexus && N'.nexus[n].width == N.nexus[n].width
    ensures NodeFits(N', node)
  {
    assert forall n :: n in N.nexus ==> Width(N', n) == Width(N, n);
    if node.Concat? { SameSumWidths(N, N', node.ins); }
  }

  lemma FoldWellFormed(N: Netlist, id: nat)
    requires WellFormed(N) && FoldEnabled(N, id)
    ensures WellFormed(Fold(N, id))
  {
    hide ConstVec;
    Fits(N, id);
    ConstJoinWidth(N, N.nodes[id].ins);
    ReplaceWellFormed(N, id, Const(N.nodes[id].out, ConstJoin(N, N.nodes[id].ins)));
  }

  lemma MuxWellFormed(N: Netlist, id: nat)
    requires WellFormed(N) && MuxEnabled(N, id)
    ensures WellFormed(MuxToBuf(N, id))
  {
    hide ConstVec;
    var m := N.nodes[id];
    Fits(N, id);
    var src := m.data[if ConstBit(N, m.sel) == V1 then 1 else 0];
    assert src in m.data;
    ReplaceWellFormed(N, id, BufZ(m.out, src));
  }

  lemma {:induction false} SumWidthsIsJoin(N: Netlist, ns: seq<nat>, val: Valuation)
    requires forall n :: n in ns ==> |At(val, n)| == Width(N, n)
    ensures |Join(ns, val)| == SumWidths(N, ns)
  {
    if ns != [] {
      assert ns[0] in ns;
      SumWidthsIsJoin(N, ns[1..], val);
    }
  }

  /** Some valuation of the right widths, to count bits with. */
  ghost function Blank(N: Netlist): Valuation
  {
    map n | n in N.nexus :: Fill(Vx, N.nexus[n].width)
  }

  lemma MergedPinsKnown(N: Netlist, t: nat, order: seq<nat>, n: nat)
    requires WellFormed(N) && Mergeable(N, t, order)
    requires n in PinNexuses(PinsOf(N, t, order), N.next + 1)
    ensures n in N.nexus || Filler(N, t, order, n)
  {
    var pins := PinsOf(N, t, order);
    var k :| 0 <= k < |pins| && PinNexuses(pins, N.next + 1)[k] == n;
    OrderParts(N, t, order);
    if pins[k].Src? { LayoutSources(PartsOf(N, order), 0, Width(N, t), pins[k]); }
  }

  lemma BlankExtends(N: Netlist, t: nat, order: seq<nat>) returns (val': Valuation)
    requires WellFormed(N) && t in N.nexus
    ensures WidthsHold(N, Blank(N)) && Extends(N, t, order, Blank(N), val')
    ensures forall n :: n in Merge(N, t, order).nexus ==> |At(val', n)| == Merge(N, t, order).nexus[n].width
  {
    hide WellFormed, Merge, PinsOf, FillerVec;
    var M, first, pins := Merge(N, t, order), N.next + 1, PinsOf(N, t, order);
    GapsFresh(N, t, order);
    val' := Blank(N) + map n: nat | first <= n < first + |pins| && Filler(N, t, order, n) :: FillerVec(N, t, order, n);
    assert forall n: nat :: n in val' <==> n in N.nexus || Filler(N, t, order, n);
    hide Filler;
    forall n | n in M.nexus ensures |At(val', n)| == M.nexus[n].width { MergeNexuses(N, t, order, n); }
  }

  lemma MergeTarget(N: Netlist, t: nat, order: seq<nat>)
    requires Mergeable(N, t, order)
    ensures t in N.nexus
  {
  }

  lemma MergedJoinWidth(N: Netlist, t: nat, order: seq<nat>, val': Valuation)
    requires WellFormed(N) && Mergeable(N, t, order)
    requires WidthsHold(N, Blank(N)) && Extends(N, t, order, Blank(N), val')
    ensures |Join(PinNexuses(PinsOf(N, t, order), N.next + 1), val')| == Width(N, t)
  {
    hide WellFormed, Mergeable, PinsOf, Extends, Layout, Render, Join, WidthsHold, PinNexuses, Blank;
    MergedJoin(N, t, order, Blank(N), val');
    MergeTiles(N, t, order, Blank(N));
    PinsAre(N, t, order);
    RenderLayout(PartsOf(N, order), Blank(N), FillFor(N, t), 0, Width(N, t));
  }

  lemma MergedPinsKept(N: Netlist, t: nat, order: seq<nat>, n: nat)
    requires WellFormed(N) && Mergeable(N, t, order)
    requires n in PinNexuses(PinsOf(N, t, order), N.next + 1)
    ensures n in Merge(N, t, order).nexus
  {
    hide WellFormed, Mergeable, PinsOf, PinNexuses, Filler, Merge;
    MergedPinsKnown(N, t, order, n);
    MergeNexuses(N, t, order, n);
  }

  /** The pin widths of the merged concatenation sum to the width of the signal. */
  lemma MergedWidth(N: Netlist, t: nat, order: seq<nat>)
    requires WellFormed(N) && Mergeable(N, t, order)
    ensures SumWidths(Merge(N, t, order), PinNexuses(PinsOf(N, t, order), N.next + 1)) == Width(N, t)
  {
    hide WellFormed, Mergeable, Merge, PinsOf, Filler, FillerVec, WidthsHold, Extends, PinNexuses;
    var M, ins := Merge(N, t, order), PinNexuses(PinsOf(N, t, order), N.next + 1);
    MergeTarget(N, t, order);
    var val' := BlankExtends(N, t, order);
    MergedJoinWidth(N, t, order, val');
    forall n | n in ins ensures |At(val', n)| == Width(M, n) { MergedPinsKept(N, t, order, n); }
    SumWidthsIsJoin(M, ins, val');
  }

  lemma MergedConcatFits(N: Netlist, t: nat, order: seq<nat>)
    requires WellFormed(N) && Mergeable(N, t, order)
    ensures NodeFits(Merge(N, t, order), Concat(t, PinNexuses(PinsOf(N, t, order), N.next + 1), false))
  {
    hide WellFormed, Mergeable, Merge, PinsOf, Filler, PinNexuses;
    var ins := PinNexuses(PinsOf(N, t, order), N.next + 1);
    MergeTarget(N, t, order);
    MergedWidth(N, t, order);
    forall n | n in ins ensures n in Merge(N, t, order).nexus { MergedPinsKept(N, t, order, n); }
    MergeNexuses(N, t, order, t);
  }

  lemma MergedNodeFits(N: Netlist, t: nat, order: seq<nat>, j: nat)
    requires WellFormed(N) && Mergeable(N, t, order) && j in Merge(N, t, order).nodes
    ensures NodeFits(Merge(N, t, order), Merge(N, t, order).nodes[j])
    ensures Merge(N, t, order).nodes[j].PartPV? ==> j in N.nodes && N.nodes[j] == Merge(N, t, order).nodes[j]
    ensures j < Merge(N, t, order).next
  {
    MergeNext(N, t, order);
    hide WellFormed, Mergeable, Merge, PinsOf, NodeFits, FillerVec;
    var M := Merge(N, t, order);
    if j < N.next {
      MergeOldNodes(N, t, order, j);
      Fits(N, j);
      forall n | n in N.nexus ensures n in M.nexus && M.nexus[n].width == N.nexus[n].width { MergeNexuses(N, t, order, n); }
      KeepsFitting(N, M, N.nodes[j]);
    } else {
      MergeNewNodes(N, t, order, j);
      MergedConcatFits(N, t, order);
      if j > N.next {
        MergeNexuses(N, t, order, j);
        FillerFits(M, j, FillerVec(N, t, order, j));
      }
    }
  }

  lemma MergeNext(N: Netlist, t: nat, order: seq<nat>)
    ensures Merge(N, t, order).next == N.next + 1 + |PinsOf(N, t, order)|
  {
  }

  lemma MergeWellFormed(N: Netlist, t: nat, order: seq<nat>)
    requires WellFormed(N) && Mergeable(N, t, order)
    ensures WellFormed(Merge(N, t, order))
  {
    hide Merge, PinsOf, Mergeable, NodeFits;
    var M := Merge(N, t, order);
    MergeNext(N, t, order);
    forall n | n in M.nexus
      ensures n < M.next && M.nexus[n].sigs != [] && (n in N.nexus ==> M.nexus[n] == N.nexus[n])
    {
      MergeNexuses(N, t, order, n);
    }
    forall j | j in M.nodes
      ensures j < M.next && NodeFits(M, M.nodes[j])
      ensures M.nodes[j].PartPV? ==> j in N.nodes && N.nodes[j] == M.nodes[j]
    {
      MergedNodeFits(N, t, order, j);
    }
    NamesOld(N);
    forall n | n in N.nexus ensures n in M.nexus { MergeNexuses(N, t, order, n); }
  }

  lemma FillerFits(M: Netlist, j: nat, v: Vec)
    requires j in M.nexus && M.nexus[j].width == |v|
    ensures NodeFits(M, Const(j, v))
  {
  }

  lemma EnabledMergeable(N: Netlist, t: nat, order: seq<nat>)
    requires WellFormed(N) && MergeEnabled(N, t) && OrderOf(N, t, order)
    ensures Mergeable(N, t, order)
  {
    MergeOrderAccepted(N, t, order);
    assert |Drivers(N, t)| > 0;
    var id :| id in Drivers(N, t);
    assert id in order;
  }

  // ----- Rank -----

  function PVs(N: Netlist): set<nat> { set id | id in N.nodes && N.nodes[id].PartPV? }
  function Concats(N: Netlist): set<nat> { set id | id in N.nodes && N.nodes[id].Concat? }
  function Muxes(N: Netlist): set<nat> { set id | id in N.nodes && N.nodes[id].Mux? }

  /** Bounds the number of rewrites that can still happen. */
  function Rank(N: Netlist): nat
  {
    2 * |PVs(N)| + |Concats(N)| + |Muxes(N)|
  }

  lemma FoldRank(N: Netlist, id: nat)
    requires FoldEnabled(N, id)
    ensures Rank(Fold(N, id)) + 1 == Rank(N)
  {
    hide ConstVec, ConstJoin;
    var N' := Fold(N, id);
    assert PVs(N') == PVs(N) && Muxes(N') == Muxes(N) && Concats(N') == Concats(N) - {id};
  }

  lemma MuxRank(N: Netlist, id: nat)
    requires MuxEnabled(N, id)
    ensures Rank(MuxToBuf(N, id)) + 1 == Rank(N)
  {
    hide ConstVec;
    var N' := MuxToBuf(N, id);
    assert PVs(N') == PVs(N) && Muxes(N') == Muxes(N) - {id} && Concats(N') == Concats(N);
  }

  lemma MergeRank(N: Netlist, t: nat, order: seq<nat>)
    requires WellFormed(N) && MergeEnabled(N, t)
    ensures Rank(Merge(N, t, order)) + 1 <= Rank(N)
  {
    var M := Merge(N, t, order);
    assert Drivers(N, t) <= PVs(N);
    hide MergeEnabled, Merge, PinsOf, PinNexuses;
    NamesOld(N);
    forall j: nat
      ensures j in PVs(M) <==> j in PVs(N) - Drivers(N, t)
      ensures j in Muxes(M) ==> j in Muxes(N)
      ensures j in Concats(M) ==> j in Concats(N) + {N.next}
    {
      if j < N.next { MergeOldNodes(N, t, order, j); } else { MergeNewNodes(N, t, order, j); }
    }
    assert PVs(M) == PVs(N) - Drivers(N, t);
    Cardinal(Muxes(M), Muxes(N));
    Cardinal(Concats(M), Concats(N) + {N.next});
    assert |Drivers(N, t)| >= 1 by { MergeHasDriver(N, t); }
    assert |PVs(M)| == |PVs(N)| - |Drivers(N, t)|;
  }

  lemma MergeHasDriver(N: Netlist, t: nat)
    requires MergeEnabled(N, t)
    ensures |Drivers(N, t)| >= 1
  {
  }

  lemma {:induction false} Cardinal(a: set<nat>, b: set<nat>)
    requires forall x :: x in a ==> x in b
    ensures |a| <= |b|
  {
    if a != {} {
      var x :| x in a;
      Cardinal(a - {x}, b - {x});
    }
  }

  // ----- One rewrite and whole runs -----

  /** What keeps a rewrite from changing a settled value in world `w`. */
  ghost predicate Safe(N: Netlist, r: Rewrite, w: World)
    requires Enabled(N, r)
  {
    match r
    case DoFold(id) => FoldSafe(N, id)
    case DoMux(_) => true
    case DoMerge(t, order) => GapsAbsorbed(N, t, order, w)
  }

  lemma RewriteKeeps(N: Netlist, r: Rewrite)
    requires WellFormed(N) && Enabled(N, r)
    ensures WellFormed(Apply(N, r)) && Rank(Apply(N, r)) < Rank(N)
  {
    hide WellFormed, FoldEnabled, MuxEnabled, MergeEnabled, OrderOf, Fold, MuxToBuf, Merge, Rank;
    match r
    case DoFold(id) =>
      FoldWellFormed(N, id);
      FoldRank(N, id);
    case DoMux(id) =>
      MuxWellFormed(N, id);
      MuxRank(N, id);
    case DoMerge(t, order) =>
      EnabledMergeable(N, t, order);
      MergeWellFormed(N, t, order);
      MergeRank(N, t, order);
  }

  lemma RewriteStep(N: Netlist, r: Rewrite, w: World)
    requires WellFormed(N) && Enabled(N, r) && Safe(N, r, w)
    ensures SameMeaning(N, Apply(N, r), w)
  {
    hide WellFormed, FoldEnabled, MuxEnabled, MergeEnabled, OrderOf, Fold, MuxToBuf, Merge, SameMeaning, FoldSafe, GapsAbsorbed;
    match r
    case DoFold(id) => FoldSameMeaning(N, id, w);
    case DoMux(id) => MuxSameMeaning(N, id, w);
    case DoMerge(t, order) =>
      EnabledMergeable(N, t, order);
      MergeSameMeaning(N, t, order, w);
  }

  ghost predicate RewritesSafely(N: Netlist, N': Netlist, w: World)
  {
    exists r :: Enabled(N, r) && N' == Apply(N, r) && Safe(N, r, w)
  }

  /** A run all of whose folds and merges are safe. */
  ghost predicate IsSafeRun(trace: seq<Netlist>, w: World)
  {
    && trace != []
    && forall k :: 0 <= k < |trace| - 1 ==> RewritesSafely(trace[k], trace[k + 1], w)
  }

  /** Every run, of any length and in any order of rewrites, keeps the netlist well formed, and
      its length is bounded by the rank it started with. */
  lemma {:induction false} RunTerminates(trace: seq<Netlist>)
    requires IsRun(trace) && WellFormed(trace[0])
    ensures WellFormed(trace[|trace| - 1])
    ensures Rank(trace[|trace| - 1]) + |trace| - 1 <= Rank(trace[0])
  {
    hide WellFormed, Rank, Enabled, Apply;
    if |trace| > 1 {
      var last := |trace| - 1;
      var init := trace[..last];
      assert forall k :: 0 <= k < last - 1 ==> Rewrites(init[k], init[k + 1]);
      RunTerminates(init);
      var N, N' := trace[last - 1], trace[last];
      assert Rewrites(N, N');
      var r :| Enabled(N, r) && N' == Apply(N, r);
      RewriteKeeps(N, r);
    }
  }

  /** Every safe run leaves exactly the settled values of the original nexuses. */
  lemma {:induction false} RunKeepsMeaning(trace: seq<Netlist>, w: World)
    requires IsSafeRun(trace, w) && WellFormed(trace[0])
    ensures WellFormed(trace[|trace| - 1])
    ensures SameMeaning(trace[0], trace[|trace| - 1], w)
  {
    hide WellFormed, SameMeaning, Rank, Enabled, Apply, Safe;
    if |trace| == 1 {
      SameMeaningRefl(trace[0], w);
    } else {
      var last := |trace| - 1;
      var init := trace[..last];
      assert forall k :: 0 <= k < last - 1 ==> RewritesSafely(init[k], init[k + 1], w);
      RunKeepsMeaning(init, w);
      var N, N' := trace[last - 1], trace[last];
      assert RewritesSafely(N, N', w);
      var r :| Enabled(N, r) && N' == Apply(N, r) && Safe(N, r, w);
      RewriteKeeps(N, r);
      RewriteStep(N, r, w);
      SameMeaningTrans(trace[0], N, N', w);
    }
  }
}
