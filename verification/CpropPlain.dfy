/**
 A condition on the netlist before the pass under which every run is safe in every world,
 whatever it folds and merges.
 */
module CpropPlain {
  import opened FourState
  import opened Netlists
  import opened CpropRules
  import opened CpropCollapse
  import opened CpropMerge
  import opened CpropMergeProof
  import opened CpropRun
  import opened CpropSweep
  import opened Options

  /** Nodes through which constants travel to a fold. */
  predicate CarriesConstants(node: Node)
  {
    node.Concat? || node.Substitute? || node.PartPV?
  }

  ghost predicate PlainNode(N: Netlist, node: Node)
  {
    && (CarriesConstants(node) ==>
          forall n :: n in Reads(node) && n in N.nexus && N.nexus[n].TwoState() ==> N.nexus[n].External())
    && (node.PartPV? && node.out in N.nexus && N.nexus[node.out].TwoState() ==> !N.nexus[node.out].External())
  }

  /** A two-state net that nothing outside drives is not read by a concatenation, a substitution
      or a part select onto a net, and one that is driven from outside is not the target of
      such a part select. Every netlist without two-state nets is of this kind. */
  ghost predicate Plain(N: Netlist)
  {
    forall id :: id in N.nodes ==> PlainNode(N, N.nodes[id])
  }

  lemma ExternalNotConstant(N: Netlist, n: nat, depth: nat)
    requires n in N.nexus && N.nexus[n].External()
    ensures ConstVec(N, n, depth).None?
  {
  }

  lemma PlainSubstitute(N: Netlist, id: nat)
    requires Plain(N) && id in N.nodes && N.nodes[id].Substitute?
    ensures var vec := N.nodes[id].vec; vec in N.nexus && N.nexus[vec].TwoState() ==> N.nexus[vec].External()
    ensures var part := N.nodes[id].part; part in N.nexus && N.nexus[part].TwoState() ==> N.nexus[part].External()
  {
    assert PlainNode(N, N.nodes[id]);
    assert N.nodes[id].vec in Reads(N.nodes[id]) && N.nodes[id].part in Reads(N.nodes[id]);
  }

  lemma HidesMeans(N: Netlist, n: nat, i: int, depth: nat)
    ensures HidesBit(N, n, i, depth) ==> n in N.nexus && ConstVec(N, n, depth).Some?
  {
  }

  /** A constant read off a net that is not two-state hides no z. */
  lemma {:induction false} PlainHidesNone(N: Netlist, n: nat, i: int, depth: nat)
    requires Plain(N) && n in N.nexus && (N.nexus[n].TwoState() ==> N.nexus[n].External())
    ensures !HidesBit(N, n, i, depth)
    decreases depth
  {
    hide ConstVec, Plain;
    if N.nexus[n].External() { ExternalNotConstant(N, n, depth); }
    forall id | id in Drivers(N, n) && N.nodes[id].Substitute? ensures !HidesBelow(N, N.nodes[id], i, depth) {
      var s := N.nodes[id];
      PlainSubstitute(N, id);
      if depth > 0 {
        HidesMeans(N, s.part, i - s.base, depth - 1);
        HidesMeans(N, s.vec, i, depth - 1);
        if s.part in N.nexus { PlainHidesNone(N, s.part, i - s.base, depth - 1); }
        if s.vec in N.nexus { PlainHidesNone(N, s.vec, i, depth - 1); }
      }
    }
  }

  lemma PlainFoldSafe(N: Netlist, id: nat)
    requires Plain(N) && FoldEnabled(N, id)
    ensures FoldSafe(N, id)
  {
    forall n | n in N.nodes[id].ins ensures !HidesZ(N, n) {
      assert PlainNode(N, N.nodes[id]) && n in Reads(N.nodes[id]);
      forall i ensures !HidesBit(N, n, i, N.next) {
        if n in N.nexus { PlainHidesNone(N, n, i, N.next); }
      }
    }
  }

  lemma PlainMergeSafe(N: Netlist, t: nat, order: seq<nat>, w: World)
    requires Plain(N) && MergeEnabled(N, t) && OrderOf(N, t, order)
    ensures GapsAbsorbed(N, t, order, w)
  {
    MergeHasDriver(N, t);
    var id :| id in Drivers(N, t);
    assert N.nodes[id].PartPV? && N.nodes[id].out == t && PlainNode(N, N.nodes[id]);
    NothingOutside(N, t, order, w);
  }

  lemma PlainSafe(N: Netlist, r: Rewrite, w: World)
    requires Plain(N) && Enabled(N, r)
    ensures Safe(N, r, w)
  {
    hide Plain, FoldEnabled, MuxEnabled, MergeEnabled, OrderOf, FoldSafe, GapsAbsorbed;
    match r
    case DoFold(id) => PlainFoldSafe(N, id);
    case DoMux(_) =>
    case DoMerge(t, order) => PlainMergeSafe(N, t, order, w);
  }

  lemma PlainReplace(N: Netlist, id: nat, node: Node)
    requires Plain(N) && PlainNode(N, node)
    ensures Plain(Replace(N, id, node))
  {
  }

  /** The new concatenation reads what the part selects read, and four-state fillers. */
  lemma PlainConcat(N: Netlist, t: nat, order: seq<nat>)
    requires WellFormed(N) && Plain(N) && Mergeable(N, t, order)
    ensures PlainNode(Merge(N, t, order), Concat(t, PinNexuses(PinsOf(N, t, order), N.next + 1), false))
  {
    var M, pins := Merge(N, t, order), PinsOf(N, t, order);
    var c := Concat(t, PinNexuses(pins, N.next + 1), false);
    forall n | n in Reads(c) && n in M.nexus && M.nexus[n].TwoState() ensures M.nexus[n].External() {
      var k :| 0 <= k < |pins| && PinNexuses(pins, N.next + 1)[k] == n;
      PinPlain(N, t, order, k);
    }
  }

  lemma PinPlain(N: Netlist, t: nat, order: seq<nat>, k: nat)
    requires WellFormed(N) && Plain(N) && Mergeable(N, t, order) && k < |PinsOf(N, t, order)|
    ensures var n := PinNexuses(PinsOf(N, t, order), N.next + 1)[k];
            n in Merge(N, t, order).nexus && Merge(N, t, order).nexus[n].TwoState() ==> Merge(N, t, order).nexus[n].External()
  {
    assert OrderOf(N, t, order);
    hide Merge, WellFormed, Mergeable, OrderOf, PinsOf, Plain, FillerVec, Filler;
    var pin, n := PinsOf(N, t, order)[k], PinNexuses(PinsOf(N, t, order), N.next + 1)[k];
    PinName(N, t, order, k);
    MergeNexuses(N, t, order, n);
    if pin.Src? {
      var id := PinSource(N, t, order, pin);
      SourcePlain(N, id);
    } else {
      FillerNotTwoState(|FillerVec(N, t, order, n)|);
    }
  }

  lemma FillerNotTwoState(width: nat)
    ensures !Nexus(width, [FillerSignal], false).TwoState()
  {
  }

  lemma SourcePlain(N: Netlist, id: nat)
    requires Plain(N) && id in N.nodes && N.nodes[id].PartPV? && N.nodes[id].src in N.nexus
    ensures N.nexus[N.nodes[id].src].TwoState() ==> N.nexus[N.nodes[id].src].External()
  {
    assert PlainNode(N, N.nodes[id]);
    assert N.nodes[id].src in Reads(N.nodes[id]);
  }

  lemma PlainMerge(N: Netlist, t: nat, order: seq<nat>)
    requires WellFormed(N) && Plain(N) && Mergeable(N, t, order)
    ensures Plain(Merge(N, t, order))
  {
    var M := Merge(N, t, order);
    hide Merge, Mergeable, PinsOf, WellFormed;
    forall j | j in M.nodes ensures PlainNode(M, M.nodes[j]) {
      if j < N.next {
        MergeOldNodes(N, t, order, j);
        PlainKept(N, t, order, j);
      } else {
        MergeNewNodes(N, t, order, j);
        if j == N.next { PlainConcat(N, t, order); }
      }
    }
  }

  lemma PlainKept(N: Netlist, t: nat, order: seq<nat>, j: nat)
    requires WellFormed(N) && Plain(N) && j in N.nodes
    ensures PlainNode(Merge(N, t, order), N.nodes[j])
  {
    NamesOld(N);
    ReadsOld(N, j);
    assert PlainNode(N, N.nodes[j]);
    hide Merge, WellFormed;
    forall n | n in N.nexus ensures n in Merge(N, t, order).nexus && Merge(N, t, order).nexus[n] == N.nexus[n] {
      MergeNexuses(N, t, order, n);
    }
  }

  lemma PlainStep(N: Netlist, r: Rewrite)
    requires WellFormed(N) && Plain(N) && Enabled(N, r)
    ensures Plain(Apply(N, r))
  {
    match r
    case DoFold(id) =>
      hide Plain, ConstVec, WellFormed;
      PlainReplace(N, id, Folded(N, id));
    case DoMux(id) =>
      hide Plain, ConstVec, WellFormed;
      PlainReplace(N, id, BufZ(N.nodes[id].out, N.nodes[id].data[if ConstBit(N, N.nodes[id].sel) == V1 then 1 else 0]));
    case DoMerge(t, order) =>
      EnabledMergeable(N, t, order);
      PlainMerge(N, t, order);
  }

  /** From a plain netlist every run, in any order, is safe in every world. */
  lemma {:induction false} PlainRunIsSafe(trace: seq<Netlist>, w: World)
    requires IsRun(trace) && WellFormed(trace[0]) && Plain(trace[0])
    ensures IsSafeRun(trace, w) && WellFormed(trace[|trace| - 1]) && Plain(trace[|trace| - 1])
  {
    hide WellFormed, Plain, Enabled, Apply, Safe;
    if |trace| > 1 {
      var last := |trace| - 1;
      var init := trace[..last];
      assert forall k :: 0 <= k < last - 1 ==> Rewrites(init[k], init[k + 1]);
      PlainRunIsSafe(init, w);
      var N, N' := trace[last - 1], trace[last];
      assert Rewrites(N, N');
      var r :| Enabled(N, r) && N' == Apply(N, r);
      PlainSafe(N, r, w);
      PlainStep(N, r);
      RewriteKeeps(N, r);
      forall k | 0 <= k < last ensures RewritesSafely(trace[k], trace[k + 1], w) {
        if k < last - 1 { assert RewritesSafely(init[k], init[k + 1], w); }
      }
    }
  }

  /** What `N` shows after the rewrites to `M` and the sweep to `P`, `P` shows. */
  ghost predicate NothingLost(N: Netlist, M: Netlist, P: Netlist, w: World)
  {
    forall val :: Settled(N, w, val) ==> exists val' :: Settled(P, w, val') && ShowsSame(N, M, val, val')
  }

  ghost predicate NothingAdded(N: Netlist, M: Netlist, P: Netlist, w: World)
  {
    forall val' :: Settled(P, w, val') ==> exists val :: Settled(N, w, val) && ShowsSame(N, M, val, val')
  }

  /** The whole pass on a plain netlist shows what the netlist showed, and nothing else. */
  lemma PlainPass(run: seq<Netlist>, sweep: seq<Netlist>, w: World)
    requires IsRun(run) && WellFormed(run[0]) && Plain(run[0]) && IsSweep(sweep) && sweep[0] == run[|run| - 1]
    ensures NothingLost(run[0], sweep[0], sweep[|sweep| - 1], w)
    ensures NothingAdded(run[0], sweep[0], sweep[|sweep| - 1], w)
  {
    var N, M, P := run[0], sweep[0], sweep[|sweep| - 1];
    hide WellFormed, Plain, Settled, ShowsSame, IsSweep;
    PlainRunIsSafe(run, w);
    forall val | Settled(N, w, val) ensures exists val' :: Settled(P, w, val') && ShowsSame(N, M, val, val') {
      PassKeepsObservables(run, sweep, w, val);
    }
    forall val' | Settled(P, w, val') ensures exists val :: Settled(N, w, val) && ShowsSame(N, M, val, val') {
      PassAddsNothing(run, sweep, w, val');
    }
  }
}
