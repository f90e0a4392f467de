/**
 Where the propagation is not faithful, and exactly when it is: all cases need a two-state
 net, whose undriven bits read as 0 although nothing drives them.
 */
module CpropLimits {
  import opened FourState
  import opened Netlists
  import opened CpropRules
  import opened CpropCollapse
  import opened CpropMerge
  import opened CpropMergeProof
  import opened CpropRun
  import opened Options

  // ----- Reading and folding constants -----

  /** A constant read off a nexus, through any substitutions, is what the nexus settles at
      exactly when it hides no z. */
  lemma ReadExact(N: Netlist, w: World, val: Valuation, n: nat)
    requires WellFormed(N) && Settled(N, w, val) && Constant(N, n).Some?
    ensures At(val, n) == Constant(N, n).value <==> !HidesZ(N, n)
    ensures |At(val, n)| == |Constant(N, n).value|
  {
    SettledConstants(N, w, val);
    ConstVecSound(N, w, val, n, N.next);
    hide ConstVec, WellFormed, Settled, ConstantsSettled;
    if i :| HidesBit(N, n, i, N.next) {
      assert At(val, n)[i] == V0;
    }
  }

  /** The folded constant is what the settled operands make exactly when none hides a z. */
  lemma {:induction false} OperandsExact(N: Netlist, w: World, val: Valuation, ins: seq<nat>)
    requires WellFormed(N) && Settled(N, w, val)
    requires forall n :: n in ins ==> Constant(N, n).Some?
    ensures Join(ins, val) == ConstJoin(N, ins) <==> forall n :: n in ins ==> !HidesZ(N, n)
    ensures |Join(ins, val)| == |ConstJoin(N, ins)|
  {
    hide WellFormed, Settled, Constant, HidesZ;
    if ins != [] {
      var n, tail := ins[0], ins[1..];
      assert forall m :: m in ins <==> m == n || m in tail;
      ReadExact(N, w, val, n);
      OperandsExact(N, w, val, tail);
      var a, b, c, d := At(val, n), Join(tail, val), Constant(N, n).value, ConstJoin(N, tail);
      assert (a + b)[..|a|] == a && (a + b)[|a|..] == b && (c + d)[..|c|] == c && (c + d)[|c|..] == d;
      assert a + b == c + d <==> a == c && b == d;
    }
  }

  /** Every bit that hides a z is driven together with something that absorbs a 0. */
  ghost predicate HiddenAbsorbed(N: Netlist, id: nat, w: World, val: Valuation)
    requires FoldEnabled(N, id)
  {
    var out := N.nodes[id].out;
    out in N.nexus && forall i :: 0 <= i < N.nexus[out].width && JoinHides(N, N.nodes[id].ins, i) ==>
      AbsorbsZero(N.nexus[out], Others(N, w, val, id, i))
  }

  /** A settled valuation survives a fold exactly when every hidden z is absorbed. */
  lemma FoldExact(N: Netlist, id: nat, w: World, val: Valuation)
    requires WellFormed(N) && FoldEnabled(N, id) && Settled(N, w, val)
    ensures Settled(Fold(N, id), w, val) <==> HiddenAbsorbed(N, id, w, val)
  {
    Fits(N, id);
    FoldIs(N, id);
    var out, M := N.nodes[id].out, Fold(N, id);
    SettledConstants(N, w, val);
    assert SettledAt(N, w, val, out);
    forall i | 0 <= i < N.nexus[out].width
      ensures N.nexus[out].Finish(Driven(N, w, val, out, i)) == N.nexus[out].Finish(Driven(M, w, val, out, i))
              <==> (JoinHides(N, N.nodes[id].ins, i) ==> AbsorbsZero(N.nexus[out], Others(N, w, val, id, i)))
    {
      FoldBit(N, id, w, val, i);
    }
    FoldElsewhere(N, id, w, val);
    hide WellFormed, Driven, AbsorbsZero, Others, JoinHides, ConstantsSettled, Fold, FoldEnabled, NodeFits;
    assert SettledAt(M, w, val, out) <==> HiddenAbsorbed(N, id, w, val);
    hide SettledAt;
  }

  lemma FoldElsewhere(N: Netlist, id: nat, w: World, val: Valuation)
    requires WellFormed(N) && FoldEnabled(N, id)
    ensures Fold(N, id).nexus == N.nexus
    ensures forall n :: n in N.nexus && n != N.nodes[id].out ==>
              (SettledAt(N, w, val, n) <==> SettledAt(Fold(N, id), w, val, n))
  {
    hide WellFormed, SettledAt;
    FoldIs(N, id);
    forall n | n in N.nexus && n != N.nodes[id].out ensures SettledAt(N, w, val, n) <==> SettledAt(Fold(N, id), w, val, n) {
      ReplaceSettledAt(N, w, val, id, Folded(N, id), n);
    }
  }

  const PlainWire := Signal(KWire, false, false, false, false, NotAPort, false)
  const TwoStateWire := PlainWire.(twoState := true)

  /** An undriven two-state net (nexus 0) feeding a one-operand concatenation onto nexus 1. */
  const Undriven := Netlist(map[2 := Concat(1, [0], false)],
                            map[0 := Nexus(1, [TwoStateWire], false), 1 := Nexus(1, [PlainWire], false)], 3)

  lemma UndrivenShape()
    ensures Drivers(Undriven, 0) == {} && Drivers(Undriven, 1) == {2}
    ensures Undriven.nexus[0].TwoState() && !Undriven.nexus[1].TwoState()
    ensures !Undriven.nexus[0].External() && !Undriven.nexus[1].External()
    ensures Pulls(Undriven.nexus[0].sigs) == [] && Pulls(Undriven.nexus[1].sigs) == []
  {
    assert Undriven.nexus[0].sigs[0] == TwoStateWire;
    assert forall s :: s in Undriven.nexus[0].sigs ==> s == TwoStateWire;
    assert forall s :: s in Undriven.nexus[1].sigs ==> s == PlainWire;
    assert forall s :: s in Pulls(Undriven.nexus[0].sigs) ==> s.Pull();
    assert forall s :: s in Pulls(Undriven.nexus[1].sigs) ==> s.Pull();
  }

  lemma UndrivenFolds()
    ensures WellFormed(Undriven) && FoldEnabled(Undriven, 2)
    ensures Fold(Undriven, 2) == Replace(Undriven, 2, Const(1, [Vz]))
  {
    UndrivenShape();
    assert SumWidths(Undriven, [0]) == 1 by { assert [0][1..] == []; }
    assert Constant(Undriven, 0) == Some([Vz]) by { assert Fill(Vz, 1) == [Vz]; }
    assert ConstJoin(Undriven, [0]) == [Vz] by { assert [0][1..] == []; }
  }

  lemma UndrivenSettled(w: World)
    ensures Settled(Undriven, w, map[0 := [V0], 1 := [V0]])
  {
    UndrivenShape();
    var N, val := Undriven, map[0 := [V0], 1 := [V0]];
    FinishOne(N.nexus[0], Vz);
    FinishOne(N.nexus[1], V0);
    hide Pulls;
    assert Join([0], val) == [V0] by { assert [0][1..] == []; }
    assert SettledAt(N, w, val, 0) by { assert Driven(N, w, val, 0, 0) == {}; }
    assert SettledAt(N, w, val, 1) by { assert Driven(N, w, val, 1, 0) == {V0}; }
  }

  lemma FoldedSettled(w: World, val: Valuation)
    requires Settled(Replace(Undriven, 2, Const(1, [Vz])), w, val)
    ensures val[1] == [Vz]
  {
    UndrivenShape();
    var M := Replace(Undriven, 2, Const(1, [Vz]));
    FinishOne(M.nexus[1], Vz);
    hide Pulls;
    assert Drivers(M, 1) == {2};
    assert SettledAt(M, w, val, 1);
    assert Driven(M, w, val, 1, 0) == {Vz};
  }

  /** The fold turns the 0 on nexus 1 into z. */
  lemma FoldUndrivenTwoState(w: World)
    ensures WellFormed(Undriven) && FoldEnabled(Undriven, 2)
    ensures Settled(Undriven, w, map[0 := [V0], 1 := [V0]])
    ensures forall val :: Settled(Fold(Undriven, 2), w, val) ==> val[1] == [Vz]
  {
    UndrivenFolds();
    UndrivenSettled(w);
    forall val | Settled(Fold(Undriven, 2), w, val) ensures val[1] == [Vz] { FoldedSettled(w, val); }
  }


  // ----- A hidden z behind a substitution -----

  /** Nexus 0, two-state and undriven, has its bit 0 substituted by nexus 1; the result on the
      four-state nexus 2 feeds a one-operand concatenation onto nexus 3. */
  const Behind := Netlist(
    map[4 := Const(1, [V1]), 5 := Substitute(2, 0, 1, 0), 6 := Concat(3, [2], false)],
    map[0 := Nexus(2, [TwoStateWire], false), 1 := Nexus(1, [PlainWire], false),
        2 := Nexus(2, [PlainWire], false), 3 := Nexus(2, [PlainWire], false)], 7)

  lemma WireShape(width: nat, twoState: bool)
    ensures var x := Nexus(width, [if twoState then TwoStateWire else PlainWire], false);
            x.TwoState() == twoState && !x.External() && Pulls(x.sigs) == [] && x.Wiring() == Wire
            && !x.Has(KSupply0) && !x.Has(KSupply1) && !x.Has(KTri0) && !x.Has(KTri1)
  {
    var x := Nexus(width, [if twoState then TwoStateWire else PlainWire], false);
    assert x.sigs[0] in x.sigs;
    assert forall s :: s in Pulls(x.sigs) ==> s.Pull();
  }

  lemma BehindShape()
    ensures Drivers(Behind, 0) == {} && Drivers(Behind, 1) == {4} && Drivers(Behind, 2) == {5} && Drivers(Behind, 3) == {6}
    ensures WellFormed(Behind)
  {
    assert SumWidths(Behind, [2]) == 2 by { assert [2][1..] == []; }
  }

  lemma BehindConstants()
    ensures forall d: nat :: ConstVec(Behind, 0, d) == Some([Vz, Vz])
    ensures forall d: nat :: ConstVec(Behind, 1, d) == Some([V1])
    ensures Constant(Behind, 2) == Some([V1, Vz])
  {
    BehindShape();
    WireShape(1, false);
    WireShape(2, false);
    WireShape(2, true);
    hide WellFormed, Drivers;
    assert Fill(Vz, 2) == [Vz, Vz];
    assert forall d: nat :: ConstVec(Behind, 0, d) == Some([Vz, Vz]);
    forall d: nat ensures ConstVec(Behind, 1, d) == Some([V1]) {
      assert forall j :: j in Drivers(Behind, 1) ==> j == 4;
    }
    assert forall j :: j in Drivers(Behind, 2) ==> j == 5;
    assert Patch([Vz, Vz], [V1], 0) == [V1, Vz];
  }

  const BehindVal: Valuation := map[0 := [V0, V0], 1 := [V1], 2 := [V1, V0], 3 := [V1, V0]]

  lemma SettledByOne(N: Netlist, w: World, val: Valuation, n: nat, id: nat)
    requires n in N.nexus && id in N.nodes && Drivers(N, n) == {id}
    requires !N.nexus[n].External() && Pulls(N.nexus[n].sigs) == []
    requires |At(val, n)| == N.nexus[n].width
    requires forall i :: 0 <= i < N.nexus[n].width ==> At(val, n)[i] == Squash(N.nexus[n], Drive(w, val, N.nodes[id], i))
    ensures SettledAt(N, w, val, n)
  {
    hide Drive, Driven, Drivers, Pulls;
    forall i | 0 <= i < N.nexus[n].width ensures At(val, n)[i] == N.nexus[n].Finish(Driven(N, w, val, n, i)) {
      DrivenByOne(N, w, val, n, i, id);
      assert Driven(N, w, val, n, i) == {Drive(w, val, N.nodes[id], i)};
      FinishOne(N.nexus[n], Drive(w, val, N.nodes[id], i));
    }
  }

  lemma SettledByNone(N: Netlist, w: World, val: Valuation, n: nat)
    requires n in N.nexus && Drivers(N, n) == {} && !N.nexus[n].External() && Pulls(N.nexus[n].sigs) == []
    requires At(val, n) == Fill(Squash(N.nexus[n], Vz), N.nexus[n].width)
    ensures SettledAt(N, w, val, n)
  {
    hide Drive, Pulls;
    FinishOne(N.nexus[n], Vz);
    assert forall i :: Driven(N, w, val, n, i) == {};
  }

  lemma BehindDrives(w: World)
    ensures Drive(w, BehindVal, Behind.nodes[4], 0) == V1
    ensures Drive(w, BehindVal, Behind.nodes[5], 0) == V1 && Drive(w, BehindVal, Behind.nodes[5], 1) == V0
    ensures Drive(w, BehindVal, Behind.nodes[6], 0) == V1 && Drive(w, BehindVal, Behind.nodes[6], 1) == V0
  {
    assert Join([2], BehindVal) == [V1, V0] by { assert [2][1..] == []; }
  }

  lemma BehindSources(w: World)
    ensures SettledAt(Behind, w, BehindVal, 0) && SettledAt(Behind, w, BehindVal, 1)
  {
    BehindShape();
    WireShape(1, false);
    WireShape(2, true);
    BehindDrives(w);
    hide WellFormed, Drivers, Pulls, SettledAt, Drive;
    SettledByNone(Behind, w, BehindVal, 0);
    SettledByOne(Behind, w, BehindVal, 1, 4);
  }

  lemma BehindResults(w: World)
    ensures SettledAt(Behind, w, BehindVal, 2) && SettledAt(Behind, w, BehindVal, 3)
  {
    BehindShape();
    WireShape(2, false);
    BehindDrives(w);
    hide WellFormed, Drivers, Pulls, SettledAt, Drive;
    SettledByOne(Behind, w, BehindVal, 2, 5);
    SettledByOne(Behind, w, BehindVal, 3, 6);
  }

  lemma BehindSettled(w: World)
    ensures Settled(Behind, w, BehindVal)
  {
    hide SettledAt;
    BehindSources(w);
    BehindResults(w);
  }

  lemma BehindHides()
    ensures FoldEnabled(Behind, 6) && JoinHides(Behind, [2], 1)
  {
    BehindConstants();
    BehindShape();
    WireShape(2, true);
    hide ConstVec, WellFormed, Drivers, Pulls;
    assert HidesBit(Behind, 0, 1, 6);
    assert HidesBelow(Behind, Behind.nodes[5], 1, 7);
    assert 5 in Drivers(Behind, 2);
    assert HidesBit(Behind, 2, 1, 7);
  }

  /** A four-state operand can hide a z too, behind a substitution: the settled valuation does
      not survive the fold. */
  lemma FoldBehindSubstitute(w: World)
    ensures WellFormed(Behind) && FoldEnabled(Behind, 6) && HidesZ(Behind, 2) && !Behind.nexus[2].TwoState()
    ensures Settled(Behind, w, BehindVal) && !Settled(Fold(Behind, 6), w, BehindVal)
  {
    BehindSettled(w);
    BehindHides();
    BehindShape();
    WireShape(2, false);
    hide ConstVec, WellFormed, Settled, Pulls;
    JoinHidesSome(Behind, [2], 1);
    assert Others(Behind, w, BehindVal, 6, 1) == {};
    assert !AbsorbsZero(Behind.nexus[3], {});
    FoldExact(Behind, 6, w, BehindVal);
  }

  // ----- Fillers of a merged two-state net -----

  /** When a driver from outside absorbs the filler 0 of a two-state net: on a wire unless it
      drives 1, on a wired-and only if it drives 0 or nothing, on a wired-or always. */
  lemma GapExact(x: Nexus, e: V)
    requires x.TwoState() && Pulls(x.sigs) == []
    ensures x.Finish({Vz, e}) == x.Finish({V0, e}) <==>
            match x.Wiring() case Wire => e != V1 case Wand => e == V0 || e == Vz case Wor => true
  {
    forall s | s in x.sigs ensures !s.Pull() { assert s in Pulls(x.sigs) <==> s.Pull(); }
    assert {e} + {V0} == {V0, e} && {e} + {Vz} == {Vz, e};
    AbsorbsZeroIff(x, {e});
    assert {e} <= {Vz} <==> e == Vz;
    assert {e} - {Vz} == {V1} <==> e == V1 by {
      if e != Vz { assert {e} - {Vz} == {e}; Singleton(V1, {e}); } else { assert {e} - {Vz} == {}; }
    }
  }

  const InOutWire := PlainWire.(twoState := true, port := PInOut, root := true)

  /** A two-state inout port (nexus 0) of two bits; bit 0 is also driven by a part select. */
  const Shared := Netlist(
    map[2 := Const(1, [V0]), 3 := PartPV(0, 1, 0, 1)],
    map[0 := Nexus(2, [InOutWire], false), 1 := Nexus(1, [PlainWire], false)], 4)

  const SharedVal: Valuation := map[0 := [V0, V1], 1 := [V0]]

  lemma SharedShape()
    ensures WellFormed(Shared) && Drivers(Shared, 0) == {3} && Drivers(Shared, 1) == {2}
    ensures var x := Shared.nexus[0];
            x.TwoState() && x.External() && Pulls(x.sigs) == [] && x.Wiring() == Wire
            && !x.Has(KSupply0) && !x.Has(KSupply1) && !x.Has(KTri0) && !x.Has(KTri1)
  {
    var x := Shared.nexus[0];
    assert x.sigs[0] in x.sigs;
    assert forall s :: s in Pulls(x.sigs) ==> s.Pull();
  }

  lemma SharedMerges()
    ensures MergeEnabled(Shared, 0) && OrderOf(Shared, 0, [3]) && Mergeable(Shared, 0, [3])
    ensures PartsOf(Shared, [3]) == [Part(0, 1, 1)] && GapAt(Shared, [3], 1)
  {
    SharedShape();
    assert PartsOf(Shared, [3]) == [Part(0, 1, 1)];
    EnabledMergeable(Shared, 0, [3]);
  }

  lemma SharedDriven(w: World)
    requires w.drive(0) == [Vz, V1]
    ensures Driven(Shared, w, SharedVal, 0, 0) == {V0} + {Vz}
    ensures Driven(Shared, w, SharedVal, 0, 1) == {V1} + {Vz}
    ensures Outside(Shared, w, 0, 1) == {V1}
    ensures Drive(w, SharedVal, Shared.nodes[2], 0) == V0
  {
    SharedShape();
    hide WellFormed, Drivers, Pulls;
    DrivenByOne(Shared, w, SharedVal, 0, 0, 3);
    DrivenByOne(Shared, w, SharedVal, 0, 1, 3);
    assert {Vz} + {V1} == {V1} + {Vz};
  }

  lemma SharedSettled(w: World)
    requires w.drive(0) == [Vz, V1]
    ensures Settled(Shared, w, SharedVal)
  {
    SharedShape();
    WireShape(1, false);
    SharedDriven(w);
    hide WellFormed, Drivers, Pulls, Drive, Driven, Outside;
    SettledByOne(Shared, w, SharedVal, 1, 2);
    SettledTwoBits(w);
    hide SettledAt;
  }

  lemma SharedBits()
    ensures Shared.nexus[0].Finish({V0} + {Vz}) == V0 && Shared.nexus[0].Finish({V1} + {Vz}) == V1
  {
    SharedShape();
    hide WellFormed, Drivers, Pulls;
    FinishOne(Shared.nexus[0], V0);
    FinishOne(Shared.nexus[0], V1);
    FinishIgnoresZ(Shared.nexus[0], {V0});
    FinishIgnoresZ(Shared.nexus[0], {V1});
  }

  lemma SettledTwoBits(w: World)
    requires w.drive(0) == [Vz, V1]
    ensures SettledAt(Shared, w, SharedVal, 0)
  {
    SharedDriven(w);
    SharedBits();
    hide Driven, Outside, Drive;
  }

  lemma SharedConflict(w: World)
    requires w.drive(0) == [Vz, V1]
    ensures !GapsAbsorbed(Shared, 0, [3], w)
  {
    SharedShape();
    SharedMerges();
    SharedDriven(w);
    hide WellFormed, MergeEnabled, OrderOf, Mergeable, Outside, GapAt, PartsOf;
    assert !AbsorbsZero(Shared.nexus[0], {V1});
  }

  /** The merge is enabled, and where the port is driven to 1 from outside it turns the 1
      into x. */
  lemma MergeSharedTwoState(w: World)
    requires w.drive(0) == [Vz, V1]
    ensures WellFormed(Shared) && MergeEnabled(Shared, 0) && OrderOf(Shared, 0, [3])
    ensures Settled(Shared, w, SharedVal) && !SameMeaning(Shared, Merge(Shared, 0, [3]), w)
    ensures forall val :: Settled(Merge(Shared, 0, [3]), w, val) ==> |At(val, 0)| == 2 && At(val, 0)[1] == Vx
  {
    SharedShape();
    SharedMerges();
    SharedSettled(w);
    SharedConflict(w);
    hide WellFormed, MergeEnabled, OrderOf, Mergeable, Settled, Merge, GapsAbsorbed, SameMeaning;
    MergeExact(Shared, 0, [3], w, SharedVal);
    forall val | Settled(Merge(Shared, 0, [3]), w, val) ensures |At(val, 0)| == 2 && At(val, 0)[1] == Vx {
      SharedMerged(w, val);
    }
  }

  lemma SharedFinish()
    ensures Shared.nexus[0].Finish({V0} + {V1}) == Vx
  {
    SharedShape();
    hide Drivers, Pulls, WellFormed;
    SubsetsOfThree({V0} + {V1});
    assert ({V0} + {V1}) - {Vz} == {V0} + {V1};
  }

  lemma SharedMerged(w: World, val: Valuation)
    requires w.drive(0) == [Vz, V1] && Settled(Merge(Shared, 0, [3]), w, val)
    ensures |At(val, 0)| == 2 && At(val, 0)[1] == Vx
  {
    var before := Restrict(val, Shared.nexus.Keys);
    SharedShape();
    SharedMerges();
    SharedDriven(w);
    SharedFinish();
    hide WellFormed, MergeEnabled, OrderOf, Mergeable, Merge, Drivers, Pulls, Drive, Driven, Outside, Extends, PartsOf, GapAt;
    SettledExtends(Shared, 0, [3], w, val);
    SharedWidths(w, val);
    assert FillFor(Shared, 0) == V0;
    PaintedByNone([Part(0, 1, 1)], before, V0, 1);
    MergedDriven(Shared, 0, [3], w, before, val, 1);
  }

  lemma SharedWidths(w: World, val: Valuation)
    requires Settled(Merge(Shared, 0, [3]), w, val)
    ensures WidthsHold(Shared, Restrict(val, Shared.nexus.Keys))
    ensures 0 in Merge(Shared, 0, [3]).nexus && Merge(Shared, 0, [3]).nexus[0] == Shared.nexus[0]
    ensures SettledAt(Merge(Shared, 0, [3]), w, val, 0)
  {
    SharedShape();
    hide Merge, Driven, WellFormed;
    forall n | n in Shared.nexus ensures n in Merge(Shared, 0, [3]).nexus && Merge(Shared, 0, [3]).nexus[n] == Shared.nexus[n] {
      MergeNexuses(Shared, 0, [3], n);
    }
    SettledWidths(Merge(Shared, 0, [3]), w, val);
  }
}
