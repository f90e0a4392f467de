/**
 The rewrites of the constant propagation pass, as functions on netlists, and the proof
 that each of them keeps the meaning of the netlist.
 */
module CpropRules {
  import opened FourState
  import opened Netlists
  import opened Options

  // ----- Meaning -----

  function Restrict(val: Valuation, keys: set<nat>): Valuation
  {
    map n | n in val && n in keys :: val[n]
  }

  /** `N'` has the nexuses of `N`, perhaps more, and the settled valuations of the two
      correspond: each of `N` extends to one of `N'`, each of `N'` restricts to one of `N`. */
  ghost predicate SameMeaning(N: Netlist, N': Netlist, w: World)
  {
    && N.nexus.Keys <= N'.nexus.Keys
    && (forall n :: n in N.nexus ==> N'.nexus[n] == N.nexus[n])
    && Extended(N, N', w)
    && Restricted(N, N', w)
  }

  ghost predicate Extended(N: Netlist, N': Netlist, w: World)
  {
    forall val :: Settled(N, w, val) ==>
      exists val' :: Settled(N', w, val') && Restrict(val', N.nexus.Keys) == val
  }

  ghost predicate Restricted(N: Netlist, N': Netlist, w: World)
  {
    forall val' :: Settled(N', w, val') ==> Settled(N, w, Restrict(val', N.nexus.Keys))
  }

  lemma SameMeaningRefl(N: Netlist, w: World)
    ensures SameMeaning(N, N, w)
  {
    forall val | Settled(N, w, val) ensures Restrict(val, N.nexus.Keys) == val {}
    hide Settled, Restrict;
    assert Extended(N, N, w);
    assert Restricted(N, N, w);
  }

  lemma RestrictTwice(val: Valuation, big: set<nat>, small: set<nat>)
    requires small <= big
    ensures Restrict(Restrict(val, big), small) == Restrict(val, small)
  {
  }

  lemma SameMeaningTrans(N: Netlist, M: Netlist, P: Netlist, w: World)
    requires SameMeaning(N, M, w) && SameMeaning(M, P, w)
    ensures SameMeaning(N, P, w)
  {
    hide Settled, Restrict;
    forall val | Settled(N, w, val)
      ensures exists val' :: Settled(P, w, val') && Restrict(val', N.nexus.Keys) == val
    {
      var val1 :| Settled(M, w, val1) && Restrict(val1, N.nexus.Keys) == val;
      var val2 :| Settled(P, w, val2) && Restrict(val2, M.nexus.Keys) == val1;
      RestrictTwice(val2, M.nexus.Keys, N.nexus.Keys);
    }
    forall val' | Settled(P, w, val') ensures Settled(N, w, Restrict(val', N.nexus.Keys)) {
      assert Settled(M, w, Restrict(val', M.nexus.Keys));
      RestrictTwice(val', M.nexus.Keys, N.nexus.Keys);
    }
  }

  // ----- Replacing one node by another with the same output -----

  function Replace(N: Netlist, id: nat, node: Node): Netlist
  {
    N.(nodes := N.nodes[id := node])
  }

  lemma ReplaceDriven(N: Netlist, w: World, val: Valuation, id: nat, node: Node, n: nat)
    requires id in N.nodes && N.nodes[id].out == node.out
    ensures Drivers(Replace(N, id, node), n) == Drivers(N, n)
    ensures forall i :: (n == node.out ==> Drive(w, val, node, i) == Drive(w, val, N.nodes[id], i)) ==>
              Driven(Replace(N, id, node), w, val, n, i) == Driven(N, w, val, n, i)
  {
    hide Drive;
    var N' := Replace(N, id, node);
    assert Drivers(N', n) == Drivers(N, n);
    forall i | n == node.out ==> Drive(w, val, node, i) == Drive(w, val, N.nodes[id], i)
      ensures Driven(N', w, val, n, i) == Driven(N, w, val, n, i)
    {
      forall j | j in Drivers(N, n)
        ensures Drive(w, val, N'.nodes[j], i) == Drive(w, val, N.nodes[j], i)
      {
      }
      assert Outside(N', w, n, i) == Outside(N, w, n, i);
      SameImage(N, N', w, val, n, i);
    }
  }

  lemma SameImage(N: Netlist, N': Netlist, w: World, val: Valuation, n: nat, i: int)
    requires Drivers(N, n) == Drivers(N', n)
    requires forall j :: j in Drivers(N, n) ==> Drive(w, val, N'.nodes[j], i) == Drive(w, val, N.nodes[j], i)
    ensures (set j | j in Drivers(N, n) :: Drive(w, val, N.nodes[j], i))
         == (set j | j in Drivers(N', n) :: Drive(w, val, N'.nodes[j], i))
  {
    hide Drive;
    var A := set j | j in Drivers(N, n) :: Drive(w, val, N.nodes[j], i);
    var B := set j | j in Drivers(N', n) :: Drive(w, val, N'.nodes[j], i);
    forall v | v in A ensures v in B {
      var j :| j in Drivers(N, n) && v == Drive(w, val, N.nodes[j], i);
      assert v == Drive(w, val, N'.nodes[j], i);
    }
    forall v | v in B ensures v in A {
      var j :| j in Drivers(N', n) && v == Drive(w, val, N'.nodes[j], i);
      assert v == Drive(w, val, N.nodes[j], i);
    }
  }

  /** Whatever drives the nexus, in both netlists its bits come out the same. */
  ghost predicate SameBits(N: Netlist, N': Netlist, w: World, val: Valuation, n: nat)
    requires n in N.nexus
  {
    forall i :: 0 <= i < N.nexus[n].width ==>
      N.nexus[n].Finish(Driven(N, w, val, n, i)) == N.nexus[n].Finish(Driven(N', w, val, n, i))
  }

  lemma ReplaceSettledAt(N: Netlist, w: World, val: Valuation, id: nat, node: Node, n: nat)
    requires id in N.nodes && n in N.nexus && N.nodes[id].out == node.out
    requires n == node.out ==> SameBits(N, Replace(N, id, node), w, val, n)
    ensures SettledAt(N, w, val, n) <==> SettledAt(Replace(N, id, node), w, val, n)
  {
    hide Drive, Driven;
    ReplaceDriven(N, w, val, id, node, n);
  }

  /** A node that is logic may be replaced by one that makes no difference to the bits of the
      nexus wherever the constants are settled. */
  lemma ReplaceSameMeaning(N: Netlist, w: World, id: nat, node: Node)
    requires WellFormed(N) && id in N.nodes && N.nodes[id].out == node.out
    requires !N.nodes[id].Const? && !N.nodes[id].Substitute? && node.out in N.nexus
    requires forall val :: ConstantsSettled(N, w, val) ==> SameBits(N, Replace(N, id, node), w, val, node.out)
    ensures SameMeaning(N, Replace(N, id, node), w)
  {
    var N' := Replace(N, id, node);
    LogicOut(N, id);
    hide SettledAt, SameBits, DrivenByLogic;
    forall val: Valuation ensures Settled(N, w, val) <==> Settled(N', w, val) {
      if ConstantsSettled(N, w, val) {
        forall n | n in N.nexus ensures SettledAt(N, w, val, n) <==> SettledAt(N', w, val, n) {
          ReplaceSettledAt(N, w, val, id, node, n);
        }
      } else {
        var n :| n in N.nexus && !DrivenByLogic(N, n) && !SettledAt(N, w, val, n);
        ReplaceSettledAt(N, w, val, id, node, n);
      }
    }
    forall val: Valuation | val.Keys == N.nexus.Keys ensures Restrict(val, N.nexus.Keys) == val {}
  }

  lemma LogicOut(N: Netlist, id: nat)
    requires id in N.nodes && !N.nodes[id].Const? && !N.nodes[id].Substitute?
    ensures DrivenByLogic(N, N.nodes[id].out)
  {
    assert id in Drivers(N, N.nodes[id].out);
  }

  // ----- Folding a constant concatenation (cprop_functor::lpm_concat) -----

  ghost predicate FoldEnabled(N: Netlist, id: nat)
  {
    && id in N.nodes && N.nodes[id].Concat? && !N.nodes[id].transparent
    && forall n :: n in N.nodes[id].ins ==> Constant(N, n).Some?
  }

  ghost function ConstJoin(N: Netlist, ins: seq<nat>): Vec
    requires forall n :: n in ins ==> Constant(N, n).Some?
  {
    if ins == [] then [] else Constant(N, ins[0]).value + ConstJoin(N, ins[1..])
  }

  ghost function Folded(N: Netlist, id: nat): Node
    requires FoldEnabled(N, id)
  {
    Const(N.nodes[id].out, ConstJoin(N, N.nodes[id].ins))
  }

  ghost function Fold(N: Netlist, id: nat): Netlist
    requires FoldEnabled(N, id)
  {
    Replace(N, id, Folded(N, id))
  }

  /** Bit `i` of the concatenation comes from an operand that hides a z there. */
  ghost predicate JoinHides(N: Netlist, ins: seq<nat>, i: int)
    requires forall n :: n in ins ==> Constant(N, n).Some?
  {
    ins != [] &&
    var w := |Constant(N, ins[0]).value|;
    if i < w then HidesBit(N, ins[0], i, N.next) else JoinHides(N, ins[1..], i - w)
  }

  lemma {:induction false} JoinHidesSome(N: Netlist, ins: seq<nat>, i: int)
    requires (forall n :: n in ins ==> Constant(N, n).Some?) && JoinHides(N, ins, i)
    ensures exists n :: n in ins && HidesZ(N, n)
  {
    hide ConstVec, HidesBit;
    assert ins[0] in ins;
    if i < |Constant(N, ins[0]).value| {
      assert HidesZ(N, ins[0]);
    } else {
      JoinHidesSome(N, ins[1..], i - |Constant(N, ins[0]).value|);
    }
  }

  ghost predicate BitShows(N: Netlist, val: Valuation, ins: seq<nat>, i: int)
    requires (forall n :: n in ins ==> Constant(N, n).Some?) && |Join(ins, val)| == |ConstJoin(N, ins)|
  {
    0 <= i < |Join(ins, val)| ==>
      && Join(ins, val)[i] == (if JoinHides(N, ins, i) then V0 else ConstJoin(N, ins)[i])
      && (JoinHides(N, ins, i) ==> ConstJoin(N, ins)[i] == Vz)
  }

  /** The concatenation of the settled operands is the folded constant, except for the bits
      that hide a z: those are 0 before and z after. */
  lemma {:induction false} ConstJoinIsJoin(N: Netlist, w: World, val: Valuation, ins: seq<nat>)
    requires WellFormed(N) && ConstantsSettled(N, w, val)
    requires forall n :: n in ins ==> Constant(N, n).Some?
    ensures |Join(ins, val)| == |ConstJoin(N, ins)| == SumWidths(N, ins)
    ensures forall i :: BitShows(N, val, ins, i)
  {
    hide SettledAt, ConstVec, WellFormed, HidesBit, BitShows;
    if ins == [] {
      NoBits(N, val);
    } else {
      assert ins[0] in ins;
      ConstVecSound(N, w, val, ins[0], N.next);
      ConstJoinIsJoin(N, w, val, ins[1..]);
      forall i ensures BitShows(N, val, ins, i) {
        BitCons(N, val, ins, i);
      }
    }
  }

  lemma NoBits(N: Netlist, val: Valuation)
    ensures forall i :: BitShows(N, val, [], i)
  {
  }

  lemma BitCons(N: Netlist, val: Valuation, ins: seq<nat>, i: int)
    requires ins != [] && forall n :: n in ins ==> Constant(N, n).Some?
    requires Constant(N, ins[0]).Some? && Shows(N, val, ins[0], N.next)
    requires |Join(ins[1..], val)| == |ConstJoin(N, ins[1..])|
    requires BitShows(N, val, ins[1..], i - |Constant(N, ins[0]).value|)
    ensures |Join(ins, val)| == |ConstJoin(N, ins)| && BitShows(N, val, ins, i)
  {
    hide ConstVec, HidesBit;
    HiddenIsZ(N, ins[0], i);
  }

  lemma HiddenIsZ(N: Netlist, n: nat, i: int)
    ensures HidesBit(N, n, i, N.next) ==>
              Constant(N, n).Some? && 0 <= i < |Constant(N, n).value| && Constant(N, n).value[i] == Vz
  {
  }

  /** What all other drivers of the output put on bit `i`. */
  function Others(N: Netlist, w: World, val: Valuation, id: nat, i: int): set<V>
    requires id in N.nodes
  {
    (set j | j in Drivers(N, N.nodes[id].out) - {id} :: Drive(w, val, N.nodes[j], i))
    + Outside(N, w, N.nodes[id].out, i)
  }

  lemma DrivenSplit(N: Netlist, w: World, val: Valuation, id: nat, node: Node, i: int)
    requires id in N.nodes && N.nodes[id].out == node.out
    ensures Driven(Replace(N, id, node), w, val, node.out, i) == Others(N, w, val, id, i) + {Drive(w, val, node, i)}
  {
    hide Drive;
    var N' := Replace(N, id, node);
    var A := set j | j in Drivers(N', node.out) :: Drive(w, val, N'.nodes[j], i);
    var B := (set j | j in Drivers(N, node.out) - {id} :: Drive(w, val, N.nodes[j], i)) + {Drive(w, val, node, i)};
    assert Drivers(N', node.out) == Drivers(N, node.out) && id in Drivers(N', node.out);
    assert Outside(N', w, node.out, i) == Outside(N, w, node.out, i);
    forall v | v in A ensures v in B {
      var j :| j in Drivers(N', node.out) && v == Drive(w, val, N'.nodes[j], i);
      if j != id { assert v == Drive(w, val, N.nodes[j], i); }
    }
    forall v | v in B ensures v in A {
      if v != Drive(w, val, node, i) {
        var j :| j in Drivers(N, node.out) - {id} && v == Drive(w, val, N.nodes[j], i);
        assert v == Drive(w, val, N'.nodes[j], i);
      } else {
        assert v == Drive(w, val, N'.nodes[id], i);
      }
    }
  }

  lemma ReplaceSelf(N: Netlist, id: nat)
    requires id in N.nodes
    ensures Replace(N, id, N.nodes[id]) == N
  {
  }

  /** A bit of the output stays as it is exactly when it hides no z or the net absorbs a 0. */
  lemma FoldBit(N: Netlist, id: nat, w: World, val: Valuation, i: int)
    requires WellFormed(N) && FoldEnabled(N, id) && ConstantsSettled(N, w, val)
    requires N.nodes[id].out in N.nexus && 0 <= i < N.nexus[N.nodes[id].out].width
    ensures var x, out := N.nexus[N.nodes[id].out], N.nodes[id].out;
            x.Finish(Driven(N, w, val, out, i)) == x.Finish(Driven(Fold(N, id), w, val, out, i))
            <==> (JoinHides(N, N.nodes[id].ins, i) ==> AbsorbsZero(x, Others(N, w, val, id, i)))
  {
    var a, b := N.nodes[id], Folded(N, id);
    var rest := Others(N, w, val, id, i);
    ConstJoinIsJoin(N, w, val, a.ins);
    Fits(N, id);
    assert |Join(a.ins, val)| == N.nexus[a.out].width && BitShows(N, val, a.ins, i);
    assert Drive(w, val, a, i) == Join(a.ins, val)[i] && Drive(w, val, b, i) == ConstJoin(N, a.ins)[i];
    hide WellFormed, ConstVec, ConstJoin, JoinHides, Others, ConstantsSettled, NodeFits, AbsorbsZero, Drive;
    DrivenSplit(N, w, val, id, a, i);
    ReplaceSelf(N, id);
    DrivenSplit(N, w, val, id, b, i);
    AbsorbsZeroIff(N.nexus[a.out], rest);
  }

  /** The fold hides no z, or the concatenation is all that drives a net that reads z as 0. */
  ghost predicate FoldSafe(N: Netlist, id: nat)
    requires FoldEnabled(N, id)
  {
    var out := N.nodes[id].out;
    || (forall n :: n in N.nodes[id].ins ==> !HidesZ(N, n))
    || (out in N.nexus && Drivers(N, out) == {id} && !N.nexus[out].External() && AbsorbsZero(N.nexus[out], {}))
  }

  lemma FoldSafeBit(N: Netlist, id: nat, w: World, val: Valuation, i: int)
    requires FoldEnabled(N, id) && FoldSafe(N, id) && JoinHides(N, N.nodes[id].ins, i)
    ensures N.nodes[id].out in N.nexus && AbsorbsZero(N.nexus[N.nodes[id].out], Others(N, w, val, id, i))
  {
    hide HidesZ, ConstVec, AbsorbsZero, JoinHides;
    JoinHidesSome(N, N.nodes[id].ins, i);
    assert Others(N, w, val, id, i) == {};
  }

  lemma FoldSameMeaning(N: Netlist, id: nat, w: World)
    requires WellFormed(N) && FoldEnabled(N, id) && FoldSafe(N, id)
    ensures SameMeaning(N, Fold(N, id), w)
  {
    Fits(N, id);
    var out := N.nodes[id].out;
    hide WellFormed, FoldEnabled, FoldSafe, Fold, ConstantsSettled, Driven, AbsorbsZero, Others, SameMeaning, JoinHides;
    forall val | ConstantsSettled(N, w, val) ensures SameBits(N, Fold(N, id), w, val, out) {
      forall i | 0 <= i < N.nexus[out].width
        ensures N.nexus[out].Finish(Driven(N, w, val, out, i)) == N.nexus[out].Finish(Driven(Fold(N, id), w, val, out, i))
      {
        FoldBit(N, id, w, val, i);
        FoldEnabledIns(N, id);
        if JoinHides(N, N.nodes[id].ins, i) { FoldSafeBit(N, id, w, val, i); }
      }
    }
    FoldIs(N, id);
    ReplaceSameMeaning(N, w, id, Folded(N, id));
  }

  lemma FoldEnabledIns(N: Netlist, id: nat)
    requires FoldEnabled(N, id)
    ensures id in N.nodes && N.nodes[id].Concat? && forall n :: n in N.nodes[id].ins ==> Constant(N, n).Some?
  {
  }

  lemma FoldIs(N: Netlist, id: nat)
    requires FoldEnabled(N, id)
    ensures Fold(N, id) == Replace(N, id, Folded(N, id)) && Folded(N, id).out == N.nodes[id].out
  {
  }

  // ----- A two-way mux with a constant select (cprop_functor::lpm_mux) -----

  ghost predicate MuxEnabled(N: Netlist, id: nat)
  {
    && id in N.nodes && N.nodes[id].Mux? && |N.nodes[id].data| == 2
    && Width(N, N.nodes[id].sel) == 1
    && ConstBit(N, N.nodes[id].sel) != Vz && ConstBit(N, N.nodes[id].sel) != Vx
  }

  ghost function MuxToBuf(N: Netlist, id: nat): Netlist
    requires MuxEnabled(N, id)
  {
    var m := N.nodes[id];
    Replace(N, id, BufZ(m.out, m.data[if ConstBit(N, m.sel) == V1 then 1 else 0]))
  }

  /** The select of such a mux holds the constant bit, whatever the net. */
  lemma SelectShows(N: Netlist, id: nat, w: World, val: Valuation)
    requires WellFormed(N) && MuxEnabled(N, id) && ConstantsSettled(N, w, val)
    ensures At(val, N.nodes[id].sel) == [ConstBit(N, N.nodes[id].sel)]
  {
    hide WellFormed, ConstVec, ConstantsSettled;
    var sel := N.nodes[id].sel;
    ConstVecSound(N, w, val, sel, N.next);
    assert !HidesBit(N, sel, 0, N.next);
  }

  lemma MuxSameMeaning(N: Netlist, id: nat, w: World)
    requires WellFormed(N) && MuxEnabled(N, id)
    ensures SameMeaning(N, MuxToBuf(N, id), w)
  {
    Fits(N, id);
    var a := N.nodes[id];
    var pick := if ConstBit(N, a.sel) == V1 then 1 else 0;
    var b := BufZ(a.out, a.data[pick]);
    hide WellFormed, ConstBit, ConstantsSettled;
    forall val | ConstantsSettled(N, w, val) ensures SameBits(N, Replace(N, id, b), w, val, a.out) {
      SelectShows(N, id, w, val);
      assert ToNat(At(val, a.sel)) == pick;
      assert forall i :: Drive(w, val, a, i) == Drive(w, val, b, i);
      hide Drive;
      ReplaceDriven(N, w, val, id, b, a.out);
    }
    ReplaceSameMeaning(N, w, id, b);
  }
}
