/** Removing dangling constants (cprop_dc_functor) changes nothing that can be observed. */
module CpropSweep {
  import opened FourState
  import opened Netlists
  import opened CpropRules
  import opened CpropMergeProof
  import opened CpropRun

  ghost predicate IsRead(N: Netlist, n: nat)
  {
    exists id :: id in N.nodes && n in Reads(N.nodes[id])
  }

  /** Somebody can see the value: a node reads it, or one of its signals is visible from outside. */
  ghost predicate Observed(N: Netlist, n: nat)
  {
    n in N.nexus && (IsRead(N, n) || exists s :: s in N.nexus[n].sigs && s.Watched())
  }

  predicate AllZ(v: Vec)
  {
    forall i :: 0 <= i < |v| ==> v[i] == Vz
  }

  ghost predicate SweepEnabled(N: Netlist, id: nat)
  {
    id in N.nodes && N.nodes[id].Const? && (AllZ(N.nodes[id].value) || !Observed(N, N.nodes[id].out))
  }

  function Sweep(N: Netlist, id: nat): Netlist
  {
    N.(nodes := N.nodes - {id})
  }

  /** The two valuations cannot be told apart. */
  ghost predicate LooksSame(N: Netlist, val: Valuation, val': Valuation)
  {
    forall n :: Observed(N, n) ==> At(val, n) == At(val', n)
  }

  /** Whatever a settled valuation of `A` shows, some settled valuation of `B` shows too. */
  ghost predicate Mirrors(V: Netlist, A: Netlist, B: Netlist, w: World)
  {
    forall val :: Settled(A, w, val) ==> exists val' :: Settled(B, w, val') && LooksSame(V, val, val')
  }

  /** The two netlists cannot be told apart by their settled valuations. */
  ghost predicate SameView(N: Netlist, N': Netlist, w: World)
  {
    && N'.nexus == N.nexus && (forall n :: Observed(N', n) <==> Observed(N, n))
    && Mirrors(N, N, N', w) && Mirrors(N, N', N, w)
  }

  lemma SweepDrivers(N: Netlist, id: nat, w: World, val: Valuation, n: nat, i: int)
    requires id in N.nodes
    ensures Drivers(Sweep(N, id), n) == Drivers(N, n) - {id}
    ensures n != N.nodes[id].out ==> Driven(Sweep(N, id), w, val, n, i) == Driven(N, w, val, n, i)
    ensures n == N.nodes[id].out ==>
              Driven(N, w, val, n, i) == Driven(Sweep(N, id), w, val, n, i) + {Drive(w, val, N.nodes[id], i)}
  {
    hide Drive;
    var N' := Sweep(N, id);
    assert Drivers(N', n) == Drivers(N, n) - {id};
    var A := set j | j in Drivers(N, n) :: Drive(w, val, N.nodes[j], i);
    var B := set j | j in Drivers(N', n) :: Drive(w, val, N'.nodes[j], i);
    forall v | v in B ensures v in A {
      var j :| j in Drivers(N', n) && v == Drive(w, val, N'.nodes[j], i);
      assert j in Drivers(N, n) && v == Drive(w, val, N.nodes[j], i);
    }
    forall v | v in A ensures v in B || (n == N.nodes[id].out && v == Drive(w, val, N.nodes[id], i)) {
      var j :| j in Drivers(N, n) && v == Drive(w, val, N.nodes[j], i);
      if j != id { assert j in Drivers(N', n) && v == Drive(w, val, N'.nodes[j], i); }
    }
    if n == N.nodes[id].out { assert id in Drivers(N, n) && Drive(w, val, N.nodes[id], i) in A; }
    assert Outside(N', w, n, i) == Outside(N, w, n, i);
  }

  /** Sweeping an all-z constant leaves every settled valuation as it is. */
  lemma SweepZ(N: Netlist, id: nat, w: World, val: Valuation)
    requires WellFormed(N) && id in N.nodes && N.nodes[id].Const? && AllZ(N.nodes[id].value)
    ensures Settled(N, w, val) <==> Settled(Sweep(N, id), w, val)
  {
    var N', t := Sweep(N, id), N.nodes[id].out;
    Fits(N, id);
    ConstantFits(N, id);
    hide WellFormed, NodeFits, Driven;
    forall n | n in N.nexus ensures SettledAt(N, w, val, n) <==> SettledAt(N', w, val, n) {
      forall i | 0 <= i < N.nexus[n].width
        ensures N.nexus[n].Finish(Driven(N, w, val, n, i)) == N.nexus[n].Finish(Driven(N', w, val, n, i))
      {
        SweepDrivers(N, id, w, val, n, i);
        FinishIgnoresZ(N.nexus[n], Driven(N', w, val, n, i));
      }
    }
  }

  /** Recomputing a nexus that nobody reads settles it and disturbs nothing else. */
  function Resettle(N: Netlist, w: World, val: Valuation, n: nat): Valuation
    requires n in N.nexus
  {
    val[n := seq(N.nexus[n].width, i requires 0 <= i < N.nexus[n].width => N.nexus[n].Finish(Driven(N, w, val, n, i)))]
  }

  lemma UnreadDriven(N: Netlist, w: World, val: Valuation, val': Valuation, n: nat, m: nat, i: int)
    requires !IsRead(N, n) && forall k :: k != n ==> At(val, k) == At(val', k)
    ensures Driven(N, w, val, m, i) == Driven(N, w, val', m, i)
  {
    hide Drive;
    forall j | j in Drivers(N, m) ensures Drive(w, val, N.nodes[j], i) == Drive(w, val', N.nodes[j], i) {
      assert n !in Reads(N.nodes[j]);
      DriveReads(w, val, val', N.nodes[j], i);
    }
    var A := set j | j in Drivers(N, m) :: Drive(w, val, N.nodes[j], i);
    var B := set j | j in Drivers(N, m) :: Drive(w, val', N.nodes[j], i);
    forall v | v in A ensures v in B {
      var j :| j in Drivers(N, m) && v == Drive(w, val, N.nodes[j], i);
      assert v == Drive(w, val', N.nodes[j], i);
    }
    forall v | v in B ensures v in A {
      var j :| j in Drivers(N, m) && v == Drive(w, val', N.nodes[j], i);
      assert v == Drive(w, val, N.nodes[j], i);
    }
    assert A == B;
  }

  lemma ResettleSettled(N: Netlist, w: World, val: Valuation, n: nat)
    requires n in N.nexus && !IsRead(N, n) && val.Keys == N.nexus.Keys
    requires forall m :: m in N.nexus && m != n ==> SettledAt(N, w, val, m)
    ensures Settled(N, w, Resettle(N, w, val, n))
  {
    hide Driven, IsRead;
    var val' := Resettle(N, w, val, n);
    forall m | m in N.nexus ensures SettledAt(N, w, val', m) {
      forall i ensures Driven(N, w, val, m, i) == Driven(N, w, val', m, i) {
        UnreadDriven(N, w, val, val', n, m, i);
      }
    }
  }

  lemma SweepObserved(N: Netlist, id: nat)
    requires id in N.nodes && N.nodes[id].Const?
    ensures forall n :: IsRead(Sweep(N, id), n) <==> IsRead(N, n)
    ensures forall n :: Observed(Sweep(N, id), n) <==> Observed(N, n)
  {
    forall n: nat ensures IsRead(Sweep(N, id), n) <==> IsRead(N, n) {
      if IsRead(N, n) {
        var j :| j in N.nodes && n in Reads(N.nodes[j]);
        assert j in Sweep(N, id).nodes && n in Reads(Sweep(N, id).nodes[j]);
      }
      if IsRead(Sweep(N, id), n) {
        var j :| j in Sweep(N, id).nodes && n in Reads(Sweep(N, id).nodes[j]);
        assert j in N.nodes && n in Reads(N.nodes[j]);
      }
    }
  }

  /** One of `A` and `B` lacks a constant that drives `t`, which nobody reads. */
  lemma UnobservedMove(A: Netlist, B: Netlist, t: nat, w: World, val: Valuation)
    requires A.nexus == B.nexus && t in B.nexus && !Observed(A, t) && !IsRead(B, t)
    requires forall n, i :: n != t ==> Driven(A, w, val, n, i) == Driven(B, w, val, n, i)
    requires Settled(A, w, val)
    ensures exists val' :: Settled(B, w, val') && LooksSame(A, val, val')
  {
    hide Driven, IsRead;
    forall m | m in B.nexus && m != t ensures SettledAt(B, w, val, m) {
      assert SettledAt(A, w, val, m);
    }
    ResettleSettled(B, w, val, t);
    assert LooksSame(A, val, Resettle(B, w, val, t));
  }

  lemma SweepSameView(N: Netlist, id: nat, w: World)
    requires WellFormed(N) && SweepEnabled(N, id)
    ensures SameView(N, Sweep(N, id), w)
  {
    hide Settled, Driven, IsRead, WellFormed;
    var N', t := Sweep(N, id), N.nodes[id].out;
    SweepObserved(N, id);
    if AllZ(N.nodes[id].value) {
      forall val: Valuation
        ensures (Settled(N, w, val) <==> Settled(N', w, val)) && LooksSame(N, val, val)
      {
        SweepZ(N, id, w, val);
      }
    } else {
      Fits(N, id);
      assert t in N.nexus && !IsRead(N, t) && !IsRead(N', t);
      forall val | Settled(N, w, val) ensures exists val' :: Settled(N', w, val') && LooksSame(N, val, val') {
        forall n, i | n != t ensures Driven(N, w, val, n, i) == Driven(N', w, val, n, i) { SweepDrivers(N, id, w, val, n, i); }
        UnobservedMove(N, N', t, w, val);
      }
      forall val | Settled(N', w, val) ensures exists val' :: Settled(N, w, val') && LooksSame(N, val, val') {
        forall n, i | n != t ensures Driven(N', w, val, n, i) == Driven(N, w, val, n, i) { SweepDrivers(N, id, w, val, n, i); }
        UnobservedMove(N', N, t, w, val);
        var val' :| Settled(N, w, val') && LooksSame(N', val, val');
        assert LooksSame(N, val, val');
      }
    }
  }

  lemma SweepWellFormed(N: Netlist, id: nat)
    requires WellFormed(N)
    ensures WellFormed(Sweep(N, id))
  {
    var N' := Sweep(N, id);
    forall j | j in N'.nodes ensures NodeFits(N', N'.nodes[j]) { KeepsFitting(N, N', N'.nodes[j]); }
  }

  /** The netlists of `trace` follow from each other by sweeping single constants. */
  ghost predicate IsSweep(trace: seq<Netlist>)
  {
    && trace != []
    && forall k :: 0 <= k < |trace| - 1 ==> Sweeps(trace[k], trace[k + 1])
  }

  ghost predicate Sweeps(N: Netlist, N': Netlist)
  {
    exists id :: SweepEnabled(N, id) && N' == Sweep(N, id)
  }

  lemma MirrorsTrans(V: Netlist, A: Netlist, B: Netlist, C: Netlist, w: World)
    requires Mirrors(V, A, B, w) && Mirrors(V, B, C, w)
    ensures Mirrors(V, A, C, w)
  {
    hide Settled, Observed;
    forall val | Settled(A, w, val) ensures exists val' :: Settled(C, w, val') && LooksSame(V, val, val') {
      var val1 :| Settled(B, w, val1) && LooksSame(V, val, val1);
      var val2 :| Settled(C, w, val2) && LooksSame(V, val1, val2);
      assert LooksSame(V, val, val2);
    }
  }

  lemma MirrorsFrom(V: Netlist, V': Netlist, A: Netlist, B: Netlist, w: World)
    requires Mirrors(V, A, B, w) && forall n :: Observed(V', n) <==> Observed(V, n)
    ensures Mirrors(V', A, B, w)
  {
    hide Settled, Observed;
    forall val | Settled(A, w, val) ensures exists val' :: Settled(B, w, val') && LooksSame(V', val, val') {
      var val1 :| Settled(B, w, val1) && LooksSame(V, val, val1);
      assert LooksSame(V', val, val1);
    }
  }

  lemma SameViewTrans(N: Netlist, M: Netlist, P: Netlist, w: World)
    requires SameView(N, M, w) && SameView(M, P, w)
    ensures SameView(N, P, w)
  {
    hide Mirrors, Observed;
    MirrorsFrom(M, N, M, P, w);
    MirrorsFrom(M, N, P, M, w);
    MirrorsTrans(N, N, M, P, w);
    MirrorsTrans(N, P, M, N, w);
  }

  /** A whole sweep, of any constants in any order, shows nothing new and hides nothing. */
  lemma {:induction false} SweepKeepsView(trace: seq<Netlist>, w: World)
    requires IsSweep(trace) && WellFormed(trace[0])
    ensures WellFormed(trace[|trace| - 1]) && SameView(trace[0], trace[|trace| - 1], w)
  {
    hide WellFormed, SameView, SweepEnabled, Sweep;
    if |trace| == 1 {
      SameViewRefl(trace[0], w);
    } else {
      var last := |trace| - 1;
      var init := trace[..last];
      assert forall k :: 0 <= k < last - 1 ==> Sweeps(init[k], init[k + 1]);
      SweepKeepsView(init, w);
      var N, N' := trace[last - 1], trace[last];
      assert Sweeps(N, N');
      var id :| SweepEnabled(N, id) && N' == Sweep(N, id);
      SweepSameView(N, id, w);
      SweepWellFormed(N, id);
      SameViewTrans(trace[0], N, N', w);
    }
  }

  lemma SameViewRefl(N: Netlist, w: World)
    ensures SameView(N, N, w)
  {
    forall val: Valuation ensures LooksSame(N, val, val) {}
  }

  /** `val` and `val'` agree on the nexuses of `N` that are watched or, in `M`, still read. */
  ghost predicate ShowsSame(N: Netlist, M: Netlist, val: Valuation, val': Valuation)
  {
    forall n :: n in N.nexus && Observed(M, n) ==> At(val, n) == At(val', n)
  }

  lemma SettledKeys(N: Netlist, w: World, val: Valuation)
    requires Settled(N, w, val)
    ensures val.Keys == N.nexus.Keys
  {
  }

  lemma ForwardView(N: Netlist, M: Netlist, P: Netlist, w: World, val: Valuation)
    requires SameMeaning(N, M, w) && Mirrors(M, M, P, w) && Settled(N, w, val)
    ensures exists val' :: Settled(P, w, val') && ShowsSame(N, M, val, val')
  {
    hide Observed, Settled;
    var mid :| Settled(M, w, mid) && Restrict(mid, N.nexus.Keys) == val;
    var val' :| Settled(P, w, val') && LooksSame(M, mid, val');
    assert val.Keys == N.nexus.Keys && mid.Keys == M.nexus.Keys by { SettledKeys(N, w, val); SettledKeys(M, w, mid); }
    forall n | n in N.nexus && Observed(M, n) ensures At(val, n) == At(val', n) {
      assert val[n] == mid[n];
    }
  }

  lemma BackwardView(N: Netlist, M: Netlist, P: Netlist, w: World, val': Valuation)
    requires SameMeaning(N, M, w) && Mirrors(M, P, M, w) && Settled(P, w, val')
    ensures exists val :: Settled(N, w, val) && ShowsSame(N, M, val, val')
  {
    hide Observed, Settled;
    var mid :| Settled(M, w, mid) && LooksSame(M, val', mid);
    var val := Restrict(mid, N.nexus.Keys);
    assert Settled(N, w, val);
    assert ShowsSame(N, M, val, val');
  }

  /** The whole pass: what a settled valuation of the original shows, on every original nexus
      that is watched or still read, some settled valuation of the result shows. */
  lemma PassKeepsObservables(run: seq<Netlist>, sweep: seq<Netlist>, w: World, val: Valuation)
    requires IsSafeRun(run, w) && WellFormed(run[0]) && IsSweep(sweep) && sweep[0] == run[|run| - 1]
    requires Settled(run[0], w, val)
    ensures exists val' :: Settled(sweep[|sweep| - 1], w, val') && ShowsSame(run[0], sweep[0], val, val')
  {
    RunKeepsMeaning(run, w);
    SweepKeepsView(sweep, w);
    ForwardView(run[0], sweep[0], sweep[|sweep| - 1], w, val);
  }

  /** And conversely: what the result shows the original shows. */
  lemma PassAddsNothing(run: seq<Netlist>, sweep: seq<Netlist>, w: World, val': Valuation)
    requires IsSafeRun(run, w) && WellFormed(run[0]) && IsSweep(sweep) && sweep[0] == run[|run| - 1]
    requires Settled(sweep[|sweep| - 1], w, val')
    ensures exists val :: Settled(run[0], w, val) && ShowsSame(run[0], sweep[0], val, val')
  {
    RunKeepsMeaning(run, w);
    SweepKeepsView(sweep, w);
    BackwardView(run[0], sweep[0], sweep[|sweep| - 1], w, val');
  }
}
