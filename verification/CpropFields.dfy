/**
 What the passes ask of signals and nexuses, in terms of the fields of the signals: which
 nexuses are never constant, which constants are read, which rewrites are bound to happen and
 which constants are bound to be deleted.
 */
module CpropFields {
  import opened FourState
  import opened Netlists
  import opened CpropRules
  import opened CpropCollapse
  import opened CpropMerge
  import opened CpropSweep
  import opened CpropCache
  import opened Options

  /** A link that lets a value in from elsewhere: the target of an assign or force, a variable, or
      a plain net that is an input or inout port of the root module. */
  predicate LetsIn(s: Signal)
  {
    || s.lref
    || s.kind == KReg
    || (s.root && (s.port == PInput || s.port == PInOut) && (s.kind == KWire || s.kind == KWand || s.kind == KWor))
  }

  /** A net that pulls to 0 or to 1 by itself. */
  predicate PullsLow(s: Signal) { s.kind == KTri0 || s.kind == KSupply0 }
  predicate PullsHigh(s: Signal) { s.kind == KTri1 || s.kind == KSupply1 }

  lemma SignalFields(s: Signal)
    ensures s.FromOutside() <==> LetsIn(s)
    ensures s.Pull() <==> PullsLow(s) || PullsHigh(s)
    ensures PullsLow(s) ==> s.PullValue() == V0
    ensures PullsHigh(s) ==> s.PullValue() == V1
    ensures s.Output() <==> s.kind != KWire && s.kind != KWand && s.kind != KWor
  {
  }

  /** No constant is ever found where a tran, an assigned or forced signal, a variable or a port
      of the root module lets a value in, past any marks. */
  lemma NeverConstant(N: Netlist, vars: set<nat>, n: nat, depth: nat)
    requires n in N.nexus && (N.nexus[n].tran || exists s :: s in N.nexus[n].sigs && LetsIn(s))
    ensures ConstVec(N, n, depth) == None && Seen(N, vars, n) == None
  {
    var x := N.nexus[n];
    if !x.tran {
      var s :| s in x.sigs && LetsIn(s);
      SignalFields(s);
      assert x.External();
    }
    MaskAt(N, vars, n);
    assert Mask(N, vars).nexus[n].External();
  }

  /** Nothing lets a value in. */
  predicate Shut(x: Nexus)
  {
    !x.tran && forall s :: s in x.sigs ==> !LetsIn(s)
  }

  lemma ShutIsInside(x: Nexus)
    ensures Shut(x) <==> !x.External()
  {
    forall s | s in x.sigs ensures s.FromOutside() <==> LetsIn(s) { SignalFields(s); }
  }

  lemma SeenIsShut(N: Netlist, vars: set<nat>, n: nat)
    requires n in N.nexus
    ensures Seen(N, vars, n).Some? ==> Shut(N.nexus[n])
  {
    if !Shut(N.nexus[n]) { NeverConstant(N, vars, n, 0); }
  }

  // ----- What a net shows -----

  /** Two drivers of a net without supplies meet in the table of its kind; one that floats shows
      its pull, or 0 if it is two-state. */
  lemma NetShows(x: Nexus, a: V, b: V)
    requires !x.Has(KSupply0) && !x.Has(KSupply1) && (a != Vz || b != Vz)
    ensures x.Has(KWand) ==> x.Finish({a, b}) == Table(Wand, a, b)
    ensures !x.Has(KWand) && x.Has(KWor) ==> x.Finish({a, b}) == Table(Wor, a, b)
    ensures !x.Has(KWand) && !x.Has(KWor) ==> x.Finish({a, b}) == Table(Wire, a, b)
    ensures x.Has(KTri0) ==> x.Finish({}) == x.Finish({Vz}) == V0
    ensures !x.Has(KTri0) && x.Has(KTri1) ==> x.Finish({}) == x.Finish({Vz}) == V1
    ensures NoPull(x) ==> x.Finish({}) == x.Finish({Vz}) == if exists s :: s in x.sigs && s.twoState then V0 else Vz
  {
    var k := x.Wiring();
    ResolveListIsResolve(k, [a, b]);
    assert Elements([a, b]) == {a, b} && [a, b][1..] == [b] && [b][1..] == [];
    assert ResolveList(k, [b]) == b;
    ResolveOne(k, Vz);
  }

  // ----- Which constants are read -----

  /** No signal pulls the net. */
  predicate NoPull(x: Nexus)
  {
    forall s :: s in x.sigs ==> !PullsLow(s) && !PullsHigh(s)
  }

  lemma NoPulls(x: Nexus)
    ensures NoPull(x) <==> Pulls(x.sigs) == []
  {
    forall s | s in x.sigs ensures s.Pull() <==> PullsLow(s) || PullsHigh(s) { SignalFields(s); }
    if NoPull(x) && Pulls(x.sigs) != [] {
      assert Pulls(x.sigs)[0] in Pulls(x.sigs);
    }
    forall s | s in x.sigs && s.Pull() ensures s in Pulls(x.sigs) {}
  }

  /** Node `id` and nothing else drives the net. */
  ghost predicate DrivenOnlyBy(N: Netlist, n: nat, id: nat)
  {
    && n in N.nexus && Shut(N.nexus[n]) && NoPull(N.nexus[n])
    && id in N.nodes && N.nodes[id].out == n && forall j :: j in N.nodes && N.nodes[j].out == n ==> j == id
  }

  lemma OnlyDriver(N: Netlist, n: nat, id: nat)
    requires DrivenOnlyBy(N, n, id)
    ensures n in N.nexus && !N.nexus[n].External() && Pulls(N.nexus[n].sigs) == [] && Drivers(N, n) == {id}
  {
    ShutIsInside(N.nexus[n]);
    NoPulls(N.nexus[n]);
  }

  /** A net that one constant drives reads as that constant. */
  lemma DrivenIsConstant(N: Netlist, n: nat, id: nat)
    requires DrivenOnlyBy(N, n, id) && N.nodes[id].Const?
    ensures Constant(N, n) == Some(N.nodes[id].value)
  {
    OnlyDriver(N, n, id);
    ConstVecStep(N, n, N.next, id);
  }

  /** A net that other logic drives, alone or not, is not constant. */
  lemma LogicIsVariable(N: Netlist, n: nat, id: nat)
    requires id in N.nodes && N.nodes[id].out == n && !N.nodes[id].Const? && !N.nodes[id].Substitute?
    ensures Constant(N, n) == None
  {
    LogicOut(N, id);
    if Constant(N, n).Some? { ConstantNotLogic(N, n, N.next); }
  }

  /** The parts of a NetSubstitute, where they are constant. */
  lemma SubstitutedBits(N: Netlist, n: nat, id: nat, depth: nat, i: nat)
    requires DrivenOnlyBy(N, n, id) && N.nodes[id].Substitute? && depth > 0
    requires ConstVec(N, N.nodes[id].vec, depth - 1).Some? && ConstVec(N, N.nodes[id].part, depth - 1).Some?
    ensures ConstVec(N, n, depth).Some?
    ensures var c, v, p, base := ConstVec(N, n, depth).value, ConstVec(N, N.nodes[id].vec, depth - 1).value,
              ConstVec(N, N.nodes[id].part, depth - 1).value, N.nodes[id].base;
            && |c| == |v|
            && (i < |v| && i < base ==> c[i] == v[i])
            && (base <= i < |v| && i < base + |p| ==> c[i] == p[i - base])
            && (i < |v| && i >= base + |p| ==> c[i] == v[i])
  {
    OnlyDriver(N, n, id);
    ConstVecStep(N, n, depth, id);
  }

  /** Link `k` pulls the net to `v`, and no other link pulls it. */
  predicate PullsAlone(sigs: seq<Signal>, k: nat, v: V)
  {
    && k < |sigs| && (if v == V0 then PullsLow(sigs[k]) else v == V1 && PullsHigh(sigs[k]))
    && forall j :: 0 <= j < |sigs| && j != k ==> !PullsLow(sigs[j]) && !PullsHigh(sigs[j])
  }

  ghost predicate OnePull(sigs: seq<Signal>, v: V)
  {
    exists k :: PullsAlone(sigs, k, v)
  }

  lemma {:induction false} PullAt(sigs: seq<Signal>, k: nat, v: V)
    requires PullsAlone(sigs, k, v)
    ensures Pulls(sigs) == [sigs[k]] && sigs[k].PullValue() == v
  {
    SignalFields(sigs[k]);
    if k == 0 {
      forall s | s in sigs[1..] ensures !s.Pull() { SignalFields(s); }
      if Pulls(sigs[1..]) != [] { assert Pulls(sigs[1..])[0] in Pulls(sigs[1..]); }
    } else {
      SignalFields(sigs[0]);
      PullAt(sigs[1..], k - 1, v);
    }
  }

  lemma {:induction false} PullFound(sigs: seq<Signal>)
    requires |Pulls(sigs)| == 1
    ensures OnePull(sigs, Pulls(sigs)[0].PullValue())
  {
    SignalFields(sigs[0]);
    if sigs[0].Pull() {
      NonePulls(sigs[1..]);
      assert PullsAlone(sigs, 0, sigs[0].PullValue());
    } else {
      PullFound(sigs[1..]);
      var v := Pulls(sigs)[0].PullValue();
      var k :| PullsAlone(sigs[1..], k, v);
      PullsLater(sigs, k, v);
    }
  }

  lemma PullsLater(sigs: seq<Signal>, k: nat, v: V)
    requires sigs != [] && !PullsLow(sigs[0]) && !PullsHigh(sigs[0]) && PullsAlone(sigs[1..], k, v)
    ensures PullsAlone(sigs, k + 1, v)
  {
    forall j | 1 <= j < |sigs| ensures sigs[j] == sigs[1..][j - 1] {}
  }

  lemma NonePulls(sigs: seq<Signal>)
    requires Pulls(sigs) == []
    ensures forall j :: 0 <= j < |sigs| ==> !PullsLow(sigs[j]) && !PullsHigh(sigs[j])
  {
    forall j | 0 <= j < |sigs| ensures !PullsLow(sigs[j]) && !PullsHigh(sigs[j]) {
      SignalFields(sigs[j]);
      assert sigs[j] in sigs;
    }
  }

  /** Net `n` is held at `v`: by one constant, by one pull, or, at z, by nothing. */
  ghost predicate Held(N: Netlist, n: nat, v: Vec)
  {
    || (exists c :: DrivenOnlyBy(N, n, c) && N.nodes[c] == Const(n, v))
    || (n in N.nexus && Shut(N.nexus[n]) && (forall id :: id in N.nodes ==> N.nodes[id].out != n)
        && ((NoPull(N.nexus[n]) && v == Fill(Vz, N.nexus[n].width))
            || exists b :: OnePull(N.nexus[n].sigs, b) && v == Fill(b, N.nexus[n].width)))
  }

  ghost predicate NoSubstituteDrives(N: Netlist, n: nat)
  {
    forall id :: id in N.nodes && N.nodes[id].out == n ==> !N.nodes[id].Substitute?
  }

  lemma HeldIsRead(N: Netlist, n: nat, v: Vec)
    requires Held(N, n, v)
    ensures Constant(N, n) == Some(v) && NoSubstituteDrives(N, n)
  {
    if c :| DrivenOnlyBy(N, n, c) && N.nodes[c] == Const(n, v) {
      hide Held, Shut, NoPull;
      DrivenIsConstant(N, n, c);
    } else {
      var x := N.nexus[n];
      ShutIsInside(x);
      NoPulls(x);
      assert Drivers(N, n) == {};
      if b :| OnePull(x.sigs, b) && v == Fill(b, x.width) {
        var k :| PullsAlone(x.sigs, k, b);
        PullAt(x.sigs, k, b);
      }
    }
  }

  lemma ReadIsHeld(N: Netlist, n: nat)
    requires WellFormed(N) && Constant(N, n).Some? && NoSubstituteDrives(N, n)
    ensures Held(N, n, Constant(N, n).value)
  {
    var x := N.nexus[n];
    ShutIsInside(x);
    NoPulls(x);
    if Drivers(N, n) == {} {
      forall id | id in N.nodes ensures N.nodes[id].out != n { assert id !in Drivers(N, n); }
      if |Pulls(x.sigs)| == 1 { PullFound(x.sigs); }
    } else {
      var c := ConstVecDriver(N, n, N.next);
      forall j | j in N.nodes && N.nodes[j].out == n ensures j == c { assert j in Drivers(N, n); }
      assert DrivenOnlyBy(N, n, c);
    }
  }

  /** What is read as a constant, where no NetSubstitute is in the way, by the fields. */
  lemma ReadIff(N: Netlist, n: nat, v: Vec)
    requires WellFormed(N) && NoSubstituteDrives(N, n)
    ensures Constant(N, n) == Some(v) <==> Held(N, n, v)
  {
    if Held(N, n, v) { HeldIsRead(N, n, v); }
    if Constant(N, n) == Some(v) { ReadIsHeld(N, n); }
  }

  // ----- Rewrites that are bound to happen -----

  lemma HeldWidth(N: Netlist, n: nat, v: Vec)
    requires WellFormed(N) && Held(N, n, v)
    ensures |v| == Width(N, n)
  {
    if c :| DrivenOnlyBy(N, n, c) && N.nodes[c] == Const(n, v) { Fits(N, c); }
  }

  lemma ConstBitIff(N: Netlist, n: nat, v: V)
    requires WellFormed(N) && Width(N, n) == 1 && (v == V0 || v == V1)
    ensures ConstBit(N, n) == v <==> Held(N, n, [v])
  {
    if Held(N, n, [v]) {
      HeldIsRead(N, n, [v]);
    }
    if ConstBit(N, n) == v {
      forall id | id in N.nodes && N.nodes[id].out == n ensures !N.nodes[id].Substitute? { assert id in Drivers(N, n); }
      ReadIsHeld(N, n);
      HeldWidth(N, n, Constant(N, n).value);
      assert Constant(N, n).value == [v];
    }
  }

  /** Which muxes become buffers, and of which input. */
  lemma MuxIff(N: Netlist, id: nat)
    requires WellFormed(N)
    ensures MuxEnabled(N, id) <==>
      && id in N.nodes && N.nodes[id].Mux? && |N.nodes[id].data| == 2 && Width(N, N.nodes[id].sel) == 1
      && (Held(N, N.nodes[id].sel, [V0]) || Held(N, N.nodes[id].sel, [V1]))
    ensures MuxEnabled(N, id) ==>
      var m := N.nodes[id];
      MuxToBuf(N, id) == N.(nodes := N.nodes[id := BufZ(m.out, if Held(N, m.sel, [V1]) then m.data[1] else m.data[0])])
  {
    hide WellFormed, Held, ConstBit;
    if id in N.nodes && N.nodes[id].Mux? && Width(N, N.nodes[id].sel) == 1 {
      ConstBitIff(N, N.nodes[id].sel, V0);
      ConstBitIff(N, N.nodes[id].sel, V1);
    }
  }

  function Flatten(vals: seq<Vec>): Vec
  {
    if vals == [] then [] else vals[0] + Flatten(vals[1..])
  }

  lemma {:induction false} JoinOfHeld(N: Netlist, ins: seq<nat>, vals: seq<Vec>)
    requires |ins| == |vals| && forall k :: 0 <= k < |ins| ==> Held(N, ins[k], vals[k])
    ensures (forall n :: n in ins ==> Constant(N, n).Some?) && ConstJoin(N, ins) == Flatten(vals)
  {
    if ins != [] {
      HeldIsRead(N, ins[0], vals[0]);
      hide ConstVec, Held;
      JoinOfHeld(N, ins[1..], vals[1..]);
    }
  }

  /** A concatenation of nets that are held at constants becomes the constants in a row. */
  lemma FoldFires(N: Netlist, id: nat, vals: seq<Vec>)
    requires id in N.nodes && N.nodes[id].Concat? && !N.nodes[id].transparent && |vals| == |N.nodes[id].ins|
    requires forall k :: 0 <= k < |vals| ==> Held(N, N.nodes[id].ins[k], vals[k])
    ensures FoldEnabled(N, id) && Fold(N, id).nodes[id] == Const(N.nodes[id].out, Flatten(vals))
  {
    JoinOfHeld(N, N.nodes[id].ins, vals);
    hide ConstVec, Held;
  }

  /** Which concatenations are folded, where no NetSubstitute drives an operand. */
  lemma FoldIff(N: Netlist, id: nat)
    requires WellFormed(N) && id in N.nodes && N.nodes[id].Concat?
    requires forall n :: n in N.nodes[id].ins ==> NoSubstituteDrives(N, n)
    ensures FoldEnabled(N, id) <==> !N.nodes[id].transparent && forall n :: n in N.nodes[id].ins ==> exists v :: Held(N, n, v)
  {
    forall n | n in N.nodes[id].ins ensures Constant(N, n).Some? <==> exists v :: Held(N, n, v) {
      if Constant(N, n).Some? { ReadIsHeld(N, n); }
      if v :| Held(N, n, v) { HeldIsRead(N, n, v); }
    }
    hide Constant, Held, WellFormed;
  }

  /** Which nets are merged: plain nets that only part selects drive, two or more, or one if the
      net is two-state; the selects end inside the net and lie one beside the other. */
  lemma MergeFires(N: Netlist, t: nat)
    requires WellFormed(N) && t in N.nexus
    ensures MergeEnabled(N, t) <==>
      && (forall s :: s in N.nexus[t].sigs ==> s.kind == KWire || s.kind == KWand || s.kind == KWor)
      && (forall a :: a in Drivers(N, t) ==> N.nodes[a].PartPV? && N.nodes[a].base + N.nodes[a].wid <= N.nexus[t].width)
      && (forall a, b :: a in Drivers(N, t) && b in Drivers(N, t) && a != b ==>
            Beside(N.nodes[a], N.nodes[b]) || Beside(N.nodes[b], N.nodes[a]))
      && (|Drivers(N, t)| > 1 || (|Drivers(N, t)| == 1 && exists s :: s in N.nexus[t].sigs && s.twoState))
  {
    forall a | a in Drivers(N, t) && N.nodes[a].PartPV? ensures N.nodes[a].wid > 0 { Fits(N, a); }
    hide WellFormed;
    if OnlyPV(N, t) {
      forall a, b | a in Drivers(N, t) && b in Drivers(N, t) && a != b
        ensures (forall i :: PartOf(N, a).Covers(i) ==> !PartOf(N, b).Covers(i)) <==> Beside(N.nodes[a], N.nodes[b]) || Beside(N.nodes[b], N.nodes[a])
      {
        BesideMeans(PartOf(N, a), PartOf(N, b));
      }
    }
  }

  /** Part select `a` ends before `b` begins. */
  predicate Beside(a: Node, b: Node)
  {
    a.PartPV? && b.PartPV? && a.base + a.wid <= b.base
  }

  lemma BesideMeans(p: Part, q: Part)
    requires p.wid > 0 && q.wid > 0
    ensures (forall i :: p.Covers(i) ==> !q.Covers(i)) <==> p.base + p.wid <= q.base || q.base + q.wid <= p.base
  {
    if p.base <= q.base { assert q.Covers(q.base); } else { assert p.Covers(p.base); }
  }

  // ----- Constants that are deleted -----

  /** A constant is deleted if and only if it is all z, or no node reads its net and every signal
      of the net is local, is read by no expression, and is no port of the root module. */
  lemma SweepFires(N: Netlist, id: nat)
    requires id in N.nodes && N.nodes[id].Const? && N.nodes[id].out in N.nexus
    ensures SweepEnabled(N, id) <==>
      || (forall i :: 0 <= i < |N.nodes[id].value| ==> N.nodes[id].value[i] == Vz)
      || ((forall j :: j in N.nodes ==> N.nodes[id].out !in Reads(N.nodes[j]))
          && forall s :: s in N.nexus[N.nodes[id].out].sigs ==> s.local && !s.eref && (s.port == NotAPort || !s.root))
  {
    forall s: Signal ensures s.Watched() <==> !(s.local && !s.eref && (s.port == NotAPort || !s.root)) {}
  }

  /** Deleting one constant makes no difference to the others. */
  lemma SweepAlone(N: Netlist, id: nat, other: nat)
    requires id in N.nodes && N.nodes[id].Const? && other != id
    ensures SweepEnabled(Sweep(N, id), other) <==> SweepEnabled(N, other)
  {
    SweepObserved(N, id);
    hide Observed;
  }

  /** The nexuses that a node reads are those on its input pins. */
  lemma ReadsPins(node: Node, n: nat)
    ensures n in Reads(node) <==>
      || (node.Concat? && n in node.ins) || (node.Gate? && n in node.ins)
      || (node.Mux? && (n == node.sel || n in node.data))
      || ((node.PartPV? || node.PartVP? || node.BufZ?) && n == node.src)
      || (node.Substitute? && (n == node.vec || n == node.part))
  {
  }
}
