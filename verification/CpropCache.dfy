/**
 The guess that a nexus keeps about what drives it (Nexus::driven_). A nexus once found not
 constant stays marked so until one of its own drivers is linked or unlinked, even when a
 constant reaches it later through a NetSubstitute.
 */
module CpropCache {
  import opened FourState
  import opened Netlists
  import opened CpropRules
  import opened Options

  /** VAR, or the bit that the nexus is constantly at; no entry stands for NO_GUESS. */
  datatype Guess = Var | Known(v: V)

  type Cache = map<nat, Guess>

  function Vars(c: Cache): set<nat>
  {
    set n | n in c && c[n].Var?
  }

  /** The netlist as seen past the marks: a marked nexus passes for one driven from elsewhere. */
  function Mask(N: Netlist, vars: set<nat>): Netlist
  {
    N.(nexus := map n | n in N.nexus :: if n in vars then N.nexus[n].(tran := true) else N.nexus[n])
  }

  /** The constant that is found at nexus `n` when the nexuses `vars` are marked. */
  ghost function Seen(N: Netlist, vars: set<nat>, n: nat): Option<Vec>
  {
    ConstVec(Mask(N, vars), n, N.next)
  }

  ghost predicate BySubstitute(N: Netlist, n: nat)
  {
    exists id :: id in Drivers(N, n) && N.nodes[id].Substitute?
  }

  /** No cycle of substitutions: each has a higher level than what it reads. */
  ghost predicate Leveled(N: Netlist, level: nat -> nat)
  {
    forall id :: id in N.nodes && N.nodes[id].Substitute? ==>
      && level(N.nodes[id].vec) < level(N.nodes[id].out) && level(N.nodes[id].part) < level(N.nodes[id].out)
      && level(N.nodes[id].out) <= N.next
  }

  // ----- The depth of reading -----

  /** One step of reading a constant. */
  lemma ConstVecStep(N: Netlist, n: nat, depth: nat, id: nat)
    requires n in N.nexus && !N.nexus[n].External() && Pulls(N.nexus[n].sigs) == [] && Drivers(N, n) == {id}
    ensures id in N.nodes
    ensures N.nodes[id].Const? ==> ConstVec(N, n, depth) == Some(N.nodes[id].value)
    ensures N.nodes[id].Substitute? && depth > 0 ==>
      var v, p := ConstVec(N, N.nodes[id].vec, depth - 1), ConstVec(N, N.nodes[id].part, depth - 1);
      ConstVec(N, n, depth) == if v.Some? && p.Some? then Some(Patch(v.value, p.value, N.nodes[id].base)) else None
    ensures !N.nodes[id].Const? && !N.nodes[id].Substitute? ==> ConstVec(N, n, depth) == None
  {
    assert id in Drivers(N, n);
    assert forall j :: j in Drivers(N, n) ==> j == id;
  }

  /** Without a sole driver the depth does not matter. */
  lemma ConstVecFlat(N: Netlist, n: nat, d: nat, d': nat)
    requires n !in N.nexus || N.nexus[n].External() || |Pulls(N.nexus[n].sigs)| + |Drivers(N, n)| != 1 || Pulls(N.nexus[n].sigs) != []
    ensures ConstVec(N, n, d) == ConstVec(N, n, d')
  {
    if n in N.nexus && |Pulls(N.nexus[n].sigs)| + |Drivers(N, n)| == 0 { assert Drivers(N, n) == {}; }
  }

  lemma Sole(N: Netlist, n: nat) returns (id: nat)
    requires n in N.nexus && |Pulls(N.nexus[n].sigs)| + |Drivers(N, n)| == 1 && Pulls(N.nexus[n].sigs) == []
    ensures Drivers(N, n) == {id} && id in N.nodes && N.nodes[id].out == n
  {
    id :| id in Drivers(N, n);
    SoleDriver(N, n, id);
  }

  /** The nexus has exactly one driver, a node. */
  ghost predicate Lone(N: Netlist, n: nat)
  {
    n in N.nexus && !N.nexus[n].External() && |Pulls(N.nexus[n].sigs)| + |Drivers(N, n)| == 1 && Pulls(N.nexus[n].sigs) == []
  }

  /** A constant found with some depth is found with any greater depth. */
  lemma {:induction false} ConstVecMore(N: Netlist, n: nat, d: nat, d': nat)
    requires d <= d' && ConstVec(N, n, d).Some?
    ensures ConstVec(N, n, d') == ConstVec(N, n, d)
    decreases d
  {
    hide ConstVec, Pulls, Drivers;
    if Lone(N, n) {
      var id := Sole(N, n);
      ConstVecStep(N, n, d, id);
      ConstVecStep(N, n, d', id);
      if N.nodes[id].Substitute? {
        SubstituteDepth(N, n, d, id);
        ConstVecMore(N, N.nodes[id].vec, d - 1, d' - 1);
        ConstVecMore(N, N.nodes[id].part, d - 1, d' - 1);
      }
    } else {
      ConstVecFlat(N, n, d, d');
    }
  }

  lemma SubstituteDepth(N: Netlist, n: nat, d: nat, id: nat)
    requires Drivers(N, n) == {id} && id in N.nodes && N.nodes[id].Substitute? && Lone(N, n) && ConstVec(N, n, d).Some?
    ensures d > 0 && ConstVec(N, N.nodes[id].vec, d - 1).Some? && ConstVec(N, N.nodes[id].part, d - 1).Some?
  {
    assert forall j :: j in Drivers(N, n) ==> j == id;
  }

  /** From the level of a nexus on the depth does not matter. */
  lemma {:induction false} ConstVecStable(N: Netlist, level: nat -> nat, n: nat, d: nat, d': nat)
    requires Leveled(N, level) && level(n) <= d && level(n) <= d'
    ensures ConstVec(N, n, d) == ConstVec(N, n, d')
    decreases d
  {
    hide ConstVec, Pulls, Drivers;
    if Lone(N, n) {
      var id := Sole(N, n);
      ConstVecStep(N, n, d, id);
      ConstVecStep(N, n, d', id);
      if N.nodes[id].Substitute? {
        ConstVecStable(N, level, N.nodes[id].vec, d - 1, d' - 1);
        ConstVecStable(N, level, N.nodes[id].part, d - 1, d' - 1);
      }
    } else {
      ConstVecFlat(N, n, d, d');
    }
  }

  // ----- Reading the same constant in another netlist -----

  ghost predicate Agrees(A: Netlist, B: Netlist, n: nat)
  {
    && n in A.nexus && n in B.nexus && B.nexus[n] == A.nexus[n] && Drivers(B, n) == Drivers(A, n)
    && forall id :: id in Drivers(A, n) ==> B.nodes[id] == A.nodes[id]
  }

  /** `B` agrees with `A` about all nexuses that are constant in `A`. */
  ghost predicate Follows(A: Netlist, B: Netlist, D: nat)
  {
    forall m :: ConstVec(A, m, D).Some? ==> Agrees(A, B, m)
  }

  lemma {:induction false} ConstVecFollows(A: Netlist, B: Netlist, n: nat, d: nat, D: nat)
    requires d <= D && Follows(A, B, D) && ConstVec(A, n, d).Some?
    ensures ConstVec(B, n, d) == ConstVec(A, n, d)
    decreases d
  {
    hide ConstVec, Pulls, Drivers;
    ConstVecMore(A, n, d, D);
    assert Agrees(A, B, n);
    if Lone(A, n) {
      var id := Sole(A, n);
      assert id in Drivers(A, n);
      ConstVecStep(A, n, d, id);
      ConstVecStep(B, n, d, id);
      if A.nodes[id].Substitute? {
        SubstituteDepth(A, n, d, id);
        ConstVecFollows(A, B, A.nodes[id].vec, d - 1, D);
        ConstVecFollows(A, B, A.nodes[id].part, d - 1, D);
      }
    } else {
      FlatAgree(A, B, n, d, d);
    }
  }

  lemma FlatAgree(A: Netlist, B: Netlist, n: nat, d: nat, d': nat)
    requires !Lone(A, n) && Agrees(A, B, n)
    ensures ConstVec(A, n, d) == ConstVec(B, n, d')
  {
    if |Pulls(A.nexus[n].sigs)| + |Drivers(A, n)| == 0 { assert Drivers(A, n) == {}; }
  }

  lemma ConstantNotLogic(N: Netlist, n: nat, d: nat)
    requires ConstVec(N, n, d).Some?
    ensures n in N.nexus && !N.nexus[n].External() && !DrivenByLogic(N, n)
  {
    if Drivers(N, n) != {} {
      var id := ConstVecDriver(N, n, d);
    }
  }

  lemma MaskAt(N: Netlist, vars: set<nat>, n: nat)
    requires n in N.nexus
    ensures n in Mask(N, vars).nexus && Drivers(Mask(N, vars), n) == Drivers(N, n) && Mask(N, vars).nodes == N.nodes
    ensures n in vars ==> Mask(N, vars).nexus[n].External()
    ensures n !in vars ==> Mask(N, vars).nexus[n] == N.nexus[n]
    ensures Mask(N, vars).nexus[n].sigs == N.nexus[n].sigs
  {
  }

  /** Fewer marks show no less. */
  lemma SeenFewer(N: Netlist, vars: set<nat>, fewer: set<nat>, n: nat)
    requires fewer <= vars && Seen(N, vars, n).Some?
    ensures Seen(N, fewer, n) == Seen(N, vars, n)
  {
    var A, B := Mask(N, vars), Mask(N, fewer);
    forall m | ConstVec(A, m, N.next).Some? ensures Agrees(A, B, m) {
      ConstantNotLogic(A, m, N.next);
      MaskAt(N, vars, m);
      MaskAt(N, fewer, m);
    }
    hide ConstVec, Mask;
    ConstVecFollows(A, B, n, N.next, N.next);
  }

  /** What is seen past any marks is the constant. */
  lemma SeenIsConstant(N: Netlist, vars: set<nat>, n: nat)
    requires Seen(N, vars, n).Some?
    ensures Seen(N, vars, n) == Constant(N, n)
  {
    hide ConstVec;
    SeenFewer(N, vars, {}, n);
    assert Mask(N, {}) == N;
  }

  // ----- Looking leaves marks -----

  /** The cache has grown: entries stay, and what is newly marked was not seen as constant. */
  ghost predicate Looked(N: Netlist, c: Cache, c': Cache)
  {
    && (forall n :: n in c ==> n in c' && c'[n] == c[n])
    && forall n :: n in Vars(c') && n !in Vars(c) ==> Seen(N, Vars(c), n).None?
  }

  lemma LookedVars(N: Netlist, c: Cache, c': Cache)
    requires Looked(N, c, c')
    ensures Vars(c) <= Vars(c')
  {
    hide Seen;
  }

  /** So looking changes nothing about what is seen. */
  lemma SeenSame(N: Netlist, c: Cache, c': Cache, n: nat)
    requires Looked(N, c, c')
    ensures Seen(N, Vars(c'), n) == Seen(N, Vars(c), n)
  {
    var V, V' := Vars(c), Vars(c');
    LookedVars(N, c, c');
    if Seen(N, V', n).Some? { SeenFewer(N, V', V, n); }
    if Seen(N, V, n).Some? {
      var A, B := Mask(N, V), Mask(N, V');
      forall m | ConstVec(A, m, N.next).Some? ensures Agrees(A, B, m) {
        ConstantNotLogic(A, m, N.next);
        MaskAt(N, V, m);
        MaskAt(N, V', m);
        assert Seen(N, V, m).Some? && m !in V;
      }
      hide ConstVec, Mask;
      ConstVecFollows(A, B, n, N.next, N.next);
    }
  }

  lemma LookedTrans(N: Netlist, a: Cache, b: Cache, c: Cache)
    requires Looked(N, a, b) && Looked(N, b, c)
    ensures Looked(N, a, c)
  {
    hide Seen;
    forall n | n in Vars(c) && n !in Vars(a) ensures Seen(N, Vars(a), n).None? {
      SeenSame(N, a, b, n);
    }
  }

  // ----- Deciding one nexus -----

  /** Driver `id` lets the nexus pass for constant. */
  ghost predicate Passes(N: Netlist, vars: set<nat>, node: Node)
  {
    node.Const? || (node.Substitute? && Seen(N, vars, node.vec).Some? && Seen(N, vars, node.part).Some?)
  }

  /** What the scan of the links of nexus `n` finds out. */
  ghost predicate LooksConstant(N: Netlist, vars: set<nat>, n: nat)
  {
    && n in N.nexus && n !in vars && !N.nexus[n].External()
    && |Pulls(N.nexus[n].sigs)| + |Drivers(N, n)| <= 1
    && forall id :: id in Drivers(N, n) ==> Passes(N, vars, N.nodes[id])
  }

  lemma SeenIff(N: Netlist, level: nat -> nat, vars: set<nat>, n: nat)
    requires Leveled(N, level)
    ensures Seen(N, vars, n).Some? <==> LooksConstant(N, vars, n)
  {
    if n in N.nexus && n !in vars {
      var M := Mask(N, vars);
      MaskAt(N, vars, n);
      if Lone(M, n) {
        var id := Sole(M, n);
        hide Seen, Pulls, Drivers, Mask, Passes;
        SeenLone(N, level, vars, n, id);
        assert forall j :: j in Drivers(N, n) <==> j == id;
      } else {
        hide ConstVec, Pulls, Drivers, Mask;
        FlatConstant(M, n, N.next);
      }
    } else {
      Unseen(N, vars, n);
    }
  }

  lemma SeenLone(N: Netlist, level: nat -> nat, vars: set<nat>, n: nat, id: nat)
    requires Leveled(N, level) && n in N.nexus && n !in vars && Lone(Mask(N, vars), n) && Drivers(Mask(N, vars), n) == {id}
    ensures id in N.nodes && (Seen(N, vars, n).Some? <==> Passes(N, vars, N.nodes[id]))
  {
    var M := Mask(N, vars);
    MaskAt(N, vars, n);
    assert M.nexus[n] == N.nexus[n] && !M.nexus[n].External() && Pulls(M.nexus[n].sigs) == [];
    hide ConstVec, Pulls, Drivers, Mask, Leveled, Lone;
    ConstVecStep(M, n, N.next, id);
    assert id in Drivers(M, n);
    SubstituteOut(M, n, id);
    if N.nodes[id].Substitute? { SameDepth(N, level, vars, id); }
  }

  lemma SameDepth(N: Netlist, level: nat -> nat, vars: set<nat>, id: nat)
    requires Leveled(N, level) && id in N.nodes && N.nodes[id].Substitute?
    ensures N.next > 0
    ensures Seen(N, vars, N.nodes[id].vec) == ConstVec(Mask(N, vars), N.nodes[id].vec, N.next - 1)
    ensures Seen(N, vars, N.nodes[id].part) == ConstVec(Mask(N, vars), N.nodes[id].part, N.next - 1)
  {
    MaskLeveled(N, vars, level);
    LevelOut(N, level, id);
    hide ConstVec, Mask, Leveled;
    ConstVecStable(Mask(N, vars), level, N.nodes[id].vec, N.next, N.next - 1);
    ConstVecStable(Mask(N, vars), level, N.nodes[id].part, N.next, N.next - 1);
  }

  lemma SubstituteOut(N: Netlist, n: nat, id: nat)
    requires id in Drivers(N, n)
    ensures id in N.nodes && N.nodes[id].out == n
  {
  }

  lemma LevelOut(N: Netlist, level: nat -> nat, id: nat)
    requires Leveled(N, level) && id in N.nodes && N.nodes[id].Substitute?
    ensures level(N.nodes[id].vec) < level(N.nodes[id].out) && level(N.nodes[id].part) < level(N.nodes[id].out)
    ensures 0 < level(N.nodes[id].out) <= N.next
  {
  }

  lemma MaskLeveled(N: Netlist, vars: set<nat>, level: nat -> nat)
    requires Leveled(N, level)
    ensures Leveled(Mask(N, vars), level)
  {
  }

  lemma Unseen(N: Netlist, vars: set<nat>, n: nat)
    requires n !in N.nexus || n in vars
    ensures Seen(N, vars, n).None?
  {
    if n in N.nexus { MaskAt(N, vars, n); }
  }

  lemma FlatConstant(N: Netlist, n: nat, d: nat)
    requires n in N.nexus && !Lone(N, n)
    ensures ConstVec(N, n, d).Some? <==> !N.nexus[n].External() && |Pulls(N.nexus[n].sigs)| + |Drivers(N, n)| <= 1
    ensures ConstVec(N, n, d).Some? ==> Drivers(N, n) == {}
  {
    if |Pulls(N.nexus[n].sigs)| + |Drivers(N, n)| <= 1 && !N.nexus[n].External() { assert |Drivers(N, n)| == 0; }
  }

  // ----- What the cache can be relied on for -----

  ghost predicate KnownOk(N: Netlist, c: Cache, n: nat)
    requires n in c
  {
    c[n].Known? ==> n in N.nexus && Seen(N, Vars(c), n).Some? && (N.nexus[n].width > 0 ==> c[n].v == ConstBit(N, n))
  }

  ghost predicate VarOk(N: Netlist, c: Cache, n: nat)
    requires n in c
  {
    c[n].Var? ==> Constant(N, n).None? || BySubstitute(N, n)
  }

  /** A known bit is right. A mark is right unless a NetSubstitute drives the nexus. */
  ghost predicate CacheOk(N: Netlist, c: Cache)
  {
    forall n :: n in c ==> n in N.nexus && KnownOk(N, c, n) && VarOk(N, c, n)
  }

  /** Without a NetSubstitute and without a mark the constant is seen. */
  lemma DirectSeen(N: Netlist, vars: set<nat>, n: nat)
    requires n in N.nexus && n !in vars && !BySubstitute(N, n)
    ensures Seen(N, vars, n) == Constant(N, n)
  {
    var M := Mask(N, vars);
    MaskAt(N, vars, n);
    assert Agrees(M, N, n);
    DirectAgree(M, N, n, N.next, N.next);
  }

  lemma DirectAgree(A: Netlist, B: Netlist, n: nat, d: nat, d': nat)
    requires Agrees(A, B, n) && !BySubstitute(A, n)
    ensures ConstVec(A, n, d) == ConstVec(B, n, d')
  {
    hide ConstVec, Pulls;
    if Lone(A, n) {
      var id := Sole(A, n);
      assert id in Drivers(A, n);
      ConstVecStep(A, n, d, id);
      ConstVecStep(B, n, d', id);
    } else {
      FlatAgree(A, B, n, d, d');
    }
  }

  /** A constant that is not seen is driven by a NetSubstitute. */
  lemma StaleBySubstitute(N: Netlist, c: Cache, n: nat)
    requires CacheOk(N, c) && Constant(N, n).Some? && Seen(N, Vars(c), n).None?
    ensures BySubstitute(N, n)
  {
    hide ConstVec, Mask;
    ConstantNotLogic(N, n, N.next);
    if n !in Vars(c) && !BySubstitute(N, n) { DirectSeen(N, Vars(c), n); }
  }

  /** More entries that are right keep the cache right. */
  lemma LookedOk(N: Netlist, c: Cache, n: nat, g: Guess)
    requires CacheOk(N, c) && n in N.nexus && n !in c
    requires g.Var? ==> Seen(N, Vars(c), n).None?
    requires g.Known? ==> Seen(N, Vars(c), n).Some? && (N.nexus[n].width > 0 ==> g.v == ConstBit(N, n))
    ensures Looked(N, c, c[n := g]) && CacheOk(N, c[n := g])
  {
    var c' := c[n := g];
    hide Seen, Constant, ConstBit, BySubstitute;
    assert Looked(N, c, c');
    forall m | m in c' ensures m in N.nexus && KnownOk(N, c', m) && VarOk(N, c', m) {
      SeenSame(N, c, c', m);
      if m == n {
        if g.Var? && !BySubstitute(N, n) { DirectSeen(N, Vars(c), n); }
      } else {
        assert KnownOk(N, c, m) && VarOk(N, c, m);
      }
    }
  }

  // ----- Rewriting -----

  /** Only the drivers of `t`, logic among them, and new nexuses are touched. */
  ghost predicate Rewired(N: Netlist, N': Netlist, t: nat)
  {
    && DrivenByLogic(N, t) && N.next <= N'.next
    && forall n :: n in N.nexus ==>
         n in N'.nexus && N'.nexus[n] == N.nexus[n] && (n != t ==> Agrees(N, N', n))
  }

  lemma MaskAgrees(N: Netlist, N': Netlist, vars: set<nat>, t: nat, m: nat)
    requires Rewired(N, N', t) && m in N.nexus && m != t && m !in vars
    ensures Agrees(Mask(N, vars), Mask(N', vars - {t}), m)
  {
    assert Agrees(N, N', m);
    MaskAt(N, vars, m);
    MaskAt(N', vars - {t}, m);
    hide Mask, Drivers;
  }

  /** What was seen is still seen. */
  lemma SeenKept(N: Netlist, N': Netlist, t: nat, vars: set<nat>, n: nat)
    requires Rewired(N, N', t) && Seen(N, vars, n).Some?
    ensures Seen(N', vars - {t}, n) == Seen(N, vars, n)
  {
    var A, B := Mask(N, vars), Mask(N', vars - {t});
    forall m | ConstVec(A, m, N.next).Some? ensures Agrees(A, B, m) {
      ConstantNotLogic(A, m, N.next);
      MaskAt(N, vars, m);
      LogicMasked(N, vars, t);
      MaskAgrees(N, N', vars, t, m);
    }
    hide ConstVec, Mask, Rewired;
    ConstVecFollows(A, B, n, N.next, N.next);
    RewiredNext(N, N', t);
    ConstVecMore(B, n, N.next, N'.next);
  }

  lemma RewiredNext(N: Netlist, N': Netlist, t: nat)
    requires Rewired(N, N', t)
    ensures N.next <= N'.next
  {
  }

  lemma LogicMasked(N: Netlist, vars: set<nat>, t: nat)
    requires DrivenByLogic(N, t)
    ensures DrivenByLogic(Mask(N, vars), t)
  {
    var a :| a in Drivers(N, t) && !N.nodes[a].Const? && !N.nodes[a].Substitute?;
    assert a in Drivers(Mask(N, vars), t);
  }

  lemma BitKept(N: Netlist, N': Netlist, t: nat, n: nat)
    requires Rewired(N, N', t) && n in N.nexus && n != t && Constant(N, n).Some? && Constant(N', n) == Constant(N, n)
    ensures ConstBit(N', n) == ConstBit(N, n)
  {
    hide ConstVec;
    assert Agrees(N, N', n);
  }

  lemma SubstituteKept(N: Netlist, N': Netlist, t: nat, n: nat)
    requires Rewired(N, N', t) && n in N.nexus && n != t
    ensures BySubstitute(N', n) <==> BySubstitute(N, n)
    ensures !BySubstitute(N, n) ==> Constant(N', n) == Constant(N, n)
  {
    assert Agrees(N, N', n);
    hide ConstVec;
    if !BySubstitute(N, n) { DirectAgree(N, N', n, N.next, N'.next); }
  }

  lemma VarsWithout(c: Cache, t: nat)
    ensures Vars(c - {t}) == Vars(c) - {t}
  {
  }

  /** Forgetting the guess about the rewired nexus keeps the cache right. */
  lemma CacheKept(N: Netlist, N': Netlist, t: nat, c: Cache)
    requires CacheOk(N, c) && Rewired(N, N', t)
    ensures CacheOk(N', c - {t})
  {
    var c' := c - {t};
    VarsWithout(c, t);
    assert forall n :: n in N.nexus ==> n in N'.nexus && N'.nexus[n] == N.nexus[n];
    hide ConstVec, Rewired, ConstBit, BySubstitute, Mask;
    forall n | n in c' ensures n in N'.nexus && KnownOk(N', c', n) && VarOk(N', c', n) {
      assert n in c && KnownOk(N, c, n) && VarOk(N, c, n);
      SubstituteKept(N, N', t, n);
      if c[n].Known? {
        SeenKept(N, N', t, Vars(c), n);
        SeenIsConstant(N, Vars(c), n);
        SeenIsConstant(N', Vars(c'), n);
        BitKept(N, N', t, n);
      }
    }
  }
}
