/**
 What the pass can do at a node with the guesses that the nexuses keep, what a visit and a
 scan leave behind, and when the pass misses nothing.
 */
module CpropVisit {
  import opened FourState
  import opened Netlists
  import opened CpropRules
  import opened CpropCollapse
  import opened CpropMerge
  import opened CpropMergeProof
  import opened CpropRun
  import opened CpropSweep
  import opened CpropCache
  import opened CpropBuild
  import opened Options

  /** A mux or a part select that the functor will rewrite when it visits node `id`. */
  ghost predicate Reached(N: Netlist, id: nat)
  {
    MuxEnabled(N, id) || (id in N.nodes && N.nodes[id].PartPV? && MergeEnabled(N, N.nodes[id].out))
  }

  /** Every operand of the concatenation is seen to be constant. */
  ghost predicate FoldSeen(N: Netlist, c: Cache, id: nat)
  {
    && id in N.nodes && N.nodes[id].Concat? && !N.nodes[id].transparent
    && forall n :: n in N.nodes[id].ins ==> Seen(N, Vars(c), n).Some?
  }

  /** The visit of node `id` will rewrite the netlist. */
  ghost predicate SeenAt(N: Netlist, c: Cache, id: nat)
  {
    FoldSeen(N, c, id) || Reached(N, id)
  }

  lemma FoldSeenSame(N: Netlist, c: Cache, c': Cache, id: nat)
    requires Looked(N, c, c')
    ensures FoldSeen(N, c', id) <==> FoldSeen(N, c, id)
  {
    hide Seen, Looked;
    if id in N.nodes && N.nodes[id].Concat? {
      forall n | n in N.nodes[id].ins ensures Seen(N, Vars(c'), n) == Seen(N, Vars(c), n) { SeenSame(N, c, c', n); }
    }
  }

  /** A fold that is enabled but not seen has an operand that a NetSubstitute drives. */
  ghost predicate Blinded(N: Netlist, c: Cache, id: nat)
  {
    id in N.nodes && N.nodes[id].Concat?
    && exists n :: n in N.nodes[id].ins && BySubstitute(N, n) && Seen(N, Vars(c), n).None?
  }

  lemma UnseenIsBlinded(N: Netlist, c: Cache, id: nat)
    requires CacheOk(N, c)
    ensures FoldEnabled(N, id) && !FoldSeen(N, c, id) <==> FoldEnabled(N, id) && Blinded(N, c, id)
  {
    hide Seen, Constant, CacheOk, BySubstitute;
    if FoldEnabled(N, id) && !FoldSeen(N, c, id) {
      var n :| n in N.nodes[id].ins && Seen(N, Vars(c), n).None?;
      StaleBySubstitute(N, c, n);
    }
  }

  /** No rewrite applies anywhere. */
  ghost predicate Exhausted(N: Netlist)
  {
    forall r :: !Enabled(N, r)
  }

  /** No rewrite applies except for folds that a stale mark hides. */
  ghost predicate ExhaustedButBlinded(N: Netlist, c: Cache)
  {
    forall r :: Enabled(N, r) ==> r.DoFold? && Blinded(N, c, r.id)
  }

  /** Every rewrite shows at some node, so a scan that visits all nodes misses none. */
  lemma EnabledSomewhere(N: Netlist, r: Rewrite)
    requires Enabled(N, r)
    ensures r.DoFold? ==> r.id in N.nodes && FoldEnabled(N, r.id)
    ensures !r.DoFold? ==> exists id :: id in N.nodes && Reached(N, id)
  {
    match r
    case DoFold(id) =>
    case DoMux(id) => assert Reached(N, id);
    case DoMerge(t, _) =>
      assert |Drivers(N, t)| > 0;
      var id :| id in Drivers(N, t);
      assert Reached(N, id);
  }

  lemma ExtendRun(trace: seq<Netlist>, N': Netlist, r: Rewrite)
    requires IsRun(trace) && Enabled(trace[|trace| - 1], r) && N' == Apply(trace[|trace| - 1], r)
    ensures IsRun(trace + [N'])
  {
    hide Enabled, Apply;
    var longer := trace + [N'];
    forall k | 0 <= k < |longer| - 1 ensures Rewrites(longer[k], longer[k + 1]) {
      if k < |trace| - 1 { assert Rewrites(trace[k], trace[k + 1]); }
    }
  }

  lemma ExtendSweep(trace: seq<Netlist>, id: nat)
    requires IsSweep(trace) && SweepEnabled(trace[|trace| - 1], id)
    ensures IsSweep(trace + [Sweep(trace[|trace| - 1], id)])
  {
    var longer := trace + [Sweep(trace[|trace| - 1], id)];
    forall k | 0 <= k < |longer| - 1 ensures Sweeps(longer[k], longer[k + 1]) {
      if k < |trace| - 1 { assert Sweeps(trace[k], trace[k + 1]); }
    }
  }

  lemma {:induction false} ConstJoinAppend(N: Netlist, ins: seq<nat>, n: nat)
    requires (forall m :: m in ins ==> Constant(N, m).Some?) && Constant(N, n).Some?
    ensures forall m :: m in ins + [n] ==> Constant(N, m).Some?
    ensures ConstJoin(N, ins + [n]) == ConstJoin(N, ins) + Constant(N, n).value
  {
    hide ConstVec;
    if ins == [] {
      assert [] + [n] == [n] && [n][1..] == [];
    } else {
      assert (ins + [n])[1..] == ins[1..] + [n];
      ConstJoinAppend(N, ins[1..], n);
    }
  }

  /** What a visit leaves behind: one rewrite, counted and recorded, or nothing but marks. */
  ghost predicate Visited(enabled: bool, N: Netlist, N': Netlist, marks: Cache, marks': Cache,
                          c: nat, c': nat, run: seq<Netlist>, run': seq<Netlist>)
  {
    if enabled then Rewrites(N, N') && Rank(N') < Rank(N) && c' == c + 1 && run' == run + [N']
    else N' == N && c' == c && run' == run && Looked(N, marks, marks')
  }

  /** All guesses but the one about `t` are kept. */
  predicate Kept(c: Cache, c': Cache, t: nat)
  {
    forall m :: m in c && m != t ==> m in c' && c'[m] == c[m]
  }

  lemma LookedKept(N: Netlist, c: Cache, c': Cache)
    requires Looked(N, c, c')
    ensures forall m :: m in c ==> m in c' && c'[m] == c[m]
  {
  }

  lemma KnownRight(N: Netlist, c: Cache, n: nat)
    requires CacheOk(N, c) && n in c && c[n].Known?
    ensures n in N.nexus && (N.nexus[n].width > 0 ==> c[n].v == ConstBit(N, n))
  {
    assert KnownOk(N, c, n);
  }

  /** The bit that a single look at the links finds. */
  lemma ConstantShape(N: Netlist, vars: set<nat>, n: nat)
    requires WellFormed(N) && n in N.nexus && Seen(N, vars, n).Some? && N.nexus[n].width > 0
    ensures |Pulls(N.nexus[n].sigs)| + |Drivers(N, n)| <= 1
    ensures |Pulls(N.nexus[n].sigs)| == 1 ==> ConstBit(N, n) == Pulls(N.nexus[n].sigs)[0].PullValue()
    ensures forall id :: Drivers(N, n) == {id} && id in N.nodes && N.nodes[id].Const? ==>
              |N.nodes[id].value| > 0 && ConstBit(N, n) == N.nodes[id].value[0]
    ensures |Pulls(N.nexus[n].sigs)| == 0 && (forall id :: id in Drivers(N, n) ==> !N.nodes[id].Const?) ==> ConstBit(N, n) == Vz
  {
    SeenIsConstant(N, vars, n);
    if |Pulls(N.nexus[n].sigs)| == 1 { PullBit(N, vars, n); }
    hide Seen, WellFormed, Pulls;
    ConstVecWidth(N, n, N.next);
    if Drivers(N, n) != {} {
      var id := ConstVecDriver(N, n, N.next);
      assert forall j :: Drivers(N, n) == {j} ==> j == id;
      assert id in Drivers(N, n);
    }
    ConstantCount(N, n);
  }

  lemma ConstantCount(N: Netlist, n: nat)
    requires Constant(N, n).Some?
    ensures n in N.nexus && |Pulls(N.nexus[n].sigs)| + |Drivers(N, n)| <= 1
  {
  }

  lemma CachedVerdict(N: Netlist, c: Cache, n: nat)
    requires CacheOk(N, c) && n in c
    ensures c[n] != Var <==> Seen(N, Vars(c), n).Some?
  {
    hide Seen;
    assert KnownOk(N, c, n);
    if c[n] == Var { Unseen(N, Vars(c), n); }
  }

  lemma LookedRefl(N: Netlist, c: Cache)
    ensures Looked(N, c, c)
  {
    hide Seen;
  }

  /** The pull of a nexus that has no other driver is its constant bit. */
  lemma PullBit(N: Netlist, vars: set<nat>, n: nat)
    requires n in N.nexus && Seen(N, vars, n).Some? && |Pulls(N.nexus[n].sigs)| == 1 && N.nexus[n].width > 0
    ensures ConstBit(N, n) == Pulls(N.nexus[n].sigs)[0].PullValue()
  {
    SeenIsConstant(N, vars, n);
    hide Seen;
    assert Drivers(N, n) == {} by {
      if Drivers(N, n) != {} { var id := ConstVecDriver(N, n, N.next); }
    }
  }

  // ----- Rewrites and the cache -----

  lemma FoldRewired(N: Netlist, id: nat)
    requires WellFormed(N) && FoldEnabled(N, id)
    ensures Rewired(N, Fold(N, id), N.nodes[id].out)
  {
    LogicOut(N, id);
    FoldIs(N, id);
    ReplaceRewired(N, id, Folded(N, id));
  }

  lemma ReplaceRewired(N: Netlist, id: nat, node: Node)
    requires id in N.nodes && N.nodes[id].out == node.out && DrivenByLogic(N, node.out)
    ensures Rewired(N, Replace(N, id, node), node.out)
  {
    hide DrivenByLogic;
    var N' := Replace(N, id, node);
    forall n | n in N.nexus && n != node.out ensures Agrees(N, N', n) {
      assert Drivers(N', n) == Drivers(N, n) && id !in Drivers(N, n);
    }
  }

  lemma MuxRewired(N: Netlist, id: nat)
    requires WellFormed(N) && MuxEnabled(N, id)
    ensures Rewired(N, MuxToBuf(N, id), N.nodes[id].out)
  {
    LogicOut(N, id);
    hide ConstBit;
    ReplaceRewired(N, id, MuxToBuf(N, id).nodes[id]);
  }

  lemma MergeRewired(N: Netlist, t: nat, order: seq<nat>)
    requires WellFormed(N) && Mergeable(N, t, order)
    ensures Rewired(N, Merge(N, t, order), t)
  {
    assert order[0] in Drivers(N, t) && N.nodes[order[0]].PartPV?;
    assert DrivenByLogic(N, t) && t in N.nexus;
    var M := Merge(N, t, order);
    MergeNext(N, t, order);
    NamesOld(N);
    hide Merge, Mergeable, WellFormed, DrivenByLogic, PinsOf;
    forall n | n in N.nexus ensures n in M.nexus && M.nexus[n] == N.nexus[n] && (n != t ==> Agrees(N, M, n)) {
      MergeNexuses(N, t, order, n);
      MergeDrivers(N, t, order, n);
      forall j | j in Drivers(N, n) && n != t ensures M.nodes[j] == N.nodes[j] { MergeOldNodes(N, t, order, j); }
    }
  }

  lemma LeveledKept(N: Netlist, N': Netlist, level: nat -> nat)
    requires Leveled(N, level) && N.next <= N'.next
    requires forall j :: j in N'.nodes && N'.nodes[j].Substitute? ==> j in N.nodes && N.nodes[j] == N'.nodes[j]
    ensures Leveled(N', level)
  {
  }

  lemma MergeLeveled(N: Netlist, t: nat, order: seq<nat>, level: nat -> nat)
    requires WellFormed(N) && Leveled(N, level)
    ensures Leveled(Merge(N, t, order), level)
  {
    var M := Merge(N, t, order);
    MergeNext(N, t, order);
    hide Merge, WellFormed, Leveled, PinsOf;
    forall j | j in M.nodes && M.nodes[j].Substitute? ensures j in N.nodes && N.nodes[j] == M.nodes[j] {
      if j < N.next { MergeOldNodes(N, t, order, j); } else { MergeNewNodes(N, t, order, j); }
    }
    LeveledKept(N, M, level);
  }

  /** How far a scan has come: what it did so far, and which nodes it has still to visit. */
  ghost predicate Scanned(N0: Netlist, c0: Cache, run0: seq<Netlist>, N: Netlist, c: Cache, run: seq<Netlist>, count: nat, pending: set<nat>)
  {
    && pending <= N.nodes.Keys
    && |run| == |run0| + count && run[..|run0|] == run0 && Rank(N) + count <= Rank(N0)
    && (count == 0 ==> N == N0 && Looked(N, c0, c) && forall id :: id in N.nodes && id !in pending ==> !SeenAt(N, c0, id))
    && (count > 0 ==> exists id :: id in N0.nodes && SeenAt(N0, c0, id))
  }

  lemma ScanStarts(N: Netlist, c: Cache, run: seq<Netlist>)
    ensures Scanned(N, c, run, N, c, run, 0, N.nodes.Keys)
  {
    hide Rank, SeenAt;
    LookedRefl(N, c);
  }

  lemma ScannedPending(N0: Netlist, c0: Cache, run0: seq<Netlist>, N: Netlist, c: Cache, run: seq<Netlist>, count: nat, pending: set<nat>)
    requires Scanned(N0, c0, run0, N, c, run, count, pending)
    ensures pending <= N.nodes.Keys
  {
  }

  lemma ScanStep(N0: Netlist, c0: Cache, run0: seq<Netlist>, N: Netlist, c: Cache, run: seq<Netlist>, n: nat,
                 N': Netlist, c': Cache, run': seq<Netlist>, n': nat, pending: set<nat>, id: nat, reached: set<nat>)
    requires Scanned(N0, c0, run0, N, c, run, n, pending) && id in pending
    requires Visited(SeenAt(N, c, id), N, N', c, c', n, n', run, run')
    requires reached <= N'.nodes.Keys - N.nodes.Keys
    ensures Scanned(N0, c0, run0, N', c', run', n', (pending - {id}) * N'.nodes.Keys + reached)
    ensures Rank(N') < Rank(N) || (N' == N && |(pending - {id}) * N'.nodes.Keys + reached| < |pending|)
  {
    hide SeenAt, Rank, Looked, Rewrites, Scanned;
    if SeenAt(N, c, id) {
      ScanRewrote(N0, c0, run0, N, c, run, n, N', c', pending, id, (pending - {id}) * N'.nodes.Keys + reached);
    } else {
      assert reached == {};
      assert (pending - {id}) * N'.nodes.Keys + reached == pending - {id} by {
        ScannedPending(N0, c0, run0, N, c, run, n, pending);
      }
      assert |pending - {id}| < |pending|;
      ScanPassed(N0, c0, run0, N, c, run, n, c', pending, id);
    }
  }

  lemma ScanRewrote(N0: Netlist, c0: Cache, run0: seq<Netlist>, N: Netlist, c: Cache, run: seq<Netlist>, n: nat,
                    N': Netlist, c': Cache, pending: set<nat>, id: nat, pending': set<nat>)
    requires Scanned(N0, c0, run0, N, c, run, n, pending) && id in pending && SeenAt(N, c, id)
    requires Rank(N') < Rank(N) && pending' <= N'.nodes.Keys
    ensures Scanned(N0, c0, run0, N', c', run + [N'], n + 1, pending')
  {
    hide SeenAt, Rank, Looked;
    if n == 0 { SeenAtSame(N, c0, c, id); }
    assert (run + [N'])[..|run0|] == run[..|run0|];
  }

  lemma ScanPassed(N0: Netlist, c0: Cache, run0: seq<Netlist>, N: Netlist, c: Cache, run: seq<Netlist>, n: nat,
                   c': Cache, pending: set<nat>, id: nat)
    requires Scanned(N0, c0, run0, N, c, run, n, pending) && id in pending && !SeenAt(N, c, id) && Looked(N, c, c')
    ensures Scanned(N0, c0, run0, N, c', run, n, pending - {id})
  {
    hide SeenAt, Rank, Looked;
    if n == 0 {
      SeenAtSame(N, c0, c, id);
      LookedTrans(N, c0, c, c');
    }
  }

  lemma ScanEnds(N0: Netlist, c0: Cache, run0: seq<Netlist>, N: Netlist, c: Cache, run: seq<Netlist>, count: nat)
    requires Scanned(N0, c0, run0, N, c, run, count, {})
    ensures |run| == |run0| + count && run[..|run0|] == run0 && Rank(N) + count <= Rank(N0)
    ensures count == 0 ==> N == N0 && Looked(N, c0, c)
    ensures count == 0 <==> forall id :: id in N0.nodes ==> !SeenAt(N0, c0, id)
  {
    hide SeenAt, Rank, Looked;
  }

  lemma SeenAtSame(N: Netlist, c: Cache, c': Cache, id: nat)
    requires Looked(N, c, c')
    ensures SeenAt(N, c', id) <==> SeenAt(N, c, id)
  {
    hide FoldSeen, Reached;
    FoldSeenSame(N, c, c', id);
  }

  /** A mux select that a defined constant drives is seen, marked nexuses or not. */
  lemma SelectSeen(N: Netlist, c: Cache, n: nat)
    requires CacheOk(N, c) && n in N.nexus
    ensures ConstBit(N, n) != Vz ==> Seen(N, Vars(c), n).Some?
  {
    if ConstBit(N, n) != Vz && Seen(N, Vars(c), n).None? { StaleBySubstitute(N, c, n); }
  }

  /** When no visit can do anything, only folds with a hidden operand are left. */
  lemma UnseenExhausted(N: Netlist, c: Cache)
    requires CacheOk(N, c) && forall id :: id in N.nodes ==> !SeenAt(N, c, id)
    ensures ExhaustedButBlinded(N, c)
  {
    hide CacheOk, FoldSeen, Reached, Blinded, FoldEnabled;
    forall r | Enabled(N, r) ensures r.DoFold? && Blinded(N, c, r.id) {
      EnabledSomewhere(N, r);
      if r.DoFold? { UnseenIsBlinded(N, c, r.id); }
    }
  }

  // ----- Netlists on which the pass misses nothing -----

  /** No concatenation, and no part select that a merge could make one of, reads a nexus that a
      NetSubstitute drives. */
  ghost predicate ReadsNoSubstitute(N: Netlist)
  {
    forall id, n :: id in N.nodes && (N.nodes[id].Concat? || N.nodes[id].PartPV?) && n in Reads(N.nodes[id]) ==>
      !BySubstitute(N, n)
  }

  lemma NotBlinded(N: Netlist, c: Cache)
    requires ReadsNoSubstitute(N) && ExhaustedButBlinded(N, c)
    ensures Exhausted(N)
  {
    hide Enabled, BySubstitute, Seen;
    forall id, n | id in N.nodes && N.nodes[id].Concat? && n in N.nodes[id].ins ensures !BySubstitute(N, n) {
      assert n in Reads(N.nodes[id]);
    }
  }

  lemma NoSubstituteReplace(N: Netlist, id: nat, node: Node)
    requires ReadsNoSubstitute(N) && id in N.nodes && N.nodes[id].out == node.out
    requires !node.Concat? && !node.PartPV? && !node.Substitute? && !N.nodes[id].Substitute?
    ensures ReadsNoSubstitute(Replace(N, id, node))
  {
    var N' := Replace(N, id, node);
    forall n ensures BySubstitute(N', n) ==> BySubstitute(N, n) {
      if BySubstitute(N', n) {
        var j :| j in Drivers(N', n) && N'.nodes[j].Substitute?;
        assert j in Drivers(N, n);
      }
    }
  }

  lemma NoSubstituteMerge(N: Netlist, t: nat, order: seq<nat>)
    requires WellFormed(N) && ReadsNoSubstitute(N) && Mergeable(N, t, order)
    ensures ReadsNoSubstitute(Merge(N, t, order))
  {
    var M := Merge(N, t, order);
    hide Merge, PinsOf;
    forall id, n | id in M.nodes && (M.nodes[id].Concat? || M.nodes[id].PartPV?) && n in Reads(M.nodes[id])
      ensures !BySubstitute(M, n)
    {
      MergedNoSubstitute(N, t, order, n);
      if id < N.next {
        MergeOldNodes(N, t, order, id);
      } else {
        MergeNewNodes(N, t, order, id);
        var pins := PinsOf(N, t, order);
        var k :| 0 <= k < |pins| && PinNexuses(pins, N.next + 1)[k] == n;
        PinNoSubstitute(N, t, order, k);
      }
    }
  }

  lemma MergedNoSubstitute(N: Netlist, t: nat, order: seq<nat>, n: nat)
    requires WellFormed(N)
    ensures BySubstitute(Merge(N, t, order), n) ==> BySubstitute(N, n)
  {
    var M := Merge(N, t, order);
    hide Merge, WellFormed, PinsOf;
    if BySubstitute(M, n) {
      var j :| j in Drivers(M, n) && M.nodes[j].Substitute?;
      if j < N.next { MergeOldNodes(N, t, order, j); } else { MergeNewNodes(N, t, order, j); }
      assert j in Drivers(N, n);
    }
  }

  lemma PinNoSubstitute(N: Netlist, t: nat, order: seq<nat>, k: nat)
    requires WellFormed(N) && ReadsNoSubstitute(N) && Mergeable(N, t, order) && k < |PinsOf(N, t, order)|
    ensures !BySubstitute(N, PinNexuses(PinsOf(N, t, order), N.next + 1)[k])
  {
    assert OrderOf(N, t, order);
    NamesOld(N);
    hide WellFormed, Mergeable, OrderOf, PinsOf, Filler;
    var pin := PinsOf(N, t, order)[k];
    PinName(N, t, order, k);
    if pin.Src? {
      var id := PinSource(N, t, order, pin);
      assert pin.src in Reads(N.nodes[id]);
    }
  }

  lemma NoSubstituteStep(N: Netlist, r: Rewrite)
    requires WellFormed(N) && ReadsNoSubstitute(N) && Enabled(N, r)
    ensures ReadsNoSubstitute(Apply(N, r))
  {
    match r
    case DoFold(id) =>
      hide ReadsNoSubstitute, ConstVec, WellFormed;
      NoSubstituteReplace(N, id, Folded(N, id));
    case DoMux(id) =>
      hide ReadsNoSubstitute, ConstVec, WellFormed;
      NoSubstituteReplace(N, id, MuxToBuf(N, id).nodes[id]);
    case DoMerge(t, order) =>
      EnabledMergeable(N, t, order);
      NoSubstituteMerge(N, t, order);
  }

  lemma {:induction false} NoSubstituteRun(trace: seq<Netlist>)
    requires IsRun(trace) && WellFormed(trace[0]) && ReadsNoSubstitute(trace[0])
    ensures WellFormed(trace[|trace| - 1]) && ReadsNoSubstitute(trace[|trace| - 1])
  {
    hide WellFormed, ReadsNoSubstitute, Enabled, Apply;
    if |trace| > 1 {
      var last := |trace| - 1;
      var init := trace[..last];
      assert forall k :: 0 <= k < last - 1 ==> Rewrites(init[k], init[k + 1]);
      NoSubstituteRun(init);
      var N, N' := trace[last - 1], trace[last];
      assert Rewrites(N, N');
      var r :| Enabled(N, r) && N' == Apply(N, r);
      NoSubstituteStep(N, r);
      RewriteKeeps(N, r);
    }
  }

  lemma ConcatStep(N: Netlist, ins: seq<nat>, k: nat)
    requires k < |ins| && (forall n :: n in ins[..k] ==> Constant(N, n).Some?) && Constant(N, ins[k]).Some?
    ensures forall n :: n in ins[..k + 1] ==> Constant(N, n).Some?
    ensures ConstJoin(N, ins[..k + 1]) == ConstJoin(N, ins[..k]) + Constant(N, ins[k]).value
    ensures SumWidths(N, ins[..k + 1]) == SumWidths(N, ins[..k]) + Width(N, ins[k])
    ensures SumWidths(N, ins[k..]) == Width(N, ins[k]) + SumWidths(N, ins[k + 1..])
  {
    hide ConstVec;
    assert ins[..k + 1] == ins[..k] + [ins[k]];
    ConstJoinAppend(N, ins[..k], ins[k]);
    SumWidthsAppend(N, ins[..k], ins[k]);
    assert ins[k..][1..] == ins[k + 1..];
  }

  lemma {:induction false} SumWidthsAppend(N: Netlist, ins: seq<nat>, n: nat)
    ensures SumWidths(N, ins + [n]) == SumWidths(N, ins) + Width(N, n)
  {
    if ins == [] {
      assert [] + [n] == [n];
    } else {
      assert (ins + [n])[1..] == ins[1..] + [n];
      SumWidthsAppend(N, ins[1..], n);
    }
  }

  lemma NotSwept(N: Netlist, id: nat)
    requires id in N.nodes
    ensures SweepEnabled(N, id) ==> N.nodes[id].Const?
  {
  }
}
