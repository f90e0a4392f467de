/**
 The constant propagation pass as it runs: a design whose netlist the functor methods
 change in place, scanned until a scan finds nothing to do, then swept.
 */
module CpropDesign {
  import opened FourState
  import opened Netlists
  import opened CpropRules
  import opened CpropCollapse
  import opened CpropMerge
  import opened CpropMergeProof
  import opened CpropRun
  import opened CpropSweep
  import opened CpropCache
  import opened CpropBuild
  import opened CpropVisit
  import opened CpropFields
  import opened Options

  class Design {
    var net: Netlist
    var driven: Cache
    var count: nat
    ghost var trace: seq<Netlist>
    ghost const level: nat -> nat

    /** The netlist can be read and the cache relied on. */
    ghost predicate Ready()
      reads this`net, this`driven
    {
      WellFormed(net) && Leveled(net, level) && CacheOk(net, driven)
    }

    ghost predicate Valid()
      reads this`net, this`driven, this`trace
    {
      Ready() && IsRun(trace) && trace[|trace| - 1] == net
    }

    constructor (N: Netlist, c: Cache, ghost level: nat -> nat)
      requires WellFormed(N) && Leveled(N, level) && CacheOk(N, c)
      ensures Valid() && net == N && driven == c && trace == [N] && count == 0
    {
      net, driven, count, trace, this.level := N, c, 0, [N], level;
    }

    /** Record that the netlist was rewritten. */
    ghost method Record(old_: Netlist, r: Rewrite)
      requires WellFormed(old_) && IsRun(trace) && trace[|trace| - 1] == old_
      requires Enabled(old_, r) && net == Apply(old_, r)
      requires Leveled(net, level) && CacheOk(net, driven)
      modifies this`trace
      ensures Valid() && trace == old(trace) + [net] && Rewrites(old_, net) && Rank(net) < Rank(old_)
    {
      hide WellFormed, Enabled, Apply, Rank, Leveled, CacheOk;
      ExtendRun(trace, net, r);
      RewriteKeeps(old_, r);
      trace := trace + [net];
    }

    /** driven_ = VAR */
    method Mark(n: nat)
      requires Ready() && n in net.nexus && n !in driven && Seen(net, Vars(driven), n).None?
      modifies this`driven
      ensures Ready() && Looked(net, old(driven), driven) && driven == old(driven)[n := Var]
    {
      hide WellFormed, Leveled, CacheOk, Seen, Looked;
      LookedOk(net, driven, n, Var);
      driven := driven[n := Var];
    }

    /** Nexus::drivers_constant: a guess decides at once; else the links are looked at, and
        the nexus is marked when it is not constant. */
    method DriversConstant(n: nat) returns (ok: bool)
      requires Ready() && n in net.nexus
      modifies this`driven
      ensures Ready() && Looked(net, old(driven), driven)
      ensures ok <==> Seen(net, Vars(old(driven)), n).Some?
      ensures !ok ==> n in driven && driven[n] == Var
      ensures ok ==> !net.nexus[n].tran && forall s :: s in net.nexus[n].sigs ==> !LetsIn(s)
      ensures forall m :: m in driven && m !in old(driven) ==> level(m) <= level(n)
      decreases level(n), 1
    {
      hide WellFormed, Leveled, CacheOk, Seen, Looked, Pulls, Passes;
      LookedRefl(net, driven);
      SeenIsShut(net, Vars(driven), n);
      if n in driven {
        CachedVerdict(net, driven, n);
        return driven[n] != Var;
      }
      ghost var vars := Vars(driven);
      SeenIff(net, level, vars, n);
      var x := net.nexus[n];
      var outside := HasOutside(x);
      if outside {
        Mark(n);
        return false;
      }
      var pulls := PullSignals(x);
      var links := Links(net, n);
      for k := 0 to |links|
        invariant Ready() && Looked(net, old(driven), driven) && n !in driven
        invariant forall m :: m in driven && m !in old(driven) ==> level(m) <= level(n)
        invariant forall j :: 0 <= j < k ==> links[j] in net.nodes && Passes(net, vars, net.nodes[links[j]])
      {
        assert links[k] in links;
        var pass := LinkConstant(links[k], n, old(driven));
        if !pass {
          SeenSame(net, old(driven), driven, n);
          ghost var marked := driven;
          Mark(n);
          LookedTrans(net, old(driven), marked, driven);
          return false;
        }
      }
      SeenSame(net, old(driven), driven, n);
      ghost var last := driven;
      if |pulls| + |links| > 1 {
        Mark(n);
        LookedTrans(net, old(driven), last, driven);
        return false;
      }
      assert forall id :: id in Drivers(net, n) ==> Passes(net, vars, net.nodes[id]);
      if |pulls| == 1 {
        if x.width > 0 { PullBit(net, Vars(driven), n); }
        LookedOk(net, driven, n, Known(pulls[0].PullValue()));
        driven := driven[n := Known(pulls[0].PullValue())];
        LookedTrans(net, old(driven), last, driven);
      }
      ok := true;
    }

    /** What one driver says about the nexus. */
    method LinkConstant(id: nat, ghost n: nat, ghost c: Cache) returns (pass: bool)
      requires Ready() && Looked(net, c, driven) && id in net.nodes && net.nodes[id].out == n && n !in driven
      modifies this`driven
      ensures Ready() && Looked(net, c, driven) && n !in driven
      ensures pass <==> Passes(net, Vars(c), net.nodes[id])
      ensures forall m :: m in driven && m !in old(driven) ==> level(m) <= level(n)
      decreases level(n), 0
    {
      hide WellFormed, CacheOk, Seen, Looked;
      pass := false;
      if net.nodes[id].Const? {
        pass := true;
      } else if net.nodes[id].Substitute? {
        var vec, part := net.nodes[id].vec, net.nodes[id].part;
        Fits(net, id);
        SeenSame(net, c, driven, vec);
        pass := DriversConstant(vec);
        LookedTrans(net, c, old(driven), driven);
        if pass {
          ghost var between := driven;
          SeenSame(net, c, driven, part);
          pass := DriversConstant(part);
          LookedTrans(net, c, between, driven);
        }
      }
    }

    /** Nexus::driven_value of a nexus that was seen to be constant. Only a NetConst or a pull is
        looked at; the bit found is kept as the guess. */
    method DrivenValue(n: nat) returns (v: V)
      requires Ready() && n in net.nexus && net.nexus[n].width > 0 && Seen(net, Vars(driven), n).Some?
      modifies this`driven
      ensures Ready() && Looked(net, old(driven), driven)
      ensures v == ConstBit(net, n)
    {
      hide WellFormed, Leveled, CacheOk, Seen, Looked, ConstBit;
      LookedRefl(net, driven);
      if n in driven {
        CachedVerdict(net, driven, n);
        KnownRight(net, driven, n);
        return driven[n].v;
      }
      v := Vz;
      var pulls := PullSignals(net.nexus[n]);
      if |pulls| == 1 { v := pulls[0].PullValue(); }
      var links := Links(net, n);
      ConstantShape(net, Vars(driven), n);
      if |links| == 1 {
        assert links[0] in links;
        if net.nodes[links[0]].Const? { v := net.nodes[links[0]].value[0]; }
      }
      LookedOk(net, driven, n, Known(v));
      driven := driven[n := Known(v)];
    }

    /** The value of one operand, if it is seen to be constant. */
    method ReadOperand(n: nat, ghost c: Cache) returns (r: Option<Vec>)
      requires Ready() && Looked(net, c, driven) && n in net.nexus
      modifies this`driven
      ensures Ready() && Looked(net, c, driven)
      ensures r.Some? <==> Seen(net, Vars(c), n).Some?
      ensures r.Some? ==> r == Constant(net, n) && |r.value| == Width(net, n)
      ensures r.None? ==> n in Vars(driven)
    {
      hide WellFormed, Leveled, CacheOk, Seen, Looked, ConstVec;
      SeenSame(net, c, driven, n);
      var ok := DriversConstant(n);
      LookedTrans(net, c, old(driven), driven);
      if !ok { return None; }
      SeenIsConstant(net, Vars(c), n);
      ConstVecWidth(net, n, net.next);
      var val := DrivenVector(net, n, net.next);
      r := Some(val);
    }

    /** All operands in a row, if all are seen to be constant. */
    method JoinOperands(id: nat, ghost c: Cache) returns (r: Option<Vec>)
      requires Ready() && Looked(net, c, driven) && id in net.nodes && net.nodes[id].Concat? && !net.nodes[id].transparent
      modifies this`driven
      ensures Ready() && Looked(net, c, driven)
      ensures r.Some? <==> FoldSeen(net, c, id)
      ensures r.Some? ==> FoldEnabled(net, id) && r.value == ConstJoin(net, net.nodes[id].ins)
      ensures r.None? ==> exists n :: n in net.nodes[id].ins && n in Vars(driven)
    {
      hide WellFormed, Leveled, CacheOk, Seen, Looked, Constant;
      var obj := net.nodes[id];
      Fits(net, id);
      var result, off := Fill(Vz, Width(net, obj.out)), 0;
      for idx := 0 to |obj.ins|
        invariant Ready() && Looked(net, c, driven)
        invariant forall n :: n in obj.ins[..idx] ==> Seen(net, Vars(c), n).Some? && Constant(net, n).Some?
        invariant off == SumWidths(net, obj.ins[..idx]) && off + SumWidths(net, obj.ins[idx..]) == Width(net, obj.out)
        invariant |result| == Width(net, obj.out) && off <= |result|
        invariant result[..off] == ConstJoin(net, obj.ins[..idx])
      {
        var n := obj.ins[idx];
        assert n in obj.ins && n in Reads(obj);
        var tmp := ReadOperand(n, c);
        if tmp.None? { return None; }
        ConcatStep(net, obj.ins, idx);
        assert obj.ins[..idx + 1] == obj.ins[..idx] + [n];
        result := result[..off] + tmp.value + result[off + |tmp.value|..];
        off := off + |tmp.value|;
      }
      assert obj.ins[..|obj.ins|] == obj.ins;
      r := Some(result);
    }

    /** Fold a concatenation of constants into one constant. */
    method LpmConcat(id: nat)
      requires Valid() && id in net.nodes && net.nodes[id].Concat?
      modifies this
      ensures Valid()
      ensures Visited(FoldSeen(old(net), old(driven), id), old(net), net, old(driven), driven, old(count), count, old(trace), trace)
      ensures FoldSeen(old(net), old(driven), id) ==>
        FoldEnabled(old(net), id) && net == Fold(old(net), id) && Kept(old(driven), driven, old(net).nodes[id].out)
      ensures !FoldSeen(old(net), old(driven), id) && !old(net).nodes[id].transparent ==>
        exists n :: n in old(net).nodes[id].ins && n in Vars(driven)
    {
      hide WellFormed, IsRun, Leveled, CacheOk, Seen, Looked, Constant;
      var N, obj := net, net.nodes[id];
      LookedRefl(N, driven);
      if obj.transparent { return; }
      var result := JoinOperands(id, driven);
      if result.None? { return; }
      LookedKept(N, old(driven), driven);
      net := N.(nodes := N.nodes[id := Const(obj.out, result.value)]);
      count := count + 1;
      FoldRewired(N, id);
      CacheKept(N, net, obj.out, driven);
      LeveledKept(N, net, level);
      driven := driven - {obj.out};
      Record(N, DoFold(id));
    }

    /** Replace a two-way mux with a defined constant select by a buffer. */
    method LpmMux(id: nat)
      requires Valid() && id in net.nodes && net.nodes[id].Mux?
      modifies this
      ensures Valid()
      ensures Visited(MuxEnabled(old(net), id), old(net), net, old(driven), driven, old(count), count, old(trace), trace)
      ensures MuxEnabled(old(net), id) ==> net == MuxToBuf(old(net), id)
    {
      hide WellFormed, IsRun, Leveled, CacheOk, Seen, Looked, ConstBit;
      var N, obj := net, net.nodes[id];
      ghost var c := driven;
      LookedRefl(N, c);
      if |obj.data| != 2 { return; }
      if Width(N, obj.sel) != 1 { return; }
      SelectSeen(N, c, obj.sel);
      var ok := DriversConstant(obj.sel);
      if !ok { return; }
      ghost var looked := driven;
      SeenSame(N, c, driven, obj.sel);
      var selVal := DrivenValue(obj.sel);
      LookedTrans(N, c, looked, driven);
      if selVal == Vz || selVal == Vx { return; }
      net := N.(nodes := N.nodes[id := BufZ(obj.out, if selVal == V1 then obj.data[1] else obj.data[0])]);
      count := count + 1;
      MuxRewired(N, id);
      CacheKept(N, net, obj.out, driven);
      LeveledKept(N, net, level);
      driven := driven - {obj.out};
      Record(N, DoMux(id));
    }

    /** Merge the part selects that drive a net into one concatenation. */
    method LpmPartSelect(id: nat)
      requires Valid() && id in net.nodes && net.nodes[id].PartPV?
      modifies this
      ensures Valid()
      ensures Visited(MergeEnabled(old(net), old(net).nodes[id].out), old(net), net, old(driven), driven, old(count), count, old(trace), trace)
    {
      hide WellFormed, IsRun, Layout, Merge, Accepted, Leveled, CacheOk, Looked, OrderOf, MergeEnabled;
      var N, t := net, net.nodes[id].out;
      LookedRefl(N, driven);
      Fits(N, id);
      var found, twoState, order := FindParts(N, t);
      if !found { return; }
      net := BuildMerge(N, t, order, if twoState then V0 else Vz);
      count := count + 1;
      EnabledMergeable(N, t, order);
      MergeRewired(N, t, order);
      CacheKept(N, net, t, driven);
      MergeLeveled(N, t, order, level);
      driven := driven - {t};
      Record(N, DoMerge(t, order));
    }

    /** Visit one node. */
    method Visit(id: nat)
      requires Valid() && id in net.nodes
      modifies this
      ensures Valid()
      ensures Visited(SeenAt(old(net), old(driven), id), old(net), net, old(driven), driven, old(count), count, old(trace), trace)
    {
      hide WellFormed, MergeEnabled, Seen, ConstBit, Rank, Looked, Leveled, CacheOk, IsRun;
      LookedRefl(net, driven);
      match net.nodes[id] {
        case Concat(_, _, _) => LpmConcat(id);
        case Mux(_, _, _) => LpmMux(id);
        case PartPV(_, _, _, _) => LpmPartSelect(id);
        case _ =>
      }
    }

    /** One scan over the nodes, in any order. Nodes added during the scan may or may not be
        reached by it, depending on where the node list is being walked. */
    method Scan()
      requires Valid()
      modifies this
      ensures Valid()
      ensures |trace| == |old(trace)| + count && trace[..|old(trace)|] == old(trace)
      ensures Rank(net) + count <= Rank(old(net))
      ensures count == 0 ==> net == old(net) && Looked(net, old(driven), driven)
      ensures count == 0 <==> forall id :: id in old(net).nodes ==> !SeenAt(old(net), old(driven), id)
    {
      hide WellFormed, SeenAt, Rank, IsRun, Looked, Leveled, CacheOk, Scanned, Visited;
      count := 0;
      var pending := net.nodes.Keys;
      ScanStarts(net, driven, trace);
      while pending != {}
        invariant Valid() && Scanned(old(net), old(driven), old(trace), net, driven, trace, count, pending)
        decreases Rank(net), |pending|
      {
        var id :| id in pending;
        ghost var N, c, n, run := net, driven, count, trace;
        var before := net.nodes.Keys;
        ScannedPending(old(net), old(driven), old(trace), net, driven, trace, count, pending);
        Visit(id);
        var reached := AnySubset(net.nodes.Keys - before);
        ScanStep(old(net), old(driven), old(trace), N, c, run, n, net, driven, trace, count, pending, id, reached);
        pending := (pending - {id}) * net.nodes.Keys + reached;
      }
      ScanEnds(old(net), old(driven), old(trace), net, driven, trace, count);
    }

    /** Delete a constant that is all z, or that nothing can observe. */
    method LpmConst(id: nat)
      requires id in net.nodes && net.nodes[id].Const? && net.nodes[id].out in net.nexus
      modifies this`net, this`driven
      ensures net == if SweepEnabled(old(net), id) then Sweep(old(net), id) else old(net)
      ensures id !in net.nodes <==>
        var N, c := old(net), old(net).nodes[id];
        || (forall i :: 0 <= i < |c.value| ==> c.value[i] == Vz)
        || ((forall j :: j in N.nodes ==> c.out !in Reads(N.nodes[j]))
            && forall s :: s in N.nexus[c.out].sigs ==> s.local && !s.eref && (s.port == NotAPort || !s.root))
    {
      SweepFires(net, id);
      var N, obj := net, net.nodes[id];
      var zs := 0;
      for idx := 0 to |obj.value|
        invariant 0 <= zs <= idx && (zs == idx <==> forall i :: 0 <= i < idx ==> obj.value[i] == Vz)
      {
        if obj.value[idx] == Vz { zs := zs + 1; }
      }
      if zs == |obj.value| {
        net, driven := Sweep(N, id), driven - {obj.out};
        return;
      }
      var inputs := ReadBySome(N, obj.out);
      if inputs { return; }
      var sigs := N.nexus[obj.out].sigs;
      for k := 0 to |sigs|
        invariant net == N
        invariant forall j :: 0 <= j < k ==> !sigs[j].Watched()
      {
        if !sigs[k].local || sigs[k].eref || (sigs[k].port != NotAPort && sigs[k].root) {
          assert sigs[k] in sigs && sigs[k].Watched();
          return;
        }
      }
      assert !Observed(N, obj.out);
      net, driven := Sweep(N, id), driven - {obj.out};
    }

    /** The pass: scan until a scan finds nothing to do, then sweep dangling constants. */
    method Cprop() returns (scans: nat, ghost swept: seq<Netlist>, ghost marks: Cache)
      requires Valid() && trace == [net]
      modifies this
      ensures IsRun(trace) && trace[0] == old(net) && IsSweep(swept)
      ensures swept[0] == trace[|trace| - 1] && net == swept[|swept| - 1]
      ensures 1 <= scans <= Rank(old(net)) + 1
      ensures CacheOk(swept[0], marks) && ExhaustedButBlinded(swept[0], marks)
      ensures ReadsNoSubstitute(old(net)) ==> Exhausted(swept[0])
      ensures forall id :: id in net.nodes ==> !SweepEnabled(net, id)
    {
      hide WellFormed, SeenAt, Enabled, Rank, Looked, Leveled, CacheOk, ReadsNoSubstitute, IsSweep, SweepEnabled;
      scans := 0;
      ghost var N := net;
      count := 1;
      while count > 0
        invariant Valid() && trace[0] == N
        invariant count > 0 ==> scans + Rank(net) <= Rank(N)
        invariant count == 0 ==> 1 <= scans + Rank(net) <= Rank(N) + 1 && scans >= 1
        invariant count == 0 ==> forall id :: id in net.nodes ==> !SeenAt(net, driven, id)
        decreases count > 0, Rank(net)
      {
        ghost var before, known := trace, driven;
        Scan();
        assert trace[0] == trace[..|before|][0];
        if count == 0 {
          forall id | id in net.nodes ensures !SeenAt(net, driven, id) { SeenAtSame(net, known, driven, id); }
        }
        scans := scans + 1;
      }
      marks := driven;
      UnseenExhausted(net, marks);
      if ReadsNoSubstitute(N) {
        NoSubstituteRun(trace);
        NotBlinded(net, marks);
      }
      swept := SweepAll();
    }

    /** The last scan: every constant that can be deleted is deleted. */
    method SweepAll() returns (ghost swept: seq<Netlist>)
      requires WellFormed(net)
      modifies this`net, this`driven
      ensures IsSweep(swept) && swept[0] == old(net) && swept[|swept| - 1] == net && WellFormed(net)
      ensures forall id :: id in net.nodes ==> !SweepEnabled(net, id)
    {
      hide WellFormed, SweepEnabled;
      swept := [net];
      var pending := net.nodes.Keys;
      while pending != {}
        invariant WellFormed(net) && IsSweep(swept) && swept[|swept| - 1] == net && swept[0] == old(net)
        invariant pending <= net.nodes.Keys
        invariant forall id :: id in net.nodes && id !in pending ==> !SweepEnabled(net, id)
        decreases pending
      {
        var id :| id in pending;
        Fits(net, id);
        NotSwept(net, id);
        if net.nodes[id].Const? {
          ghost var M := net;
          LpmConst(id);
          if SweepEnabled(M, id) {
            ExtendSweep(swept, id);
            SweepWellFormed(M, id);
            forall other | other in net.nodes ensures SweepEnabled(net, other) <==> SweepEnabled(M, other) {
              SweepAlone(M, id, other);
            }
            swept := swept + [net];
          }
        }
        pending := pending - {id};
      }
    }
  }
}
