/**
 A netlist: nodes whose pins hang on nexuses, and the meaning of a netlist as the
 set of its settled valuations. Nexus and node names are natural numbers.
 */
module Netlists {
  import opened FourState
  import opened Options

  datatype Kind = KWire | KWand | KWor | KTri0 | KTri1 | KSupply0 | KSupply1 | KReg

  datatype Port = NotAPort | PInput | POutput | PInOut

  /** A signal (NetNet) linked to a nexus, with what the passes ask about it. */
  datatype Signal = Signal(kind: Kind, twoState: bool, lref: bool, eref: bool,
                           local: bool, port: Port, root: bool)
  {
    predicate Pull()
    {
      kind == KTri0 || kind == KTri1 || kind == KSupply0 || kind == KSupply1
    }

    function PullValue(): V
      requires Pull()
    {
      if kind == KTri0 || kind == KSupply0 then V0 else V1
    }

    /** The direction of the signal's own link is OUTPUT rather than PASSIVE. */
    predicate Output()
    {
      Pull() || kind == KReg
    }

    /** The signal can carry a value that no node of the netlist drives. */
    predicate FromOutside()
    {
      lref || kind == KReg || (!Output() && root && port != NotAPort && port != POutput)
    }

    /** Somebody outside the netlist looks at this signal. */
    predicate Watched()
    {
      !local || eref || (port != NotAPort && root)
    }
  }

  function Pulls(sigs: seq<Signal>): (r: seq<Signal>)
    ensures forall s :: s in r <==> s in sigs && s.Pull()
  {
    if sigs == [] then []
    else if sigs[0].Pull() then [sigs[0]] + Pulls(sigs[1..])
    else Pulls(sigs[1..])
  }

  datatype Nexus = Nexus(width: nat, sigs: seq<Signal>, tran: bool)
  {
    predicate Has(k: Kind) { exists s :: s in sigs && s.kind == k }

    predicate TwoState() { exists s :: s in sigs && s.twoState }

    predicate External() { tran || exists s :: s in sigs && s.FromOutside() }

    function Wiring(): Wiring
    {
      if Has(KWand) then Wand else if Has(KWor) then Wor else Wire
    }

    /** The value of a bit given everything that is driven onto it. */
    function Finish(driven: set<V>): V
    {
      if Has(KSupply0) then V0
      else if Has(KSupply1) then V1
      else
        var r := Resolve(Wiring(), driven);
        if r != Vz then r
        else if Has(KTri0) then V0
        else if Has(KTri1) then V1
        else if TwoState() then V0
        else Vz
    }
  }

  /** Every node has one output pin; a device with several outputs is several nodes. */
  datatype Node =
    | Const(out: nat, value: Vec)
    | Concat(out: nat, ins: seq<nat>, transparent: bool)
    | Mux(out: nat, sel: nat, data: seq<nat>)
    | PartPV(out: nat, src: nat, base: nat, wid: nat)
    | PartVP(out: nat, src: nat, base: nat, wid: nat)
    | BufZ(out: nat, src: nat)
    | Substitute(out: nat, vec: nat, part: nat, base: nat)
    | Gate(out: nat, op: nat, ins: seq<nat>)

  /** Names at or above `next` are unused. */
  datatype Netlist = Netlist(nodes: map<nat, Node>, nexus: map<nat, Nexus>, next: nat)

  /** What the netlist does not fix: the gates' functions and the drives from outside. */
  datatype World = World(gate: (nat, seq<Vec>) -> Vec, drive: nat -> Vec)

  type Valuation = map<nat, Vec>

  function Bit(v: Vec, i: int): V
  {
    if 0 <= i < |v| then v[i] else Vx
  }

  function At(val: Valuation, n: nat): Vec
  {
    if n in val then val[n] else []
  }

  /** The nexuses a node reads. */
  function Reads(node: Node): set<nat>
  {
    match node
    case Const(_, _) => {}
    case Concat(_, ins, _) => set n | n in ins
    case Mux(_, sel, data) => {sel} + set n | n in data
    case PartPV(_, src, _, _) => {src}
    case PartVP(_, src, _, _) => {src}
    case BufZ(_, src) => {src}
    case Substitute(_, vec, part, _) => {vec, part}
    case Gate(_, _, ins) => set n | n in ins
  }

  /** The operands of a concatenation, first operand lowest. */
  function Join(ins: seq<nat>, val: Valuation): Vec
  {
    if ins == [] then [] else At(val, ins[0]) + Join(ins[1..], val)
  }

  /** An undefined select passes the bits on which all data inputs agree. */
  function MuxBit(sel: Vec, data: seq<Vec>, i: int): V
  {
    if Defined(sel) then
      var k := ToNat(sel);
      if k < |data| then Bit(data[k], i) else Vx
    else if data != [] && forall k :: 0 <= k < |data| ==> Bit(data[k], i) == Bit(data[0], i)
      then Bit(data[0], i)
    else Vx
  }

  function Values(ns: seq<nat>, val: Valuation): (r: seq<Vec>)
    ensures |r| == |ns| && forall k :: 0 <= k < |ns| ==> r[k] == At(val, ns[k])
  {
    seq(|ns|, k requires 0 <= k < |ns| => At(val, ns[k]))
  }

  /** The value a node puts on bit `i` of its output nexus. */
  function Drive(w: World, val: Valuation, node: Node, i: int): V
  {
    match node
    case Const(_, v) => Bit(v, i)
    case Concat(_, ins, _) => Bit(Join(ins, val), i)
    case Mux(_, sel, data) => MuxBit(At(val, sel), Values(data, val), i)
    case PartPV(_, src, base, wid) =>
      if base <= i < base + wid then Bit(At(val, src), i - base) else Vz
    case PartVP(_, src, base, _) => Bit(At(val, src), base + i)
    case BufZ(_, src) => Bit(At(val, src), i)
    case Substitute(_, vec, part, base) =>
      if base <= i < base + |At(val, part)| then Bit(At(val, part), i - base) else Bit(At(val, vec), i)
    case Gate(_, op, ins) => Bit(w.gate(op, Values(ins, val)), i)
  }

  function Drivers(N: Netlist, n: nat): set<nat>
  {
    set id | id in N.nodes && N.nodes[id].out == n
  }

  function Outside(N: Netlist, w: World, n: nat, i: int): set<V>
  {
    if n in N.nexus && N.nexus[n].External() then {Bit(w.drive(n), i)} else {}
  }

  function Driven(N: Netlist, w: World, val: Valuation, n: nat, i: int): set<V>
  {
    (set id | id in Drivers(N, n) :: Drive(w, val, N.nodes[id], i)) + Outside(N, w, n, i)
  }

  /** Nexus `n` holds exactly what its drivers make of it. */
  ghost predicate SettledAt(N: Netlist, w: World, val: Valuation, n: nat)
    requires n in N.nexus
  {
    && |At(val, n)| == N.nexus[n].width
    && forall i :: 0 <= i < N.nexus[n].width ==>
         At(val, n)[i] == N.nexus[n].Finish(Driven(N, w, val, n, i))
  }

  ghost predicate Settled(N: Netlist, w: World, val: Valuation)
  {
    val.Keys == N.nexus.Keys && forall n :: n in N.nexus ==> SettledAt(N, w, val, n)
  }

  function Width(N: Netlist, n: nat): nat
  {
    if n in N.nexus then N.nexus[n].width else 0
  }

  function SumWidths(N: Netlist, ns: seq<nat>): nat
  {
    if ns == [] then 0 else Width(N, ns[0]) + SumWidths(N, ns[1..])
  }

  predicate NodeFits(N: Netlist, node: Node)
  {
    && node.out in N.nexus
    && Reads(node) <= N.nexus.Keys
    && match node
       case Const(out, v) => |v| == Width(N, out)
       case Concat(out, ins, _) => SumWidths(N, ins) == Width(N, out)
       case Mux(out, sel, data) =>
         Width(N, sel) > 0 && forall n :: n in data ==> Width(N, n) == Width(N, out)
       case PartPV(_, src, _, wid) => wid == Width(N, src) && wid > 0
       case PartVP(out, _, _, wid) => wid == Width(N, out)
       case BufZ(out, src) => Width(N, src) == Width(N, out)
       case Substitute(out, vec, part, base) =>
         Width(N, vec) == Width(N, out) && base + Width(N, part) <= Width(N, out)
       case Gate(_, _, _) => true
  }

  /** Pins are connected, widths agree, and every nexus carries a signal. */
  ghost predicate WellFormed(N: Netlist)
  {
    && (forall n :: n in N.nexus ==> n < N.next && N.nexus[n].sigs != [])
    && forall id :: id in N.nodes ==> id < N.next && NodeFits(N, N.nodes[id])
  }

  // ----- Constant nexuses (Nexus::drivers_constant, driven_vector, driven_value) -----

  function Patch(v: Vec, p: Vec, base: nat): Vec
  {
    seq(|v|, i requires 0 <= i < |v| => if base <= i < base + |p| then p[i - base] else v[i])
  }

  /** The value of a nexus with at most one, constant, driver; `depth` bounds the chain of
      NetSubstitute nodes followed. */
  ghost function ConstVec(N: Netlist, n: nat, depth: nat): Option<Vec>
    decreases depth
  {
    if n !in N.nexus || N.nexus[n].External() then None
    else
      var pulls := Pulls(N.nexus[n].sigs);
      if |pulls| + |Drivers(N, n)| > 1 then None
      else if |pulls| == 1 then Some(Fill(pulls[0].PullValue(), N.nexus[n].width))
      else if Drivers(N, n) == {} then Some(Fill(Vz, N.nexus[n].width))
      else
        var id :| id in Drivers(N, n);
        match N.nodes[id]
        case Const(_, v) => Some(v)
        case Substitute(_, vec, part, base) =>
          if depth == 0 then None
          else
            var v, p := ConstVec(N, vec, depth - 1), ConstVec(N, part, depth - 1);
            if v.Some? && p.Some? then Some(Patch(v.value, p.value, base)) else None
        case _ => None
  }

  /** All nodes have names below `next`, so no simple chain of substitutes is longer. */
  ghost function Constant(N: Netlist, n: nat): Option<Vec>
  {
    ConstVec(N, n, N.next)
  }

  /** Bit `i` of the constant read off nexus `n` is z, but a two-state net on the way, `n`
      itself or one behind a NetSubstitute, shows 0 there. */
  ghost predicate HidesBit(N: Netlist, n: nat, i: int, depth: nat)
    decreases depth, 1
  {
    && ConstVec(N, n, depth).Some? && n in N.nexus
    && 0 <= i < |ConstVec(N, n, depth).value| && ConstVec(N, n, depth).value[i] == Vz
    && (N.nexus[n].TwoState() ||
        exists id :: id in Drivers(N, n) && N.nodes[id].Substitute? && HidesBelow(N, N.nodes[id], i, depth))
  }

  ghost predicate HidesBelow(N: Netlist, node: Node, i: int, depth: nat)
    requires node.Substitute?
    decreases depth, 0
  {
    depth > 0 && ConstVec(N, node.part, depth - 1).Some? &&
    if node.base <= i < node.base + |ConstVec(N, node.part, depth - 1).value|
    then HidesBit(N, node.part, i - node.base, depth - 1)
    else HidesBit(N, node.vec, i, depth - 1)
  }

  /** The constant read off `n` hides a z somewhere. */
  ghost predicate HidesZ(N: Netlist, n: nat)
  {
    exists i :: HidesBit(N, n, i, N.next)
  }

  /** The bit a mux select is constantly at. A nexus driven through a NetSubstitute gives z. */
  ghost function ConstBit(N: Netlist, n: nat): V
  {
    var c := Constant(N, n);
    if c.Some? && c.value != [] && forall id :: id in Drivers(N, n) ==> !N.nodes[id].Substitute?
    then c.value[0] else Vz
  }

  lemma SoleDriver(N: Netlist, n: nat, id: nat)
    requires id in Drivers(N, n) && |Drivers(N, n)| <= 1
    ensures Drivers(N, n) == {id}
  {
    assert |Drivers(N, n) - {id}| == |Drivers(N, n)| - 1;
    assert Drivers(N, n) - {id} == {};
  }

  lemma FinishPull(x: Nexus)
    requires |Pulls(x.sigs)| == 1
    ensures x.Finish({}) == Pulls(x.sigs)[0].PullValue()
  {
    var p := Pulls(x.sigs)[0];
    assert p in Pulls(x.sigs);
    forall s | s in x.sigs && s.Pull() ensures s == p { assert s in Pulls(x.sigs); }
    assert x.Has(p.kind);
    ResolveOne(x.Wiring(), Vz);
  }

  /** A single driver's bit is the nexus bit, unless a two-state net turns its z into 0. */
  lemma FinishOne(x: Nexus, v: V)
    requires Pulls(x.sigs) == []
    ensures x.Finish({v}) == if v == Vz && x.TwoState() then V0 else v
    ensures x.Finish({}) == if x.TwoState() then V0 else Vz
  {
    forall s | s in x.sigs ensures !s.Pull() { assert s in Pulls(x.sigs) <==> s.Pull(); }
    ResolveOne(x.Wiring(), v);
  }

  /** A driver of 0 more makes no difference to a bit that `s` is driven onto. */
  ghost predicate AbsorbsZero(x: Nexus, s: set<V>)
  {
    || x.Has(KSupply0) || x.Has(KSupply1)
    || (if s <= {Vz} then x.Has(KTri0) || (x.TwoState() && !x.Has(KTri1))
        else match x.Wiring()
          case Wire => s - {Vz} != {V1}
          case Wand => V0 in s
          case Wor => true)
  }

  lemma FinishIgnoresZ(x: Nexus, s: set<V>)
    ensures x.Finish(s + {Vz}) == x.Finish(s)
  {
    ResolveIgnoresZ(x.Wiring(), s + {Vz}, s);
  }

  lemma AbsorbsZeroIff(x: Nexus, s: set<V>)
    ensures x.Finish(s + {V0}) == x.Finish(s + {Vz}) <==> AbsorbsZero(x, s)
  {
    FinishIgnoresZ(x, s);
    var d := s - {Vz};
    SubsetsOfThree(d);
    SubsetsOfThree(d + {V0});
    assert (s + {V0}) - {Vz} == d + {V0};
    assert s <= {Vz} <==> d == {};
  }

  /** What a two-state net makes of a floating bit. */
  function Squash(x: Nexus, v: V): V
  {
    if v == Vz && x.TwoState() then V0 else v
  }

  /** A settled nexus with one driver and nothing else. */
  lemma OneDriver(N: Netlist, w: World, val: Valuation, n: nat, id: nat, i: int)
    requires n in N.nexus && SettledAt(N, w, val, n) && 0 <= i < N.nexus[n].width
    requires Drivers(N, n) == {id} && Pulls(N.nexus[n].sigs) == [] && !N.nexus[n].External()
    ensures |At(val, n)| == N.nexus[n].width
    ensures At(val, n)[i] == Squash(N.nexus[n], Drive(w, val, N.nodes[id], i))
  {
    hide Drive;
    assert Driven(N, w, val, n, i) == {Drive(w, val, N.nodes[id], i)};
    FinishOne(N.nexus[n], Drive(w, val, N.nodes[id], i));
  }

  lemma NoDriver(N: Netlist, w: World, val: Valuation, n: nat, i: int)
    requires n in N.nexus && SettledAt(N, w, val, n) && 0 <= i < N.nexus[n].width
    requires Drivers(N, n) == {} && !N.nexus[n].External() && |Pulls(N.nexus[n].sigs)| <= 1
    ensures |At(val, n)| == N.nexus[n].width
    ensures At(val, n)[i] == if Pulls(N.nexus[n].sigs) == [] then Squash(N.nexus[n], Vz)
                             else Pulls(N.nexus[n].sigs)[0].PullValue()
  {
    var x := N.nexus[n];
    assert Driven(N, w, val, n, i) == {};
    if |Pulls(x.sigs)| == 1 { FinishPull(x); } else { FinishOne(x, Vz); }
  }

  /** The shape of a constant nexus that has a driver. */
  lemma ConstVecDriver(N: Netlist, n: nat, depth: nat) returns (id: nat)
    requires ConstVec(N, n, depth).Some? && Drivers(N, n) != {}
    ensures n in N.nexus && !N.nexus[n].External() && Pulls(N.nexus[n].sigs) == []
    ensures Drivers(N, n) == {id} && id in N.nodes && N.nodes[id].out == n
    ensures N.nodes[id].Const? || N.nodes[id].Substitute?
    ensures N.nodes[id].Const? ==> ConstVec(N, n, depth).value == N.nodes[id].value
    ensures N.nodes[id].Substitute? ==>
              && depth > 0
              && ConstVec(N, N.nodes[id].vec, depth - 1).Some?
              && ConstVec(N, N.nodes[id].part, depth - 1).Some?
              && ConstVec(N, n, depth).value ==
                   Patch(ConstVec(N, N.nodes[id].vec, depth - 1).value,
                         ConstVec(N, N.nodes[id].part, depth - 1).value, N.nodes[id].base)
  {
    assert |Drivers(N, n)| > 0;
    id :| id in Drivers(N, n);
    SoleDriver(N, n, id);
    forall j | j in Drivers(N, n) ensures j == id {}
  }

  ghost predicate DrivenByLogic(N: Netlist, n: nat)
  {
    exists a :: a in Drivers(N, n) && !N.nodes[a].Const? && !N.nodes[a].Substitute?
  }

  /** Every nexus that no logic drives is settled. */
  ghost predicate ConstantsSettled(N: Netlist, w: World, val: Valuation)
  {
    forall n :: n in N.nexus && !DrivenByLogic(N, n) ==> SettledAt(N, w, val, n)
  }

  lemma SettledConstants(N: Netlist, w: World, val: Valuation)
    requires Settled(N, w, val)
    ensures ConstantsSettled(N, w, val)
  {
    hide SettledAt;
  }

  lemma NotLogic(N: Netlist, n: nat)
    requires forall id :: id in Drivers(N, n) ==> N.nodes[id].Const? || N.nodes[id].Substitute?
    ensures !DrivenByLogic(N, n)
  {
  }

  /** The bits of a constant as a settled nexus shows them. */
  ghost predicate Shows(N: Netlist, val: Valuation, n: nat, depth: nat)
    requires ConstVec(N, n, depth).Some?
  {
    && n in N.nexus && |At(val, n)| == |ConstVec(N, n, depth).value| == N.nexus[n].width
    && forall i :: 0 <= i < N.nexus[n].width ==>
         At(val, n)[i] == if HidesBit(N, n, i, depth) then V0 else ConstVec(N, n, depth).value[i]
  }

  lemma ShowsNoDriver(N: Netlist, w: World, val: Valuation, n: nat, depth: nat)
    requires ConstVec(N, n, depth).Some? && Drivers(N, n) == {} && SettledAt(N, w, val, n)
    ensures Shows(N, val, n, depth)
  {
    forall i | 0 <= i < N.nexus[n].width
      ensures At(val, n)[i] == if HidesBit(N, n, i, depth) then V0 else ConstVec(N, n, depth).value[i]
    {
      NoDriver(N, w, val, n, i);
    }
  }

  lemma ShowsConst(N: Netlist, w: World, val: Valuation, n: nat, depth: nat, id: nat)
    requires ConstVec(N, n, depth).Some? && n in N.nexus && SettledAt(N, w, val, n)
    requires Drivers(N, n) == {id} && Pulls(N.nexus[n].sigs) == [] && !N.nexus[n].External()
    requires N.nodes[id].Const? && NodeFits(N, N.nodes[id]) && N.nodes[id].out == n
    requires ConstVec(N, n, depth).value == N.nodes[id].value
    ensures Shows(N, val, n, depth)
  {
    hide ConstVec, Pulls;
    forall i | 0 <= i < N.nexus[n].width
      ensures At(val, n)[i] == if HidesBit(N, n, i, depth) then V0 else ConstVec(N, n, depth).value[i]
    {
      OneDriver(N, w, val, n, id, i);
    }
  }

  lemma SubstituteBit(N: Netlist, w: World, val: Valuation, n: nat, depth: nat, id: nat, i: int)
    requires n in N.nexus && id in N.nodes && N.nodes[id].Substitute? && N.nodes[id].out == n && depth > 0
    requires ConstVec(N, n, depth).Some? && Drivers(N, n) == {id}
    requires ConstVec(N, N.nodes[id].vec, depth - 1).Some? && Shows(N, val, N.nodes[id].vec, depth - 1)
    requires ConstVec(N, N.nodes[id].part, depth - 1).Some? && Shows(N, val, N.nodes[id].part, depth - 1)
    requires ConstVec(N, n, depth).value ==
               Patch(ConstVec(N, N.nodes[id].vec, depth - 1).value, ConstVec(N, N.nodes[id].part, depth - 1).value, N.nodes[id].base)
    requires NodeFits(N, N.nodes[id]) && 0 <= i < N.nexus[n].width
    ensures |ConstVec(N, n, depth).value| == N.nexus[n].width
    ensures Squash(N.nexus[n], Drive(w, val, N.nodes[id], i))
         == if HidesBit(N, n, i, depth) then V0 else ConstVec(N, n, depth).value[i]
  {
    hide ConstVec, Pulls;
    var s := N.nodes[id];
    assert id in Drivers(N, n);
    assert HidesBit(N, n, i, depth) <==>
      ConstVec(N, n, depth).value[i] == Vz && (N.nexus[n].TwoState() || HidesBelow(N, s, i, depth));
  }

  lemma ShowsSubstitute(N: Netlist, w: World, val: Valuation, n: nat, depth: nat, id: nat)
    requires n in N.nexus && id in N.nodes && N.nodes[id].Substitute? && N.nodes[id].out == n && depth > 0
    requires ConstVec(N, n, depth).Some? && Drivers(N, n) == {id} && SettledAt(N, w, val, n)
    requires Pulls(N.nexus[n].sigs) == [] && !N.nexus[n].External()
    requires ConstVec(N, N.nodes[id].vec, depth - 1).Some? && Shows(N, val, N.nodes[id].vec, depth - 1)
    requires ConstVec(N, N.nodes[id].part, depth - 1).Some? && Shows(N, val, N.nodes[id].part, depth - 1)
    requires ConstVec(N, n, depth).value ==
               Patch(ConstVec(N, N.nodes[id].vec, depth - 1).value, ConstVec(N, N.nodes[id].part, depth - 1).value, N.nodes[id].base)
    requires NodeFits(N, N.nodes[id])
    ensures Shows(N, val, n, depth)
  {
    SubstituteWidth(N, id);
    hide ConstVec, Pulls, HidesBit, Drive, NodeFits;
    forall i | 0 <= i < N.nexus[n].width
      ensures At(val, n)[i] == if HidesBit(N, n, i, depth) then V0 else ConstVec(N, n, depth).value[i]
    {
      OneDriver(N, w, val, n, id, i);
      SubstituteBit(N, w, val, n, depth, id, i);
    }
  }

  /** The constant read off a nexus is what the nexus holds, except for the bits that hide a z. */
  lemma {:induction false} ConstVecSound(N: Netlist, w: World, val: Valuation, n: nat, depth: nat)
    requires WellFormed(N) && ConstVec(N, n, depth).Some? && ConstantsSettled(N, w, val)
    ensures n in N.nexus && !DrivenByLogic(N, n) && Shows(N, val, n, depth)
    decreases depth
  {
    hide SettledAt, Patch, Pulls, NodeFits, WellFormed, Drivers, HidesBit, Shows;
    if Drivers(N, n) == {} {
      NotLogic(N, n);
      ShowsNoDriver(N, w, val, n, depth);
    } else {
      var id := ConstVecDriver(N, n, depth);
      NotLogic(N, n);
      Fits(N, id);
      if N.nodes[id].Substitute? {
        ConstVecSound(N, w, val, N.nodes[id].vec, depth - 1);
        ConstVecSound(N, w, val, N.nodes[id].part, depth - 1);
        ShowsSubstitute(N, w, val, n, depth, id);
      } else {
        ShowsConst(N, w, val, n, depth, id);
      }
    }
  }

  lemma Fits(N: Netlist, id: nat)
    requires WellFormed(N) && id in N.nodes
    ensures NodeFits(N, N.nodes[id])
  {
  }

  lemma SubstituteWidth(N: Netlist, id: nat)
    requires id in N.nodes && NodeFits(N, N.nodes[id]) && N.nodes[id].Substitute?
    ensures N.nodes[id].out in N.nexus && N.nodes[id].vec in N.nexus
    ensures N.nexus[N.nodes[id].vec].width == N.nexus[N.nodes[id].out].width
  {
  }
}
