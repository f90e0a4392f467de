/**
 The loops of the pass that look at the links of a nexus and that build the concatenation for
 merged part selects.
 */
module CpropBuild {
  import opened FourState
  import opened Netlists
  import opened CpropRules
  import opened CpropCollapse
  import opened CpropMerge
  import opened CpropMergeProof
  import opened CpropSweep
  import opened Options

  lemma {:induction false} NoDupCardinal(ids: seq<nat>, S: set<nat>)
    requires NoDup(ids) && forall id :: id in ids <==> id in S
    ensures |ids| == |S|
  {
    if ids == [] {
      assert S == {};
    } else {
      assert ids[0] in ids;
      assert ids == [ids[0]] + ids[1..];
      NoDupCardinal(ids[1..], S - {ids[0]});
    }
  }

  /** The drivers of a nexus, in some link order. */
  method Links(N: Netlist, n: nat) returns (ids: seq<nat>)
    ensures NoDup(ids) && forall id :: id in ids <==> id in Drivers(N, n)
    ensures |ids| == |Drivers(N, n)|
  {
    ids := [];
    var rest := N.nodes.Keys;
    ghost var seen := {};
    while rest != {}
      invariant seen + rest == N.nodes.Keys && seen !! rest
      invariant NoDup(ids) && forall id :: id in ids <==> id in seen && N.nodes[id].out == n
      decreases rest
    {
      var id :| id in rest;
      rest, seen := rest - {id}, seen + {id};
      if N.nodes[id].out == n { ids := ids + [id]; }
    }
    NoDupCardinal(ids, Drivers(N, n));
  }

  /** Nexus::driven_vector: the value of a nexus that is known to be constant. */
  method DrivenVector(N: Netlist, n: nat, depth: nat) returns (val: Vec)
    requires WellFormed(N) && ConstVec(N, n, depth).Some?
    ensures val == ConstVec(N, n, depth).value
    decreases depth
  {
    hide WellFormed;
    var x := N.nexus[n];
    var pulls := PullSignals(x);
    if |pulls| == 1 { return Fill(pulls[0].PullValue(), x.width); }
    var links := Links(N, n);
    if links == [] {
      assert Drivers(N, n) == {};
      return Fill(Vz, x.width);
    }
    var id := links[0];
    assert id in links;
    SoleDriver(N, n, id);
    match N.nodes[id] {
      case Const(_, v) => val := v;
      case Substitute(_, vec, part, base) =>
        var v := DrivenVector(N, vec, depth - 1);
        var p := DrivenVector(N, part, depth - 1);
        val := Patch(v, p, base);
    }
  }

  /** The signals that pull the nexus, in link order. */
  method PullSignals(x: Nexus) returns (pulls: seq<Signal>)
    ensures pulls == Pulls(x.sigs)
  {
    pulls := [];
    for k := 0 to |x.sigs|
      invariant pulls == Pulls(x.sigs[..k])
    {
      PullsSnoc(x.sigs, k);
      if x.sigs[k].Pull() { pulls := pulls + [x.sigs[k]]; }
    }
    assert x.sigs[..|x.sigs|] == x.sigs;
  }

  /** A link that rules out a constant: a tran, a forced signal, a port of the root module. */
  method HasOutside(x: Nexus) returns (r: bool)
    ensures r == x.External()
  {
    if x.tran { return true; }
    for k := 0 to |x.sigs|
      invariant forall j :: 0 <= j < k ==> !x.sigs[j].FromOutside()
    {
      if x.sigs[k].FromOutside() {
        assert x.sigs[k] in x.sigs;
        return true;
      }
    }
    return false;
  }

  lemma PullsSnoc(sigs: seq<Signal>, k: nat)
    requires k < |sigs|
    ensures Pulls(sigs[..k + 1]) == Pulls(sigs[..k]) + if sigs[k].Pull() then [sigs[k]] else []
  {
    if k > 0 {
      assert sigs[..k + 1][1..] == sigs[1..][..k] && sigs[..k][1..] == sigs[1..][..k - 1];
      PullsSnoc(sigs[1..], k - 1);
    }
  }

  /** The driver list sorted by base; ties stay in link order. */
  method SortByBase(N: Netlist, ids: seq<nat>) returns (order: seq<nat>)
    requires NoDup(ids)
    ensures NoDup(order) && |order| == |ids| && forall id :: id in order <==> id in ids
    ensures Sorted(PartsOf(N, order))
  {
    order := [];
    for k := 0 to |ids|
      invariant |order| == k && NoDup(order) && Sorted(PartsOf(N, order))
      invariant forall id :: id in order <==> id in ids[..k]
    {
      var p := 0;
      while p < |order| && PartOf(N, order[p]).base <= PartOf(N, ids[k]).base
        invariant 0 <= p <= |order|
        invariant forall j :: 0 <= j < p ==> PartOf(N, order[j]).base <= PartOf(N, ids[k]).base
      {
        p := p + 1;
      }
      InsertSorted(N, order, p, ids[k]);
      assert ids[..k + 1] == ids[..k] + [ids[k]];
      assert ids[k] !in ids[..k];
      order := order[..p] + [ids[k]] + order[p..];
    }
    assert ids[..|ids|] == ids;
  }

  lemma InsertSorted(N: Netlist, order: seq<nat>, p: nat, id: nat)
    requires p <= |order| && Sorted(PartsOf(N, order)) && NoDup(order) && id !in order
    requires forall j :: 0 <= j < p ==> PartOf(N, order[j]).base <= PartOf(N, id).base
    requires p < |order| ==> PartOf(N, id).base <= PartOf(N, order[p]).base
    ensures Sorted(PartsOf(N, order[..p] + [id] + order[p..]))
    ensures NoDup(order[..p] + [id] + order[p..])
    ensures forall x :: x in order[..p] + [id] + order[p..] <==> x == id || x in order
  {
    hide PartOf;
    var s, parts := order[..p] + [id] + order[p..], PartsOf(N, order);
    assert order == order[..p] + order[p..];
    assert PartsOf(N, s) == parts[..p] + [PartOf(N, id)] + parts[p..];
    InsertKeepsOrder(parts, p, PartOf(N, id));
  }

  lemma InsertKeepsOrder(parts: seq<Part>, p: nat, x: Part)
    requires p <= |parts| && Sorted(parts)
    requires forall j :: 0 <= j < p ==> parts[j].base <= x.base
    requires p < |parts| ==> x.base <= parts[p].base
    ensures Sorted(parts[..p] + [x] + parts[p..])
  {
    assert forall k :: p <= k < |parts| ==> x.base <= parts[k].base;
  }

  lemma GapSnoc(pins: seq<Pin>, pin: Pin, first: nat, n: nat)
    ensures IsGap(pins + [pin], first, n) <==> IsGap(pins, first, n) || (pin.Gap? && n == first + |pins|)
    ensures IsGap(pins, first, n) ==> (pins + [pin])[n - first] == pins[n - first]
  {
  }

  lemma FillerNodesSnoc(pins: seq<Pin>, pin: Pin, first: nat, fill: V)
    ensures FillerNodes(pins + [pin], first, fill) ==
              if pin.Gap? then FillerNodes(pins, first, fill)[first + |pins| := Const(first + |pins|, Fill(fill, pin.len))]
              else FillerNodes(pins, first, fill)
  {
    forall n: nat
      ensures IsGap(pins + [pin], first, n) <==> IsGap(pins, first, n) || (pin.Gap? && n == first + |pins|)
      ensures IsGap(pins, first, n) ==> (pins + [pin])[n - first] == pins[n - first]
    {
      GapSnoc(pins, pin, first, n);
    }
  }

  lemma FillerNexusesSnoc(pins: seq<Pin>, pin: Pin, first: nat)
    ensures FillerNexuses(pins + [pin], first) ==
              if pin.Gap? then FillerNexuses(pins, first)[first + |pins| := Nexus(pin.len, [FillerSignal], false)]
              else FillerNexuses(pins, first)
  {
    forall n: nat
      ensures IsGap(pins + [pin], first, n) <==> IsGap(pins, first, n) || (pin.Gap? && n == first + |pins|)
      ensures IsGap(pins, first, n) ==> (pins + [pin])[n - first] == pins[n - first]
    {
      GapSnoc(pins, pin, first, n);
    }
  }

  lemma FillersSnoc(pins: seq<Pin>, pin: Pin, first: nat, fill: V)
    ensures FillerNodes(pins + [pin], first, fill) ==
              if pin.Gap? then FillerNodes(pins, first, fill)[first + |pins| := Const(first + |pins|, Fill(fill, pin.len))]
              else FillerNodes(pins, first, fill)
    ensures FillerNexuses(pins + [pin], first) ==
              if pin.Gap? then FillerNexuses(pins, first)[first + |pins| := Nexus(pin.len, [FillerSignal], false)]
              else FillerNexuses(pins, first)
    ensures PinNexuses(pins + [pin], first) ==
              PinNexuses(pins, first) + [if pin.Gap? then first + |pins| else pin.src]
  {
    hide FillerNodes, FillerNexuses, Fill;
    FillerNodesSnoc(pins, pin, first, fill);
    FillerNexusesSnoc(pins, pin, first);
  }

  method AnySubset(s: set<nat>) returns (t: set<nat>)
    ensures t <= s
  {
    t := {};
    var rest := s;
    while rest != {}
      invariant t <= s && rest <= s
      decreases rest
    {
      var x :| x in rest;
      rest := rest - {x};
      if * { t := t + {x}; }
    }
  }

  /** Nexus::count_io finds an input: some node reads the nexus. */
  method ReadBySome(N: Netlist, n: nat) returns (r: bool)
    ensures r <==> IsRead(N, n)
  {
    var rest := N.nodes.Keys;
    while rest != {}
      invariant rest <= N.nodes.Keys
      invariant forall id :: id in N.nodes && id !in rest ==> n !in Reads(N.nodes[id])
      decreases rest
    {
      var id :| id in rest;
      if n in Reads(N.nodes[id]) { return true; }
      rest := rest - {id};
    }
    return false;
  }

  /** The overlap check and the tail check on sorted parts. */
  method CheckParts(parts: seq<Part>, width: nat) returns (ok: bool)
    ensures ok <==> Accepted(parts, width)
  {
    var idx := 1;
    while idx < |parts|
      invariant 1 <= idx && (idx > 1 ==> idx <= |parts|)
      invariant forall k :: 1 <= k < idx ==> parts[k - 1].Top() <= parts[k].base
    {
      if parts[idx - 1].Top() > parts[idx].base { return false; }
      idx := idx + 1;
    }
    return parts == [] || parts[|parts| - 1].Top() <= width;
  }

  /** How many pins the concatenation will need. */
  method CountPins(parts: seq<Part>, width: nat) returns (partCount: nat)
    ensures partCount == |Layout(parts, 0, width)|
  {
    partCount := 0;
    var off: nat := 0;
    for idx := 0 to |parts|
      invariant partCount + |Layout(parts[idx..], off, width)| == |Layout(parts, 0, width)|
    {
      assert parts[idx..][0] == parts[idx] && parts[idx..][1..] == parts[idx + 1..];
      if parts[idx].base > off {
        off := parts[idx].base;
        partCount := partCount + 1;
      }
      off := off + parts[idx].wid;
      partCount := partCount + 1;
    }
    assert parts[|parts|..] == [];
    if off < width { partCount := partCount + 1; }
  }

  /** The constants, nets and connections made so far are those of `pins`. */
  ghost predicate Built(fillers: map<nat, Node>, nets: map<nat, Nexus>, ins: seq<nat>, pins: seq<Pin>, first: nat, fill: V)
  {
    && fillers == FillerNodes(pins, first, fill) && nets == FillerNexuses(pins, first)
    && ins == PinNexuses(pins, first)
  }

  /** With `pins` done and the first `idx` parts placed up to `off`, the rest completes the layout. */
  ghost predicate Remaining(pins: seq<Pin>, parts: seq<Part>, idx: nat, off: nat, width: nat)
  {
    idx <= |parts| && pins + Layout(parts[idx..], off, width) == Layout(parts, 0, width)
  }

  lemma RemainingStep(pins: seq<Pin>, parts: seq<Part>, idx: nat, off: nat, width: nat)
    requires Remaining(pins, parts, idx, off, width) && idx < |parts|
    ensures parts[idx].base > off ==>
              Remaining(pins + [Gap(parts[idx].base - off)] + [Src(parts[idx].src)], parts, idx + 1, parts[idx].Top(), width)
    ensures parts[idx].base <= off ==>
              Remaining(pins + [Src(parts[idx].src)], parts, idx + 1, off + parts[idx].wid, width)
  {
    assert parts[idx..][0] == parts[idx] && parts[idx..][1..] == parts[idx + 1..];
  }

  lemma RemainingEnds(pins: seq<Pin>, parts: seq<Part>, off: nat, width: nat)
    requires Remaining(pins, parts, |parts|, off, width)
    ensures Layout(parts, 0, width) == pins + if off < width then [Gap(width - off)] else []
  {
    assert parts[|parts|..] == [];
  }

  lemma RemainingStarts(parts: seq<Part>, width: nat)
    ensures Remaining([], parts, 0, 0, width)
  {
    assert parts[0..] == parts;
  }

  /** Connect the pins one by one, adding a constant for each gap. */
  method BuildPins(parts: seq<Part>, width: nat, first: nat, fill: V)
    returns (fillers: map<nat, Node>, nets: map<nat, Nexus>, ins: seq<nat>)
    ensures Built(fillers, nets, ins, Layout(parts, 0, width), first, fill)
  {
    hide Layout, Built, Remaining;
    fillers, nets, ins := map[], map[], [];
    var off: nat := 0;
    ghost var pins: seq<Pin> := [];
    NothingBuilt(first, fill);
    RemainingStarts(parts, width);
    for idx := 0 to |parts|
      invariant Remaining(pins, parts, idx, off, width) && Built(fillers, nets, ins, pins, first, fill)
    {
      var cobj := parts[idx];
      RemainingStep(pins, parts, idx, off, width);
      if cobj.base > off {
        fillers, nets, ins, pins := AddFiller(fillers, nets, ins, pins, first, cobj.base - off, fill);
        off := cobj.base;
      }
      ins, pins := AddPart(fillers, nets, ins, pins, first, fill, cobj.src);
      off := off + cobj.wid;
    }
    RemainingEnds(pins, parts, off, width);
    if off < width {
      fillers, nets, ins, pins := AddFiller(fillers, nets, ins, pins, first, width - off, fill);
    } else {
      assert pins + [] == pins;
    }
  }

  lemma NothingBuilt(first: nat, fill: V)
    ensures Built(map[], map[], [], [], first, fill)
  {
  }

  /** Create the concatenation, connect it, and delete the part selects. */
  method BuildMerge(N: Netlist, t: nat, order: seq<nat>, fill: V) returns (M: Netlist)
    requires WellFormed(N) && OrderOf(N, t, order) && fill == FillFor(N, t)
    ensures M == Merge(N, t, order)
  {
    hide Layout, FillerNodes, FillerNexuses, WellFormed, PartsOf;
    var parts, width := PartsOf(N, order), Width(N, t);
    var partCount := CountPins(parts, width);
    var fillers, nets, ins := BuildPins(parts, width, N.next + 1, fill);
    assert |ins| == partCount;
    var gone := set id | id in order;
    assert gone == Drivers(N, t);
    M := Netlist((N.nodes - gone)[N.next := Concat(t, ins, false)] + fillers, N.nexus + nets, N.next + 1 + |ins|);
  }

  /** make_const_0 / make_const_z: a new constant on a new net, connected to the next pin. */
  method AddFiller(fillers: map<nat, Node>, nets: map<nat, Nexus>, ins: seq<nat>, ghost pins: seq<Pin>,
                   first: nat, len: nat, fill: V)
    returns (fillers': map<nat, Node>, nets': map<nat, Nexus>, ins': seq<nat>, ghost pins': seq<Pin>)
    requires Built(fillers, nets, ins, pins, first, fill)
    ensures pins' == pins + [Gap(len)] && Built(fillers', nets', ins', pins', first, fill)
  {
    hide FillerNodes, FillerNexuses, PinNexuses;
    FillersSnoc(pins, Gap(len), first, fill);
    var n := first + |ins|;
    fillers', nets' := fillers[n := Const(n, Fill(fill, len))], nets[n := Nexus(len, [FillerSignal], false)];
    ins', pins' := ins + [n], pins + [Gap(len)];
  }

  /** Connect the next pin to the input of a part select. */
  method AddPart(ghost fillers: map<nat, Node>, ghost nets: map<nat, Nexus>, ins: seq<nat>, ghost pins: seq<Pin>,
                 ghost first: nat, ghost fill: V, src: nat)
    returns (ins': seq<nat>, ghost pins': seq<Pin>)
    requires Built(fillers, nets, ins, pins, first, fill)
    ensures pins' == pins + [Src(src)] && Built(fillers, nets, ins', pins', first, fill)
  {
    hide FillerNodes, FillerNexuses;
    FillersSnoc(pins, Src(src), first, fill);
    ins', pins' := ins + [src], pins + [Src(src)];
  }

  lemma MergeKnown(N: Netlist, t: nat, order: seq<nat>)
    requires WellFormed(N) && OrderOf(N, t, order)
    requires |order| > 1 || (|order| == 1 && N.nexus[t].TwoState())
    ensures Accepted(PartsOf(N, order), Width(N, t)) <==> MergeEnabled(N, t)
  {
    MergeOrderAccepted(N, t, order);
    NoDupCardinal(order, Drivers(N, t));
  }

  /** The part selects that drive a nexus, sorted, when they can be merged. */
  method FindParts(N: Netlist, t: nat) returns (found: bool, twoState: bool, order: seq<nat>)
    requires WellFormed(N) && t in N.nexus
    ensures found <==> MergeEnabled(N, t)
    ensures found ==> OrderOf(N, t, order) && twoState == N.nexus[t].TwoState()
  {
    hide WellFormed, Accepted;
    found, twoState, order := false, false, [];
    var sigs := N.nexus[t].sigs;
    for k := 0 to |sigs|
      invariant twoState <==> exists j :: 0 <= j < k && sigs[j].twoState
      invariant forall j :: 0 <= j < k ==> !sigs[j].Output()
    {
      if sigs[k].twoState { twoState := true; }
      if sigs[k].Output() { return; }
    }
    assert twoState <==> N.nexus[t].TwoState();
    var links := Links(N, t);
    for k := 0 to |links|
      invariant forall j :: 0 <= j < k ==> links[j] in N.nodes && N.nodes[links[j]].PartPV?
    {
      assert links[k] in links;
      if !N.nodes[links[k]].PartPV? { return; }
    }
    assert OnlyPV(N, t);
    if |links| == 0 || (|links| == 1 && !twoState) { return; }
    order := SortByBase(N, links);
    assert OrderOf(N, t, order);
    MergeKnown(N, t, order);
    found := CheckParts(PartsOf(N, order), N.nexus[t].width);
  }
}
