/**
 Concatenations on the left of an assignment. The procedural form (PEConcat::elaborate_lval)
 relinks a chain of targets; the net form (PEConcat::elaborate_lnet_common_) makes a vector
 and cuts it into part selects.
 */
module Concatenations {
  import opened FourState
  import opened Options

  /** A target. Bad stands for an operand that is missing, real or does not elaborate. */
  datatype LVal =
    | Leaf(name: string, width: nat)
    | Bad
    | Concat(repeated: bool, parts: seq<LVal>)

  datatype Target = Target(name: string, width: nat)

  /** The targets below l, the least significant one first; what has an error is skipped. */
  function Flat(l: LVal): seq<Target>
    decreases l, if l.Concat? then |l.parts| + 1 else 0
  {
    match l
    case Leaf(n, w) => [Target(n, w)]
    case Bad => []
    case Concat(r, parts) => if r then [] else FlatParts(l, |parts|)
  }

  /** The targets below the first n operands of a concatenation. */
  function FlatParts(l: LVal, n: nat): seq<Target>
    requires l.Concat? && n <= |l.parts|
    decreases l, n
  {
    if n == 0 then [] else Flat(l.parts[n - 1]) + FlatParts(l, n - 1)
  }

  function Width(ts: seq<Target>): nat
  {
    if ts == [] then 0 else ts[0].width + Width(ts[1..])
  }

  /** No operand at any depth has an error. */
  predicate Clean(l: LVal)
  {
    match l
    case Leaf(_, _) => true
    case Bad => false
    case Concat(r, parts) => !r && forall i :: 0 <= i < |parts| ==> Clean(parts[i])
  }

  ghost predicate CleanUpTo(l: LVal, n: nat)
    requires l.Concat? && n <= |l.parts|
  {
    forall i :: 0 <= i < n ==> Clean(l.parts[i])
  }

  lemma CleanStep(l: LVal, n: nat)
    requires l.Concat? && n < |l.parts|
    ensures CleanUpTo(l, n + 1) <==> CleanUpTo(l, n) && Clean(l.parts[n])
  {
  }

  /** x is l or one of its operands, at any depth. */
  ghost predicate Contains(l: LVal, x: LVal)
  {
    x == l || (l.Concat? && exists i :: 0 <= i < |l.parts| && Contains(l.parts[i], x))
  }

  /** What an error is: an operand that is bad by itself, or a repeated concatenation. */
  lemma {:induction false} CleanIff(l: LVal)
    ensures Clean(l) <==> forall x :: Contains(l, x) ==> !x.Bad? && !(x.Concat? && x.repeated)
    decreases l
  {
    assert Contains(l, l);
    if l.Concat? {
      forall i | 0 <= i < |l.parts|
        ensures Clean(l.parts[i]) <==> forall x :: Contains(l.parts[i], x) ==> !x.Bad? && !(x.Concat? && x.repeated)
        ensures forall x :: Contains(l.parts[i], x) ==> Contains(l, x)
      {
        CleanIff(l.parts[i]);
      }
    }
  }

  /** The chain of a target without errors has all its leaves and nothing else. */
  lemma {:induction false} FlatLeaves(l: LVal, name: string, w: nat)
    requires Clean(l)
    ensures Target(name, w) in Flat(l) <==> Contains(l, Leaf(name, w))
    decreases l, if l.Concat? then |l.parts| + 1 else 0
  {
    if l.Concat? {
      FlatPartsLeaves(l, |l.parts|, name, w);
    }
  }

  lemma {:induction false} FlatPartsLeaves(l: LVal, n: nat, name: string, w: nat)
    requires l.Concat? && Clean(l) && n <= |l.parts|
    ensures Target(name, w) in FlatParts(l, n) <==> exists i :: 0 <= i < n && Contains(l.parts[i], Leaf(name, w))
    decreases l, n
  {
    if n > 0 {
      FlatLeaves(l.parts[n - 1], name, w);
      FlatPartsLeaves(l, n - 1, name, w);
    }
  }

  lemma {:induction false} WidthAppend(a: seq<Target>, b: seq<Target>)
    ensures Width(a + b) == Width(a) + Width(b)
  {
    if a == [] {
      assert a + b == b;
    } else {
      WidthAppend(a[1..], b);
      assert (a + b)[1..] == a[1..] + b;
    }
  }

  // ----- Procedural targets -----

  class NetAssign {
    const name: string
    const width: nat
    var isSigned: bool
    var more: NetAssign?

    constructor (name: string, width: nat)
      ensures this.name == name && this.width == width && more == null
    {
      this.name, this.width, isSigned, more := name, width, true, null;
    }
  }

  ghost function NodeAt(nodes: seq<NetAssign>, i: nat): NetAssign?
  {
    if i < |nodes| then nodes[i] else null
  }

  /** The nodes are linked through more, in this order. */
  ghost predicate Linked(head: NetAssign?, nodes: seq<NetAssign>)
    reads nodes
  {
    && head == NodeAt(nodes, 0)
    && (forall i :: 0 <= i < |nodes| ==> nodes[i].more == NodeAt(nodes, i + 1))
    && (forall i, j :: 0 <= i < j < |nodes| ==> nodes[i] != nodes[j])
  }

  ghost function TargetsOf(nodes: seq<NetAssign>): seq<Target>
  {
    seq(|nodes|, i requires 0 <= i < |nodes| => Target(nodes[i].name, nodes[i].width))
  }

  lemma TargetsAppend(a: seq<NetAssign>, b: seq<NetAssign>)
    ensures TargetsOf(a + b) == TargetsOf(a) + TargetsOf(b)
  {
  }

  lemma OneTarget(a: NetAssign)
    ensures TargetsOf([a]) == [Target(a.name, a.width)]
  {
  }

  lemma NoneLinked()
    ensures Linked(null, [])
  {
  }

  lemma OneLinked(a: NetAssign)
    requires a.more == null
    ensures Linked(a, [a])
  {
  }

  lemma LinkedHead(head: NetAssign?, nodes: seq<NetAssign>)
    requires Linked(head, nodes)
    ensures head == null <==> nodes == []
  {
  }

  lemma CleanLeaf(l: LVal)
    ensures l.Leaf? ==> Clean(l)
    ensures l.Bad? ==> !Clean(l)
  {
  }

  lemma NoTargets(l: LVal)
    ensures TargetsOf([]) == []
    ensures l.Concat? ==> CleanUpTo(l, 0)
    ensures l.Concat? ==> (Clean(l) <==> !l.repeated && CleanUpTo(l, |l.parts|))
  {
  }

  /** Walks to the end of chain tmp and hangs chain res behind it. */
  method Link(tmp: NetAssign, res: NetAssign?, ghost front: seq<NetAssign>, ghost back: seq<NetAssign>)
    requires Linked(tmp, front) && Linked(res, back) && front != []
    requires forall n :: n in front ==> n !in back
    modifies front
    ensures Linked(tmp, front + back)
    ensures tmp.isSigned == false
  {
    tmp.isSigned := false;
    var last := tmp;
    ghost var k := 0;
    while last.more != null
      invariant 0 <= k < |front| && last == front[k]
      invariant Linked(tmp, front) && Linked(res, back)
      invariant tmp.isSigned == false
      decreases |front| - k
    {
      last := last.more;
      k := k + 1;
    }
    assert k == |front| - 1;
    last.more := res;
    assert forall i :: 0 <= i < |back| ==> back[i] !in front;
  }

  /** The chain of a target: its leaves, least significant first. */
  method ElaborateLval(l: LVal) returns (res: NetAssign?, errors: nat, ghost nodes: seq<NetAssign>)
    ensures Linked(res, nodes) && fresh(nodes)
    ensures TargetsOf(nodes) == Flat(l)
    ensures errors == 0 <==> Clean(l)
    decreases l
  {
    hide CleanUpTo, TargetsOf, Linked, Clean;
    NoTargets(l);
    CleanLeaf(l);
    NoneLinked();
    errors, res, nodes := 0, null, [];
    match l
    case Bad =>
      errors := 1;
    case Leaf(n, w) =>
      var a := new NetAssign(n, w);
      res, nodes := a, [a];
      OneTarget(a);
      OneLinked(a);
    case Concat(r, parts) =>
      if r {
        errors := 1;
        return;
      }
      for idx := 0 to |parts|
        invariant Linked(res, nodes) && fresh(nodes)
        invariant TargetsOf(nodes) == FlatParts(l, idx)
        invariant errors == 0 <==> CleanUpTo(l, idx)
      {
        var tmp, e, front := ElaborateLval(parts[idx]);
        errors := errors + e;
        CleanStep(l, idx);
        TargetsAppend(front, nodes);
        LinkedHead(tmp, front);
        if tmp != null {
          Link(tmp, res, front, nodes);
          res := tmp;
        } else {
          assert front + nodes == nodes;
        }
        nodes := front + nodes;
      }
  }

  // ----- Net targets -----

  /** A net that receives bits: a declared one, or a vector made for a concatenation, which
      part selects read. */
  datatype Net =
    | Declared(name: string, width: nat)
    | Joined(width: nat, taps: seq<Tap>)

  datatype Tap = Tap(off: int, width: nat, net: Net)

  function NetWidth(n: Net): nat
  {
    n.width
  }

  /** The part selects cover the vector from the top down to bit 0, one next to the other, and
      each is as wide as the net that it drives; so at every depth. */
  ghost predicate Tiled(n: Net)
  {
    n.Joined? ==>
      && (forall i :: 0 <= i < |n.taps| ==> n.taps[i].width == NetWidth(n.taps[i].net) && Tiled(n.taps[i].net))
      && (forall i :: 0 <= i < |n.taps| ==> n.taps[i].off + n.taps[i].width == Above(n, i))
      && 0 == Above(n, |n.taps|)
  }

  /** Where the part select before tap i ends. */
  function Above(n: Net, i: nat): int
    requires n.Joined? && i <= |n.taps|
  {
    if i == 0 then n.width else n.taps[i - 1].off
  }

  function Slice(v: Vec, off: int, w: nat): Vec
  {
    if 0 <= off && off + w <= |v| then v[off..off + w] else []
  }

  /** What each declared net below n receives, last operand first. */
  function Deliver(n: Net, v: Vec): seq<(string, Vec)>
    decreases n, if n.Joined? then |n.taps| + 1 else 0
  {
    match n
    case Declared(name, _) => [(name, v)]
    case Joined(_, taps) => DeliverTaps(n, |taps|, v)
  }

  function DeliverTaps(n: Net, k: nat, v: Vec): seq<(string, Vec)>
    requires n.Joined? && k <= |n.taps|
    decreases n, k
  {
    if k == 0 then []
    else Deliver(n.taps[k - 1].net, Slice(v, n.taps[k - 1].off, n.taps[k - 1].width)) + DeliverTaps(n, k - 1, v)
  }

  /** What a chain of targets receives: from the low end, each its own width. */
  function Deal(ts: seq<Target>, v: Vec): seq<(string, Vec)>
  {
    if ts == [] then []
    else if ts[0].width <= |v| then [(ts[0].name, v[..ts[0].width])] + Deal(ts[1..], v[ts[0].width..])
    else []
  }

  lemma DealCons(t: Target, ts: seq<Target>, v: Vec)
    requires t.width <= |v|
    ensures Deal([t] + ts, v) == [(t.name, v[..t.width])] + Deal(ts, v[t.width..])
  {
    assert ([t] + ts)[1..] == ts;
  }

  lemma {:induction false} DealAppend(a: seq<Target>, b: seq<Target>, v: Vec)
    requires Width(a) <= |v|
    ensures Deal(a + b, v) == Deal(a, v[..Width(a)]) + Deal(b, v[Width(a)..])
  {
    if a == [] {
      assert a + b == b && v[0..] == v;
    } else {
      var t, rest := a[0], a[1..];
      var w, x := t.width, Width(rest);
      assert Width(a) == w + x;
      hide Deal, Width;
      assert a == [t] + rest && a + b == [t] + (rest + b);
      SplitTwice(v, w, x);
      DealCons(t, rest + b, v);
      DealCons(t, rest, v[..w + x]);
      DealAppend(rest, b, v[w..]);
    }
  }

  lemma SplitTwice(v: Vec, w: nat, x: nat)
    requires w + x <= |v|
    ensures v[..w + x][..w] == v[..w] && v[..w + x][w..] == v[w..][..x] && v[w..][x..] == v[w + x..]
  {
  }

  /** Net n stands for target l: the right width, tiled, and each declared net receives the
      bits that the procedural chain gives it. */
  ghost predicate StandsFor(n: Net, l: LVal)
  {
    && NetWidth(n) == Width(Flat(l))
    && Tiled(n)
    && forall v: Vec :: |v| == NetWidth(n) ==> Deliver(n, v) == Deal(Flat(l), v)
  }

  lemma DealLeaf(name: string, w: nat, v: Vec)
    requires |v| == w
    ensures Deal([Target(name, w)], v) == [(name, v)]
  {
    assert v[..w] == v && [Target(name, w)][1..] == [];
    assert Deal([], v[w..]) == [];
  }

  lemma TapsStep(n: Net, k: nat, v: Vec)
    requires n.Joined? && k <= |n.taps|
    ensures DeliverTaps(n, k, v) ==
      if k == 0 then []
      else Deliver(n.taps[k - 1].net, Slice(v, n.taps[k - 1].off, n.taps[k - 1].width)) + DeliverTaps(n, k - 1, v)
  {
  }

  lemma {:induction false} TapsPrefix(w: nat, taps: seq<Tap>, more: seq<Tap>, k: nat, v: Vec)
    requires k <= |taps|
    ensures DeliverTaps(Joined(w, taps + more), k, v) == DeliverTaps(Joined(w, taps), k, v)
  {
    hide Deliver, DeliverTaps, Slice;
    TapsStep(Joined(w, taps + more), k, v);
    TapsStep(Joined(w, taps), k, v);
    if k > 0 {
      TapsPrefix(w, taps, more, k - 1, v);
      assert (taps + more)[k - 1] == taps[k - 1];
    }
  }

  /** Part selects for the first idx operands are made, and reach from the top down to bit
      rest. */
  ghost predicate CutDown(total: nat, taps: seq<Tap>, idx: nat, rest: nat)
  {
    var n := Joined(total, taps);
    && |taps| == idx
    && (forall i :: 0 <= i < idx ==> TapFits(n, i))
    && rest == Above(n, idx)
  }

  /** The operands cut so far receive the bits above rest as the chain would give them. */
  ghost predicate Cut(l: LVal, total: nat, taps: seq<Tap>, idx: nat, rest: nat)
    requires l.Concat? && idx <= |l.parts|
  {
    && |taps| == idx
    && CutDown(total, taps, idx, rest)
    && rest + Width(FlatParts(l, idx)) == total
    && forall v: Vec :: |v| == total ==> DeliverTaps(Joined(total, taps), idx, v) == Deal(FlatParts(l, idx), v[rest..])
  }

  /** Tap i is as wide as its net, which is tiled, and ends where the tap before begins. */
  ghost predicate TapFits(n: Net, i: nat)
    requires n.Joined? && i < |n.taps|
  {
    && n.taps[i].width == NetWidth(n.taps[i].net)
    && Tiled(n.taps[i].net)
    && n.taps[i].off + n.taps[i].width == Above(n, i)
  }

  lemma TapFitsPrefix(w: nat, taps: seq<Tap>, tap: Tap, i: nat)
    requires i < |taps| && TapFits(Joined(w, taps), i)
    ensures TapFits(Joined(w, taps + [tap]), i)
  {
    hide Tiled;
    assert (taps + [tap])[i] == taps[i];
    if i > 0 { assert (taps + [tap])[i - 1] == taps[i - 1]; }
  }

  lemma CutDownStep(total: nat, taps: seq<Tap>, idx: nat, rest: nat, net: Net)
    requires CutDown(total, taps, idx, rest) && Tiled(net) && NetWidth(net) <= rest
    ensures CutDown(total, taps + [Tap(rest - NetWidth(net), NetWidth(net), net)], idx + 1, rest - NetWidth(net))
  {
    hide Tiled, TapFits;
    var tap := Tap(rest - NetWidth(net), NetWidth(net), net);
    var n := Joined(total, taps + [tap]);
    forall i | 0 <= i < idx ensures TapFits(n, i) {
      TapFitsPrefix(total, taps, tap, i);
    }
    TapFitsLast(total, taps, tap);
  }

  lemma TapFitsLast(w: nat, taps: seq<Tap>, tap: Tap)
    requires tap.width == NetWidth(tap.net) && Tiled(tap.net)
    requires tap.off + tap.width == Above(Joined(w, taps), |taps|)
    ensures TapFits(Joined(w, taps + [tap]), |taps|)
  {
  }

  lemma NextWidth(l: LVal, idx: nat)
    requires l.Concat? && idx < |l.parts|
    ensures Width(FlatParts(l, idx + 1)) == Width(Flat(l.parts[idx])) + Width(FlatParts(l, idx))
  {
    WidthAppend(Flat(l.parts[idx]), FlatParts(l, idx));
  }

  lemma NoWidth()
    ensures Width([]) == 0
  {
  }

  lemma StandsWidth(n: Net, l: LVal)
    requires StandsFor(n, l)
    ensures NetWidth(n) == Width(Flat(l)) && Tiled(n)
  {
  }

  lemma CutStep(l: LVal, total: nat, taps: seq<Tap>, idx: nat, rest: nat, net: Net)
    requires l.Concat? && idx < |l.parts| && Cut(l, total, taps, idx, rest)
    requires StandsFor(net, l.parts[idx]) && NetWidth(net) <= rest
    ensures Cut(l, total, taps + [Tap(rest - NetWidth(net), NetWidth(net), net)], idx + 1, rest - NetWidth(net))
  {
    hide StandsFor, Deliver, Deal, Tiled, Flat, Width, CutDown;
    var w := NetWidth(net);
    NextWidth(l, idx);
    StandsWidth(net, l.parts[idx]);
    CutDownStep(total, taps, idx, rest, net);
    forall v: Vec | |v| == total
      ensures DeliverTaps(Joined(total, taps + [Tap(rest - w, w, net)]), idx + 1, v) == Deal(FlatParts(l, idx + 1), v[rest - w..])
    {
      CutDeliver(l, total, taps, idx, rest, net, v);
    }
  }

  lemma CutDeliver(l: LVal, total: nat, taps: seq<Tap>, idx: nat, rest: nat, net: Net, v: Vec)
    requires l.Concat? && idx < |l.parts| && Cut(l, total, taps, idx, rest) && |v| == total && |taps| == idx
    requires StandsFor(net, l.parts[idx]) && NetWidth(net) <= rest <= total
    ensures DeliverTaps(Joined(total, taps + [Tap(rest - NetWidth(net), NetWidth(net), net)]), idx + 1, v)
      == Deal(FlatParts(l, idx + 1), v[rest - NetWidth(net)..])
  {
    hide StandsFor, Cut, Deliver, Deal, DeliverTaps, Width, Flat, FlatParts;
    var w := NetWidth(net);
    var low := v[rest - w..];
    StandsWidth(net, l.parts[idx]);
    StandsAt(net, l.parts[idx], low[..w]);
    CutAt(l, total, taps, idx, rest, v);
    TapsSnoc(total, taps, Tap(rest - w, w, net), v);
    LowBits(v, rest, w);
    NextFlat(l, idx);
    DealAppend(Flat(l.parts[idx]), FlatParts(l, idx), low);
  }

  lemma LowBits(v: Vec, rest: nat, w: nat)
    requires w <= rest <= |v|
    ensures Slice(v, rest - w, w) == v[rest - w..][..w] && v[rest - w..][w..] == v[rest..]
  {
  }

  lemma StandsAt(n: Net, l: LVal, v: Vec)
    requires StandsFor(n, l) && |v| == NetWidth(n)
    ensures Deliver(n, v) == Deal(Flat(l), v)
  {
  }

  lemma CutAt(l: LVal, total: nat, taps: seq<Tap>, idx: nat, rest: nat, v: Vec)
    requires l.Concat? && idx <= |l.parts| && Cut(l, total, taps, idx, rest) && |v| == total
    ensures DeliverTaps(Joined(total, taps), idx, v) == Deal(FlatParts(l, idx), v[rest..])
  {
  }

  lemma NextFlat(l: LVal, idx: nat)
    requires l.Concat? && idx < |l.parts|
    ensures FlatParts(l, idx + 1) == Flat(l.parts[idx]) + FlatParts(l, idx)
  {
  }

  lemma TapsSnoc(total: nat, taps: seq<Tap>, tap: Tap, v: Vec)
    ensures DeliverTaps(Joined(total, taps + [tap]), |taps| + 1, v)
      == Deliver(tap.net, Slice(v, tap.off, tap.width)) + DeliverTaps(Joined(total, taps), |taps|, v)
  {
    TapsPrefix(total, taps, [tap], |taps|, v);
  }

  /** The vector that a concatenation is cut from, with its part selects. The error count is
      zero exactly when no operand has an error, and then the net stands for the target. */
  method ElaborateLnet(l: LVal) returns (net: Option<Net>, errors: nat)
    ensures errors == 0 <==> Clean(l)
    ensures errors == 0 <==> net.Some?
    ensures net.Some? ==> StandsFor(net.value, l)
    decreases l
  {
    hide Deliver, Deal, Tiled, StandsFor, Width;
    net, errors := None, 0;
    match l
    case Bad =>
      errors := 1;
    case Leaf(n, w) =>
      LeafStands(n, w);
      net := Some(Declared(n, w));
    case Concat(r, parts) =>
      if r {
        errors := 1;
        return;
      }
      var nets: seq<Net> := [];
      var width := 0;
      NoWidth();
      for idx := 0 to |parts|
        invariant errors == 0 <==> CleanUpTo(l, idx)
        invariant errors == 0 ==> |nets| == idx && width == Width(FlatParts(l, idx))
        invariant errors == 0 ==> forall i :: 0 <= i < idx ==> StandsFor(nets[i], parts[i])
      {
        var sub, e := ElaborateLnet(parts[idx]);
        errors := errors + e;
        CleanStep(l, idx);
        if sub.Some? {
          nets := nets + [sub.value];
          width := width + NetWidth(sub.value);
          NextWidth(l, idx);
          StandsWidth(sub.value, parts[idx]);
        }
      }
      if errors > 0 {
        return;
      }
      net := CutVector(l, nets, width);
  }

  lemma LeafStands(name: string, w: nat)
    ensures StandsFor(Declared(name, w), Leaf(name, w))
  {
    forall v: Vec | |v| == w ensures Deliver(Declared(name, w), v) == Deal([Target(name, w)], v) {
      DealLeaf(name, w, v);
    }
    assert Width([Target(name, w)]) == w by { assert [Target(name, w)][1..] == []; }
  }

  lemma CutStart(l: LVal, total: nat)
    requires l.Concat?
    ensures Cut(l, total, [], 0, total)
  {
    forall v: Vec | |v| == total ensures DeliverTaps(Joined(total, []), 0, v) == Deal(FlatParts(l, 0), v[total..]) {}
  }

  lemma {:induction false} PartsGrow(l: LVal, k: nat, n: nat)
    requires l.Concat? && k <= n <= |l.parts|
    ensures Width(FlatParts(l, k)) <= Width(FlatParts(l, n))
    decreases n
  {
    if k < n {
      PartsGrow(l, k, n - 1);
      WidthAppend(Flat(l.parts[n - 1]), FlatParts(l, n - 1));
    }
  }

  /** What is left of the vector is wide enough for the next operand. */
  lemma Enough(l: LVal, total: nat, taps: seq<Tap>, idx: nat, rest: nat, net: Net)
    requires l.Concat? && !l.repeated && total == Width(Flat(l)) && idx < |l.parts|
    requires Cut(l, total, taps, idx, rest) && StandsFor(net, l.parts[idx])
    ensures NetWidth(net) <= rest
  {
    PartsGrow(l, idx + 1, |l.parts|);
    WidthAppend(Flat(l.parts[idx]), FlatParts(l, idx));
  }

  lemma CutDone(l: LVal, total: nat, taps: seq<Tap>, rest: nat)
    requires l.Concat? && !l.repeated && total == Width(Flat(l)) && Cut(l, total, taps, |l.parts|, rest)
    ensures rest == 0 && StandsFor(Joined(total, taps), l)
  {
    var n := Joined(total, taps);
    forall i | 0 <= i < |taps|
      ensures taps[i].width == NetWidth(taps[i].net) && Tiled(taps[i].net) && taps[i].off + taps[i].width == Above(n, i)
    {
      assert TapFits(n, i);
    }
    forall v: Vec | |v| == total ensures Deliver(n, v) == Deal(Flat(l), v) {
      assert v[0..] == v;
    }
  }

  /** The loop that makes the part selects, from the most significant operand down. */
  method CutVector(l: LVal, nets: seq<Net>, width: nat) returns (net: Option<Net>)
    requires l.Concat? && !l.repeated && |nets| == |l.parts| && width == Width(Flat(l))
    requires forall i :: 0 <= i < |nets| ==> StandsFor(nets[i], l.parts[i])
    ensures net.Some? && StandsFor(net.value, l)
  {
    hide Deliver, Deal, Tiled, Flat, Cut, StandsFor;
    var taps: seq<Tap> := [];
    var rest := width;
    CutStart(l, width);
    for idx := 0 to |nets|
      invariant Cut(l, width, taps, idx, rest)
    {
      Enough(l, width, taps, idx, rest, nets[idx]);
      var wid := NetWidth(nets[idx]);
      var off := rest - wid;
      CutStep(l, width, taps, idx, rest, nets[idx]);
      taps := taps + [Tap(off, wid, nets[idx])];
      rest := rest - wid;
    }
    CutDone(l, width, taps, rest);
    assert rest == 0;
    net := Some(Joined(width, taps));
  }

  /** The pieces put together again, low end first. */
  function Gather(pieces: seq<(string, Vec)>): Vec
  {
    if pieces == [] then [] else pieces[0].1 + Gather(pieces[1..])
  }

  /** Dealing out a value loses and doubles no bit: every target gets its width, in order, and
      the pieces make up the value. */
  lemma {:induction false} DealGather(ts: seq<Target>, v: Vec)
    requires |v| == Width(ts)
    ensures Gather(Deal(ts, v)) == v && |Deal(ts, v)| == |ts|
    ensures forall i :: 0 <= i < |ts| ==> Deal(ts, v)[i].0 == ts[i].name && |Deal(ts, v)[i].1| == ts[i].width
  {
    if ts != [] {
      var t, rest := ts[0], ts[1..];
      DealGather(rest, v[t.width..]);
      var d := Deal(ts, v);
      assert d[1..] == Deal(rest, v[t.width..]);
      assert v[..t.width] + v[t.width..] == v;
      forall i | 0 <= i < |ts| ensures d[i].0 == ts[i].name && |d[i].1| == ts[i].width {
        if i > 0 { assert d[i] == d[1..][i - 1] && ts[i] == rest[i - 1]; }
      }
    }
  }
}
