/**
 A constant that the pass misses. A concatenation reads a net behind a NetSubstitute; it is
 visited before the concatenation that feeds the substitution is folded, and the mark that the
 first visit leaves is never cleared.
 */
module CpropStale {
  import opened FourState
  import opened Netlists
  import opened CpropRules
  import opened CpropRun
  import opened CpropCache
  import opened CpropVisit
  import opened CpropLimits
  import opened CpropDesign
  import opened Options

  /** Constant 5 on nexus 4 goes through concatenation 7 to nexus 0. Substitution 8 patches
      constant 6 on nexus 1 into it and drives nexus 2, which concatenation 9 reads. */
  const Chained := Netlist(
    map[5 := Const(4, [V1]), 6 := Const(1, [V0]), 7 := Concat(0, [4], false),
        8 := Substitute(2, 0, 1, 0), 9 := Concat(3, [2], false)],
    map[0 := Nexus(1, [PlainWire], false), 1 := Nexus(1, [PlainWire], false), 2 := Nexus(1, [PlainWire], false),
        3 := Nexus(1, [PlainWire], false), 4 := Nexus(1, [PlainWire], false)], 10)

  const Halfway := Replace(Chained, 7, Const(0, [V1]))

  function Level(n: nat): nat { if n == 2 then 1 else 0 }

  lemma ChainedShape(N: Netlist)
    requires N == Chained || N == Halfway
    ensures Drivers(N, 0) == {7} && Drivers(N, 1) == {6} && Drivers(N, 2) == {8} && Drivers(N, 3) == {9} && Drivers(N, 4) == {5}
  {
  }

  lemma ChainedFits()
    ensures NodeFits(Chained, Chained.nodes[5]) && NodeFits(Chained, Chained.nodes[6]) && NodeFits(Chained, Chained.nodes[7])
    ensures NodeFits(Chained, Chained.nodes[8]) && NodeFits(Chained, Chained.nodes[9])
  {
    assert SumWidths(Chained, [4]) == 1 by { assert [4][1..] == []; }
    assert SumWidths(Chained, [2]) == 1 by { assert [2][1..] == []; }
  }

  lemma ChainedWellFormed()
    ensures WellFormed(Chained) && Leveled(Chained, Level)
  {
    ChainedFits();
    hide NodeFits;
  }

  /** Before the first fold the substitution is not constant ... */
  lemma ChainedConstants()
    ensures Constant(Chained, 4) == Some([V1])
    ensures ConstVec(Chained, 0, 9) == None && Constant(Chained, 2) == None
    ensures FoldEnabled(Chained, 7) && Fold(Chained, 7) == Halfway
  {
    ChainedShape(Chained);
    WireShape(1, false);
    hide Drivers, Pulls;
    ConstVecStep(Chained, 4, 10, 5);
    ConstVecStep(Chained, 0, 9, 7);
    ConstVecStep(Chained, 2, 10, 8);
    assert ConstJoin(Chained, [4]) == [V1] by { assert [4][1..] == []; }
  }

  /** ... and after it the second concatenation could be folded. */
  lemma HalfwayConstants()
    ensures FoldEnabled(Halfway, 9)
  {
    ChainedShape(Halfway);
    WireShape(1, false);
    hide Drivers, Pulls;
    ConstVecStep(Halfway, 0, 9, 7);
    ConstVecStep(Halfway, 1, 9, 6);
    ConstVecStep(Halfway, 2, 10, 8);
  }

  lemma NothingReached(N: Netlist, id: nat)
    requires N == Chained || N == Halfway
    ensures !Reached(N, id)
  {
  }

  lemma EmptyCache()
    ensures CacheOk(Chained, map[]) && Vars(map[]) == {}
  {
  }

  /** No visit does anything any more. */
  lemma HalfwayStuck(c: Cache)
    requires 2 in Vars(c)
    ensures forall id :: id in Halfway.nodes ==> !SeenAt(Halfway, c, id)
  {
    Unseen(Halfway, Vars(c), 2);
    hide Seen, Reached;
    forall id | id in Halfway.nodes ensures !SeenAt(Halfway, c, id) {
      NothingReached(Halfway, id);
      assert id == 9 ==> 2 in Halfway.nodes[9].ins;
    }
  }

  lemma FirstUnseen()
    ensures !FoldSeen(Chained, map[], 9)
  {
    ChainedConstants();
    hide Seen, ConstVec;
    assert 2 in Chained.nodes[9].ins;
    if Seen(Chained, Vars(map[]), 2).Some? { SeenIsConstant(Chained, Vars(map[]), 2); }
  }

  lemma SecondSeen(c: Cache)
    requires CacheOk(Chained, c)
    ensures FoldSeen(Chained, c, 7)
  {
    ChainedConstants();
    ChainedShape(Chained);
    assert !BySubstitute(Chained, 4);
    hide Seen, ConstVec, Drivers;
    assert 4 in c ==> VarOk(Chained, c, 4);
    DirectSeen(Chained, Vars(c), 4);
  }

  lemma NotExhausted()
    ensures !Exhausted(Halfway)
  {
    HalfwayConstants();
    assert Enabled(Halfway, DoFold(9));
  }

  /** Visiting 9, then 7, leaves a design whose next scan finds nothing to do although the
      fold of 9 is enabled. */
  method MissedConstant() returns (d: Design)
    ensures fresh(d) && d.Valid() && d.trace[0] == Chained && d.net == Halfway
    ensures d.count == 0 && FoldEnabled(d.net, 9) && !Exhausted(d.net)
  {
    hide WellFormed, Leveled, CacheOk, Seen, Looked, FoldEnabled, FoldSeen, SeenAt, Fold, Rank, IsRun, Exhausted;
    ChainedWellFormed();
    EmptyCache();
    ChainedConstants();
    FirstUnseen();
    d := new Design(Chained, map[], Level);
    d.LpmConcat(9);
    assert 2 in Vars(d.driven) && d.net == Chained;
    SecondSeen(d.driven);
    ghost var marks := d.driven;
    d.LpmConcat(7);
    assert d.net == Halfway && d.driven[2] == marks[2];
    HalfwayConstants();
    HalfwayStuck(d.driven);
    ghost var run := d.trace;
    d.Scan();
    assert d.trace[0] == d.trace[..|run|][0];
    NotExhausted();
  }
}
