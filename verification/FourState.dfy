/** Four-state values, vectors, and the resolution of several drivers of one net. */
module FourState {

  datatype V = V0 | V1 | Vx | Vz

  /** A vector; index 0 is the least significant bit. */
  type Vec = seq<V>

  function Fill(v: V, n: nat): (r: Vec)
    ensures |r| == n && forall i :: 0 <= i < n ==> r[i] == v
  {
    seq(n, _ => v)
  }

  /** How a net combines its drivers. */
  datatype Wiring = Wire | Wand | Wor

  /** The two-driver tables of section 4.6 of IEEE 1364-2005, strengths ignored. */
  function Table(k: Wiring, a: V, b: V): V
  {
    if a == Vz then b
    else if b == Vz then a
    else if a == b then a
    else match k
      case Wire => Vx
      case Wand => if a == V0 || b == V0 then V0 else Vx
      case Wor => if a == V1 || b == V1 then V1 else Vx
  }

  /** What the tables have in common, and where they differ: drivers that disagree give x on a
      plain net, the lower of the two on a wand, the higher on a wor, as far as known. */
  lemma TableLaws(k: Wiring, a: V, b: V, c: V)
    ensures Table(k, a, b) == Table(k, b, a) && Table(k, a, Table(k, b, c)) == Table(k, Table(k, a, b), c)
    ensures Table(k, a, a) == a && Table(k, a, Vz) == a && (a != Vz ==> Table(k, a, Vx) != Vz)
    ensures Table(Wire, V0, V1) == Vx && Table(Wire, V0, Vx) == Vx && Table(Wire, V1, Vx) == Vx
    ensures Table(Wand, V0, V1) == V0 && Table(Wand, V0, Vx) == V0 && Table(Wand, V1, Vx) == Vx
    ensures Table(Wor, V0, V1) == V1 && Table(Wor, V0, Vx) == Vx && Table(Wor, V1, Vx) == V1
  {
  }

  /** Any number of drivers at once: only which values are driven matters. */
  function Resolve(k: Wiring, driven: set<V>): V
  {
    var d := driven - {Vz};
    if d == {} then Vz
    else if d == {V0} then V0
    else if d == {V1} then V1
    else match k
      case Wire => Vx
      case Wand => if V0 in d then V0 else Vx
      case Wor => if V1 in d then V1 else Vx
  }

  /** One driver after the other, as a linked list of drivers is walked. */
  function ResolveList(k: Wiring, drivers: seq<V>): V
  {
    if drivers == [] then Vz else Table(k, drivers[0], ResolveList(k, drivers[1..]))
  }

  function Elements(s: seq<V>): set<V>
  {
    set v | v in s
  }

  /** Walking the list pairwise, in whatever order, gives the set resolution. */
  lemma {:induction false} ResolveListIsResolve(k: Wiring, drivers: seq<V>)
    ensures ResolveList(k, drivers) == Resolve(k, Elements(drivers))
  {
    if drivers != [] {
      var tail := drivers[1..];
      ResolveListIsResolve(k, tail);
      assert drivers == [drivers[0]] + tail;
      assert Elements(drivers) == {drivers[0]} + Elements(tail);
      ResolveInsert(k, drivers[0], Elements(tail));
    }
  }

  lemma ResolveInsert(k: Wiring, a: V, s: set<V>)
    ensures Resolve(k, {a} + s) == Table(k, a, Resolve(k, s))
  {
    var d := s - {Vz};
    SubsetsOfThree(d);
    if a == Vz {
      assert ({a} + s) - {Vz} == d;
    } else {
      assert ({a} + s) - {Vz} == {a} + d;
      SubsetsOfThree({a} + d);
    }
  }

  lemma Singleton(v: V, s: set<V>)
    ensures s == {v} <==> (v in s && forall u :: u in s ==> u == v)
  {
  }

  lemma SubsetsOfThree(d: set<V>)
    requires Vz !in d
    ensures d == {} <==> V0 !in d && V1 !in d && Vx !in d
    ensures d == {V0} <==> V0 in d && V1 !in d && Vx !in d
    ensures d == {V1} <==> V0 !in d && V1 in d && Vx !in d
  {
    forall u | u in d ensures u == V0 || u == V1 || u == Vx {}
  }

  /** High impedance is the identity of resolution. */
  lemma ResolveIgnoresZ(k: Wiring, s: set<V>, t: set<V>)
    requires s - {Vz} == t - {Vz}
    ensures Resolve(k, s) == Resolve(k, t)
  {
  }

  lemma ResolveOne(k: Wiring, v: V)
    ensures Resolve(k, {v}) == v
    ensures Resolve(k, {}) == Vz
    ensures Resolve(k, {v, Vz}) == v
  {
    if v == Vz {
      assert {v} - {Vz} == {} && {v, Vz} - {Vz} == {};
    } else {
      assert {v} - {Vz} == {v} && {v, Vz} - {Vz} == {v};
      assert v != V0 ==> {v} != {V0} by { Singleton(V0, {v}); }
      assert v != V1 ==> {v} != {V1} by { Singleton(V1, {v}); }
    }
  }

  predicate Defined(v: Vec)
  {
    forall i :: 0 <= i < |v| ==> v[i] == V0 || v[i] == V1
  }

  /** The vector read as an unsigned number. */
  function ToNat(v: Vec): nat
  {
    if v == [] then 0 else (if v[0] == V1 then 1 else 0) + 2 * ToNat(v[1..])
  }
}
