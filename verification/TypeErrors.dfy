/**
 The errors of type elaboration that are not circularities: each type that is elaborated adds
 its own, once, however often it is referred to.
 */
module TypeErrors {
  import opened TypeGraph
  import opened TypeMeaning

  /** A type that an enumeration may be based on. */
  predicate EnumBase(r: NetType)
  {
    r.NInteger? || r.NPArray? || (r.NScalar? && r.vectorLike)
  }

  function Initialised(names: seq<Decl>): nat
  {
    if names == [] then 0
    else Initialised(names[..|names| - 1]) + if names[|names| - 1].init then 1 else 0
  }

  /** Initial values among the first n members. */
  function InitialisedIn(members: seq<Member>, n: nat): nat
    requires n <= |members|
  {
    if n == 0 then 0 else InitialisedIn(members, n - 1) + Initialised(members[n - 1].names)
  }

  /** What initial values the names of member k add. */
  function InitialisedAt(d: TypeDef, k: nat): nat
    requires d.Struct? && k < |d.members|
  {
    if d.packed then Initialised(d.members[k].names) else 0
  }

  /** What is wrong with one type: an element of a packed array that is not packed, a base of an
      enumeration that is no vector, initial values in a packed struct. */
  function LocalErrors(d: TypeDef, m: Types): nat
  {
    match d
    case PArray(_, base) => if base in m && !m[base].Packed() then 1 else 0
    case Enum(base, _) => if base in m && !EnumBase(m[base]) then 1 else 0
    case Struct(packed, members) => if packed then InitialisedIn(members, |members|) else 0
    case _ => 0
  }

  ghost function SumOver(G: Graph, m: Types, keys: set<nat>): nat
    requires keys <= G.Keys
  {
    if keys == {} then 0
    else
      var t :| t in keys;
      LocalErrors(G[t], m) + SumOver(G, m, keys - {t})
  }

  lemma {:induction false} SumRemove(G: Graph, m: Types, keys: set<nat>, t: nat)
    requires keys <= G.Keys && t in keys
    ensures SumOver(G, m, keys) == LocalErrors(G[t], m) + SumOver(G, m, keys - {t})
    decreases keys
  {
    hide LocalErrors;
    var u :| u in keys && SumOver(G, m, keys) == LocalErrors(G[u], m) + SumOver(G, m, keys - {u});
    if u != t {
      SumRemove(G, m, keys - {u}, t);
      SumRemove(G, m, keys - {t}, u);
      assert keys - {u} - {t} == keys - {t} - {u};
    }
  }

  lemma {:induction false} SumAgree(G: Graph, m: Types, m': Types, keys: set<nat>)
    requires keys <= G.Keys && forall t :: t in keys ==> LocalErrors(G[t], m) == LocalErrors(G[t], m')
    ensures SumOver(G, m, keys) == SumOver(G, m', keys)
    decreases keys
  {
    hide LocalErrors;
    if keys != {} {
      var t :| t in keys;
      SumRemove(G, m, keys, t);
      SumRemove(G, m', keys, t);
      SumAgree(G, m, m', keys - {t});
    }
  }

  /** All errors of the types in a cache. */
  ghost function ErrorSum(G: Graph, m: Types): nat
  {
    if m.Keys <= G.Keys then SumOver(G, m, m.Keys) else 0
  }

  lemma SumInsert(G: Graph, m: Types, t: nat, r: NetType)
    requires m.Keys <= G.Keys && t in G && t !in m && Children(G[t]) <= m.Keys
    requires forall u :: u in m ==> Children(G[u]) <= m.Keys
    ensures ErrorSum(G, m[t := r]) == ErrorSum(G, m) + LocalErrors(G[t], m)
  {
    var m' := m[t := r];
    assert m'.Keys == m.Keys + {t} && m'.Keys - {t} == m.Keys;
    SumRemove(G, m', m'.Keys, t);
    forall u | u in m'.Keys ensures LocalErrors(G[u], m) == LocalErrors(G[u], m') { LocalSame(G[u], m, m'); }
    hide LocalErrors;
    SumAgree(G, m, m', m.Keys);
  }

  lemma LocalSame(d: TypeDef, m: Types, m': Types)
    requires Children(d) <= m.Keys && m.Keys <= m'.Keys && forall u :: u in m ==> m'[u] == m[u]
    ensures LocalErrors(d, m) == LocalErrors(d, m')
  {
    if d.PArray? || d.Enum? { assert d.base in Children(d); }
  }

  // ----- Which types are elaborated -----

  /** Some chain of references leads from `t` to `u`. */
  ghost predicate Reaches(G: Graph, t: nat, u: nat)
  {
    exists p :: IsPath(G, p) && p[0] == t && p[|p| - 1] == u
  }

  lemma ReachesSelf(G: Graph, t: nat)
    requires t in G
    ensures Reaches(G, t, t)
  {
    assert IsPath(G, [t]);
  }

  lemma ReachesStep(G: Graph, t: nat, c: nat, u: nat)
    requires t in G && Edge(G, t, c) && Reaches(G, c, u)
    ensures Reaches(G, t, u)
  {
    var p :| IsPath(G, p) && p[0] == c && p[|p| - 1] == u;
    var q := [t] + p;
    forall k | 0 <= k < |q| - 1 ensures Edge(G, q[k], q[k + 1]) {
      if k > 0 { assert Edge(G, p[k - 1], p[k - 1 + 1]); }
    }
    assert IsPath(G, q) && q[0] == t && q[|q| - 1] == u;
  }

  /** From cache `m` to cache `m'` the errors grew by those of the types added, all of which `t`
      leads to, and by `extra`. */
  ghost predicate Accounted(G: Graph, t: nat, m: Types, m': Types, e: int, e': int, extra: int)
  {
    && e' - ErrorSum(G, m') == e - ErrorSum(G, m) + extra
    && forall u :: u in m' && u !in m ==> Reaches(G, t, u)
  }

  lemma AccountNone(G: Graph, t: nat, m: Types, e: int)
    ensures Accounted(G, t, m, m, e, e, 0)
  {
  }

  lemma AccountMore(G: Graph, t: nat, m: Types, m': Types, e: int, e': int, extra: int, k: int)
    requires Accounted(G, t, m, m', e, e', extra)
    ensures Accounted(G, t, m, m', e, e' + k, extra + k)
  {
  }

  lemma AccountTrans(G: Graph, t: nat, a: Types, b: Types, c: Types, e: int, f: int, g: int, x: int, y: int)
    requires Accounted(G, t, a, b, e, f, x) && Accounted(G, t, b, c, f, g, y)
    ensures Accounted(G, t, a, c, e, g, x + y)
  {
    hide ErrorSum, Reaches;
  }

  lemma AccountPart(G: Graph, t: nat, c: nat, m: Types, m': Types, e: int, e': int, extra: int)
    requires t in G && Edge(G, t, c) && Accounted(G, c, m, m', e, e', extra)
    ensures Accounted(G, t, m, m', e, e', extra)
  {
    hide ErrorSum, Reaches;
    forall u | u in m' && u !in m ensures Reaches(G, t, u) { ReachesStep(G, t, c, u); }
  }

  lemma AccountInsert(G: Graph, t: nat, m: Types, m': Types, e: int, e': int, r: NetType)
    requires m'.Keys <= G.Keys && t in G && t !in m' && Children(G[t]) <= m'.Keys
    requires forall u :: u in m' ==> Children(G[u]) <= m'.Keys
    requires Accounted(G, t, m, m', e, e', LocalErrors(G[t], m'))
    ensures Accounted(G, t, m, m'[t := r], e, e', 0)
  {
    SumInsert(G, m', t, r);
    ReachesSelf(G, t);
    hide ErrorSum, Reaches, LocalErrors;
  }

  // ----- What the errors are, by the declarations -----

  /** Following references from `t` leads, through no unpacked dimension, to a vector, a packed
      array, an enumeration or a packed struct. */
  ghost predicate DeclaredPacked(G: Graph, t: nat, k: nat)
    requires Grounded(G, t, k)
  {
    var d := G[DeclaredCore(G, t, k).0];
    DeclaredUnpacked(G, t, k) == [] && ((d.Scalar? && d.vectorLike) || d.PArray? || d.Enum? || (d.Struct? && d.packed))
  }

  /** It leads to a vector or a packed array. */
  ghost predicate DeclaredVector(G: Graph, t: nat, k: nat)
    requires Grounded(G, t, k)
  {
    var d := G[DeclaredCore(G, t, k).0];
    DeclaredUnpacked(G, t, k) == [] && ((d.Scalar? && d.vectorLike) || d.PArray?)
  }

  lemma {:induction false} PackedMeans(G: Graph, t: nat, k: nat)
    requires Grounded(G, t, k)
    ensures Plain(G, t, k).Packed() <==> DeclaredPacked(G, t, k)
    ensures EnumBase(Plain(G, t, k)) <==> DeclaredVector(G, t, k)
    decreases k
  {
    PartsGrounded(G, t, k);
    if G[t].UArray? {
      PackedMeans(G, G[t].base, k - 1);
    } else if G[t].Ref? {
      PackedMeans(G, G[t].target, k - 1);
    }
  }

  function InitPlaces(names: seq<Decl>): set<int>
  {
    set i: int | 0 <= i < |names| && names[i].init
  }

  lemma {:induction false} InitialisedIs(names: seq<Decl>)
    ensures Initialised(names) == |InitPlaces(names)|
  {
    if names == [] {
      assert InitPlaces(names) == {};
    } else {
      var n := |names| - 1;
      InitialisedIs(names[..n]);
      assert n !in InitPlaces(names[..n]);
      assert InitPlaces(names) == InitPlaces(names[..n]) + if names[n].init then {n} else {};
    }
  }

  /** What is wrong with a type whose parts are elaborated, by the declarations that it leads to. */
  lemma LocalErrorsMean(G: Graph, m: Types, t: nat, k: nat)
    requires Grounded(G, t, k) && forall c :: c in Children(G[t]) ==> c in m && m[c] == Plain(G, c, k - 1)
    ensures G[t].PArray? || G[t].Enum? ==> k > 0 && Grounded(G, G[t].base, k - 1)
    ensures G[t].PArray? ==> LocalErrors(G[t], m) == if DeclaredPacked(G, G[t].base, k - 1) then 0 else 1
    ensures G[t].Enum? ==> LocalErrors(G[t], m) == if DeclaredVector(G, G[t].base, k - 1) then 0 else 1
    ensures G[t].UArray? || G[t].Ref? || G[t].Scalar? || (G[t].Struct? && !G[t].packed) ==> LocalErrors(G[t], m) == 0
  {
    PartsGrounded(G, t, k);
    if G[t].PArray? || G[t].Enum? {
      PackedMeans(G, G[t].base, k - 1);
      hide Plain, Grounded, DeclaredPacked, DeclaredVector;
    }
  }

  function AllDecls(members: seq<Member>, n: nat): seq<Decl>
    requires n <= |members|
  {
    if n == 0 then [] else AllDecls(members, n - 1) + members[n - 1].names
  }

  lemma {:induction false} InitialisedAppend(a: seq<Decl>, b: seq<Decl>)
    ensures Initialised(a + b) == Initialised(a) + Initialised(b)
  {
    if b == [] {
      assert a + b == a;
    } else {
      InitialisedAppend(a, b[..|b| - 1]);
      assert (a + b)[..|a + b| - 1] == a + b[..|b| - 1];
    }
  }

  /** A packed struct has one error for each of its names that has an initial value. */
  lemma {:induction false} InitialisedInIs(members: seq<Member>, n: nat)
    requires n <= |members|
    ensures InitialisedIn(members, n) == |InitPlaces(AllDecls(members, n))|
  {
    InitialisedIs(AllDecls(members, n));
    if n > 0 {
      InitialisedInIs(members, n - 1);
      InitialisedIs(AllDecls(members, n - 1));
      InitialisedAppend(AllDecls(members, n - 1), members[n - 1].names);
      hide InitPlaces;
    }
  }
}
