/** Type definitions that refer to each other, and what elaborating them by plain recursion means. */
module TypeGraph {

  /** A declared name of a struct member, with its unpacked dimensions. */
  datatype Decl = Decl(name: nat, dims: seq<nat>, init: bool)

  datatype Member = Member(memberType: nat, names: seq<Decl>)

  /** A parsed type; other types are referred to by name. */
  datatype TypeDef =
    | Scalar(code: nat, vectorLike: bool)
    | PArray(dims: seq<nat>, base: nat)
    | UArray(dims: seq<nat>, base: nat)
    | Struct(packed: bool, members: seq<Member>)
    | Ref(target: nat)
    | Enum(base: nat, size: nat)

  /** An elaborated type. */
  datatype NetType =
    | NScalar(code: nat, vectorLike: bool)
    | NInteger
    | NPArray(dims: seq<nat>, elem: NetType)
    | NUArray(dims: seq<nat>, elem: NetType)
    | NStruct(packed: bool, fields: seq<Field>)
    | NEnum(base: NetType, size: nat)
  {
    predicate Packed()
    {
      match this
      case NScalar(_, v) => v
      case NInteger => true
      case NPArray(_, _) => true
      case NUArray(_, _) => false
      case NStruct(p, _) => p
      case NEnum(_, _) => true
    }
  }

  datatype Field = Field(name: nat, fieldType: NetType)

  type Graph = map<nat, TypeDef>

  type Types = map<nat, NetType>

  function Children(d: TypeDef): set<nat>
  {
    match d
    case Scalar(_, _) => {}
    case PArray(_, base) => {base}
    case UArray(_, base) => {base}
    case Struct(_, members) => set k | 0 <= k < |members| :: members[k].memberType
    case Ref(target) => {target}
    case Enum(base, _) => {base}
  }

  predicate Closed(G: Graph)
  {
    forall t :: t in G ==> Children(G[t]) <= G.Keys
  }

  // ----- Building one type from its parts -----

  function Arrayed(dims: seq<nat>, base: NetType): NetType
  {
    if dims == [] then base else NUArray(dims, base)
  }

  function Fields(names: seq<Decl>, t: NetType): seq<Field>
  {
    seq(|names|, k requires 0 <= k < |names| => Field(names[k].name, Arrayed(names[k].dims, t)))
  }

  function AllFields(members: seq<Member>, m: Types): seq<Field>
    requires forall k :: 0 <= k < |members| ==> members[k].memberType in m
  {
    if members == [] then []
    else
      var init, last := members[..|members| - 1], members[|members| - 1];
      AllFields(init, m) + Fields(last.names, m[last.memberType])
  }

  function Build(d: TypeDef, m: Types): NetType
    requires Children(d) <= m.Keys
  {
    match d
    case Scalar(c, v) => NScalar(c, v)
    case PArray(dims, base) => NPArray(dims, m[base])
    case UArray(dims, base) => Arrayed(dims, m[base])
    case Struct(p, members) =>
      assert forall k :: 0 <= k < |members| ==> members[k].memberType in Children(d);
      NStruct(p, AllFields(members, m))
    case Ref(target) => m[target]
    case Enum(base, n) => NEnum(m[base], n)
  }

  ghost predicate Agree(keys: set<nat>, a: Types, b: Types)
  {
    keys <= a.Keys && keys <= b.Keys && forall t :: t in keys ==> a[t] == b[t]
  }

  lemma {:induction false} AllFieldsAgree(members: seq<Member>, a: Types, b: Types, keys: set<nat>)
    requires Agree(keys, a, b) && forall k :: 0 <= k < |members| ==> members[k].memberType in keys
    ensures AllFields(members, a) == AllFields(members, b)
  {
    if members != [] {
      AllFieldsAgree(members[..|members| - 1], a, b, keys);
    }
  }

  lemma BuildAgree(d: TypeDef, a: Types, b: Types)
    requires Agree(Children(d), a, b)
    ensures Build(d, a) == Build(d, b)
  {
    if d.Struct? {
      assert forall k :: 0 <= k < |d.members| ==> d.members[k].memberType in Children(d);
      AllFieldsAgree(d.members, a, b, Children(d));
    }
  }

  // ----- Plain recursion -----

  /** Every chain of references from `t` ends after at most `k` steps. */
  ghost predicate Grounded(G: Graph, t: nat, k: nat)
    decreases k
  {
    t in G && forall c :: c in Children(G[t]) ==> k > 0 && Grounded(G, c, k - 1)
  }

  /** What elaborating `t` by recursion over its parts, without a cache, gives. */
  ghost function Plain(G: Graph, t: nat, k: nat): NetType
    requires Grounded(G, t, k)
    decreases k
  {
    Build(G[t], map c | c in Children(G[t]) :: Plain(G, c, k - 1))
  }

  lemma {:induction false} GroundedMore(G: Graph, t: nat, k: nat, m: nat)
    requires Grounded(G, t, k) && k <= m
    ensures Grounded(G, t, m) && Plain(G, t, m) == Plain(G, t, k)
    decreases k
  {
    forall c | c in Children(G[t]) ensures m > 0 && Grounded(G, c, m - 1) && Plain(G, c, m - 1) == Plain(G, c, k - 1) {
      GroundedMore(G, c, k - 1, m - 1);
    }
    BuildAgree(G[t], map c | c in Children(G[t]) :: Plain(G, c, k - 1), map c | c in Children(G[t]) :: Plain(G, c, m - 1));
  }

  lemma PlainUnique(G: Graph, t: nat, k: nat, m: nat)
    requires Grounded(G, t, k) && Grounded(G, t, m)
    ensures Plain(G, t, k) == Plain(G, t, m)
  {
    if k <= m { GroundedMore(G, t, k, m); } else { GroundedMore(G, t, m, k); }
  }

  // ----- Paths and cycles -----

  ghost predicate IsPath(G: Graph, p: seq<nat>)
  {
    && p != [] && (forall k :: 0 <= k < |p| ==> p[k] in G)
    && forall k :: 0 <= k < |p| - 1 ==> Edge(G, p[k], p[k + 1])
  }

  predicate Edge(G: Graph, a: nat, b: nat)
  {
    a in G && b in Children(G[a])
  }

  /** Following references from `t` one can come back to a type already passed. */
  ghost predicate CycleFrom(G: Graph, t: nat)
  {
    exists p, i, j :: IsPath(G, p) && p[0] == t && 0 <= i < j < |p| && p[i] == p[j]
  }

  lemma {:induction false} GroundedAlong(G: Graph, p: seq<nat>, i: nat, k: nat)
    requires IsPath(G, p) && Grounded(G, p[0], k) && i < |p|
    ensures i <= k && Grounded(G, p[i], k - i)
    decreases i
  {
    if i > 0 {
      GroundedAlong(G, p, i - 1, k);
      assert Edge(G, p[i - 1], p[i - 1 + 1]);
    }
  }

  lemma {:induction false} GroundedNoCycle(G: Graph, p: seq<nat>, k: nat)
    requires IsPath(G, p) && |p| > 1 && p[0] == p[|p| - 1]
    ensures !Grounded(G, p[0], k)
    decreases k
  {
    if Grounded(G, p[0], k) {
      var q := p[1..] + [p[1]];
      assert Edge(G, p[0], p[0 + 1]);
      assert IsPath(G, q) by {
        forall i | 0 <= i < |q| - 1 ensures Edge(G, q[i], q[i + 1]) {
          if i < |p| - 2 { assert Edge(G, p[i + 1], p[i + 1 + 1]); }
        }
      }
      GroundedNoCycle(G, q, k - 1);
    }
  }

  /** A grounded type reaches no cycle. */
  lemma GroundedMeansAcyclic(G: Graph, t: nat, k: nat)
    requires Grounded(G, t, k)
    ensures !CycleFrom(G, t)
  {
    forall p, i, j | IsPath(G, p) && p[0] == t && 0 <= i < j < |p| ensures p[i] != p[j] {
      GroundedAlong(G, p, i, k);
      var loop := p[i..j + 1];
      assert IsPath(G, loop) by {
        forall n | 0 <= n < |loop| - 1 ensures Edge(G, loop[n], loop[n + 1]) {
          assert Edge(G, p[i + n], p[i + n + 1]);
        }
      }
      if p[i] == p[j] { GroundedNoCycle(G, loop, k - i); assert false; }
    }
  }
}
