/**
 What an elaborated type says, read off the type itself, and that it is what the declarations
 say, read along the references: unpacked dimensions, what they are dimensions of, the names of
 fields, and how many scalars there are.
 */
module TypeMeaning {
  import opened TypeGraph

  // ----- Read off an elaborated type -----

  /** The unpacked dimensions, outermost first. */
  function Unpacked(r: NetType): seq<nat>
  {
    match r
    case NUArray(dims, elem) => dims + Unpacked(elem)
    case _ => []
  }

  /** The type inside all unpacked dimensions. */
  function Core(r: NetType): NetType
  {
    match r
    case NUArray(_, elem) => Core(elem)
    case _ => r
  }

  function Product(dims: seq<nat>): nat
  {
    if dims == [] then 1 else dims[0] * Product(dims[1..])
  }

  /** How many scalars a value of the type holds. */
  function Scalars(r: NetType): nat
    decreases r, if r.NStruct? then |r.fields| + 1 else 0
  {
    match r
    case NScalar(_, _) => 1
    case NInteger => 1
    case NPArray(dims, elem) => Product(dims) * Scalars(elem)
    case NUArray(dims, elem) => Product(dims) * Scalars(elem)
    case NStruct(_, fields) => FieldScalars(r, |fields|)
    case NEnum(base, _) => Scalars(base)
  }

  function FieldScalars(r: NetType, n: nat): nat
    requires r.NStruct? && n <= |r.fields|
    decreases r, n
  {
    if n == 0 then 0 else FieldScalars(r, n - 1) + Scalars(r.fields[n - 1].fieldType)
  }

  function Names(fields: seq<Field>): seq<nat>
  {
    seq(|fields|, k requires 0 <= k < |fields| => fields[k].name)
  }

  // ----- Read off the declarations -----

  /** The types that a definition refers to, case by case, take a step less. */
  lemma PartsGrounded(G: Graph, t: nat, k: nat)
    requires Grounded(G, t, k)
    ensures t in G
    ensures G[t].PArray? || G[t].UArray? || G[t].Enum? ==> k > 0 && G[t].base in Children(G[t]) && Grounded(G, G[t].base, k - 1)
    ensures G[t].Ref? ==> k > 0 && G[t].target in Children(G[t]) && Grounded(G, G[t].target, k - 1)
    ensures G[t].Struct? && G[t].members != [] ==> k > 0 && MembersGrounded(G, G[t].members, k - 1)
    ensures G[t].Struct? ==> forall j :: 0 <= j < |G[t].members| ==> G[t].members[j].memberType in Children(G[t])
  {
    if G[t].PArray? || G[t].UArray? || G[t].Enum? { assert G[t].base in Children(G[t]); }
    if G[t].Ref? { assert G[t].target in Children(G[t]); }
    if G[t].Struct? && G[t].members != [] {
      forall j | 0 <= j < |G[t].members| ensures k > 0 && Grounded(G, G[t].members[j].memberType, k - 1) {
        assert G[t].members[j].memberType in Children(G[t]);
      }
      assert k > 0 by { assert G[t].members[0].memberType in Children(G[t]); }
    }
  }

  ghost function DeclaredUnpacked(G: Graph, t: nat, k: nat): seq<nat>
    requires Grounded(G, t, k)
    decreases k
  {
    PartsGrounded(G, t, k);
    match G[t]
    case UArray(dims, base) => dims + DeclaredUnpacked(G, base, k - 1)
    case Ref(target) => DeclaredUnpacked(G, target, k - 1)
    case _ => []
  }

  /** The type that `t` stands for once references and unpacked dimensions are followed, and how
      many steps are left for it. */
  ghost function DeclaredCore(G: Graph, t: nat, k: nat): (u: (nat, nat))
    requires Grounded(G, t, k)
    ensures Grounded(G, u.0, u.1) && !G[u.0].UArray? && !G[u.0].Ref?
    decreases k
  {
    PartsGrounded(G, t, k);
    match G[t]
    case UArray(_, base) => DeclaredCore(G, base, k - 1)
    case Ref(target) => DeclaredCore(G, target, k - 1)
    case _ => (t, k)
  }

  /** How many values one declaration list makes of its member type. */
  function Copies(names: seq<Decl>): nat
  {
    if names == [] then 0 else Product(names[0].dims) + Copies(names[1..])
  }

  ghost predicate MembersGrounded(G: Graph, members: seq<Member>, k: nat)
  {
    forall j :: 0 <= j < |members| ==> Grounded(G, members[j].memberType, k)
  }

  ghost function DeclaredScalars(G: Graph, t: nat, k: nat): nat
    requires Grounded(G, t, k)
    decreases k, 0, 0
  {
    PartsGrounded(G, t, k);
    match G[t]
    case Scalar(_, _) => 1
    case PArray(dims, base) => Product(dims) * DeclaredScalars(G, base, k - 1)
    case UArray(dims, base) => Product(dims) * DeclaredScalars(G, base, k - 1)
    case Ref(target) => DeclaredScalars(G, target, k - 1)
    case Enum(base, _) => DeclaredScalars(G, base, k - 1)
    case Struct(_, members) =>
      if members == [] then 0 else MemberScalars(G, members, k - 1)
  }

  ghost function MemberScalars(G: Graph, members: seq<Member>, k: nat): nat
    requires MembersGrounded(G, members, k)
    decreases k, 1, |members|
  {
    if members == [] then 0
    else
      assert MembersGrounded(G, members[1..], k);
      Copies(members[0].names) * DeclaredScalars(G, members[0].memberType, k) + MemberScalars(G, members[1..], k)
  }

  /** The declared names of a struct, in order. */
  function DeclaredNames(members: seq<Member>): seq<nat>
  {
    if members == [] then []
    else
      var names := members[0].names;
      seq(|names|, k requires 0 <= k < |names| => names[k].name) + DeclaredNames(members[1..])
  }

  /** Where the names of member `j` begin. */
  function Start(members: seq<Member>, j: nat): nat
    requires j <= |members|
  {
    if j == 0 then 0 else |members[0].names| + Start(members[1..], j - 1)
  }

  // ----- They agree -----

  lemma NoDims(n: nat)
    ensures Product([]) * n == n
  {
  }

  lemma ArrayedMeans(dims: seq<nat>, base: NetType)
    ensures Unpacked(Arrayed(dims, base)) == dims + Unpacked(base)
    ensures Core(Arrayed(dims, base)) == Core(base)
    ensures Scalars(Arrayed(dims, base)) == Product(dims) * Scalars(base)
  {
    hide Product;
    NoDims(Scalars(base));
    assert dims == [] ==> dims + Unpacked(base) == Unpacked(base);
  }

  lemma {:induction false} AllFieldsCons(members: seq<Member>, m: Types)
    requires members != [] && forall k :: 0 <= k < |members| ==> members[k].memberType in m
    ensures AllFields(members, m) == Fields(members[0].names, m[members[0].memberType]) + AllFields(members[1..], m)
  {
    hide Fields, AllFields;
    var n := |members| - 1;
    AllFieldsLast(members, m);
    if n == 0 {
      assert members[..0] == [] && members[1..] == [];
      NoFields(m);
    } else {
      AllFieldsCons(members[..n], m);
      AllFieldsLast(members[1..], m);
      assert members[..n][1..] == members[1..][..n - 1];
    }
  }

  lemma NoFields(m: Types)
    ensures AllFields([], m) == []
  {
  }

  lemma AllFieldsLast(members: seq<Member>, m: Types)
    requires members != [] && forall k :: 0 <= k < |members| ==> members[k].memberType in m
    ensures var n := |members| - 1;
            AllFields(members, m) == AllFields(members[..n], m) + Fields(members[n].names, m[members[n].memberType])
  {
  }

  /** The fields are the declared names, in order. */
  lemma {:induction false} NamesAre(members: seq<Member>, m: Types)
    requires forall k :: 0 <= k < |members| ==> members[k].memberType in m
    ensures Names(AllFields(members, m)) == DeclaredNames(members)
  {
    if members != [] {
      AllFieldsCons(members, m);
      NamesAre(members[1..], m);
      var first, rest := Fields(members[0].names, m[members[0].memberType]), AllFields(members[1..], m);
      assert Names(first + rest) == Names(first) + Names(rest);
    }
  }

  /** Each field has its declared dimensions in front of those of its member type. */
  lemma {:induction false} FieldIs(members: seq<Member>, m: Types, j: nat, i: nat)
    requires forall k :: 0 <= k < |members| ==> members[k].memberType in m
    requires j < |members| && i < |members[j].names|
    ensures Start(members, j) + i < |AllFields(members, m)|
    ensures var f, d := AllFields(members, m)[Start(members, j) + i], members[j].names[i];
            var t := m[members[j].memberType];
            f.name == d.name && Unpacked(f.fieldType) == d.dims + Unpacked(t) && Core(f.fieldType) == Core(t)
  {
    AllFieldsCons(members, m);
    if j == 0 {
      ArrayedMeans(members[0].names[i].dims, m[members[0].memberType]);
    } else {
      FieldIs(members[1..], m, j - 1, i);
      assert members[1..][j - 1] == members[j];
    }
  }

  lemma {:induction false} FieldScalarsAppend(packed: bool, a: seq<Field>, b: seq<Field>, n: nat)
    requires n <= |b|
    ensures FieldScalars(NStruct(packed, a + b), |a| + n)
         == FieldScalars(NStruct(packed, a), |a|) + FieldScalars(NStruct(packed, b), n)
  {
    if n == 0 {
      FieldScalarsPrefix(packed, a, b, |a|);
    } else {
      FieldScalarsAppend(packed, a, b, n - 1);
    }
  }

  lemma {:induction false} FieldScalarsPrefix(packed: bool, a: seq<Field>, b: seq<Field>, n: nat)
    requires n <= |a|
    ensures FieldScalars(NStruct(packed, a + b), n) == FieldScalars(NStruct(packed, a), n)
  {
    if n > 0 { FieldScalarsPrefix(packed, a, b, n - 1); }
  }

  lemma {:induction false} FieldsScalars(packed: bool, names: seq<Decl>, t: NetType)
    ensures FieldScalars(NStruct(packed, Fields(names, t)), |names|) == Copies(names) * Scalars(t)
  {
    if names != [] {
      var first, rest := Fields([names[0]], t), Fields(names[1..], t);
      assert Fields(names, t) == first + rest;
      FieldsScalars(packed, names[1..], t);
      FieldScalarsAppend(packed, first, rest, |rest|);
      ArrayedMeans(names[0].dims, t);
      assert FieldScalars(NStruct(packed, first), 1) == Scalars(first[0].fieldType);
      Distribute(Product(names[0].dims), Copies(names[1..]), Scalars(t));
    }
  }

  lemma FieldsLength(names: seq<Decl>, t: NetType)
    ensures |Fields(names, t)| == |names|
  {
  }

  lemma Distribute(a: nat, b: nat, s: nat)
    ensures (a + b) * s == a * s + b * s && 0 * s == 0
  {
  }

  /** The number of scalars of a struct is the sum over its names. */
  lemma {:induction false} StructScalars(G: Graph, packed: bool, members: seq<Member>, m: Types, k: nat)
    requires MembersGrounded(G, members, k)
    requires forall j :: 0 <= j < |members| ==>
               members[j].memberType in m && Scalars(m[members[j].memberType]) == DeclaredScalars(G, members[j].memberType, k)
    ensures var fields := AllFields(members, m); FieldScalars(NStruct(packed, fields), |fields|) == MemberScalars(G, members, k)
  {
    hide Fields, AllFields, Copies;
    if members == [] {
      NoFields(m);
    } else {
      AllFieldsCons(members, m);
      var first, rest := Fields(members[0].names, m[members[0].memberType]), AllFields(members[1..], m);
      FieldsLength(members[0].names, m[members[0].memberType]);
      assert MembersGrounded(G, members[1..], k);
      StructScalars(G, packed, members[1..], m, k);
      FieldsScalars(packed, members[0].names, m[members[0].memberType]);
      FieldScalarsAppend(packed, first, rest, |rest|);
    }
  }

  /** What the type under all unpacked dimensions is. */
  ghost predicate CoreMatches(G: Graph, u: nat, k: nat, r: NetType)
    requires Grounded(G, u, k)
  {
    PartsGrounded(G, u, k);
    match G[u]
    case Scalar(code, v) => r == NScalar(code, v)
    case PArray(dims, base) => r.NPArray? && r.dims == dims && r.elem == Plain(G, base, k - 1)
    case Struct(packed, members) => r.NStruct? && r.packed == packed && Names(r.fields) == DeclaredNames(members)
    case Enum(base, n) => r.NEnum? && r.size == n && r.base == Plain(G, base, k - 1)
    case _ => false
  }

  /** The elaborated type `r` says what the declarations of `t` say. */
  ghost predicate Declares(G: Graph, t: nat, k: nat, r: NetType)
    requires Grounded(G, t, k)
  {
    && Unpacked(r) == DeclaredUnpacked(G, t, k)
    && CoreMatches(G, DeclaredCore(G, t, k).0, DeclaredCore(G, t, k).1, Core(r))
    && Scalars(r) == DeclaredScalars(G, t, k)
  }

  ghost function Parts(G: Graph, t: nat, k: nat): Types
    requires Grounded(G, t, k)
  {
    map c | c in Children(G[t]) :: Plain(G, c, k - 1)
  }

  /** What plain recursion makes of a struct. */
  lemma StructBuilt(G: Graph, t: nat, k: nat)
    requires Grounded(G, t, k) && G[t].Struct?
    ensures forall j :: 0 <= j < |G[t].members| ==> G[t].members[j].memberType in Parts(G, t, k)
    ensures Plain(G, t, k) == NStruct(G[t].packed, AllFields(G[t].members, Parts(G, t, k)))
    ensures G[t].members != [] ==> k > 0 && MembersGrounded(G, G[t].members, k - 1)
    ensures forall j :: 0 <= j < |G[t].members| ==> PartIs(G, t, k, G[t].members[j].memberType)
  {
    PartsGrounded(G, t, k);
  }

  ghost predicate PartIs(G: Graph, t: nat, k: nat, c: nat)
    requires Grounded(G, t, k)
  {
    c in Children(G[t]) && c in Parts(G, t, k) && Parts(G, t, k)[c] == Plain(G, c, k - 1)
  }

  lemma StructCount(G: Graph, t: nat, k: nat)
    requires Grounded(G, t, k) && G[t].Struct?
    requires forall c :: c in Children(G[t]) ==> k > 0 && Grounded(G, c, k - 1) && Scalars(Plain(G, c, k - 1)) == DeclaredScalars(G, c, k - 1)
    ensures Scalars(Plain(G, t, k)) == DeclaredScalars(G, t, k)
  {
    assert t in G;
    hide Plain, AllFields, Parts, Grounded;
    var m, members := Parts(G, t, k), G[t].members;
    StructBuilt(G, t, k);
    if members != [] {
      forall j | 0 <= j < |members| ensures Scalars(m[members[j].memberType]) == DeclaredScalars(G, members[j].memberType, k - 1) {
        assert PartIs(G, t, k, members[j].memberType);
      }
      StructScalars(G, G[t].packed, members, m, k - 1);
    } else {
      NoFields(m);
    }
  }

  lemma StructDeclares(G: Graph, t: nat, k: nat)
    requires Grounded(G, t, k) && G[t].Struct?
    requires forall c :: c in Children(G[t]) ==> k > 0 && Grounded(G, c, k - 1) && Scalars(Plain(G, c, k - 1)) == DeclaredScalars(G, c, k - 1)
    ensures Declares(G, t, k, Plain(G, t, k))
  {
    assert t in G;
    hide Plain, AllFields, Children, Parts, Declares, Scalars, DeclaredScalars, Grounded;
    StructBuilt(G, t, k);
    NamesAre(G[t].members, Parts(G, t, k));
    StructCount(G, t, k);
    StructSays(G, t, k, Plain(G, t, k));
  }

  /** What has to be shown of a struct. */
  lemma StructSays(G: Graph, t: nat, k: nat, r: NetType)
    requires Grounded(G, t, k) && G[t].Struct? && r.NStruct? && r.packed == G[t].packed
    requires Names(r.fields) == DeclaredNames(G[t].members) && Scalars(r) == DeclaredScalars(G, t, k)
    ensures Declares(G, t, k, r)
  {
    hide Scalars, DeclaredScalars, Names, DeclaredNames;
  }

  lemma OtherDeclares(G: Graph, t: nat, k: nat)
    requires Grounded(G, t, k) && !G[t].Struct?
    requires forall c :: c in Children(G[t]) ==> k > 0 && Grounded(G, c, k - 1) && Declares(G, c, k - 1, Plain(G, c, k - 1))
    ensures Declares(G, t, k, Plain(G, t, k))
  {
    PartsGrounded(G, t, k);
    var m := Parts(G, t, k);
    assert Plain(G, t, k) == Build(G[t], m);
    if G[t].UArray? { ArrayedMeans(G[t].dims, m[G[t].base]); }
    hide Arrayed, Product;
  }

  lemma {:induction false} PlainDeclares(G: Graph, t: nat, k: nat)
    requires Grounded(G, t, k)
    ensures Declares(G, t, k, Plain(G, t, k))
    decreases k
  {
    hide Declares, Plain;
    forall c | c in Children(G[t]) ensures k > 0 && Grounded(G, c, k - 1) && Declares(G, c, k - 1, Plain(G, c, k - 1)) {
      PlainDeclares(G, c, k - 1);
    }
    if G[t].Struct? {
      forall c | c in Children(G[t]) ensures Scalars(Plain(G, c, k - 1)) == DeclaredScalars(G, c, k - 1) {
        DeclaresScalars(G, c, k - 1, Plain(G, c, k - 1));
      }
      StructDeclares(G, t, k);
    } else {
      OtherDeclares(G, t, k);
    }
  }

  lemma DeclaresScalars(G: Graph, t: nat, k: nat, r: NetType)
    requires Grounded(G, t, k) && Declares(G, t, k, r)
    ensures Scalars(r) == DeclaredScalars(G, t, k)
  {
  }

  /** The elaborated field for name `i` of member `j`. */
  ghost predicate FieldDeclares(G: Graph, members: seq<Member>, fields: seq<Field>, k: nat, j: nat, i: nat)
  {
    && j < |members| && i < |members[j].names| && Grounded(G, members[j].memberType, k) &&
    var at, d, c := Start(members, j) + i, members[j].names[i], members[j].memberType;
    && at < |fields| && fields[at].name == d.name
    && Unpacked(fields[at].fieldType) == d.dims + DeclaredUnpacked(G, c, k)
    && Core(fields[at].fieldType) == Core(Plain(G, c, k))
  }

  lemma PlainUnpacked(G: Graph, t: nat, k: nat)
    requires Grounded(G, t, k)
    ensures Unpacked(Plain(G, t, k)) == DeclaredUnpacked(G, t, k)
  {
    PlainDeclares(G, t, k);
  }

  lemma FieldOf(G: Graph, members: seq<Member>, m: Types, k: nat, j: nat, i: nat)
    requires forall n :: 0 <= n < |members| ==> members[n].memberType in m
    requires j < |members| && i < |members[j].names| && Grounded(G, members[j].memberType, k)
    requires m[members[j].memberType] == Plain(G, members[j].memberType, k)
    ensures FieldDeclares(G, members, AllFields(members, m), k, j, i)
  {
    hide Plain, Grounded, AllFields, DeclaredUnpacked, Unpacked, Core, Start;
    FieldIs(members, m, j, i);
    PlainUnpacked(G, members[j].memberType, k);
  }

  /** Name `i` of member `j` of a struct: its own dimensions come before those declared for the
      member type, and inside them is what the member type declares. */
  lemma StructFields(G: Graph, t: nat, k: nat, j: nat, i: nat)
    requires Grounded(G, t, k) && G[t].Struct? && j < |G[t].members| && i < |G[t].members[j].names|
    ensures k > 0 && Plain(G, t, k).NStruct? && FieldDeclares(G, G[t].members, Plain(G, t, k).fields, k - 1, j, i)
  {
    assert t in G;
    hide Plain, Grounded, AllFields, Parts, FieldDeclares;
    StructBuilt(G, t, k);
    assert PartIs(G, t, k, G[t].members[j].memberType);
    FieldOf(G, G[t].members, Parts(G, t, k), k - 1, j, i);
  }
}
