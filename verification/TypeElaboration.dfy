/**
 data_type_t::elaborate_type: elaboration of types in one scope, with a cache and an
 in-progress flag that detects circular definitions.
 */
module TypeElaboration {
  import opened TypeGraph
  import opened TypeMeaning
  import opened TypeErrors

  ghost predicate Grows(a: Types, b: Types)
  {
    a.Keys <= b.Keys && forall t :: t in a ==> b[t] == a[t]
  }

  /** The cached type is what plain recursion gives. */
  ghost predicate Right(G: Graph, m: Types, t: nat)
  {
    t in m && exists k :: Grounded(G, t, k) && m[t] == Plain(G, t, k)
  }

  /** A cache without wrong or incomplete entries. */
  ghost predicate Sound(G: Graph, m: Types)
  {
    forall t :: t in m ==> Right(G, m, t) && Children(G[t]) <= m.Keys
  }

  lemma Bound(G: Graph, m: Types, s: set<nat>) returns (k: nat)
    requires forall t :: t in s ==> Right(G, m, t)
    ensures forall t :: t in s ==> t in m && Grounded(G, t, k) && m[t] == Plain(G, t, k)
  {
    k := 0;
    if s != {} {
      var t :| t in s;
      var a := Bound(G, m, s - {t});
      assert Right(G, m, t);
      var b: nat :| Grounded(G, t, b) && m[t] == Plain(G, t, b);
      k := if a < b then b else a;
      forall u | u in s ensures u in m && Grounded(G, u, k) && m[u] == Plain(G, u, k) {
        if u == t { GroundedMore(G, u, b, k); } else { GroundedMore(G, u, a, k); }
      }
    }
  }

  /** A type built from right parts is right. */
  lemma BuildRight(G: Graph, m: Types, t: nat)
    requires t in G && forall c :: c in Children(G[t]) ==> Right(G, m, c)
    requires Children(G[t]) <= m.Keys
    ensures exists k :: Grounded(G, t, k) && Build(G[t], m) == Plain(G, t, k)
  {
    var k := Bound(G, m, Children(G[t]));
    assert Grounded(G, t, k + 1);
    BuildAgree(G[t], m, map c | c in Children(G[t]) :: Plain(G, c, k + 1 - 1));
    assert Build(G[t], m) == Plain(G, t, k + 1);
  }

  lemma GrowsRight(G: Graph, a: Types, b: Types)
    requires Grows(a, b)
    ensures forall t :: Right(G, a, t) ==> Right(G, b, t)
  {
  }

  lemma SoundInsert(G: Graph, m: Types, t: nat, r: NetType)
    requires Sound(G, m) && t in G && t !in m && Children(G[t]) <= m.Keys && r == Build(G[t], m)
    ensures Sound(G, m[t := r])
  {
    BuildRight(G, m, t);
    var m' := m[t := r];
    GrowsRight(G, m, m');
    assert Right(G, m', t);
  }

  lemma SoundClosed(G: Graph, m: Types)
    requires Sound(G, m)
    ensures forall u :: u in m ==> Children(G[u]) <= m.Keys
  {
  }

  /** Following the references of cached types stays in the cache. */
  lemma {:induction false} SoundReach(G: Graph, m: Types, p: seq<nat>, i: nat)
    requires Sound(G, m) && IsPath(G, p) && p[0] in m && i < |p|
    ensures p[i] in m && Right(G, m, p[i])
  {
    if i > 0 {
      SoundReach(G, m, p, i - 1);
      assert Edge(G, p[i - 1], p[i - 1 + 1]);
    }
  }

  predicate Distinct(s: seq<nat>)
  {
    forall i, j :: 0 <= i < j < |s| ==> s[i] != s[j]
  }

  function Elems(s: seq<nat>): set<nat>
  {
    set t | t in s
  }

  lemma ElemsSnoc(s: seq<nat>, t: nat)
    ensures Elems(s + [t]) == Elems(s) + {t}
    ensures t !in Elems(s) ==> Elems(s + [t]) - {t} == Elems(s)
    ensures t !in Elems(s) && Distinct(s) ==> Distinct(s + [t])
    ensures t in Elems(s) ==> t in s
  {
  }

  class Elaborator {
    const G: Graph
    var cache: Types
    var elaborating: set<nat>
    var errors: nat
    /** How many of the errors are circular definitions. */
    var circular: nat

    constructor (g: Graph)
      requires Closed(g)
      ensures G == g && cache == map[] && elaborating == {} && errors == 0 && circular == 0
    {
      G, cache, elaborating, errors, circular := g, map[], {}, 0, 0;
    }

    /** `stack` is the chain of types being elaborated. While no circularity has been seen, the
        cache holds finished types only and all of them are right. */
    ghost predicate Inv(stack: seq<nat>)
      reads this`cache, this`elaborating, this`circular
    {
      && Closed(G) && cache.Keys <= G.Keys && elaborating <= G.Keys
      && elaborating == Elems(stack) && Distinct(stack)
      && (circular == 0 ==> Sound(G, cache) && forall t :: t in elaborating ==> t !in cache)
    }

    /** Every call leaves the same stack, a larger cache, and, behind every circularity error,
        a path that meets a type twice. */
    method ElaborateType(t: nat, ghost stack: seq<nat>) returns (r: NetType)
      requires t in G && Inv(stack) && IsPath(G, stack + [t])
      modifies this
      ensures Inv(stack) && elaborating == old(elaborating) && Grows(old(cache), cache) && t in cache
      ensures old(circular) <= circular && old(errors) - old(circular) <= errors - circular
      ensures circular > old(circular) ==> CycleFrom(G, (stack + [t])[0])
      ensures circular == 0 ==> r == cache[t]
      ensures circular == 0 ==> Accounted(G, t, old(cache), cache, old(errors), errors, 0)
      decreases |G.Keys - elaborating|, 0
    {
      hide CycleFrom, Sound, Build, Elems, Closed, Accounted;
      AccountNone(G, t, cache, errors);
      if t in cache { return cache[t]; }
      ElemsSnoc(stack, t);
      if t in elaborating {
        errors, circular := errors + 1, circular + 1;
        r := NInteger;
        Repeats(G, stack, t);
      } else {
        Fewer(G.Keys, elaborating, t);
        elaborating := elaborating + {t};
        r := ElaborateRaw(t, stack + [t]);
        elaborating := elaborating - {t};
        if circular == 0 {
          SoundInsert(G, cache, t, r);
          SoundClosed(G, cache);
          AccountInsert(G, t, old(cache), cache, old(errors), errors, r);
        }
      }
      assert Grows(old(cache), cache);
      if t !in cache { cache := cache[t := r]; }
    }

    /** The elaborate_type_raw methods. */
    method ElaborateRaw(t: nat, ghost stack: seq<nat>) returns (r: NetType)
      requires t in G && Inv(stack) && IsPath(G, stack) && stack[|stack| - 1] == t
      modifies this
      ensures Inv(stack) && elaborating == old(elaborating) && Grows(old(cache), cache)
      ensures old(circular) <= circular && old(errors) - old(circular) <= errors - circular
      ensures circular > old(circular) ==> CycleFrom(G, stack[0])
      ensures circular == 0 ==> Children(G[t]) <= cache.Keys && r == Build(G[t], cache)
      ensures circular == 0 ==> Accounted(G, t, old(cache), cache, old(errors), errors, LocalErrors(G[t], cache))
      decreases |G.Keys - elaborating|, 5
    {
      hide Accounted, Sound, Elems, CycleFrom, Grows;
      AccountNone(G, t, cache, errors);
      GrowsRefl(cache);
      match G[t] {
        case Scalar(c, v) =>
          r := NScalar(c, v);
        case PArray(dims, base) =>
          var etype := ElaboratePart(base, t, stack);
          if circular == 0 && !etype.Packed() { AccountMore(G, t, old(cache), cache, old(errors), errors, 0, 1); }
          if !etype.Packed() { errors := errors + 1; }
          r := NPArray(dims, etype);
        case UArray(dims, base) =>
          var btype := ElaboratePart(base, t, stack);
          r := Arrayed(dims, btype);
        case Ref(target) =>
          r := ElaboratePart(target, t, stack);
        case Enum(base, n) =>
          var btype := ElaboratePart(base, t, stack);
          if circular == 0 && !EnumBase(btype) { AccountMore(G, t, old(cache), cache, old(errors), errors, 0, 1); }
          if !(btype.NInteger? || btype.NPArray? || (btype.NScalar? && btype.vectorLike)) { errors := errors + 1; }
          r := NEnum(btype, n);
        case Struct(p, members) =>
          var fields := ElaborateMembers(t, stack);
          r := NStruct(p, fields);
      }
    }

    /** A type that `t` refers to. */
    method ElaboratePart(c: nat, t: nat, ghost stack: seq<nat>) returns (r: NetType)
      requires t in G && Inv(stack) && IsPath(G, stack) && stack[|stack| - 1] == t && c in Children(G[t])
      modifies this
      ensures Inv(stack) && elaborating == old(elaborating) && Grows(old(cache), cache) && c in cache
      ensures old(circular) <= circular && old(errors) - old(circular) <= errors - circular
      ensures circular > old(circular) ==> CycleFrom(G, stack[0])
      ensures circular == 0 ==> r == cache[c]
      ensures circular == 0 ==> Accounted(G, t, old(cache), cache, old(errors), errors, 0)
      decreases |G.Keys - elaborating|, 1
    {
      hide Accounted;
      PathSnoc(G, stack, c);
      r := ElaborateType(c, stack);
      assert (stack + [c])[0] == stack[0];
      if circular == 0 { AccountPart(G, t, c, old(cache), cache, old(errors), errors, 0); }
    }

    /** A packed struct takes no initial values. */
    method CheckInitialisers(names: seq<Decl>, packed: bool)
      modifies this`errors
      ensures errors == old(errors) + if packed then Initialised(names) else 0
    {
      for n := 0 to |names|
        invariant errors == old(errors) + if packed then Initialised(names[..n]) else 0
      {
        assert names[..n + 1][..n] == names[..n];
        if packed && names[n].init { errors := errors + 1; }
      }
      assert names[..|names|] == names;
    }

    /** One member: its type, then a field for each of its names. */
    method ElaborateMember(t: nat, k: nat, ghost stack: seq<nat>) returns (fields: seq<Field>)
      requires t in G && G[t].Struct? && k < |G[t].members| && Inv(stack) && IsPath(G, stack) && stack[|stack| - 1] == t
      modifies this
      ensures Inv(stack) && elaborating == old(elaborating) && Grows(old(cache), cache)
      ensures old(circular) <= circular && old(errors) - old(circular) <= errors - circular
      ensures circular > old(circular) ==> CycleFrom(G, stack[0])
      ensures G[t].members[k].memberType in cache
      ensures circular == 0 ==> fields == Fields(G[t].members[k].names, cache[G[t].members[k].memberType])
      ensures circular == 0 ==> Accounted(G, t, old(cache), cache, old(errors), errors, InitialisedAt(G[t], k))
      decreases |G.Keys - elaborating|, 2
    {
      hide CycleFrom, Sound, Elems, IsPath, Grows, Accounted, Initialised, Closed, Distinct;
      BuildStruct(G[t]);
      hide Children;
      var member := G[t].members[k];
      var memType := ElaboratePart(member.memberType, t, stack);
      if circular == 0 { AccountMore(G, t, old(cache), cache, old(errors), errors, 0, InitialisedAt(G[t], k)); }
      CheckInitialisers(member.names, G[t].packed);
      fields := Fields(member.names, memType);
    }

    /** The members of a struct, in order, each with all its names. */
    method ElaborateMembers(t: nat, ghost stack: seq<nat>) returns (fields: seq<Field>)
      requires t in G && G[t].Struct? && Inv(stack) && IsPath(G, stack) && stack[|stack| - 1] == t
      modifies this
      ensures Inv(stack) && elaborating == old(elaborating) && Grows(old(cache), cache)
      ensures old(circular) <= circular && old(errors) - old(circular) <= errors - circular
      ensures circular > old(circular) ==> CycleFrom(G, stack[0])
      ensures circular == 0 ==> Children(G[t]) <= cache.Keys && NStruct(G[t].packed, fields) == Build(G[t], cache)
      ensures circular == 0 ==> Accounted(G, t, old(cache), cache, old(errors), errors, LocalErrors(G[t], cache))
      decreases |G.Keys - elaborating|, 4
    {
      assert stack != [];
      hide CycleFrom, Inv, IsPath, Grows, Children, Build, Progress, Going, Accounted, LocalErrors, InitialisedAt, Fields;
      fields := [];
      GoingNone(G, stack[0], cache, circular, errors);
      ProgressNone(G, t, cache, errors, circular);
      for k := 0 to |G[t].members|
        invariant Inv(stack) && elaborating == old(elaborating)
        invariant Going(G, stack[0], old(cache), cache, old(circular), circular, old(errors), errors)
        invariant Progress(G, t, k, old(cache), cache, old(errors), errors, fields, circular)
      {
        ghost var before, seen, counted := cache, circular, errors;
        var more := ElaborateMember(t, k, stack);
        GoingOn(G, stack[0], old(cache), before, cache, old(circular), seen, circular, old(errors), counted, errors);
        ProgressStep(G, t, k, old(cache), before, cache, old(errors), counted, errors, fields, seen, more, circular);
        fields := fields + more;
      }
      GoingEnd(G, stack[0], old(cache), cache, old(circular), circular, old(errors), errors);
      ProgressAll(G, t, old(cache), cache, old(errors), errors, fields, circular);
    }
  }

  /** What elaboration does to the cache and the error counts: a type is never replaced, and a
      circularity error has a cycle behind it. */
  ghost predicate Going(G: Graph, s: nat, m0: Types, m: Types, n0: int, n: int, e0: int, e: int)
  {
    Grows(m0, m) && n0 <= n && e0 - n0 <= e - n && (n > n0 ==> CycleFrom(G, s))
  }

  lemma GoingNone(G: Graph, s: nat, m: Types, n: int, e: int)
    ensures Going(G, s, m, m, n, n, e, e)
  {
  }

  lemma GoingOn(G: Graph, s: nat, m0: Types, a: Types, b: Types, n0: int, na: int, nb: int, e0: int, ea: int, eb: int)
    requires Going(G, s, m0, a, n0, na, e0, ea)
    requires Grows(a, b) && na <= nb && ea - na <= eb - nb && (nb > na ==> CycleFrom(G, s))
    ensures Going(G, s, m0, b, n0, nb, e0, eb)
  {
    hide CycleFrom;
  }

  lemma GoingEnd(G: Graph, s: nat, m0: Types, m: Types, n0: int, n: int, e0: int, e: int)
    requires Going(G, s, m0, m, n0, n, e0, e)
    ensures Grows(m0, m) && n0 <= n && e0 - n0 <= e - n && (n > n0 ==> CycleFrom(G, s))
  {
  }

  /** How far the members of a struct have come: the fields made, and the errors counted. */
  ghost predicate Progress(G: Graph, t: nat, k: nat, m0: Types, m: Types, e0: int, e: int, fields: seq<Field>, n: int)
  {
    && t in G && G[t].Struct? && k <= |G[t].members|
    && Done(G[t].members, k, m, fields, n == 0)
    && (n == 0 ==> Accounted(G, t, m0, m, e0, e, if G[t].packed then InitialisedIn(G[t].members, k) else 0))
  }

  lemma ProgressNone(G: Graph, t: nat, m: Types, e: int, n: int)
    requires t in G && G[t].Struct?
    ensures Progress(G, t, 0, m, m, e, e, [], n)
  {
    DoneNone(G[t].members, m);
    AccountNone(G, t, m, e);
    hide Done, Accounted;
  }

  lemma ProgressStep(G: Graph, t: nat, k: nat, m0: Types, a: Types, b: Types, e0: int, ea: int, eb: int,
                     fields: seq<Field>, na: int, more: seq<Field>, nb: int)
    requires t in G && G[t].Struct? && k < |G[t].members| && Progress(G, t, k, m0, a, e0, ea, fields, na)
    requires Grows(a, b) && G[t].members[k].memberType in b
    requires nb == 0 ==> na == 0 && more == Fields(G[t].members[k].names, b[G[t].members[k].memberType])
    requires nb == 0 ==> Accounted(G, t, a, b, ea, eb, InitialisedAt(G[t], k))
    ensures Progress(G, t, k + 1, m0, b, e0, eb, fields + more, nb)
  {
    hide Done, Accounted, Grows, Fields, Initialised;
    DoneStep(G[t].members, k, a, b, fields, na == 0, more, nb == 0);
    if nb == 0 {
      var extra := if G[t].packed then InitialisedIn(G[t].members, k) else 0;
      AccountTrans(G, t, m0, a, b, e0, ea, eb, extra, InitialisedAt(G[t], k));
    }
  }

  lemma ProgressAll(G: Graph, t: nat, m0: Types, m: Types, e0: int, e: int, fields: seq<Field>, n: int)
    requires t in G && G[t].Struct? && Progress(G, t, |G[t].members|, m0, m, e0, e, fields, n)
    ensures Children(G[t]) <= m.Keys
    ensures n == 0 ==> NStruct(G[t].packed, fields) == Build(G[t], m) && Accounted(G, t, m0, m, e0, e, LocalErrors(G[t], m))
  {
    hide Accounted;
    DoneAll(G[t], m, fields, n == 0);
  }

  /** The types of the first k members are in the cache, and the fields made of them, where no
      circularity was met, are those of the cache. */
  ghost predicate Done(members: seq<Member>, k: nat, m: Types, fields: seq<Field>, clean: bool)
    requires k <= |members|
  {
    && (forall j :: 0 <= j < k ==> members[j].memberType in m)
    && (clean ==> fields == AllFields(members[..k], m))
  }

  lemma DoneNone(members: seq<Member>, m: Types)
    ensures Done(members, 0, m, [], true) && Done(members, 0, m, [], false)
  {
  }

  lemma DoneStep(members: seq<Member>, k: nat, a: Types, b: Types, fields: seq<Field>, cleanA: bool, more: seq<Field>, cleanB: bool)
    requires k < |members| && Done(members, k, a, fields, cleanA) && Grows(a, b) && members[k].memberType in b
    requires cleanB ==> cleanA && more == Fields(members[k].names, b[members[k].memberType])
    ensures Done(members, k + 1, b, fields + more, cleanB)
  {
    hide Fields;
    if cleanB { MemberAdded(members, k, a, b); }
  }

  lemma DoneAll(d: TypeDef, m: Types, fields: seq<Field>, clean: bool)
    requires d.Struct? && Done(d.members, |d.members|, m, fields, clean)
    ensures Children(d) <= m.Keys
    ensures clean ==> NStruct(d.packed, fields) == Build(d, m)
  {
    assert d.members[..|d.members|] == d.members;
  }

  lemma GrowsRefl(a: Types)
    ensures Grows(a, a)
  {
  }

  lemma BuildStruct(d: TypeDef)
    requires d.Struct?
    ensures forall k :: 0 <= k < |d.members| ==> d.members[k].memberType in Children(d)
  {
  }

  lemma MemberAdded(members: seq<Member>, k: nat, a: Types, b: Types)
    requires k < |members| && Grows(a, b) && members[k].memberType in b
    requires forall j :: 0 <= j < k ==> members[j].memberType in a
    ensures AllFields(members[..k + 1], b) ==
              AllFields(members[..k], a) + Fields(members[k].names, b[members[k].memberType])
  {
    assert members[..k + 1][..k] == members[..k];
    AllFieldsAgree(members[..k], a, b, a.Keys);
  }

  lemma PathSnoc(G: Graph, stack: seq<nat>, c: nat)
    requires IsPath(G, stack) && c in G && Edge(G, stack[|stack| - 1], c)
    ensures IsPath(G, stack + [c])
  {
    var p := stack + [c];
    forall k | 0 <= k < |p| - 1 ensures Edge(G, p[k], p[k + 1]) {
      if k < |stack| - 1 { assert Edge(G, stack[k], stack[k + 1]); }
    }
  }

  /** Meeting a type that is on the stack closes a cycle. */
  lemma Repeats(G: Graph, stack: seq<nat>, t: nat)
    requires IsPath(G, stack + [t]) && t in stack
    ensures CycleFrom(G, (stack + [t])[0])
  {
    var i :| 0 <= i < |stack| && stack[i] == t;
    var p := stack + [t];
    assert p[i] == p[|stack|];
  }

  lemma Fewer(all: set<nat>, some: set<nat>, t: nat)
    requires t in all && t !in some
    ensures |all - (some + {t})| < |all - some|
  {
    assert all - some == (all - (some + {t})) + {t};
  }

  /** Elaboration of a type in a fresh scope. It terminates; it reports a circular definition
      exactly when following references from `t` runs into a cycle; and otherwise every type
      reachable from `t` is cached as what plain recursion gives, as is the result. */
  method ElaborateFresh(G: Graph, t: nat) returns (r: NetType, e: Elaborator)
    requires Closed(G) && t in G
    ensures fresh(e) && e.G == G && e.elaborating == {}
    ensures e.circular > 0 <==> CycleFrom(G, t)
    ensures e.circular == 0 ==> exists k :: Grounded(G, t, k) && r == Plain(G, t, k) && Declares(G, t, k, r)
    ensures e.circular == 0 ==> forall p :: IsPath(G, p) && p[0] == t ==> Right(G, e.cache, p[|p| - 1])
    ensures e.circular == 0 ==> forall u :: u in e.cache <==> Reaches(G, t, u)
    ensures e.circular == 0 ==> e.errors == ErrorSum(G, e.cache)
  {
    e := new Elaborator(G);
    hide Declares, Accounted, Sound, Elems, Right, Grounded, ErrorSum, Reaches;
    NoneYet(G, t);
    r := e.ElaborateType(t, []);
    assert ([] + [t])[0] == t;
    if e.circular == 0 {
      FreshRight(G, t, e.cache);
      FreshErrors(G, t, e.cache, e.errors);
    }
  }

  lemma NoneYet(G: Graph, t: nat)
    requires t in G
    ensures Sound(G, map[]) && Elems([]) == {} && IsPath(G, [] + [t])
  {
  }

  lemma FreshRight(G: Graph, t: nat, m: Types)
    requires Sound(G, m) && t in m
    ensures !CycleFrom(G, t)
    ensures exists k :: Grounded(G, t, k) && m[t] == Plain(G, t, k) && Declares(G, t, k, m[t])
    ensures forall p :: IsPath(G, p) && p[0] == t ==> Right(G, m, p[|p| - 1])
    ensures forall u :: Reaches(G, t, u) ==> u in m
  {
    assert Right(G, m, t);
    var k: nat :| Grounded(G, t, k) && m[t] == Plain(G, t, k);
    GroundedMeansAcyclic(G, t, k);
    PlainDeclares(G, t, k);
    hide Declares, Plain, CycleFrom;
    forall p | IsPath(G, p) && p[0] == t ensures p[|p| - 1] in m && Right(G, m, p[|p| - 1]) {
      SoundReach(G, m, p, |p| - 1);
    }
  }

  lemma FreshErrors(G: Graph, t: nat, m: Types, e: int)
    requires Accounted(G, t, map[], m, 0, e, 0)
    ensures e == ErrorSum(G, m) && forall u :: u in m ==> Reaches(G, t, u)
  {
    hide Reaches, LocalErrors;
  }
}
