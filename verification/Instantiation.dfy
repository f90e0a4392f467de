/**
 Scope elaboration of module instances (PGModule::elaborate_scope_mod_): a module may
 instantiate itself, through any other modules, only from within a generate block and only to
 a limited depth.
 */
module Instantiation {

  /** What the text of a scope asks for. */
  datatype Item =
    | Instance(mod: string)
    | Block(generate: bool, items: seq<Item>)

  datatype Scope =
    | ModuleScope(mod: string)
    | BlockScope(generate: bool, items: seq<Item>)

  /** A scope with its parents, innermost first. */
  type Chain = seq<Scope>

  /** The items of a module may depend on parameters, hence on the whole path to it. */
  datatype Design = Design(limit: nat, modules: map<string, Chain -> seq<Item>>)

  function Count(chain: Chain, m: string): nat
  {
    if chain == [] then 0 else (if chain[0] == ModuleScope(m) then 1 else 0) + Count(chain[1..], m)
  }

  predicate IsGenerate(s: Scope)
  {
    s.BlockScope? && s.generate
  }

  /** A generate block lies strictly inside ancestor k. */
  ghost predicate Shielded(chain: Chain, k: nat)
    requires k <= |chain|
  {
    exists j :: 0 <= j < k && IsGenerate(chain[j])
  }

  /** An instance of m may be put into the scope at the head of the chain. */
  ghost predicate Allowed(limit: nat, chain: Chain, m: string)
  {
    && Count(chain, m) <= limit
    && forall k :: 0 <= k < |chain| && chain[k] == ModuleScope(m) ==> Shielded(chain, k)
  }

  lemma {:induction false} CountSplit(chain: Chain, k: nat, m: string)
    requires k <= |chain|
    ensures Count(chain, m) == Count(chain[..k], m) + Count(chain[k..], m)
  {
    if k > 0 {
      CountSplit(chain[1..], k - 1, m);
      assert chain[1..][..k - 1] == chain[..k][1..] && chain[1..][k - 1..] == chain[k..];
    } else {
      assert chain[0..] == chain && chain[..0] == [];
    }
  }

  /** The walk up the scope chain. */
  method MayInstantiate(limit: nat, chain: Chain, m: string) returns (ok: bool)
    ensures ok == Allowed(limit, chain, m)
  {
    var rlCount := 0;
    var inGenerate := false;
    for k := 0 to |chain|
      invariant inGenerate == Shielded(chain, k)
      invariant rlCount == Count(chain[..k], m) <= limit
      invariant forall i :: 0 <= i < k && chain[i] == ModuleScope(m) ==> Shielded(chain, i)
    {
      var scn := chain[k];
      CountSplit(chain[..k + 1], k, m);
      CountSplit(chain, k + 1, m);
      assert chain[..k + 1][..k] == chain[..k] && chain[..k + 1][k..] == [scn];
      assert Shielded(chain, k + 1) == (Shielded(chain, k) || IsGenerate(scn));
      if scn.BlockScope? {
        if scn.generate { inGenerate := true; }
      } else if scn.mod == m {
        if !inGenerate {
          return false;
        }
        rlCount := rlCount + 1;
        if rlCount > limit {
          return false;
        }
      }
    }
    assert chain[..|chain|] == chain;
    ok := true;
  }

  /** What the walk decides, without counting: a module that is not above may be instantiated; one
      that is above must have a generate block below each of its instances. */
  lemma AllowedMeans(limit: nat, chain: Chain, m: string)
    ensures (forall k :: 0 <= k < |chain| ==> chain[k] != ModuleScope(m)) ==> Allowed(limit, chain, m)
    ensures Allowed(limit, chain, m) ==> forall k :: 0 <= k < |chain| && chain[k] == ModuleScope(m) ==>
      exists j :: 0 <= j < k && chain[j].BlockScope? && chain[j].generate
    ensures (exists k :: 0 <= k < |chain| && chain[k] == ModuleScope(m)) ==> !Allowed(0, chain, m)
  {
    CountIs(chain, m);
    var places := Places(chain, m);
    if k :| 0 <= k < |chain| && chain[k] == ModuleScope(m) {
      assert k in places;
    } else {
      assert places == {};
    }
    forall k | 0 <= k < |chain| && chain[k] == ModuleScope(m) && Shielded(chain, k)
      ensures exists j :: 0 <= j < k && chain[j].BlockScope? && chain[j].generate
    {
      var j :| 0 <= j < k && IsGenerate(chain[j]);
    }
  }

  /** The positions of the instances of a module. */
  function Places(chain: Chain, m: string): set<int>
  {
    set k: int | 0 <= k < |chain| && chain[k] == ModuleScope(m)
  }

  lemma PlacesSnoc(chain: Chain, s: Scope, m: string)
    ensures Places(chain + [s], m) == Places(chain, m) + if s == ModuleScope(m) then {|chain|} else {}
    ensures |chain| !in Places(chain, m)
  {
  }

  lemma {:induction false} CountIs(chain: Chain, m: string)
    ensures Count(chain, m) == |Places(chain, m)|
  {
    if chain == [] {
      assert Places(chain, m) == {};
    } else {
      var n := |chain| - 1;
      var init, last := chain[..n], chain[n];
      assert chain == init + [last] && chain[n..] == [last] && [last][1..] == [];
      CountSplit(chain, n, m);
      assert Count([last], m) == if last == ModuleScope(m) then 1 else 0;
      CountIs(init, m);
      PlacesSnoc(init, last, m);
      hide Count, Places;
    }
  }

  // ----- Chains of scopes that were all accepted -----

  /** Every module scope of the chain was accepted where it was put. */
  ghost predicate Accepted(limit: nat, chain: Chain)
  {
    chain != [] ==>
      && Accepted(limit, chain[1..])
      && (chain[0].ModuleScope? ==> Allowed(limit, chain[1..], chain[0].mod))
  }

  /** Two instances of one module have a generate block between them. */
  ghost predicate Separated(chain: Chain)
  {
    forall i, k :: 0 <= i < k < |chain| && chain[i].ModuleScope? && chain[i] == chain[k] ==> Between(chain, i, k)
  }

  ghost predicate Between(chain: Chain, i: nat, k: nat)
    requires k <= |chain|
  {
    exists j :: i < j < k && IsGenerate(chain[j])
  }

  ghost predicate AtMost(chain: Chain, n: nat)
  {
    forall m :: Count(chain, m) <= n
  }

  /** What local acceptance amounts to: the accepted chains are exactly those with at most
      limit + 1 instances of any module, successive ones separated by a generate block. */
  lemma {:induction false} AcceptedIff(limit: nat, chain: Chain)
    ensures Accepted(limit, chain) <==>
      AtMost(chain, limit + 1) && Separated(chain)
  {
    if chain == [] { return; }
    var tail := chain[1..];
    AcceptedIff(limit, tail);
    SeparatedTail(chain);
    CountTail(limit, chain);
  }

  lemma CountTail(limit: nat, chain: Chain)
    requires chain != []
    ensures AtMost(chain, limit + 1) <==>
      AtMost(chain[1..], limit + 1) && (chain[0].ModuleScope? ==> Count(chain[1..], chain[0].mod) <= limit)
  {
    hide AtMost;
    var tail := chain[1..];
    if AtMost(chain, limit + 1) {
      forall m ensures Count(tail, m) <= limit + 1 { AtMostAt(chain, limit + 1, m); }
      AtMostAll(tail, limit + 1);
      if chain[0].ModuleScope? { AtMostAt(chain, limit + 1, chain[0].mod); }
    }
    if AtMost(tail, limit + 1) && (chain[0].ModuleScope? ==> Count(tail, chain[0].mod) <= limit) {
      forall m ensures Count(chain, m) <= limit + 1 { AtMostAt(tail, limit + 1, m); }
      AtMostAll(chain, limit + 1);
    }
  }

  lemma AtMostAt(chain: Chain, n: nat, m: string)
    requires AtMost(chain, n)
    ensures Count(chain, m) <= n
  {
  }

  lemma AtMostAll(chain: Chain, n: nat)
    requires forall m :: Count(chain, m) <= n
    ensures AtMost(chain, n)
  {
  }

  lemma SeparatedTail(chain: Chain)
    requires chain != []
    ensures Separated(chain) <==>
      && Separated(chain[1..])
      && (chain[0].ModuleScope? ==>
            forall k :: 0 <= k < |chain| - 1 && chain[1..][k] == chain[0] ==> Shielded(chain[1..], k))
  {
    var tail := chain[1..];
    forall i: nat, k: nat | 0 < i < k < |chain| ensures Between(chain, i, k) <==> Between(tail, i - 1, k - 1) {
      if Between(chain, i, k) {
        var j :| i < j < k && IsGenerate(chain[j]);
        assert IsGenerate(tail[j - 1]);
      }
      if Between(tail, i - 1, k - 1) {
        var j :| i - 1 < j < k - 1 && IsGenerate(tail[j]);
        assert IsGenerate(chain[j + 1]);
      }
    }
    forall k: nat | 0 < k < |chain| ensures Between(chain, 0, k) <==> Shielded(tail, k - 1) {
      if Between(chain, 0, k) {
        var j :| 0 < j < k && IsGenerate(chain[j]);
        assert IsGenerate(tail[j - 1]);
      }
      if Shielded(tail, k - 1) {
        var j :| 0 <= j < k - 1 && IsGenerate(tail[j]);
        assert IsGenerate(chain[j + 1]);
      }
    }
    if Separated(chain) {
      forall i, k | 0 <= i < k < |tail| && tail[i].ModuleScope? && tail[i] == tail[k] ensures Between(tail, i, k) {
        assert Between(chain, i + 1, k + 1);
      }
      forall k | 0 <= k < |tail| && chain[0].ModuleScope? && tail[k] == chain[0] ensures Shielded(tail, k) {
        assert Between(chain, 0, k + 1);
      }
    }
  }

  // ----- Depth -----

  /** How many module instances lie on the chain. */
  function Depth(chain: Chain): nat
  {
    if chain == [] then 0 else (if chain[0].ModuleScope? then 1 else 0) + Depth(chain[1..])
  }

  ghost predicate Known(names: set<string>, chain: Chain)
  {
    forall k :: 0 <= k < |chain| && chain[k].ModuleScope? ==> chain[k].mod in names
  }

  /** Scopes of module m left out. */
  function Without(chain: Chain, m: string): (r: Chain)
    ensures forall s :: s in r ==> s in chain && s != ModuleScope(m)
  {
    if chain == [] then []
    else if chain[0] == ModuleScope(m) then Without(chain[1..], m)
    else [chain[0]] + Without(chain[1..], m)
  }

  lemma {:induction false} WithoutCounts(chain: Chain, m: string, other: string)
    ensures Depth(chain) == Count(chain, m) + Depth(Without(chain, m))
    ensures Count(Without(chain, m), other) <= Count(chain, other)
  {
    if chain != [] {
      var tail := chain[1..];
      WithoutCounts(tail, m, other);
      if chain[0] != ModuleScope(m) {
        assert Without(chain, m)[1..] == Without(tail, m);
      }
    }
  }

  lemma {:induction false} DepthBound(names: set<string>, chain: Chain, n: nat)
    requires Known(names, chain) && forall m :: m in names ==> Count(chain, m) <= n
    ensures Depth(chain) <= |names| * n
    decreases |names|
  {
    if names == {} {
      NoModules(chain);
    } else {
      var m :| m in names;
      var rest := Without(chain, m);
      forall other | other in names - {m} ensures Count(rest, other) <= n {
        WithoutCounts(chain, m, other);
      }
      forall k | 0 <= k < |rest| && rest[k].ModuleScope? ensures rest[k].mod in names - {m} {
        assert rest[k] in chain;
        assert rest[k] == ModuleScope(rest[k].mod);
      }
      DepthBound(names - {m}, rest, n);
      WithoutCounts(chain, m, m);
      OneMore(|names - {m}|, n);
    }
  }

  lemma OneMore(a: nat, n: nat)
    ensures (a + 1) * n == a * n + n
  {
  }

  lemma {:induction false} NoModules(chain: Chain)
    requires Known({}, chain)
    ensures Depth(chain) == 0
  {
    if chain != [] {
      assert Known({}, chain[1..]);
      NoModules(chain[1..]);
    }
  }

  /** The nesting depth of modules is bounded by the number of modules and the limit. */
  lemma NestingBound(limit: nat, names: set<string>, chain: Chain)
    requires Accepted(limit, chain) && Known(names, chain)
    ensures Depth(chain) <= |names| * (limit + 1)
  {
    AcceptedIff(limit, chain);
    forall m | m in names ensures Count(chain, m) <= limit + 1 { AtMostAt(chain, limit + 1, m); }
    DepthBound(names, chain, limit + 1);
  }

  // ----- The elaboration of all scopes -----

  function ScopeOf(item: Item): Scope
  {
    match item
    case Instance(m) => ModuleScope(m)
    case Block(g, items) => BlockScope(g, items)
  }

  function ItemsOf(d: Design, chain: Chain): seq<Item>
  {
    if chain == [] then []
    else match chain[0]
      case ModuleScope(m) => if m in d.modules then d.modules[m](chain) else []
      case BlockScope(_, items) => items
  }

  ghost predicate Granted(d: Design, chain: Chain, item: Item)
  {
    item.Instance? ==> item.mod in d.modules && Allowed(d.limit, chain, item.mod)
  }

  /** Scope c is chain, or is created under it by items that are all granted. */
  ghost predicate Below(d: Design, chain: Chain, c: Chain)
    decreases |c|
  {
    c == chain || (|c| > |chain| && Below(d, chain, c[1..]) && Created(d, c[1..], c[0]))
  }

  ghost predicate Created(d: Design, chain: Chain, s: Scope)
  {
    exists i :: 0 <= i < |ItemsOf(d, chain)| && ScopeOf(ItemsOf(d, chain)[i]) == s && Granted(d, chain, ItemsOf(d, chain)[i])
  }

  /** Some item of the scope at the head of the chain is refused. */
  ghost predicate Refuses(d: Design, chain: Chain)
  {
    exists i :: 0 <= i < |ItemsOf(d, chain)| && !Granted(d, chain, ItemsOf(d, chain)[i])
  }

  ghost predicate InDesign(d: Design, chain: Chain)
  {
    chain != [] && Accepted(d.limit, chain) && Known(d.modules.Keys, chain)
  }

  /** How many more modules can be nested. */
  ghost function Room(d: Design, chain: Chain): int
  {
    |d.modules| * (d.limit + 1) - Depth(chain)
  }

  lemma RoomShrinks(d: Design, chain: Chain, item: Item)
    requires InDesign(d, chain) && Granted(d, chain, item)
    ensures InDesign(d, [ScopeOf(item)] + chain)
    ensures 0 <= Room(d, [ScopeOf(item)] + chain) <= Room(d, chain)
    ensures item.Instance? ==> Room(d, [ScopeOf(item)] + chain) < Room(d, chain)
  {
    var c := [ScopeOf(item)] + chain;
    assert c[1..] == chain;
    NestingBound(d.limit, d.modules.Keys, c);
    assert |d.modules.Keys| == |d.modules|;
  }

  function Child(d: Design, chain: Chain, j: nat): Chain
    requires j < |ItemsOf(d, chain)|
  {
    [ScopeOf(ItemsOf(d, chain)[j])] + chain
  }

  /** Scope c is created by one of the first n items of the scope at the head of the chain. */
  ghost predicate Under(d: Design, chain: Chain, n: nat, c: Chain)
    requires n <= |ItemsOf(d, chain)|
  {
    exists j :: 0 <= j < n && Granted(d, chain, ItemsOf(d, chain)[j]) && Below(d, Child(d, chain, j), c)
  }

  lemma {:induction false} BelowIsLonger(d: Design, chain: Chain, c: Chain)
    requires Below(d, chain, c)
    ensures |c| >= |chain|
  {
  }

  lemma {:induction false} UnderIsBelow(d: Design, chain: Chain, j: nat, c: Chain)
    requires j < |ItemsOf(d, chain)| && Granted(d, chain, ItemsOf(d, chain)[j]) && Below(d, Child(d, chain, j), c)
    ensures Below(d, chain, c)
    decreases |c|
  {
    BelowIsLonger(d, Child(d, chain, j), c);
    if c == Child(d, chain, j) {
      assert c[1..] == chain;
      assert Created(d, chain, c[0]);
    } else {
      UnderIsBelow(d, chain, j, c[1..]);
    }
  }

  lemma {:induction false} BelowIsUnder(d: Design, chain: Chain, c: Chain)
    requires Below(d, chain, c) && c != chain
    ensures Under(d, chain, |ItemsOf(d, chain)|, c)
    decreases |c|
  {
    if c[1..] == chain {
      var j :| 0 <= j < |ItemsOf(d, chain)| && ScopeOf(ItemsOf(d, chain)[j]) == c[0] && Granted(d, chain, ItemsOf(d, chain)[j]);
      assert c == Child(d, chain, j);
      assert Below(d, Child(d, chain, j), c);
    } else {
      BelowIsUnder(d, chain, c[1..]);
      var j :| 0 <= j < |ItemsOf(d, chain)| && Granted(d, chain, ItemsOf(d, chain)[j]) && Below(d, Child(d, chain, j), c[1..]);
      BelowIsLonger(d, Child(d, chain, j), c[1..]);
      assert Below(d, Child(d, chain, j), c);
    }
  }

  /** What the first n items of a scope amount to. */
  ghost predicate Elaborated(d: Design, chain: Chain, n: nat, scopes: set<Chain>, errors: nat)
    requires n <= |ItemsOf(d, chain)|
  {
    && (forall c :: c in scopes <==> c == chain || Under(d, chain, n, c))
    && (errors == 0 <==>
        && (forall j :: 0 <= j < n ==> Granted(d, chain, ItemsOf(d, chain)[j]))
        && (forall c :: Under(d, chain, n, c) ==> !Refuses(d, c)))
  }

  ghost predicate AllGranted(d: Design, chain: Chain)
  {
    forall c :: Below(d, chain, c) ==> !Refuses(d, c)
  }

  lemma UnderStep(d: Design, chain: Chain, n: nat)
    requires n < |ItemsOf(d, chain)|
    ensures forall c :: Under(d, chain, n + 1, c) <==>
      Under(d, chain, n, c) || (Granted(d, chain, ItemsOf(d, chain)[n]) && Below(d, Child(d, chain, n), c))
  {
    hide Granted, Below, ItemsOf;
  }

  lemma ElaboratedNone(d: Design, chain: Chain)
    ensures Elaborated(d, chain, 0, {chain}, 0)
  {
  }

  lemma ElaboratedRefused(d: Design, chain: Chain, n: nat, scopes: set<Chain>, errors: nat)
    requires n < |ItemsOf(d, chain)| && Elaborated(d, chain, n, scopes, errors)
    requires !Granted(d, chain, ItemsOf(d, chain)[n])
    ensures Elaborated(d, chain, n + 1, scopes, errors + 1)
  {
    UnderStep(d, chain, n);
    hide Granted, Below, ItemsOf, Under;
  }

  lemma ElaboratedGranted(d: Design, chain: Chain, n: nat, scopes: set<Chain>, errors: nat, more: set<Chain>, e: nat)
    requires n < |ItemsOf(d, chain)| && Elaborated(d, chain, n, scopes, errors)
    requires Granted(d, chain, ItemsOf(d, chain)[n])
    requires forall c :: c in more <==> Below(d, Child(d, chain, n), c)
    requires e == 0 <==> AllGranted(d, Child(d, chain, n))
    ensures Elaborated(d, chain, n + 1, scopes + more, errors + e)
  {
    UnderStep(d, chain, n);
    hide Granted, Below, ItemsOf, Under, Refuses;
  }

  lemma ElaboratedAll(d: Design, chain: Chain, scopes: set<Chain>, errors: nat)
    requires Elaborated(d, chain, |ItemsOf(d, chain)|, scopes, errors)
    ensures forall c :: c in scopes <==> Below(d, chain, c)
    ensures errors == 0 <==> AllGranted(d, chain)
  {
    var n := |ItemsOf(d, chain)|;
    forall c ensures Below(d, chain, c) <==> c == chain || Under(d, chain, n, c) {
      if Below(d, chain, c) && c != chain { BelowIsUnder(d, chain, c); }
      if Under(d, chain, n, c) {
        var j :| 0 <= j < n && Granted(d, chain, ItemsOf(d, chain)[j]) && Below(d, Child(d, chain, j), c);
        UnderIsBelow(d, chain, j, c);
      }
    }
    assert Below(d, chain, chain);
    assert !Refuses(d, chain) <==> forall j :: 0 <= j < n ==> Granted(d, chain, ItemsOf(d, chain)[j]);
    hide Below, Under, Granted, ItemsOf, Refuses;
  }

  /** All scopes under a scope. The recursion ends whatever the modules contain; it creates
      exactly the scopes whose items are granted all the way, and it reports an error exactly
      when one of them asks for an instance that is refused. */
  method ElaborateScope(d: Design, chain: Chain) returns (scopes: set<Chain>, errors: nat)
    requires InDesign(d, chain)
    ensures forall c :: c in scopes <==> Below(d, chain, c)
    ensures errors == 0 <==> AllGranted(d, chain)
    decreases Room(d, chain), ItemsOf(d, chain)
  {
    hide Below, Accepted, Known, Allowed, Elaborated, AllGranted, Room;
    NestingBound(d.limit, d.modules.Keys, chain);
    var items := ItemsOf(d, chain);
    scopes, errors := {chain}, 0;
    ElaboratedNone(d, chain);
    for i := 0 to |items|
      invariant Elaborated(d, chain, i, scopes, errors)
    {
      var item := items[i];
      var ok := true;
      if item.Instance? {
        ok := item.mod in d.modules;
        if ok { ok := MayInstantiate(d.limit, chain, item.mod); }
      }
      if ok {
        RoomShrinks(d, chain, item);
        var more, e := ElaborateScope(d, Child(d, chain, i));
        ElaboratedGranted(d, chain, i, scopes, errors, more, e);
        scopes, errors := scopes + more, errors + e;
      } else {
        ElaboratedRefused(d, chain, i, scopes, errors);
        errors := errors + 1;
      }
    }
    ElaboratedAll(d, chain, scopes, errors);
  }

  /** In particular every scope of a design with a known root module is accepted where it was
      put, so that all bounds on accepted chains hold of it. */
  lemma {:induction false} ScopesAreAccepted(d: Design, chain: Chain, c: Chain)
    requires InDesign(d, chain) && Below(d, chain, c)
    ensures InDesign(d, c)
    ensures Depth(c) <= |d.modules| * (d.limit + 1)
    ensures AtMost(c, d.limit + 1) && Separated(c)
    decreases |c|
  {
    if c != chain {
      ScopesAreAccepted(d, chain, c[1..]);
      var j :| 0 <= j < |ItemsOf(d, c[1..])| && ScopeOf(ItemsOf(d, c[1..])[j]) == c[0] && Granted(d, c[1..], ItemsOf(d, c[1..])[j]);
      RoomShrinks(d, c[1..], ItemsOf(d, c[1..])[j]);
      assert [c[0]] + c[1..] == c;
    }
    NestingBound(d.limit, d.modules.Keys, c);
    AcceptedIff(d.limit, c);
  }

  // ----- What is in the result -----

  /** An instance written in the text of a known module is in the result exactly when it is
      granted; so is one inside a block, generate block or not, of that text. */
  lemma TextIsElaborated(d: Design, root: Chain, c: Chain, i: nat)
    requires Below(d, root, c) && c != [] && c[0].ModuleScope? && c[0].mod in d.modules
    requires i < |d.modules[c[0].mod](c)|
    ensures d.modules[c[0].mod](c)[i].Instance? ==>
      var m := d.modules[c[0].mod](c)[i].mod;
      m in d.modules && Allowed(d.limit, c, m) ==> Below(d, root, [ModuleScope(m)] + c)
    ensures d.modules[c[0].mod](c)[i].Block? ==>
      var b := d.modules[c[0].mod](c)[i];
      Below(d, root, [BlockScope(b.generate, b.items)] + c)
  {
    var item := d.modules[c[0].mod](c)[i];
    BelowIsLonger(d, root, c);
    if item.Block? || (item.mod in d.modules && Allowed(d.limit, c, item.mod)) {
      var s := if item.Block? then BlockScope(item.generate, item.items) else ModuleScope(item.mod);
      assert Granted(d, c, ItemsOf(d, c)[i]) && ScopeOf(ItemsOf(d, c)[i]) == s;
      assert Created(d, c, s);
      assert ([s] + c)[1..] == c;
    }
  }

  lemma BlockIsElaborated(d: Design, root: Chain, c: Chain, i: nat)
    requires Below(d, root, c) && c != [] && c[0].BlockScope? && i < |c[0].items|
    ensures c[0].items[i].Instance? ==>
      var m := c[0].items[i].mod;
      m in d.modules && Allowed(d.limit, c, m) ==> Below(d, root, [ModuleScope(m)] + c)
    ensures c[0].items[i].Block? ==>
      Below(d, root, [BlockScope(c[0].items[i].generate, c[0].items[i].items)] + c)
  {
    var item := c[0].items[i];
    BelowIsLonger(d, root, c);
    if item.Block? || (item.mod in d.modules && Allowed(d.limit, c, item.mod)) {
      var s := if item.Block? then BlockScope(item.generate, item.items) else ModuleScope(item.mod);
      assert Granted(d, c, ItemsOf(d, c)[i]) && ScopeOf(ItemsOf(d, c)[i]) == s;
      assert Created(d, c, s);
      assert ([s] + c)[1..] == c;
    }
  }

  /** Nothing else is: every scope but the root stands for an item of the text of its parent. */
  lemma NothingElse(d: Design, root: Chain, c: Chain)
    requires Below(d, root, c) && c != root && |c| > 1
    ensures c[1].ModuleScope? && c[1].mod in d.modules ==>
      exists i :: 0 <= i < |d.modules[c[1].mod](c[1..])| && Stands(d.modules[c[1].mod](c[1..])[i], c[0])
    ensures c[1].BlockScope? ==> exists i :: 0 <= i < |c[1].items| && Stands(c[1].items[i], c[0])
    ensures c[0].ModuleScope? ==> c[0].mod in d.modules && Allowed(d.limit, c[1..], c[0].mod)
  {
    var i :| 0 <= i < |ItemsOf(d, c[1..])| && ScopeOf(ItemsOf(d, c[1..])[i]) == c[0] && Granted(d, c[1..], ItemsOf(d, c[1..])[i]);
    assert Stands(ItemsOf(d, c[1..])[i], c[0]);
  }

  predicate Stands(item: Item, s: Scope)
  {
    (item.Instance? && s.ModuleScope? && s.mod == item.mod)
    || (item.Block? && s.BlockScope? && s.generate == item.generate && s.items == item.items)
  }

  function ModulePlaces(chain: Chain): set<int>
  {
    set k: int | 0 <= k < |chain| && chain[k].ModuleScope?
  }

  lemma ModulePlacesSnoc(chain: Chain, s: Scope)
    ensures ModulePlaces(chain + [s]) == ModulePlaces(chain) + if s.ModuleScope? then {|chain|} else {}
    ensures |chain| !in ModulePlaces(chain)
  {
  }

  /** How deep a chain is: the number of its module scopes. */
  lemma {:induction false} DepthIs(chain: Chain)
    ensures Depth(chain) == |ModulePlaces(chain)|
  {
    if chain == [] {
      assert ModulePlaces(chain) == {};
    } else {
      var n := |chain| - 1;
      var init, last := chain[..n], chain[n];
      assert chain == init + [last];
      DepthIs(init);
      DepthSnoc(init, last);
      ModulePlacesSnoc(init, last);
      hide Depth, ModulePlaces;
    }
  }

  lemma {:induction false} DepthSnoc(chain: Chain, s: Scope)
    ensures Depth(chain + [s]) == Depth(chain) + if s.ModuleScope? then 1 else 0
  {
    if chain == [] {
      assert [] + [s] == [s] && [s][1..] == [];
    } else {
      assert (chain + [s])[1..] == chain[1..] + [s];
      DepthSnoc(chain[1..], s);
    }
  }
}
