/**
 Constructor blending (blend_class_constructors): the property initialisers that the parser
 collects in the hidden constructor "new@" move into the explicit constructor "new", behind
 the call of the base class constructor.
 */
module Constructors {

  import opened Options

  /** Null stands for the empty slot that growing a statement list leaves. */
  datatype Statement =
    | Null
    | Chain(args: seq<string>)
    | Plain(text: string)
    | Nested(block: PBlock)

  /** A begin-end block, or a fork-join block that is not sequential. */
  class PBlock {
    const sequential: bool
    var list: seq<Statement>

    constructor (sequential: bool, list: seq<Statement>)
      ensures this.sequential == sequential && this.list == list
    {
      this.sequential, this.list := sequential, list;
    }

    /** Takes a chain call off the front; the others move down one place. */
    method ExtractChain() returns (r: Option<Statement>)
      modifies this
      ensures r == LeadingChain(old(list))
      ensures list == AfterChain(old(list))
    {
      if list == [] || !list[0].Chain? {
        return None;
      }
      r := Some(list[0]);
      var idx := 0;
      while idx < |list| - 1
        invariant |list| == |old(list)| && 0 <= idx < |list|
        invariant forall k :: 0 <= k < idx ==> list[k] == old(list)[k + 1]
        invariant forall k :: idx <= k < |list| ==> list[k] == old(list)[k]
      {
        list := list[idx := list[idx + 1]];
        idx := idx + 1;
      }
      list := list[..|list| - 1];
    }

    /** Puts a statement in front; the others move up one place. A block that is not
        sequential stops the compiler. */
    method PushFront(that: Statement) returns (ok: bool)
      modifies this
      ensures ok == sequential
      ensures list == if ok then [that] + old(list) else old(list)
    {
      if !sequential {
        return false;
      }
      list := list + [Null];
      var idx := |list| - 1;
      while idx > 0
        invariant |list| == |old(list)| + 1 && 0 <= idx < |list|
        invariant forall k :: 0 <= k < idx ==> list[k] == old(list)[k]
        invariant forall k :: idx < k < |list| ==> list[k] == old(list)[k - 1]
      {
        list := list[idx := list[idx - 1]];
        idx := idx - 1;
      }
      list := list[0 := that];
      ok := true;
    }
  }

  function LeadingChain(list: seq<Statement>): Option<Statement>
  {
    if list != [] && list[0].Chain? then Some(list[0]) else None
  }

  function AfterChain(list: seq<Statement>): seq<Statement>
  {
    if list != [] && list[0].Chain? then list[1..] else list
  }

  function Opt(s: Option<Statement>): seq<Statement>
  {
    if s.Some? then [s.value] else []
  }

  class PFunction {
    var statement: Option<Statement>

    constructor (statement: Option<Statement>)
      ensures this.statement == statement
    {
      this.statement := statement;
    }

    /** The statements of the function, one after the other. */
    ghost function Body(): seq<Statement>
      reads this, Blocks()
    {
      match statement
      case None => []
      case Some(s) => if s.Nested? then s.block.list else [s]
    }

    ghost function Blocks(): set<PBlock>
      reads this
    {
      if statement.Some? && statement.value.Nested? then {statement.value.block} else {}
    }

    /** The function has a body, and not one that is a lone fork-join. */
    ghost predicate Sequential()
      reads this
    {
      statement.Some? && (statement.value.Nested? ==> statement.value.block.sequential)
    }

    method ExtractChain() returns (r: Option<Statement>)
      modifies this, Blocks()
      ensures r == LeadingChain(old(Body())) && Body() == AfterChain(old(Body()))
      ensures statement.None? == old(statement.None?)
      ensures Sequential() == old(Sequential())
      ensures forall b :: b in Blocks() ==> b in old(Blocks()) || fresh(b)
    {
      if statement.Some? && statement.value.Chain? {
        r := statement;
        var empty := new PBlock(true, []);
        statement := Some(Nested(empty));
      } else if statement.Some? && statement.value.Nested? {
        r := statement.value.block.ExtractChain();
      } else {
        r := None;
      }
    }

    /** A body that is not a block is wrapped into one first. Without a body, or with a lone
        fork-join, the compiler stops. */
    method PushFront(stmt: Statement) returns (ok: bool)
      modifies this, Blocks()
      ensures ok == old(Sequential())
      ensures ok ==> Body() == [stmt] + old(Body()) && Sequential()
      ensures forall b :: b in Blocks() ==> b in old(Blocks()) || fresh(b)
    {
      if statement.None? {
        return false;
      }
      if !statement.value.Nested? {
        var wrap := new PBlock(true, [statement.value]);
        statement := Some(Nested(wrap));
      }
      ok := statement.value.block.PushFront(stmt);
    }

    method SetStatement(s: Statement)
      requires statement.None?
      modifies this
      ensures statement == Some(s)
    {
      statement := Some(s);
    }
  }

  /** Taking a leading chain call off and putting it back restores the body. */
  method ExtractAndPush(f: PFunction) returns (r: Option<Statement>)
    requires f.Sequential()
    modifies f, f.Blocks()
    ensures r == LeadingChain(old(f.Body())) && f.Body() == old(f.Body()) && f.Sequential()
  {
    r := f.ExtractChain();
    if r.Some? {
      var ok := f.PushFront(r.value);
    }
  }

  /** The body that the constructor of a class gets: the chain call, written or implied by a
      base class, then the initialisers, then what else the constructor does. */
  function Blended(explicit: seq<Statement>, initialisers: Option<Statement>, base: Option<seq<string>>): seq<Statement>
  {
    Opt(ChainCall(explicit, base)) + Opt(initialisers) + AfterChain(explicit)
  }

  function ChainCall(explicit: seq<Statement>, base: Option<seq<string>>): Option<Statement>
  {
    if LeadingChain(explicit).Some? then LeadingChain(explicit)
    else if base.Some? then Some(Chain(base.value))
    else None
  }

  /** No statement is lost or doubled; only an implied chain call is new. */
  lemma BlendedConserves(explicit: seq<Statement>, initialisers: Option<Statement>, base: Option<seq<string>>)
    ensures multiset(Blended(explicit, initialisers, base)) ==
      multiset(Opt(ImpliedChain(explicit, base))) + multiset(Opt(initialisers)) + multiset(explicit)
  {
    var chain, rest := Opt(ChainCall(explicit, base)), AfterChain(explicit);
    assert multiset(chain + Opt(initialisers) + rest) == multiset(chain) + multiset(Opt(initialisers)) + multiset(rest);
    assert Opt(LeadingChain(explicit)) + rest == explicit;
    assert multiset(explicit) == multiset(Opt(LeadingChain(explicit))) + multiset(rest);
  }

  function ImpliedChain(explicit: seq<Statement>, base: Option<seq<string>>): Option<Statement>
  {
    if LeadingChain(explicit).None? && base.Some? then Some(Chain(base.value)) else None
  }

  /** A blended body is in its final form: the chain call, if there is any, comes first, and
      blending once more changes nothing. */
  lemma BlendedIsFinal(explicit: seq<Statement>, initialisers: Option<Statement>, base: Option<seq<string>>)
    requires initialisers.Some? ==> !initialisers.value.Chain?
    ensures LeadingChain(Blended(explicit, initialisers, base)) == ChainCall(explicit, base)
    ensures Blended(Blended(explicit, initialisers, base), None, base) == Blended(explicit, initialisers, base)
  {
    var once := Blended(explicit, initialisers, base);
    var chain := ChainCall(explicit, base);
    assert chain.Some? ==> once[0] == chain.value && once[1..] == Opt(initialisers) + AfterChain(explicit);
    assert chain.None? && initialisers.Some? ==> once[0] == initialisers.value;
    assert chain.None? && initialisers.None? ==> once == explicit;
    assert Opt(None) == [];
  }

  ghost function Owned(f: PFunction): set<object>
    reads f
  {
    {f} + f.Blocks()
  }

  /** Blending goes through with both constructors: nothing has to be put in front, or the
      explicit one is not a lone fork-join. */
  ghost predicate BothBlendable(explicit: PFunction, hidden: PFunction, base: Option<seq<string>>)
    reads Owned(explicit), hidden
  {
    explicit.statement.None? || explicit.Sequential()
    || (ChainCall(explicit.Body(), base).None? && hidden.statement.None?)
  }

  /** With one constructor it must also have a body. */
  ghost predicate OneBlendable(f: PFunction, chained: bool)
    reads f
  {
    f.Sequential() || !chained
  }

  /** Both constructors exist: the body of the hidden one goes into the explicit one. */
  method MoveInitialisers(explicit: PFunction, hidden: PFunction) returns (ok: bool)
    requires Owned(explicit) !! Owned(hidden)
    modifies Owned(explicit)
    ensures ok <==> old(explicit.statement.None? || explicit.Sequential() || hidden.statement.None?)
    ensures ok ==> explicit.Body() == Opt(hidden.statement) + old(explicit.Body())
    ensures ok ==> (explicit.Sequential() <==> old(explicit.statement.None? || explicit.Sequential()))
    ensures forall b :: b in explicit.Blocks() ==> b in old(explicit.Blocks()) || fresh(b)
  {
    if explicit.statement.None? {
      var empty := new PBlock(true, []);
      explicit.SetStatement(Nested(empty));
    }
    ok := true;
    if hidden.statement.Some? {
      ok := explicit.PushFront(hidden.statement.value);
    }
  }

  lemma BlendedIs(body: seq<Statement>, initialisers: Option<Statement>, base: Option<seq<string>>)
    ensures var chain, rest := ChainCall(body, base), Opt(initialisers) + AfterChain(body);
            && (chain.Some? ==> Blended(body, initialisers, base) == [chain.value] + rest)
            && (chain.None? ==> Blended(body, initialisers, base) == rest)
  {
  }

  method BlendBoth(explicit: PFunction, hidden: PFunction, base: Option<seq<string>>) returns (ok: bool)
    requires Owned(explicit) !! Owned(hidden)
    modifies Owned(explicit)
    ensures ok <==> old(BothBlendable(explicit, hidden, base))
    ensures ok ==> explicit.Body() == old(Blended(explicit.Body(), hidden.statement, base))
  {
    hide Blended, AfterChain, LeadingChain, Opt;
    ghost var body := explicit.Body();
    var chain := explicit.ExtractChain();
    if chain.None? && base.Some? {
      chain := Some(Chain(base.value));
    }
    BlendedIs(body, hidden.statement, base);
    ok := MoveInitialisers(explicit, hidden);
    if ok && chain.Some? {
      ok := explicit.PushFront(chain.value);
    }
  }

  method BlendExplicit(explicit: PFunction, base: Option<seq<string>>) returns (ok: bool)
    modifies Owned(explicit)
    ensures ok <==> old(OneBlendable(explicit, ChainCall(explicit.Body(), base).Some?))
    ensures ok ==> explicit.Body() == old(Blended(explicit.Body(), None, base))
  {
    var chain := explicit.ExtractChain();
    if chain.None? && base.Some? {
      chain := Some(Chain(base.value));
    }
    ok := true;
    if chain.Some? {
      ok := explicit.PushFront(chain.value);
    }
  }

  method BlendHidden(hidden: PFunction, base: Option<seq<string>>) returns (ok: bool)
    modifies Owned(hidden)
    ensures ok <==> old(OneBlendable(hidden, base.Some?))
    ensures ok ==> hidden.Body() == Opt(ChainCall([], base)) + old(hidden.Body())
  {
    ok := true;
    if base.Some? {
      ok := hidden.PushFront(Chain(base.value));
    }
  }

  class PClass {
    var funcs: map<string, PFunction>
    const base: Option<seq<string>>

    constructor (funcs: map<string, PFunction>, base: Option<seq<string>>)
      ensures this.funcs == funcs && this.base == base
    {
      this.funcs, this.base := funcs, base;
    }

    ghost function Part(name: string): set<object>
      reads this, funcs.Values
    {
      if name in funcs then Owned(funcs[name]) else {}
    }

    /** Blends the constructors; false when the compiler stops. */
    method Blend() returns (ok: bool)
      requires Part("new") !! Part("new@") && this !in Part("new") + Part("new@")
      modifies this, Part("new"), Part("new@")
      ensures old("new" in funcs && "new@" in funcs) ==>
        && (ok <==> old(BothBlendable(funcs["new"], funcs["new@"], base)))
        && (ok ==>
              && funcs == old(funcs) - {"new@"}
              && funcs["new"].Body() == old(Blended(funcs["new"].Body(), funcs["new@"].statement, base)))
      ensures old("new" in funcs && "new@" !in funcs) ==>
        && (ok <==> old(OneBlendable(funcs["new"], ChainCall(funcs["new"].Body(), base).Some?)))
        && funcs == old(funcs)
        && (ok ==> funcs["new"].Body() == old(Blended(funcs["new"].Body(), None, base)))
      ensures old("new" !in funcs && "new@" in funcs) ==>
        && (ok <==> old(OneBlendable(funcs["new@"], base.Some?)))
        && funcs == old(funcs)
        && (ok ==> funcs["new@"].Body() == old(Opt(ChainCall([], base)) + funcs["new@"].Body()))
      ensures old("new" !in funcs && "new@" !in funcs) ==> ok && funcs == old(funcs)
    {
      if "new" in funcs && "new@" in funcs {
        ok := BlendBoth(funcs["new"], funcs["new@"], base);
        if ok { funcs := funcs - {"new@"}; }
      } else if "new" in funcs {
        ok := BlendExplicit(funcs["new"], base);
      } else if "new@" in funcs {
        ok := BlendHidden(funcs["new@"], base);
      } else {
        ok := true;
      }
    }
  }

  /** A class with a property initialiser whose constructor is a lone fork-join stops the
      compiler; so does a derived class whose constructor has no body. */
  method StoppedClasses() returns (forked: bool, empty: bool)
    ensures !forked && !empty
  {
    var fork := new PBlock(false, [Plain("a = 1")]);
    var explicit := new PFunction(Some(Nested(fork)));
    var hidden := new PFunction(Some(Plain("b = 2")));
    var c := new PClass(map["new" := explicit, "new@" := hidden], None);
    forked := c.Blend();
    var bare := new PFunction(None);
    var derived := new PClass(map["new" := bare], Some([]));
    empty := derived.Blend();
  }
}
