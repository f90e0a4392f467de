/**
 Elaboration of an enumeration (elaborate_scope_enumeration): every name gets a value, given
 explicitly or one more than the value of the name before.
 */
module Enumeration {
  import opened FourState
  import opened Powers
  import opened Integers
  import opened Options

  /** What is written after a name: nothing, something that is not an integer constant, or a
      constant with its signedness, whether its length is fixed, and its length where it is a
      literal of a fixed length. */
  datatype Entry =
    | Implicit
    | NotConstant
    | Explicit(value: Vec, signed: bool, hasLen: bool, literalLen: Option<nat>)

  datatype Config = Config(width: nat, signed: bool, twoState: bool, taken: set<string>)

  datatype Name = Name(name: string, entry: Entry)

  predicate Legal(c: Config, names: seq<Name>)
  {
    c.width > 0 && forall i :: 0 <= i < |names| && names[i].entry.Explicit? ==> names[i].entry.value != []
  }

  // ----- What a value has to be -----

  /** Explicit constant e may stand for v. A defined constant of another width keeps its
      integer; one of the right width keeps its bits; an undefined one is extended, or cut
      where the cut bits repeat. */
  ghost predicate Fits(c: Config, e: Entry, v: Vec)
    requires c.width > 0 && e.Explicit? && e.value != []
  {
    && |v| == c.width
    && (c.twoState ==> Defined(e.value))
    && (e.literalLen.Some? ==> e.literalLen.value == c.width)
    && (if |e.value| == c.width then
          v == e.value && (c.signed || e.hasLen || !Negative(e.value, e.signed))
        else if Defined(e.value) then
          Defined(v) && AsInt(v, c.signed) == AsInt(e.value, e.signed)
        else if |e.value| < c.width then
          v == Pad(e.value, c.width, e.signed, e.hasLen) && (c.signed || !Negative(e.value, e.signed))
        else
          v == e.value[..c.width] && Cuttable(e.value, c.width, e.signed, c.signed))
  }

  /** One more than before, as integers. A single signed bit may also step from 0 to -1. */
  ghost predicate Succeeds(c: Config, before: Vec, v: Vec)
  {
    && Defined(before) && Defined(v) && |v| == c.width
    && (AsInt(v, c.signed) == AsInt(before, c.signed) + 1
        || (c.signed && c.width == 1 && before == [V0] && v == [V1]))
  }

  ghost predicate ValueOk(c: Config, e: Entry, before: Option<Vec>, v: Vec)
    requires c.width > 0 && (e.Explicit? ==> e.value != [])
  {
    match e
    case NotConstant => false
    case Explicit(_, _, _, _) => Fits(c, e, v)
    case Implicit =>
      if before.None? then Defined(v) && |v| == c.width && AsInt(v, c.signed) == 0
      else Succeeds(c, before.value, v)
  }

  function Before(vs: seq<Vec>, i: nat): Option<Vec>
    requires i <= |vs|
  {
    if i == 0 then None else Some(vs[i - 1])
  }

  ghost predicate Distinct<T>(s: seq<T>)
  {
    forall i, j :: 0 <= i < j < |s| ==> s[i] != s[j]
  }

  ghost predicate FreshName(c: Config, names: seq<Name>, i: nat)
    requires i < |names|
  {
    names[i].name !in c.taken && forall j :: 0 <= j < i ==> names[j].name != names[i].name
  }

  /** vs is an assignment of values to the first |vs| names that breaks no rule. */
  ghost predicate Partial(c: Config, names: seq<Name>, vs: seq<Vec>)
    requires Legal(c, names)
  {
    && |vs| <= |names|
    && (forall i :: 0 <= i < |vs| ==> ValueOk(c, names[i].entry, Before(vs, i), vs[i]))
    && Distinct(vs)
    && (forall i :: 0 <= i < |vs| ==> FreshName(c, names, i))
  }

  ghost predicate Assigned(c: Config, names: seq<Name>, vs: seq<Vec>)
    requires Legal(c, names)
  {
    |vs| == |names| && Partial(c, names, vs)
  }

  lemma FitsUnique(c: Config, e: Entry, v: Vec, u: Vec)
    requires c.width > 0 && e.Explicit? && e.value != []
    requires Fits(c, e, v) && Fits(c, e, u)
    ensures v == u
  {
    if |e.value| != c.width && Defined(e.value) {
      AsIntInjective(v, u, c.signed);
    }
  }

  lemma ValueUnique(c: Config, e: Entry, before: Option<Vec>, v: Vec, u: Vec)
    requires c.width > 0 && (e.Explicit? ==> e.value != [])
    requires ValueOk(c, e, before, v) && ValueOk(c, e, before, u)
    requires before.Some? ==> |before.value| == c.width
    ensures v == u
  {
    if e.Explicit? {
      FitsUnique(c, e, v, u);
    } else if before.None? || !(c.signed && c.width == 1) {
      AsIntInjective(v, u, c.signed);
    } else {
      OneSignedBit(before.value);
      OneSignedBit(v);
      OneSignedBit(u);
    }
  }

  lemma ValueWidth(c: Config, e: Entry, before: Option<Vec>, v: Vec)
    requires c.width > 0 && (e.Explicit? ==> e.value != [])
    requires ValueOk(c, e, before, v)
    ensures |v| == c.width
  {
  }

  /** There is at most one assignment: a longer one continues a shorter one. */
  lemma {:induction false} AssignedUnique(c: Config, names: seq<Name>, vs: seq<Vec>, us: seq<Vec>, i: nat)
    requires Legal(c, names) && i <= |vs| <= |us| && Partial(c, names, vs) && Partial(c, names, us)
    ensures forall j :: 0 <= j < i ==> vs[j] == us[j]
  {
    hide ValueOk, Distinct, FreshName;
    if i > 0 {
      AssignedUnique(c, names, vs, us, i - 1);
      if i > 1 { ValueWidth(c, names[i - 2].entry, Before(vs, i - 2), vs[i - 2]); }
      ValueUnique(c, names[i - 1].entry, Before(vs, i - 1), vs[i - 1], us[i - 1]);
    }
  }

  // ----- What fitting means, bit by bit and as a range -----

  /** The bit that extends a narrower constant: the sign bit of a signed one, else 0, except that
      an undefined top bit of a constant without a fixed length goes on. */
  function Extension(e: Entry): V
    requires e.Explicit? && e.value != []
  {
    var top := e.value[|e.value| - 1];
    if e.signed then top else if !e.hasLen && (top == Vx || top == Vz) then top else V0
  }

  lemma PadBits(e: Entry, w: nat)
    requires e.Explicit? && e.value != [] && |e.value| < w
    ensures var p := Pad(e.value, w, e.signed, e.hasLen);
            && (forall i :: 0 <= i < |e.value| ==> p[i] == e.value[i])
            && forall i :: |e.value| <= i < w ==> p[i] == Extension(e)
  {
  }

  lemma NarrowIsPad(c: Config, e: Entry, v: Vec)
    requires c.width > 0 && e.Explicit? && 0 < |e.value| < c.width && Fits(c, e, v)
    ensures v == Pad(e.value, c.width, e.signed, e.hasLen)
  {
    if Defined(e.value) {
      AsIntRange(v, c.signed);
      AsIntRange(e.value, e.signed);
      if Negative(e.value, e.signed) { TopBit(e.value); }
      PadAsInt(e.value, c.width, e.signed, e.hasLen, c.signed);
      AsIntInjective(v, Pad(e.value, c.width, e.signed, e.hasLen), c.signed);
    }
  }

  lemma WideIsCut(c: Config, e: Entry, v: Vec)
    requires c.width > 0 && e.Explicit? && |e.value| > c.width && Fits(c, e, v)
    ensures v == e.value[..c.width] && Cuttable(e.value, c.width, e.signed, c.signed)
  {
    if Defined(e.value) {
      CutComplete(e.value, c.width, e.signed, c.signed, v);
      CutAsInt(e.value, c.width, e.signed, c.signed);
      AsIntInjective(v, e.value[..c.width], c.signed);
    }
  }

  /** Every bit of an accepted value, of any width, defined or not: those of the constant, and
      above them its extension. */
  lemma FitsBits(c: Config, e: Entry, v: Vec)
    requires c.width > 0 && e.Explicit? && e.value != [] && Fits(c, e, v)
    ensures |v| == c.width
    ensures forall i :: 0 <= i < c.width ==> v[i] == if i < |e.value| then e.value[i] else Extension(e)
  {
    if |e.value| < c.width {
      NarrowIsPad(c, e, v);
      PadBits(e, c.width);
    } else if |e.value| > c.width {
      WideIsCut(c, e, v);
    }
  }

  /** The rules that a constant has to meet, on its bits and attributes. */
  ghost predicate Acceptable(c: Config, e: Entry)
    requires c.width > 0 && e.Explicit? && e.value != []
  {
    var w, top := c.width, e.value[|e.value| - 1];
    && (c.twoState ==> forall i :: 0 <= i < |e.value| ==> e.value[i] == V0 || e.value[i] == V1)
    && (e.literalLen.Some? ==> e.literalLen.value == w)
    && (!c.signed && e.signed && top == V1 ==> |e.value| == w && e.hasLen)
    && (|e.value| > w ==>
          && (e.signed || e.value[w] != V1)
          && ((forall i :: w <= i < |e.value| ==> e.value[i] == e.value[w - 1])
              || (!c.signed && forall i :: w <= i < |e.value| ==> e.value[i] == V0)))
  }

  lemma AcceptableIff(c: Config, e: Entry)
    requires c.width > 0 && e.Explicit? && e.value != []
    ensures Acceptable(c, e) <==> exists v :: Fits(c, e, v)
  {
    if Acceptable(c, e) {
      var v := if |e.value| == c.width then e.value
               else if |e.value| < c.width then Pad(e.value, c.width, e.signed, e.hasLen)
               else e.value[..c.width];
      if |e.value| < c.width && Defined(e.value) { PadAsInt(e.value, c.width, e.signed, e.hasLen, c.signed); }
      if |e.value| > c.width && Defined(e.value) { CutAsInt(e.value, c.width, e.signed, c.signed); }
      assert Fits(c, e, v);
    }
    if v :| Fits(c, e, v) {
      if |e.value| > c.width { WideIsCut(c, e, v); }
      if |e.value| < c.width && Defined(e.value) {
        AsIntRange(v, c.signed);
        TopBit(e.value);
      }
    }
  }

  /** A defined constant of another width is accepted exactly when the enumeration can hold its
      integer and a literal has the right length. */
  lemma AcceptableRange(c: Config, e: Entry)
    requires c.width > 0 && e.Explicit? && e.value != [] && Defined(e.value) && |e.value| != c.width
    ensures Acceptable(c, e) <==>
      && (e.literalLen.Some? ==> e.literalLen.value == c.width)
      && (if c.signed then 0 - Pow2(c.width - 1) <= AsInt(e.value, e.signed) < Pow2(c.width - 1)
          else 0 <= AsInt(e.value, e.signed) < Pow2(c.width))
  {
    AcceptableIff(c, e);
    if v :| Fits(c, e, v) { AsIntRange(v, c.signed); }
    var n := AsInt(e.value, e.signed);
    if (if c.signed then 0 - Pow2(c.width - 1) <= n < Pow2(c.width - 1) else 0 <= n < Pow2(c.width)) {
      var v := Numeral(n, c.width, c.signed);
      assert e.literalLen.None? || e.literalLen.value == c.width ==> Fits(c, e, v);
    }
  }

  // ----- The elaboration of one explicit value -----

  lemma ExplicitMeans(c: Config, e: Entry)
    requires c.width > 0 && e.Explicit? && e.value != []
    ensures Acceptable(c, e) <==> exists v :: Fits(c, e, v)
    ensures forall v :: Fits(c, e, v) ==>
      forall i :: 0 <= i < c.width ==> i < |v| && v[i] == if i < |e.value| then e.value[i] else Extension(e)
  {
    AcceptableIff(c, e);
    forall v | Fits(c, e, v)
      ensures forall i :: 0 <= i < c.width ==> i < |v| && v[i] == if i < |e.value| then e.value[i] else Extension(e)
    {
      FitsBits(c, e, v);
    }
  }

  /** The loop over the bits above the width; true when they may be cut. */
  method CheckTrimmed(v: Vec, w: nat, outSigned: bool) returns (ok: bool)
    requires 0 < w < |v|
    ensures ok == Trimmable(v, w, outSigned)
  {
    var check := w - 1;
    var idx := w;
    ok := true;
    while idx < |v| && ok
      invariant w <= idx <= |v|
      invariant check == if idx > w && v[w] != v[w - 1] && !outSigned && v[w] == V0 then w else w - 1
      invariant ok ==> forall i :: w <= i < idx ==> v[i] == v[check]
      invariant !ok ==> !Trimmable(v, w, outSigned)
      decreases |v| - idx, ok
    {
      if v[idx] != v[check] {
        if !outSigned && idx == w && v[idx] == V0 {
          check := check + 1;
          idx := idx + 1;
        } else {
          ok := false;
        }
      } else {
        idx := idx + 1;
      }
    }
  }

  /** The value of an explicit constant, and how many errors it has. When the last check
      fails the names that follow are not looked at. */
  method ElaborateExplicit(c: Config, e: Entry) returns (errors: nat, v: Vec, stop: bool)
    requires c.width > 0 && e.Explicit? && e.value != []
    ensures errors == 0 ==> Fits(c, e, v)
    ensures errors > 0 ==> forall u :: !Fits(c, e, u)
    ensures errors == 0 <==> Acceptable(c, e)
    ensures errors == 0 ==> forall i :: 0 <= i < c.width ==> i < |v| && v[i] == if i < |e.value| then e.value[i] else Extension(e)
    ensures |v| == c.width || stop
    ensures stop ==> errors > 0
  {
    ExplicitMeans(c, e);
    hide Acceptable, Extension;
    errors, v, stop := 0, e.value, false;
    if c.twoState && !Defined(v) {
      errors := errors + 1;
    }
    if e.literalLen.Some? && e.literalLen.value != c.width {
      errors := errors + 1;
    }
    if (|v| != c.width || !e.hasLen) && !c.signed && Negative(v, e.signed) {
      errors := errors + 1;
      NoNegative(c, e);
    }
    if |v| < c.width {
      v := Pad(v, c.width, e.signed, e.hasLen);
      if errors == 0 && Defined(e.value) { PadAsInt(e.value, c.width, e.signed, e.hasLen, c.signed); }
    }
    if |v| > c.width {
      FitsCuttable(c, e);
      var ok := CheckTrimmed(v, c.width, c.signed);
      if !ok {
        errors := errors + 1;
      }
      if !e.signed && v[c.width] == V1 {
        errors := errors + 1;
        stop := true;
        return;
      }
      if errors == 0 && Defined(v) { CutAsInt(v, c.width, e.signed, c.signed); }
      v := v[..c.width];
    }
  }

  lemma NoNegative(c: Config, e: Entry)
    requires c.width > 0 && e.Explicit? && e.value != []
    requires (|e.value| != c.width || !e.hasLen) && !c.signed && Negative(e.value, e.signed)
    ensures forall u :: !Fits(c, e, u)
  {
    ToNatBelow(e.value);
  }

  lemma FitsCuttable(c: Config, e: Entry)
    requires c.width > 0 && e.Explicit? && |e.value| > c.width
    ensures !Cuttable(e.value, c.width, e.signed, c.signed) ==> forall u :: !Fits(c, e, u)
  {
    forall u | Fits(c, e, u) ensures Cuttable(e.value, c.width, e.signed, c.signed) {
      if Defined(e.value) { CutComplete(e.value, c.width, e.signed, c.signed, u); }
    }
  }

  // ----- The whole list -----

  /** The state carried from one name to the next: the value to infer, and whether it has
      wrapped around. */
  ghost predicate Carried(c: Config, before: Option<Vec>, cur: Vec, wrapped: bool)
    requires c.width > 0
  {
    match before
    case None => cur == Fill(V0, c.width) && !wrapped
    case Some(b) =>
      && |b| == c.width
      && (if Defined(b) then cur == Inc(b) && wrapped == (AsInt(b, c.signed) == MaxValue(c.width, c.signed))
          else cur == b && !wrapped)
  }

  /** An inferred value is accepted exactly when it is the one that the rules allow. */
  lemma InferredOk(c: Config, before: Option<Vec>, cur: Vec, wrapped: bool)
    requires c.width > 0 && Carried(c, before, cur, wrapped)
    ensures Defined(cur) && !wrapped ==> ValueOk(c, Implicit, before, cur)
    ensures !Defined(cur) || wrapped ==> forall u :: !ValueOk(c, Implicit, before, u)
  {
    if before.None? {
      ToNatFill(V0, c.width);
    } else if Defined(before.value) {
      if c.signed && c.width == 1 {
        OneSignedBit(before.value);
      } else {
        if !wrapped { IncAsInt(before.value, c.signed); }
        forall u | ValueOk(c, Implicit, before, u) ensures !wrapped {
          AtMostMax(u, c.signed);
        }
      }
    }
  }

  /** Any assignment to all the names continues the one found so far. */
  lemma Continues(c: Config, names: seq<Name>, vs: seq<Vec>, us: seq<Vec>)
    requires Legal(c, names) && |vs| < |names| && Partial(c, names, vs) && Assigned(c, names, us)
    ensures |us| == |names|
    ensures ValueOk(c, names[|vs|].entry, Before(vs, |vs|), us[|vs|])
    ensures us[|vs|] !in vs && FreshName(c, names, |vs|)
  {
    hide ValueOk, FreshName;
    var i := |vs|;
    AssignedUnique(c, names, vs, us, i);
    assert Before(us, i) == Before(vs, i);
  }

  /** The step from one name to the next. */
  lemma Extends(c: Config, names: seq<Name>, vs: seq<Vec>, v: Vec)
    requires Legal(c, names) && |vs| < |names| && Partial(c, names, vs)
    requires ValueOk(c, names[|vs|].entry, Before(vs, |vs|), v) && v !in vs && FreshName(c, names, |vs|)
    ensures Partial(c, names, vs + [v])
  {
    hide ValueOk, FreshName;
    var ws := vs + [v];
    forall j | 0 <= j < |ws| ensures ValueOk(c, names[j].entry, Before(ws, j), ws[j]) {
      assert Before(ws, j) == Before(vs, j);
    }
  }

  /** One name decides: either the values so far are extended, or no assignment exists. */
  lemma StepDecides(c: Config, names: seq<Name>, vs: seq<Vec>, good: bool, v: Vec)
    requires Legal(c, names) && |vs| < |names| && Partial(c, names, vs)
    requires good ==> ValueOk(c, names[|vs|].entry, Before(vs, |vs|), v)
    requires !good ==> forall u :: !ValueOk(c, names[|vs|].entry, Before(vs, |vs|), u)
    ensures good && v !in vs && FreshName(c, names, |vs|) ==> Partial(c, names, vs + [v])
    ensures !(good && v !in vs && FreshName(c, names, |vs|)) ==> forall us :: !Assigned(c, names, us)
  {
    hide ValueOk, Assigned, Partial, FreshName;
    var i := |vs|;
    if good && v !in vs && FreshName(c, names, i) {
      Extends(c, names, vs, v);
    }
    forall us | Assigned(c, names, us)
      ensures good && v !in vs && FreshName(c, names, i)
    {
      Continues(c, names, vs, us);
      if good {
        WidthBefore(c, names, vs);
        ValueUnique(c, names[i].entry, Before(vs, i), v, us[i]);
      }
    }
  }

  lemma WidthBefore(c: Config, names: seq<Name>, vs: seq<Vec>)
    requires Legal(c, names) && Partial(c, names, vs)
    ensures Before(vs, |vs|).Some? ==> |Before(vs, |vs|).value| == c.width
  {
    if vs != [] {
      var i := |vs| - 1;
      ValueWidth(c, names[i].entry, Before(vs, i), vs[i]);
    }
  }

  /** The tables hold exactly the names with their values. */
  ghost predicate Recorded(c: Config, names: seq<Name>, vs: seq<Vec>, table: map<string, Vec>, scope: set<string>)
    requires |vs| <= |names|
  {
    && (forall j :: 0 <= j < |vs| ==> names[j].name in table && table[names[j].name] == vs[j])
    && (forall k :: k in table ==> exists j :: 0 <= j < |vs| && names[j].name == k)
    && scope == c.taken + table.Keys
  }

  lemma RecordedMeans(c: Config, names: seq<Name>, vs: seq<Vec>, table: map<string, Vec>, scope: set<string>, v: Vec)
    requires |vs| < |names| && Recorded(c, names, vs, table, scope)
    ensures v in table.Values <==> v in vs
    ensures (names[|vs|].name in table || names[|vs|].name in scope) <==> !FreshName(c, names, |vs|)
  {
  }

  /** insert_name and add_enumeration_name of a new name. */
  lemma RecordedExtends(c: Config, names: seq<Name>, vs: seq<Vec>, table: map<string, Vec>, scope: set<string>, v: Vec)
    requires |vs| < |names| && Recorded(c, names, vs, table, scope) && FreshName(c, names, |vs|)
    ensures Recorded(c, names, vs + [v], table[names[|vs|].name := v], scope + {names[|vs|].name})
  {
    var i := |vs|;
    var ws := vs + [v];
    var grown := table[names[i].name := v];
    forall k | k in grown ensures exists j :: 0 <= j < |ws| && names[j].name == k {
      if k == names[i].name {
        assert names[i].name == k && i < |ws|;
      } else {
        var j :| 0 <= j < |vs| && names[j].name == k;
        assert j < |ws|;
      }
    }
  }

  lemma Start(c: Config, names: seq<Name>)
    requires Legal(c, names)
    ensures Partial(c, names, []) && Recorded(c, names, [], map[], c.taken)
    ensures c.width > 0 && Carried(c, None, Fill(V0, c.width), false)
  {
  }

  lemma LegalAt(c: Config, names: seq<Name>, i: nat)
    requires Legal(c, names) && i < |names|
    ensures c.width > 0 && (names[i].entry.Explicit? ==> names[i].entry.value != [])
  {
  }

  lemma CarriedNext(c: Config, v: Vec)
    requires c.width > 0 && |v| == c.width
    ensures Carried(c, Some(v), if Defined(v) then Inc(v) else v,
      Defined(v) && AsInt(v, c.signed) == MaxValue(c.width, c.signed))
  {
  }

  /** One explicit value, as ValueOk sees it. */
  lemma FitsIsOk(c: Config, e: Entry, before: Option<Vec>)
    requires c.width > 0 && e.Explicit? && e.value != []
    ensures forall v :: ValueOk(c, e, before, v) <==> Fits(c, e, v)
  {
  }

  lemma NeverOk(c: Config, before: Option<Vec>)
    requires c.width > 0
    ensures forall v :: !ValueOk(c, NotConstant, before, v)
  {
  }

  /** Elaboration reports no error exactly when the names can be given values by the rules, and
      then the enumeration's table holds those values. */
  method Elaborate(c: Config, names: seq<Name>)
    returns (errors: nat, table: map<string, Vec>, scope: set<string>)
    requires Legal(c, names)
    ensures errors == 0 <==> exists vs :: Assigned(c, names, vs)
    ensures errors == 0 ==> exists vs :: Assigned(c, names, vs) && Recorded(c, names, vs, table, scope)
  {
    hide ValueOk, Fits, Partial, Recorded, Carried, FreshName, Legal, MaxValue, Inc, AsInt;
    errors, table, scope := 0, map[], c.taken;
    var cur := Fill(V0, c.width);
    var wrapped := false;
    ghost var vs: seq<Vec> := [];
    Start(c, names);
    var i := 0;
    while i < |names|
      invariant i <= |names|
      invariant errors == 0 ==> |vs| == i && Partial(c, names, vs)
      invariant errors == 0 ==> Recorded(c, names, vs, table, scope)
      invariant errors == 0 ==> Carried(c, Before(vs, i), cur, wrapped)
      invariant errors > 0 ==> forall us :: !Assigned(c, names, us)
    {
      var n := names[i];
      LegalAt(c, names, i);
      ghost var sofar := errors;
      i := i + 1;
      if n.entry.NotConstant? {
        errors := errors + 1;
        if sofar == 0 { NeverOk(c, Before(vs, i - 1)); StepDecides(c, names, vs, false, []); }
        continue;
      }
      if n.entry.Explicit? {
        wrapped := false;
        var e, v, stop := ElaborateExplicit(c, n.entry);
        errors, cur := errors + e, v;
        if sofar == 0 {
          FitsIsOk(c, n.entry, Before(vs, i - 1));
          StepDecides(c, names, vs, e == 0, v);
        }
        if stop {
          break;
        }
      } else {
        if sofar == 0 {
          InferredOk(c, Before(vs, i - 1), cur, wrapped);
          StepDecides(c, names, vs, Defined(cur) && !wrapped, cur);
        }
        if !Defined(cur) {
          errors := errors + 1;
          continue;
        }
      }
      if wrapped {
        errors := errors + 1;
      }
      if sofar == 0 { RecordedMeans(c, names, vs, table, scope, cur); }
      if cur in table.Values {
        errors := errors + 1;
      }
      ghost var table0, scope0 := table, scope;
      var known := n.name in table || n.name in scope;
      if n.name !in table { table := table[n.name := cur]; }
      scope := scope + {n.name};
      if known {
        errors := errors + 1;
      }
      if errors == 0 {
        RecordedExtends(c, names, vs, table0, scope0, cur);
        vs := vs + [cur];
        WidthBefore(c, names, vs);
        CarriedNext(c, cur);
      }
      if Defined(cur) {
        if AsInt(cur, c.signed) == MaxValue(c.width, c.signed) { wrapped := true; }
        cur := Inc(cur);
      }
    }
    assert errors == 0 ==> Assigned(c, names, vs);
  }

  // ----- What an accepted table promises -----

  /** The bits of the constant, and above them its extension. */
  ghost predicate Copies(c: Config, e: Entry, v: Vec)
    requires e.Explicit? && e.value != []
  {
    |v| == c.width && forall i :: 0 <= i < c.width ==> v[i] == if i < |e.value| then e.value[i] else Extension(e)
  }

  lemma FirstIsZero(c: Config, v: Vec)
    requires c.width > 0 && ValueOk(c, Implicit, None, v)
    ensures v == Fill(V0, c.width)
  {
    ToNatFill(V0, c.width);
    AsIntInjective(v, Fill(V0, c.width), c.signed);
  }

  /** Distinct values of the right width; a defined constant of another width keeps its
      integer; an inferred value is its predecessor plus one, one signed bit excepted. */
  lemma AcceptedTable(c: Config, names: seq<Name>, vs: seq<Vec>)
    requires Legal(c, names) && Assigned(c, names, vs)
    ensures Distinct(vs)
    ensures forall i :: 0 <= i < |names| ==> |vs[i]| == c.width
    ensures forall i :: 0 <= i < |names| && names[i].entry.Explicit? && Defined(names[i].entry.value)
                        && |names[i].entry.value| != c.width ==>
                        AsInt(vs[i], c.signed) == AsInt(names[i].entry.value, names[i].entry.signed)
    ensures !(c.signed && c.width == 1) ==> Counts(c, names, vs)
  {
    forall i | 0 <= i < |names| ensures |vs[i]| == c.width {
      ValueWidth(c, names[i].entry, Before(vs, i), vs[i]);
    }
  }

  /** No accepted name has a value that is not constant; explicit values are acceptable and
      copied bit for bit; a first name without a value is all zeros. */
  lemma AcceptedBits(c: Config, names: seq<Name>, vs: seq<Vec>)
    requires Legal(c, names) && Assigned(c, names, vs)
    ensures forall i :: 0 <= i < |names| && names[i].entry.Explicit? ==>
      Acceptable(c, names[i].entry) && Copies(c, names[i].entry, vs[i])
    ensures names != [] && names[0].entry.Implicit? ==> vs[0] == Fill(V0, c.width)
    ensures forall i :: 0 <= i < |names| ==> !names[i].entry.NotConstant?
  {
    hide FreshName, Distinct, Acceptable, Copies;
    forall i | 0 <= i < |names| ensures ValueOk(c, names[i].entry, Before(vs, i), vs[i]) {}
    forall i | 0 <= i < |names| && names[i].entry.Explicit?
      ensures Acceptable(c, names[i].entry) && Copies(c, names[i].entry, vs[i])
    {
      EntryBits(c, names[i].entry, vs[i]);
    }
    if names != [] && names[0].entry.Implicit? { FirstIsZero(c, vs[0]); }
  }

  lemma EntryBits(c: Config, e: Entry, v: Vec)
    requires c.width > 0 && e.Explicit? && e.value != [] && Fits(c, e, v)
    ensures Acceptable(c, e) && Copies(c, e, v)
  {
    hide Acceptable;
    AcceptableIff(c, e);
    FitsBits(c, e, v);
  }

  lemma AcceptedNames(c: Config, names: seq<Name>, vs: seq<Vec>)
    requires Legal(c, names) && Assigned(c, names, vs)
    ensures NamesApart(c, names)
  {
    hide ValueOk, Distinct;
    forall i | 0 <= i < |names| ensures names[i].name !in c.taken { assert FreshName(c, names, i); }
    forall i, j | 0 <= i < j < |names| ensures names[i].name != names[j].name { assert FreshName(c, names, j); }
  }

  /** The names can be told apart from each other and from those of the scope. */
  ghost predicate NamesApart(c: Config, names: seq<Name>)
  {
    && (forall i :: 0 <= i < |names| ==> names[i].name !in c.taken)
    && forall i, j :: 0 <= i < j < |names| ==> names[i].name != names[j].name
  }

  /** Names without values are accepted with 0, 1, 2, ... as long as the width holds them. */
  lemma PlainNames(c: Config, names: seq<Name>)
    requires c.width > 0 && NamesApart(c, names) && forall i :: 0 <= i < |names| ==> names[i].entry == Implicit
    requires |names| <= Pow2(if c.signed then c.width - 1 else c.width)
    ensures Legal(c, names) && Assigned(c, names, seq(|names|, i requires 0 <= i < |names| => FromNat(i, c.width)))
  {
    var vs := seq(|names|, i requires 0 <= i < |names| => FromNat(i, c.width));
    forall i | 0 <= i < |names| ensures AsInt(vs[i], c.signed) == i && |vs[i]| == c.width && Defined(vs[i]) {
      Pow2Grows(c.width - 1, c.width);
      FromNatSmall(i, c.width);
      TopBit(vs[i]);
    }
    forall i | 0 <= i < |names| ensures FreshName(c, names, i) {}
    forall i | 0 <= i < |names| ensures ValueOk(c, names[i].entry, Before(vs, i), vs[i]) {
      if i > 0 { assert AsInt(vs[i - 1], c.signed) == i - 1; }
    }
  }

  /** Names with acceptable values that differ are accepted with those. */
  lemma ExplicitNames(c: Config, names: seq<Name>, vs: seq<Vec>)
    requires Legal(c, names) && NamesApart(c, names) && |vs| == |names| && Distinct(vs)
    requires forall i :: 0 <= i < |names| ==>
      names[i].entry.Explicit? && Acceptable(c, names[i].entry) && Copies(c, names[i].entry, vs[i])
    ensures Assigned(c, names, vs)
  {
    forall i | 0 <= i < |names| ensures ValueOk(c, names[i].entry, Before(vs, i), vs[i]) && FreshName(c, names, i) {
      var e := names[i].entry;
      AcceptableIff(c, e);
      var v :| Fits(c, e, v);
      FitsBits(c, e, v);
      assert v == vs[i];
    }
  }

  /** Every inferred value after the first is the value before plus one, as integers. */
  ghost predicate Counts(c: Config, names: seq<Name>, vs: seq<Vec>)
    requires |vs| == |names|
  {
    forall i :: 0 < i < |names| && names[i].entry.Implicit? ==> CountsAt(c, vs, i)
  }

  ghost predicate CountsAt(c: Config, vs: seq<Vec>, i: nat)
    requires 0 < i < |vs|
  {
    Defined(vs[i]) && Defined(vs[i - 1]) && AsInt(vs[i], c.signed) == AsInt(vs[i - 1], c.signed) + 1
  }

  /** Name i is not inferred, or comes right after an explicit constant that is odd. */
  ghost predicate AfterMinusOne(names: seq<Name>, i: nat)
    requires 0 < i < |names|
  {
    names[i].entry.Implicit? ==>
      names[i - 1].entry.Explicit? && names[i - 1].entry.value != [] && names[i - 1].entry.value[0] == V1
  }

  /** An enumeration of one signed bit: values count up exactly when each inferred name follows
      an explicit minus one. Otherwise the step from 0 to -1 goes unreported. */
  lemma OneBitCounts(c: Config, names: seq<Name>, vs: seq<Vec>)
    requires Legal(c, names) && Assigned(c, names, vs) && c.signed && c.width == 1
    ensures Counts(c, names, vs) <==> forall i :: 0 < i < |names| ==> AfterMinusOne(names, i)
  {
    forall i | 0 < i < |names| && names[i].entry.Implicit? ensures AfterMinusOne(names, i) <==> CountsAt(c, vs, i) {
      OneBitAt(c, names, vs, i);
    }
  }

  lemma OneBitAt(c: Config, names: seq<Name>, vs: seq<Vec>, i: nat)
    requires Legal(c, names) && Assigned(c, names, vs) && c.signed && c.width == 1
    requires 0 < i < |names| && names[i].entry.Implicit?
    ensures AfterMinusOne(names, i) <==> CountsAt(c, vs, i)
  {
    assert i > 1 ==> vs[i] != vs[i - 2];
    assert ValueOk(c, names[i].entry, Before(vs, i), vs[i]);
    assert ValueOk(c, names[i - 1].entry, Before(vs, i - 1), vs[i - 1]);
    OneSignedBit(vs[i]);
    OneSignedBit(vs[i - 1]);
    if names[i - 1].entry.Explicit? {
      LowBitKept(c, names[i - 1].entry, vs[i - 1]);
    } else if i > 1 {
      OneSignedBit(vs[i - 2]);
    }
  }

  lemma LowBitKept(c: Config, e: Entry, v: Vec)
    requires c.signed && c.width == 1 && e.Explicit? && e.value != [] && Fits(c, e, v) && Defined(v)
    ensures v[0] == e.value[0]
  {
    if |e.value| > 1 && Defined(e.value) {
      CutComplete(e.value, 1, e.signed, true, v);
      CutAsInt(e.value, 1, e.signed, true);
      AsIntInjective(v, e.value[..1], true);
    }
  }

  /** The concrete case: a signed one-bit enumeration of two names is accepted with 0 and -1. */
  lemma OneBitWraps(a: string, b: string)
    requires a != b
    ensures var c := Config(1, true, true, {});
            var names := [Name(a, Implicit), Name(b, Implicit)];
            Assigned(c, names, [[V0], [V1]]) && !Counts(c, names, [[V0], [V1]])
  {
    var c := Config(1, true, true, {});
    var names := [Name(a, Implicit), Name(b, Implicit)];
    var vs := [[V0], [V1]];
    OneSignedBit([V0]);
    assert ValueOk(c, names[0].entry, Before(vs, 0), vs[0]);
    assert ValueOk(c, names[1].entry, Before(vs, 1), vs[1]);
    assert names[1].entry.Implicit? && !CountsAt(c, vs, 1);
  }
}
