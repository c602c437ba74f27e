/** Mutually recursive datatypes, their finite terms, and which types have one. */
module DatatypeTerms {
  import opened Options

  // The type of a constructor argument: one of the datatypes, by its index, or another sort.
  datatype ArgType = Data(index: nat) | External(sort: nat)

  // For each datatype its constructors, for each constructor the types of its arguments.
  type System = seq<seq<seq<ArgType>>>

  // A term of an external sort may be a value, that is, a constant.
  datatype Term =
    | Construct(index: nat, cons: nat, args: seq<Term>)
    | ExternalTerm(sort: nat, id: nat, isValue: bool)

  function TypeOf(e: Term): ArgType {
    match e
    case Construct(index, _, _) => Data(index)
    case ExternalTerm(sort, _, _) => External(sort)
  }

  predicate Closed(sys: System) {
    forall t, c, i | 0 <= t < |sys| && 0 <= c < |sys[t]| && 0 <= i < |sys[t][c]| ::
      sys[t][c][i].Data? ==> sys[t][c][i].index < |sys|
  }

  predicate WellTyped(sys: System, e: Term) {
    match e
    case ExternalTerm(_, _, _) => true
    case Construct(t, c, args) =>
      && t < |sys| && c < |sys[t]| && |args| == |sys[t][c]|
      && (forall i | 0 <= i < |args| :: TypeOf(args[i]) == sys[t][c][i])
      && (forall i | 0 <= i < |args| :: WellTyped(sys, args[i]))
  }

  predicate IsValue(e: Term) {
    match e
    case ExternalTerm(_, _, isValue) => isValue
    case Construct(_, _, args) => forall i | 0 <= i < |args| :: IsValue(args[i])
  }

  // No subterm of e, e included, is of a type in types.
  predicate Avoids(e: Term, types: set<ArgType>) {
    && TypeOf(e) !in types
    && (e.Construct? ==> forall i | 0 <= i < |e.args| :: Avoids(e.args[i], types))
  }

  // No strict subterm of e is of type t.
  predicate NoneBelow(e: Term, t: ArgType) {
    e.Construct? ==> forall i | 0 <= i < |e.args| :: Avoids(e.args[i], {t})
  }

  // No subterm of e has a strict subterm of its own type.
  predicate Thin(e: Term) {
    NoneBelow(e, TypeOf(e)) && (e.Construct? ==> forall i | 0 <= i < |e.args| :: Thin(e.args[i]))
  }

  // There is a finite term of type t without subterms of a type in types.
  ghost predicate Inhabited(sys: System, types: set<ArgType>, t: ArgType) {
    exists e :: IsTerm(sys, types, t, e)
  }

  ghost predicate IsTerm(sys: System, types: set<ArgType>, t: ArgType, e: Term) {
    WellTyped(sys, e) && TypeOf(e) == t && Avoids(e, types)
  }

  // getSubtermWithType: the first subterm of type t, where e itself does not count if it is the top.
  function SubtermWithType(e: Term, t: ArgType, isTop: bool): Option<Term>
    decreases e
  {
    if !isTop && TypeOf(e) == t then Some(e)
    else if e.Construct? then FirstWithType(e.args, t)
    else None
  }

  function FirstWithType(es: seq<Term>, t: ArgType): Option<Term>
    decreases es
  {
    if es == [] then None
    else
      var r := SubtermWithType(es[0], t, false);
      if r.Some? then r else FirstWithType(es[1..], t)
  }

  lemma {:induction false} SubtermSpec(sys: System, e: Term, t: ArgType, isTop: bool)
    requires WellTyped(sys, e)
    ensures var r := SubtermWithType(e, t, isTop);
      && (r.None? ==> if isTop then NoneBelow(e, t) else Avoids(e, {t}))
      && (r.Some? ==> TypeOf(r.value) == t && WellTyped(sys, r.value))
      && (r.Some? && isTop ==> e.Construct? && exists i | 0 <= i < |e.args| :: Below(e.args[i], r.value))
      && (r.Some? && !isTop ==> Below(e, r.value))
    decreases e
  {
    if !(!isTop && TypeOf(e) == t) && e.Construct? {
      FirstSpec(sys, e.args, t);
    }
  }

  lemma {:induction false} FirstSpec(sys: System, es: seq<Term>, t: ArgType)
    requires forall i | 0 <= i < |es| :: WellTyped(sys, es[i])
    ensures var r := FirstWithType(es, t);
      if r.None? then forall i | 0 <= i < |es| :: Avoids(es[i], {t})
      else TypeOf(r.value) == t && WellTyped(sys, r.value) && exists i | 0 <= i < |es| :: Below(es[i], r.value)
    decreases es
  {
    if es != [] {
      SubtermSpec(sys, es[0], t, false);
      FirstSpec(sys, es[1..], t);
    }
  }

  // s is the subterm of type t that comes first when e is read from the outside in and from left to right.
  ghost predicate IsFirst(e: Term, t: ArgType, isTop: bool, s: Term) {
    if !isTop && TypeOf(e) == t then s == e
    else e.Construct? && exists i | 0 <= i < |e.args| ::
      (forall j | 0 <= j < i :: Avoids(e.args[j], {t})) && IsFirst(e.args[i], t, false, s)
  }

  lemma {:induction false} SubtermIsFirst(sys: System, e: Term, t: ArgType, isTop: bool)
    requires WellTyped(sys, e) && SubtermWithType(e, t, isTop).Some?
    ensures IsFirst(e, t, isTop, SubtermWithType(e, t, isTop).value)
    decreases e
  {
    if !(!isTop && TypeOf(e) == t) {
      var i := FirstIndex(sys, e.args, t);
      assert IsFirst(e.args[i], t, false, SubtermWithType(e, t, isTop).value);
    }
  }

  lemma {:induction false} FirstIndex(sys: System, es: seq<Term>, t: ArgType) returns (i: nat)
    requires forall j | 0 <= j < |es| :: WellTyped(sys, es[j])
    requires FirstWithType(es, t).Some?
    ensures i < |es| && forall j | 0 <= j < i :: Avoids(es[j], {t})
    ensures IsFirst(es[i], t, false, FirstWithType(es, t).value)
    decreases es
  {
    SubtermSpec(sys, es[0], t, false);
    if SubtermWithType(es[0], t, false).Some? {
      i := 0;
      SubtermIsFirst(sys, es[0], t, false);
    } else {
      i := FirstIndex(sys, es[1..], t);
      i := i + 1;
      assert es[i] == es[1..][i - 1];
      forall j | 0 <= j < i
        ensures Avoids(es[j], {t})
      {
        assert j > 0 ==> es[j] == es[1..][j - 1];
      }
    }
  }

  // s is a subterm of e.
  predicate Below(e: Term, s: Term) {
    e == s || (e.Construct? && exists i | 0 <= i < |e.args| :: Below(e.args[i], s))
  }

  lemma {:induction false} SubtermIsThin(e: Term, s: Term)
    requires Below(e, s)
    ensures Thin(e) ==> Thin(s)
    ensures IsValue(e) ==> IsValue(s)
  {
    if e != s {
      var i :| 0 <= i < |e.args| && Below(e.args[i], s);
      SubtermIsThin(e.args[i], s);
    }
  }

  // A type with a term has one in which the type does not occur again.
  lemma {:induction false} Innermost(sys: System, types: set<ArgType>, t: ArgType, e: Term,
                                     isTop: bool) returns (r: Term)
    requires WellTyped(sys, e) && Avoids(e, types) && !Avoids(e, {t})
    ensures IsTerm(sys, types, t, r) && NoneBelow(r, t)
    decreases e
  {
    if NoneBelow(e, t) {
      r := e;
    } else {
      var i :| 0 <= i < |e.args| && !Avoids(e.args[i], {t});
      r := Innermost(sys, types, t, e.args[i], false);
    }
  }

  lemma {:induction false} AvoidsBoth(e: Term, types: set<ArgType>, t: ArgType)
    ensures Avoids(e, types) && Avoids(e, {t}) <==> Avoids(e, types + {t})
  {
    if e.Construct? {
      forall i | 0 <= i < |e.args|
        ensures Avoids(e.args[i], types) && Avoids(e.args[i], {t}) <==> Avoids(e.args[i], types + {t})
      {
        AvoidsBoth(e.args[i], types, t);
      }
    }
  }

  ghost predicate AllInhabited(sys: System, types: set<ArgType>, argTypes: seq<ArgType>) {
    forall i | 0 <= i < |argTypes| :: Inhabited(sys, types, argTypes[i])
  }

  // The constructor c of t has arguments that are all inhabited without types and without t.
  ghost predicate Constructible(sys: System, types: set<ArgType>, t: nat, c: nat)
    requires t < |sys| && c < |sys[t]|
  {
    AllInhabited(sys, types + {Data(t)}, sys[t][c])
  }

  // A datatype is inhabited iff one of its constructors can be applied to terms in which it does not occur again.
  lemma InhabitedIff(sys: System, types: set<ArgType>, t: nat)
    requires t < |sys| && Data(t) !in types
    ensures Inhabited(sys, types, Data(t)) <==> exists c | 0 <= c < |sys[t]| :: Constructible(sys, types, t, c)
  {
    if Inhabited(sys, types, Data(t)) {
      var e :| IsTerm(sys, types, Data(t), e);
      var r := Innermost(sys, types, Data(t), e, true);
      forall i | 0 <= i < |r.args|
        ensures IsTerm(sys, types + {Data(t)}, sys[t][r.cons][i], r.args[i])
      {
        AvoidsBoth(r.args[i], types, Data(t));
      }
      assert Constructible(sys, types, t, r.cons);
    }
    if c :| 0 <= c < |sys[t]| && Constructible(sys, types, t, c) {
      var r := Build(sys, types, t, c);
    }
  }

  lemma Build(sys: System, types: set<ArgType>, t: nat, c: nat) returns (r: Term)
    requires t < |sys| && Data(t) !in types && c < |sys[t]| && Constructible(sys, types, t, c)
    ensures IsTerm(sys, types, Data(t), r)
  {
    var args := BuildArgs(sys, types + {Data(t)}, sys[t][c]);
    r := Construct(t, c, args);
    forall i | 0 <= i < |args|
      ensures WellTyped(sys, args[i]) && TypeOf(args[i]) == sys[t][c][i] && Avoids(args[i], types)
    {
      assert IsTerm(sys, types + {Data(t)}, sys[t][c][i], args[i]);
      AvoidsBoth(args[i], types, Data(t));
    }
  }

  lemma {:induction false} BuildArgs(sys: System, types: set<ArgType>, argTypes: seq<ArgType>) returns (args: seq<Term>)
    requires AllInhabited(sys, types, argTypes)
    ensures |args| == |argTypes| && forall i | 0 <= i < |args| :: IsTerm(sys, types, argTypes[i], args[i])
  {
    if argTypes == [] {
      args := [];
    } else {
      assert Inhabited(sys, types, argTypes[0]);
      var e :| IsTerm(sys, types, argTypes[0], e);
      var rest := BuildArgs(sys, types, argTypes[1..]);
      args := [e] + rest;
    }
  }

  lemma ExternalInhabited(sys: System, types: set<ArgType>, sort: nat)
    requires External(sort) !in types
    ensures Inhabited(sys, types, External(sort))
  {
    assert IsTerm(sys, types, External(sort), ExternalTerm(sort, 0, true));
  }

  // With no type to avoid: a finite term exists.
  lemma {:induction false} AvoidsNothing(e: Term)
    ensures Avoids(e, {})
  {
    if e.Construct? {
      forall i | 0 <= i < |e.args|
        ensures Avoids(e.args[i], {})
      {
        AvoidsNothing(e.args[i]);
      }
    }
  }

  lemma InhabitedMeansTerm(sys: System, t: ArgType)
    ensures Inhabited(sys, {}, t) <==> exists e :: WellTyped(sys, e) && TypeOf(e) == t
  {
    forall e | WellTyped(sys, e) && TypeOf(e) == t
      ensures IsTerm(sys, {}, t, e)
    {
      AvoidsNothing(e);
    }
  }
}
