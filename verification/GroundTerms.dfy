/** DType: well-foundedness of datatypes and the construction of ground terms. */
module GroundTerms {
  import opened Options
  import opened DatatypeTerms

  // What is promised of a ground term of type t: among other things no subterm occurs below one of its own type.
  ghost predicate Grounds(sys: System, t: ArgType, isValue: bool, e: Term) {
    WellTyped(sys, e) && TypeOf(e) == t && Thin(e) && (isValue ==> IsValue(e))
  }

  ghost predicate AllGround(sys: System, argTypes: seq<ArgType>, isValue: bool, args: seq<Term>) {
    |args| == |argTypes| && forall i | 0 <= i < |args| :: Grounds(sys, argTypes[i], isValue, args[i])
  }

  // What a datatype object remembers. wellFounded is 1, -1 or 0 for yes, no and not known.
  class DType {
    const self: nat
    var wellFounded: int
    var groundTerm: map<ArgType, Term>
    var groundValue: map<ArgType, Term>

    constructor (self: nat)
      ensures this.self == self && wellFounded == 0 && groundTerm == map[] && groundValue == map[]
    {
      this.self, wellFounded, groundTerm, groundValue := self, 0, map[], map[];
    }

    function Cache(isValue: bool): map<ArgType, Term>
      reads this
    {
      if isValue then groundValue else groundTerm
    }

    ghost predicate Valid(sys: System)
      reads this
    {
      && -1 <= wellFounded <= 1 && (wellFounded != 0 ==> (wellFounded == 1 <==> Inhabited(sys, {}, Data(self))))
      && (forall t | t in groundTerm :: Grounds(sys, t, false, groundTerm[t]))
      && (forall t | t in groundValue :: Grounds(sys, t, true, groundValue[t]))
    }
  }

  // Of a term made from ground terms and its subterms of the same type, the one that is taken is a ground term.
  lemma TopGround(sys: System, t: nat, c: nat, isValue: bool, args: seq<Term>)
    requires t < |sys| && c < |sys[t]| && AllGround(sys, sys[t][c], isValue, args)
    ensures var e := Construct(t, c, args);
      var se := SubtermWithType(e, Data(t), true);
      Grounds(sys, Data(t), isValue, if se.Some? then se.value else e)
  {
    var e := Construct(t, c, args);
    var se := SubtermWithType(e, Data(t), true);
    SubtermSpec(sys, e, Data(t), true);
    if se.Some? {
      var i :| 0 <= i < |args| && Below(args[i], se.value);
      SubtermIsThin(args[i], se.value);
    }
  }

  ghost function Types(processing: seq<nat>): set<ArgType> {
    set t | t in processing :: Data(t)
  }

  // The number of datatypes that are not being processed.
  ghost function Unprocessed(sys: System, processing: seq<nat>): nat {
    |(set t | 0 <= t < |sys| :: Data(t)) - Types(processing)|
  }

  lemma ProcessMore(sys: System, processing: seq<nat>, t: nat)
    requires t < |sys| && t !in processing
    ensures Unprocessed(sys, processing + [t]) < Unprocessed(sys, processing)
    ensures Types(processing + [t]) == Types(processing) + {Data(t)}
  {
    var all := set t | 0 <= t < |sys| :: Data(t);
    assert Types(processing + [t]) == Types(processing) + {Data(t)};
    assert all - Types(processing + [t]) == (all - Types(processing)) - {Data(t)};
  }

  // The order in which the constructors of a datatype are tried: those without arguments first.
  ghost predicate TriedBefore(sys: System, t: nat, k: nat, c: nat)
    requires t < |sys| && k < |sys[t]| && c < |sys[t]|
  {
    if (sys[t][k] == []) == (sys[t][c] == []) then k < c else sys[t][k] == []
  }

  // r is e, or the first subterm of its type if there is one.
  ghost predicate IsTop(e: Term, r: Term) {
    if NoneBelow(e, TypeOf(e)) then r == e else IsFirst(e, TypeOf(e), true, r)
  }

  lemma TopIs(sys: System, e: Term)
    requires WellTyped(sys, e)
    ensures var se := SubtermWithType(e, TypeOf(e), true); IsTop(e, if se.Some? then se.value else e)
  {
    SubtermSpec(sys, e, TypeOf(e), true);
    var se := SubtermWithType(e, TypeOf(e), true);
    if se.Some? {
      SubtermIsFirst(sys, e, TypeOf(e), true);
      HasBelow(e, TypeOf(e), se.value);
    }
  }

  lemma HasBelow(e: Term, t: ArgType, s: Term)
    requires e.Construct? && TypeOf(s) == t && exists i | 0 <= i < |e.args| :: Below(e.args[i], s)
    ensures !NoneBelow(e, t)
  {
    var i :| 0 <= i < |e.args| && Below(e.args[i], s);
    BelowNotAvoided(e.args[i], s);
  }

  lemma {:induction false} BelowNotAvoided(e: Term, s: Term)
    requires Below(e, s)
    ensures !Avoids(e, {TypeOf(s)})
  {
    if e != s {
      var i :| 0 <= i < |e.args| && Below(e.args[i], s);
      BelowNotAvoided(e.args[i], s);
    }
  }

  class Datatypes {
    const sys: System
    const dts: seq<DType>
    // mkGroundTerm and mkGroundValue for the other sorts.
    const external: (nat, bool) -> Option<Term>

    // With empty caches.
    constructor (sys: System, external: (nat, bool) -> Option<Term>)
      requires Closed(sys)
      requires forall sort, isValue :: var e := external(sort, isValue);
        e.Some? ==> Grounds(sys, External(sort), isValue, e.value)
      ensures this.sys == sys && this.external == external && Valid() && fresh(dts)
    {
      var made: seq<DType> := [];
      while |made| < |sys|
        invariant |made| <= |sys| && fresh(made)
        invariant forall i | 0 <= i < |made| :: made[i].self == i && made[i].Valid(sys)
      {
        var dt := new DType(|made|);
        made := made + [dt];
      }
      this.sys, this.dts, this.external := sys, made, external;
    }

    ghost predicate Valid()
      reads dts
    {
      && Closed(sys) && |dts| == |sys|
      && (forall i | 0 <= i < |dts| :: dts[i].self == i && dts[i].Valid(sys))
      && (forall sort, isValue :: var e := external(sort, isValue);
            e.Some? ==> Grounds(sys, External(sort), isValue, e.value))
    }

    // Every external sort can give a term.
    ghost predicate ExternalsInhabited(isValue: bool) {
      forall sort :: external(sort, isValue).Some?
    }

    // ---- which ground term is computed

    // No arguments can be found for the constructor k of t without the types being processed, t among them.
    ghost predicate Fails(processing: seq<nat>, t: nat, k: nat, isValue: bool)
      requires t < |sys| && k < |sys[t]|
    {
      sys[t][k] != [] && (ExternalsInhabited(isValue) ==> !AllInhabited(sys, Types(processing), sys[t][k]))
    }

    // r comes from the constructor of t that is tried first and does not fail.
    ghost predicate Chosen(processing: seq<nat>, t: nat, isValue: bool, r: Term)
      requires |dts| == |sys|
      reads dts
      decreases Unprocessed(sys, processing), 1
    {
      && t < |sys| && t !in processing
      && exists e {:trigger MadeFirst(processing + [t], t, isValue, e)} ::
           ProcessMore(sys, processing, t); MadeFirst(processing + [t], t, isValue, e) && IsTop(e, r)
    }

    ghost predicate MadeFirst(processing: seq<nat>, t: nat, isValue: bool, e: Term)
      requires |dts| == |sys| && t < |sys|
      reads dts
      decreases Unprocessed(sys, processing), 3
    {
      && Made(processing, t, isValue, e)
      && forall k | 0 <= k < |sys[t]| && TriedBefore(sys, t, k, e.cons) :: Fails(processing, t, k, isValue)
    }

    ghost predicate Made(processing: seq<nat>, t: nat, isValue: bool, e: Term)
      requires |dts| == |sys| && t < |sys|
      reads dts
      decreases Unprocessed(sys, processing), 2, 1
    {
      && e.Construct? && e.index == t && e.cons < |sys[t]| && |e.args| == |sys[t][e.cons]|
      && forall i {:trigger e.args[i]} | 0 <= i < |e.args| ::
           IsArg(processing, t, isValue, sys[t][e.cons][i], e.args[i])
    }

    // An argument is the remembered ground term of its type, if there is one, or is found in the same way.
    ghost predicate IsArg(processing: seq<nat>, t: nat, isValue: bool, argType: ArgType, arg: Term)
      requires |dts| == |sys| && t < |sys|
      reads dts
      decreases Unprocessed(sys, processing), 2, 0
    {
      if argType.External? then external(argType.sort, isValue) == Some(arg)
      else if argType in dts[t].Cache(isValue) then arg == dts[t].Cache(isValue)[argType]
      else Chosen(processing, argType.index, isValue, arg)
    }

    // A datatype with constructors without arguments gets the first of them.
    ghost predicate IsFirstNullary(t: nat, c: int)
      requires t < |sys|
    {
      0 <= c < |sys[t]| && sys[t][c] == [] && forall k | 0 <= k < c :: sys[t][k] != []
    }

    lemma NullaryIsChosen(processing: seq<nat>, t: nat, isValue: bool, r: Term, c: nat)
      requires |dts| == |sys| && Chosen(processing, t, isValue, r) && IsFirstNullary(t, c)
      ensures r == Construct(t, c, [])
    {
      var e :| MadeFirst(processing + [t], t, isValue, e) && IsTop(e, r);
      assert Made(processing + [t], t, isValue, e);
      assert TriedBefore(sys, t, c, e.cons) ==> Fails(processing + [t], t, c, isValue);
    }

    // DType::computeWellFounded
    method ComputeWellFounded(dt: nat, processing: seq<nat>) returns (wf: bool, processing': seq<nat>)
      requires Valid() && dt < |sys|
      ensures wf <==> Inhabited(sys, Types(processing), Data(dt))
      ensures processing' == processing
      decreases Unprocessed(sys, processing), 1
    {
      processing' := processing;
      if dt in processing {
        return false, processing';
      }
      ProcessMore(sys, processing, dt);
      InhabitedIff(sys, Types(processing), dt);
      processing' := processing' + [dt];
      var c := 0;
      while c < |sys[dt]|
        invariant 0 <= c <= |sys[dt]| && processing' == processing + [dt]
        invariant forall k | 0 <= k < c :: !Constructible(sys, Types(processing), dt, k)
      {
        var ok;
        ok, processing' := ConstructorWellFounded(dt, c, processing');
        assert ok <==> Constructible(sys, Types(processing), dt, c);
        if ok {
          processing' := processing'[..|processing'| - 1];
          return true, processing';
        }
        c := c + 1;
      }
      processing' := processing'[..|processing'| - 1];
      return false, processing';
    }

    // DTypeConstructor::computeWellFounded
    method ConstructorWellFounded(dt: nat, c: nat, processing: seq<nat>) returns (wf: bool, processing': seq<nat>)
      requires Valid() && dt < |sys| && c < |sys[dt]|
      ensures wf <==> AllInhabited(sys, Types(processing), sys[dt][c])
      ensures processing' == processing
      decreases Unprocessed(sys, processing), 2
    {
      processing' := processing;
      var i := 0;
      while i < |sys[dt][c]|
        invariant 0 <= i <= |sys[dt][c]| && processing' == processing
        invariant forall k | 0 <= k < i :: Inhabited(sys, Types(processing), sys[dt][c][k])
      {
        var t := sys[dt][c][i];
        if t.Data? {
          var ok;
          ok, processing' := ComputeWellFounded(t.index, processing');
          if !ok {
            return false, processing';
          }
        } else {
          ExternalInhabited(sys, Types(processing), t.sort);
        }
        i := i + 1;
      }
      return true, processing';
    }

    // DType::isWellFounded
    method IsWellFounded(dt: nat) returns (wf: bool)
      requires Valid() && dt < |sys|
      modifies dts[dt]
      ensures Valid()
      ensures wf <==> Inhabited(sys, {}, Data(dt))
      ensures dts[dt].wellFounded == (if wf then 1 else -1)
      ensures forall isValue :: dts[dt].Cache(isValue) == old(dts[dt].Cache(isValue))
    {
      if dts[dt].wellFounded != 0 {
        return dts[dt].wellFounded == 1;
      }
      var processing: seq<nat>;
      wf, processing := ComputeWellFounded(dt, []);
      assert Types([]) == {};
      if !wf {
        dts[dt].wellFounded := -1;
        return false;
      }
      dts[dt].wellFounded := 1;
      return true;
    }

    // DType::computeGroundTerm
    method ComputeGroundTerm(t: nat, processing: seq<nat>, isValue: bool)
      returns (r: Option<Term>, processing': seq<nat>)
      requires Valid() && t < |sys|
      ensures r.Some? ==> Grounds(sys, Data(t), isValue, r.value)
      ensures ExternalsInhabited(isValue) && Inhabited(sys, Types(processing), Data(t)) ==> r.Some?
      ensures r.Some? ==> Chosen(processing, t, isValue, r.value)
      ensures t !in processing ==> forall c | IsFirstNullary(t, c) :: r == Some(Construct(t, c, []))
      ensures processing' == processing
      decreases Unprocessed(sys, processing), 1
    {
      processing' := processing;
      if t in processing {
        return None, processing';
      }
      ProcessMore(sys, processing, t);
      InhabitedIff(sys, Types(processing), t);
      processing' := processing' + [t];
      ghost var e;
      r, processing', e := TryConstructors(t, true, processing', isValue);
      if r.None? {
        r, processing', e := TryConstructors(t, false, processing', isValue);
      }
      assert r.Some? ==> MadeFirst(processing + [t], t, isValue, e.value) && IsTop(e.value, r.value);
      processing' := processing'[..|processing'| - 1];
      forall c | IsFirstNullary(t, c)
        ensures r == Some(Construct(t, c, []))
      {
        assert r.Some?;
        NullaryIsChosen(processing, t, isValue, r.value, c);
      }
    }

    // One round of computeGroundTerm, for the constructors without arguments or for the others.
    method TryConstructors(t: nat, nullary: bool, processing: seq<nat>, isValue: bool)
      returns (r: Option<Term>, processing': seq<nat>, ghost e: Option<Term>)
      requires Valid() && t < |sys|
      ensures r.Some? ==> Grounds(sys, Data(t), isValue, r.value)
      ensures r.Some? ==>
        && e.Some? && Made(processing, t, isValue, e.value) && IsTop(e.value, r.value)
        && (sys[t][e.value.cons] == []) == nullary
        && forall k | 0 <= k < e.value.cons && (sys[t][k] == []) == nullary :: Fails(processing, t, k, isValue)
      ensures r.None? ==>
        forall c | 0 <= c < |sys[t]| && (sys[t][c] == []) == nullary :: Fails(processing, t, c, isValue)
      ensures processing' == processing
      decreases Unprocessed(sys, processing), 3
    {
      processing' := processing;
      var c := 0;
      while c < |sys[t]|
        invariant 0 <= c <= |sys[t]| && processing' == processing
        invariant forall k | 0 <= k < c && (sys[t][k] == []) == nullary :: Fails(processing, t, k, isValue)
      {
        if (|sys[t][c]| == 0) == nullary {
          var made;
          made, processing' := ConstructorGroundTerm(t, c, processing', isValue);
          if made.Some? {
            TopGround(sys, t, c, isValue, made.value.args);
            TopIs(sys, made.value);
            var se := SubtermWithType(made.value, Data(t), true);
            r := if se.Some? then se else made;
            return r, processing', made;
          }
        }
        c := c + 1;
      }
      return None, processing', None;
    }

    // DTypeConstructor::computeGroundTerm; the cache is that of the datatype of the constructor.
    method ConstructorGroundTerm(t: nat, c: nat, processing: seq<nat>, isValue: bool)
      returns (r: Option<Term>, processing': seq<nat>)
      requires Valid() && t < |sys| && c < |sys[t]|
      ensures r.Some? ==> r.value.Construct? && r.value.index == t && r.value.cons == c
      ensures r.Some? ==> AllGround(sys, sys[t][c], isValue, r.value.args) && Made(processing, t, isValue, r.value)
      ensures sys[t][c] == [] ==> r.Some?
      ensures ExternalsInhabited(isValue) && AllInhabited(sys, Types(processing), sys[t][c]) ==> r.Some?
      ensures processing' == processing
      decreases Unprocessed(sys, processing), 2
    {
      processing' := processing;
      var gt := dts[t].Cache(isValue);
      var args: seq<Term> := [];
      var i := 0;
      while i < |sys[t][c]|
        invariant 0 <= i <= |sys[t][c]| && processing' == processing
        invariant AllGround(sys, sys[t][c][..i], isValue, args)
        invariant forall j | 0 <= j < i :: IsArg(processing, t, isValue, sys[t][c][j], args[j])
      {
        var selType := sys[t][c][i];
        var arg: Option<Term>;
        if selType.Data? {
          if selType in gt {
            arg := Some(gt[selType]);
          } else {
            arg, processing' := ComputeGroundTerm(selType.index, processing', isValue);
          }
        } else {
          arg := external(selType.sort, isValue);
        }
        if arg.None? {
          return None, processing';
        }
        args := args + [arg.value];
        i := i + 1;
      }
      return Some(Construct(t, c, args)), processing';
    }

    // DType::mkGroundTermInternal
    method MkGroundTermInternal(t: nat, isValue: bool) returns (r: Option<Term>)
      requires Valid() && t < |sys|
      modifies dts[t]
      ensures Valid()
      ensures r.Some? ==> Grounds(sys, Data(t), isValue, r.value)
      ensures ExternalsInhabited(isValue) ==> (r.Some? <==> Inhabited(sys, {}, Data(t)))
      ensures if Data(t) in old(dts[t].Cache(isValue)) then r == Some(old(dts[t].Cache(isValue)[Data(t)]))
        else r.Some? ==> old(Chosen([], t, isValue, r.value))
      ensures dts[t].Cache(isValue) ==
        if r.Some? then old(dts[t].Cache(isValue))[Data(t) := r.value] else old(dts[t].Cache(isValue))
    {
      var cache := dts[t].Cache(isValue);
      if Data(t) in cache {
        r := Some(cache[Data(t)]);
      } else {
        var processing: seq<nat>;
        r, processing := ComputeGroundTerm(t, [], isValue);
        assert Types([]) == {};
        if r.Some? {
          if isValue {
            dts[t].groundValue := dts[t].groundValue[Data(t) := r.value];
          } else {
            dts[t].groundTerm := dts[t].groundTerm[Data(t) := r.value];
          }
        }
      }
      InhabitedMeansTerm(sys, Data(t));
    }
  }
}
