/** Terms with typed variables, their right-to-left codes, and matching of pattern stacks. */
module MatchTerms {
  import opened Options
  import opened Sequences

  // Variables of any kind, and operators with their arguments; a constant is an operator without arguments.
  datatype Term = Var(id: nat) | App(op: nat, args: seq<Term>)

  // What a trie node branches on: an operator with the number of children, or a variable.
  datatype Key = OpKey(op: nat, arity: nat) | VarKey(v: Term)

  type Path = seq<Key>

  // Whether a variable may stand for a term: its type is a subtype of the term's type.
  type Typing = (Term, Term) -> bool

  function Size(t: Term): (n: nat)
    ensures n >= 1
  {
    if t.Var? then 1 else 1 + StackSize(t.args)
  }

  function StackSize(ts: seq<Term>): nat {
    if ts == [] then 0 else StackSize(Init(ts)) + Size(Last(ts))
  }

  lemma {:induction false} StackSizeConcat(ss: seq<Term>, ts: seq<Term>)
    ensures StackSize(ss + ts) == StackSize(ss) + StackSize(ts)
  {
    if ts == [] {
      assert ss + ts == ss;
    } else {
      ConcatInit(ss, ts);
      StackSizeConcat(ss, Init(ts));
    }
  }

  // The two ways a stack shrinks: its last term is dropped, or replaced by the term's arguments.
  lemma StackSizeStep(ts: seq<Term>)
    requires ts != []
    ensures StackSize(Init(ts)) < StackSize(ts)
    ensures Last(ts).App? ==> StackSize(Init(ts) + Last(ts).args) < StackSize(ts)
  {
    if Last(ts).App? {
      StackSizeConcat(Init(ts), Last(ts).args);
    }
  }

  // The path of a term: its symbols in depth-first order, right to left.
  function Code(t: Term): Path {
    if t.Var? then [VarKey(t)] else [OpKey(t.op, |t.args|)] + StackCode(t.args)
  }

  // The path still to go for a stack of terms, the last one first.
  function StackCode(ts: seq<Term>): Path {
    if ts == [] then [] else Code(Last(ts)) + StackCode(Init(ts))
  }

  lemma {:induction false} StackCodeConcat(ss: seq<Term>, ts: seq<Term>)
    ensures StackCode(ss + ts) == StackCode(ts) + StackCode(ss)
  {
    if ts == [] {
      assert ss + ts == ss;
    } else {
      ConcatInit(ss, ts);
      StackCodeConcat(ss, Init(ts));
      Assoc(Code(Last(ts)), StackCode(Init(ts)), StackCode(ss));
    }
  }

  // Reading the first symbol of a stack's code.
  lemma StackCodeStep(ts: seq<Term>)
    requires ts != []
    ensures var t := Last(ts);
            StackCode(ts) == if t.Var? then [VarKey(t)] + StackCode(Init(ts))
                             else [OpKey(t.op, |t.args|)] + StackCode(Init(ts) + t.args)
  {
    var t := Last(ts);
    if t.App? {
      StackCodeConcat(Init(ts), t.args);
      Assoc([OpKey(t.op, |t.args|)], StackCode(t.args), StackCode(Init(ts)));
    }
  }

  // Codes are uniquely decodable.
  lemma {:induction false} StackCodeInjective(ss: seq<Term>, ts: seq<Term>)
    requires |ss| == |ts| && StackCode(ss) == StackCode(ts)
    ensures ss == ts
    decreases StackSize(ss)
  {
    if ss != [] {
      StackCodeStep(ss);
      StackCodeStep(ts);
      StackSizeStep(ss);
      var s, t := Last(ss), Last(ts);
      assert StackCode(ss)[0] == StackCode(ts)[0];
      if s.Var? {
        assert StackCode(Init(ss)) == StackCode(ss)[1..] == StackCode(Init(ts));
        StackCodeInjective(Init(ss), Init(ts));
        assert ss == Init(ss) + [s] && ts == Init(ts) + [t];
      } else {
        assert StackCode(Init(ss) + s.args) == StackCode(ss)[1..] == StackCode(Init(ts) + t.args);
        StackCodeInjective(Init(ss) + s.args, Init(ts) + t.args);
        SplitAt(Init(ss), s.args);
        SplitAt(Init(ts), t.args);
        assert ss == Init(ss) + [s] && ts == Init(ts) + [t];
      }
    }
  }

  // ---- substitutions

  // Variables with the terms bound to them, in the order of binding.
  type Bindings = seq<(Term, Term)>

  function ToMap(bs: Bindings): map<Term, Term> {
    if bs == [] then map[] else ToMap(Init(bs))[Last(bs).0 := Last(bs).1]
  }

  function Substitute(t: Term, theta: map<Term, Term>): Term {
    if t.Var? then (if t in theta then theta[t] else t)
    else App(t.op, seq(|t.args|, i requires 0 <= i < |t.args| => Substitute(t.args[i], theta)))
  }

  ghost predicate OccursIn(v: Term, t: Term) {
    if t.Var? then v == t else exists i | 0 <= i < |t.args| :: OccursIn(v, t.args[i])
  }

  // theta binds every variable of s to a term its type allows and maps s to q.
  ghost predicate IsInstance(allowed: Typing, s: Term, q: Term, theta: map<Term, Term>) {
    && Substitute(s, theta) == q
    && forall v | OccursIn(v, s) :: v in theta && allowed(v, theta[v])
  }

  // One-way matching of a stack of patterns against a stack of terms, extending the bindings.
  function MatchStack(allowed: Typing, ps: seq<Term>, ts: seq<Term>, bs: Bindings): Option<Bindings>
    decreases StackSize(ps)
  {
    if |ps| != |ts| then None
    else if ps == [] then Some(bs)
    else
      StackSizeStep(ps);
      var p, t, ps', ts' := Last(ps), Last(ts), Init(ps), Init(ts);
      if p.Var? then
        if p in ToMap(bs) then
          if ToMap(bs)[p] == t then MatchStack(allowed, ps', ts', bs) else None
        else if allowed(p, t) then MatchStack(allowed, ps', ts', bs + [(p, t)])
        else None
      else if t.App? && t.op == p.op && |t.args| == |p.args| then
        MatchStack(allowed, ps' + p.args, ts' + t.args, bs)
      else None
  }

  ghost predicate AllInstances(allowed: Typing, ps: seq<Term>, ts: seq<Term>, theta: map<Term, Term>) {
    |ps| == |ts| && forall i | 0 <= i < |ps| :: IsInstance(allowed, ps[i], ts[i], theta)
  }

  // The bindings respect types, bind variables only and no variable twice.
  ghost predicate ValidBindings(allowed: Typing, bs: Bindings) {
    && (forall i | 0 <= i < |bs| :: bs[i].0.Var? && allowed(bs[i].0, bs[i].1))
    && (forall i, j | 0 <= i < j < |bs| :: bs[i].0 != bs[j].0)
  }

  lemma {:induction false} ToMapKeys(bs: Bindings)
    ensures forall v :: v in ToMap(bs) <==> exists i | 0 <= i < |bs| :: bs[i].0 == v
  {
    if bs != [] {
      ToMapKeys(Init(bs));
      assert bs == Init(bs) + [Last(bs)];
    }
  }

  lemma {:induction false} ToMapValues(allowed: Typing, bs: Bindings)
    requires ValidBindings(allowed, bs)
    ensures forall i | 0 <= i < |bs| :: bs[i].0 in ToMap(bs) && ToMap(bs)[bs[i].0] == bs[i].1
    ensures forall v | v in ToMap(bs) :: allowed(v, ToMap(bs)[v])
  {
    if bs != [] {
      ToMapValues(allowed, Init(bs));
    }
  }

  ghost predicate IsSubmap(m: map<Term, Term>, m': map<Term, Term>) {
    forall v | v in m :: v in m' && m'[v] == m[v]
  }

  ghost predicate OccursInStack(v: Term, ps: seq<Term>) {
    exists i | 0 <= i < |ps| :: OccursIn(v, ps[i])
  }

  // An application is an instance exactly when its arguments are.
  lemma InstanceOfApp(allowed: Typing, p: Term, t: Term, theta: map<Term, Term>)
    requires p.App? && t.App? && p.op == t.op && |p.args| == |t.args|
    ensures IsInstance(allowed, p, t, theta) <==> AllInstances(allowed, p.args, t.args, theta)
  {
    if IsInstance(allowed, p, t, theta) {
      forall i | 0 <= i < |p.args|
        ensures IsInstance(allowed, p.args[i], t.args[i], theta)
      {
        assert forall v | OccursIn(v, p.args[i]) :: OccursIn(v, p);
      }
    }
    if AllInstances(allowed, p.args, t.args, theta) {
      assert forall i | 0 <= i < |p.args| :: IsInstance(allowed, p.args[i], t.args[i], theta);
    }
  }

  lemma InstancesConcat(allowed: Typing, ps: seq<Term>, ps': seq<Term>, ts: seq<Term>, ts': seq<Term>,
                        theta: map<Term, Term>)
    requires |ps| == |ts| && |ps'| == |ts'|
    ensures AllInstances(allowed, ps + ps', ts + ts', theta) <==>
            AllInstances(allowed, ps, ts, theta) && AllInstances(allowed, ps', ts', theta)
  {
    if AllInstances(allowed, ps + ps', ts + ts', theta) {
      forall i | 0 <= i < |ps|
        ensures IsInstance(allowed, ps[i], ts[i], theta)
      {
        assert ps[i] == (ps + ps')[i];
      }
      forall i | 0 <= i < |ps'|
        ensures IsInstance(allowed, ps'[i], ts'[i], theta)
      {
        assert ps'[i] == (ps + ps')[|ps| + i];
      }
    }
  }

  // Replacing an application on top of the stacks by its arguments keeps what is an instance.
  lemma InstancesOfApp(allowed: Typing, ps: seq<Term>, ts: seq<Term>, theta: map<Term, Term>)
    requires |ps| == |ts| != 0 && Last(ps).App? && Last(ts).App?
    requires Last(ps).op == Last(ts).op && |Last(ps).args| == |Last(ts).args|
    ensures AllInstances(allowed, ps, ts, theta) <==>
            AllInstances(allowed, Init(ps) + Last(ps).args, Init(ts) + Last(ts).args, theta)
  {
    InstanceOfApp(allowed, Last(ps), Last(ts), theta);
    InstancesConcat(allowed, Init(ps), Last(ps).args, Init(ts), Last(ts).args, theta);
    InstancesConcat(allowed, Init(ps), [Last(ps)], Init(ts), [Last(ts)], theta);
    assert ps == Init(ps) + [Last(ps)] && ts == Init(ts) + [Last(ts)];
    assert [Last(ps)][0] == Last(ps) && [Last(ts)][0] == Last(ts);
  }

  // The bindings after a pattern variable is met.
  lemma BindNext(allowed: Typing, bs: Bindings, p: Term, t: Term) returns (next: Bindings)
    requires ValidBindings(allowed, bs) && p.Var?
    requires if p in ToMap(bs) then ToMap(bs)[p] == t else allowed(p, t)
    ensures next == if p in ToMap(bs) then bs else bs + [(p, t)]
    ensures ValidBindings(allowed, next) && ToMap(next) == ToMap(bs)[p := t]
  {
    next := if p in ToMap(bs) then bs else bs + [(p, t)];
    if p !in ToMap(bs) {
      ToMapKeys(bs);
      assert Init(next) == bs;
    }
  }

  // A match maps every pattern to its term, keeps the bindings it was given and adds only variables of
  // the patterns.
  ghost predicate Matched(allowed: Typing, ps: seq<Term>, ts: seq<Term>, bs: Bindings, bs': Bindings) {
    && ValidBindings(allowed, bs') && IsSubmap(ToMap(bs), ToMap(bs'))
    && AllInstances(allowed, ps, ts, ToMap(bs'))
    && forall v | v in ToMap(bs') :: v in ToMap(bs) || OccursInStack(v, ps)
  }

  lemma {:induction false} MatchStackSound(allowed: Typing, ps: seq<Term>, ts: seq<Term>, bs: Bindings)
    requires ValidBindings(allowed, bs) && MatchStack(allowed, ps, ts, bs).Some?
    ensures Matched(allowed, ps, ts, bs, MatchStack(allowed, ps, ts, bs).value)
    decreases StackSize(ps)
  {
    if ps != [] {
      StackSizeStep(ps);
      var p, t, bs' := Last(ps), Last(ts), MatchStack(allowed, ps, ts, bs).value;
      if p.Var? {
        var next := BindNext(allowed, bs, p, t);
        MatchStackSound(allowed, Init(ps), Init(ts), next);
        MatchedVar(allowed, ps, ts, bs, next, bs');
      } else {
        MatchStackSound(allowed, Init(ps) + p.args, Init(ts) + t.args, bs);
        InstancesOfApp(allowed, ps, ts, ToMap(bs'));
        OccursInApp(ps);
      }
    }
  }

  lemma MatchedVar(allowed: Typing, ps: seq<Term>, ts: seq<Term>, bs: Bindings, next: Bindings, bs': Bindings)
    requires |ps| == |ts| != 0 && Last(ps).Var? && Matched(allowed, Init(ps), Init(ts), next, bs')
    requires ToMap(next) == ToMap(bs)[Last(ps) := Last(ts)]
    requires Last(ps) in ToMap(bs) ==> ToMap(bs)[Last(ps)] == Last(ts)
    ensures Matched(allowed, ps, ts, bs, bs')
  {
    var p, t, k := Last(ps), Last(ts), |ps| - 1;
    ToMapValues(allowed, bs');
    assert p in ToMap(next) && ToMap(bs')[p] == t;
    forall i | 0 <= i < |ps|
      ensures IsInstance(allowed, ps[i], ts[i], ToMap(bs'))
    {
      assert i < k ==> IsInstance(allowed, Init(ps)[i], Init(ts)[i], ToMap(bs'));
    }
    forall v | v in ToMap(bs')
      ensures v in ToMap(bs) || OccursInStack(v, ps)
    {
      if v in ToMap(next) {
        assert v == p ==> OccursIn(v, ps[k]);
      } else {
        var i :| 0 <= i < k && OccursIn(v, Init(ps)[i]);
        assert OccursIn(v, ps[i]);
      }
    }
  }

  lemma OccursInApp(ps: seq<Term>)
    requires ps != [] && Last(ps).App?
    ensures forall v | OccursInStack(v, Init(ps) + Last(ps).args) :: OccursInStack(v, ps)
  {
    var p, k, ps' := Last(ps), |ps| - 1, Init(ps) + Last(ps).args;
    forall v | OccursInStack(v, ps')
      ensures OccursInStack(v, ps)
    {
      var i :| 0 <= i < |ps'| && OccursIn(v, ps'[i]);
      if i >= k {
        assert OccursIn(v, p.args[i - k]) && OccursIn(v, ps[k]);
      } else {
        assert OccursIn(v, ps[i]);
      }
    }
  }

  // If some substitution extending the bindings maps every pattern to its term, the match finds it.
  lemma {:induction false} MatchStackComplete(allowed: Typing, ps: seq<Term>, ts: seq<Term>, bs: Bindings,
                                              theta: map<Term, Term>)
    requires IsSubmap(ToMap(bs), theta) && AllInstances(allowed, ps, ts, theta)
    ensures MatchStack(allowed, ps, ts, bs).Some?
    ensures IsSubmap(ToMap(MatchStack(allowed, ps, ts, bs).value), theta)
    decreases StackSize(ps)
  {
    if ps != [] {
      StackSizeStep(ps);
      var p, t, ps', ts', k := Last(ps), Last(ts), Init(ps), Init(ts), |ps| - 1;
      assert IsInstance(allowed, ps[k], ts[k], theta);
      if p.Var? {
        assert OccursIn(p, p);
        var next := if p in ToMap(bs) then bs else bs + [(p, t)];
        if p !in ToMap(bs) {
          assert Init(next) == bs;
        }
        MatchStackComplete(allowed, ps', ts', next, theta);
      } else {
        InstancesOfApp(allowed, ps, ts, theta);
        MatchStackComplete(allowed, ps' + p.args, ts' + t.args, bs, theta);
      }
    }
  }

  // One-way matching of single terms is exact.
  lemma MatchIsExact(allowed: Typing, s: Term, q: Term)
    ensures MatchStack(allowed, [s], [q], []).Some? <==> exists theta :: IsInstance(allowed, s, q, theta)
    ensures MatchStack(allowed, [s], [q], []).Some? ==>
              var bs := MatchStack(allowed, [s], [q], []).value;
              && ValidBindings(allowed, bs) && IsInstance(allowed, s, q, ToMap(bs))
              && forall v | v in ToMap(bs) :: OccursIn(v, s)
  {
    if MatchStack(allowed, [s], [q], []).Some? {
      MatchStackSound(allowed, [s], [q], []);
      assert IsInstance(allowed, [s][0], [q][0], ToMap(MatchStack(allowed, [s], [q], []).value));
    }
    forall theta | IsInstance(allowed, s, q, theta)
      ensures MatchStack(allowed, [s], [q], []).Some?
    {
      MatchStackComplete(allowed, [s], [q], [], theta);
    }
  }
}
