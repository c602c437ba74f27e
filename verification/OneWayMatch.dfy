/** expr::match: one-way matching with a stack of pairs, a visited set and bindings that the caller passes in. */
module OneWayMatch {
  import opened MatchTerms
  import opened Sequences

  type Pair = (Term, Term)
  type Subs = map<Term, Term>

  function Kids(p: Term): seq<Term> {
    if p.App? then p.args else []
  }

  // theta makes the pattern p equal to t, where a part of p that is equal to its counterpart asks nothing of theta.
  ghost predicate Agrees(comparable: Typing, theta: Subs, p: Term, t: Term) {
    || p == t
    || (Kids(p) == [] && p.Var? && comparable(p, t) && p in theta && theta[p] == t)
    || (Kids(p) != [] && t.App? && t.op == p.op && |t.args| == |p.args| &&
        forall i | 0 <= i < |p.args| :: Agrees(comparable, theta, p.args[i], t.args[i]))
  }

  ghost predicate Extends(theta: Subs, subs: Subs) {
    forall v | v in subs :: v in theta && theta[v] == subs[v]
  }

  // The pairs that the search can come to.
  ghost function Aligned(p: Term, t: Term): set<Pair> {
    {(p, t)} +
    if p.App? && t.App? && |p.args| == |t.args|
    then set i, q | 0 <= i < |p.args| && q in Aligned(p.args[i], t.args[i]) :: q
    else {}
  }

  lemma {:induction false} AlignedKids(p: Term, t: Term, q: Pair, i: nat)
    requires q in Aligned(p, t) && q.0.App? && q.1.App? && |q.0.args| == |q.1.args| && i < |q.0.args|
    ensures (q.0.args[i], q.1.args[i]) in Aligned(p, t)
  {
    if q == (p, t) {
      assert (p.args[i], t.args[i]) in Aligned(p.args[i], t.args[i]);
    } else {
      var k :| 0 <= k < |p.args| && q in Aligned(p.args[k], t.args[k]);
      AlignedKids(p.args[k], t.args[k], q, i);
    }
  }

  // ---- what the search keeps

  // What a pair that has been visited asks for is in the bindings, or asked for by pairs that are visited or waiting.
  ghost predicate Supported(comparable: Typing, subs: Subs, visited: set<Pair>, stack: seq<Pair>, q: Pair) {
    || (Kids(q.0) == [] && q.0.Var? && comparable(q.0, q.1) && q.0 in subs && subs[q.0] == q.1)
    || (Kids(q.0) != [] && q.1.App? && q.1.op == q.0.op && |q.1.args| == |q.0.args| &&
        forall i | 0 <= i < |q.0.args| :: Handled(visited, stack, (q.0.args[i], q.1.args[i])))
  }

  ghost predicate Handled(visited: set<Pair>, stack: seq<Pair>, q: Pair) {
    q.0 == q.1 || q in visited || q in stack
  }

  ghost predicate AllSupported(comparable: Typing, subs: Subs, visited: set<Pair>, stack: seq<Pair>) {
    forall q {:trigger Supported(comparable, subs, visited, stack, q)} | q in visited ::
      Supported(comparable, subs, visited, stack, q)
  }

  // Nothing is asked for that the two terms do not ask for.
  ghost predicate Needed(comparable: Typing, x: Term, y: Term, subs0: Subs, subs: Subs, stack: seq<Pair>) {
    forall theta {:trigger Agrees(comparable, theta, x, y)} |
      Extends(theta, subs0) && Agrees(comparable, theta, x, y) ::
      Extends(theta, subs) && AllAgree(comparable, theta, stack)
  }

  ghost predicate AllAgree(comparable: Typing, theta: Subs, stack: seq<Pair>) {
    forall q {:trigger q in stack} | q in stack :: Agrees(comparable, theta, q.0, q.1)
  }

  ghost predicate Searching(comparable: Typing, x: Term, y: Term, subs0: Subs, subs: Subs, visited: set<Pair>,
                            stack: seq<Pair>) {
    && Extends(subs, subs0)
    && Handled(visited, stack, (x, y))
    && (forall q | q in stack :: q in Aligned(x, y))
    && AllSupported(comparable, subs, visited, stack)
    && Needed(comparable, x, y, subs0, subs, stack)
  }

  // When nothing waits the bindings do what is asked.
  lemma {:induction false} VisitedAgree(comparable: Typing, subs: Subs, visited: set<Pair>, theta: Subs, q: Pair)
    requires AllSupported(comparable, subs, visited, []) && Extends(theta, subs)
    requires Handled(visited, [], q)
    ensures Agrees(comparable, theta, q.0, q.1)
    decreases q.0
  {
    if q.0 != q.1 {
      assert Supported(comparable, subs, visited, [], q);
      if Kids(q.0) != [] {
        forall i | 0 <= i < |q.0.args|
          ensures Agrees(comparable, theta, q.0.args[i], q.1.args[i])
        {
          VisitedAgree(comparable, subs, visited, theta, (q.0.args[i], q.1.args[i]));
        }
      }
    }
  }

  // ---- the steps

  // A pair of equal terms, or one that has been visited, is dropped.
  lemma Drop(comparable: Typing, x: Term, y: Term, subs0: Subs, subs: Subs, visited: set<Pair>, stack: seq<Pair>)
    requires Searching(comparable, x, y, subs0, subs, visited, stack) && stack != []
    requires Last(stack).0 == Last(stack).1 || Last(stack) in visited
    ensures Searching(comparable, x, y, subs0, subs, visited, Init(stack))
  {
    InitMembers(stack);
    forall q | q in visited
      ensures Supported(comparable, subs, visited, Init(stack), q)
    {
      assert Supported(comparable, subs, visited, stack, q);
    }
  }

  // A variable is bound, or was bound to the same term.
  lemma BindVar(comparable: Typing, x: Term, y: Term, subs0: Subs, subs: Subs, visited: set<Pair>, stack: seq<Pair>)
    requires Searching(comparable, x, y, subs0, subs, visited, stack) && stack != []
    requires var q := Last(stack); q.0 != q.1 && q.0.Var? && comparable(q.0, q.1) && (q.0 in subs ==> subs[q.0] == q.1)
    ensures var q := Last(stack);
      Searching(comparable, x, y, subs0, subs[q.0 := q.1], visited + {q}, Init(stack))
  {
    InitMembers(stack);
    var q := Last(stack);
    var subs', visited' := subs[q.0 := q.1], visited + {q};
    forall r | r in visited'
      ensures Supported(comparable, subs', visited', Init(stack), r)
    {
      assert r != q ==> Supported(comparable, subs, visited, stack, r);
    }
    forall theta | Extends(theta, subs0) && Agrees(comparable, theta, x, y)
      ensures Extends(theta, subs') && AllAgree(comparable, theta, Init(stack))
    {
      assert q in stack && Agrees(comparable, theta, q.0, q.1);
    }
  }

  ghost function ZipKids(q: Pair): seq<Pair>
    requires q.0.App? && q.1.App? && |q.0.args| == |q.1.args|
  {
    seq(|q.0.args|, i requires 0 <= i < |q.0.args| => (q.0.args[i], q.1.args[i]))
  }

  // The arguments are pushed.
  lemma PushKids(comparable: Typing, x: Term, y: Term, subs0: Subs, subs: Subs, visited: set<Pair>, stack: seq<Pair>)
    requires Searching(comparable, x, y, subs0, subs, visited, stack) && stack != []
    requires var q := Last(stack);
      q.0 != q.1 && Kids(q.0) != [] && q.1.App? && q.1.op == q.0.op && |q.1.args| == |q.0.args|
    ensures var q := Last(stack);
      Searching(comparable, x, y, subs0, subs, visited + {q}, Init(stack) + ZipKids(q))
  {
    InitMembers(stack);
    var q := Last(stack);
    var visited', stack' := visited + {q}, Init(stack) + ZipKids(q);
    forall r | r in visited'
      ensures Supported(comparable, subs, visited', stack', r)
    {
      if r == q {
        forall i | 0 <= i < |q.0.args|
          ensures Handled(visited', stack', (q.0.args[i], q.1.args[i]))
        {
          assert ZipKids(q)[i] == (q.0.args[i], q.1.args[i]);
        }
      } else {
        assert Supported(comparable, subs, visited, stack, r);
      }
    }
    forall r | r in stack'
      ensures r in Aligned(x, y)
    {
      if r !in stack {
        var i :| 0 <= i < |ZipKids(q)| && ZipKids(q)[i] == r;
        AlignedKids(x, y, q, i);
      }
    }
    forall theta | Extends(theta, subs0) && Agrees(comparable, theta, x, y)
      ensures Extends(theta, subs) && AllAgree(comparable, theta, stack')
    {
      assert q in stack && Agrees(comparable, theta, q.0, q.1);
    }
  }

  // The pair on the top of the stack cannot be made equal, so the terms cannot.
  lemma Fail(comparable: Typing, x: Term, y: Term, subs0: Subs, subs: Subs, visited: set<Pair>, stack: seq<Pair>)
    requires Searching(comparable, x, y, subs0, subs, visited, stack) && stack != []
    requires forall theta | Extends(theta, subs) :: !Agrees(comparable, theta, Last(stack).0, Last(stack).1)
    ensures forall theta | Extends(theta, subs0) :: !Agrees(comparable, theta, x, y)
  {
    assert Last(stack) in stack;
  }

  // match(x, y, subs)
  method Match(x: Term, y: Term, subs: Subs, comparable: Typing) returns (result: bool, subs': Subs)
    ensures result ==> Extends(subs', subs) && Agrees(comparable, subs', x, y)
    ensures result ==> forall theta | Extends(theta, subs) :: Agrees(comparable, theta, x, y) <==> Extends(theta, subs')
    ensures !result ==> forall theta | Extends(theta, subs) :: !Agrees(comparable, theta, x, y)
    ensures (exists theta :: Extends(theta, subs) && Maps(comparable, theta, x, y)) <==> result && Clean(x, y, subs)
  {
    var visited: set<Pair> := {};
    var stack := [(x, y)];
    subs' := subs;
    while stack != []
      invariant Searching(comparable, x, y, subs, subs', visited, stack)
      decreases Aligned(x, y) - visited, |stack|
    {
      var curr := stack[|stack| - 1];
      assert curr in stack && curr == Last(stack);
      ghost var stack0, subs0 := stack, subs';
      stack := stack[..|stack| - 1];
      if curr.0 == curr.1 || curr in visited {
        Drop(comparable, x, y, subs, subs0, visited, stack0);
        continue;
      }
      if |Kids(curr.0)| == 0 {
        if !comparable(curr.0, curr.1) || !curr.0.Var? || (curr.0 in subs' && curr.1 != subs'[curr.0]) {
          Fail(comparable, x, y, subs, subs0, visited, stack0);
          NothingMaps(comparable, x, y, subs);
          return false, subs';
        }
        BindVar(comparable, x, y, subs, subs0, visited, stack0);
        if curr.0 !in subs' {
          subs' := subs'[curr.0 := curr.1];
        }
        assert subs' == subs0[curr.0 := curr.1];
        visited := visited + {curr};
      } else {
        if |Kids(curr.0)| != |Kids(curr.1)| || curr.0.op != curr.1.op {
          Fail(comparable, x, y, subs, subs0, visited, stack0);
          NothingMaps(comparable, x, y, subs);
          return false, subs';
        }
        PushKids(comparable, x, y, subs, subs0, visited, stack0);
        var i := 0;
        while i < |curr.0.args|
          invariant 0 <= i <= |curr.0.args| && stack == Init(stack0) + ZipKids(curr)[..i]
        {
          stack := stack + [(curr.0.args[i], curr.1.args[i])];
          i := i + 1;
        }
        assert stack == Init(stack0) + ZipKids(curr);
        visited := visited + {curr};
      }
    }
    forall theta | Extends(theta, subs')
      ensures Agrees(comparable, theta, x, y)
    {
      VisitedAgree(comparable, subs', visited, theta, (x, y));
    }
    MatchIsRightIff(comparable, x, y, subs, subs');
    return true, subs';
  }

  // ---- what a match should mean, and when it does

  // theta maps the pattern to the term and changes variables of the pattern to comparable terms only.
  ghost predicate Maps(comparable: Typing, theta: Subs, p: Term, t: Term) {
    Substitute(p, theta) == t && forall v | OccursIn(v, p) && v in theta && theta[v] != v :: comparable(v, theta[v])
  }

  // The variable v of the pattern has u as its counterpart somewhere.
  ghost predicate Faces(p: Term, t: Term, v: Term, u: Term) {
    if p.Var? then p == v && t == u
    else t.App? && |p.args| == |t.args| && exists i | 0 <= i < |p.args| :: Faces(p.args[i], t.args[i], v, u)
  }

  // A variable that is its own counterpart somewhere is not bound to something else by the caller, and has no other
  // counterpart.
  ghost predicate Clean(x: Term, y: Term, subs: Subs) {
    forall v | Faces(x, y, v, v) :: (v in subs ==> subs[v] == v) && forall u | Faces(x, y, v, u) :: u == v
  }

  lemma {:induction false} SubstituteArgs(p: Term, theta: Subs, t: Term)
    requires p.App?
    ensures Substitute(p, theta) == t <==>
      t.App? && t.op == p.op && |t.args| == |p.args| && forall i | 0 <= i < |p.args| ::
        Substitute(p.args[i], theta) == t.args[i]
  {
    if t.App? && t.op == p.op && |t.args| == |p.args| && forall i | 0 <= i < |p.args| ::
      Substitute(p.args[i], theta) == t.args[i] {
      assert Substitute(p, theta).args == t.args;
    }
  }

  // Every substitution that maps the pattern to the term is found, whatever variables the term has.
  lemma {:induction false} MapsAgrees(comparable: Typing, theta: Subs, p: Term, t: Term)
    requires Maps(comparable, theta, p, t)
    ensures Agrees(comparable, theta, p, t)
  {
    if p.App? {
      SubstituteArgs(p, theta, t);
      forall i | 0 <= i < |p.args|
        ensures Agrees(comparable, theta, p.args[i], t.args[i])
      {
        assert forall v | OccursIn(v, p.args[i]) :: OccursIn(v, p);
        MapsAgrees(comparable, theta, p.args[i], t.args[i]);
      }
      assert Kids(p) == [] ==> p == t;
    } else {
      assert OccursIn(p, p);
    }
  }

  // Bindings that agree map the pattern to the term iff they leave alone what has itself as its counterpart.
  lemma {:induction false} AgreesMaps(comparable: Typing, theta: Subs, p: Term, t: Term)
    requires Agrees(comparable, theta, p, t)
    ensures Maps(comparable, theta, p, t) <==> forall v | Faces(p, t, v, v) && v in theta :: theta[v] == v
    decreases p
  {
    if p.App? {
      SubstituteArgs(p, theta, t);
      forall i | 0 <= i < |p.args|
        ensures Maps(comparable, theta, p.args[i], t.args[i]) <==>
          forall v | Faces(p.args[i], t.args[i], v, v) && v in theta :: theta[v] == v
      {
        AgreesMaps(comparable, theta, p.args[i], t.args[i]);
      }
      MapsArgs(comparable, theta, p, t);
    }
  }

  lemma NothingMaps(comparable: Typing, x: Term, y: Term, subs: Subs)
    requires forall theta | Extends(theta, subs) :: !Agrees(comparable, theta, x, y)
    ensures forall theta | Extends(theta, subs) :: !Maps(comparable, theta, x, y)
  {
    forall theta | Extends(theta, subs)
      ensures !Maps(comparable, theta, x, y)
    {
      if Maps(comparable, theta, x, y) {
        MapsAgrees(comparable, theta, x, y);
      }
    }
  }

  lemma MapsArgs(comparable: Typing, theta: Subs, p: Term, t: Term)
    requires p.App? && t.App? && p.op == t.op && |p.args| == |t.args|
    ensures Maps(comparable, theta, p, t) <==> forall i | 0 <= i < |p.args| ::
      Maps(comparable, theta, p.args[i], t.args[i])
  {
    SubstituteArgs(p, theta, t);
    assert forall v, i | 0 <= i < |p.args| && OccursIn(v, p.args[i]) :: OccursIn(v, p);
  }

  lemma {:induction false} AgreesFaces(comparable: Typing, theta: Subs, p: Term, t: Term, v: Term, u: Term)
    requires Agrees(comparable, theta, p, t) && Faces(p, t, v, u) && u != v
    ensures v in theta && theta[v] == u
    decreases p
  {
    if p.App? {
      var i :| 0 <= i < |p.args| && Faces(p.args[i], t.args[i], v, u);
      assert p == t ==> Agrees(comparable, theta, p.args[i], t.args[i]);
      AgreesFaces(comparable, theta, p.args[i], t.args[i], v, u);
    }
  }

  // The binding of a variable without any counterpart but itself is not needed.
  lemma {:induction false} AgreesWithout(comparable: Typing, theta: Subs, p: Term, t: Term, v: Term)
    requires Agrees(comparable, theta, p, t) && forall u | Faces(p, t, v, u) :: u == v
    ensures Agrees(comparable, theta - {v}, p, t)
    decreases p
  {
    if p.App? && p != t {
      forall i | 0 <= i < |p.args|
        ensures Agrees(comparable, theta - {v}, p.args[i], t.args[i])
      {
        assert forall u | Faces(p.args[i], t.args[i], v, u) :: Faces(p, t, v, u);
        AgreesWithout(comparable, theta, p.args[i], t.args[i], v);
      }
    } else {
      assert Faces(v, t, v, t) || p.App? || p != v;
    }
  }

  // What the caller can check beforehand: when the terms agree, a substitution maps the pattern to the term iff no
  // variable that is its own counterpart is bound to something else or has another counterpart. The least bindings do
  // it then.
  lemma MatchIsRightIff(comparable: Typing, x: Term, y: Term, subs: Subs, subs': Subs)
    requires Extends(subs', subs) && Agrees(comparable, subs', x, y)
    requires forall theta | Extends(theta, subs) :: Agrees(comparable, theta, x, y) <==> Extends(theta, subs')
    ensures (exists theta :: Extends(theta, subs) && Maps(comparable, theta, x, y)) <==> Clean(x, y, subs)
    ensures Maps(comparable, subs', x, y) <==> Clean(x, y, subs)
  {
    forall theta | Extends(theta, subs) && Maps(comparable, theta, x, y)
      ensures Clean(x, y, subs)
    {
      MapsOnlyClean(comparable, theta, x, y, subs);
    }
    if Clean(x, y, subs) {
      forall v | Faces(x, y, v, v) && v in subs'
        ensures subs'[v] == v
      {
        assert v !in subs ==> Extends(subs' - {v}, subs);
        assert !Extends(subs' - {v}, subs');
        AgreesWithout(comparable, subs', x, y, v);
      }
      AgreesMaps(comparable, subs', x, y);
    }
  }

  lemma MapsOnlyClean(comparable: Typing, theta: Subs, x: Term, y: Term, subs: Subs)
    requires Extends(theta, subs) && Maps(comparable, theta, x, y)
    ensures Clean(x, y, subs)
  {
    MapsAgrees(comparable, theta, x, y);
    AgreesMaps(comparable, theta, x, y);
    forall v, u | Faces(x, y, v, v) && Faces(x, y, v, u)
      ensures u == v
    {
      if u != v {
        AgreesFaces(comparable, theta, x, y, v, u);
      }
    }
  }

  lemma {:induction false} SelfFacing(p: Term, t: Term, v: Term)
    requires Faces(p, t, v, v)
    ensures OccursIn(v, p) && OccursIn(v, t)
  {
    if p.App? {
      var i :| 0 <= i < |p.args| && Faces(p.args[i], t.args[i], v, v);
      SelfFacing(p.args[i], t.args[i], v);
    }
  }

  // If no variable of the pattern occurs in the term a match that succeeds is right.
  lemma ApartIsRight(comparable: Typing, x: Term, y: Term, subs': Subs)
    requires Agrees(comparable, subs', x, y) && forall v | OccursIn(v, x) :: !OccursIn(v, y)
    ensures Maps(comparable, subs', x, y)
  {
    forall v
      ensures !Faces(x, y, v, v)
    {
      if Faces(x, y, v, v) {
        SelfFacing(x, y, v);
      }
    }
    AgreesMaps(comparable, subs', x, y);
  }

  // Otherwise it need not be: f(v, v) matches f(v, c), though no substitution makes them equal.
  lemma SharedVariable(comparable: Typing, f: nat, c: nat, v: Term)
    requires v.Var? && comparable(v, App(c, []))
    ensures var x, y := App(f, [v, v]), App(f, [v, App(c, [])]);
      Agrees(comparable, map[v := App(c, [])], x, y) && forall theta :: !Maps(comparable, theta, x, y)
  {
    var x, y := App(f, [v, v]), App(f, [v, App(c, [])]);
    forall theta
      ensures !Maps(comparable, theta, x, y)
    {
      SubstituteArgs(x, theta, y);
      assert Substitute(x.args[0], theta) == Substitute(x.args[1], theta);
    }
  }
}
