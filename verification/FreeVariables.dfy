/** The free variables of a term: a worklist with a cache for each scope, pruned by a cached attribute. */
module FreeVariables {
  import opened Options
  import opened Terms
  import opened Sequences

  // A bound variable occurs in n, be it in a binder list.
  ghost predicate HasVariable(n: Node) {
    n.BoundVariable? || exists p | p in Parts(n) :: HasVariable(p)
  }

  ghost predicate SomeHasVariable(ns: seq<Node>) {
    exists k | 0 <= k < |ns| :: HasVariable(ns[k])
  }

  lemma VariableInPart(n: Node)
    ensures HasVariable(n) <==>
      n.BoundVariable? || SomeHasVariable(Children(n)) || (n.Apply? && n.op.Some? && HasVariable(n.op.value))
  {
    assert Parts(n) == (if n.Apply? && n.op.Some? then [n.op.value] else []) + Children(n);
    forall k | 0 <= k < |Children(n)|
      ensures Children(n)[k] in Parts(n)
    {
    }
    assert n.Apply? && n.op.Some? ==> n.op.value in Parts(n);
  }

  lemma SomeAppend(ns: seq<Node>, n: Node)
    ensures SomeHasVariable(ns + [n]) <==> SomeHasVariable(ns) || HasVariable(n)
  {
    assert (ns + [n])[|ns|] == n;
    if SomeHasVariable(ns) {
      var k :| 0 <= k < |ns| && HasVariable(ns[k]);
      assert (ns + [n])[k] == ns[k];
    }
  }

  // Closures have a list and a body, and bind no variable twice and none of the scope.
  ghost predicate ShadowFree(n: Node, scope: set<Node>) {
    if IsClosure(n) then
      && |n.args| == 2
      && (forall i, j | 0 <= i < j < |BoundList(n)| :: BoundList(n)[i] != BoundList(n)[j])
      && (forall x | x in BoundList(n) :: x !in scope)
      && ShadowFree(n.args[1], scope + ListSet(n))
    else forall p | p in Parts(n) :: ShadowFree(p, scope)
  }

  ghost function ListSet(n: Node): set<Node> {
    set x | x in BoundList(n)
  }

  // The variable x is free in n and not in the scope.
  ghost predicate FreeOutside(x: Node, n: Node, scope: set<Node>) {
    x.BoundVariable? && IsFree(x, n) && x !in scope
  }

  lemma {:induction false} FreeHasVariable(x: Node, n: Node)
    requires x.BoundVariable? && IsFree(x, n)
    ensures HasVariable(n)
  {
    if !IsLeaf(n) {
      var p :| p in Scoped(n) && IsFree(x, p);
      FreeHasVariable(x, p);
      assert p in Parts(n);
    }
  }

  // ---- what the search keeps: visited holds nodes that are not below a further closure

  ghost predicate Collected(fvs: set<Node>, scope: set<Node>, visited: set<Node>, visit: seq<Node>, m: Node) {
    if m.BoundVariable? || IsClosure(m) then forall x | FreeOutside(x, m, scope) :: x in fvs
    else forall p | p in Parts(m) :: Dealt(visited, visit, p)
  }

  ghost predicate Dealt(visited: set<Node>, visit: seq<Node>, m: Node) {
    m in visited || m in visit || !HasVariable(m)
  }

  // The node m is a part of n outside its closures.
  ghost predicate Within(n: Node, scope: set<Node>, all: set<Node>, m: Node) {
    && m in all && WellFormed(m) && ShadowFree(m, scope)
    && (m == n || m < n)
    && forall x | IsFree(x, m) :: IsFree(x, n)
  }

  ghost predicate Searching(n: Node, scope: set<Node>, all: set<Node>, fvs0: set<Node>, fvs: set<Node>,
                            visited: set<Node>, visit: seq<Node>) {
    && PartClosed(n, all)
    && Dealt(visited, visit, n)
    && (forall m {:trigger Within(n, scope, all, m)} | m in visit || m in visited :: Within(n, scope, all, m))
    && (forall m {:trigger Collected(fvs, scope, visited, visit, m)} | m in visited ::
        Collected(fvs, scope, visited, visit, m))
    && fvs0 <= fvs
    && (forall x | x in fvs :: x in fvs0 || FreeOutside(x, n, scope))
  }

  // When nothing is left to visit every free variable has been collected.
  lemma {:induction false} AllCollected(fvs: set<Node>, scope: set<Node>, visited: set<Node>, m: Node, x: Node)
    requires forall v {:trigger Collected(fvs, scope, visited, [], v)} | v in visited ::
      Collected(fvs, scope, visited, [], v)
    requires Dealt(visited, [], m) && FreeOutside(x, m, scope)
    ensures x in fvs
  {
    FreeHasVariable(x, m);
    assert Collected(fvs, scope, visited, [], m);
    if !m.BoundVariable? && !IsClosure(m) {
      if IsLeaf(m) {
      } else {
        var p :| p in Scoped(m) && IsFree(x, p);
        AllCollected(fvs, scope, visited, p, x);
      }
    }
  }

  // A node without variables, or one that has been visited, is dropped.
  lemma Drop(n: Node, scope: set<Node>, all: set<Node>, fvs0: set<Node>, fvs: set<Node>, visited: set<Node>,
             visit: seq<Node>, cur: Node)
    requires Searching(n, scope, all, fvs0, fvs, visited, visit) && visit != [] && cur == visit[|visit| - 1]
    requires !HasVariable(cur) || cur in visited
    ensures Searching(n, scope, all, fvs0, fvs, visited, Init(visit))
  {
    InitMembers(visit);
    forall m | m in visited
      ensures Collected(fvs, scope, visited, Init(visit), m)
    {
      assert Collected(fvs, scope, visited, visit, m);
    }
  }

  // The variables of a variable or of a closure have been collected.
  lemma Collect(n: Node, scope: set<Node>, all: set<Node>, fvs0: set<Node>, fvs: set<Node>, visited: set<Node>,
                visit: seq<Node>, cur: Node, fvs': set<Node>)
    requires Searching(n, scope, all, fvs0, fvs, visited, visit) && visit != [] && cur == visit[|visit| - 1]
    requires cur.BoundVariable? || IsClosure(cur)
    requires fvs <= fvs' && (forall x | FreeOutside(x, cur, scope) :: x in fvs')
    requires forall x | x in fvs' :: x in fvs || FreeOutside(x, cur, scope)
    ensures Searching(n, scope, all, fvs0, fvs', visited + {cur}, Init(visit))
  {
    InitMembers(visit);
    assert Within(n, scope, all, cur);
    forall m | m in visited + {cur}
      ensures Collected(fvs', scope, visited + {cur}, Init(visit), m)
    {
      assert m != cur ==> Collected(fvs, scope, visited, visit, m);
    }
  }

  // The parts of any other node are pushed.
  lemma PushParts(n: Node, scope: set<Node>, all: set<Node>, fvs0: set<Node>, fvs: set<Node>, visited: set<Node>,
                  visit: seq<Node>, cur: Node)
    requires Searching(n, scope, all, fvs0, fvs, visited, visit) && visit != [] && cur == visit[|visit| - 1]
    requires cur.Apply? && !IsClosure(cur)
    ensures Searching(n, scope, all, fvs0, fvs, visited + {cur}, Init(visit) + Parts(cur))
  {
    var visited', visit' := visited + {cur}, Init(visit) + Parts(cur);
    InitMembers(visit);
    assert Within(n, scope, all, cur) && PartsIn(cur, all);
    forall m | m in visit' || m in visited'
      ensures Within(n, scope, all, m)
    {
      if m in Parts(cur) {
        assert Scoped(cur) == Parts(cur) && !IsLeaf(cur) by {
          assert WellFormed(cur);
        }
        assert forall x | IsFree(x, m) :: IsFree(x, cur);
      }
    }
    forall m | m in visited'
      ensures Collected(fvs, scope, visited', visit', m)
    {
      assert m != cur ==> Collected(fvs, scope, visited, visit, m);
    }
  }

  // What is free in a closure is free in its body and not in its list.
  lemma FreeInClosure(n: Node, x: Node)
    requires WellFormed(n) && IsClosure(n) && |n.args| == 2
    ensures IsFree(x, n) <==> x !in BoundList(n) && IsFree(x, n.args[1])
  {
    assert Scoped(n) == [n.args[1]];
  }

  class NodeAlgorithm {
    // The attributes of nodes: whether a bound variable occurs in them.
    var hasBoundVar: map<Node, bool>

    ghost predicate Valid()
      reads this
    {
      forall n {:trigger Right(n)} | n in hasBoundVar :: Right(n)
    }

    ghost predicate Right(n: Node)
      reads this
    {
      n in hasBoundVar && hasBoundVar[n] == HasVariable(n)
    }

    constructor ()
      ensures Valid()
    {
      hasBoundVar := map[];
    }

    method HasBoundVar(n: Node) returns (hasBv: bool)
      requires Valid()
      modifies this
      ensures Valid() && hasBv == HasVariable(n)
      ensures n in hasBoundVar && old(hasBoundVar.Keys) <= hasBoundVar.Keys
      decreases n, 1
    {
      if n in hasBoundVar {
        assert Right(n);
        return hasBoundVar[n];
      }
      hasBv := n.BoundVariable?;
      if !hasBv {
        hasBv := SomeChildHasBoundVar(n);
      }
      if !hasBv && n.Apply? && n.op.Some? {
        assert n.op.value in Parts(n);
        hasBv := HasBoundVar(n.op.value);
      }
      VariableInPart(n);
      SetAttribute(n, hasBv);
    }

    method SetAttribute(n: Node, hasBv: bool)
      requires Valid() && hasBv == HasVariable(n)
      modifies this
      ensures Valid() && hasBoundVar == old(hasBoundVar)[n := hasBv]
    {
      hasBoundVar := hasBoundVar[n := hasBv];
      forall m | m in hasBoundVar
        ensures Right(m)
      {
        assert m != n ==> old(Right(m));
      }
    }

    method SomeChildHasBoundVar(n: Node) returns (hasBv: bool)
      requires Valid()
      modifies this
      ensures Valid() && (hasBv <==> SomeHasVariable(Children(n)))
      ensures old(hasBoundVar.Keys) <= hasBoundVar.Keys
      decreases n, 0
    {
      hasBv := false;
      var i := 0;
      while i < |Children(n)| && !hasBv
        invariant Valid() && 0 <= i <= |Children(n)| && old(hasBoundVar.Keys) <= hasBoundVar.Keys
        invariant hasBv <==> SomeHasVariable(Children(n)[..i])
      {
        assert Children(n)[i] in Parts(n);
        hasBv := HasBoundVar(Children(n)[i]);
        SomeAppend(Children(n)[..i], Children(n)[i]);
        assert Children(n)[..i + 1] == Children(n)[..i] + [Children(n)[i]];
        i := i + 1;
      }
      if hasBv {
        ghost var k :| 0 <= k < i && HasVariable(Children(n)[..i][k]);
        assert Children(n)[k] == Children(n)[..i][k];
      } else {
        assert Children(n)[..i] == Children(n);
      }
    }

    // The sets are passed by reference. With computeFv the free variables are added to fvs; otherwise the search stops
    // at the first, and does not clean up the scope.
    method GetFreeVariablesScope(n: Node, fvs: set<Node>, scope: set<Node>, computeFv: bool)
      returns (r: bool, fvs': set<Node>, scope': set<Node>)
      requires Valid() && WellFormed(n) && ShadowFree(n, scope)
      modifies this
      ensures Valid()
      ensures computeFv ==> scope' == scope && (r <==> fvs' != {})
      ensures computeFv ==> forall x :: x in fvs' <==> x in fvs || FreeOutside(x, n, scope)
      ensures !computeFv ==> fvs' == fvs && (r <==> fvs != {} || exists x :: FreeOutside(x, n, scope))
      ensures !computeFv && !r ==> scope' == scope
      decreases n, 1
    {
      var visited: set<Node> := {};
      var visit := [n];
      fvs', scope' := fvs, scope;
      ghost var all := PartSet(n);
      PartSetClosed(n);
      while visit != []
        invariant Valid() && scope' == scope && (!computeFv ==> fvs' == fvs)
        invariant Searching(n, scope, all, fvs, fvs', visited, visit)
        decreases all - visited, |visit|
      {
        ghost var visit0 := visit;
        var cur := visit[|visit| - 1];
        visit := visit[..|visit| - 1];
        assert Within(n, scope, all, cur);
        var hasBv := HasBoundVar(cur);
        if !hasBv || cur in visited {
          Drop(n, scope, all, fvs, fvs', visited, visit0, cur);
          continue;
        }
        if cur.BoundVariable? {
          if cur !in scope' {
            assert FreeOutside(cur, n, scope);
            if !computeFv {
              return true, fvs', scope';
            }
            Collect(n, scope, all, fvs, fvs', visited, visit0, cur, fvs' + {cur});
            fvs' := fvs' + {cur};
          } else {
            Collect(n, scope, all, fvs, fvs', visited, visit0, cur, fvs');
          }
        } else if IsClosure(cur) {
          var found;
          ghost var before := fvs';
          found, fvs', scope' := VisitClosure(cur, fvs', scope', computeFv);
          if found && !computeFv {
            assert fvs != {} || exists x :: FreeOutside(x, n, scope) by {
              if x :| FreeOutside(x, cur, scope) {
                assert FreeOutside(x, n, scope);
              }
            }
            return true, fvs', scope';
          }
          Collect(n, scope, all, fvs, before, visited, visit0, cur, fvs');
        } else {
          PushParts(n, scope, all, fvs, fvs', visited, visit0, cur);
          visit := visit + Parts(cur);
        }
        visited := visited + {cur};
      }
      forall x | FreeOutside(x, n, scope)
        ensures x in fvs'
      {
        AllCollected(fvs', scope, visited, n, x);
      }
      r := fvs' != {};
    }

    // The list of the closure is in scope while its body is searched, with a cache of its own.
    method VisitClosure(cur: Node, fvs: set<Node>, scope: set<Node>, computeFv: bool)
      returns (r: bool, fvs': set<Node>, scope': set<Node>)
      requires Valid() && WellFormed(cur) && ShadowFree(cur, scope) && IsClosure(cur)
      modifies this
      ensures Valid()
      ensures computeFv ==> scope' == scope
      ensures computeFv ==> forall x :: x in fvs' <==> x in fvs || FreeOutside(x, cur, scope)
      ensures !computeFv ==> fvs' == fvs && (r <==> fvs != {} || exists x :: FreeOutside(x, cur, scope))
      ensures !computeFv && !r ==> scope' == scope
      decreases cur, 0
    {
      scope' := InsertAll(BoundList(cur), scope);
      assert cur.args[1] in Parts(cur) && scope' == scope + ListSet(cur);
      forall x
        ensures FreeOutside(x, cur, scope) <==> FreeOutside(x, cur.args[1], scope + ListSet(cur))
      {
        FreeInClosure(cur, x);
      }
      r, fvs', scope' := GetFreeVariablesScope(cur.args[1], fvs, scope', computeFv);
      if r && !computeFv {
        return;
      }
      scope' := EraseAll(BoundList(cur), scope');
      assert scope' == scope;
    }

    // The variables should not be in scope.
    method InsertAll(vars: seq<Node>, scope: set<Node>) returns (scope': set<Node>)
      requires forall i, j | 0 <= i < j < |vars| :: vars[i] != vars[j]
      requires forall x | x in vars :: x !in scope
      ensures scope' == scope + set x | x in vars
    {
      scope' := scope;
      for i := 0 to |vars|
        invariant scope' == scope + set x | x in vars[..i]
      {
        assert vars[i] in vars && vars[i] !in vars[..i] && vars[i] !in scope';
        assert vars[..i + 1] == vars[..i] + [vars[i]];
        scope' := scope' + {vars[i]};
      }
      assert vars[..|vars|] == vars;
    }

    method EraseAll(vars: seq<Node>, scope: set<Node>) returns (scope': set<Node>)
      ensures scope' == scope - set x | x in vars
    {
      scope' := scope;
      for i := 0 to |vars|
        invariant scope' == scope - set x | x in vars[..i]
      {
        assert vars[..i + 1] == vars[..i] + [vars[i]];
        scope' := scope' - {vars[i]};
      }
      assert vars[..|vars|] == vars;
    }

    method GetFreeVariables(n: Node, fvs: set<Node>, computeFv: bool) returns (r: bool, fvs': set<Node>)
      requires Valid() && WellFormed(n) && ShadowFree(n, {})
      modifies this
      ensures Valid()
      ensures computeFv ==> forall x :: x in fvs' <==> x in fvs || FreeOutside(x, n, {})
      ensures if computeFv then r <==> fvs' != {} else r <==> fvs != {} || exists x :: FreeOutside(x, n, {})
    {
      var scope: set<Node>;
      r, fvs', scope := GetFreeVariablesScope(n, fvs, {}, computeFv);
    }

    method HasFreeVar(n: Node) returns (r: bool)
      requires Valid() && WellFormed(n) && ShadowFree(n, {})
      modifies this
      ensures Valid() && (r <==> exists x: Node :: x.BoundVariable? && IsFree(x, n))
    {
      var fvs;
      r, fvs := GetFreeVariables(n, {}, false);
      assert forall x :: FreeOutside(x, n, {}) <==> x.BoundVariable? && IsFree(x, n);
    }
  }
}
