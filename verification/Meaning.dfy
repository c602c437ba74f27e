/** The meaning of terms with binders, and renaming substitutions that preserve it. */
module Meaning {
  import opened Options
  import opened Terms

  // How a structure interprets operators and binders. An application is given the values of its parts (and
  // whether the first is an operator). A binder is given the sorts of its variables and, for
  // each choice of their values, the values of the parts in its scope.
  datatype Interpretation<!V(==)> = Interpretation(
    apply: (Kind, bool, seq<V>) -> V,
    closure: (nat, seq<nat>, imap<seq<V>, seq<V>>) -> V)

  type Env<!V> = Node -> V

  // The last occurrence of y counts, as for variables bound twice by one list.
  function LastIndex(s: seq<Node>, y: Node): (i: nat)
    requires y in s
    ensures i < |s| && s[i] == y && y !in s[i + 1..]
  {
    if s[|s| - 1] == y then |s| - 1 else LastIndex(s[..|s| - 1], y)
  }

  function Bind<V>(env: Env<V>, vars: seq<Node>, vals: seq<V>): Env<V>
    requires |vals| == |vars|
  {
    y => if y in vars then vals[LastIndex(vars, y)] else env(y)
  }

  function Sorts(vars: seq<Node>): seq<nat> {
    seq(|vars|, i requires 0 <= i < |vars| => if vars[i].BoundVariable? then vars[i].sort else 0)
  }

  ghost function Eval<V(!new)>(I: Interpretation<V>, n: Node, env: Env<V>): V
    decreases n, 2
  {
    if IsLeaf(n) then env(n)
    else if n.kind.CLOSURE? then
      I.closure(n.kind.binder, Sorts(BoundList(n)), Scope(I, n, env))
    else
      I.apply(n.kind, n.op.Some?, EvalParts(I, n, env))
  }

  ghost function EvalParts<V(!new)>(I: Interpretation<V>, n: Node, env: Env<V>): seq<V>
    decreases n, 0
  {
    seq(|Parts(n)|, i requires 0 <= i < |Parts(n)| => Eval(I, Parts(n)[i], env))
  }

  ghost function Scope<V(!new)>(I: Interpretation<V>, n: Node, env: Env<V>): imap<seq<V>, seq<V>>
    requires IsClosure(n) && n.args != []
    decreases n, 1
  {
    imap vals: seq<V> | |vals| == |BoundList(n)| :: EvalScoped(I, n, Bind(env, BoundList(n), vals))
  }

  ghost function EvalScoped<V(!new)>(I: Interpretation<V>, n: Node, env: Env<V>): seq<V>
    requires IsClosure(n) && n.args != []
    decreases n, 0
  {
    seq(|Scoped(n)|, i requires 0 <= i < |Scoped(n)| => Eval(I, Scoped(n)[i], env))
  }

  // The value of a term depends on its free leaves only.
  lemma {:induction false} EvalCoincides<V(!new)>(I: Interpretation<V>, n: Node, env1: Env<V>, env2: Env<V>)
    requires forall l | IsFree(l, n) :: env1(l) == env2(l)
    ensures Eval(I, n, env1) == Eval(I, n, env2)
    decreases n
  {
    if IsLeaf(n) {
    } else if IsClosure(n) {
      var vars := BoundList(n);
      forall vals: seq<V> | |vals| == |vars|
        ensures EvalScoped(I, n, Bind(env1, vars, vals)) == EvalScoped(I, n, Bind(env2, vars, vals))
      {
        forall p | p in Scoped(n)
          ensures Eval(I, p, Bind(env1, vars, vals)) == Eval(I, p, Bind(env2, vars, vals))
        {
          EvalCoincides(I, p, Bind(env1, vars, vals), Bind(env2, vars, vals));
        }
      }
      assert Scope(I, n, env1) == Scope(I, n, env2);
    } else {
      forall p | p in Parts(n)
        ensures Eval(I, p, env1) == Eval(I, p, env2)
      {
        EvalCoincides(I, p, env1, env2);
      }
      assert EvalParts(I, n, env1) == EvalParts(I, n, env2);
    }
  }

  // One image per leaf, everywhere.
  function Image(rho: map<Node, Node>, l: Node): Node {
    if l in rho then rho[l] else l
  }

  function Replace(n: Node, rho: map<Node, Node>): Node {
    if IsLeaf(n) then Image(rho, n)
    else Apply(n.kind, if n.op.Some? then Some(Replace(n.op.value, rho)) else None,
               seq(|n.args|, i requires 0 <= i < |n.args| => Replace(n.args[i], rho)))
  }

  lemma ReplaceParts(n: Node, rho: map<Node, Node>)
    requires !IsLeaf(n)
    ensures !IsLeaf(Replace(n, rho)) && |Parts(Replace(n, rho))| == |Parts(n)|
    ensures forall i | 0 <= i < |Parts(n)| :: Parts(Replace(n, rho))[i] == Replace(Parts(n)[i], rho)
  {
  }

  // A closure's binder list is renamed variable by variable.
  lemma ReplaceClosure(n: Node, rho: map<Node, Node>)
    requires WellFormed(n) && IsClosure(n)
    ensures |BoundList(Replace(n, rho))| == |BoundList(n)|
    ensures forall i | 0 <= i < |BoundList(n)| :: BoundList(Replace(n, rho))[i] == Image(rho, BoundList(n)[i])
    ensures |Scoped(Replace(n, rho))| == |Scoped(n)|
    ensures forall i | 0 <= i < |Scoped(n)| :: Scoped(Replace(n, rho))[i] == Replace(Scoped(n)[i], rho)
  {
    var list := n.args[0];
    assert !IsLeaf(n) && IsVarList(list);
    assert Replace(n, rho).args[0] == Replace(list, rho);
    forall i | 0 <= i < |list.args|
      ensures Replace(list.args[i], rho) == Image(rho, list.args[i])
    {
      assert list.args[i] in list.args && list.args[i].BoundVariable?;
    }
  }

  function Lookup(src: seq<Node>, dest: seq<Node>, l: Node): Node
    requires |src| == |dest|
  {
    if l in src then dest[LastIndex(src, l)] else l
  }

  // The last destination given for a source counts, and all else stays.
  lemma LookupIs(src: seq<Node>, dest: seq<Node>, l: Node)
    requires |src| == |dest|
    ensures forall i | IsLast(src, i, l) :: Lookup(src, dest, l) == dest[i]
    ensures l !in src ==> Lookup(src, dest, l) == l
  {
    forall i | IsLast(src, i, l)
      ensures Lookup(src, dest, l) == dest[i]
    {
      InTail(src, i, LastIndex(src, l));
      InTail(src, LastIndex(src, l), i);
    }
  }

  lemma InTail(src: seq<Node>, i: nat, k: nat)
    requires k < |src|
    ensures i < k ==> src[k] in src[i + 1..]
  {
    if i < k {
      assert src[i + 1..][k - i - 1] == src[k];
    }
  }

  ghost predicate IsLast(src: seq<Node>, i: int, l: Node) {
    0 <= i < |src| && src[i] == l && l !in src[i + 1..]
  }

  // rho carries the substitution on the free leaves of n and renames its bound variables, one to one and
  // keeping sorts, to variables that nothing substituted for a free leaf contains.
  ghost predicate CaptureAvoiding(n: Node, src: seq<Node>, dest: seq<Node>, rho: map<Node, Node>)
    requires |src| == |dest|
  {
    && (forall l | IsFree(l, n) :: Image(rho, l) == Lookup(src, dest, l))
    && RenamesApart(n, rho, BoundVariables(n))
  }

  ghost function BoundVariables(n: Node): iset<Node> {
    iset x | IsBound(x, n)
  }

  ghost predicate RenamesApart(n: Node, rho: map<Node, Node>, bound: iset<Node>) {
    && (forall x | IsBound(x, n) :: x in bound)
    && (forall x | x in bound :: RenamesVariable(x, Image(rho, x)))
    && (forall x, y | x in bound && y in bound && Image(rho, x) == Image(rho, y) :: x == y)
    && (forall x, l | x in bound && IsFree(l, n) && l !in bound :: !IsFree(Image(rho, x), Image(rho, l)))
  }

  ghost predicate RenamesVariable(x: Node, y: Node) {
    x.BoundVariable? && y.BoundVariable? && y.sort == x.sort
  }

  // A variable of the closure's own list keeps its value under the renamed list.
  lemma BinderKeepsValue<V(!new)>(n: Node, rho: map<Node, Node>, bound: iset<Node>,
                                  env1: Env<V>, env2: Env<V>, vals: seq<V>, x: Node)
    requires WellFormed(n) && IsClosure(n) && RenamesApart(n, rho, bound)
    requires |vals| == |BoundList(n)| && x in BoundList(n)
    ensures |vals| == |BoundList(Replace(n, rho))| && IsLeaf(Image(rho, x))
    ensures Bind(env1, BoundList(Replace(n, rho)), vals)(Image(rho, x)) == Bind(env2, BoundList(n), vals)(x)
  {
    ReplaceClosure(n, rho);
    var xs, ys := BoundList(n), BoundList(Replace(n, rho));
    assert forall y | y in xs :: IsBound(y, n) && y in bound && RenamesVariable(y, Image(rho, y));
    LastIndexOfImage(xs, ys, rho, x);
  }

  lemma {:induction false} LastIndexOfImage(xs: seq<Node>, ys: seq<Node>, rho: map<Node, Node>, x: Node)
    requires |xs| == |ys| && forall i | 0 <= i < |xs| :: ys[i] == Image(rho, xs[i])
    requires forall x, y | x in xs && y in xs && Image(rho, x) == Image(rho, y) :: x == y
    requires x in xs
    ensures Image(rho, x) in ys && LastIndex(ys, Image(rho, x)) == LastIndex(xs, x)
  {
    var last := |xs| - 1;
    assert ys[LastIndex(xs, x)] == Image(rho, x);
    if xs[last] != x {
      LastIndexOfImage(xs[..last], ys[..last], rho, x);
    }
  }

  // Whatever replaces another leaf of the closure's body is not touched by the renamed list.
  lemma BinderDoesNotCapture<V(!new)>(n: Node, rho: map<Node, Node>, bound: iset<Node>, env: Env<V>, vals: seq<V>,
                                      l: Node, k: Node)
    requires WellFormed(n) && IsClosure(n) && RenamesApart(n, rho, bound)
    requires |vals| == |BoundList(n)| && IsFree(l, n) && l !in BoundList(n) && IsFree(k, Image(rho, l))
    ensures |vals| == |BoundList(Replace(n, rho))|
    ensures Bind(env, BoundList(Replace(n, rho)), vals)(k) == env(k)
  {
    ReplaceClosure(n, rho);
    var xs, ys := BoundList(n), BoundList(Replace(n, rho));
    forall i | 0 <= i < |ys|
      ensures ys[i] != k
    {
      assert IsBound(xs[i], n) && xs[i] in bound && RenamesVariable(xs[i], ys[i]);
    }
  }

  // Evaluating the images of a scoped part's free leaves under the renamed list agrees with the original.
  lemma BindersAgree<V(!new)>(I: Interpretation<V>, n: Node, rho: map<Node, Node>, bound: iset<Node>,
                              env1: Env<V>, env2: Env<V>, vals: seq<V>, p: Node, l: Node)
    requires WellFormed(n) && IsClosure(n) && RenamesApart(n, rho, bound)
    requires ImagesEvaluate(I, n, rho, env1, env2)
    requires |vals| == |BoundList(n)| && p in Scoped(n) && IsFree(l, p)
    ensures |vals| == |BoundList(Replace(n, rho))|
    ensures Eval(I, Image(rho, l), Bind(env1, BoundList(Replace(n, rho)), vals)) == Bind(env2, BoundList(n), vals)(l)
  {
    ReplaceClosure(n, rho);
    var ys := BoundList(Replace(n, rho));
    if l in BoundList(n) {
      BinderKeepsValue(n, rho, bound, env1, env2, vals, l);
    } else {
      assert IsFree(l, n);
      forall k | IsFree(k, Image(rho, l))
        ensures Bind(env1, ys, vals)(k) == env1(k)
      {
        BinderDoesNotCapture(n, rho, bound, env1, vals, l, k);
      }
      EvalCoincides(I, Image(rho, l), Bind(env1, ys, vals), env1);
    }
  }

  // env2 gives each free leaf of n the value that env1 gives its image.
  ghost predicate ImagesEvaluate<V(!new)>(I: Interpretation<V>, n: Node, rho: map<Node, Node>, env1: Env<V>,
                                          env2: Env<V>) {
    forall l | IsFree(l, n) :: Eval(I, Image(rho, l), env1) == env2(l)
  }

  lemma {:induction false} ReplaceMeans<V(!new)>(I: Interpretation<V>, n: Node, rho: map<Node, Node>, bound: iset<Node>,
                                                 env1: Env<V>, env2: Env<V>)
    requires WellFormed(n) && RenamesApart(n, rho, bound) && ImagesEvaluate(I, n, rho, env1, env2)
    ensures Eval(I, Replace(n, rho), env1) == Eval(I, n, env2)
    decreases n, 1
  {
    if IsLeaf(n) {
    } else if IsClosure(n) {
      ReplaceMeansClosure(I, n, rho, bound, env1, env2);
    } else {
      ReplaceParts(n, rho);
      forall p | p in Parts(n)
        ensures Eval(I, Replace(p, rho), env1) == Eval(I, p, env2)
      {
        ReplaceMeans(I, p, rho, bound, env1, env2);
      }
      assert EvalParts(I, Replace(n, rho), env1) == EvalParts(I, n, env2);
    }
  }

  lemma {:induction false} ReplaceMeansClosure<V(!new)>(I: Interpretation<V>, n: Node, rho: map<Node, Node>,
                                                        bound: iset<Node>, env1: Env<V>, env2: Env<V>)
    requires WellFormed(n) && IsClosure(n) && RenamesApart(n, rho, bound) && ImagesEvaluate(I, n, rho, env1, env2)
    ensures Eval(I, Replace(n, rho), env1) == Eval(I, n, env2)
    decreases n, 0
  {
    ReplaceClosure(n, rho);
    var m, xs, ys := Replace(n, rho), BoundList(n), BoundList(Replace(n, rho));
    forall vals: seq<V> | |vals| == |xs|
      ensures EvalScoped(I, m, Bind(env1, ys, vals)) == EvalScoped(I, n, Bind(env2, xs, vals))
    {
      forall p | p in Scoped(n)
        ensures Eval(I, Replace(p, rho), Bind(env1, ys, vals)) == Eval(I, p, Bind(env2, xs, vals))
      {
        forall l | IsFree(l, p)
          ensures Eval(I, Image(rho, l), Bind(env1, ys, vals)) == Bind(env2, xs, vals)(l)
        {
          BindersAgree(I, n, rho, bound, env1, env2, vals, p, l);
        }
        ScopedRenamesApart(n, rho, bound, p);
        ReplaceMeans(I, p, rho, bound, Bind(env1, ys, vals), Bind(env2, xs, vals));
      }
    }
    assert Scope(I, m, env1) == Scope(I, n, env2);
    SameSorts(n, rho, bound);
  }

  lemma SameSorts(n: Node, rho: map<Node, Node>, bound: iset<Node>)
    requires WellFormed(n) && IsClosure(n) && RenamesApart(n, rho, bound)
    ensures Sorts(BoundList(Replace(n, rho))) == Sorts(BoundList(n))
  {
    ReplaceClosure(n, rho);
    assert forall x | x in BoundList(n) :: IsBound(x, n) && x in bound && RenamesVariable(x, Image(rho, x));
  }

  lemma ScopedRenamesApart(n: Node, rho: map<Node, Node>, bound: iset<Node>, p: Node)
    requires WellFormed(n) && IsClosure(n) && RenamesApart(n, rho, bound) && p in Scoped(n)
    ensures WellFormed(p) && RenamesApart(p, rho, bound)
  {
    assert p in Parts(n);
    assert forall x | x in BoundList(n) :: IsBound(x, n) && x in bound;
    assert forall x | IsBound(x, p) :: IsBound(x, n);
    assert forall l | IsFree(l, p) && l !in bound :: IsFree(l, n);
  }

  lemma {:induction false} FreeIsLeaf(l: Node, n: Node)
    requires IsFree(l, n)
    ensures IsLeaf(l)
  {
    if !IsLeaf(n) {
      var p :| p in Scoped(n) && IsFree(l, p);
      FreeIsLeaf(l, p);
    }
  }

  // Capture-avoiding substitution preserves meaning: the result means what the term means when each source
  // stands for the value of its last destination and the other leaves for what they stood for.
  lemma SubstitutionPreservesMeaning<V(!new)>(I: Interpretation<V>, n: Node, src: seq<Node>, dest: seq<Node>,
                                              rho: map<Node, Node>, env: Env<V>, env': Env<V>)
    requires WellFormed(n) && BarendregtTerm(n) && |src| == |dest| && CaptureAvoiding(n, src, dest, rho)
    requires forall i, l | IsLast(src, i, l) :: env'(l) == Eval(I, dest[i], env)
    requires forall l | IsLeaf(l) && l !in src :: env'(l) == env(l)
    ensures Eval(I, Replace(n, rho), env) == Eval(I, n, env')
  {
    forall l | IsFree(l, n)
      ensures Eval(I, Image(rho, l), env) == env'(l)
    {
      FreeIsLeaf(l, n);
      LookupIs(src, dest, l);
      assert l in src ==> IsLast(src, LastIndex(src, l), l);
    }
    ReplaceMeans(I, n, rho, BoundVariables(n), env, env');
  }
}
