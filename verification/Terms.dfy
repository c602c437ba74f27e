/** Hash-consed terms with binders, as the term algorithms see them. */
module Terms {
  import opened Options

  datatype Kind =
    | BOUND_VAR_LIST
    | CLOSURE(binder: nat)    // quantifiers, lambdas, comprehensions, ...
    | OPERATOR(symbol: nat)   // every other kind with children

  // op is the operator of a parameterized kind. Node identity is structural equality.
  datatype Node =
    | BoundVariable(id: nat, sort: nat)
    | Symbol(id: nat, sort: nat)
    | Apply(kind: Kind, op: Option<Node>, args: seq<Node>)

  function Children(n: Node): seq<Node> {
    if n.Apply? then n.args else []
  }

  // The operator of a parameterized node and its children, in the order the traversals push them.
  function Parts(n: Node): (parts: seq<Node>)
    ensures forall p | p in parts :: p < n
  {
    if n.Apply? then (if n.op.Some? then [n.op.value] else []) + n.args else []
  }

  predicate IsLeaf(n: Node) {
    Children(n) == []
  }

  predicate IsClosure(n: Node) {
    n.Apply? && n.kind.CLOSURE?
  }

  predicate IsVarList(n: Node) {
    n.Apply? && n.kind.BOUND_VAR_LIST? && n.op.None? && n.args != [] && forall v | v in n.args :: v.BoundVariable?
  }

  // The variables a closure binds, in order.
  function BoundList(n: Node): seq<Node> {
    if IsClosure(n) && n.args != [] then Children(n.args[0]) else []
  }

  // The parts of a node in the scope of what it binds.
  function Scoped(n: Node): (parts: seq<Node>)
    ensures forall p | p in parts :: p < n
  {
    if IsClosure(n) && n.args != [] then n.args[1..] else Parts(n)
  }

  // Childless nodes have no operator; a closure starts with a list of bound variables.
  predicate WellFormed(n: Node) {
    && (n.Apply? && n.args == [] ==> n.op.None? && !n.kind.CLOSURE?)
    && (IsClosure(n) ==> n.op.None? && IsVarList(n.args[0]))
    && forall p | p in Parts(n) :: WellFormed(p)
  }

  ghost predicate IsPart(m: Node, n: Node) {
    m == n || exists p | p in Parts(n) :: IsPart(m, p)
  }

  // The leaf l occurs in n.
  ghost predicate IsLeafOf(l: Node, n: Node) {
    if IsLeaf(n) then l == n else exists p | p in Parts(n) :: IsLeafOf(l, p)
  }

  // The leaf l occurs in n outside every closure that binds it; binder lists do not count as occurrences.
  ghost predicate IsFree(l: Node, n: Node) {
    if IsLeaf(n) then l == n
    else l !in BoundList(n) && exists p | p in Scoped(n) :: IsFree(l, p)
  }

  // Some closure in n binds x.
  ghost predicate IsBound(x: Node, n: Node) {
    x in BoundList(n) || exists p | p in Parts(n) :: IsBound(x, p)
  }

  // No variable is both free and bound.
  ghost predicate BarendregtTerm(n: Node) {
    forall l | IsFree(l, n) :: !IsBound(l, n)
  }

  // ---- the finite set of the parts of a node, which bounds a search through it

  ghost function PartSet(n: Node): set<Node> {
    {n} + set p, m | p in Parts(n) && m in PartSet(p) :: m
  }

  ghost predicate PartsIn(m: Node, all: set<Node>) {
    forall p | p in Parts(m) :: p in all
  }

  // The finite set that bounds the search: it contains n and the parts of its members.
  ghost predicate PartClosed(n: Node, all: set<Node>) {
    n in all && forall m {:trigger PartsIn(m, all)} | m in all :: PartsIn(m, all)
  }

  lemma {:induction false} PartSetTransitive(n: Node, m: Node, p: Node)
    requires m in PartSet(n) && p in Parts(m)
    ensures p in PartSet(n)
    decreases n
  {
    if m == n {
      assert p in PartSet(p);
    } else {
      var q :| q in Parts(n) && m in PartSet(q);
      PartSetTransitive(q, m, p);
    }
  }

  lemma PartSetClosed(n: Node)
    ensures PartClosed(n, PartSet(n))
  {
    forall m | m in PartSet(n)
      ensures PartsIn(m, PartSet(n))
    {
      forall p | p in Parts(m)
        ensures p in PartSet(n)
      {
        PartSetTransitive(n, m, p);
      }
    }
  }
}
