/** Proofs with open assumptions, and the objects that hold them, which are updated in place. */
module ProofNodes {
  import opened Sequences

  type Fact = nat
  type Rule = nat

  // A scope closes some of the assumptions of its body.
  datatype Proof =
    | Assume(fact: Fact)
    | ScopeStep(closed: set<Fact>, body: Proof, conclusion: Fact)
    | Apply(rule: Rule, premises: seq<Proof>, conclusion: Fact)

  function Conclusion(p: Proof): Fact {
    if p.Assume? then p.fact else p.conclusion
  }

  // The free assumptions, those not closed by a scope above them.
  function FreeAssumptions(p: Proof): set<Fact> {
    match p
    case Assume(fact) => {fact}
    case ScopeStep(closed, body, _) => FreeAssumptions(body) - closed
    case Apply(_, premises, _) => set i, a | 0 <= i < |premises| && a in FreeAssumptions(premises[i]) :: a
  }

  // What a proof node holds: its rule and arguments, and pointers to its children.
  datatype Step =
    | AssumeNode(fact: Fact)
    | ScopeNode(closed: set<Fact>, body: ProofNode, conclusion: Fact)
    | ApplyNode(rule: Rule, premises: seq<ProofNode>, conclusion: Fact)

  class ProofNode {
    var step: Step

    constructor (step: Step)
      ensures this.step == step
    {
      this.step := step;
    }

    function Result(): Fact
      reads this
    {
      if step.AssumeNode? then step.fact else step.conclusion
    }
  }

  // The node is the root of the proof p as it is on the heap now.
  ghost predicate Denotes(n: ProofNode, p: Proof)
    reads *
    decreases p
  {
    match p
    case Assume(fact) => n.step == AssumeNode(fact)
    case ScopeStep(closed, body, conclusion) =>
      && n.step.ScopeNode? && n.step.closed == closed && n.step.conclusion == conclusion
      && Denotes(n.step.body, body)
    case Apply(rule, premises, conclusion) =>
      && n.step.ApplyNode? && n.step.rule == rule && n.step.conclusion == conclusion
      && |n.step.premises| == |premises|
      && forall i | 0 <= i < |premises| :: Denotes(n.step.premises[i], premises[i])
  }

  // A proof as it was generated, with the nodes that hold it.
  datatype Tree =
    | AssumeTree(node: ProofNode, fact: Fact)
    | ScopeTree(node: ProofNode, closed: set<Fact>, body: Tree, conclusion: Fact)
    | ApplyTree(node: ProofNode, rule: Rule, premises: seq<Tree>, conclusion: Fact)

  function ProofOf(t: Tree): Proof {
    match t
    case AssumeTree(_, fact) => Assume(fact)
    case ScopeTree(_, closed, body, conclusion) => ScopeStep(closed, ProofOf(body), conclusion)
    case ApplyTree(_, rule, premises, conclusion) =>
      Apply(rule, seq(|premises|, i requires 0 <= i < |premises| => ProofOf(premises[i])), conclusion)
  }

  // What the root of the tree holds.
  ghost function StepOf(t: Tree): Step {
    match t
    case AssumeTree(_, fact) => AssumeNode(fact)
    case ScopeTree(_, closed, body, conclusion) => ScopeNode(closed, body.node, conclusion)
    case ApplyTree(_, rule, premises, conclusion) =>
      ApplyNode(rule, seq(|premises|, i requires 0 <= i < |premises| => premises[i].node), conclusion)
  }

  // The nodes of a tree that assume a outside the scopes that close it.
  function FreeNodes(t: Tree, a: Fact): set<ProofNode> {
    match t
    case AssumeTree(node, fact) => if fact == a then {node} else {}
    case ScopeTree(_, closed, body, _) => if a in closed then {} else FreeNodes(body, a)
    case ApplyTree(_, _, premises, _) => set i, n | 0 <= i < |premises| && n in FreeNodes(premises[i], a) :: n
  }

  // A place of a proof where an assumption node stands; free if no scope closes the assumption there.
  datatype Occurrence = Occurrence(node: ProofNode, fact: Fact, free: bool)

  // The places below scopes that close `closed`, from the last premise to the first.
  ghost function Occurrences(t: Tree, closed: set<Fact>): seq<Occurrence>
    decreases t
  {
    match t
    case AssumeTree(node, fact) => [Occurrence(node, fact, fact !in closed)]
    case ScopeTree(_, c, body, _) => Occurrences(body, closed + c)
    case ApplyTree(_, _, premises, _) => AllOccurrences(premises, closed)
  }

  ghost function AllOccurrences(ts: seq<Tree>, closed: set<Fact>): seq<Occurrence>
    decreases ts
  {
    if ts == [] then []
    else Occurrences(ts[|ts| - 1], closed) + AllOccurrences(ts[..|ts| - 1], closed)
  }

  // No scope closes the assumption at the first place of the node.
  ghost predicate MetFree(places: seq<Occurrence>, n: ProofNode) {
    places != [] && if places[0].node == n then places[0].free else MetFree(places[1..], n)
  }

  // A search that looks at each node once finds an assumption at the nodes that it meets free.
  ghost function ListedNodes(places: seq<Occurrence>, a: Fact): set<ProofNode> {
    set o | o in places && o.fact == a && MetFree(places, o.node) :: o.node
  }

  ghost function ListedFacts(places: seq<Occurrence>): set<Fact> {
    set o | o in places && MetFree(places, o.node) :: o.fact
  }

  // A node that stands at a free place stands at a free place first.
  ghost predicate FreeFirst(places: seq<Occurrence>) {
    forall o | o in places && o.free :: MetFree(places, o.node)
  }

  // ---- the nodes of a tree on the heap

  // What nodes held when the proofs were generated.
  type Steps = map<ProofNode, Step>

  // The tree is what the nodes held.
  ghost predicate Built(t: Tree, steps: Steps) {
    && t.node in steps && steps[t.node] == StepOf(t)
    && (t.ScopeTree? ==> Built(t.body, steps))
    && (t.ApplyTree? ==> forall i | 0 <= i < |t.premises| :: Built(t.premises[i], steps))
  }

  lemma {:induction false} OccursInSome(ts: seq<Tree>, closed: set<Fact>, o: Occurrence) returns (i: nat)
    requires o in AllOccurrences(ts, closed)
    ensures i < |ts| && o in Occurrences(ts[i], closed)
    decreases |ts|
  {
    if o in Occurrences(ts[|ts| - 1], closed) {
      i := |ts| - 1;
    } else {
      i := OccursInSome(ts[..|ts| - 1], closed, o);
    }
  }

  lemma {:induction false} OccursInAll(ts: seq<Tree>, closed: set<Fact>, i: nat, o: Occurrence)
    requires i < |ts| && o in Occurrences(ts[i], closed)
    ensures o in AllOccurrences(ts, closed)
    decreases |ts|
  {
    if i < |ts| - 1 {
      OccursInAll(ts[..|ts| - 1], closed, i, o);
    }
  }

  lemma AllOccurrencesMember(ts: seq<Tree>, closed: set<Fact>, o: Occurrence)
    ensures o in AllOccurrences(ts, closed) <==> exists i :: 0 <= i < |ts| && o in Occurrences(ts[i], closed)
  {
    if o in AllOccurrences(ts, closed) {
      var i := OccursInSome(ts, closed, o);
    }
    if i: nat :| i < |ts| && o in Occurrences(ts[i], closed) {
      OccursInAll(ts, closed, i, o);
    }
  }

  lemma {:induction false} OccurrenceHolds(t: Tree, closed: set<Fact>, steps: Steps, o: Occurrence)
    requires Built(t, steps) && o in Occurrences(t, closed)
    ensures o.node in steps && steps[o.node] == AssumeNode(o.fact)
  {
    match t
    case AssumeTree(_, _) =>
    case ScopeTree(_, c, body, _) => OccurrenceHolds(body, closed + c, steps, o);
    case ApplyTree(_, _, premises, _) =>
      AllOccurrencesMember(premises, closed, o);
      var i :| 0 <= i < |premises| && o in Occurrences(premises[i], closed);
      OccurrenceHolds(premises[i], closed, steps, o);
  }

  // The free places are those of the nodes that assume the fact outside the scopes that close it.
  lemma {:induction false} FreeNodesOccur(t: Tree, closed: set<Fact>, n: ProofNode, a: Fact)
    ensures Occurrence(n, a, true) in Occurrences(t, closed) <==> n in FreeNodes(t, a) && a !in closed
  {
    match t
    case AssumeTree(_, _) =>
    case ScopeTree(_, c, body, _) => FreeNodesOccur(body, closed + c, n, a);
    case ApplyTree(_, _, premises, _) =>
      AllOccurrencesMember(premises, closed, Occurrence(n, a, true));
      forall i | 0 <= i < |premises|
        ensures Occurrence(n, a, true) in Occurrences(premises[i], closed) <==>
          n in FreeNodes(premises[i], a) && a !in closed
      {
        FreeNodesOccur(premises[i], closed, n, a);
      }
  }

  lemma {:induction false} MetFreeOccurs(places: seq<Occurrence>, n: ProofNode)
    requires MetFree(places, n)
    ensures exists o :: o in places && o.node == n && o.free
  {
    if places[0].node != n {
      MetFreeOccurs(places[1..], n);
    }
  }

  // The search finds just the nodes where assumptions are free iff each of them is met free.
  lemma ListedIffFreeFirst(t: Tree, steps: Steps)
    requires Built(t, steps)
    ensures (forall a :: ListedNodes(Occurrences(t, {}), a) == FreeNodes(t, a)) <==> FreeFirst(Occurrences(t, {}))
    ensures forall a :: ListedNodes(Occurrences(t, {}), a) <= FreeNodes(t, a)
  {
    var places := Occurrences(t, {});
    forall a, n | n in ListedNodes(places, a)
      ensures n in FreeNodes(t, a)
    {
      var o :| o in places && o.fact == a && o.node == n && MetFree(places, n);
      MetFreeOccurs(places, n);
      var o' :| o' in places && o'.node == n && o'.free;
      OccurrenceHolds(t, {}, steps, o);
      OccurrenceHolds(t, {}, steps, o');
      assert o' == Occurrence(n, a, true);
      FreeNodesOccur(t, {}, n, a);
    }
    if FreeFirst(places) {
      forall a, n | n in FreeNodes(t, a)
        ensures n in ListedNodes(places, a)
      {
        FreeNodesOccur(t, {}, n, a);
        assert Occurrence(n, a, true) in places;
      }
    }
    if forall a :: ListedNodes(places, a) == FreeNodes(t, a) {
      forall o | o in places && o.free
        ensures MetFree(places, o.node)
      {
        assert o == Occurrence(o.node, o.fact, true);
        FreeNodesOccur(t, {}, o.node, o.fact);
        assert o.node in ListedNodes(places, o.fact);
      }
    }
  }

  // ---- the assumptions of a proof and the nodes where they are

  lemma PremisesOf(t: Tree)
    requires t.ApplyTree?
    ensures var ps := ProofOf(t).premises;
      |ps| == |t.premises| && forall i | 0 <= i < |ps| :: ps[i] == ProofOf(t.premises[i])
  {
  }

  lemma {:induction false} FreeNodeAssumes(t: Tree, a: Fact, n: ProofNode)
    requires n in FreeNodes(t, a)
    ensures a in FreeAssumptions(ProofOf(t))
  {
    match t
    case AssumeTree(_, _) =>
    case ScopeTree(_, _, body, _) => FreeNodeAssumes(body, a, n);
    case ApplyTree(_, _, premises, _) =>
      PremisesOf(t);
      var i :| 0 <= i < |premises| && n in FreeNodes(premises[i], a);
      FreeNodeAssumes(premises[i], a, n);
      assert a in FreeAssumptions(ProofOf(t).premises[i]);
  }

  lemma {:induction false} AssumedAtNode(t: Tree, a: Fact) returns (n: ProofNode)
    requires a in FreeAssumptions(ProofOf(t))
    ensures n in FreeNodes(t, a)
  {
    match t
    case AssumeTree(node, _) => n := node;
    case ScopeTree(_, _, body, _) => n := AssumedAtNode(body, a);
    case ApplyTree(_, _, premises, _) =>
      PremisesOf(t);
      var ps := ProofOf(t).premises;
      var i :| 0 <= i < |ps| && a in FreeAssumptions(ps[i]);
      n := AssumedAtNode(premises[i], a);
  }

  // The facts that the search finds are the free assumptions iff each of these has a node that is met free.
  lemma ListedFactsIff(t: Tree, steps: Steps)
    requires Built(t, steps)
    ensures var places := Occurrences(t, {});
      && ListedFacts(places) <= FreeAssumptions(ProofOf(t))
      && (ListedFacts(places) == FreeAssumptions(ProofOf(t)) <==>
          forall o | o in places && o.free :: ListedNodes(places, o.fact) != {})
      && (FreeFirst(places) ==> ListedFacts(places) == FreeAssumptions(ProofOf(t)))
  {
    var places := Occurrences(t, {});
    ListedIffFreeFirst(t, steps);
    forall a | a in ListedFacts(places)
      ensures a in FreeAssumptions(ProofOf(t)) && ListedNodes(places, a) != {}
    {
      var o :| o in places && MetFree(places, o.node) && o.fact == a;
      assert o.node in ListedNodes(places, a);
      FreeNodeAssumes(t, a, o.node);
    }
    forall a | a in FreeAssumptions(ProofOf(t))
      ensures exists o :: o in places && o.free && o.fact == a
    {
      var n := AssumedAtNode(t, a);
      FreeNodesOccur(t, {}, n, a);
      assert Occurrence(n, a, true) in places;
    }
    forall o | o in places && o.free
      ensures o.fact in FreeAssumptions(ProofOf(t))
      ensures FreeFirst(places) ==> o.node in ListedNodes(places, o.fact)
    {
      assert o == Occurrence(o.node, o.fact, true);
      FreeNodesOccur(t, {}, o.node, o.fact);
      FreeNodeAssumes(t, o.fact, o.node);
    }
    forall a, n | n in ListedNodes(places, a)
      ensures a in ListedFacts(places)
    {
    }
  }

  // updateNode: the node takes over what another one of the same fact holds.
  method UpdateNode(pn: ProofNode, pnr: ProofNode) returns (updated: bool)
    modifies pn
    ensures updated == (old(pn.Result()) == old(pnr.Result()))
    ensures pn.step == if updated then old(pnr.step) else old(pn.step)
  {
    if pn.Result() != pnr.Result() {
      return false;
    }
    pn.step := pnr.step;
    return true;
  }
}
