/** What it means to connect the open assumptions of one proof to the proofs of others, and to do so in place. */
module ProofLinks {
  import opened ProofNodes

  // A proof is valid when a checker accepts each of its steps; the checker sees a rule, the conclusions of the premises
  // and the conclusion, or the facts a scope closes, the conclusion of its body and the conclusion.
  datatype Checker = Checker(step: (Rule, seq<Fact>, Fact) -> bool, scope: (set<Fact>, Fact, Fact) -> bool)

  function Conclusions(ps: seq<Proof>): (r: seq<Fact>)
    ensures |r| == |ps| && forall i | 0 <= i < |ps| :: r[i] == Conclusion(ps[i])
  {
    seq(|ps|, i requires 0 <= i < |ps| => Conclusion(ps[i]))
  }

  predicate Checked(ch: Checker, p: Proof) {
    match p
    case Assume(_) => true
    case ScopeStep(closed, body, conclusion) => ch.scope(closed, Conclusion(body), conclusion) && Checked(ch, body)
    case Apply(rule, premises, conclusion) =>
      ch.step(rule, Conclusions(premises), conclusion) && forall i | 0 <= i < |premises| :: Checked(ch, premises[i])
  }

  // ---- links: the proof that was generated for each fact, and whether its assumptions are to be connected as well

  datatype Link = Link(tree: Tree, recursive: bool) {
    function Value(): Proof {
      ProofOf(tree)
    }

    // The assumptions that getFreeAssumptionsMap finds: all free ones, unless a node of one is shared with a closed
    // place.
    ghost function Assumptions(): set<Fact> {
      ListedFacts(Occurrences(tree, {}))
    }
  }

  type Links = map<Fact, Link>

  // The assumption fact in the proof of owner.
  datatype Leaf = Leaf(owner: Fact, fact: Fact)

  ghost predicate IsLeaf(links: Links, l: Leaf) {
    l.owner in links && links[l.owner].recursive && l.fact in links[l.owner].Assumptions()
  }

  // ---- paths through leaves

  ghost predicate IsPath(leaves: set<Leaf>, p: seq<Fact>, from: Fact, to: Fact) {
    p != [] && p[0] == from && p[|p| - 1] == to && forall i | 0 <= i < |p| - 1 :: Leaf(p[i], p[i + 1]) in leaves
  }

  ghost predicate Connects(leaves: set<Leaf>, from: Fact, to: Fact) {
    exists p :: IsPath(leaves, p, from, to)
  }

  lemma ConnectsSelf(leaves: set<Leaf>, a: Fact)
    ensures Connects(leaves, a, a)
  {
    assert IsPath(leaves, [a], a, a);
  }

  lemma ConnectsFurther(leaves: set<Leaf>, from: Fact, via: Fact, to: Fact)
    requires Connects(leaves, from, via) && Leaf(via, to) in leaves
    ensures Connects(leaves, from, to)
  {
    var p :| IsPath(leaves, p, from, via);
    assert IsPath(leaves, p + [to], from, to);
  }

  lemma ConnectsMore(leaves: set<Leaf>, more: set<Leaf>, from: Fact, to: Fact)
    requires Connects(leaves, from, to) && leaves <= more
    ensures Connects(more, from, to)
  {
    var p :| IsPath(leaves, p, from, to);
    assert IsPath(more, p, from, to);
  }

  // ---- acyclic links

  // Every leaf leads to a fact of smaller rank.
  ghost predicate Ranked(leaves: set<Leaf>, rank: map<Fact, nat>) {
    forall l | l in leaves :: l.owner in rank && l.fact in rank && rank[l.fact] < rank[l.owner]
  }

  lemma {:induction false} PathsDescend(leaves: set<Leaf>, rank: map<Fact, nat>, p: seq<Fact>, from: Fact, to: Fact)
    requires Ranked(leaves, rank) && IsPath(leaves, p, from, to) && from != to
    ensures from in rank && to in rank && rank[to] < rank[from]
    decreases |p|
  {
    assert Leaf(p[0], p[1]) in leaves;
    if p[1] != to {
      PathsDescend(leaves, rank, p[1..], p[1], to);
    }
  }

  lemma RankedHasNoCycle(leaves: set<Leaf>, rank: map<Fact, nat>, l: Leaf)
    requires Ranked(leaves, rank) && l in leaves
    ensures !Connects(leaves, l.fact, l.owner)
  {
    if Connects(leaves, l.fact, l.owner) {
      var p :| IsPath(leaves, p, l.fact, l.owner);
      PathsDescend(leaves, rank, p, l.fact, l.owner);
    }
  }

  // ---- connected proofs

  // The proof p with every leaf of owner that is in leaves replaced by the connected proof of its fact.
  ghost function Connect(links: Links, leaves: set<Leaf>, rank: map<Fact, nat>, owner: Fact, p: Proof,
                         closed: set<Fact>): Proof
    requires Ranked(leaves, rank) && forall l | l in leaves :: l.fact in links
    decreases if owner in rank then rank[owner] else 0, p
  {
    match p
    case Assume(fact) =>
      if fact !in closed && Leaf(owner, fact) in leaves
      then Connect(links, leaves, rank, fact, links[fact].Value(), {})
      else p
    case ScopeStep(c, body, conclusion) =>
      ScopeStep(c, Connect(links, leaves, rank, owner, body, closed + c), conclusion)
    case Apply(rule, premises, conclusion) =>
      Apply(rule,
            seq(|premises|, i requires 0 <= i < |premises| => Connect(links, leaves, rank, owner, premises[i], closed)),
            conclusion)
  }

  ghost function Connected(links: Links, leaves: set<Leaf>, rank: map<Fact, nat>, fact: Fact): Proof
    requires Ranked(leaves, rank) && (forall l | l in leaves :: l.fact in links) && fact in links
  {
    Connect(links, leaves, rank, fact, links[fact].Value(), {})
  }

  // Each generated proof is a checked proof of its fact.
  ghost predicate Sound(ch: Checker, links: Links) {
    forall f | f in links :: Conclusion(links[f].Value()) == f && Checked(ch, links[f].Value())
  }

  // Connecting keeps a proof valid and keeps what it proves.
  lemma {:induction false} ConnectIsChecked(ch: Checker, links: Links, leaves: set<Leaf>, rank: map<Fact, nat>,
                                            owner: Fact, p: Proof, closed: set<Fact>)
    requires Ranked(leaves, rank) && (forall l | l in leaves :: l.fact in links) && Sound(ch, links) && Checked(ch, p)
    ensures var r := Connect(links, leaves, rank, owner, p, closed); Conclusion(r) == Conclusion(p) && Checked(ch, r)
    decreases if owner in rank then rank[owner] else 0, p
  {
    match p
    case Assume(fact) =>
      if fact !in closed && Leaf(owner, fact) in leaves {
        ConnectIsChecked(ch, links, leaves, rank, fact, links[fact].Value(), {});
      }
    case ScopeStep(c, body, _) =>
      ConnectIsChecked(ch, links, leaves, rank, owner, body, closed + c);
    case Apply(_, premises, _) =>
      var r := Connect(links, leaves, rank, owner, p, closed);
      forall i | 0 <= i < |premises|
        ensures Conclusion(r.premises[i]) == Conclusion(premises[i]) && Checked(ch, r.premises[i])
      {
        ConnectIsChecked(ch, links, leaves, rank, owner, premises[i], closed);
      }
      assert Conclusions(r.premises) == Conclusions(premises);
  }

  // What a connected proof still assumes, it assumes at a leaf that was not replaced.
  lemma {:induction false} ConnectAssumes(links: Links, leaves: set<Leaf>, rank: map<Fact, nat>,
                                          owner: Fact, p: Proof, closed: set<Fact>, a: Fact)
    returns (f: Fact)
    requires Ranked(leaves, rank) && forall l | l in leaves :: l.fact in links
    requires a in FreeAssumptions(Connect(links, leaves, rank, owner, p, closed)) && a !in closed
    ensures Leaf(f, a) !in leaves
    ensures if f == owner then a in FreeAssumptions(p) || (f in links && a in FreeAssumptions(links[f].Value()))
      else f in links && a in FreeAssumptions(links[f].Value())
    ensures Connects(leaves, owner, f)
    decreases if owner in rank then rank[owner] else 0, p
  {
    match p
    case Assume(fact) =>
      if fact !in closed && Leaf(owner, fact) in leaves {
        f := ConnectAssumes(links, leaves, rank, fact, links[fact].Value(), {}, a);
        ConnectsFirst(leaves, owner, fact, f);
      } else {
        f := owner;
        ConnectsSelf(leaves, owner);
      }
    case ScopeStep(c, body, _) =>
      f := ConnectAssumes(links, leaves, rank, owner, body, closed + c, a);
    case Apply(_, premises, _) =>
      var r := Connect(links, leaves, rank, owner, p, closed);
      var i :| 0 <= i < |r.premises| && a in FreeAssumptions(r.premises[i]);
      f := ConnectAssumes(links, leaves, rank, owner, premises[i], closed, a);
  }

  lemma ConnectsFirst(leaves: set<Leaf>, from: Fact, via: Fact, to: Fact)
    requires Leaf(from, via) in leaves && Connects(leaves, via, to)
    ensures Connects(leaves, from, to)
  {
    var p :| IsPath(leaves, p, via, to);
    assert IsPath(leaves, [from] + p, from, to);
  }
}
