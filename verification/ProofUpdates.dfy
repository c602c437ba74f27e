/** Connecting proofs in place: what the proof nodes hold when the assumptions of some leaves have been overwritten. */
module ProofUpdates {
  import opened ProofNodes
  import opened ProofLinks

  // Each generated proof is on the heap and is a proof of its fact. The proofs may share nodes.
  ghost predicate Generated(links: Links, steps: Steps) {
    forall f {:trigger GeneratedAt(links, steps, f)} | f in links :: GeneratedAt(links, steps, f)
  }

  ghost predicate GeneratedAt(links: Links, steps: Steps, f: Fact)
    requires f in links
  {
    Built(links[f].tree, steps) && Conclusion(links[f].Value()) == f
  }

  // The places of the assumptions in the proof of f.
  ghost function Places(links: Links, f: Fact): seq<Occurrence>
    requires f in links
  {
    Occurrences(links[f].tree, {})
  }

  // The nodes that are listed for the leaf.
  ghost function NodesAt(links: Links, l: Leaf): set<ProofNode> {
    if l.owner in links then ListedNodes(Places(links, l.owner), l.fact) else {}
  }

  ghost function NodesOf(links: Links, leaves: set<Leaf>): set<ProofNode> {
    set l, n | l in leaves && n in NodesAt(links, l) :: n
  }

  // Each of the nodes in updated holds what the root of the proof of its fact held, and all others what they held.
  ghost predicate HeapIs(links: Links, steps: Steps, updated: set<ProofNode>)
    reads steps.Keys
  {
    forall n | n in steps :: n.step == StepNow(links, steps, updated, n)
  }

  // Nothing has been updated yet.
  ghost predicate AsGenerated(links: Links, steps: Steps)
    reads steps.Keys
  {
    Generated(links, steps) && forall n | n in steps :: n.step == steps[n]
  }

  ghost function StepNow(links: Links, steps: Steps, updated: set<ProofNode>, n: ProofNode): Step
    requires n in steps
  {
    if n in updated && steps[n].AssumeNode? && steps[n].fact in links then StepOf(links[steps[n].fact].tree)
      else steps[n]
  }

  lemma PlaceHolds(links: Links, steps: Steps, f: Fact, o: Occurrence)
    requires Generated(links, steps) && f in links && o in Places(links, f)
    ensures o.node in steps && steps[o.node] == AssumeNode(o.fact)
  {
    assert GeneratedAt(links, steps, f);
    OccurrenceHolds(links[f].tree, {}, steps, o);
  }

  lemma NodeHolds(links: Links, steps: Steps, l: Leaf, n: ProofNode)
    requires Generated(links, steps) && n in NodesAt(links, l)
    ensures l.owner in links && n in steps && steps[n] == AssumeNode(l.fact)
    ensures exists o :: o in Places(links, l.owner) && o.free && o.node == n && o.fact == l.fact
  {
    var o :| o in Places(links, l.owner) && o.fact == l.fact && o.node == n && MetFree(Places(links, l.owner), n);
    PlaceHolds(links, steps, l.owner, o);
    MetFreeOccurs(Places(links, l.owner), n);
    var o' :| o' in Places(links, l.owner) && o'.node == n && o'.free;
    PlaceHolds(links, steps, l.owner, o');
  }

  // The root of a generated proof holds throughout what it held.
  lemma RootStays(links: Links, steps: Steps, updated: set<ProofNode>, f: Fact)
    requires Generated(links, steps) && f in links
    ensures var r := links[f].tree.node; r in steps && StepNow(links, steps, updated, r) == StepOf(links[f].tree)
  {
    assert GeneratedAt(links, steps, f);
  }

  // A node of the leaf l is overwritten by the root of the proof of its fact.
  method UpdateOne(n: ProofNode, root: ProofNode, a: Fact, ghost links: Links, ghost steps: Steps, ghost l: Leaf,
                   ghost done: set<ProofNode>)
    requires Generated(links, steps) && HeapIs(links, steps, done)
    requires n in NodesAt(links, l) && l.fact == a && a in links && links[a].tree.node == root
    modifies steps.Keys
    ensures HeapIs(links, steps, done + {n})
  {
    assert GeneratedAt(links, steps, a);
    NodeHolds(links, steps, l, n);
    RootStays(links, steps, done, a);
    var updated := UpdateNode(n, root);
  }

  // ---- what the nodes denote

  // Two nodes that hold the same denote the same.
  lemma SameStep(n: ProofNode, m: ProofNode, p: Proof)
    requires n.step == m.step && Denotes(m, p)
    ensures Denotes(n, p)
  {
  }

  lemma {:induction false} DenotesOne(n: ProofNode, p: Proof, q: Proof)
    requires Denotes(n, p) && Denotes(n, q)
    ensures p == q
  {
    match p
    case Assume(_) =>
    case ScopeStep(_, body, _) => DenotesOne(n.step.body, body, q.body);
    case Apply(_, premises, _) =>
      forall i | 0 <= i < |premises|
        ensures premises[i] == q.premises[i]
      {
        DenotesOne(n.step.premises[i], premises[i], q.premises[i]);
      }
  }

  // An overwritten node denotes what the root of the proof of its fact denotes.
  lemma OverwrittenHolds(links: Links, steps: Steps, updated: set<ProofNode>, n: ProofNode, a: Fact)
    requires Generated(links, steps) && HeapIs(links, steps, updated)
    requires n in steps && steps[n] == AssumeNode(a)
    ensures n.step == if n in updated && a in links then StepOf(links[a].tree) else AssumeNode(a)
    ensures a in links ==> links[a].tree.node.step == StepOf(links[a].tree)
  {
    if a in links {
      RootStays(links, steps, updated, a);
    }
  }

  // The proof generated for a is the assumption of a: to put it in the place of an assumption changes nothing.
  ghost predicate Mere(links: Links, a: Fact) {
    a in links && links[a].tree.AssumeTree?
  }

  // ---- when a finite proof results

  // The proof of the owner depends on the proof of the fact, by an overwritten node at whatever place.
  ghost function Overwrites(links: Links, updated: set<ProofNode>): set<Leaf> {
    set f, o | f in links && o in Places(links, f) && o.node in updated && o.fact in links && !Mere(links, o.fact) ::
      Leaf(f, o.fact)
  }

  // No dependency that can be reached from fact leads back.
  ghost predicate NoCycle(edges: set<Leaf>, fact: Fact) {
    forall l {:trigger Connects(edges, l.fact, l.owner)} | l in edges && Connects(edges, fact, l.owner) ::
      !Connects(edges, l.fact, l.owner)
  }

  ghost predicate Before(edges: set<Leaf>, g: Fact, f: Fact) {
    exists l :: l in edges && l.owner == g && Connects(edges, l.fact, f)
  }

  // The proof that t, a part of the proof of f, denotes. The facts in path are those under way.
  lemma Unfold(links: Links, steps: Steps, updated: set<ProofNode>, fact: Fact, f: Fact, path: set<Fact>, t: Tree,
               closed: set<Fact>)
    returns (p: Proof)
    requires Generated(links, steps) && HeapIs(links, steps, updated)
    requires NoCycle(Overwrites(links, updated), fact) && Connects(Overwrites(links, updated), fact, f)
    requires f in links && f !in path && forall g | g in path :: Before(Overwrites(links, updated), g, f)
    requires Built(t, steps) && forall o | o in Occurrences(t, closed) :: o in Places(links, f)
    ensures Denotes(t.node, p)
    decreases links.Keys - path, t
  {
    match t
    case AssumeTree(n, a) =>
      assert Occurrence(n, a, a !in closed) in Places(links, f);
      OverwrittenHolds(links, steps, updated, n, a);
      assert a in links ==> GeneratedAt(links, steps, a);
      if n in updated && a in links && !Mere(links, a) {
        var edges := Overwrites(links, updated);
        assert Leaf(f, a) in edges;
        StepBefore(edges, fact, f, path, a);
        assert links.Keys - (path + {f}) < links.Keys - path by {
          assert f in links.Keys - path;
        }
        p := Unfold(links, steps, updated, fact, a, path + {f}, links[a].tree, {});
        SameStep(n, links[a].tree.node, p);
      } else {
        p := Assume(a);
      }
    case ScopeTree(n, c, body, conclusion) =>
      var q := Unfold(links, steps, updated, fact, f, path, body, closed + c);
      p := ScopeStep(c, q, conclusion);
      assert n.step == StepNow(links, steps, updated, n);
    case ApplyTree(n, rule, premises, conclusion) =>
      var ps: seq<Proof> := [];
      while |ps| < |premises|
        invariant |ps| <= |premises| && forall i | 0 <= i < |ps| :: Denotes(premises[i].node, ps[i])
      {
        PlacesOfPremise(premises, closed, |ps|);
        var q := Unfold(links, steps, updated, fact, f, path, premises[|ps|], closed);
        ps := ps + [q];
      }
      p := Apply(rule, ps, conclusion);
      assert n.step == StepNow(links, steps, updated, n);
  }

  lemma PlacesOfPremise(premises: seq<Tree>, closed: set<Fact>, i: nat)
    requires i < |premises|
    ensures forall o | o in Occurrences(premises[i], closed) :: o in AllOccurrences(premises, closed)
  {
    forall o | o in Occurrences(premises[i], closed)
      ensures o in AllOccurrences(premises, closed)
    {
      OccursInAll(premises, closed, i, o);
    }
  }

  // Without cycles one more dependency leads to a fact that is not under way.
  lemma StepBefore(edges: set<Leaf>, fact: Fact, f: Fact, path: set<Fact>, a: Fact)
    requires NoCycle(edges, fact) && Connects(edges, fact, f) && Leaf(f, a) in edges
    requires forall g | g in path :: Before(edges, g, f)
    ensures Connects(edges, fact, a) && a !in path + {f}
    ensures forall g | g in path + {f} :: Before(edges, g, a)
  {
    ConnectsFurther(edges, fact, f, a);
    ConnectsSelf(edges, a);
    forall g | g in path
      ensures Before(edges, g, a)
    {
      var l :| l in edges && l.owner == g && Connects(edges, l.fact, f);
      ConnectsFurther(edges, l.fact, f, a);
    }
    assert Leaf(f, a).owner == f && Before(edges, f, a);
    if a in path + {f} {
      var l :| l in edges && l.owner == a && Connects(edges, l.fact, a);
      assert false;
    }
  }

  // What stands at a place of a proof is part of what the proof denotes.
  lemma {:induction false} PlaceDenotes(links: Links, steps: Steps, updated: set<ProofNode>, t: Tree,
                                        closed: set<Fact>, p: Proof, o: Occurrence)
    returns (q: Proof)
    requires HeapIs(links, steps, updated) && Built(t, steps) && Denotes(t.node, p) && o in Occurrences(t, closed)
    ensures Denotes(o.node, q) && (q == p || q < p) && (!t.AssumeTree? ==> q < p)
  {
    assert t.node.step == StepNow(links, steps, updated, t.node);
    match t
    case AssumeTree(_, _) => q := p;
    case ScopeTree(_, c, body, _) => q := PlaceDenotes(links, steps, updated, body, closed + c, p.body, o);
    case ApplyTree(_, _, premises, _) =>
      var i := OccursInSome(premises, closed, o);
      q := PlaceDenotes(links, steps, updated, premises[i], closed, p.premises[i], o);
  }

  // A proof is larger than those it depends on.
  lemma DependsOnSmaller(links: Links, steps: Steps, updated: set<ProofNode>, l: Leaf, p: Proof) returns (q: Proof)
    requires Generated(links, steps) && HeapIs(links, steps, updated) && l in Overwrites(links, updated)
    requires Denotes(links[l.owner].tree.node, p)
    ensures l.fact in links && Denotes(links[l.fact].tree.node, q) && q < p
  {
    var o :| o in Places(links, l.owner) && o.node in updated && o.fact == l.fact && !Mere(links, o.fact);
    assert GeneratedAt(links, steps, l.owner);
    PlaceHolds(links, steps, l.owner, o);
    q := PlaceDenotes(links, steps, updated, links[l.owner].tree, {}, p, o);
    OverwrittenHolds(links, steps, updated, o.node, o.fact);
    SameStep(links[l.fact].tree.node, o.node, q);
  }

  lemma {:induction false} PathShrinks(links: Links, steps: Steps, updated: set<ProofNode>, path: seq<Fact>, f: Fact,
                                       g: Fact, p: Proof)
    returns (q: Proof)
    requires Generated(links, steps) && HeapIs(links, steps, updated)
    requires IsPath(Overwrites(links, updated), path, f, g) && f in links && Denotes(links[f].tree.node, p)
    ensures g in links && Denotes(links[g].tree.node, q) && (q == p || q < p)
    decreases |path|
  {
    q := p;
    if |path| > 1 {
      assert Leaf(path[0], path[1]) in Overwrites(links, updated);
      q := DependsOnSmaller(links, steps, updated, Leaf(path[0], path[1]), p);
      q := PathShrinks(links, steps, updated, path[1..], path[1], g, q);
    }
  }

  // The root of a generated proof denotes a finite proof iff what was overwritten makes no cycle that it leads to.
  lemma FiniteIffNoCycle(links: Links, steps: Steps, updated: set<ProofNode>, fact: Fact)
    requires Generated(links, steps) && HeapIs(links, steps, updated) && fact in links
    ensures (exists p :: Denotes(links[fact].tree.node, p)) <==> NoCycle(Overwrites(links, updated), fact)
  {
    if NoCycle(Overwrites(links, updated), fact) {
      ConnectsSelf(Overwrites(links, updated), fact);
      assert GeneratedAt(links, steps, fact);
      var p := Unfold(links, steps, updated, fact, fact, {}, links[fact].tree, {});
      assert Denotes(links[fact].tree.node, p);
    }
    if exists p :: Denotes(links[fact].tree.node, p) {
      var p: Proof :| Denotes(links[fact].tree.node, p);
      FiniteHasNoCycle(links, steps, updated, fact, p);
    }
  }

  lemma FiniteHasNoCycle(links: Links, steps: Steps, updated: set<ProofNode>, fact: Fact, p: Proof)
    requires Generated(links, steps) && HeapIs(links, steps, updated) && fact in links
    requires Denotes(links[fact].tree.node, p)
    ensures NoCycle(Overwrites(links, updated), fact)
  {
    forall l | l in Overwrites(links, updated) && Connects(Overwrites(links, updated), fact, l.owner)
      ensures !Connects(Overwrites(links, updated), l.fact, l.owner)
    {
      NoWayBack(links, steps, updated, fact, p, l);
    }
  }

  lemma NoWayBack(links: Links, steps: Steps, updated: set<ProofNode>, fact: Fact, p: Proof, l: Leaf)
    requires Generated(links, steps) && HeapIs(links, steps, updated) && fact in links
    requires l in Overwrites(links, updated) && Connects(Overwrites(links, updated), fact, l.owner)
    requires Denotes(links[fact].tree.node, p)
    ensures !Connects(Overwrites(links, updated), l.fact, l.owner)
  {
    var edges := Overwrites(links, updated);
    var path :| IsPath(edges, path, fact, l.owner);
    var q := PathShrinks(links, steps, updated, path, fact, l.owner, p);
    var r := DependsOnSmaller(links, steps, updated, l, q);
    if back :| IsPath(edges, back, l.fact, l.owner) {
      var q' := PathShrinks(links, steps, updated, back, l.fact, l.owner, r);
      DenotesOne(links[l.owner].tree.node, q, q');
    }
  }

  // Whatever a root denotes is a checked proof of its fact, however nodes are shared.
  lemma {:induction false} DenotedIsChecked(ch: Checker, links: Links, steps: Steps, updated: set<ProofNode>, t: Tree,
                                            p: Proof)
    requires Generated(links, steps) && HeapIs(links, steps, updated) && Sound(ch, links)
    requires Built(t, steps) && Checked(ch, ProofOf(t)) && Denotes(t.node, p)
    ensures Checked(ch, p) && Conclusion(p) == Conclusion(ProofOf(t))
    decreases p, if t.AssumeTree? then 1 else 0
  {
    assert t.node.step == StepNow(links, steps, updated, t.node);
    match t
    case AssumeTree(n, a) =>
      OverwrittenHolds(links, steps, updated, n, a);
      if n in updated && a in links && !Mere(links, a) {
        assert GeneratedAt(links, steps, a);
        SameStep(links[a].tree.node, n, p);
        DenotedIsChecked(ch, links, steps, updated, links[a].tree, p);
      } else if Mere(links, a) {
        assert GeneratedAt(links, steps, a);
      }
    case ScopeTree(_, _, body, _) => DenotedIsChecked(ch, links, steps, updated, body, p.body);
    case ApplyTree(_, _, premises, _) =>
      PremisesOf(t);
      forall i | 0 <= i < |premises|
        ensures Checked(ch, p.premises[i]) && Conclusion(p.premises[i]) == Conclusion(ProofOf(t).premises[i])
      {
        DenotedIsChecked(ch, links, steps, updated, premises[i], p.premises[i]);
      }
      assert Conclusions(p.premises) == Conclusions(ProofOf(t).premises);
  }

  // ---- when the connected proof results

  ghost predicate Replaces(links: Links, leaves: set<Leaf>, rank: map<Fact, nat>) {
    && Ranked(leaves, rank)
    && forall l | l in leaves :: l.owner in links && l.fact in links && l.fact in links[l.owner].Assumptions()
  }

  // In the proof of f the nodes that are overwritten stand at the free places of the leaves of f, and at no others.
  ghost predicate FitsAt(links: Links, leaves: set<Leaf>, f: Fact)
    requires f in links
  {
    forall o | o in Places(links, f) && !Mere(links, o.fact) ::
      o.node in NodesOf(links, leaves) <==> o.free && Leaf(f, o.fact) in leaves
  }

  ghost predicate Fits(links: Links, leaves: set<Leaf>, fact: Fact) {
    forall f {:trigger Connects(leaves, fact, f)} | Connects(leaves, fact, f) && f in links :: FitsAt(links, leaves, f)
  }

  lemma FitsBelow(links: Links, leaves: set<Leaf>, f: Fact, a: Fact)
    requires Fits(links, leaves, f) && Leaf(f, a) in leaves
    ensures Fits(links, leaves, a)
  {
    forall g | Connects(leaves, a, g) && g in links
      ensures FitsAt(links, leaves, g)
    {
      ConnectsFirst(leaves, f, a, g);
    }
  }

  // When the nodes of the leaves have been overwritten, in whatever order, and fit, each node is the root of the
  // connected proof.
  lemma {:induction false} FitsDenotes(links: Links, steps: Steps, leaves: set<Leaf>, rank: map<Fact, nat>, f: Fact,
                                       t: Tree, closed: set<Fact>)
    requires Generated(links, steps) && HeapIs(links, steps, NodesOf(links, leaves)) && Replaces(links, leaves, rank)
    requires f in links && Fits(links, leaves, f)
    requires Built(t, steps) && forall o | o in Occurrences(t, closed) :: o in Places(links, f)
    ensures Denotes(t.node, Connect(links, leaves, rank, f, ProofOf(t), closed))
    decreases if f in rank then rank[f] else 0, t
  {
    assert t.node.step == StepNow(links, steps, NodesOf(links, leaves), t.node);
    match t
    case AssumeTree(n, a) =>
      ConnectsSelf(leaves, f);
      assert Occurrence(n, a, a !in closed) in Places(links, f);
      OverwrittenHolds(links, steps, NodesOf(links, leaves), n, a);
      if a in links {
        assert GeneratedAt(links, steps, a);
      }
      if a !in closed && Leaf(f, a) in leaves {
        FitsBelow(links, leaves, f, a);
        FitsDenotes(links, steps, leaves, rank, a, links[a].tree, {});
        SameStep(n, links[a].tree.node, Connected(links, leaves, rank, a));
      }
    case ScopeTree(_, c, body, _) => FitsDenotes(links, steps, leaves, rank, f, body, closed + c);
    case ApplyTree(_, _, premises, _) =>
      PremisesOf(t);
      forall i | 0 <= i < |premises|
        ensures Denotes(premises[i].node, Connect(links, leaves, rank, f, ProofOf(premises[i]), closed))
      {
        PlacesOfPremise(premises, closed, i);
        FitsDenotes(links, steps, leaves, rank, f, premises[i], closed);
      }
  }

  // What the connected proof has at a place.
  ghost function ConnectedAt(links: Links, leaves: set<Leaf>, rank: map<Fact, nat>, f: Fact, o: Occurrence): Proof
    requires Ranked(leaves, rank) && forall l | l in leaves :: l.fact in links
  {
    if o.free && Leaf(f, o.fact) in leaves then Connected(links, leaves, rank, o.fact) else Assume(o.fact)
  }

  lemma {:induction false} DenotesAtPlace(links: Links, steps: Steps, updated: set<ProofNode>, leaves: set<Leaf>,
                                          rank: map<Fact, nat>, f: Fact, t: Tree, closed: set<Fact>, o: Occurrence)
    requires HeapIs(links, steps, updated) && Replaces(links, leaves, rank)
    requires Built(t, steps) && o in Occurrences(t, closed)
    requires Denotes(t.node, Connect(links, leaves, rank, f, ProofOf(t), closed))
    ensures Denotes(o.node, ConnectedAt(links, leaves, rank, f, o))
  {
    assert t.node.step == StepNow(links, steps, updated, t.node);
    match t
    case AssumeTree(_, _) =>
    case ScopeTree(_, c, body, _) => DenotesAtPlace(links, steps, updated, leaves, rank, f, body, closed + c, o);
    case ApplyTree(_, _, premises, _) =>
      PremisesOf(t);
      var i := OccursInSome(premises, closed, o);
      assert Connect(links, leaves, rank, f, ProofOf(t), closed).premises[i] ==
        Connect(links, leaves, rank, f, ProofOf(premises[i]), closed);
      DenotesAtPlace(links, steps, updated, leaves, rank, f, premises[i], closed, o);
  }

  lemma DenotesFitsAt(links: Links, steps: Steps, leaves: set<Leaf>, rank: map<Fact, nat>, f: Fact)
    requires Generated(links, steps) && HeapIs(links, steps, NodesOf(links, leaves)) && Replaces(links, leaves, rank)
    requires f in links && Denotes(links[f].tree.node, Connected(links, leaves, rank, f))
    ensures FitsAt(links, leaves, f)
  {
    assert GeneratedAt(links, steps, f);
    forall o | o in Places(links, f) && !Mere(links, o.fact)
      ensures o.node in NodesOf(links, leaves) <==> o.free && Leaf(f, o.fact) in leaves
    {
      PlaceHolds(links, steps, f, o);
      OverwrittenHolds(links, steps, NodesOf(links, leaves), o.node, o.fact);
      DenotesAtPlace(links, steps, NodesOf(links, leaves), leaves, rank, f, links[f].tree, {}, o);
      if o.node in NodesOf(links, leaves) {
        var l :| l in leaves && o.node in NodesAt(links, l);
        NodeHolds(links, steps, l, o.node);
      }
    }
  }

  lemma DenotesBelow(links: Links, steps: Steps, leaves: set<Leaf>, rank: map<Fact, nat>, l: Leaf)
    requires Generated(links, steps) && HeapIs(links, steps, NodesOf(links, leaves)) && Replaces(links, leaves, rank)
    requires l in leaves && Denotes(links[l.owner].tree.node, Connected(links, leaves, rank, l.owner))
    ensures Denotes(links[l.fact].tree.node, Connected(links, leaves, rank, l.fact))
  {
    var places := Places(links, l.owner);
    var o :| o in places && MetFree(places, o.node) && o.fact == l.fact;
    assert o.node in NodesAt(links, l) && o.node in NodesOf(links, leaves);
    NodeHolds(links, steps, l, o.node);
    var o' :| o' in places && o'.free && o'.node == o.node && o'.fact == l.fact;
    assert GeneratedAt(links, steps, l.owner);
    DenotesAtPlace(links, steps, NodesOf(links, leaves), leaves, rank, l.owner, links[l.owner].tree, {}, o');
    OverwrittenHolds(links, steps, NodesOf(links, leaves), o.node, l.fact);
    SameStep(links[l.fact].tree.node, o.node, Connected(links, leaves, rank, l.fact));
  }

  lemma {:induction false} DenotesAlong(links: Links, steps: Steps, leaves: set<Leaf>, rank: map<Fact, nat>,
                                        path: seq<Fact>, f: Fact, g: Fact)
    requires Generated(links, steps) && HeapIs(links, steps, NodesOf(links, leaves)) && Replaces(links, leaves, rank)
    requires IsPath(leaves, path, f, g) && f in links
    requires Denotes(links[f].tree.node, Connected(links, leaves, rank, f))
    ensures g in links && Denotes(links[g].tree.node, Connected(links, leaves, rank, g))
    decreases |path|
  {
    if |path| > 1 {
      assert Leaf(path[0], path[1]) in leaves;
      DenotesBelow(links, steps, leaves, rank, Leaf(path[0], path[1]));
      DenotesAlong(links, steps, leaves, rank, path[1..], path[1], g);
    }
  }

  // The root of the proof of fact is the root of the connected proof iff the nodes that were overwritten fit, in the
  // proofs that are connected: none of them stands at a leaf that is cut or at a closed place, and no free place of a
  // leaf was missed.
  lemma ConnectedIffFits(links: Links, steps: Steps, leaves: set<Leaf>, rank: map<Fact, nat>, fact: Fact)
    requires Generated(links, steps) && HeapIs(links, steps, NodesOf(links, leaves)) && Replaces(links, leaves, rank)
    requires fact in links
    ensures Denotes(links[fact].tree.node, Connected(links, leaves, rank, fact)) <==> Fits(links, leaves, fact)
  {
    assert GeneratedAt(links, steps, fact);
    if Fits(links, leaves, fact) {
      FitsDenotes(links, steps, leaves, rank, fact, links[fact].tree, {});
    }
    if Denotes(links[fact].tree.node, Connected(links, leaves, rank, fact)) {
      forall f | Connects(leaves, fact, f) && f in links
        ensures FitsAt(links, leaves, f)
      {
        var path :| IsPath(leaves, path, fact, f);
        DenotesAlong(links, steps, leaves, rank, path, fact, f);
        DenotesFitsAt(links, steps, leaves, rank, f);
      }
    }
  }

  // ---- when nothing is shared

  // A node stands in one generated proof only, and there at free places only or at closed places only.
  ghost predicate Separate(links: Links) {
    forall f, g, o, o' |
      f in links && g in links && o in Places(links, f) && o' in Places(links, g) && o.node == o'.node ::
      f == g && o.free == o'.free
  }

  lemma {:induction false} AlwaysFree(places: seq<Occurrence>, n: ProofNode)
    requires (exists o :: o in places && o.node == n) && forall o | o in places && o.node == n :: o.free
    ensures MetFree(places, n)
  {
    if places[0].node != n {
      assert places == [places[0]] + places[1..];
      AlwaysFree(places[1..], n);
    }
  }

  lemma SeparateFits(links: Links, steps: Steps, leaves: set<Leaf>, rank: map<Fact, nat>, fact: Fact)
    requires Generated(links, steps) && Separate(links) && Replaces(links, leaves, rank)
    ensures Fits(links, leaves, fact)
  {
    forall f, o | f in links && o in Places(links, f)
      ensures o.node in NodesOf(links, leaves) <==> o.free && Leaf(f, o.fact) in leaves
    {
      SeparatePlace(links, steps, leaves, f, o);
    }
  }

  lemma SeparatePlace(links: Links, steps: Steps, leaves: set<Leaf>, f: Fact, o: Occurrence)
    requires Generated(links, steps) && Separate(links) && f in links && o in Places(links, f)
    ensures o.node in NodesOf(links, leaves) <==> o.free && Leaf(f, o.fact) in leaves
  {
    PlaceHolds(links, steps, f, o);
    if o.node in NodesOf(links, leaves) {
      var l :| l in leaves && o.node in NodesAt(links, l);
      NodeHolds(links, steps, l, o.node);
      var o' :| o' in Places(links, l.owner) && o'.free && o'.node == o.node && o'.fact == l.fact;
      assert l == Leaf(f, o.fact);
    }
    if o.free && Leaf(f, o.fact) in leaves {
      AlwaysFree(Places(links, f), o.node);
      assert o.node in NodesAt(links, Leaf(f, o.fact));
    }
  }
}
