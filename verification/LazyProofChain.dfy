/** LazyCDProofChain: connects the proofs that generators give for facts, cutting cycles. */
module LazyProofChain {
  import opened Options
  import opened Sequences
  import opened ProofNodes
  import opened ProofLinks
  import opened ProofUpdates
  import opened ProofNodeAlgorithm

  // A proof generator has proofs for some facts.
  type Generator = map<Fact, Tree>

  // The local variables of getProofFor. For a fact in toExpand, the nodes where it is an assumption to be expanded.
  datatype Search = Search(
    visit: seq<Fact>,
    visited: map<Fact, bool>,
    toConnect: map<Fact, ProofNode>,
    toExpand: map<Fact, seq<ProofNode>>
  )

  // ---- what the search has done

  // The nodes to be expanded are those of the leaves in kept.
  ghost predicate Records(links: Links, toExpand: map<Fact, seq<ProofNode>>, kept: set<Leaf>) {
    && (forall l | l in kept :: l.fact in toExpand)
    && (forall a {:trigger NodesListed(links, toExpand, kept, a)} | a in toExpand ::
          NodesListed(links, toExpand, kept, a))
  }

  ghost predicate NodesListed(links: Links, toExpand: map<Fact, seq<ProofNode>>, kept: set<Leaf>, a: Fact)
    requires a in toExpand
  {
    NodeSet(toExpand[a]) == NodesOf(links, LeavesTo(kept, a)) && LeavesTo(kept, a) != {}
  }

  ghost function NodeSet(nodes: seq<ProofNode>): set<ProofNode> {
    set n | n in nodes
  }

  ghost function LeavesTo(kept: set<Leaf>, a: Fact): set<Leaf> {
    set l | l in kept && l.fact == a
  }

  // The proof of f is being expanded, which is noted only when cycles are controlled.
  ghost predicate Open(visited: map<Fact, bool>, f: Fact) {
    f in visited && !visited[f]
  }

  ghost predicate Done(visited: map<Fact, bool>, f: Fact) {
    f in visited && visited[f]
  }

  // The stack of the search: for each fact that is open its mark and, above it, those of its assumptions that are yet
  // to be visited.
  datatype Frames = Bottom(pending: seq<Fact>) | Frame(fact: Fact, pending: seq<Fact>, below: Frames)

  ghost function Stack(fr: Frames): seq<Fact> {
    match fr
    case Bottom(pending) => pending
    case Frame(fact, pending, below) => Stack(below) + [fact] + pending
  }

  ghost function OpenFacts(fr: Frames): set<Fact> {
    match fr
    case Bottom(_) => {}
    case Frame(fact, _, below) => OpenFacts(below) + {fact}
  }

  ghost predicate Pending(kept: set<Leaf>, fr: Frames, a: Fact) {
    a !in OpenFacts(fr) && (fr.Frame? ==> Leaf(fr.fact, a) in kept)
  }

  // An assumption of an open fact has been dealt with, or waits in the fact's frame, or is the next open fact.
  ghost predicate Covered(visited: map<Fact, bool>, fr: Frames, above: set<Fact>, a: Fact) {
    Done(visited, a) || a in fr.pending || a in above
  }

  ghost predicate FramesOK(visited: map<Fact, bool>, kept: set<Leaf>, fr: Frames, above: set<Fact>) {
    && (forall a {:trigger Pending(kept, fr, a)} | a in fr.pending :: Pending(kept, fr, a))
    && (fr.Frame? ==>
      && fr.fact !in OpenFacts(fr.below)
      && (forall a {:trigger Covered(visited, fr, above, a)} | Leaf(fr.fact, a) in kept ::
          Covered(visited, fr, above, a))
      && (fr.below.Frame? ==> Leaf(fr.below.fact, fr.fact) in kept)
      && FramesOK(visited, kept, fr.below, {fr.fact}))
  }

  ghost predicate Colours(links: Links, cyclic: bool, visited: map<Fact, bool>, toConnect: map<Fact, ProofNode>,
                          fr: Frames) {
    && (forall f :: f in toConnect <==> f in visited && f in links)
    && (forall f | f in toConnect :: toConnect[f] == links[f].tree.node)
    && (forall f :: Open(visited, f) <==> f in OpenFacts(fr))
    && (forall f | f in OpenFacts(fr) :: f in links && links[f].recursive && cyclic)
  }

  // A leaf that is not to be expanded would have closed a cycle.
  ghost predicate Cut(links: Links, cyclic: bool, kept: set<Leaf>, l: Leaf) {
    cyclic && l.fact in links && Connects(kept, l.fact, l.owner)
  }

  // Each leaf of a visited fact is kept or cut, but for those that are still to be enqueued.
  ghost predicate Decided(links: Links, cyclic: bool, s: Search, kept: set<Leaf>, rest: set<Leaf>) {
    && Records(links, s.toExpand, kept)
    && (forall l | l in kept :: IsLeaf(links, l) && l.owner in s.visited && (l.fact in s.visited || l.fact in s.visit))
    && (forall l {:trigger Cut(links, cyclic, kept, l)} | IsLeaf(links, l) && l.owner in s.visited && l !in rest ::
          l in kept || Cut(links, cyclic, kept, l))
  }

  // The order in which the facts are done: what a fact that is done depends on is done before it.
  ghost predicate Ordered(links: Links, visited: map<Fact, bool>, kept: set<Leaf>, rank: map<Fact, nat>, next: nat) {
    && (forall f | f in rank :: Done(visited, f) && rank[f] < next)
    && (forall f | Done(visited, f) && f in links :: f in rank)
    && (forall l | l in kept && Done(visited, l.owner) :: Done(visited, l.fact) && Below(links, rank, l))
  }

  ghost predicate Below(links: Links, rank: map<Fact, nat>, l: Leaf) {
    l.fact in links ==> l.fact in rank && l.owner in rank && rank[l.fact] < rank[l.owner]
  }

  // Everything the search has seen is reached through leaves that are kept, and has nodes to be expanded.
  ghost predicate Reached(fact: Fact, s: Search, kept: set<Leaf>) {
    && (fact in s.visited || fact in s.visit)
    && (forall f {:trigger Connects(kept, fact, f)} | f in s.visited || f in s.visit :: Connects(kept, fact, f))
    && (forall f | f in s.visited || f in s.visit :: f == fact || f in s.toExpand)
  }

  ghost function AllLeaves(links: Links): set<Leaf> {
    set f, a | f in links && links[f].recursive && a in links[f].Assumptions() :: Leaf(f, a)
  }

  ghost predicate Searching(links: Links, cyclic: bool, fact: Fact, s: Search, kept: set<Leaf>, fr: Frames,
                            rank: map<Fact, nat>, next: nat, rest: set<Leaf>) {
    && s.visit == Stack(fr)
    && Colours(links, cyclic, s.visited, s.toConnect, fr)
    && FramesOK(s.visited, kept, fr, {})
    && Decided(links, cyclic, s, kept, rest)
    && (cyclic ==> Ordered(links, s.visited, kept, rank, next))
    && Reached(fact, s, kept)
  }

  // ---- the stack

  ghost function Dropped(fr: Frames): Frames
    requires fr.pending != []
  {
    fr.(pending := fr.pending[..|fr.pending| - 1])
  }

  // On the top of the stack is an assumption that waits, or the mark of the innermost open fact.
  lemma TopOfStack(visited: map<Fact, bool>, kept: set<Leaf>, fr: Frames)
    requires Stack(fr) != [] && FramesOK(visited, kept, fr, {})
    ensures var v := Stack(fr); var cur := v[|v| - 1];
      if fr.pending != []
      then cur == fr.pending[|fr.pending| - 1] && v[..|v| - 1] == Stack(Dropped(fr)) && cur !in OpenFacts(fr)
      else fr.Frame? && cur == fr.fact && v[..|v| - 1] == Stack(fr.below)
  {
    if fr.pending != [] {
      assert Pending(kept, fr, fr.pending[|fr.pending| - 1]);
    }
  }

  // Every open fact is connected to the innermost one.
  lemma {:induction false} OpenPath(visited: map<Fact, bool>, kept: set<Leaf>, fr: Frames, above: set<Fact>, a: Fact)
    requires FramesOK(visited, kept, fr, above) && a in OpenFacts(fr)
    ensures fr.Frame? && Connects(kept, a, fr.fact)
  {
    if a == fr.fact {
      ConnectsSelf(kept, a);
    } else {
      OpenPath(visited, kept, fr.below, {fr.fact}, a);
      ConnectsFurther(kept, a, fr.below.fact, fr.fact);
    }
  }

  // Frames stay in order when more facts are done and more leaves of facts in no frame are kept.
  lemma {:induction false} FramesStay(visited: map<Fact, bool>, visited': map<Fact, bool>, kept: set<Leaf>,
                                      kept': set<Leaf>, fr: Frames, above: set<Fact>, above': set<Fact>)
    requires FramesOK(visited, kept, fr, above) && kept <= kept'
    requires forall l | l in kept' && l !in kept :: l.owner !in OpenFacts(fr)
    requires forall f | Done(visited, f) :: Done(visited', f)
    requires forall f | f in above :: f in above' || Done(visited', f)
    ensures FramesOK(visited', kept', fr, above')
  {
    forall a | a in fr.pending
      ensures Pending(kept', fr, a)
    {
      assert Pending(kept, fr, a);
    }
    if fr.Frame? {
      forall a | Leaf(fr.fact, a) in kept'
        ensures Covered(visited', fr, above', a)
      {
        assert Covered(visited, fr, above, a);
      }
      FramesStay(visited, visited', kept, kept', fr.below, {fr.fact}, {fr.fact});
    }
  }

  // ---- the steps of the search

  ghost function LeavesAt(f: Fact, facts: set<Fact>): set<Leaf> {
    set a | a in facts :: Leaf(f, a)
  }

  lemma OneLeafLess(f: Fact, facts: set<Fact>, a: Fact)
    ensures LeavesAt(f, facts - {a}) == LeavesAt(f, facts) - {Leaf(f, a)}
    ensures a in facts ==> Leaf(f, a) in LeavesAt(f, facts)
  {
  }

  ghost function LeavesOf(links: Links, f: Fact): set<Leaf> {
    if f in links && links[f].recursive then LeavesAt(f, links[f].Assumptions()) else {}
  }

  // The fact on top of the stack is visited; its proof, if there is one, is not to be expanded or cycles do not matter.
  ghost function VisitedTop(links: Links, s: Search): Search
    requires s.visit != []
  {
    var cur := s.visit[|s.visit| - 1];
    s.(visit := Init(s.visit), visited := s.visited[cur := true],
       toConnect := if cur in links then s.toConnect[cur := links[cur].tree.node] else s.toConnect)
  }

  // s' is s with the fact cur, the top of the stack, visited.
  ghost predicate Visits(s: Search, s': Search, cur: Fact) {
    && s.visit != [] && cur == s.visit[|s.visit| - 1]
    && s'.visited.Keys == s.visited.Keys + {cur}
    && (forall a | a in s.visit :: a in s'.visit || a == cur)
    && (forall a | a in s'.visit :: a in s.visit)
    && s'.toExpand == s.toExpand
  }

  lemma DecidedVisit(links: Links, cyclic: bool, s: Search, kept: set<Leaf>, s': Search, cur: Fact)
    requires Decided(links, cyclic, s, kept, {}) && Visits(s, s', cur)
    ensures Decided(links, cyclic, s', kept, if cur in s.visited then {} else LeavesOf(links, cur))
  {
    var rest := if cur in s.visited then {} else LeavesOf(links, cur);
    forall l | IsLeaf(links, l) && l.owner in s'.visited && l !in rest
      ensures l in kept || Cut(links, cyclic, kept, l)
    {
      assert l.owner in s.visited;
    }
  }

  lemma ReachedVisit(fact: Fact, s: Search, kept: set<Leaf>, s': Search, cur: Fact)
    requires Reached(fact, s, kept) && Visits(s, s', cur)
    ensures Reached(fact, s', kept)
  {
  }

  lemma OrderedVisit(links: Links, visited: map<Fact, bool>, kept: set<Leaf>, rank: map<Fact, nat>, next: nat,
                     cur: Fact)
    requires Ordered(links, visited, kept, rank, next)
    requires cur !in visited && forall l | l in kept :: l.owner in visited
    ensures Ordered(links, visited[cur := true], kept, rank[cur := next], next + 1)
  {
    forall l | l in kept && Done(visited[cur := true], l.owner)
      ensures Done(visited[cur := true], l.fact) && Below(links, rank[cur := next], l)
    {
      assert Below(links, rank, l);
    }
  }

  lemma ColoursVisit(links: Links, cyclic: bool, s: Search, fr: Frames, cur: Fact)
    requires Colours(links, cyclic, s.visited, s.toConnect, fr) && cur !in s.visited && fr.pending != []
    requires s.visit != [] && cur == s.visit[|s.visit| - 1]
    ensures Colours(links, cyclic, VisitedTop(links, s).visited, VisitedTop(links, s).toConnect, Dropped(fr))
  {
    assert OpenFacts(Dropped(fr)) == OpenFacts(fr);
    assert forall f | f != cur :: Open(VisitedTop(links, s).visited, f) <==> Open(s.visited, f);
  }

  lemma VisitedReached(links: Links, cyclic: bool, fact: Fact, s: Search, kept: set<Leaf>, cur: Fact)
    requires Decided(links, cyclic, s, kept, {}) && Reached(fact, s, kept)
    requires s.visit != [] && cur == s.visit[|s.visit| - 1] && cur !in s.visited
    ensures Decided(links, cyclic, VisitedTop(links, s), kept, LeavesOf(links, cur))
    ensures Reached(fact, VisitedTop(links, s), kept)
  {
    InitMembers(s.visit);
    DecidedVisit(links, cyclic, s, kept, VisitedTop(links, s), cur);
    ReachedVisit(fact, s, kept, VisitedTop(links, s), cur);
  }

  lemma VisitTop(links: Links, cyclic: bool, fact: Fact, s: Search, kept: set<Leaf>, fr: Frames, rank: map<Fact, nat>,
                 next: nat, cur: Fact)
    requires Searching(links, cyclic, fact, s, kept, fr, rank, next, {})
    requires s.visit != [] && cur == s.visit[|s.visit| - 1] && cur !in s.visited
    requires cyclic ==> cur !in links || !links[cur].recursive
    ensures fr.pending != []
    ensures Searching(links, cyclic, fact, VisitedTop(links, s), kept, Dropped(fr), rank[cur := next], next + 1,
                      LeavesOf(links, cur))
  {
    TopOfStack(s.visited, kept, fr);
    assert fr.pending != [];
    var s' := VisitedTop(links, s);
    FramesDrop(s.visited, s'.visited, kept, fr, {});
    VisitedReached(links, cyclic, fact, s, kept, cur);
    ColoursVisit(links, cyclic, s, fr, cur);
    if cyclic {
      OrderedVisit(links, s.visited, kept, rank, next, cur);
    }
  }

  // A pending fact can be dropped when it is done or now open.
  lemma FramesDrop(visited: map<Fact, bool>, visited': map<Fact, bool>, kept: set<Leaf>, fr: Frames, above: set<Fact>)
    requires FramesOK(visited, kept, fr, {}) && fr.pending != []
    requires forall f | Done(visited, f) :: Done(visited', f)
    requires Done(visited', fr.pending[|fr.pending| - 1]) || fr.pending[|fr.pending| - 1] in above
    ensures FramesOK(visited', kept, Dropped(fr), above)
  {
    InitMembers(fr.pending);
    forall a | a in Dropped(fr).pending
      ensures Pending(kept, Dropped(fr), a)
    {
      assert Pending(kept, fr, a);
    }
    if fr.Frame? {
      forall a | Leaf(fr.fact, a) in kept
        ensures Covered(visited', Dropped(fr), above, a)
      {
        assert Covered(visited, fr, {}, a);
      }
      FramesStay(visited, visited', kept, kept, fr.below, {fr.fact}, {fr.fact});
    }
  }

  // The fact on top of the stack is opened.
  ghost function OpenedTop(links: Links, s: Search): Search
    requires s.visit != [] && s.visit[|s.visit| - 1] in links
  {
    var cur := s.visit[|s.visit| - 1];
    s.(visit := Init(s.visit) + [cur], visited := s.visited[cur := false],
       toConnect := s.toConnect[cur := links[cur].tree.node])
  }

  lemma ColoursOpen(links: Links, s: Search, fr: Frames, cur: Fact)
    requires Colours(links, true, s.visited, s.toConnect, fr) && cur !in s.visited && fr.pending != []
    requires s.visit != [] && cur == s.visit[|s.visit| - 1] && cur in links && links[cur].recursive
    ensures Colours(links, true, OpenedTop(links, s).visited, OpenedTop(links, s).toConnect,
                    Frame(cur, [], Dropped(fr)))
  {
    assert OpenFacts(Dropped(fr)) == OpenFacts(fr);
    assert forall f | f != cur :: Open(OpenedTop(links, s).visited, f) <==> Open(s.visited, f);
  }

  lemma OrderedOpen(links: Links, visited: map<Fact, bool>, kept: set<Leaf>, rank: map<Fact, nat>, next: nat, cur: Fact)
    requires Ordered(links, visited, kept, rank, next) && cur !in visited
    ensures Ordered(links, visited[cur := false], kept, rank, next)
  {
    assert forall f :: Done(visited[cur := false], f) <==> Done(visited, f);
  }

  lemma FramesOpen(visited: map<Fact, bool>, kept: set<Leaf>, fr: Frames, cur: Fact)
    requires FramesOK(visited, kept, fr, {}) && fr.pending != [] && cur == fr.pending[|fr.pending| - 1]
    requires cur !in visited && forall l | l in kept :: l.owner in visited
    ensures FramesOK(visited[cur := false], kept, Frame(cur, [], Dropped(fr)), {})
  {
    assert Pending(kept, fr, cur);
    FramesDrop(visited, visited[cur := false], kept, fr, {cur});
  }

  lemma OpenedReached(links: Links, fact: Fact, s: Search, kept: set<Leaf>, cur: Fact)
    requires Decided(links, true, s, kept, {}) && Reached(fact, s, kept)
    requires s.visit != [] && cur == s.visit[|s.visit| - 1] && cur !in s.visited && cur in links
    ensures Decided(links, true, OpenedTop(links, s), kept, LeavesOf(links, cur))
    ensures Reached(fact, OpenedTop(links, s), kept)
  {
    InitMembers(s.visit);
    DecidedVisit(links, true, s, kept, OpenedTop(links, s), cur);
    ReachedVisit(fact, s, kept, OpenedTop(links, s), cur);
  }

  lemma OpenTop(links: Links, fact: Fact, s: Search, kept: set<Leaf>, fr: Frames, rank: map<Fact, nat>, next: nat,
                cur: Fact)
    requires Searching(links, true, fact, s, kept, fr, rank, next, {})
    requires s.visit != [] && cur == s.visit[|s.visit| - 1] && cur !in s.visited && cur in links && links[cur].recursive
    ensures fr.pending != []
    ensures Searching(links, true, fact, OpenedTop(links, s), kept, Frame(cur, [], Dropped(fr)), rank, next,
                      LeavesOf(links, cur))
  {
    TopOfStack(s.visited, kept, fr);
    assert fr.pending != [];
    var s' := OpenedTop(links, s);
    OpenedReached(links, fact, s, kept, cur);
    FramesOpen(s.visited, kept, fr, cur);
    ColoursOpen(links, s, fr, cur);
    OrderedOpen(links, s.visited, kept, rank, next, cur);
  }

  // The fact on top of the stack is done.
  ghost function ClosedTop(s: Search): Search
    requires s.visit != []
  {
    s.(visit := Init(s.visit), visited := s.visited[s.visit[|s.visit| - 1] := true])
  }

  lemma ColoursClose(links: Links, s: Search, kept: set<Leaf>, fr: Frames)
    requires Colours(links, true, s.visited, s.toConnect, fr) && FramesOK(s.visited, kept, fr, {})
    requires s.visit != [] && fr.Frame? && fr.fact == s.visit[|s.visit| - 1]
    ensures Colours(links, true, ClosedTop(s).visited, s.toConnect, fr.below)
  {
    assert Open(s.visited, fr.fact);
    assert forall f | f != fr.fact :: Open(ClosedTop(s).visited, f) <==> Open(s.visited, f);
  }

  lemma OrderedClose(links: Links, visited: map<Fact, bool>, kept: set<Leaf>, rank: map<Fact, nat>, next: nat,
                     fr: Frames)
    requires Ordered(links, visited, kept, rank, next) && FramesOK(visited, kept, fr, {})
    requires fr.Frame? && fr.pending == [] && Open(visited, fr.fact)
    ensures Ordered(links, visited[fr.fact := true], kept, rank[fr.fact := next], next + 1)
  {
    var visited' := visited[fr.fact := true];
    forall l | l in kept && Done(visited', l.owner)
      ensures Done(visited', l.fact) && Below(links, rank[fr.fact := next], l)
    {
      if l.owner == fr.fact {
        assert Leaf(fr.fact, l.fact) in kept;
        assert Covered(visited, fr, {}, l.fact);
      } else {
        assert Below(links, rank, l);
      }
    }
  }

  lemma CloseTop(links: Links, cyclic: bool, fact: Fact, s: Search, kept: set<Leaf>, fr: Frames, rank: map<Fact, nat>,
                 next: nat, cur: Fact)
    requires Searching(links, cyclic, fact, s, kept, fr, rank, next, {})
    requires s.visit != [] && cur == s.visit[|s.visit| - 1] && Open(s.visited, cur)
    ensures fr.Frame?
    ensures Searching(links, cyclic, fact, ClosedTop(s), kept, fr.below, rank[cur := next], next + 1, {})
  {
    TopOfStack(s.visited, kept, fr);
    assert fr.Frame? && cur == fr.fact && cyclic;
    var s' := ClosedTop(s);
    InitMembers(s.visit);
    FramesStay(s.visited, s'.visited, kept, kept, fr.below, {cur}, {});
    DecidedVisit(links, cyclic, s, kept, s', cur);
    ReachedVisit(fact, s, kept, s', cur);
    ColoursClose(links, s, kept, fr);
    OrderedClose(links, s.visited, kept, rank, next, fr);
  }

  lemma SkipTop(links: Links, cyclic: bool, fact: Fact, s: Search, kept: set<Leaf>, fr: Frames, rank: map<Fact, nat>,
                next: nat, cur: Fact)
    requires Searching(links, cyclic, fact, s, kept, fr, rank, next, {})
    requires s.visit != [] && cur == s.visit[|s.visit| - 1] && Done(s.visited, cur)
    ensures fr.pending != []
    ensures Searching(links, cyclic, fact, s.(visit := Init(s.visit)), kept, Dropped(fr), rank, next, {})
  {
    TopOfStack(s.visited, kept, fr);
    assert fr.pending != [];
    var s' := s.(visit := Init(s.visit));
    InitMembers(s.visit);
    FramesDrop(s.visited, s'.visited, kept, fr, {});
    DecidedVisit(links, cyclic, s, kept, s', cur);
    ReachedVisit(fact, s, kept, s', cur);
    assert OpenFacts(Dropped(fr)) == OpenFacts(fr);
  }

  // ---- the assumptions of the fact that has just been visited are enqueued one at a time

  // cur has just been visited and l is one of the leaves that are still to be enqueued.
  ghost predicate Enqueuing(links: Links, cyclic: bool, s: Search, fr: Frames, rest: set<Leaf>, cur: Fact, a: Fact) {
    && cur in s.visited && Leaf(cur, a) in rest && rest <= LeavesOf(links, cur)
    && (if cyclic then fr.Frame? && fr.fact == cur else fr.Bottom?)
  }

  lemma CutLeaf(links: Links, fact: Fact, s: Search, kept: set<Leaf>, fr: Frames, rank: map<Fact, nat>, next: nat,
                rest: set<Leaf>, cur: Fact, a: Fact)
    requires Searching(links, true, fact, s, kept, fr, rank, next, rest) && Enqueuing(links, true, s, fr, rest, cur, a)
    requires Open(s.visited, a)
    ensures Searching(links, true, fact, s, kept, fr, rank, next, rest - {Leaf(cur, a)})
  {
    OpenPath(s.visited, kept, fr, {}, a);
    assert Cut(links, true, kept, Leaf(cur, a));
  }

  ghost function Appended(fr: Frames, a: Fact): Frames {
    fr.(pending := fr.pending + [a])
  }

  function Enqueued(s: Search, a: Fact, nodes: seq<ProofNode>): Search {
    s.(visit := s.visit + [a],
       toExpand := s.toExpand[a := (if a in s.toExpand then s.toExpand[a] else []) + nodes])
  }

  // nodes are those where the proof of cur assumes a.
  ghost predicate NodesAreFor(links: Links, cur: Fact, a: Fact, nodes: seq<ProofNode>) {
    NodeSet(nodes) == NodesAt(links, Leaf(cur, a))
  }

  lemma EnqueuedRecords(links: Links, s: Search, kept: set<Leaf>, cur: Fact, a: Fact, nodes: seq<ProofNode>)
    requires Records(links, s.toExpand, kept) && NodesAreFor(links, cur, a, nodes)
    ensures Records(links, Enqueued(s, a, nodes).toExpand, kept + {Leaf(cur, a)})
  {
    var kept', toExpand := kept + {Leaf(cur, a)}, Enqueued(s, a, nodes).toExpand;
    forall b | b in toExpand
      ensures NodesListed(links, toExpand, kept', b)
    {
      assert b in s.toExpand ==> NodesListed(links, s.toExpand, kept, b);
      if b == a {
        assert LeavesTo(kept', a) == LeavesTo(kept, a) + {Leaf(cur, a)};
        MoreLeaves(links, LeavesTo(kept, a), Leaf(cur, a));
        assert a !in s.toExpand ==> LeavesTo(kept, a) == {};
        var before := if a in s.toExpand then s.toExpand[a] else [];
        assert NodeSet(before + nodes) == NodeSet(before) + NodeSet(nodes);
      } else {
        assert LeavesTo(kept', b) == LeavesTo(kept, b);
      }
    }
  }

  lemma MoreLeaves(links: Links, leaves: set<Leaf>, l: Leaf)
    ensures NodesOf(links, leaves + {l}) == NodesOf(links, leaves) + NodesAt(links, l)
  {
  }

  lemma EnqueuedDecided(links: Links, cyclic: bool, s: Search, kept: set<Leaf>, rest: set<Leaf>, cur: Fact, a: Fact,
                        nodes: seq<ProofNode>)
    requires Decided(links, cyclic, s, kept, rest)
    requires cur in s.visited && Leaf(cur, a) in rest && rest <= LeavesOf(links, cur)
    requires NodesAreFor(links, cur, a, nodes)
    ensures Decided(links, cyclic, Enqueued(s, a, nodes), kept + {Leaf(cur, a)}, rest - {Leaf(cur, a)})
  {
    var kept' := kept + {Leaf(cur, a)};
    EnqueuedRecords(links, s, kept, cur, a, nodes);
    forall l | IsLeaf(links, l) && l.owner in s.visited && l !in rest - {Leaf(cur, a)}
      ensures l in kept' || Cut(links, cyclic, kept', l)
    {
      if l !in kept' {
        assert Cut(links, cyclic, kept, l);
        ConnectsMore(kept, kept', l.fact, l.owner);
      }
    }
  }

  lemma EnqueuedFrames(visited: map<Fact, bool>, kept: set<Leaf>, fr: Frames, cur: Fact, a: Fact)
    requires FramesOK(visited, kept, fr, {}) && (fr.Frame? ==> fr.fact == cur) && a !in OpenFacts(fr)
    ensures FramesOK(visited, kept + {Leaf(cur, a)}, Appended(fr, a), {})
  {
    var kept', fr' := kept + {Leaf(cur, a)}, Appended(fr, a);
    forall x | x in fr'.pending
      ensures Pending(kept', fr', x)
    {
      assert x != a ==> Pending(kept, fr, x);
    }
    if fr.Frame? {
      forall x | Leaf(cur, x) in kept'
        ensures Covered(visited, fr', {}, x)
      {
        assert x != a ==> Covered(visited, fr, {}, x);
      }
      FramesStay(visited, visited, kept, kept', fr.below, {cur}, {cur});
    }
  }

  lemma EnqueuedReached(fact: Fact, s: Search, kept: set<Leaf>, cur: Fact, a: Fact, nodes: seq<ProofNode>)
    requires Reached(fact, s, kept) && cur in s.visited
    ensures Reached(fact, Enqueued(s, a, nodes), kept + {Leaf(cur, a)})
  {
    var kept', s' := kept + {Leaf(cur, a)}, Enqueued(s, a, nodes);
    forall f | f in s.visited || f in s.visit
      ensures Connects(kept', fact, f)
    {
      ConnectsMore(kept, kept', fact, f);
    }
    ConnectsFurther(kept', fact, cur, a);
  }

  lemma KeepLeaf(links: Links, cyclic: bool, fact: Fact, s: Search, kept: set<Leaf>, fr: Frames, rank: map<Fact, nat>,
                 next: nat, rest: set<Leaf>, cur: Fact, a: Fact, nodes: seq<ProofNode>)
    requires Searching(links, cyclic, fact, s, kept, fr, rank, next, rest)
      && Enqueuing(links, cyclic, s, fr, rest, cur, a)
    requires !Open(s.visited, a)
    requires NodesAreFor(links, cur, a, nodes)
    ensures Searching(links, cyclic, fact, Enqueued(s, a, nodes), kept + {Leaf(cur, a)}, Appended(fr, a), rank, next,
                      rest - {Leaf(cur, a)})
  {
    EnqueuedDecided(links, cyclic, s, kept, rest, cur, a, nodes);
    EnqueuedFrames(s.visited, kept, fr, cur, a);
    EnqueuedReached(fact, s, kept, cur, a, nodes);
    assert OpenFacts(Appended(fr, a)) == OpenFacts(fr);
    assert Stack(Appended(fr, a)) == Stack(fr) + [a];
    assert cyclic ==> Open(s.visited, cur);
  }

  // ---- what the search has found

  // The leaves of links that are replaced when fact is proved, each reached through others, in an order given by rank
  // when cycles are controlled.
  ghost predicate Expansion(links: Links, cyclic: bool, fact: Fact, leaves: set<Leaf>, rank: map<Fact, nat>) {
    && (forall l {:trigger l in leaves} | l in leaves ::
          IsLeaf(links, l) && l.fact in links && Connects(leaves, fact, l.owner))
    && (cyclic ==> Ranked(leaves, rank))
    && (forall l {:trigger Cut(links, cyclic, leaves, l)} |
          IsLeaf(links, l) && l.fact in links && Connects(AllLeaves(links), fact, l.owner) ::
          l in leaves || Cut(links, cyclic, leaves, l))
  }

  ghost function Connectable(links: Links, kept: set<Leaf>): set<Leaf> {
    set l | l in kept && l.fact in links
  }

  // A path of kept leaves between linked facts goes through linked facts only.
  lemma {:induction false} ConnectablePath(links: Links, kept: set<Leaf>, p: seq<Fact>, from: Fact, to: Fact)
    requires (forall l | l in kept :: IsLeaf(links, l)) && to in links && IsPath(kept, p, from, to)
    ensures IsPath(Connectable(links, kept), p, from, to)
    decreases |p|
  {
    if |p| > 1 {
      assert Leaf(p[0], p[1]) in kept;
      ConnectablePath(links, kept, p[1..], p[1], to);
      assert p[1] in links by {
        if |p| > 2 {
          assert Leaf(p[1], p[2]) in kept;
        }
      }
      forall i | 0 <= i < |p| - 1
        ensures Leaf(p[i], p[i + 1]) in Connectable(links, kept)
      {
        assert i > 0 ==> p[i] == p[1..][i - 1] && p[i + 1] == p[1..][i];
      }
    }
  }

  lemma CutVisited(links: Links, cyclic: bool, s: Search, kept: set<Leaf>, l: Leaf)
    requires Decided(links, cyclic, s, kept, {}) && l.owner in s.visited && Cut(links, cyclic, kept, l)
    ensures l.fact in s.visited
  {
    var p :| IsPath(kept, p, l.fact, l.owner);
    assert |p| > 1 ==> Leaf(p[0], p[1]) in kept;
  }

  // A search that has nothing left to visit has visited every fact that can be reached.
  lemma {:induction false} AllVisited(links: Links, cyclic: bool, s: Search, kept: set<Leaf>, p: seq<Fact>, from: Fact,
                                      to: Fact)
    requires Decided(links, cyclic, s, kept, {}) && s.visit == [] && from in s.visited
    requires IsPath(AllLeaves(links), p, from, to)
    ensures to in s.visited
    decreases |p|
  {
    if |p| > 1 {
      var l := Leaf(p[0], p[1]);
      assert l in AllLeaves(links);
      if l !in kept {
        CutVisited(links, cyclic, s, kept, l);
      }
      AllVisited(links, cyclic, s, kept, p[1..], p[1], to);
    }
  }

  lemma SearchedLeaves(links: Links, cyclic: bool, fact: Fact, s: Search, kept: set<Leaf>, fr: Frames,
                       rank: map<Fact, nat>, next: nat, l: Leaf)
    requires Searching(links, cyclic, fact, s, kept, fr, rank, next, {}) && s.visit == []
    requires IsLeaf(links, l) && l.fact in links && Connects(AllLeaves(links), fact, l.owner)
    ensures l in Connectable(links, kept) || Cut(links, cyclic, Connectable(links, kept), l)
  {
    var p :| IsPath(AllLeaves(links), p, fact, l.owner);
    AllVisited(links, cyclic, s, kept, p, fact, l.owner);
    if l !in kept {
      assert Cut(links, cyclic, kept, l);
      var q :| IsPath(kept, q, l.fact, l.owner);
      ConnectablePath(links, kept, q, l.fact, l.owner);
    }
  }

  lemma Searched(links: Links, cyclic: bool, fact: Fact, s: Search, kept: set<Leaf>, fr: Frames, rank: map<Fact, nat>,
                 next: nat)
    requires Searching(links, cyclic, fact, s, kept, fr, rank, next, {}) && s.visit == []
    ensures Expansion(links, cyclic, fact, Connectable(links, kept), rank)
    ensures fact in s.visited
  {
    assert fr == Bottom([]);
    forall l | l in kept && cyclic
      ensures Below(links, rank, l)
    {
      assert !Open(s.visited, l.owner);
    }
    forall l | l in Connectable(links, kept)
      ensures Connects(Connectable(links, kept), fact, l.owner)
    {
      assert Connects(kept, fact, l.owner);
      var p :| IsPath(kept, p, fact, l.owner);
      ConnectablePath(links, kept, p, fact, l.owner);
    }
    forall l | IsLeaf(links, l) && l.fact in links && Connects(AllLeaves(links), fact, l.owner)
      ensures l in Connectable(links, kept) || Cut(links, cyclic, Connectable(links, kept), l)
    {
      SearchedLeaves(links, cyclic, fact, s, kept, fr, rank, next, l);
    }
  }

  // Nothing is replaced if the proof of the fact itself is not to be expanded.
  lemma NotExpanded(links: Links, cyclic: bool, fact: Fact, leaves: set<Leaf>, rank: map<Fact, nat>)
    requires Expansion(links, cyclic, fact, leaves, rank)
    ensures fact !in links || !links[fact].recursive ==> leaves == {}
  {
    if l :| l in leaves {
      var p :| IsPath(leaves, p, fact, l.owner);
      assert |p| > 1 ==> Leaf(p[0], p[1]) in leaves;
      assert IsLeaf(links, Leaf(fact, if |p| > 1 then p[1] else l.fact));
    }
  }

  // With cycle control, a leaf is left unexpanded iff expanding it would close a cycle.
  lemma LeftIffCycle(links: Links, fact: Fact, leaves: set<Leaf>, rank: map<Fact, nat>, l: Leaf)
    requires Expansion(links, true, fact, leaves, rank)
    requires IsLeaf(links, l) && l.fact in links && Connects(AllLeaves(links), fact, l.owner)
    ensures l in leaves <==> !Connects(leaves, l.fact, l.owner)
  {
    if l in leaves {
      RankedHasNoCycle(leaves, rank, l);
    } else {
      assert Cut(links, true, leaves, l);
    }
  }

  // The proof that getProofFor returns is a valid proof of the fact.
  lemma ChainProves(ch: Checker, links: Links, fact: Fact, leaves: set<Leaf>, rank: map<Fact, nat>)
    requires Expansion(links, true, fact, leaves, rank) && fact in links && Sound(ch, links)
    ensures var p := Connected(links, leaves, rank, fact); Conclusion(p) == fact && Checked(ch, p)
  {
    ConnectIsChecked(ch, links, leaves, rank, fact, links[fact].Value(), {});
  }

  // What it still assumes has no generated proof, or is assumed by a proof that is not to be expanded, or would close a
  // cycle where it is assumed, or was missed by getFreeAssumptionsMap.
  lemma ChainAssumes(links: Links, fact: Fact, leaves: set<Leaf>, rank: map<Fact, nat>, a: Fact) returns (owner: Fact)
    requires Expansion(links, true, fact, leaves, rank) && fact in links
    requires a in FreeAssumptions(Connected(links, leaves, rank, fact))
    ensures owner in links && a in FreeAssumptions(links[owner].Value()) && Connects(leaves, fact, owner)
    ensures || a !in links || !links[owner].recursive || Connects(leaves, a, owner)
            || a !in links[owner].Assumptions()
  {
    owner := ConnectAssumes(links, leaves, rank, fact, links[fact].Value(), {}, a);
    var p :| IsPath(leaves, p, fact, owner);
    assert IsPath(AllLeaves(links), p, fact, owner);
    if a in links && links[owner].recursive && a in links[owner].Assumptions() {
      assert IsLeaf(links, Leaf(owner, a));
      assert Cut(links, true, leaves, Leaf(owner, a));
    }
  }

  // ---- nodes that are shared by a leaf that is replaced and one that is cut

  // A path of replaced leaves is one of overwritten nodes, unless it ends in a proof that is a mere assumption.
  lemma {:induction false} LeavesOverwrite(links: Links, steps: Steps, leaves: set<Leaf>, rank: map<Fact, nat>,
                                           p: seq<Fact>, from: Fact, to: Fact)
    requires Generated(links, steps) && Replaces(links, leaves, rank)
    requires IsPath(leaves, p, from, to) && !Mere(links, to)
    ensures IsPath(Overwrites(links, NodesOf(links, leaves)), p, from, to)
    ensures !Mere(links, from)
    decreases |p|
  {
    if |p| > 1 {
      LeavesOverwrite(links, steps, leaves, rank, p[1..], p[1], to);
      LeafOverwrites(links, steps, leaves, rank, Leaf(p[0], p[1]));
      assert p == [p[0]] + p[1..];
      forall i | 0 <= i < |p| - 1
        ensures Leaf(p[i], p[i + 1]) in Overwrites(links, NodesOf(links, leaves))
      {
        assert i > 0 ==> p[i] == p[1..][i - 1] && p[i + 1] == p[1..][i];
      }
    }
  }

  lemma LeafOverwrites(links: Links, steps: Steps, leaves: set<Leaf>, rank: map<Fact, nat>, l: Leaf)
    requires Generated(links, steps) && Replaces(links, leaves, rank) && l in leaves
    ensures !Mere(links, l.owner)
    ensures !Mere(links, l.fact) ==> l in Overwrites(links, NodesOf(links, leaves))
  {
    var places := Places(links, l.owner);
    var o :| o in places && MetFree(places, o.node) && o.fact == l.fact;
    assert o.node in NodesAt(links, l);
    assert GeneratedAt(links, steps, l.owner);
  }

  // Cycle control fails when a leaf that is cut, as it would close a cycle, shares a node with one that is replaced:
  // the node returned is then the root of no finite proof.
  lemma CutLeafShared(links: Links, steps: Steps, fact: Fact, leaves: set<Leaf>, rank: map<Fact, nat>, cut: Leaf,
                      o: Occurrence)
    requires Generated(links, steps) && HeapIs(links, steps, NodesOf(links, leaves)) && fact in links
    requires Expansion(links, true, fact, leaves, rank)
    requires IsLeaf(links, cut) && cut.fact in links && Connects(leaves, fact, cut.owner) && cut !in leaves
    requires o in Places(links, cut.owner) && o.fact == cut.fact && !Mere(links, cut.fact)
    requires o.node in NodesOf(links, leaves)
    ensures !exists p :: Denotes(links[fact].tree.node, p)
  {
    var edges := Overwrites(links, NodesOf(links, leaves));
    assert cut in edges;
    var p :| IsPath(leaves, p, fact, cut.owner);
    assert IsPath(AllLeaves(links), p, fact, cut.owner);
    assert Cut(links, true, leaves, cut);
    var q :| IsPath(leaves, q, cut.fact, cut.owner);
    assert GeneratedAt(links, steps, cut.owner);
    LeavesOverwrite(links, steps, leaves, rank, p, fact, cut.owner);
    LeavesOverwrite(links, steps, leaves, rank, q, cut.fact, cut.owner);
    assert Connects(edges, fact, cut.owner) && Connects(edges, cut.fact, cut.owner);
    FiniteIffNoCycle(links, steps, NodesOf(links, leaves), fact);
  }

  // The proof of f has one step, whose premise is the assumption a at the node n.
  ghost predicate OneAssumption(links: Links, f: Fact, a: Fact, n: ProofNode) {
    f in links && links[f].recursive && links[f].tree.ApplyTree? && links[f].tree.premises == [AssumeTree(n, a)]
  }

  // It happens: f is proved from a, a from b, and b from a, with one node for both assumptions of a.
  lemma SharedWithCut(links: Links, steps: Steps, f: Fact, a: Fact, b: Fact, n: ProofNode, m: ProofNode,
                      leaves: set<Leaf>, rank: map<Fact, nat>)
    requires links.Keys == {f, a, b} && f != a && f != b && a != b
    requires OneAssumption(links, f, a, n) && OneAssumption(links, a, b, m) && OneAssumption(links, b, a, n)
    requires Generated(links, steps) && HeapIs(links, steps, NodesOf(links, leaves))
    requires Expansion(links, true, f, leaves, rank)
    ensures leaves == {Leaf(f, a), Leaf(a, b)}
    ensures !exists p :: Denotes(links[f].tree.node, p)
  {
    OnePlace(links, f, a, n);
    OnePlace(links, a, b, m);
    OnePlace(links, b, a, n);
    SharedLeaves(links, f, a, b, leaves, rank);
    assert n in NodesAt(links, Leaf(f, a));
    assert IsPath(leaves, [f, a, b], f, b);
    CutLeafShared(links, steps, f, leaves, rank, Leaf(b, a), Occurrence(n, a, true));
  }

  lemma OnePlace(links: Links, f: Fact, a: Fact, n: ProofNode)
    requires OneAssumption(links, f, a, n)
    ensures Places(links, f) == [Occurrence(n, a, true)]
    ensures links[f].Assumptions() == {a}
    ensures NodesAt(links, Leaf(f, a)) == {n}
  {
    var premises := links[f].tree.premises;
    assert premises[..0] == [];
    var o := Occurrence(n, a, true);
    assert Occurrences(premises[0], {}) == [o];
    assert AllOccurrences(premises, {}) == [o] + AllOccurrences([], {});
    assert Places(links, f) == [o];
    assert o in Places(links, f) && MetFree(Places(links, f), n);
  }

  lemma SharedLeaves(links: Links, f: Fact, a: Fact, b: Fact, leaves: set<Leaf>, rank: map<Fact, nat>)
    requires links.Keys == {f, a, b} && f != a && f != b && a != b && forall g | g in links :: links[g].recursive
    requires links[f].Assumptions() == {a} && links[a].Assumptions() == {b} && links[b].Assumptions() == {a}
    requires Expansion(links, true, f, leaves, rank)
    ensures leaves == {Leaf(f, a), Leaf(a, b)}
  {
    var all := AllLeaves(links);
    assert Leaf(f, a) in all && Leaf(a, b) in all;
    assert IsPath(all, [f], f, f) && IsPath(all, [f, a], f, a) && IsPath(all, [f, a, b], f, b);
    EndsOfPath(leaves, f, b);
    EndsOfPath(leaves, a, f);
    EndsOfPath(leaves, b, a);
    LeftIffCycle(links, f, leaves, rank, Leaf(f, a));
    LeftIffCycle(links, f, leaves, rank, Leaf(a, b));
  }

  lemma EndsOfPath(leaves: set<Leaf>, from: Fact, to: Fact)
    ensures Connects(leaves, from, to) && from != to ==>
      (exists x :: Leaf(from, x) in leaves) && (exists x :: Leaf(x, to) in leaves)
  {
    if Connects(leaves, from, to) && from != to {
      var p :| IsPath(leaves, p, from, to);
      assert Leaf(p[0], p[1]) in leaves && Leaf(p[|p| - 2], p[|p| - 1]) in leaves;
    }
  }

  class LazyCDProofChain {
    const cyclic: bool
    const defRec: bool
    const defGen: Option<Generator>
    var gens: map<Fact, Generator>

    constructor (cyclic: bool, defGen: Option<Generator>, defRec: bool)
      ensures this.cyclic == cyclic && this.defGen == defGen && this.defRec == defRec && gens == map[]
    {
      this.cyclic, this.defGen, this.defRec, gens := cyclic, defGen, defRec, map[];
    }

    // The facts that have a generated proof: by their own generator or, if they have none, by the default one.
    ghost function Links(): Links
      reads this`gens
    {
      (map f | f in gens && f in gens[f] :: Link(gens[f][f], true)) +
      (if defGen.Some? then map f | f in defGen.value && f !in gens :: Link(defGen.value[f], defRec) else map[])
    }

    // A fact that has a generator of its own is proved by it or not at all; any other by the default generator, whose
    // proofs are expanded iff defRec says so.
    lemma LinksAre(f: Fact)
      ensures f in gens ==> (f in Links() <==> f in gens[f])
      ensures f !in gens ==> (f in Links() <==> defGen.Some? && f in defGen.value)
      ensures f in Links() ==> Links()[f].tree == (if f in gens then gens[f] else defGen.value)[f]
      ensures f in Links() ==> (Links()[f].recursive <==> f in gens || defRec)
    {
    }

    method AddLazyStep(expected: Fact, pg: Generator)
      modifies this`gens
      ensures forall f | f != expected :: f in Links() <==> f in old(Links())
      ensures forall f | f != expected && f in Links() :: Links()[f] == old(Links())[f]
      ensures if expected in pg then expected in Links() && Links()[expected] == Link(pg[expected], true)
        else expected !in Links()
    {
      gens := gens[expected := pg];
    }

    // getGeneratorForInternal
    method GetGeneratorForInternal(fact: Fact, rec: bool) returns (pg: Option<Generator>, rec': bool)
      ensures fact in Links() <==> pg.Some? && fact in pg.value
      ensures fact in Links() ==> pg.value[fact] == Links()[fact].tree && (rec ==> rec' == Links()[fact].recursive)
      ensures pg == if fact in gens then Some(gens[fact]) else defGen
      ensures rec' == if fact !in gens && defGen.Some? then defRec else rec
    {
      rec' := rec;
      if fact in gens {
        return Some(gens[fact]), rec';
      }
      if defGen.Some? {
        rec' := defRec;
        return defGen, rec';
      }
      return None, rec';
    }

    // The free assumptions of the proof of cur are enqueued, in any order.
    method Enqueue(s: Search, cur: Fact, ghost links: Links, ghost fact: Fact, ghost kept: set<Leaf>, ghost fr: Frames,
                   ghost rank: map<Fact, nat>, ghost next: nat, ghost steps: Steps)
      returns (s': Search, ghost kept': set<Leaf>, ghost fr': Frames)
      requires Searching(links, cyclic, fact, s, kept, fr, rank, next, LeavesOf(links, cur))
      requires cur in s.visited && cur in links && links[cur].recursive && cur in s.toConnect
      requires if cyclic then fr.Frame? && fr.fact == cur else fr.Bottom?
      requires AsGenerated(links, steps)
      ensures Searching(links, cyclic, fact, s', kept', fr', rank, next, {})
      ensures s'.visited == s.visited
    {
      var famap := FreeAssumptionsMap(s, cur, links, steps);
      var left := famap.Keys;
      s', kept', fr' := s, kept, fr;
      while left != {}
        invariant Searching(links, cyclic, fact, s', kept', fr', rank, next, LeavesAt(cur, left))
        invariant left <= famap.Keys && s'.visited == s.visited
        invariant if cyclic then fr'.Frame? && fr'.fact == cur else fr'.Bottom?
        decreases left
      {
        ghost var rest := LeavesAt(cur, left);
        var a :| a in left;
        OneLeafLess(cur, left, a);
        left := left - {a};
        s', kept', fr' := EnqueueOne(s', cur, a, famap[a], links, fact, kept', fr', rank, next, rest);
      }
    }

    // One assumption is enqueued, unless that would close a cycle.
    method EnqueueOne(s: Search, cur: Fact, a: Fact, nodes: seq<ProofNode>, ghost links: Links, ghost fact: Fact,
                      ghost kept: set<Leaf>, ghost fr: Frames, ghost rank: map<Fact, nat>, ghost next: nat,
                      ghost rest: set<Leaf>)
      returns (s': Search, ghost kept': set<Leaf>, ghost fr': Frames)
      requires Searching(links, cyclic, fact, s, kept, fr, rank, next, rest)
      requires Enqueuing(links, cyclic, s, fr, rest, cur, a) && NodesAreFor(links, cur, a, nodes)
      ensures Searching(links, cyclic, fact, s', kept', fr', rank, next, rest - {Leaf(cur, a)})
      ensures s'.visited == s.visited && (if cyclic then fr'.Frame? && fr'.fact == cur else fr'.Bottom?)
    {
      s', kept', fr' := s, kept, fr;
      if cyclic && a in s.toConnect && !s.visited[a] {
        CutLeaf(links, fact, s, kept, fr, rank, next, rest, cur, a);
      } else {
        KeepLeaf(links, cyclic, fact, s, kept, fr, rank, next, rest, cur, a, nodes);
        s', kept', fr' := Enqueued(s, a, nodes), kept + {Leaf(cur, a)}, Appended(fr, a);
      }
    }

    // The free assumptions of the proof of cur and the nodes where they are.
    method FreeAssumptionsMap(s: Search, cur: Fact, ghost links: Links, ghost steps: Steps)
      returns (famap: Assumptions)
      requires cur in s.toConnect && cur in links && s.toConnect[cur] == links[cur].tree.node
      requires AsGenerated(links, steps)
      ensures famap.Keys == links[cur].Assumptions()
      ensures forall a | a in famap :: NodesAreFor(links, cur, a, famap[a])
    {
      assert GeneratedAt(links, steps, cur);
      famap := GetFreeAssumptionsMap(s.toConnect[cur], links[cur].tree, steps);
      forall a | a in famap
        ensures NodesAreFor(links, cur, a, famap[a])
      {
        assert NodeSet(famap[a]) == ProofNodeAlgorithm.NodesFor(famap, a);
      }
    }

    // The proof generated for cur, if there is one, and whether to expand it.
    method Generate(cur: Fact) returns (curPfn: Option<ProofNode>, rec: bool)
      ensures curPfn == if cur in Links() then Some(Links()[cur].tree.node) else None
      ensures cur in Links() ==> rec == Links()[cur].recursive
    {
      var pg;
      pg, rec := GetGeneratorForInternal(cur, true);
      if pg.None? || cur !in pg.value {
        return None, rec;
      }
      return Some(pg.value[cur].node), rec;
    }

    // The proof of cur, which has been popped, is to be expanded.
    method Expand(popped: Search, cur: Fact, ghost s: Search, ghost links: Links, ghost fact: Fact,
                  ghost kept: set<Leaf>, ghost fr: Frames, ghost rank: map<Fact, nat>, ghost next: nat,
                  ghost steps: Steps)
      returns (s': Search, ghost kept': set<Leaf>, ghost fr': Frames, ghost rank': map<Fact, nat>, ghost next': nat)
      requires AsGenerated(links, steps)
      requires Searching(links, cyclic, fact, s, kept, fr, rank, next, {}) && (!cyclic ==> fr.Bottom?)
      requires s.visit != [] && cur == s.visit[|s.visit| - 1] && cur !in s.visited
      requires cur in links && links[cur].recursive
      requires popped == s.(visit := Init(s.visit), toConnect := s.toConnect[cur := links[cur].tree.node])
      ensures Searching(links, cyclic, fact, s', kept', fr', rank', next', {}) && (!cyclic ==> fr'.Bottom?)
      ensures s'.visited.Keys == s.visited.Keys + {cur}
    {
      s', fr', rank', next' := Mark(popped, cur, s, links, fact, kept, fr, rank, next);
      s', kept', fr' := Enqueue(s', cur, links, fact, kept, fr', rank', next', steps);
    }

    // If cycles are controlled cur is marked as open, below its assumptions on the stack; otherwise it is done.
    method Mark(popped: Search, cur: Fact, ghost s: Search, ghost links: Links, ghost fact: Fact,
                ghost kept: set<Leaf>, ghost fr: Frames, ghost rank: map<Fact, nat>, ghost next: nat)
      returns (s': Search, ghost fr': Frames, ghost rank': map<Fact, nat>, ghost next': nat)
      requires Searching(links, cyclic, fact, s, kept, fr, rank, next, {}) && (!cyclic ==> fr.Bottom?)
      requires s.visit != [] && cur == s.visit[|s.visit| - 1] && cur !in s.visited
      requires cur in links && links[cur].recursive
      requires popped == s.(visit := Init(s.visit), toConnect := s.toConnect[cur := links[cur].tree.node])
      ensures Searching(links, cyclic, fact, s', kept, fr', rank', next', LeavesOf(links, cur))
      ensures if cyclic then fr'.Frame? && fr'.fact == cur else fr'.Bottom?
      ensures cur in s'.toConnect && s'.visited.Keys == s.visited.Keys + {cur}
    {
      s' := popped;
      if cyclic {
        s' := s'.(visit := s'.visit + [cur], visited := s'.visited[cur := false]);
        OpenTop(links, fact, s, kept, fr, rank, next, cur);
        assert s' == OpenedTop(links, s);
        fr', rank', next' := Frame(cur, [], Dropped(fr)), rank, next;
      } else {
        s' := s'.(visited := s'.visited[cur := true]);
        VisitTop(links, cyclic, fact, s, kept, fr, rank, next, cur);
        assert s' == VisitedTop(links, s);
        fr', rank', next' := Dropped(fr), rank[cur := next], next + 1;
      }
    }

    // The pre-visit of the fact cur, which has been popped.
    method PreVisit(popped: Search, cur: Fact, ghost s: Search, ghost fact: Fact, ghost kept: set<Leaf>,
                    ghost fr: Frames, ghost rank: map<Fact, nat>, ghost next: nat, ghost steps: Steps)
      returns (s': Search, ghost kept': set<Leaf>, ghost fr': Frames, ghost rank': map<Fact, nat>, ghost next': nat)
      requires AsGenerated(Links(), steps)
      requires Searching(Links(), cyclic, fact, s, kept, fr, rank, next, {}) && (!cyclic ==> fr.Bottom?)
      requires s.visit != [] && cur == s.visit[|s.visit| - 1] && popped == s.(visit := Init(s.visit))
        && cur !in s.visited
      ensures Searching(Links(), cyclic, fact, s', kept', fr', rank', next', {}) && (!cyclic ==> fr'.Bottom?)
      ensures s'.visited.Keys == s.visited.Keys + {cur}
      ensures cur in Links() || |s'.visit| < |s.visit|
    {
      ghost var links := Links();
      s' := popped;
      var curPfn, rec := Generate(cur);
      if curPfn.Some? {
        s' := s'.(toConnect := s'.toConnect[cur := curPfn.value]);
        if rec {
          s', kept', fr', rank', next' := Expand(s', cur, s, links, fact, kept, fr, rank, next, steps);
          return;
        }
      }
      s' := s'.(visited := s'.visited[cur := true]);
      VisitTop(links, cyclic, fact, s, kept, fr, rank, next, cur);
      kept', fr', rank', next' := kept, Dropped(fr), rank[cur := next], next + 1;
    }

    // The nodes of the leaves of every fact that is to be connected are overwritten by its proof, in any order.
    method ExpandAssumptions(s: Search, fact: Fact, ghost links: Links, ghost kept: set<Leaf>, ghost steps: Steps)
      returns (ghost updated: set<Leaf>)
      requires Recorded(links, s, kept) && (forall f | f in s.toConnect :: f == fact || f in s.toExpand)
      requires AsGenerated(links, steps)
      modifies steps.Keys
      ensures updated == set l | l in kept && l.fact in s.toConnect
      ensures HeapIs(links, steps, NodesOf(links, updated))
    {
      updated := {};
      var left := s.toConnect.Keys;
      while left != {}
        invariant left <= s.toConnect.Keys
        invariant updated == set l | l in kept && l.fact in s.toConnect && l.fact !in left
        invariant HeapIs(links, steps, NodesOf(links, updated))
        decreases left
      {
        var f :| f in left;
        left := left - {f};
        if f !in s.toExpand {
          assert f == fact;
          continue;
        }
        updated := ExpandFact(s, f, links, kept, steps, updated);
      }
    }

    // What the search has recorded about the leaves that are kept.
    ghost predicate Recorded(links: Links, s: Search, kept: set<Leaf>) {
      && Records(links, s.toExpand, kept)
      && (forall f | f in s.toConnect :: f in links && s.toConnect[f] == links[f].tree.node)
      && (forall l | l in kept :: l.owner in links)
    }

    method ExpandFact(s: Search, f: Fact, ghost links: Links, ghost kept: set<Leaf>, ghost steps: Steps,
                      ghost updated: set<Leaf>)
      returns (ghost updated': set<Leaf>)
      requires Recorded(links, s, kept) && f in s.toConnect && f in s.toExpand
      requires Generated(links, steps) && HeapIs(links, steps, NodesOf(links, updated))
      modifies steps.Keys
      ensures updated' == updated + LeavesTo(kept, f)
      ensures HeapIs(links, steps, NodesOf(links, updated'))
    {
      updated' := updated + LeavesTo(kept, f);
      var nodes := s.toExpand[f];
      assert NodesListed(links, s.toExpand, kept, f);
      assert NodesOf(links, updated) + NodeSet(nodes[..0]) == NodesOf(links, updated);
      for i := 0 to |nodes|
        invariant HeapIs(links, steps, NodesOf(links, updated) + NodeSet(nodes[..i]))
      {
        ghost var done := NodesOf(links, updated) + NodeSet(nodes[..i]);
        ghost var l := LeafOfNode(links, s.toExpand, kept, f, nodes[i]);
        UpdateOne(nodes[i], s.toConnect[f], f, links, steps, l, done);
        assert nodes[..i + 1] == nodes[..i] + [nodes[i]];
        assert NodesOf(links, updated) + NodeSet(nodes[..i + 1]) == done + {nodes[i]};
      }
      assert nodes[..|nodes|] == nodes;
      NodesOfBoth(links, updated, LeavesTo(kept, f));
    }

    // One iteration of the search.
    method VisitNext(s0: Search, ghost fact: Fact, ghost kept: set<Leaf>, ghost fr: Frames, ghost rank: map<Fact, nat>,
                     ghost next: nat, ghost steps: Steps)
      returns (s: Search, ghost kept': set<Leaf>, ghost fr': Frames, ghost rank': map<Fact, nat>, ghost next': nat)
      requires AsGenerated(Links(), steps)
      requires Searching(Links(), cyclic, fact, s0, kept, fr, rank, next, {}) && (!cyclic ==> fr.Bottom?)
        && s0.visit != []
      ensures Searching(Links(), cyclic, fact, s, kept', fr', rank', next', {}) && (!cyclic ==> fr'.Bottom?)
      ensures Links().Keys - s.visited.Keys < Links().Keys - s0.visited.Keys ||
        (Links().Keys - s.visited.Keys == Links().Keys - s0.visited.Keys && |s.visit| < |s0.visit|)
    {
      ghost var links := Links();
      var cur := s0.visit[|s0.visit| - 1];
      s := s0.(visit := s0.visit[..|s0.visit| - 1]);
      kept', rank', next' := kept, rank, next;
      if cur !in s.visited {
        s, kept', fr', rank', next' := PreVisit(s, cur, s0, fact, kept, fr, rank, next, steps);
        LeftToVisit(links.Keys, s0.visited.Keys, cur);
      } else if !s.visited[cur] {
        s := s.(visited := s.visited[cur := true]);
        assert s.visited.Keys == s0.visited.Keys;
        CloseTop(links, cyclic, fact, s0, kept, fr, rank, next, cur);
        fr', rank', next' := fr.below, rank[cur := next], next + 1;
      } else {
        SkipTop(links, cyclic, fact, s0, kept, fr, rank, next, cur);
        fr' := Dropped(fr);
      }
    }

    // The proof of fact, in whose nodes and in those of the proofs it depends on the leaves of updated have been
    // replaced, however these proofs share nodes. What results is finite iff the overwritten nodes make no cycle, and
    // it is the connected proof iff they fit, as they do when nothing is shared.
    method GetProofFor(fact: Fact, ghost steps: Steps)
      returns (proof: Option<ProofNode>, ghost updated: set<Leaf>, ghost rank: map<Fact, nat>)
      requires AsGenerated(Links(), steps)
      modifies steps.Keys
      ensures proof == if fact in Links() then Some(Links()[fact].tree.node) else None
      ensures Expansion(Links(), cyclic, fact, updated, rank)
      ensures HeapIs(Links(), steps, NodesOf(Links(), updated))
      ensures proof.Some? ==> ((exists p :: Denotes(proof.value, p)) <==>
                               NoCycle(Overwrites(Links(), NodesOf(Links(), updated)), fact))
      ensures cyclic && proof.Some? ==> (Denotes(proof.value, Connected(Links(), updated, rank, fact)) <==>
                                         Fits(Links(), updated, fact))
      ensures fact !in gens && !defRec ==> updated == {} && forall n | n in steps :: n.step == steps[n]
      ensures cyclic && proof.Some? && Separate(Links()) ==>
        Denotes(proof.value, Connected(Links(), updated, rank, fact))
    {
      ghost var links := Links();
      var s;
      ghost var kept;
      s, kept, rank := SearchFrom(fact, steps);
      updated := ExpandAssumptions(s, fact, links, kept, steps);
      assert updated == Connectable(links, kept);
      LinksAre(fact);
      NotExpanded(links, cyclic, fact, updated, rank);
      proof := if fact in s.toConnect then Some(s.toConnect[fact]) else None;
      if proof.Some? {
        FiniteIffNoCycle(links, steps, NodesOf(links, updated), fact);
        if cyclic {
          ConnectedIffFits(links, steps, updated, rank, fact);
          if Separate(links) {
            SeparateFits(links, steps, updated, rank, fact);
          }
        }
      }
    }

    method SearchFrom(fact: Fact, ghost steps: Steps)
      returns (s: Search, ghost kept: set<Leaf>, ghost rank: map<Fact, nat>)
      requires AsGenerated(Links(), steps)
      ensures Expansion(Links(), cyclic, fact, Connectable(Links(), kept), rank)
      ensures Recorded(Links(), s, kept) && (forall f | f in s.toConnect :: f == fact || f in s.toExpand)
      ensures fact in s.toConnect <==> fact in Links()
      ensures forall l | l in kept :: l.fact in s.toConnect <==> l.fact in Links()
    {
      ghost var links := Links();
      s := Search([fact], map[], map[], map[]);
      ghost var fr, next: nat := Bottom([fact]), 0;
      kept, rank := {}, map[];
      ConnectsSelf(kept, fact);
      while s.visit != []
        invariant Searching(links, cyclic, fact, s, kept, fr, rank, next, {}) && (!cyclic ==> fr.Bottom?)
        decreases links.Keys - s.visited.Keys, |s.visit|
      {
        s, kept, fr, rank, next := VisitNext(s, fact, kept, fr, rank, next, steps);
      }
      Searched(links, cyclic, fact, s, kept, fr, rank, next);
    }
  }

  lemma LeafOfNode(links: Links, toExpand: map<Fact, seq<ProofNode>>, kept: set<Leaf>, a: Fact, n: ProofNode)
    returns (l: Leaf)
    requires a in toExpand && NodesListed(links, toExpand, kept, a) && n in toExpand[a]
    ensures l in LeavesTo(kept, a) && n in NodesAt(links, l)
  {
    assert n in NodeSet(toExpand[a]);
    l :| l in LeavesTo(kept, a) && n in NodesAt(links, l);
  }

  lemma NodesOfBoth(links: Links, leaves: set<Leaf>, leaves': set<Leaf>)
    ensures NodesOf(links, leaves + leaves') == NodesOf(links, leaves) + NodesOf(links, leaves')
  {
  }

  lemma LeftToVisit(facts: set<Fact>, visited: set<Fact>, cur: Fact)
    requires cur !in visited
    ensures if cur in facts then facts - (visited + {cur}) < facts - visited
            else facts - (visited + {cur}) == facts - visited
  {
    if cur in facts {
      assert cur in facts - visited && cur !in facts - (visited + {cur});
    }
  }
}
