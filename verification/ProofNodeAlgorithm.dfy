/** getFreeAssumptionsMap: the nodes of the free assumptions of a proof, found with a stack and a count of scopes. */
module ProofNodeAlgorithm {
  import opened Sequences
  import opened ProofNodes

  type Assumptions = map<Fact, seq<ProofNode>>

  // An entry of the stack: a tree that is to be visited, or the mark of one whose children are being visited.
  datatype Item = Item(mark: bool, tree: Tree)

  function SubTrees(t: Tree): (ts: seq<Tree>)
    ensures forall c | c in ts :: c < t
  {
    match t
    case AssumeTree(_, _) => []
    case ScopeTree(_, _, body, _) => [body]
    case ApplyTree(_, _, premises, _) => premises
  }

  ghost function ClosedBy(t: Tree): set<Fact> {
    if t.ScopeTree? then t.closed else {}
  }

  // The nodes of assumptions, free or not.
  ghost function AssumeNodes(t: Tree): set<ProofNode> {
    if t.AssumeTree? then {t.node} else set c, n | c in SubTrees(t) && n in AssumeNodes(c) :: n
  }

  // How many of the scopes that are being visited close a.
  ghost function Depth(items: seq<Item>, a: Fact): nat {
    if items == [] then 0
    else Depth(Init(items), a) + if Last(items).mark && a in ClosedBy(Last(items).tree) then 1 else 0
  }

  ghost function Closed(items: seq<Item>): set<Fact> {
    if items == [] then {} else Closed(Init(items)) + if Last(items).mark then ClosedBy(Last(items).tree) else {}
  }

  lemma {:induction false} ClosedIffDepth(items: seq<Item>, a: Fact)
    ensures a in Closed(items) <==> Depth(items, a) > 0
  {
    if items != [] {
      ClosedIffDepth(Init(items), a);
    }
  }

  // ---- a node determines its tree

  lemma {:induction false} SameTree(t: Tree, t': Tree, steps: Steps)
    requires Built(t, steps) && Built(t', steps) && t.node == t'.node
    ensures t == t'
  {
    assert StepOf(t) == StepOf(t');
    match t
    case AssumeTree(_, _) =>
    case ScopeTree(_, _, body, _) => SameTree(body, t'.body, steps);
    case ApplyTree(_, _, premises, _) =>
      assert |premises| == |t'.premises|;
      forall i | 0 <= i < |premises|
        ensures premises[i] == t'.premises[i]
      {
        assert StepOf(t).premises[i] == StepOf(t').premises[i];
        SameTree(premises[i], t'.premises[i], steps);
      }
  }

  // ---- what has been met

  ghost function MetNodes(places: seq<Occurrence>): set<ProofNode> {
    set o | o in places :: o.node
  }

  lemma {:induction false} MetFreeAppend(places: seq<Occurrence>, more: seq<Occurrence>, n: ProofNode)
    ensures MetFree(places + more, n) <==> if n in MetNodes(places) then MetFree(places, n) else MetFree(more, n)
  {
    if places == [] {
      assert places + more == more;
    } else {
      MetFreeAppend(places[1..], more, n);
      assert (places + more)[1..] == places[1..] + more;
      assert places == [places[0]] + places[1..];
    }
  }

  // The nodes listed for a fact.
  ghost function NodesFor(amap: Assumptions, a: Fact): set<ProofNode> {
    if a in amap then set n | n in amap[a] else {}
  }

  ghost predicate ListsMet(amap: Assumptions, places: seq<Occurrence>) {
    && (forall a :: NodesFor(amap, a) == ListedNodes(places, a))
    && forall a | a in amap :: amap[a] != []
  }

  // Places of nodes that have been met already change nothing.
  lemma ListsSkipped(amap: Assumptions, places: seq<Occurrence>, more: seq<Occurrence>)
    requires ListsMet(amap, places) && MetNodes(more) <= MetNodes(places)
    requires forall o, o' | o in places && o' in more && o.node == o'.node :: o.fact == o'.fact
    ensures ListsMet(amap, places + more)
  {
    forall a
      ensures ListedNodes(places + more, a) == ListedNodes(places, a)
    {
      forall n
        ensures n in ListedNodes(places + more, a) <==> n in ListedNodes(places, a)
      {
        MetFreeAppend(places, more, n);
        if o :| o in more && o.fact == a && o.node == n {
          assert n in MetNodes(places);
        }
      }
    }
  }

  // A node that is met for the first time is listed if it is met free.
  lemma ListsNew(amap: Assumptions, places: seq<Occurrence>, o: Occurrence, amap': Assumptions)
    requires ListsMet(amap, places) && o.node !in MetNodes(places)
    requires amap' == if o.free then amap[o.fact := (if o.fact in amap then amap[o.fact] else []) + [o.node]] else amap
    ensures ListsMet(amap', places + [o])
  {
    forall a
      ensures ListedNodes(places + [o], a) ==
        ListedNodes(places, a) + if o.free && o.fact == a then {o.node} else {}
    {
      forall n
        ensures n in ListedNodes(places + [o], a) <==>
          n in ListedNodes(places, a) || (n == o.node && o.free && o.fact == a)
      {
        MetFreeAppend(places, [o], n);
      }
    }
  }

  // The places that are still to come: those of the trees on the stack, from the top, each below the scopes whose marks
  // are below it.
  ghost function Rest(items: seq<Item>): seq<Occurrence> {
    if items == [] then []
    else
      (if Last(items).mark then [] else Occurrences(Last(items).tree, Closed(Init(items)))) + Rest(Init(items))
  }

  // ---- the stack

  ghost predicate ItemOk(steps: Steps, items: seq<Item>, p: nat)
    requires p < |items|
  {
    && Built(items[p].tree, steps)
    && (items[p].mark ==>
          !items[p].tree.AssumeTree? && forall q | p < q < |items| :: items[q].tree < items[p].tree)
  }

  // The nodes of a part of a marked tree have been met, or it is above the mark on the stack.
  ghost predicate PartsOk(places: seq<Occurrence>, items: seq<Item>, p: nat)
    requires p < |items|
  {
    items[p].mark ==> forall c {:trigger Waiting(items, p, c)} | c in SubTrees(items[p].tree) ::
      AssumeNodes(c) <= MetNodes(places) || Waiting(items, p, c)
  }

  ghost predicate Waiting(items: seq<Item>, p: nat, c: Tree) {
    exists q :: p < q < |items| && items[q].tree == c
  }

  ghost predicate StackOk(steps: Steps, places: seq<Occurrence>, items: seq<Item>) {
    && (forall p {:trigger ItemOk(steps, items, p)} | 0 <= p < |items| :: ItemOk(steps, items, p))
    && (forall p {:trigger PartsOk(places, items, p)} | 0 <= p < |items| :: PartsOk(places, items, p))
  }

  // Below a node that has been dealt with everything has been met; a node that has been marked is on the stack.
  ghost predicate VisitedOk(steps: Steps, places: seq<Occurrence>, visited: map<ProofNode, bool>,
                            trees: map<ProofNode, Tree>, items: seq<Item>) {
    && visited.Keys == trees.Keys && MetNodes(places) <= visited.Keys
    && (forall n {:trigger DoneOk(steps, places, visited, trees, n)} | n in visited ::
          DoneOk(steps, places, visited, trees, n))
    && (forall p | 0 <= p < |items| && items[p].mark :: items[p].tree.node in visited && !visited[items[p].tree.node])
    && (forall n {:trigger Marked(items, n)} | n in visited && !visited[n] :: Marked(items, n))
  }

  ghost predicate DoneOk(steps: Steps, places: seq<Occurrence>, visited: map<ProofNode, bool>,
                         trees: map<ProofNode, Tree>, n: ProofNode)
    requires n in visited && visited.Keys == trees.Keys
  {
    trees[n].node == n && Built(trees[n], steps) && (visited[n] ==> AssumeNodes(trees[n]) <= MetNodes(places))
  }

  ghost predicate Marked(items: seq<Item>, n: ProofNode) {
    exists p :: 0 <= p < |items| && items[p].mark && items[p].tree.node == n
  }

  ghost predicate CountOk(scopeDepth: map<Fact, nat>, items: seq<Item>) {
    forall a :: (a in scopeDepth <==> Depth(items, a) > 0) && (a in scopeDepth ==> scopeDepth[a] == Depth(items, a))
  }

  ghost function Nodes(items: seq<Item>): seq<ProofNode> {
    seq(|items|, i requires 0 <= i < |items| => items[i].tree.node)
  }

  // The places of the proof are those that have been passed and those on the stack.
  ghost predicate Walking(root: Tree, steps: Steps, places: seq<Occurrence>, amap: Assumptions,
                          visited: map<ProofNode, bool>, trees: map<ProofNode, Tree>, items: seq<Item>) {
    && Built(root, steps) && StackOk(steps, places, items) && VisitedOk(steps, places, visited, trees, items)
    && Occurrences(root, {}) == places + Rest(items)
    && ListsMet(amap, places)
  }

  // ---- the steps

  // The top of the stack, whose nodes have been met, is taken off.
  lemma PopStack(steps: Steps, places: seq<Occurrence>, more: seq<Occurrence>, items: seq<Item>)
    requires StackOk(steps, places, items) && items != [] && AssumeNodes(Last(items).tree) <= MetNodes(places + more)
    ensures StackOk(steps, places + more, Init(items))
  {
    var rest := Init(items);
    forall p | 0 <= p < |rest|
      ensures ItemOk(steps, rest, p)
    {
      assert ItemOk(steps, items, p);
    }
    forall p | 0 <= p < |rest|
      ensures PartsOk(places + more, rest, p)
    {
      assert PartsOk(places, items, p);
      forall c | rest[p].mark && c in SubTrees(rest[p].tree)
        ensures AssumeNodes(c) <= MetNodes(places + more) || Waiting(rest, p, c)
      {
        if Waiting(items, p, c) {
          var q :| p < q < |items| && items[q].tree == c;
          assert q < |rest| ==> rest[q].tree == c;
        }
      }
    }
  }

  lemma MarksStay(items: seq<Item>, n: ProofNode)
    requires items != [] && Marked(items, n) && !(Last(items).mark && Last(items).tree.node == n)
    ensures Marked(Init(items), n)
  {
    var p :| 0 <= p < |items| && items[p].mark && items[p].tree.node == n;
    assert Init(items)[p] == items[p];
  }

  // The node on the top has been marked: it is the mark itself, for no node is below itself.
  lemma TopIsMark(root: Tree, steps: Steps, places: seq<Occurrence>, amap: Assumptions, visited: map<ProofNode, bool>,
                  trees: map<ProofNode, Tree>, items: seq<Item>)
    requires Walking(root, steps, places, amap, visited, trees, items) && items != []
    requires Last(items).tree.node in visited && !visited[Last(items).tree.node]
    ensures Last(items).mark
    ensures forall p | 0 <= p < |items| - 1 && items[p].mark :: items[p].tree.node != Last(items).tree.node
    ensures AssumeNodes(Last(items).tree) <= MetNodes(places)
  {
    var top, n := |items| - 1, Last(items).tree.node;
    assert ItemOk(steps, items, top);
    forall p | 0 <= p < top && items[p].mark
      ensures items[p].tree.node != n
    {
      assert ItemOk(steps, items, p);
      if items[p].tree.node == n {
        SameTree(items[p].tree, items[top].tree, steps);
      }
    }
    assert Marked(items, n);
    assert PartsOk(places, items, top);
    forall c | c in SubTrees(items[top].tree)
      ensures AssumeNodes(c) <= MetNodes(places)
    {
      assert AssumeNodes(c) <= MetNodes(places) || Waiting(items, top, c);
    }
  }

  lemma {:induction false} OccurrencesAreMet(t: Tree, closed: set<Fact>, o: Occurrence)
    requires o in Occurrences(t, closed)
    ensures o.node in AssumeNodes(t)
  {
    match t
    case AssumeTree(_, _) =>
    case ScopeTree(_, c, body, _) => OccurrencesAreMet(body, closed + c, o);
    case ApplyTree(_, _, premises, _) =>
      AllOccurrencesMember(premises, closed, o);
      var i :| 0 <= i < |premises| && o in Occurrences(premises[i], closed);
      OccurrencesAreMet(premises[i], closed, o);
  }

  // A node that was dealt with before: its places are passed.
  lemma SkipStep(root: Tree, steps: Steps, places: seq<Occurrence>, amap: Assumptions, visited: map<ProofNode, bool>,
                 trees: map<ProofNode, Tree>, items: seq<Item>)
    requires Walking(root, steps, places, amap, visited, trees, items) && items != []
    requires Last(items).tree.node in visited && visited[Last(items).tree.node]
    ensures !Last(items).mark
    ensures Walking(root, steps, places + Occurrences(Last(items).tree, Closed(Init(items))), amap, visited, trees,
                    Init(items))
  {
    var t := Last(items).tree;
    var more := Occurrences(t, Closed(Init(items)));
    assert ItemOk(steps, items, |items| - 1);
    assert DoneOk(steps, places, visited, trees, t.node);
    SameTree(t, trees[t.node], steps);
    forall o | o in more
      ensures o.node in MetNodes(places)
    {
      OccurrencesAreMet(t, Closed(Init(items)), o);
    }
    SkippedLists(root, steps, places, amap, more, Rest(Init(items)));
    PopStack(steps, places, more, items);
    forall n | n in visited
      ensures DoneOk(steps, places + more, visited, trees, n)
    {
      assert DoneOk(steps, places, visited, trees, n);
    }
    forall n | n in visited && !visited[n]
      ensures Marked(Init(items), n)
    {
      MarksStay(items, n);
    }
  }

  lemma SkippedLists(root: Tree, steps: Steps, places: seq<Occurrence>, amap: Assumptions, more: seq<Occurrence>,
                     rest: seq<Occurrence>)
    requires Built(root, steps) && ListsMet(amap, places) && Occurrences(root, {}) == places + (more + rest)
    requires forall o | o in more :: o.node in MetNodes(places)
    ensures ListsMet(amap, places + more) && Occurrences(root, {}) == places + more + rest
  {
    Assoc(places, more, rest);
    forall o | o in places + more
      ensures o.node in steps && steps[o.node] == AssumeNode(o.fact)
    {
      OccurrenceHolds(root, {}, steps, o);
    }
    forall o, o' | o in places && o' in more && o.node == o'.node
      ensures o.fact == o'.fact
    {
      assert o in places + more && o' in places + more;
    }
    ListsSkipped(amap, places, more);
  }

  // The parts of a node have been dealt with.
  lemma CloseStep(root: Tree, steps: Steps, places: seq<Occurrence>, amap: Assumptions, visited: map<ProofNode, bool>,
                  trees: map<ProofNode, Tree>, items: seq<Item>)
    requires Walking(root, steps, places, amap, visited, trees, items) && items != []
    requires Last(items).tree.node in visited && !visited[Last(items).tree.node]
    ensures Last(items).mark
    ensures Walking(root, steps, places, amap, visited[Last(items).tree.node := true], trees, Init(items))
  {
    var t := Last(items).tree;
    var visited' := visited[t.node := true];
    TopIsMark(root, steps, places, amap, visited, trees, items);
    assert ItemOk(steps, items, |items| - 1);
    assert DoneOk(steps, places, visited, trees, t.node);
    SameTree(t, trees[t.node], steps);
    assert places + [] == places;
    PopStack(steps, places, [], items);
    forall n | n in visited'
      ensures DoneOk(steps, places, visited', trees, n)
    {
      assert DoneOk(steps, places, visited, trees, n);
    }
    forall n | n in visited' && !visited'[n]
      ensures Marked(Init(items), n)
    {
      MarksStay(items, n);
    }
  }

  // An assumption is met for the first time; it is listed unless a scope closes it.
  lemma AssumeStep(root: Tree, steps: Steps, places: seq<Occurrence>, amap: Assumptions, visited: map<ProofNode, bool>,
                   trees: map<ProofNode, Tree>, items: seq<Item>, amap': Assumptions)
    requires Walking(root, steps, places, amap, visited, trees, items) && items != []
    requires Last(items).tree.AssumeTree? && Last(items).tree.node !in visited
    requires var t := Last(items).tree;
      amap' == if t.fact in Closed(items) then amap
               else amap[t.fact := (if t.fact in amap then amap[t.fact] else []) + [t.node]]
    ensures !Last(items).mark
    ensures var t := Last(items).tree;
      Walking(root, steps, places + Occurrences(t, Closed(Init(items))), amap', visited[t.node := true],
              trees[t.node := t], Init(items))
  {
    var t := Last(items).tree;
    var o := Occurrence(t.node, t.fact, t.fact !in Closed(Init(items)));
    var visited', trees' := visited[t.node := true], trees[t.node := t];
    assert ItemOk(steps, items, |items| - 1);
    assert Closed(items) == Closed(Init(items)) && Occurrences(t, Closed(Init(items))) == [o];
    ListsNew(amap, places, o, amap');
    Assoc(places, [o], Rest(Init(items)));
    assert o in places + [o];
    PopStack(steps, places, [o], items);
    forall n | n in visited'
      ensures DoneOk(steps, places + [o], visited', trees', n)
    {
      assert n != t.node ==> DoneOk(steps, places, visited, trees, n);
    }
    forall n | n in visited' && !visited'[n]
      ensures Marked(Init(items), n)
    {
      MarksStay(items, n);
    }
  }

  // ---- a node with children

  function Unvisited(ts: seq<Tree>): (items: seq<Item>)
    ensures |items| == |ts| && forall i | 0 <= i < |ts| :: items[i] == Item(false, ts[i])
  {
    seq(|ts|, i requires 0 <= i < |ts| => Item(false, ts[i]))
  }

  ghost function Opened(items: seq<Item>): seq<Item>
    requires items != []
  {
    Init(items) + [Item(true, Last(items).tree)] + Unvisited(SubTrees(Last(items).tree))
  }

  // Trees above change no counts; their places come first, from the last tree on.
  lemma {:induction false} UnvisitedAbove(items: seq<Item>, ts: seq<Tree>)
    ensures Closed(items + Unvisited(ts)) == Closed(items)
    ensures forall a :: Depth(items + Unvisited(ts), a) == Depth(items, a)
    ensures Rest(items + Unvisited(ts)) == AllOccurrences(ts, Closed(items)) + Rest(items)
    decreases |ts|
  {
    var all := items + Unvisited(ts);
    if ts == [] {
      assert all == items;
    } else {
      UnvisitedAbove(items, Init(ts));
      assert Unvisited(ts) == Unvisited(Init(ts)) + [Item(false, Last(ts))];
      assert Init(all) == items + Unvisited(Init(ts)) && Last(all) == Item(false, Last(ts));
      Assoc(Occurrences(Last(ts), Closed(items)), AllOccurrences(Init(ts), Closed(items)), Rest(items));
    }
  }

  lemma PartsOccur(t: Tree, closed: set<Fact>)
    requires !t.AssumeTree?
    ensures AllOccurrences(SubTrees(t), closed + ClosedBy(t)) == Occurrences(t, closed)
  {
    if t.ApplyTree? {
      assert closed + ClosedBy(t) == closed;
    } else {
      assert [t.body][..0] == [];
      assert AllOccurrences([], closed + t.closed) == [];
    }
  }

  lemma MarkOnTop(items: seq<Item>, t: Tree)
    ensures Closed(items + [Item(true, t)]) == Closed(items) + ClosedBy(t)
    ensures Rest(items + [Item(true, t)]) == Rest(items)
  {
    Snoc(items, Item(true, t));
    NothingAbove(Rest(items));
  }

  lemma NothingAbove(places: seq<Occurrence>)
    ensures [] + places == places
  {
  }

  lemma OpenedRest(items: seq<Item>)
    requires items != [] && !Last(items).mark && !Last(items).tree.AssumeTree?
    ensures Rest(Opened(items)) == Rest(items)
  {
    var t := Last(items).tree;
    MarkOnTop(Init(items), t);
    UnvisitedAbove(Init(items) + [Item(true, t)], SubTrees(t));
    PartsOccur(t, Closed(Init(items)));
  }

  lemma OpenStack(steps: Steps, places: seq<Occurrence>, items: seq<Item>)
    requires StackOk(steps, places, items)
    requires items != [] && !Last(items).mark && !Last(items).tree.AssumeTree?
    ensures StackOk(steps, places, Opened(items))
  {
    var top, t, items' := |items| - 1, Last(items).tree, Opened(items);
    assert ItemOk(steps, items, top);
    assert forall q | top < q < |items'| :: items'[q].tree in SubTrees(t);
    forall p | 0 <= p < |items'|
      ensures ItemOk(steps, items', p)
    {
      assert p < top ==> ItemOk(steps, items, p);
      BuiltParts(t, steps);
    }
    forall p | 0 <= p < |items'|
      ensures PartsOk(places, items', p)
    {
      forall c | items'[p].mark && c in SubTrees(items'[p].tree)
        ensures AssumeNodes(c) <= MetNodes(places) || Waiting(items', p, c)
      {
        if p < top {
          assert PartsOk(places, items, p) && (AssumeNodes(c) <= MetNodes(places) || Waiting(items, p, c));
          if Waiting(items, p, c) {
            var q :| p < q < |items| && items[q].tree == c;
            assert items'[q].tree == c;
          }
        } else {
          var k :| 0 <= k < |SubTrees(t)| && SubTrees(t)[k] == c;
          assert items'[top + 1 + k].tree == c;
        }
      }
    }
  }

  lemma BuiltParts(t: Tree, steps: Steps)
    requires Built(t, steps)
    ensures forall c | c in SubTrees(t) :: Built(c, steps)
  {
  }

  lemma OpenStep(root: Tree, steps: Steps, places: seq<Occurrence>, amap: Assumptions, visited: map<ProofNode, bool>,
                 trees: map<ProofNode, Tree>, items: seq<Item>)
    requires Walking(root, steps, places, amap, visited, trees, items) && items != []
    requires !Last(items).tree.AssumeTree? && Last(items).tree.node !in visited
    ensures !Last(items).mark
    ensures var t := Last(items).tree;
      Walking(root, steps, places, amap, visited[t.node := false], trees[t.node := t], Opened(items))
  {
    assert ItemOk(steps, items, |items| - 1);
    OpenStack(steps, places, items);
    OpenedRest(items);
    OpenVisited(steps, places, visited, trees, items);
  }

  lemma OpenVisited(steps: Steps, places: seq<Occurrence>, visited: map<ProofNode, bool>,
                    trees: map<ProofNode, Tree>, items: seq<Item>)
    requires VisitedOk(steps, places, visited, trees, items) && items != [] && !Last(items).mark
    requires Built(Last(items).tree, steps) && Last(items).tree.node !in visited
    ensures var t := Last(items).tree;
      VisitedOk(steps, places, visited[t.node := false], trees[t.node := t], Opened(items))
  {
    var top, t, items' := |items| - 1, Last(items).tree, Opened(items);
    var visited', trees' := visited[t.node := false], trees[t.node := t];
    forall n | n in visited'
      ensures DoneOk(steps, places, visited', trees', n)
    {
      assert n != t.node ==> DoneOk(steps, places, visited, trees, n);
    }
    forall n | n in visited' && !visited'[n]
      ensures Marked(items', n)
    {
      if n == t.node {
        assert items'[top].mark && items'[top].tree.node == n;
      } else {
        assert Marked(items, n);
        var p :| 0 <= p < |items| && items[p].mark && items[p].tree.node == n;
        assert items'[p] == items[p];
      }
    }
    assert forall p | 0 <= p < |items'| && items'[p].mark :: p < top ==> items'[p] == items[p];
  }

  // ---- the counts of scopes

  lemma PushCount(scopeDepth: map<Fact, nat>, items: seq<Item>, scopeDepth': map<Fact, nat>)
    requires items != [] && !Last(items).mark && CountOk(scopeDepth, items)
    requires var closed := ClosedBy(Last(items).tree);
      scopeDepth' == map a | a in scopeDepth.Keys + closed ::
        (if a in scopeDepth then scopeDepth[a] else 0) + (if a in closed then 1 else 0)
    ensures CountOk(scopeDepth', Opened(items))
  {
    var t := Last(items).tree;
    var marked := Init(items) + [Item(true, t)];
    UnvisitedAbove(marked, SubTrees(t));
    assert Init(marked) == Init(items) && Last(marked) == Item(true, t);
    assert forall a :: Depth(items, a) == Depth(Init(items), a);
  }

  lemma PopCount(scopeDepth: map<Fact, nat>, items: seq<Item>, scopeDepth': map<Fact, nat>)
    requires items != [] && Last(items).mark && CountOk(scopeDepth, items)
    requires var closed := ClosedBy(Last(items).tree);
      scopeDepth' == map a | a in scopeDepth && !(a in closed && scopeDepth[a] == 1) ::
        if a in closed && scopeDepth[a] > 0 then scopeDepth[a] - 1 else scopeDepth[a]
    ensures CountOk(scopeDepth', Init(items))
  {
    assert forall a :: Depth(items, a) == Depth(Init(items), a) + if a in ClosedBy(Last(items).tree) then 1 else 0;
  }

  // ---- the source's loop

  function ChildrenOf(step: Step): seq<ProofNode> {
    match step
    case AssumeNode(_) => []
    case ScopeNode(_, body, _) => [body]
    case ApplyNode(_, premises, _) => premises
  }

  lemma NodesOpened(items: seq<Item>)
    requires items != []
    ensures Nodes(Init(items)) == Init(Nodes(items))
    ensures Nodes(Opened(items)) ==
      Nodes(Init(items)) + [Last(items).tree.node] + ChildrenOf(StepOf(Last(items).tree))
  {
  }

  // The facts that a scope closes are counted when it is entered,
  method EnterScope(scopeDepth: map<Fact, nat>, closed: set<Fact>) returns (scopeDepth': map<Fact, nat>)
    ensures scopeDepth' == map a | a in scopeDepth.Keys + closed ::
      (if a in scopeDepth then scopeDepth[a] else 0) + (if a in closed then 1 else 0)
  {
    scopeDepth' := scopeDepth;
    var left := closed;
    while left != {}
      invariant left <= closed
      invariant scopeDepth' == map a | a in scopeDepth.Keys + (closed - left) ::
        (if a in scopeDepth then scopeDepth[a] else 0) + (if a in closed - left then 1 else 0)
      decreases left
    {
      var a :| a in left;
      left := left - {a};
      scopeDepth' := scopeDepth'[a := (if a in scopeDepth' then scopeDepth'[a] else 0) + 1];
    }
  }

  // and uncounted when it is left.
  method LeaveScope(scopeDepth: map<Fact, nat>, closed: set<Fact>) returns (scopeDepth': map<Fact, nat>)
    requires forall a | a in closed :: a in scopeDepth && scopeDepth[a] > 0
    ensures scopeDepth' == map a | a in scopeDepth && !(a in closed && scopeDepth[a] == 1) ::
      if a in closed && scopeDepth[a] > 0 then scopeDepth[a] - 1 else scopeDepth[a]
  {
    scopeDepth' := scopeDepth;
    var left := closed;
    while left != {}
      invariant left <= closed
      invariant scopeDepth' == map a | a in scopeDepth && !(a in closed - left && scopeDepth[a] == 1) ::
        if a in closed - left && scopeDepth[a] > 0 then scopeDepth[a] - 1 else scopeDepth[a]
      decreases left
    {
      var a :| a in left;
      left := left - {a};
      scopeDepth' := scopeDepth'[a := scopeDepth'[a] - 1];
      if scopeDepth'[a] == 0 {
        scopeDepth' := scopeDepth' - {a};
      }
    }
  }

  // The variables of the loop.
  datatype Walk = Walk(
    visit: seq<ProofNode>,
    visited: map<ProofNode, bool>,
    scopeDepth: map<Fact, nat>,
    amap: Assumptions)

  ghost predicate WalkOk(root: Tree, steps: Steps, places: seq<Occurrence>, w: Walk, trees: map<ProofNode, Tree>,
                         items: seq<Item>) {
    && Walking(root, steps, places, w.amap, w.visited, trees, items)
    && w.visit == Nodes(items) && CountOk(w.scopeDepth, items)
  }

  lemma TopHolds(root: Tree, steps: Steps, places: seq<Occurrence>, w: Walk, trees: map<ProofNode, Tree>,
                 items: seq<Item>)
    requires WalkOk(root, steps, places, w, trees, items) && w.visit != []
    ensures items != []
    ensures var t := Last(items).tree;
      w.visit[|w.visit| - 1] == t.node && t.node in steps && steps[t.node] == StepOf(t) && Built(t, steps)
  {
    assert ItemOk(steps, items, |items| - 1);
  }

  // cur, which has been popped, is met for the first time.
  method PreVisit(cur: ProofNode, w: Walk, ghost w0: Walk, ghost root: Tree, ghost steps: Steps,
                  ghost places: seq<Occurrence>, ghost trees: map<ProofNode, Tree>, ghost items: seq<Item>)
    returns (w': Walk, ghost places': seq<Occurrence>, ghost trees': map<ProofNode, Tree>, ghost items': seq<Item>)
    requires WalkOk(root, steps, places, w0, trees, items) && items != [] && Last(items).tree.node == cur
    requires w == w0.(visit := Init(w0.visit)) && cur !in w.visited && cur.step == StepOf(Last(items).tree)
    ensures WalkOk(root, steps, places', w', trees', items') && w'.visited.Keys == w.visited.Keys + {cur}
  {
    ghost var t := Last(items).tree;
    w' := w;
    trees' := trees[cur := t];
    if cur.step.AssumeNode? {
      w' := w'.(visited := w'.visited[cur := true]);
      w' := ListUnlessClosed(cur, w', w0, root, steps, places, trees, items);
      places', items' := places + Occurrences(t, Closed(Init(items))), Init(items);
    } else {
      w' := Open(cur, w', w0, root, steps, places, trees, items);
      places', items' := places, Opened(items);
    }
  }

  // The children of the node, which has been popped, are put on the stack above its mark.
  method Open(cur: ProofNode, w: Walk, ghost w0: Walk, ghost root: Tree, ghost steps: Steps,
              ghost places: seq<Occurrence>, ghost trees: map<ProofNode, Tree>, ghost items: seq<Item>)
    returns (w': Walk)
    requires WalkOk(root, steps, places, w0, trees, items) && items != [] && Last(items).tree.node == cur
    requires w == w0.(visit := Init(w0.visit)) && cur !in w.visited
    requires cur.step == StepOf(Last(items).tree) && !cur.step.AssumeNode?
    ensures w'.visited.Keys == w.visited.Keys + {cur}
    ensures WalkOk(root, steps, places, w', trees[cur := Last(items).tree], Opened(items))
  {
    w' := w;
    NodesOpened(items);
    if cur.step.ScopeNode? {
      var scopeDepth := EnterScope(w'.scopeDepth, cur.step.closed);
      w' := w'.(scopeDepth := scopeDepth);
    }
    w' := w'.(visited := w'.visited[cur := false], visit := w'.visit + [cur] + ChildrenOf(cur.step));
    OpenStep(root, steps, places, w.amap, w.visited, trees, items);
    PushCount(w.scopeDepth, items, w'.scopeDepth);
  }

  // An assumption that no scope closes is listed.
  method ListUnlessClosed(cur: ProofNode, w: Walk, ghost w0: Walk, ghost root: Tree, ghost steps: Steps,
                          ghost places: seq<Occurrence>, ghost trees: map<ProofNode, Tree>, ghost items: seq<Item>)
    returns (w': Walk)
    requires WalkOk(root, steps, places, w0, trees, items) && items != [] && Last(items).tree.node == cur
    requires w == w0.(visit := Init(w0.visit), visited := w0.visited[cur := true]) && cur !in w0.visited
    requires cur.step == StepOf(Last(items).tree) && cur.step.AssumeNode?
    ensures w'.visited == w.visited
    ensures WalkOk(root, steps, places + Occurrences(Last(items).tree, Closed(Init(items))), w',
                   trees[cur := Last(items).tree], Init(items))
  {
    var a := cur.step.fact;
    NodesOpened(items);
    ClosedIffDepth(items, a);
    w' := w;
    if a !in w.scopeDepth {
      w' := w'.(amap := w'.amap[a := (if a in w'.amap then w'.amap[a] else []) + [cur]]);
    }
    AssumeStep(root, steps, places, w0.amap, w0.visited, trees, items, w'.amap);
    UnmarkedCount(w.scopeDepth, items);
  }

  lemma UnmarkedCount(scopeDepth: map<Fact, nat>, items: seq<Item>)
    requires items != [] && !Last(items).mark && CountOk(scopeDepth, items)
    ensures CountOk(scopeDepth, Init(items))
  {
    assert forall a :: Depth(items, a) == Depth(Init(items), a);
  }

  // cur, which has been popped, was marked: its parts have been visited.
  method PostVisit(cur: ProofNode, w: Walk, ghost w0: Walk, ghost root: Tree, ghost steps: Steps,
                   ghost places: seq<Occurrence>, ghost trees: map<ProofNode, Tree>, ghost items: seq<Item>)
    returns (w': Walk)
    requires WalkOk(root, steps, places, w0, trees, items) && items != [] && Last(items).tree.node == cur
    requires w == w0.(visit := Init(w0.visit)) && cur in w.visited && !w.visited[cur]
    requires cur.step == StepOf(Last(items).tree)
    ensures WalkOk(root, steps, places, w', trees, Init(items)) && w'.visited.Keys == w.visited.Keys
    ensures w'.visit == w.visit
  {
    NodesOpened(items);
    CloseStep(root, steps, places, w.amap, w.visited, trees, items);
    w' := w.(visited := w.visited[cur := true]);
    if cur.step.ScopeNode? {
      forall a | a in cur.step.closed
        ensures a in w.scopeDepth && w.scopeDepth[a] > 0
      {
        assert Depth(items, a) > 0;
      }
      var scopeDepth := LeaveScope(w'.scopeDepth, cur.step.closed);
      w' := w'.(scopeDepth := scopeDepth);
    }
    PopCount(w.scopeDepth, items, w'.scopeDepth);
  }

  // getFreeAssumptionsMap: the nodes listed for a fact are those that the search meets free. They are all nodes where
  // the fact is a free assumption iff each of them stands at a free place first. The test for cyclic proofs is left
  // out: a tree has none.
  method GetFreeAssumptionsMap(pn: ProofNode, ghost root: Tree, ghost steps: Steps) returns (amap: Assumptions)
    requires root.node == pn && Built(root, steps) && forall n | n in steps :: n.step == steps[n]
    ensures amap.Keys == ListedFacts(Occurrences(root, {}))
    ensures forall a :: NodesFor(amap, a) == ListedNodes(Occurrences(root, {}), a)
    ensures (forall a :: NodesFor(amap, a) == FreeNodes(root, a)) <==> FreeFirst(Occurrences(root, {}))
    ensures FreeFirst(Occurrences(root, {})) ==> amap.Keys == FreeAssumptions(ProofOf(root))
  {
    var w := Walk([pn], map[], map[], map[]);
    ghost var places: seq<Occurrence>, trees: map<ProofNode, Tree>, items := [], map[], [Item(false, root)];
    StartWalk(root, steps);
    while w.visit != []
      invariant WalkOk(root, steps, places, w, trees, items)
      decreases steps.Keys - w.visited.Keys, |w.visit|
    {
      var cur := w.visit[|w.visit| - 1];
      TopHolds(root, steps, places, w, trees, items);
      ghost var w0 := w;
      w := w.(visit := w.visit[..|w.visit| - 1]);
      if cur !in w.visited {
        w, places, trees, items := PreVisit(cur, w, w0, root, steps, places, trees, items);
        assert cur in steps.Keys - w0.visited.Keys;
      } else if !w.visited[cur] {
        w := PostVisit(cur, w, w0, root, steps, places, trees, items);
        items := Init(items);
      } else {
        SkipStep(root, steps, places, w.amap, w.visited, trees, items);
        NodesOpened(items);
        UnmarkedCount(w.scopeDepth, items);
        places, items := places + Occurrences(Last(items).tree, Closed(Init(items))), Init(items);
      }
    }
    AllListed(root, steps, places, w.amap);
    amap := w.amap;
  }

  lemma AllListed(root: Tree, steps: Steps, places: seq<Occurrence>, amap: Assumptions)
    requires Built(root, steps) && Occurrences(root, {}) == places + [] && ListsMet(amap, places)
    ensures amap.Keys == ListedFacts(Occurrences(root, {}))
    ensures forall a :: NodesFor(amap, a) == ListedNodes(Occurrences(root, {}), a)
    ensures (forall a :: NodesFor(amap, a) == FreeNodes(root, a)) <==> FreeFirst(Occurrences(root, {}))
    ensures FreeFirst(Occurrences(root, {})) ==> amap.Keys == FreeAssumptions(ProofOf(root))
  {
    assert places + [] == places;
    ListedIffFreeFirst(root, steps);
    ListedFactsIff(root, steps);
    forall a | a in amap
      ensures a in ListedFacts(places)
    {
      assert amap[a][0] in NodesFor(amap, a) && amap[a][0] in ListedNodes(places, a);
    }
    forall o | o in places && MetFree(places, o.node)
      ensures o.fact in amap
    {
      assert o.node in ListedNodes(places, o.fact) && o.node in NodesFor(amap, o.fact);
    }
  }

  lemma StartWalk(root: Tree, steps: Steps)
    requires Built(root, steps)
    ensures WalkOk(root, steps, [], Walk([root.node], map[], map[], map[]), map[], [Item(false, root)])
  {
    var items := [Item(false, root)];
    assert items[..0] == [] && Init(items) == [];
    assert Rest(items) == Occurrences(root, {}) + [];
    assert forall a :: Depth(items, a) == 0;
    assert forall a :: NodesFor(map[], a) == {} == ListedNodes([], a);
  }

  // If a node stands under a scope and outside it, and the scope comes last, the assumption is missed although it is
  // free.
  lemma SharedWithScope(top: ProofNode, scope: ProofNode, n: ProofNode, a: Fact, c: Fact)
    requires top != scope && top != n && scope != n
    ensures var root := ApplyTree(top, 0, [AssumeTree(n, a), ScopeTree(scope, {a}, AssumeTree(n, a), c)], c);
      && (exists steps :: Built(root, steps))
      && a in FreeAssumptions(ProofOf(root)) && ListedFacts(Occurrences(root, {})) == {}
      && !FreeFirst(Occurrences(root, {}))
  {
    var leaf := AssumeTree(n, a);
    var under := ScopeTree(scope, {a}, leaf, c);
    var root := ApplyTree(top, 0, [leaf, under], c);
    var steps: Steps := map[top := StepOf(root), scope := StepOf(under), n := StepOf(leaf)];
    assert Built(leaf, steps) && Built(under, steps) && Built(root, steps);
    var closed, free := Occurrence(n, a, false), Occurrence(n, a, true);
    assert a in {} + {a};
    assert Occurrences(under, {}) == [closed];
    assert [leaf, under][..1] == [leaf] && [leaf][..0] == [];
    assert AllOccurrences([leaf], {}) == [free];
    assert Occurrences(root, {}) == [closed, free];
    assert free in Occurrences(root, {});
    FreeNodesOccur(root, {}, n, a);
    FreeNodeAssumes(root, a, n);
  }
}
