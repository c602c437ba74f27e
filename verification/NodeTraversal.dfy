/** Traversals of terms as directed acyclic graphs, with explicit stacks: NodeDfsIterator and TopologicalSort. */
module NodeTraversal {
  import opened Options
  import opened Terms
  import opened Sequences

  // ---- the recursive search

  // The visits and the nodes seen. A node that has been seen or is to be skipped is left out with what is below it. The
  // children are searched from the first on; post says whether a node comes after or before them.
  function Search(n: Node, seen: set<Node>, skip: Node -> bool, post: bool): (r: (seq<Node>, set<Node>))
    decreases n
  {
    if n in seen || skip(n) then ([], seen)
    else if !n.Apply? then ([n], seen + {n})
    else
      var (v, s) := SearchAll(n.args, seen + {n}, skip, post);
      (if post then v + [n] else [n] + v, s)
  }

  function SearchAll(ns: seq<Node>, seen: set<Node>, skip: Node -> bool, post: bool): (r: (seq<Node>, set<Node>))
    decreases ns
  {
    if ns == [] then ([], seen)
    else
      var (v, s) := Search(ns[0], seen, skip, post);
      var (v', s') := SearchAll(ns[1..], s, skip, post);
      (v + v', s')
  }

  // The visits are new, none is made twice, and they are what has been seen in addition.
  ghost predicate VisitsOnce(v: seq<Node>, s: set<Node>, seen: set<Node>) {
    && Distinct(v)
    && (forall m | m in v :: m !in seen)
    && (forall m :: m in s <==> m in seen || m in v)
  }

  lemma VisitsConcat(v: seq<Node>, s: set<Node>, seen: set<Node>, v': seq<Node>, s': set<Node>)
    requires VisitsOnce(v, s, seen) && VisitsOnce(v', s', s)
    ensures VisitsOnce(v + v', s', seen)
  {
    forall i, j | 0 <= i < j < |v + v'|
      ensures (v + v')[i] != (v + v')[j]
    {
      if i < |v| <= j {
        assert v[i] in v && v'[j - |v|] in v';
      }
    }
    assert forall m :: m in v + v' <==> m in v || m in v';
  }

  lemma FirstAndRest(ns: seq<Node>)
    requires ns != []
    ensures ns[0] in ns && forall m :: m in ns <==> m == ns[0] || m in ns[1..]
  {
    assert ns == [ns[0]] + ns[1..];
  }

  lemma ChildrenBelow(n: Node)
    ensures forall c | c in Children(n) :: c < n
  {
    forall c | c in Children(n)
      ensures c < n
    {
      assert c in Parts(n);
    }
  }

  lemma {:induction false} SearchOnce(n: Node, seen: set<Node>, skip: Node -> bool, post: bool)
    ensures var r := Search(n, seen, skip, post); VisitsOnce(r.0, r.1, seen)
    decreases n
  {
    if n !in seen && !skip(n) && n.Apply? {
      SearchAllOnce(n.args, seen + {n}, skip, post);
      var (v, s) := SearchAll(n.args, seen + {n}, skip, post);
      assert forall m :: m in v + [n] <==> m in v || m == n;
      assert forall m :: m in [n] + v <==> m in v || m == n;
    }
  }

  lemma {:induction false} SearchAllOnce(ns: seq<Node>, seen: set<Node>, skip: Node -> bool, post: bool)
    ensures var r := SearchAll(ns, seen, skip, post); VisitsOnce(r.0, r.1, seen)
    decreases ns
  {
    if ns != [] {
      var first, rest := ns[0], ns[1..];
      FirstAndRest(ns);
      SearchOnce(first, seen, skip, post);
      var (v, s) := Search(first, seen, skip, post);
      SearchAllOnce(rest, s, skip, post);
      var (v', s') := SearchAll(rest, s, skip, post);
      VisitsConcat(v, s, seen, v', s');
    }
  }

  // ---- in post-order children come first

  // Each child of the i-th visit that is not skipped was seen before or is visited before it.
  ghost predicate ChildrenFirst(v: seq<Node>, seen: set<Node>, skip: Node -> bool, i: nat)
    requires i < |v|
  {
    forall c | c in Children(v[i]) && !skip(c) :: c in seen || c in v[..i]
  }

  ghost predicate PostOrder(v: seq<Node>, seen: set<Node>, skip: Node -> bool) {
    forall i {:trigger ChildrenFirst(v, seen, skip, i)} | 0 <= i < |v| :: ChildrenFirst(v, seen, skip, i)
  }

  lemma PostOrderConcat(v: seq<Node>, s: set<Node>, seen: set<Node>, v': seq<Node>, skip: Node -> bool)
    requires PostOrder(v, seen, skip) && PostOrder(v', s, skip) && VisitsOnce(v, s, seen)
    ensures PostOrder(v + v', seen, skip)
  {
    forall i | 0 <= i < |v + v'|
      ensures ChildrenFirst(v + v', seen, skip, i)
    {
      if i < |v| {
        assert ChildrenFirst(v, seen, skip, i) && (v + v')[..i] == v[..i];
      } else {
        assert ChildrenFirst(v', s, skip, i - |v|) && (v + v')[..i] == v + v'[..i - |v|];
      }
    }
  }

  // seen may hold n: the nodes whose children are being searched, which are not below n again.
  lemma {:induction false} SearchPostOrder(n: Node, seen: set<Node>, skip: Node -> bool)
    ensures PostOrder(Search(n, seen, skip, true).0, seen, skip)
    ensures skip(n) || n in Search(n, seen, skip, true).1
    decreases n
  {
    if n !in seen && !skip(n) && n.Apply? {
      SearchOnce(n, seen, skip, true);
      ChildrenBelow(n);
      SearchAllPostOrder(n.args, seen + {n}, skip, n);
      SearchAllOnce(n.args, seen + {n}, skip, true);
      var (v, s) := SearchAll(n.args, seen + {n}, skip, true);
      forall i | 0 <= i < |v + [n]|
        ensures ChildrenFirst(v + [n], seen, skip, i)
      {
        assert (v + [n])[..i] == v[..i];
        assert i < |v| ==> ChildrenFirst(v, seen + {n}, skip, i) && v[i] in v;
        assert forall c | c in Children((v + [n])[i]) :: c < (v + [n])[i];
      }
    }
  }

  // All visits are at or below the nodes searched, so that n, above them all, is not among their children.
  lemma {:induction false} SearchAllPostOrder(ns: seq<Node>, seen: set<Node>, skip: Node -> bool,
                                              n: Node)
    requires forall m | m in ns :: m < n
    ensures var r := SearchAll(ns, seen, skip, true);
      PostOrder(r.0, seen, skip) && forall m | m in ns :: skip(m) || m in r.1
    ensures forall m | m in SearchAll(ns, seen, skip, true).0 :: m < n
    decreases ns
  {
    if ns != [] {
      var first, rest := ns[0], ns[1..];
      FirstAndRest(ns);
      SearchPostOrder(first, seen, skip);
      SearchOnce(first, seen, skip, true);
      SearchBelow(first, seen, skip, n);
      var (v, s) := Search(first, seen, skip, true);
      SearchAllPostOrder(rest, s, skip, n);
      SearchAllOnce(rest, s, skip, true);
      var (v', s') := SearchAll(rest, s, skip, true);
      PostOrderConcat(v, s, seen, v', skip);
    }
  }

  lemma {:induction false} SearchBelow(n: Node, seen: set<Node>, skip: Node -> bool, above: Node)
    requires n < above
    ensures forall m | m in Search(n, seen, skip, true).0 :: m < above
    decreases n
  {
    if n !in seen && !skip(n) && n.Apply? {
      ChildrenBelow(n);
      SearchAllBelow(n.args, seen + {n}, skip, above);
    }
  }

  lemma {:induction false} SearchAllBelow(ns: seq<Node>, seen: set<Node>, skip: Node -> bool,
                                          above: Node)
    requires forall m | m in ns :: m < above
    ensures forall m | m in SearchAll(ns, seen, skip, true).0 :: m < above
    decreases ns
  {
    if ns != [] {
      var first, rest := ns[0], ns[1..];
      FirstAndRest(ns);
      SearchBelow(first, seen, skip, above);
      SearchAllBelow(rest, Search(first, seen, skip, true).1, skip, above);
    }
  }

  // ---- NodeDfsIterator

  datatype VisitOrder = PREORDER | POSTORDER

  ghost function Marked(visited: map<Node, bool>, s: set<Node>): map<Node, bool> {
    map n | n in s :: if n in visited then visited[n] else true
  }

  // The visits that are to come: a node on the stack that has not been visited is searched, and one whose children have
  // been enqueued is post-visited.
  ghost function Future(stack: seq<Node>, visited: map<Node, bool>, skip: Node -> bool, post: bool): seq<Node>
    decreases |stack|
  {
    if stack == [] then []
    else
      var x, rest := stack[|stack| - 1], stack[..|stack| - 1];
      if x !in visited then
        var (v, s) := Search(x, visited.Keys, skip, post);
        v + Future(rest, Marked(visited, s), skip, post)
      else if post && !visited[x] then [x] + Future(rest, visited[x := true], skip, post)
      else Future(rest, visited, skip, post)
  }

  function Reversed(ns: seq<Node>): seq<Node> {
    if ns == [] then [] else Reversed(ns[1..]) + [ns[0]]
  }

  ghost predicate Grey(visited: map<Node, bool>, n: Node) {
    n in visited && !visited[n]
  }

  lemma {:induction false} SearchSees(n: Node, seen: set<Node>, skip: Node -> bool, post: bool)
    ensures seen <= Search(n, seen, skip, post).1
  {
    SearchOnce(n, seen, skip, post);
  }

  lemma SearchIs(n: Node, seen: set<Node>, skip: Node -> bool, post: bool)
    requires n !in seen && !skip(n)
    ensures var (v, s) := SearchAll(Children(n), seen + {n}, skip, post);
      Search(n, seen, skip, post) == (if post then v + [n] else [n] + v, s)
  {
    if !n.Apply? {
      assert Children(n) == [] && [] + [n] == [n] == [n] + [];
    }
  }

  // A node on the stack that is not being expanded is searched, or was visited before.
  lemma FutureOfTop(stack: seq<Node>, x: Node, visited: map<Node, bool>, skip: Node -> bool, post: bool)
    requires post ==> !Grey(visited, x)
    ensures var (v, s) := Search(x, visited.Keys, skip, post);
      Future(stack + [x], visited, skip, post) == v + Future(stack, Marked(visited, s), skip, post)
  {
    assert (stack + [x])[..|stack|] == stack;
    if x in visited {
      assert Marked(visited, visited.Keys) == visited;
    }
  }

  lemma FutureOfRoot(n: Node, skip: Node -> bool, post: bool)
    ensures Future([n], map[], skip, post) == Search(n, {}, skip, post).0
  {
    var none: map<Node, bool> := map[];
    assert none.Keys == {} && [n] == [] + [n];
    FutureOfTop([], n, none, skip, post);
  }

  lemma MarkedTwice(visited: map<Node, bool>, s: set<Node>, s': set<Node>)
    requires visited.Keys <= s <= s'
    ensures Marked(visited, s).Keys == s && Marked(Marked(visited, s), s') == Marked(visited, s')
    ensures forall n :: Grey(Marked(visited, s), n) <==> Grey(visited, n)
  {
  }

  // The nodes ns, enqueued in reverse, are searched in order. None of them is being expanded.
  lemma {:induction false} EnqueuedSearched(stack: seq<Node>, ns: seq<Node>, visited: map<Node, bool>,
                                            skip: Node -> bool, post: bool)
    requires post ==> forall c | c in ns :: !Grey(visited, c)
    ensures var (v, s) := SearchAll(ns, visited.Keys, skip, post);
      Future(stack + Reversed(ns), visited, skip, post) == v + Future(stack, Marked(visited, s), skip, post)
    decreases |ns|
  {
    if ns == [] {
      assert Marked(visited, visited.Keys) == visited && stack + [] == stack;
    } else {
      var below := stack + Reversed(ns[1..]);
      assert stack + Reversed(ns) == below + [ns[0]];
      FutureOfTop(below, ns[0], visited, skip, post);
      var s := Search(ns[0], visited.Keys, skip, post).1;
      var s' := SearchAll(ns[1..], s, skip, post).1;
      SearchSees(ns[0], visited.Keys, skip, post);
      SearchAllOnce(ns[1..], s, skip, post);
      MarkedTwice(visited, s, s');
      assert forall c | c in ns[1..] :: c in ns;
      EnqueuedSearched(stack, ns[1..], Marked(visited, s), skip, post);
      SearchAllIs(ns, visited.Keys, skip, post);
      Assoc(Search(ns[0], visited.Keys, skip, post).0, SearchAll(ns[1..], s, skip, post).0,
            Future(stack, Marked(visited, s'), skip, post));
    }
  }

  lemma SearchAllIs(ns: seq<Node>, seen: set<Node>, skip: Node -> bool, post: bool)
    requires ns != []
    ensures var (v, s) := Search(ns[0], seen, skip, post);
      var (v', s') := SearchAll(ns[1..], s, skip, post);
      SearchAll(ns, seen, skip, post) == (v + v', s')
  {
  }

  // In pre-order only which nodes have been visited matters.
  lemma {:induction false} FutureOfKeys(stack: seq<Node>, visited: map<Node, bool>, visited': map<Node, bool>,
                                        skip: Node -> bool)
    requires visited.Keys == visited'.Keys
    ensures Future(stack, visited, skip, false) == Future(stack, visited', skip, false)
    decreases |stack|
  {
    if stack != [] {
      var x, rest := stack[|stack| - 1], stack[..|stack| - 1];
      if x !in visited {
        var s := Search(x, visited.Keys, skip, false).1;
        FutureOfKeys(rest, Marked(visited, s), Marked(visited', s), skip);
      } else {
        FutureOfKeys(rest, visited, visited', skip);
      }
    }
  }

  // A pre-visit: the node stays on the stack and its children are enqueued.
  lemma PreVisitPost(stack: seq<Node>, visited: map<Node, bool>, skip: Node -> bool)
    requires stack != []
    requires var x := stack[|stack| - 1]; x !in visited && !skip(x) && forall g | Grey(visited, g) :: x < g
    ensures var x := stack[|stack| - 1];
      Future(stack, visited, skip, true) == Future(stack + Reversed(Children(x)), visited[x := false], skip, true)
  {
    var x, rest := stack[|stack| - 1], stack[..|stack| - 1];
    var visited' := visited[x := false];
    ChildrenBelow(x);
    forall c | c in Children(x)
      ensures !Grey(visited', c)
    {
      assert c < x;
      assert Grey(visited', c) ==> c == x || Grey(visited, c);
    }
    EnqueuedSearched(stack, Children(x), visited', skip, true);
    var (v, s) := SearchAll(Children(x), visited.Keys + {x}, skip, true);
    assert visited'.Keys == visited.Keys + {x};
    SearchAllOnce(Children(x), visited'.Keys, skip, true);
    SearchIs(x, visited.Keys, skip, true);
    var after := Marked(visited, s);
    assert Marked(visited', s)[x := true] == after;
    Assoc(v, [x], Future(rest, after, skip, true));
  }

  lemma PreVisitPre(stack: seq<Node>, visited: map<Node, bool>, skip: Node -> bool)
    requires stack != [] && stack[|stack| - 1] !in visited && !skip(stack[|stack| - 1])
    ensures var x := stack[|stack| - 1];
      Future(stack, visited, skip, false) ==
        [x] + Future(stack + Reversed(Children(x)), visited[x := false], skip, false)
  {
    var x, rest := stack[|stack| - 1], stack[..|stack| - 1];
    var visited' := visited[x := false];
    EnqueuedSearched(stack, Children(x), visited', skip, false);
    var (v, s) := SearchAll(Children(x), visited.Keys + {x}, skip, false);
    assert visited'.Keys == visited.Keys + {x};
    SearchAllOnce(Children(x), visited'.Keys, skip, false);
    SearchIs(x, visited.Keys, skip, false);
    var after := Marked(visited, s);
    FutureOfKeys(rest, Marked(visited', s), after, skip);
    Assoc([x], v, Future(rest, after, skip, false));
  }

  // Each node that is being expanded is on the stack, and above it are nodes below it in the graph only.
  ghost predicate GreysOnStack(stack: seq<Node>, visited: map<Node, bool>) {
    forall g | Grey(visited, g) :: OnStack(stack, g)
  }

  ghost predicate OnStack(stack: seq<Node>, g: Node) {
    exists i :: MarkedAt(stack, g, i)
  }

  ghost predicate MarkedAt(stack: seq<Node>, g: Node, i: nat) {
    i < |stack| && stack[i] == g && forall j | i < j < |stack| :: stack[j] < g
  }

  lemma {:induction false} ReversedMembers(ns: seq<Node>)
    ensures |Reversed(ns)| == |ns| && forall m :: m in Reversed(ns) <==> m in ns
  {
    if ns != [] {
      ReversedMembers(ns[1..]);
      assert forall m :: m in ns <==> m == ns[0] || m in ns[1..];
    }
  }

  // A node that is being expanded and is not on the top is strictly above what is.
  lemma AboveTop(stack: seq<Node>, visited: map<Node, bool>, g: Node)
    requires GreysOnStack(stack, visited) && Grey(visited, g) && stack != [] && stack[|stack| - 1] != g
    ensures stack[|stack| - 1] < g && OnStack(stack[..|stack| - 1], g)
  {
    assert OnStack(stack, g);
    var i: nat :| MarkedAt(stack, g, i);
    assert MarkedAt(stack[..|stack| - 1], g, i);
  }

  lemma GreysAfterPop(stack: seq<Node>, visited: map<Node, bool>, visited': map<Node, bool>)
    requires GreysOnStack(stack, visited) && stack != []
    requires forall g | Grey(visited', g) :: Grey(visited, g) && g != stack[|stack| - 1]
    ensures GreysOnStack(stack[..|stack| - 1], visited')
  {
    forall g | Grey(visited', g)
      ensures OnStack(stack[..|stack| - 1], g)
    {
      AboveTop(stack, visited, g);
    }
  }

  lemma GreysAfterPreVisit(stack: seq<Node>, visited: map<Node, bool>)
    requires GreysOnStack(stack, visited) && stack != [] && stack[|stack| - 1] !in visited
    ensures var x := stack[|stack| - 1]; GreysOnStack(stack + Reversed(Children(x)), visited[x := false])
    ensures forall g | Grey(visited, g) :: stack[|stack| - 1] < g
  {
    var x := stack[|stack| - 1];
    var stack' := stack + Reversed(Children(x));
    ChildrenBelow(x);
    ReversedMembers(Children(x));
    forall g | Grey(visited[x := false], g)
      ensures OnStack(stack', g)
    {
      if g != x {
        AboveTop(stack, visited, g);
        var i: nat :| MarkedAt(stack[..|stack| - 1], g, i);
        forall j | i < j < |stack'|
          ensures stack'[j] < g
        {
          if j >= |stack| {
            assert stack'[j] in Reversed(Children(x));
          }
        }
        assert MarkedAt(stack', g, i);
      } else {
        forall j | |stack| - 1 < j < |stack'|
          ensures stack'[j] < x
        {
          assert stack'[j] in Reversed(Children(x));
        }
        assert MarkedAt(stack', x, |stack| - 1);
      }
    }
    forall g | Grey(visited, g)
      ensures x < g
    {
      AboveTop(stack, visited, g);
    }
  }

  class NodeDfsIterator {
    var stack: seq<Node>
    var visited: map<Node, bool>
    const order: VisitOrder
    var current: Option<Node>
    const skipIf: Node -> bool

    // The finite set of nodes that the traversal can come to.
    ghost var all: set<Node>

    // The visits that are to come after the current one.
    ghost function Remaining(): seq<Node>
      reads this
    {
      Future(stack, visited, skipIf, order.POSTORDER?)
    }

    ghost predicate Valid()
      reads this
    {
      && (forall i | 0 <= i < |stack| :: stack[i] in all)
      && (forall m {:trigger PartsIn(m, all)} | m in all :: PartsIn(m, all))
      && (order.POSTORDER? ==> GreysOnStack(stack, visited))
    }

    // All visits: before the first has been looked for, and afterwards.
    ghost function Visits(): seq<Node>
      reads this
    {
      (if current.Some? then [current.value] else []) + Remaining()
    }

    constructor (n: Node, order: VisitOrder, skipIf: Node -> bool)
      ensures Valid() && this.order == order && this.skipIf == skipIf
      ensures Visits() == Search(n, {}, skipIf, order.POSTORDER?).0
    {
      this.stack, this.visited, this.order, this.current, this.skipIf := [n], map[], order, None, skipIf;
      all := PartSet(n);
      new;
      PartSetClosed(n);
      FutureOfRoot(n, skipIf, order.POSTORDER?);
    }

    method AdvanceToNextVisit()
      requires Valid()
      modifies this`stack, this`visited, this`current
      ensures Valid()
      ensures current == if old(Remaining()) == [] then None else Some(old(Remaining())[0])
      ensures Visits() == old(Remaining())
    {
      ghost var future := Remaining();
      while stack != []
        invariant Valid() && Remaining() == future
        decreases all - visited.Keys, |stack|
      {
        var back := stack[|stack| - 1];
        assert stack[|stack| - 1] in all;
        if back !in visited {
          if skipIf(back) {
            Skip();
            continue;
          }
          Expand();
          if order.PREORDER? {
            current := Some(back);
            return;
          }
        } else if order.PREORDER? || visited[back] {
          Skip();
        } else {
          PostVisit();
          current := Some(back);
          return;
        }
      }
      current := None;
    }

    // The top of the stack is skipped.
    method Skip()
      requires Valid() && stack != []
      requires var back := stack[|stack| - 1];
        if back in visited then order.PREORDER? || visited[back] else skipIf(back)
      modifies this`stack
      ensures Valid() && Remaining() == old(Remaining()) && |stack| < |old(stack)|
    {
      if order.POSTORDER? {
        GreysAfterPop(stack, visited, visited);
      }
      assert Marked(visited, visited.Keys) == visited;
      stack := stack[..|stack| - 1];
    }

    // The pre-visit of the top of the stack.
    method Expand()
      requires Valid() && stack != [] && stack[|stack| - 1] !in visited && !skipIf(stack[|stack| - 1])
      modifies this`stack, this`visited
      ensures Valid() && visited.Keys == old(visited.Keys) + {old(stack)[|old(stack)| - 1]}
      ensures old(Remaining()) == (if order.PREORDER? then [old(stack)[|old(stack)| - 1]] else []) + Remaining()
    {
      var back := stack[|stack| - 1];
      if order.POSTORDER? {
        GreysAfterPreVisit(stack, visited);
        PreVisitPost(stack, visited, skipIf);
      } else {
        PreVisitPre(stack, visited, skipIf);
      }
      assert back in all && PartsIn(back, all);
      ReversedMembers(Children(back));
      visited := visited[back := false];
      ghost var stack0 := stack;
      stack := stack + Reversed(Children(back));
      forall i | 0 <= i < |stack|
        ensures stack[i] in all
      {
        if i >= |stack0| {
          assert stack[i] in Reversed(Children(back)) && stack[i] in Children(back) && stack[i] in Parts(back);
        }
      }
    }

    // The post-visit of the top of the stack.
    method PostVisit()
      requires Valid() && stack != [] && Grey(visited, stack[|stack| - 1]) && order.POSTORDER?
      modifies this`stack, this`visited
      ensures Valid() && old(Remaining()) == [old(stack)[|old(stack)| - 1]] + Remaining()
    {
      var back := stack[|stack| - 1];
      GreysAfterPop(stack, visited, visited[back := true]);
      visited := visited[back := true];
      stack := stack[..|stack| - 1];
    }

    method InitializeIfUninitialized()
      requires Valid()
      modifies this`stack, this`visited, this`current
      ensures Valid() && Visits() == old(Visits())
      ensures current.None? ==> Visits() == []
    {
      if current.None? {
        AdvanceToNextVisit();
      }
    }

    // operator++
    method Next()
      requires Valid()
      modifies this`stack, this`visited, this`current
      ensures Valid() && Visits() == if old(Visits()) == [] then [] else old(Visits())[1..]
    {
      InitializeIfUninitialized();
      AdvanceToNextVisit();
    }

    // operator*; None at the end.
    method Get() returns (n: Option<Node>)
      requires Valid()
      modifies this`stack, this`visited, this`current
      ensures Valid() && Visits() == old(Visits())
      ensures n == if Visits() == [] then None else Some(Visits()[0])
    {
      InitializeIfUninitialized();
      n := current;
    }

    // A loop up to end().
    method Rest() returns (visits: seq<Node>)
      requires Valid()
      modifies this`stack, this`visited, this`current
      ensures visits == old(Visits())
    {
      ghost var all := Visits();
      visits := [];
      var m := Get();
      while m.Some?
        invariant Valid() && visits + Visits() == all
        invariant m == if Visits() == [] then None else Some(Visits()[0])
        decreases |Visits()|
      {
        ghost var v := Visits();
        MoveFirst(visits, v);
        visits := visits + [m.value];
        Next();
        m := Get();
      }
    }
  }

  lemma MoveFirst(a: seq<Node>, b: seq<Node>)
    requires b != []
    ensures (a + [b[0]]) + b[1..] == a + b
  {
  }

  // What a loop from begin() to end() sees: in post-order and in pre-order, the visits of the recursive search.
  method Traverse(n: Node, order: VisitOrder, skipIf: Node -> bool) returns (visits: seq<Node>)
    ensures visits == Search(n, {}, skipIf, order.POSTORDER?).0
  {
    var it := new NodeDfsIterator(n, order, skipIf);
    visits := it.Rest();
  }

  // ---- what the traversal visits

  // m can be reached from n through children that are not skipped.
  ghost predicate Reaches(n: Node, m: Node, skip: Node -> bool) {
    !skip(n) && (m == n || exists c | c in Children(n) :: Reaches(c, m, skip))
  }

  lemma {:induction false} SearchReaches(n: Node, seen: set<Node>, skip: Node -> bool, post: bool)
    ensures forall m | m in Search(n, seen, skip, post).0 :: Reaches(n, m, skip)
    decreases n
  {
    if n !in seen && !skip(n) && n.Apply? {
      SearchAllReaches(n.args, seen + {n}, skip, post);
    }
  }

  lemma {:induction false} SearchAllReaches(ns: seq<Node>, seen: set<Node>, skip: Node -> bool, post: bool)
    ensures forall m | m in SearchAll(ns, seen, skip, post).0 :: exists c | c in ns :: Reaches(c, m, skip)
    decreases ns
  {
    if ns != [] {
      var first, rest := ns[0], ns[1..];
      FirstAndRest(ns);
      SearchReaches(first, seen, skip, post);
      SearchAllReaches(rest, Search(first, seen, skip, post).1, skip, post);
    }
  }

  // Which nodes are visited does not depend on the order of the visits.
  lemma {:induction false} SeenInEitherOrder(n: Node, seen: set<Node>, skip: Node -> bool)
    ensures Search(n, seen, skip, true).1 == Search(n, seen, skip, false).1
    decreases n
  {
    if n !in seen && !skip(n) && n.Apply? {
      AllSeenInEitherOrder(n.args, seen + {n}, skip);
    }
  }

  lemma {:induction false} AllSeenInEitherOrder(ns: seq<Node>, seen: set<Node>, skip: Node -> bool)
    ensures SearchAll(ns, seen, skip, true).1 == SearchAll(ns, seen, skip, false).1
    decreases ns
  {
    if ns != [] {
      var first, rest := ns[0], ns[1..];
      FirstAndRest(ns);
      SeenInEitherOrder(first, seen, skip);
      AllSeenInEitherOrder(rest, Search(first, seen, skip, true).1, skip);
    }
  }

  lemma {:induction false} ReachedVisited(n: Node, m: Node, v: seq<Node>, skip: Node -> bool)
    requires PostOrder(v, {}, skip) && n in v && Reaches(n, m, skip)
    ensures m in v
    decreases n
  {
    if m != n {
      var c :| c in Children(n) && Reaches(c, m, skip);
      ChildrenBelow(n);
      var i: nat :| i < |v| && v[i] == n;
      assert ChildrenFirst(v, {}, skip, i);
      ReachedVisited(c, m, v, skip);
    }
  }

  // In either order the traversal visits exactly what can be reached without passing through a skipped node, once.
  lemma VisitsAreReached(n: Node, skip: Node -> bool, post: bool)
    ensures var v := Search(n, {}, skip, post).0;
      Distinct(v) && forall m :: m in v <==> Reaches(n, m, skip)
  {
    SearchOnce(n, {}, skip, post);
    SearchReaches(n, {}, skip, post);
    SeenInEitherOrder(n, {}, skip);
    SearchOnce(n, {}, skip, true);
    SearchPostOrder(n, {}, skip);
    var v := Search(n, {}, skip, true).0;
    forall m | Reaches(n, m, skip)
      ensures m in v
    {
      ReachedVisited(n, m, v, skip);
    }
  }

  // In post-order whatever can be reached from a visited node has been visited before it.
  lemma ReachedBefore(n: Node, skip: Node -> bool, i: nat, m: Node)
    requires i < |Search(n, {}, skip, true).0|
    requires Reaches(Search(n, {}, skip, true).0[i], m, skip)
    ensures m in Search(n, {}, skip, true).0[..i + 1]
  {
    SearchPostOrder(n, {}, skip);
    var v := Search(n, {}, skip, true).0;
    var upTo := v[..i + 1];
    forall k | 0 <= k < |upTo|
      ensures ChildrenFirst(upTo, {}, skip, k)
    {
      assert ChildrenFirst(v, {}, skip, k) && upTo[..k] == v[..k];
    }
    assert upTo[i] == v[i];
    ReachedVisited(v[i], m, upTo, skip);
  }

  // ---- the order of the visits

  // The numbers of the children on a way from n to m past no skipped node.
  ghost predicate IsRoute(n: Node, p: seq<nat>, m: Node, skip: Node -> bool)
    decreases |p|
  {
    !skip(n) && if p == [] then n == m else p[0] < |Children(n)| && IsRoute(Children(n)[p[0]], p[1..], m, skip)
  }

  // The lexicographic order.
  ghost predicate Less(p: seq<nat>, q: seq<nat>) {
    q != [] && (p == [] || p[0] < q[0] || (p[0] == q[0] && Less(p[1..], q[1..])))
  }

  // Some way to x is less than every way to y.
  ghost predicate Nearer(n: Node, x: Node, y: Node, skip: Node -> bool) {
    exists p {:trigger IsRoute(n, p, x, skip)} :: IsRoute(n, p, x, skip) && LessThanAll(n, p, y, skip)
  }

  ghost predicate LessThanAll(n: Node, p: seq<nat>, y: Node, skip: Node -> bool) {
    forall q | IsRoute(n, q, y, skip) :: Less(p, q)
  }

  // The same for ways that start with one of the nodes ns.
  ghost predicate NearerFrom(ns: seq<Node>, x: Node, y: Node, skip: Node -> bool) {
    exists i, p {:trigger StartsAt(ns, i, p, x, skip)} ::
      StartsAt(ns, i, p, x, skip) && forall j, q | StartsAt(ns, j, q, y, skip) :: i < j || (i == j && Less(p, q))
  }

  ghost predicate StartsAt(ns: seq<Node>, i: nat, p: seq<nat>, x: Node, skip: Node -> bool) {
    i < |ns| && IsRoute(ns[i], p, x, skip)
  }

  lemma NearerThroughChildren(n: Node, x: Node, y: Node, skip: Node -> bool)
    requires !skip(n) && NearerFrom(Children(n), x, y, skip) && y != n
    ensures Nearer(n, x, y, skip)
  {
    var i: nat, p :| StartsAt(Children(n), i, p, x, skip) &&
      forall j, q | StartsAt(Children(n), j, q, y, skip) :: i < j || (i == j && Less(p, q));
    var way := [i] + p;
    assert way[1..] == p && IsRoute(n, way, x, skip);
    forall q | IsRoute(n, q, y, skip)
      ensures Less(way, q)
    {
      assert StartsAt(Children(n), q[0], q[1..], y, skip);
    }
  }

  lemma {:induction false} RouteExists(n: Node, m: Node, skip: Node -> bool) returns (p: seq<nat>)
    requires Reaches(n, m, skip)
    ensures IsRoute(n, p, m, skip)
    decreases n
  {
    if m == n {
      p := [];
    } else {
      var c :| c in Children(n) && Reaches(c, m, skip);
      ChildrenBelow(n);
      var i: nat :| i < |Children(n)| && Children(n)[i] == c;
      var rest := RouteExists(c, m, skip);
      p := [i] + rest;
      assert p[1..] == rest;
    }
  }

  lemma {:induction false} RouteReaches(n: Node, p: seq<nat>, m: Node, skip: Node -> bool)
    requires IsRoute(n, p, m, skip)
    ensures Reaches(n, m, skip)
    decreases |p|
  {
    if p != [] {
      RouteReaches(Children(n)[p[0]], p[1..], m, skip);
    }
  }

  // What has been seen and can be reached from n has been searched to the end.
  ghost predicate ClosedBelow(seen: set<Node>, n: Node, skip: Node -> bool) {
    forall m {:trigger ChildrenSeen(seen, m, skip)} | m in seen && Reaches(n, m, skip) :: ChildrenSeen(seen, m, skip)
  }

  ghost predicate ChildrenSeen(seen: set<Node>, m: Node, skip: Node -> bool) {
    forall c | c in Children(m) && !skip(c) :: c in seen
  }

  lemma {:induction false} ClosedReach(seen: set<Node>, n: Node, m: Node, skip: Node -> bool)
    requires ClosedBelow(seen, n, skip) && n in seen && Reaches(n, m, skip)
    ensures m in seen
    decreases n
  {
    if m != n {
      var c :| c in Children(n) && Reaches(c, m, skip);
      ChildrenBelow(n);
      assert ChildrenSeen(seen, n, skip);
      forall y | y in seen && Reaches(c, y, skip)
        ensures ChildrenSeen(seen, y, skip)
      {
        assert Reaches(n, y, skip);
      }
      ClosedReach(seen, c, m, skip);
    }
  }

  lemma {:induction false} ReachesDown(n: Node, m: Node, skip: Node -> bool)
    requires Reaches(n, m, skip)
    ensures m == n || m < n
    decreases n
  {
    if m != n {
      var c :| c in Children(n) && Reaches(c, m, skip);
      ChildrenBelow(n);
      ReachesDown(c, m, skip);
    }
  }

  // Searching some node keeps what has been seen closed, from wherever one looks.
  lemma ClosedAfter(first: Node, seen: set<Node>, skip: Node -> bool, post: bool, n: Node)
    requires ClosedBelow(seen, n, skip)
    ensures ClosedBelow(Search(first, seen, skip, post).1, n, skip)
    ensures skip(first) || first in Search(first, seen, skip, post).1
  {
    SeenInEitherOrder(first, seen, skip);
    SearchPostOrder(first, seen, skip);
    SearchOnce(first, seen, skip, true);
    var (v, s) := Search(first, seen, skip, true);
    forall m | m in s && Reaches(n, m, skip)
      ensures ChildrenSeen(s, m, skip)
    {
      if m in seen {
        assert ChildrenSeen(seen, m, skip);
      } else {
        var i: nat :| i < |v| && v[i] == m;
        assert ChildrenFirst(v, seen, skip, i);
      }
    }
  }

  lemma ClosedForChild(n: Node, seen: set<Node>, skip: Node -> bool, c: Node)
    requires ClosedBelow(seen, n, skip) && !skip(n) && c in Children(n)
    ensures ClosedBelow(seen + {n}, c, skip)
  {
    ChildrenBelow(n);
    forall m | m in seen + {n} && Reaches(c, m, skip)
      ensures ChildrenSeen(seen + {n}, m, skip)
    {
      ReachesDown(c, m, skip);
      assert Reaches(n, m, skip);
      assert ChildrenSeen(seen, m, skip);
    }
  }

  // Of two visits the earlier one is reached by the lesser way, where in post-order a node comes after all that can be
  // reached from it.
  ghost predicate Sorted(n: Node, v: seq<Node>, skip: Node -> bool, post: bool) {
    forall a, b {:trigger InTurn(n, v[a], v[b], skip, post)} | 0 <= a < b < |v| :: InTurn(n, v[a], v[b], skip, post)
  }

  ghost predicate InTurn(n: Node, x: Node, y: Node, skip: Node -> bool, post: bool) {
    (post && Reaches(y, x, skip)) || Nearer(n, x, y, skip)
  }

  ghost predicate AllSorted(ns: seq<Node>, v: seq<Node>, skip: Node -> bool, post: bool) {
    forall a, b {:trigger InTurnFrom(ns, v[a], v[b], skip, post)} | 0 <= a < b < |v| ::
      InTurnFrom(ns, v[a], v[b], skip, post)
  }

  ghost predicate InTurnFrom(ns: seq<Node>, x: Node, y: Node, skip: Node -> bool, post: bool) {
    (post && Reaches(y, x, skip)) || NearerFrom(ns, x, y, skip)
  }

  lemma {:induction false} VisitsSorted(n: Node, seen: set<Node>, skip: Node -> bool, post: bool)
    requires ClosedBelow(seen, n, skip)
    ensures Sorted(n, Search(n, seen, skip, post).0, skip, post)
    decreases n
  {
    if n !in seen && !skip(n) && n.Apply? {
      SearchIs(n, seen, skip, post);
      SearchOnce(n, seen, skip, post);
      SearchReaches(n, seen, skip, post);
      forall c | c in Children(n)
        ensures ClosedBelow(seen + {n}, c, skip)
      {
        ClosedForChild(n, seen, skip, c);
      }
      AllVisitsSorted(n.args, seen + {n}, skip, post);
      var v, w := Search(n, seen, skip, post).0, SearchAll(Children(n), seen + {n}, skip, post).0;
      RootOnce(n, v, w, post);
      forall a, b | 0 <= a < b < |v|
        ensures InTurn(n, v[a], v[b], skip, post)
      {
        assert v[a] in v;
        SortedWithRoot(n, v, w, skip, post, a, b);
      }
    }
  }

  lemma SortedWithRoot(n: Node, v: seq<Node>, w: seq<Node>, skip: Node -> bool, post: bool, a: nat, b: nat)
    requires !skip(n) && v == (if post then w + [n] else [n] + w) && n !in w && a < b < |v|
    requires AllSorted(Children(n), w, skip, post) && Reaches(n, v[a], skip)
    ensures InTurn(n, v[a], v[b], skip, post)
  {
    if !post && a == 0 {
      assert v[b] == w[b - 1] && v[b] in w;
      RootFirst(n, v[b], skip);
    } else if !(post && b == |w|) {
      var c, d := if post then a else a - 1, if post then b else b - 1;
      assert v[a] == w[c] && v[b] == w[d] && w[d] in w;
      assert InTurnFrom(Children(n), w[c], w[d], skip, post);
      InTurnThroughChildren(n, w[c], w[d], skip, post);
    }
  }

  lemma InTurnThroughChildren(n: Node, x: Node, y: Node, skip: Node -> bool, post: bool)
    requires !skip(n) && y != n && InTurnFrom(Children(n), x, y, skip, post)
    ensures InTurn(n, x, y, skip, post)
  {
    if !(post && Reaches(y, x, skip)) {
      NearerThroughChildren(n, x, y, skip);
    }
  }

  lemma RootOnce(n: Node, v: seq<Node>, w: seq<Node>, post: bool)
    requires v == (if post then w + [n] else [n] + w) && Distinct(v)
    ensures n !in w
  {
    forall i | 0 <= i < |w|
      ensures w[i] != n
    {
      assert if post then v[i] == w[i] && v[|w|] == n else v[i + 1] == w[i] && v[0] == n;
    }
  }

  lemma RootFirst(n: Node, y: Node, skip: Node -> bool)
    requires !skip(n) && y != n
    ensures Nearer(n, n, y, skip)
  {
    assert IsRoute(n, [], n, skip) && LessThanAll(n, [], y, skip);
  }

  lemma {:induction false} AllVisitsSorted(ns: seq<Node>, seen: set<Node>, skip: Node -> bool, post: bool)
    requires forall c | c in ns :: ClosedBelow(seen, c, skip)
    ensures AllSorted(ns, SearchAll(ns, seen, skip, post).0, skip, post)
    decreases ns
  {
    if ns != [] {
      SearchAllIs(ns, seen, skip, post);
      var (v, s) := Search(ns[0], seen, skip, post);
      var w := SearchAll(ns[1..], s, skip, post).0;
      VisitsSorted(ns[0], seen, skip, post);
      forall c | c in ns[1..]
        ensures ClosedBelow(s, c, skip)
      {
        ClosedAfter(ns[0], seen, skip, post, c);
      }
      AllVisitsSorted(ns[1..], s, skip, post);
      forall a, b | 0 <= a < b < |v + w|
        ensures InTurnFrom(ns, (v + w)[a], (v + w)[b], skip, post)
      {
        SortedConcat(ns, seen, skip, post, v, s, w, a, b);
      }
    }
  }

  lemma SortedConcat(ns: seq<Node>, seen: set<Node>, skip: Node -> bool, post: bool, v: seq<Node>, s: set<Node>,
                     w: seq<Node>, a: nat, b: nat)
    requires ns != [] && ClosedBelow(seen, ns[0], skip) && a < b < |v + w|
    requires (v, s) == Search(ns[0], seen, skip, post) && w == SearchAll(ns[1..], s, skip, post).0
    requires Sorted(ns[0], v, skip, post) && AllSorted(ns[1..], w, skip, post)
    ensures InTurnFrom(ns, (v + w)[a], (v + w)[b], skip, post)
  {
    if b < |v| {
      assert InTurn(ns[0], v[a], v[b], skip, post);
      NearerFirst(ns, v[a], v[b], skip);
    } else {
      assert w[b - |v|] in w;
      NotFromFirst(ns, seen, skip, post, w[b - |v|]);
      if a < |v| {
        SearchReaches(ns[0], seen, skip, post);
        assert v[a] in v;
        var p := RouteExists(ns[0], v[a], skip);
        assert StartsAt(ns, 0, p, v[a], skip);
      } else {
        assert InTurnFrom(ns[1..], w[a - |v|], w[b - |v|], skip, post);
        NearerLater(ns, w[a - |v|], w[b - |v|], skip);
      }
    }
  }

  lemma NearerFirst(ns: seq<Node>, x: Node, y: Node, skip: Node -> bool)
    requires ns != []
    ensures Nearer(ns[0], x, y, skip) ==> NearerFrom(ns, x, y, skip)
  {
    if Nearer(ns[0], x, y, skip) {
      var p :| IsRoute(ns[0], p, x, skip) && LessThanAll(ns[0], p, y, skip);
      assert StartsAt(ns, 0, p, x, skip);
    }
  }

  // What is visited after the first of ns cannot be reached from it.
  lemma NotFromFirst(ns: seq<Node>, seen: set<Node>, skip: Node -> bool, post: bool, y: Node)
    requires ns != [] && ClosedBelow(seen, ns[0], skip)
    requires y in SearchAll(ns[1..], Search(ns[0], seen, skip, post).1, skip, post).0
    ensures forall q :: !StartsAt(ns, 0, q, y, skip)
  {
    var s := Search(ns[0], seen, skip, post).1;
    SearchAllOnce(ns[1..], s, skip, post);
    ClosedAfter(ns[0], seen, skip, post, ns[0]);
    forall q
      ensures !StartsAt(ns, 0, q, y, skip)
    {
      if StartsAt(ns, 0, q, y, skip) {
        RouteReaches(ns[0], q, y, skip);
        ClosedReach(s, ns[0], y, skip);
      }
    }
  }

  lemma NearerLater(ns: seq<Node>, x: Node, y: Node, skip: Node -> bool)
    requires ns != [] && forall q :: !StartsAt(ns, 0, q, y, skip)
    ensures NearerFrom(ns[1..], x, y, skip) ==> NearerFrom(ns, x, y, skip)
  {
    if !NearerFrom(ns[1..], x, y, skip) {
      return;
    }
    var i: nat, p :| StartsAt(ns[1..], i, p, x, skip) &&
      forall j, q | StartsAt(ns[1..], j, q, y, skip) :: i < j || (i == j && Less(p, q));
    assert StartsAt(ns, i + 1, p, x, skip);
    forall j: nat, q | StartsAt(ns, j, q, y, skip)
      ensures i + 1 < j || (i + 1 == j && Less(p, q))
    {
      assert j > 0 && StartsAt(ns[1..], j - 1, q, y, skip);
    }
  }

  // The visits of a whole traversal are in the order of the least ways to them.
  lemma TraversalSorted(n: Node, skip: Node -> bool, post: bool)
    ensures Sorted(n, Search(n, {}, skip, post).0, skip, post)
  {
    VisitsSorted(n, {}, skip, post);
  }

  // ---- TopologicalSort

  ghost predicate IsBelow(m: Node, n: Node) {
    exists c | c in Children(n) :: m == c || IsBelow(m, c)
  }

  // A node on the stack, and whether its children have been put there.
  datatype Entry = Entry(visitedChildren: bool, node: Node)

  // The nodes that have been visited in post-order, and those on the stack whose children have been put there.
  ghost predicate VisitedAre(visited: set<Node>, done: seq<Node>, stack: seq<Entry>) {
    forall m :: m in visited <==> m in done || Entry(true, m) in stack
  }

  // A node whose children are on the stack is above the entries above it, and each of its children is there or done.
  ghost predicate EntryOk(done: seq<Node>, stack: seq<Entry>, i: nat)
    requires i < |stack|
  {
    stack[i].visitedChildren ==>
      && stack[i].node !in done
      && (forall j | i < j < |stack| :: stack[j].node < stack[i].node)
      && (forall c | c in Children(stack[i].node) :: c in done || Waiting(stack, i, c))
  }

  ghost predicate Waiting(stack: seq<Entry>, i: nat, c: Node) {
    exists j :: i < j < |stack| && stack[j].node == c
  }

  ghost predicate StackOk(done: seq<Node>, stack: seq<Entry>) {
    forall i {:trigger EntryOk(done, stack, i)} | 0 <= i < |stack| :: EntryOk(done, stack, i)
  }

  function SkipsNone(n: Node): bool {
    false
  }

  // The children of what is done were done before.
  ghost predicate DoneOk(done: seq<Node>) {
    Distinct(done) && PostOrder(done, {}, SkipsNone)
  }

  // The roots that are done, in an order in which roots that are below others come first.
  ghost predicate Ordered(order: seq<Node>, done: seq<Node>, roots: set<Node>) {
    && Distinct(order)
    && (forall m :: m in order <==> m in done && m in roots)
    && forall i, m | 0 <= i < |order| && m in roots && IsBelow(m, order[i]) :: m in order[..i]
  }

  lemma {:induction false} BelowDone(n: Node, m: Node, done: seq<Node>)
    requires PostOrder(done, {}, SkipsNone) && IsBelow(m, n) && forall c | c in Children(n) :: c in done
    ensures m in done
    decreases n
  {
    var c :| c in Children(n) && (m == c || IsBelow(m, c));
    if m != c {
      ChildrenBelow(n);
      var i: nat :| i < |done| && done[i] == c;
      assert ChildrenFirst(done, {}, SkipsNone, i);
      BelowDone(c, m, done);
    }
  }

  // The top of the stack is done.
  lemma DoneNext(done: seq<Node>, stack: seq<Entry>, visited: set<Node>)
    requires DoneOk(done) && StackOk(done, stack) && VisitedAre(visited, done, stack)
    requires stack != [] && stack[|stack| - 1].visitedChildren
    ensures var n := stack[|stack| - 1].node;
      && (forall c | c in Children(n) :: c in done)
      && DoneOk(done + [n]) && StackOk(done + [n], stack[..|stack| - 1])
      && VisitedAre(visited, done + [n], stack[..|stack| - 1])
  {
    var n, rest := stack[|stack| - 1].node, stack[..|stack| - 1];
    var done' := done + [n];
    assert EntryOk(done, stack, |stack| - 1);
    forall i | 0 <= i < |done'|
      ensures ChildrenFirst(done', {}, SkipsNone, i)
    {
      assert i < |done| ==> ChildrenFirst(done, {}, SkipsNone, i);
      assert done'[..i] == done[..i];
    }
    PopOk(done, done', stack);
    assert stack == rest + [Entry(true, n)];
    assert forall m :: m in done' <==> m in done || m == n;
  }

  // The top of the stack is taken off; its node is done.
  lemma PopOk(done: seq<Node>, done': seq<Node>, stack: seq<Entry>)
    requires StackOk(done, stack) && stack != []
    requires done' == done || done' == done + [stack[|stack| - 1].node]
    requires stack[|stack| - 1].node in done'
    ensures StackOk(done', stack[..|stack| - 1])
  {
    var rest := stack[..|stack| - 1];
    forall i | 0 <= i < |rest|
      ensures EntryOk(done', rest, i)
    {
      assert EntryOk(done, stack, i);
      if rest[i].visitedChildren {
        forall c | c in Children(rest[i].node) && c !in done'
          ensures Waiting(rest, i, c)
        {
          assert Waiting(stack, i, c);
          var j :| i < j < |stack| && stack[j].node == c;
          assert rest[j].node == c;
        }
      }
    }
  }

  // The top of the stack has been visited, and is on the stack once more.
  lemma SkippedIsDone(done: seq<Node>, stack: seq<Entry>, visited: set<Node>)
    requires StackOk(done, stack) && VisitedAre(visited, done, stack)
    requires stack != [] && !stack[|stack| - 1].visitedChildren && stack[|stack| - 1].node in visited
    ensures stack[|stack| - 1].node in done
    ensures StackOk(done, stack[..|stack| - 1]) && VisitedAre(visited, done, stack[..|stack| - 1])
  {
    var n := stack[|stack| - 1].node;
    forall i | 0 <= i < |stack|
      ensures stack[i] != Entry(true, n)
    {
      assert EntryOk(done, stack, i);
    }
    PopOk(done, done, stack);
    assert stack == stack[..|stack| - 1] + [Entry(false, n)];
  }

  function Unvisited(ns: seq<Node>): (entries: seq<Entry>)
    ensures |entries| == |ns| && forall i | 0 <= i < |ns| :: entries[i] == Entry(false, ns[i])
  {
    seq(|ns|, i requires 0 <= i < |ns| => Entry(false, ns[i]))
  }

  // The children of the top of the stack are put on it.
  lemma OpenOk(done: seq<Node>, stack: seq<Entry>, visited: set<Node>)
    requires StackOk(done, stack) && VisitedAre(visited, done, stack)
    requires stack != [] && stack[|stack| - 1].node !in visited
    ensures var n := stack[|stack| - 1].node;
      var stack' := stack[|stack| - 1 := Entry(true, n)] + Unvisited(Children(n));
      StackOk(done, stack') && VisitedAre(visited + {n}, done, stack')
  {
    var n := stack[|stack| - 1].node;
    var open := stack[|stack| - 1 := Entry(true, n)];
    var stack' := open + Unvisited(Children(n));
    ChildrenBelow(n);
    forall i | 0 <= i < |stack'|
      ensures EntryOk(done, stack', i)
    {
      if i < |stack| - 1 && stack[i].visitedChildren {
        assert EntryOk(done, stack, i);
        forall c | c in Children(stack[i].node) && c !in done
          ensures Waiting(stack', i, c)
        {
          assert Waiting(stack, i, c);
          var j :| i < j < |stack| && stack[j].node == c;
          assert stack'[j].node == c;
        }
      } else if i == |stack| - 1 {
        forall c | c in Children(n)
          ensures Waiting(stack', i, c)
        {
          var k :| 0 <= k < |Children(n)| && Children(n)[k] == c;
          assert stack'[|stack| + k].node == c;
        }
      }
    }
    assert stack == stack[..|stack| - 1] + [stack[|stack| - 1]];
    assert open == stack[..|stack| - 1] + [Entry(true, n)];
    assert forall m :: Entry(true, m) !in Unvisited(Children(n));
  }

  // A root that is done is put at the end.
  lemma OrderedNext(order: seq<Node>, done: seq<Node>, roots: set<Node>, n: Node)
    requires DoneOk(done) && Ordered(order, done, roots) && n !in done && forall c | c in Children(n) :: c in done
    ensures Ordered(if n in roots then order + [n] else order, done + [n], roots)
  {
    if n in roots {
      var order' := order + [n];
      forall i, m | 0 <= i < |order'| && m in roots && IsBelow(m, order'[i])
        ensures m in order'[..i]
      {
        assert order'[..i] == order[..i];
        if i == |order| {
          BelowDone(n, m, done);
        }
      }
    }
  }

  lemma DistinctSnoc(ns: seq<Node>, n: Node)
    ensures Distinct(ns + [n]) <==> Distinct(ns) && n !in ns
  {
    var ns' := ns + [n];
    assert ns'[|ns|] == n && forall i | 0 <= i < |ns| :: ns'[i] == ns[i];
    assert n !in ns <==> forall i | 0 <= i < |ns| :: ns'[i] != ns'[|ns|];
  }

  lemma {:induction false} DistinctSize(ns: seq<Node>)
    ensures |set n | n in ns| <= |ns|
    ensures |set n | n in ns| == |ns| <==> Distinct(ns)
  {
    if ns != [] {
      var rest, last := ns[..|ns| - 1], ns[|ns| - 1];
      DistinctSize(rest);
      DistinctSnoc(rest, last);
      assert ns == rest + [last];
      assert (set n | n in ns) == (set n | n in rest) + {last};
    }
  }

  ghost predicate RootsDone(roots: seq<Node>, done: seq<Node>) {
    forall r | r in roots :: r in done
  }

  lemma RootDone(roots: seq<Node>, done: seq<Node>, root: Node, done': seq<Node>)
    requires RootsDone(roots, done) && done <= done' && root in done'
    ensures RootsDone(roots + [root], done')
  {
  }

  // The search stays within a finite set of nodes.
  ghost predicate StackIn(stack: seq<Entry>, all: set<Node>) {
    forall i | 0 <= i < |stack| :: stack[i].node in all
  }

  lemma OpenedIn(stack: seq<Entry>, n: Node, all: set<Node>)
    requires StackIn(stack, all) && stack != [] && n in all && PartsIn(n, all)
    ensures StackIn(stack[|stack| - 1 := Entry(true, n)] + Unvisited(Children(n)), all)
  {
    forall c | c in Children(n)
      ensures c in all
    {
      assert c in Parts(n);
    }
  }

  // One search from a root: whatever it comes to is done afterwards, and the roots among it are in order.
  method SortFrom(root: Node, rootSet: set<Node>, visited0: set<Node>, order0: seq<Node>, ghost done0: seq<Node>)
    returns (visited: set<Node>, order: seq<Node>, ghost done: seq<Node>)
    requires DoneOk(done0) && VisitedAre(visited0, done0, []) && Ordered(order0, done0, rootSet)
    ensures DoneOk(done) && VisitedAre(visited, done, []) && Ordered(order, done, rootSet)
    ensures done0 <= done && root in done
  {
    visited, order, done := visited0, order0, done0;
    if root in visited {
      return;
    }
    ghost var all := PartSet(root);
    PartSetClosed(root);
    var stack := [Entry(false, root)];
    while stack != []
      invariant DoneOk(done) && StackOk(done, stack) && VisitedAre(visited, done, stack)
        && Ordered(order, done, rootSet)
      invariant StackIn(stack, all)
      invariant done0 <= done && (root in done || (stack != [] && stack[0].node == root))
      decreases all - visited, |stack|
    {
      var current := stack[|stack| - 1].node;
      assert current in all;
      if stack[|stack| - 1].visitedChildren {
        DoneNext(done, stack, visited);
        assert EntryOk(done, stack, |stack| - 1);
        OrderedNext(order, done, rootSet, current);
        if current in rootSet {
          order := order + [current];
        }
        done := done + [current];
        stack := stack[..|stack| - 1];
      } else if current !in visited {
        OpenOk(done, stack, visited);
        OpenedIn(stack, current, all);
        stack := stack[|stack| - 1 := Entry(true, current)] + Unvisited(Children(current));
        visited := visited + {current};
      } else {
        SkippedIsDone(done, stack, visited);
        stack := stack[..|stack| - 1];
      }
    }
  }

  // All roots are done: the order holds each once, as the closing assertion wants.
  lemma SortedOrder(order: seq<Node>, done: seq<Node>, roots: seq<Node>)
    requires Ordered(order, done, set r | r in roots) && RootsDone(roots, done)
    ensures Distinct(order) && forall m :: m in order <==> m in roots
    ensures forall i, j | 0 <= i < |order| && 0 <= j < |order| && IsBelow(order[i], order[j]) :: i < j
    ensures |order| == |roots| <==> Distinct(roots)
  {
    DistinctSize(order);
    DistinctSize(roots);
    assert (set r | r in roots) == (set n | n in order);
    forall i, j | 0 <= i < |order| && 0 <= j < |order| && IsBelow(order[i], order[j])
      ensures i < j
    {
      assert order[i] in order && order[i] in order[..j];
    }
  }

  // The closing assertion, that the order is as long as the list of roots, holds if no root is listed twice.
  method TopologicalSort(roots: seq<Node>) returns (order: seq<Node>)
    ensures Distinct(order) && forall m :: m in order <==> m in roots
    ensures forall i, j | 0 <= i < |order| && 0 <= j < |order| && IsBelow(order[i], order[j]) :: i < j
    ensures |order| == |roots| <==> Distinct(roots)
  {
    order := [];
    var visited: set<Node> := {};
    var rootSet := set r | r in roots;
    ghost var done: seq<Node> := [];
    for index := 0 to |roots|
      invariant DoneOk(done) && VisitedAre(visited, done, []) && Ordered(order, done, rootSet)
      invariant RootsDone(roots[..index], done)
    {
      ghost var done0 := done;
      visited, order, done := SortFrom(roots[index], rootSet, visited, order, done);
      RootDone(roots[..index], done0, roots[index], done);
      assert roots[..index + 1] == roots[..index] + [roots[index]];
    }
    assert roots[..|roots|] == roots;
    SortedOrder(order, done, roots);
  }
}
