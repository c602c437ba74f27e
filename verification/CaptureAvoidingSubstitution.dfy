/** The worklist for capture-avoiding substitution, with its shared memo table and in-place renaming stack. */
module CaptureAvoidingSubstitution {
  import opened Options
  import opened Terms
  import opened Meaning

  // The node manager makes bound variables that no existing node contains; next is its counter.
  method MkBoundVar(sort: nat, next: nat) returns (v: Node, next': nat)
    ensures v == BoundVariable(next, sort) && next' == next + 1
  {
    v, next' := BoundVariable(next, sort), next + 1;
  }

  // All bound variables of n were made before the counter reached k.
  ghost predicate MadeBefore(n: Node, k: nat) {
    forall l | IsLeafOf(l, n) && l.BoundVariable? :: l.id < k
  }

  // What the caller owes: leaves as sources, existing nodes throughout.
  ghost predicate Acceptable(n: Node, src: seq<Node>, dest: seq<Node>, k: nat) {
    && WellFormed(n) && |src| == |dest|
    && (forall s | s in src :: IsLeaf(s))
    && MadeBefore(n, k) && (forall d | d in dest :: MadeBefore(d, k))
  }

  // rho gives every leaf one image: its substitute, or a variable made for it alone, with its sort, since
  // the counter stood at k.
  ghost predicate OneImagePerLeaf(n: Node, src: seq<Node>, dest: seq<Node>, rho: map<Node, Node>, k: nat)
    requires |src| == |dest|
  {
    && Covers(rho, n)
    && (forall l | IsLeafOf(l, n) :: rho[l] == Lookup(src, dest, l) || IsFreshFor(rho[l], l, k))
    && (forall x, y | IsLeafOf(x, n) && IsLeafOf(y, n) && IsFreshFor(rho[x], x, k) && rho[x] == rho[y] :: x == y)
  }

  ghost predicate IsFreshFor(y: Node, x: Node, k: nat) {
    RenamesVariable(x, y) && k <= y.id
  }

  ghost predicate Covers(rho: map<Node, Node>, n: Node) {
    forall l | IsLeafOf(l, n) :: l in rho
  }

  // ---- the stack of the worklist: open nodes, each with those of its parts that are still to be visited,
  // the first `left` ones, above it

  datatype Stack = Empty | Open(node: Node, parts: seq<Node>, left: nat, below: Stack)

  ghost function Flatten(st: Stack): seq<Node>
    requires Aligned(st)
  {
    match st
    case Empty => []
    case Open(node, parts, left, below) => Flatten(below) + [node] + parts[..left]
  }

  ghost predicate Aligned(st: Stack) {
    st.Open? ==> st.left <= |st.parts| && st.parts == Parts(st.node) && Aligned(st.below)
  }

  // The variables renamed by the open closures, outermost first.
  ghost function Renamed(st: Stack): seq<Node> {
    if st.Empty? then [] else Renamed(st.below) + BoundList(st.node)
  }

  ghost function OpenNodes(st: Stack): set<Node> {
    if st.Empty? then {} else OpenNodes(st.below) + {st.node}
  }

  type Memo = map<Node, Option<Node>>

  ghost predicate Done(visited: Memo, m: Node) {
    m in visited && visited[m].Some?
  }

  ghost predicate FinishedFrom(parts: seq<Node>, left: nat, visited: Memo) {
    forall k | left <= k < |parts| :: Done(visited, parts[k])
  }

  // Each part of an open node waits above it, is the next open node, or is finished.
  ghost predicate Accounted(n: Node, st: Stack, visited: Memo) {
    st.Open? ==> FinishedFrom(st.parts, st.left, visited) && WaitsFor(n, st.below, st.node, visited)
  }

  // The open nodes below are waiting for their part m, which is open.
  ghost predicate WaitsFor(n: Node, st: Stack, m: Node, visited: Memo) {
    match st
    case Empty => m == n
    case Open(node, parts, left, below) =>
      && left < |parts| && parts[left] == m && m < node
      && FinishedFrom(parts, left + 1, visited) && WaitsFor(n, below, node, visited)
  }

  // Exactly the open nodes are marked by null in the memo.
  ghost predicate Marked(st: Stack, visited: Memo) {
    forall m :: m in OpenNodes(st) <==> m in visited && visited[m].None?
  }

  ghost predicate StackIs(n: Node, st: Stack, visited: Memo, visit: seq<Node>) {
    && Aligned(st)
    && visit == if st.Open? then Flatten(st) else if Done(visited, n) then [] else [n]
  }

  // What is known of a part m of n.
  ghost predicate Inside(n: Node, m: Node) {
    && WellFormed(m)
    && (forall x | IsBound(x, m) :: IsBound(x, n))
  }

  ghost predicate AllInside(n: Node, all: set<Node>, st: Stack) {
    st.Open? ==> !IsLeaf(st.node) && Inside(n, st.node) && st.node in all && AllInside(n, all, st.below)
  }

  // A free leaf of an open node that n binds is renamed by a closure opened before.
  ghost predicate InScope(n: Node, st: Stack) {
    st.Open? ==> BoundIn(n, st.node, Renamed(st.below)) && InScope(n, st.below)
  }

  ghost predicate BoundIn(n: Node, m: Node, renamed: seq<Node>) {
    forall l | IsFree(l, m) && IsBound(l, n) :: l in renamed
  }

  // What the memo holds for m is m with every leaf replaced by its image.
  ghost predicate EntrySound(visited: Memo, rho: map<Node, Node>, m: Node)
    requires Done(visited, m)
  {
    Covers(rho, m) && visited[m].value == Replace(m, rho)
  }

  ghost predicate MemoSound(visited: Memo, rho: map<Node, Node>) {
    && (forall l | IsLeaf(l) :: l in rho <==> l in visited)
    && (forall l | l in rho :: IsLeaf(l))
    && (forall m {:trigger EntrySound(visited, rho, m)} | Done(visited, m) :: EntrySound(visited, rho, m))
  }

  // owner records for which variable each fresh variable was made.
  ghost predicate Owned(owner: map<nat, Node>, x: Node, y: Node) {
    RenamesVariable(x, y) && y.id in owner && owner[y.id] == x
  }

  ghost predicate RenamingsOwned(src: seq<Node>, dest: seq<Node>, base: nat, owner: map<nat, Node>) {
    |src| == |dest| && forall i | base <= i < |src| :: Owned(owner, src[i], dest[i])
  }

  // The image of a leaf is its substitute or a variable made for it; which of the two is settled by whether
  // n binds the leaf, when no leaf is both free and bound.
  ghost predicate ImageSound(n: Node, src: seq<Node>, dest: seq<Node>, rho: map<Node, Node>, owner: map<nat, Node>,
                             l: Node)
    requires |src| == |dest| && l in rho
  {
    && (rho[l] == Lookup(src, dest, l) || Owned(owner, l, rho[l]))
    && (BarendregtTerm(n) ==> if IsBound(l, n) then Owned(owner, l, rho[l]) else rho[l] == Lookup(src, dest, l))
  }

  ghost predicate ImagesSound(n: Node, src: seq<Node>, dest: seq<Node>, rho: map<Node, Node>, owner: map<nat, Node>)
    requires |src| == |dest|
  {
    forall l {:trigger ImageSound(n, src, dest, rho, owner, l)} | l in rho :: ImageSound(n, src, dest, rho, owner, l)
  }

  // ---- one step of the stack

  // The top of the stack is an open node all of whose parts are finished.
  ghost predicate CloseTurn(st: Stack) {
    st.Open? && st.left == 0
  }

  // The stack after its top, which is not an open node, is popped.
  ghost function Popped(st: Stack): Stack
    requires !CloseTurn(st)
  {
    if st.Empty? then st else st.(left := st.left - 1)
  }

  // The top of the stack when it is not an open node: the root before anything is open, or a waiting part.
  ghost predicate IsNext(n: Node, st: Stack, curr: Node)
    requires Aligned(st)
  {
    !CloseTurn(st) && curr == if st.Empty? then n else st.parts[st.left - 1]
  }

  // What can be on top of the stack.
  lemma TopOfStack(n: Node, st: Stack, visited: Memo, visit: seq<Node>)
    requires StackIs(n, st, visited, visit) && visit != []
    ensures var curr, rest := visit[|visit| - 1], visit[..|visit| - 1];
            if CloseTurn(st) then curr == st.node && rest == Flatten(st.below)
            else IsNext(n, st, curr) && rest == Flatten(Popped(st))
  {
    if st.Open? {
      if st.left > 0 {
        assert st.parts[..st.left] == st.parts[..st.left - 1] + [st.parts[st.left - 1]];
      }
    }
  }

  lemma FlattenOpen(curr: Node, below: Stack)
    requires Aligned(below)
    ensures Flatten(Open(curr, Parts(curr), |Parts(curr)|, below)) == Flatten(below) + [curr] + Parts(curr)
  {
  }

  // A waiting part lies inside n and is not open.
  lemma NextInside(n: Node, all: set<Node>, st: Stack, visited: Memo, curr: Node)
    requires WellFormed(n) && PartClosed(n, all) && Aligned(st) && AllInside(n, all, st) && Accounted(n, st, visited)
      && IsNext(n, st, curr)
    ensures Inside(n, curr) && curr in all && curr !in OpenNodes(st)
    ensures st.Open? ==> curr in Parts(st.node) && curr < st.node
  {
    if st.Open? {
      assert PartsIn(st.node, all);
      NotOpen(n, st.below, st.node, visited, curr);
    }
  }

  lemma {:induction false} NotOpen(n: Node, st: Stack, m: Node, visited: Memo, curr: Node)
    requires WaitsFor(n, st, m, visited) && curr < m
    ensures curr !in OpenNodes(st)
  {
    if st.Open? {
      NotOpen(n, st.below, st.node, visited, curr);
    }
  }

  // Finishing more nodes keeps what open nodes wait for.
  lemma {:induction false} WaitsForMonotone(n: Node, st: Stack, m: Node, visited: Memo, visited': Memo)
    requires WaitsFor(n, st, m, visited) && forall p | Done(visited, p) :: Done(visited', p)
    ensures WaitsFor(n, st, m, visited')
  {
    if st.Open? {
      WaitsForMonotone(n, st.below, st.node, visited, visited');
    }
  }

  // The next part is finished, or was before.
  lemma FinishPart(n: Node, st: Stack, visited: Memo, visited': Memo, curr: Node)
    requires Aligned(st) && Accounted(n, st, visited) && IsNext(n, st, curr)
    requires Done(visited', curr) && forall p | Done(visited, p) :: Done(visited', p)
    ensures Aligned(Popped(st)) && Accounted(n, Popped(st), visited')
  {
    if st.Open? {
      WaitsForMonotone(n, st.below, st.node, visited, visited');
    }
  }

  // The next part is opened: its own parts go above it.
  lemma OpenPart(n: Node, st: Stack, visited: Memo, curr: Node)
    requires Aligned(st) && Accounted(n, st, visited) && IsNext(n, st, curr) && curr !in visited
    requires st.Open? ==> curr < st.node
    ensures var st' := Open(curr, Parts(curr), |Parts(curr)|, Popped(st));
            Aligned(st') && Accounted(n, st', visited[curr := None])
  {
    if st.Open? {
      WaitsForMonotone(n, st.below, st.node, visited, visited[curr := None]);
    }
  }

  // The open node on top is finished.
  lemma CloseNode(n: Node, st: Stack, visited: Memo, r: Node)
    requires Aligned(st) && Accounted(n, st, visited) && CloseTurn(st)
    ensures Accounted(n, st.below, visited[st.node := Some(r)])
    ensures forall p | p in Parts(st.node) :: Done(visited, p)
  {
    if st.below.Open? {
      var visited' := visited[st.node := Some(r)];
      WaitsForMonotone(n, st.below.below, st.below.node, visited, visited');
      assert Done(visited', st.node) && forall p | Done(visited, p) :: Done(visited', p);
    }
  }

  lemma CloseMarked(n: Node, st: Stack, visited: Memo, r: Node)
    requires Marked(st, visited) && st.Open? && WaitsFor(n, st.below, st.node, visited)
    ensures Marked(st.below, visited[st.node := Some(r)])
  {
    if st.below.Open? {
      assert st.node < st.below.node;
      NotOpen(n, st.below.below, st.below.node, visited, st.node);
    }
  }

  // Opening a part keeps every free leaf that n binds in the scope of an open closure.
  lemma NextInScope(n: Node, all: set<Node>, st: Stack, curr: Node)
    requires BarendregtTerm(n) && InScope(n, st) && AllInside(n, all, st)
    requires if st.Empty? then curr == n else curr in Parts(st.node)
    ensures BoundIn(n, curr, Renamed(st))
  {
    if st.Open? {
      forall l | IsFree(l, curr) && IsBound(l, n)
        ensures l in Renamed(st)
      {
        FreeInParent(st.node, curr, l);
      }
    }
  }

  // A free leaf of a part is free in the node or bound by it.
  lemma FreeInParent(m: Node, p: Node, l: Node)
    requires WellFormed(m) && !IsLeaf(m) && p in Parts(m) && IsFree(l, p)
    ensures l in BoundList(m) || IsFree(l, m)
  {
    if IsClosure(m) && p !in Scoped(m) {
      assert p == m.args[0];
    }
  }

  // ---- the memo table

  lemma {:induction false} ReplaceStable(m: Node, rho: map<Node, Node>, rho': map<Node, Node>)
    requires Covers(rho, m) && forall l | l in rho :: l in rho' && rho'[l] == rho[l]
    ensures Covers(rho', m) && Replace(m, rho') == Replace(m, rho)
  {
    if !IsLeaf(m) {
      forall p | p in Parts(m)
        ensures Replace(p, rho') == Replace(p, rho)
      {
        ReplaceStable(p, rho, rho');
      }
      assert forall i | 0 <= i < |m.args| :: m.args[i] in Parts(m);
      assert m.op.Some? ==> m.op.value in Parts(m);
    }
  }

  lemma MemoLeaf(visited: Memo, rho: map<Node, Node>, l: Node, image: Node)
    requires MemoSound(visited, rho) && IsLeaf(l) && l !in visited
    ensures MemoSound(visited[l := Some(image)], rho[l := image])
  {
    forall m | Done(visited, m)
      ensures Covers(rho[l := image], m) && visited[m].value == Replace(m, rho[l := image])
    {
      assert EntrySound(visited, rho, m);
      ReplaceStable(m, rho, rho[l := image]);
    }
  }

  lemma MemoOpen(visited: Memo, rho: map<Node, Node>, m: Node)
    requires MemoSound(visited, rho) && !IsLeaf(m) && m !in visited
    ensures MemoSound(visited[m := None], rho)
  {
    forall q {:trigger EntrySound(visited[m := None], rho, q)} | Done(visited[m := None], q)
      ensures EntrySound(visited[m := None], rho, q)
    {
      assert EntrySound(visited, rho, q);
    }
  }

  // A node rebuilt from its memoised parts is the node with every leaf replaced by its image.
  lemma MemoNode(visited: Memo, rho: map<Node, Node>, m: Node, r: Node)
    requires MemoSound(visited, rho) && !IsLeaf(m)
    requires forall p | p in Parts(m) :: Done(visited, p)
    requires r.Apply? && r.kind == m.kind && |r.args| == |m.args|
    requires if m.op.Some? then m.op.value in visited && r.op == visited[m.op.value] else r.op == None
    requires forall i | 0 <= i < |m.args| :: m.args[i] in visited && visited[m.args[i]] == Some(r.args[i])
    ensures MemoSound(visited[m := Some(r)], rho)
  {
    assert forall p | p in Parts(m) :: EntrySound(visited, rho, p);
    forall i | 0 <= i < |m.args|
      ensures r.args[i] == Replace(m.args[i], rho)
    {
      assert m.args[i] in Parts(m);
    }
    assert m.op.Some? ==> m.op.value in Parts(m);
    assert r == Replace(m, rho);
    forall q {:trigger EntrySound(visited[m := Some(r)], rho, q)} | Done(visited[m := Some(r)], q)
      ensures EntrySound(visited[m := Some(r)], rho, q)
    {
      assert q != m ==> EntrySound(visited, rho, q);
    }
  }

  // ---- the images of leaves

  lemma {:induction false} LastIndexAppend(s: seq<Node>, t: seq<Node>, y: Node)
    requires y in s + t
    ensures y in t ==> LastIndex(s + t, y) == |s| + LastIndex(t, y)
    ensures y !in t ==> y in s && LastIndex(s + t, y) == LastIndex(s, y)
  {
    if t == [] {
      assert s + t == s;
    } else {
      var k := |t| - 1;
      assert (s + t)[..|s + t| - 1] == s + t[..k];
      if t[k] != y {
        LastIndexAppend(s, t[..k], y);
      }
    }
  }

  // Looking a leaf up from the end of the vectors finds a renaming if one is open, the substitute otherwise.
  lemma LookupImage(src0: seq<Node>, dest0: seq<Node>, renamed: seq<Node>, dest: seq<Node>, owner: map<nat, Node>,
                    l: Node)
    requires |src0| == |dest0| && RenamingsOwned(src0 + renamed, dest, |src0|, owner) && dest[..|dest0|] == dest0
    ensures l in renamed ==> Owned(owner, l, Lookup(src0 + renamed, dest, l))
    ensures l !in renamed ==> Lookup(src0 + renamed, dest, l) == Lookup(src0, dest0, l)
  {
    if l in src0 + renamed {
      LastIndexAppend(src0, renamed, l);
    }
  }

  lemma {:induction false} RenamedIsBound(n: Node, all: set<Node>, st: Stack, x: Node)
    requires AllInside(n, all, st) && x in Renamed(st)
    ensures IsBound(x, n) && x.BoundVariable?
  {
    if x !in Renamed(st.below) {
      assert x in BoundList(st.node);
      assert IsBound(x, st.node);
      assert IsVarList(st.node.args[0]);
    } else {
      RenamedIsBound(n, all, st.below, x);
    }
  }

  // The image given to a leaf met on top of the stack.
  lemma LeafImageSound(n: Node, all: set<Node>, src0: seq<Node>, dest0: seq<Node>, st: Stack, dest: seq<Node>,
                       rho: map<Node, Node>, owner: map<nat, Node>, l: Node)
    requires |src0| == |dest0| && AllInside(n, all, st) && ImagesSound(n, src0, dest0, rho, owner)
    requires RenamingsOwned(src0 + Renamed(st), dest, |src0|, owner) && dest[..|dest0|] == dest0
    requires IsLeaf(l) && (BarendregtTerm(n) ==> BoundIn(n, l, Renamed(st)))
    ensures ImagesSound(n, src0, dest0, rho[l := Lookup(src0 + Renamed(st), dest, l)], owner)
  {
    var rho' := rho[l := Lookup(src0 + Renamed(st), dest, l)];
    LookupImage(src0, dest0, Renamed(st), dest, owner, l);
    assert IsFree(l, l);
    if l in Renamed(st) {
      RenamedIsBound(n, all, st, l);
    }
    assert ImageSound(n, src0, dest0, rho', owner, l);
    forall k | k in rho'
      ensures ImageSound(n, src0, dest0, rho', owner, k)
    {
      assert k != l ==> ImageSound(n, src0, dest0, rho, owner, k);
    }
  }

  lemma ImagesMonotone(n: Node, src: seq<Node>, dest: seq<Node>, rho: map<Node, Node>, owner: map<nat, Node>,
                       owner': map<nat, Node>)
    requires |src| == |dest| && ImagesSound(n, src, dest, rho, owner)
    requires forall id | id in owner :: id in owner' && owner'[id] == owner[id]
    ensures ImagesSound(n, src, dest, rho, owner')
  {
    forall l | l in rho
      ensures ImageSound(n, src, dest, rho, owner', l)
    {
      assert ImageSound(n, src, dest, rho, owner, l);
    }
  }

  // ---- what the finished memo says

  lemma {:induction false} FreeIsLeafOf(l: Node, n: Node)
    requires IsFree(l, n)
    ensures IsLeafOf(l, n) && IsLeaf(l)
  {
    if !IsLeaf(n) {
      var p :| p in Scoped(n) && IsFree(l, p);
      FreeIsLeafOf(l, p);
      assert p in Parts(n);
    }
  }

  lemma {:induction false} BoundIsLeafOf(x: Node, n: Node)
    requires WellFormed(n) && IsBound(x, n)
    ensures IsLeafOf(x, n) && x.BoundVariable?
  {
    if x in BoundList(n) {
      assert n.args[0] in Parts(n) && IsVarList(n.args[0]);
      assert x in Parts(n.args[0]) && IsLeafOf(x, x);
      assert IsLeafOf(x, n.args[0]);
    } else {
      var p :| p in Parts(n) && IsBound(x, p);
      BoundIsLeafOf(x, p);
    }
  }

  // The substitute of a leaf of n contains no variable made later.
  lemma LookupMadeBefore(n: Node, src: seq<Node>, dest: seq<Node>, k: nat, l: Node)
    requires Acceptable(n, src, dest, k) && IsLeafOf(l, n) && IsLeaf(l)
    ensures MadeBefore(Lookup(src, dest, l), k)
  {
    if l !in src {
      assert forall m | IsLeafOf(m, l) :: m == l;
    }
  }

  ghost predicate FreshIds(owner: map<nat, Node>, k: nat, next: nat) {
    k <= next && forall id | id in owner :: k <= id < next
  }

  lemma {:induction false} LeafOfIsLeaf(l: Node, n: Node)
    requires IsLeafOf(l, n)
    ensures IsLeaf(l)
  {
    if !IsLeaf(n) {
      var p :| p in Parts(n) && IsLeafOf(l, p);
      LeafOfIsLeaf(l, p);
    }
  }

  lemma MemoGivesOneImage(n: Node, src: seq<Node>, dest: seq<Node>, rho: map<Node, Node>, owner: map<nat, Node>,
                          k: nat, next: nat)
    requires Acceptable(n, src, dest, k) && Covers(rho, n)
    requires ImagesSound(n, src, dest, rho, owner) && FreshIds(owner, k, next)
    ensures OneImagePerLeaf(n, src, dest, rho, k)
  {
    forall l | IsLeafOf(l, n)
      ensures rho[l] == Lookup(src, dest, l) || IsFreshFor(rho[l], l, k)
      ensures rho[l].BoundVariable? && rho[l].id >= k ==> Owned(owner, l, rho[l])
    {
      LeafOfIsLeaf(l, n);
      LookupMadeBefore(n, src, dest, k, l);
      assert ImageSound(n, src, dest, rho, owner, l);
      assert rho[l].BoundVariable? ==> IsLeafOf(rho[l], rho[l]);
    }
  }

  lemma MemoAvoidsCapture(n: Node, src: seq<Node>, dest: seq<Node>, rho: map<Node, Node>, owner: map<nat, Node>,
                          k: nat, next: nat)
    requires Acceptable(n, src, dest, k) && Covers(rho, n) && BarendregtTerm(n)
    requires ImagesSound(n, src, dest, rho, owner) && FreshIds(owner, k, next)
    ensures CaptureAvoiding(n, src, dest, rho)
  {
    var bound := BoundVariables(n);
    forall x | x in bound
      ensures x in rho && Owned(owner, x, rho[x])
    {
      BoundIsLeafOf(x, n);
      assert ImageSound(n, src, dest, rho, owner, x);
    }
    forall l | IsFree(l, n)
      ensures l in rho && l !in bound && rho[l] == Lookup(src, dest, l)
      ensures forall x | x in bound :: !IsFree(rho[x], rho[l])
    {
      FreeIsLeafOf(l, n);
      LookupMadeBefore(n, src, dest, k, l);
      assert ImageSound(n, src, dest, rho, owner, l);
      forall x | x in bound
        ensures !IsFree(rho[x], rho[l])
      {
        if IsFree(rho[x], rho[l]) {
          FreeIsLeafOf(rho[x], rho[l]);
        }
      }
    }
  }

  // ---- the loop invariant and its four steps

  ghost predicate StackSound(n: Node, all: set<Node>, st: Stack, visited: Memo) {
    && Aligned(st) && Accounted(n, st, visited) && AllInside(n, all, st) && Marked(st, visited)
    && (BarendregtTerm(n) ==> InScope(n, st))
    && visited.Keys <= all
  }

  ghost predicate VectorsSound(src0: seq<Node>, dest0: seq<Node>, renamed: seq<Node>, owner: map<nat, Node>,
                               src: seq<Node>, dest: seq<Node>) {
    && |src0| == |dest0| && src == src0 + renamed
    && RenamingsOwned(src, dest, |src0|, owner) && dest[..|dest0|] == dest0
  }

  // The node popped is finished: it was before, or it is a leaf met for the first time.
  lemma StepFinish(n: Node, all: set<Node>, st: Stack, visited: Memo, curr: Node, image: Node)
    requires WellFormed(n) && PartClosed(n, all) && StackSound(n, all, st, visited) && IsNext(n, st, curr)
    requires curr in visited ==> visited[curr] == Some(image)
    ensures StackSound(n, all, Popped(st), visited[curr := Some(image)])
    ensures Renamed(Popped(st)) == Renamed(st)
  {
    NextInside(n, all, st, visited, curr);
    FinishPart(n, st, visited, visited[curr := Some(image)], curr);
    assert OpenNodes(Popped(st)) == OpenNodes(st);
  }

  // The node popped has parts and is met for the first time.
  lemma StepOpen(n: Node, all: set<Node>, st: Stack, visited: Memo, curr: Node)
    requires WellFormed(n) && PartClosed(n, all) && StackSound(n, all, st, visited) && IsNext(n, st, curr)
      && curr !in visited && !IsLeaf(curr)
    ensures var st' := Open(curr, Parts(curr), |Parts(curr)|, Popped(st));
            && StackSound(n, all, st', visited[curr := None])
            && Renamed(st') == Renamed(st) + BoundList(curr)
  {
    NextInside(n, all, st, visited, curr);
    OpenPart(n, st, visited, curr);
    if BarendregtTerm(n) {
      NextInScope(n, all, st, curr);
    }
    assert Renamed(Popped(st)) == Renamed(st) && OpenNodes(Popped(st)) == OpenNodes(st);
  }

  // The node popped is open and all its parts are finished.
  lemma StepClose(n: Node, all: set<Node>, st: Stack, visited: Memo, r: Node)
    requires StackSound(n, all, st, visited) && CloseTurn(st)
    ensures StackSound(n, all, st.below, visited[st.node := Some(r)])
    ensures st.node in visited && visited[st.node].None? && !IsLeaf(st.node) && WellFormed(st.node)
    ensures forall p | p in Parts(st.node) :: Done(visited, p)
    ensures st.below.Empty? ==> st.node == n
  {
    CloseNode(n, st, visited, r);
    CloseMarked(n, st, visited, r);
    assert st.node in OpenNodes(st);
  }

  // Renamings pushed for a closure.
  lemma VectorsPush(src0: seq<Node>, dest0: seq<Node>, renamed: seq<Node>, owner: map<nat, Node>, src: seq<Node>,
                    dest: seq<Node>, vars: seq<Node>, owner': map<nat, Node>, dest': seq<Node>)
    requires VectorsSound(src0, dest0, renamed, owner, src, dest)
    requires forall id | id in owner :: id in owner' && owner'[id] == owner[id]
    requires RenamingsOwned(src + vars, dest', |src|, owner') && dest'[..|dest|] == dest
    ensures VectorsSound(src0, dest0, renamed + vars, owner', src + vars, dest')
  {
    forall i | |src0| <= i < |src + vars|
      ensures Owned(owner', (src + vars)[i], dest'[i])
    {
      if i < |src| {
        assert Owned(owner, src[i], dest[i]) && dest'[..|dest|][i] == dest[i];
      }
    }
    assert dest'[..|dest0|] == dest'[..|dest|][..|dest0|];
    assert src + vars == src0 + (renamed + vars);
  }

  // Renamings dropped when the closure is rebuilt.
  lemma VectorsPop(src0: seq<Node>, dest0: seq<Node>, renamed: seq<Node>, owner: map<nat, Node>, src: seq<Node>,
                   dest: seq<Node>, vars: seq<Node>)
    requires VectorsSound(src0, dest0, renamed + vars, owner, src, dest)
    ensures |vars| <= |src|
    ensures VectorsSound(src0, dest0, renamed, owner, src[..|src| - |vars|], dest[..|src| - |vars|])
  {
    var size := |src| - |vars|;
    assert src[..size] == src0 + renamed;
    assert dest[..size][..|dest0|] == dest[..|dest0|];
  }

  // ---- the source's functions

  // Appends the variables to src and new variables of their sorts to dest.
  method PushRenamings(vars: seq<Node>, src: seq<Node>, dest: seq<Node>, next: nat, ghost owner: map<nat, Node>)
    returns (src': seq<Node>, dest': seq<Node>, next': nat, ghost owner': map<nat, Node>)
    requires forall v | v in vars :: v.BoundVariable?
    requires |src| == |dest| && forall id | id in owner :: id < next
    ensures src' == src + vars && next <= next'
    ensures RenamingsOwned(src', dest', |src|, owner') && dest'[..|dest|] == dest
    ensures forall id | id in owner :: id in owner' && owner'[id] == owner[id]
    ensures forall id | id in owner' :: id in owner || next <= id < next'
  {
    src', dest', next', owner' := src, dest, next, owner;
    for i := 0 to |vars|
      invariant src' == src + vars[..i] && next <= next'
      invariant RenamingsOwned(src', dest', |src|, owner') && dest'[..|dest|] == dest
      invariant forall id | id in owner :: id in owner' && owner'[id] == owner[id]
      invariant forall id | id in owner' :: id < next' && (id in owner || next <= id)
    {
      var v := vars[i];
      assert v in vars;
      var made;
      made, next' := MkBoundVar(v.sort, next');
      src', dest', owner' := src' + [v], dest' + [made], owner'[made.id := v];
    }
  }

  // The node with every part replaced by what the memo holds for it.
  method BuildNode(curr: Node, visited: Memo) returns (nb: Node)
    requires !IsLeaf(curr) && forall p | p in Parts(curr) :: Done(visited, p)
    ensures nb.Apply? && nb.kind == curr.kind && |nb.args| == |curr.args|
    ensures if curr.op.Some? then curr.op.value in visited && nb.op == visited[curr.op.value] else nb.op == None
    ensures forall i | 0 <= i < |curr.args| :: curr.args[i] in visited && visited[curr.args[i]] == Some(nb.args[i])
  {
    var op := None;
    if curr.op.Some? {
      assert curr.op.value in Parts(curr);
      op := visited[curr.op.value];
    }
    var args: seq<Node> := [];
    for i := 0 to |curr.args|
      invariant |args| == i
      invariant forall j | 0 <= j < i :: curr.args[j] in visited && visited[curr.args[j]] == Some(args[j])
    {
      assert curr.args[i] in Parts(curr);
      args := args + [visited[curr.args[i]].value];
    }
    nb := Apply(curr.kind, op, args);
  }

  // What the proof keeps beside the worklist: the parts of the term, the vectors and the counter at the call, the open
  // nodes, the images of leaves and the owners of fresh variables.
  datatype Trace = Trace(all: set<Node>, src0: seq<Node>, dest0: seq<Node>, k: nat, st: Stack, rho: map<Node, Node>,
                         owner: map<nat, Node>)

  ghost predicate Invariant(n: Node, t: Trace, visited: Memo, src: seq<Node>, dest: seq<Node>, next: nat) {
    && WellFormed(n) && (forall s | s in t.src0 :: IsLeaf(s)) && FreshIds(t.owner, t.k, next)
    && PartClosed(n, t.all) && StackSound(n, t.all, t.st, visited)
    && VectorsSound(t.src0, t.dest0, Renamed(t.st), t.owner, src, dest)
    && MemoSound(visited, t.rho) && ImagesSound(n, t.src0, t.dest0, t.rho, t.owner)
  }

  // The vectors and the counter are passed by reference; src' and dest' are the vectors on return.
  method SubstituteCaptureAvoiding(n: Node, src: seq<Node>, dest: seq<Node>, next: nat)
    returns (r: Node, src': seq<Node>, dest': seq<Node>, next': nat, ghost rho: map<Node, Node>)
    requires Acceptable(n, src, dest, next)
    ensures src' == src && dest' == dest && next <= next'
    ensures r == Replace(n, rho) && OneImagePerLeaf(n, src, dest, rho, next)
    ensures BarendregtTerm(n) ==> CaptureAvoiding(n, src, dest, rho)
  {
    src', dest', next' := src, dest, next;
    var visited: Memo := map[];
    var visit := [n];
    ghost var t := Trace(PartSet(n), src, dest, next, Empty, map[], map[]);
    PartSetClosed(n);
    assert src + [] == src && dest[..|dest|] == dest;
    while visit != []
      invariant Invariant(n, t, visited, src', dest', next')
      invariant StackIs(n, t.st, visited, visit)
      invariant t.src0 == src && t.dest0 == dest && t.k == next
      decreases t.all - visited.Keys, |visit|
    {
      TopOfStack(n, t.st, visited, visit);
      var curr := visit[|visit| - 1];
      visit := visit[..|visit| - 1];
      OpenIffNull(n, t.all, t.st, visited, curr);
      if curr !in visited {
        if curr in src' || |Children(curr)| == 0 {
          visited, t := VisitLeaf(n, visited, src', dest', next', curr, t);
        } else {
          FlattenOpen(curr, Popped(t.st));
          visited, src', dest', next', t := VisitFirst(n, visited, src', dest', next', curr, t);
          visit := visit + [curr] + Parts(curr);
        }
      } else if visited[curr].None? {
        visited, src', dest', t := VisitLast(n, visited, src', dest', next', curr, t);
      } else {
        t := SkipStep(n, t, visited, src', dest', next', curr);
      }
    }
    FinishedMemo(n, t, visited, src', dest', next');
    r, rho := visited[n].value, t.rho;
  }

  // The branch for a source, an open renaming or any other leaf met for the first time.
  method VisitLeaf(n: Node, visited: Memo, src: seq<Node>, dest: seq<Node>, ghost next: nat, curr: Node, ghost t: Trace)
    returns (visited': Memo, ghost t': Trace)
    requires Invariant(n, t, visited, src, dest, next)
    requires IsNext(n, t.st, curr) && curr !in visited && (curr in src || IsLeaf(curr))
    ensures Invariant(n, t', visited', src, dest, next)
    ensures visited'.Keys == visited.Keys + {curr} && Done(visited', curr)
      && t'.(rho := t.rho) == t.(st := Popped(t.st))
  {
    var image := if curr in src then dest[LastIndex(src, curr)] else curr;
    visited' := visited[curr := Some(image)];
    t' := LeafStep(n, t, visited, src, dest, next, curr);
  }

  // The branch for a node with children met for the first time: rename what a closure binds, then visit
  // the parts.
  method VisitFirst(n: Node, visited: Memo, src: seq<Node>, dest: seq<Node>, next: nat, curr: Node, ghost t: Trace)
    returns (visited': Memo, src': seq<Node>, dest': seq<Node>, next': nat, ghost t': Trace)
    requires Invariant(n, t, visited, src, dest, next)
    requires IsNext(n, t.st, curr) && curr !in visited && !IsLeaf(curr)
    ensures Invariant(n, t', visited', src', dest', next')
    ensures visited'.Keys == visited.Keys + {curr}
    ensures t'.(owner := t.owner) == t.(st := Open(curr, Parts(curr), |Parts(curr)|, Popped(t.st)))
  {
    src', dest', next' := src, dest, next;
    ghost var owner := t.owner;
    if IsClosure(curr) {
      BindersAreVariables(n, t.all, t.st, visited, curr);
      src', dest', next', owner := PushRenamings(Children(curr.args[0]), src, dest, next, t.owner);
    }
    visited' := visited[curr := None];
    t' := OpenStep(n, t, visited, src, dest, curr, owner, dest', next');
  }

  // The branch for a node whose parts are all in the memo: rebuild it and drop its renamings.
  method VisitLast(n: Node, visited: Memo, src: seq<Node>, dest: seq<Node>, next: nat, curr: Node, ghost t: Trace)
    returns (visited': Memo, src': seq<Node>, dest': seq<Node>, ghost t': Trace)
    requires Invariant(n, t, visited, src, dest, next)
    requires CloseTurn(t.st) && curr == t.st.node
    ensures Invariant(n, t', visited', src', dest', next)
    ensures visited'.Keys == visited.Keys && (t.st.below.Empty? ==> Done(visited', n))
    ensures t' == t.(st := t.st.below)
  {
    OpenNodeReady(n, t.all, t.st, visited);
    var nb := BuildNode(curr, visited);
    visited' := visited[curr := Some(nb)];
    t' := CloseStep(n, t, visited, src, dest, next, nb);
    var nchildren := if IsClosure(curr) then |Children(curr.args[0])| else 0;
    src', dest' := src[..|src| - nchildren], dest[..|dest| - nchildren];
  }

  lemma FinishedMemo(n: Node, t: Trace, visited: Memo, src: seq<Node>, dest: seq<Node>, next: nat)
    requires Acceptable(n, t.src0, t.dest0, t.k) && Invariant(n, t, visited, src, dest, next) && t.st.Empty?
      && Done(visited, n)
    ensures src == t.src0 && dest == t.dest0 && t.k <= next
    ensures visited[n].value == Replace(n, t.rho) && OneImagePerLeaf(n, src, dest, t.rho, t.k)
    ensures BarendregtTerm(n) ==> CaptureAvoiding(n, src, dest, t.rho)
  {
    assert EntrySound(visited, t.rho, n);
    MemoGivesOneImage(n, t.src0, t.dest0, t.rho, t.owner, t.k, next);
    if BarendregtTerm(n) {
      MemoAvoidsCapture(n, t.src0, t.dest0, t.rho, t.owner, t.k, next);
    }
    assert src == t.src0 && dest == dest[..|t.dest0|] && EntrySound(visited, t.rho, n);
  }

  lemma OpenStep(n: Node, t: Trace, visited: Memo, src: seq<Node>, dest: seq<Node>, curr: Node,
                 owner': map<nat, Node>, dest': seq<Node>, next': nat) returns (t': Trace)
    requires exists next: nat :: next <= next' && Invariant(n, t, visited, src, dest, next)
    requires IsNext(n, t.st, curr) && curr !in visited && !IsLeaf(curr)
    requires FreshIds(owner', t.k, next') && forall id | id in t.owner :: id in owner' && owner'[id] == t.owner[id]
    requires RenamingsOwned(src + BoundList(curr), dest', |src|, owner') && dest'[..|dest|] == dest
    ensures t' == t.(owner := owner', st := Open(curr, Parts(curr), |Parts(curr)|, Popped(t.st)))
    ensures Invariant(n, t', visited[curr := None], src + BoundList(curr), dest', next')
  {
    StepOpen(n, t.all, t.st, visited, curr);
    MemoOpen(visited, t.rho, curr);
    VectorsPush(t.src0, t.dest0, Renamed(t.st), t.owner, src, dest, BoundList(curr), owner', dest');
    ImagesMonotone(n, t.src0, t.dest0, t.rho, t.owner, owner');
    t' := t.(owner := owner', st := Open(curr, Parts(curr), |Parts(curr)|, Popped(t.st)));
  }

  lemma BindersAreVariables(n: Node, all: set<Node>, st: Stack, visited: Memo, curr: Node)
    requires WellFormed(n) && PartClosed(n, all) && StackSound(n, all, st, visited) && IsNext(n, st, curr)
      && IsClosure(curr)
    ensures curr.args != [] && forall v | v in Children(curr.args[0]) :: v.BoundVariable?
  {
    NextInside(n, all, st, visited, curr);
    assert IsVarList(curr.args[0]);
  }

  lemma OpenNodeReady(n: Node, all: set<Node>, st: Stack, visited: Memo)
    requires StackSound(n, all, st, visited) && CloseTurn(st)
    ensures WellFormed(st.node) && !IsLeaf(st.node) && forall p | p in Parts(st.node) :: Done(visited, p)
  {
    CloseNode(n, st, visited, st.node);
  }

  lemma CloseStep(n: Node, t: Trace, visited: Memo, src: seq<Node>, dest: seq<Node>, next: nat,
                  nb: Node)
    returns (t': Trace)
    requires Invariant(n, t, visited, src, dest, next) && CloseTurn(t.st)
    requires var m := t.st.node;
             && nb.Apply? && nb.kind == m.kind && |nb.args| == |m.args|
             && (if m.op.Some? then m.op.value in visited && nb.op == visited[m.op.value] else nb.op == None)
             && forall i | 0 <= i < |m.args| :: m.args[i] in visited && visited[m.args[i]] == Some(nb.args[i])
    ensures t' == t.(st := t.st.below) && |BoundList(t.st.node)| <= |src| == |dest|
    ensures var size := |src| - |BoundList(t.st.node)|;
            Invariant(n, t', visited[t.st.node := Some(nb)], src[..size], dest[..size], next)
    ensures t'.st.Empty? ==> t.st.node == n
  {
    StepClose(n, t.all, t.st, visited, nb);
    assert MemoSound(visited[t.st.node := Some(nb)], t.rho) by {
      MemoNode(visited, t.rho, t.st.node, nb);
    }
    VectorsPop(t.src0, t.dest0, Renamed(t.st.below), t.owner, src, dest, BoundList(t.st.node));
    t' := t.(st := t.st.below);
  }

  // The memo tells an open node on top of the stack from any other.
  lemma OpenIffNull(n: Node, all: set<Node>, st: Stack, visited: Memo, curr: Node)
    requires WellFormed(n) && PartClosed(n, all) && StackSound(n, all, st, visited)
    requires if CloseTurn(st) then curr == st.node else IsNext(n, st, curr)
    ensures CloseTurn(st) <==> curr in visited && visited[curr].None?
    ensures curr in all
  {
    if !CloseTurn(st) {
      NextInside(n, all, st, visited, curr);
    } else {
      assert curr in OpenNodes(st);
    }
  }

  // A leaf met for the first time: its image is looked up in the vectors, and the memo stays sound.
  lemma LeafStep(n: Node, t: Trace, visited: Memo, src: seq<Node>, dest: seq<Node>, next: nat,
                 curr: Node)
    returns (t': Trace)
    requires Invariant(n, t, visited, src, dest, next)
    requires IsNext(n, t.st, curr) && curr !in visited && (curr in src || IsLeaf(curr))
    ensures t' == t.(st := Popped(t.st), rho := t.rho[curr := Lookup(src, dest, curr)])
    ensures Invariant(n, t', visited[curr := Some(Lookup(src, dest, curr))], src, dest, next)
  {
    SourcesAreLeaves(n, t.all, t.src0, t.st, curr);
    var image := Lookup(src, dest, curr);
    StepFinish(n, t.all, t.st, visited, curr, image);
    NextInside(n, t.all, t.st, visited, curr);
    if BarendregtTerm(n) {
      NextInScope(n, t.all, t.st, curr);
    }
    LeafImageSound(n, t.all, t.src0, t.dest0, t.st, dest, t.rho, t.owner, curr);
    MemoLeaf(visited, t.rho, curr, image);
    t' := t.(st := Popped(t.st), rho := t.rho[curr := image]);
  }

  // A node finished before.
  lemma SkipStep(n: Node, t: Trace, visited: Memo, src: seq<Node>, dest: seq<Node>, next: nat,
                 curr: Node)
    returns (t': Trace)
    requires Invariant(n, t, visited, src, dest, next) && IsNext(n, t.st, curr) && Done(visited, curr)
    ensures t' == t.(st := Popped(t.st)) && Invariant(n, t', visited, src, dest, next)
  {
    StepFinish(n, t.all, t.st, visited, curr, visited[curr].value);
    assert visited[curr := visited[curr]] == visited;
    t' := t.(st := Popped(t.st));
  }

  lemma SourcesAreLeaves(n: Node, all: set<Node>, src0: seq<Node>, st: Stack, curr: Node)
    requires (forall s | s in src0 :: IsLeaf(s)) && AllInside(n, all, st)
    ensures curr in src0 + Renamed(st) ==> IsLeaf(curr)
  {
    if curr in src0 + Renamed(st) && curr !in src0 {
      RenamedIsBound(n, all, st, curr);
    }
  }

  // ---- when the shared memo is enough

  // A well-formed result in which no variable made during the call is left free.
  ghost predicate Proper(r: Node, k: nat) {
    WellFormed(r) && forall y | IsFree(y, r) && y.BoundVariable? :: y.id < k
  }

  lemma SeparationSuffices(n: Node, src: seq<Node>, dest: seq<Node>, rho: map<Node, Node>, k: nat)
    requires Acceptable(n, src, dest, k) && (forall d | d in dest :: WellFormed(d))
    requires BarendregtTerm(n) && OneImagePerLeaf(n, src, dest, rho, k) && CaptureAvoiding(n, src, dest, rho)
    ensures Proper(Replace(n, rho), k)
  {
    forall l | IsLeafOf(l, n)
      ensures WellFormed(Image(rho, l))
    {
      LeafOfIsLeaf(l, n);
      LeafWellFormed(n, l);
    }
    ReplaceWellFormed(n, rho);
    forall y | IsFree(y, Replace(n, rho)) && y.BoundVariable?
      ensures y.id < k
    {
      var l := FreeOrigin(n, rho, y);
      FreeIsLeafOf(l, n);
      LookupMadeBefore(n, src, dest, k, l);
      FreeIsLeafOf(y, Image(rho, l));
    }
  }

  // If some leaf is both free and bound, its one image cannot serve both: substituting a symbol for it gives
  // a binder list with that symbol, or leaves a variable made during the call free.
  lemma SeparationIsNeeded(n: Node, x: Node, c: Node, rho: map<Node, Node>, k: nat)
    requires WellFormed(n) && IsFree(x, n) && IsBound(x, n) && c.Symbol?
    requires OneImagePerLeaf(n, [x], [c], rho, k)
    ensures !Proper(Replace(n, rho), k)
  {
    BoundIsLeafOf(x, n);
    if rho[x] == c {
      BrokenBinder(n, rho, x);
    } else {
      assert IsFreshFor(rho[x], x, k);
      FreeKept(n, rho, x);
    }
  }

  lemma {:induction false} LeafWellFormed(n: Node, l: Node)
    requires WellFormed(n) && IsLeafOf(l, n)
    ensures WellFormed(l)
  {
    if !IsLeaf(n) {
      var p :| p in Parts(n) && IsLeafOf(l, p);
      LeafWellFormed(p, l);
    }
  }

  lemma {:induction false} ReplaceWellFormed(n: Node, rho: map<Node, Node>)
    requires WellFormed(n) && forall x | IsBound(x, n) :: RenamesVariable(x, Image(rho, x))
    requires forall l | IsLeafOf(l, n) :: WellFormed(Image(rho, l))
    ensures WellFormed(Replace(n, rho))
  {
    if IsLeaf(n) {
      assert IsLeafOf(n, n);
    } else {
      var m := Replace(n, rho);
      ReplaceParts(n, rho);
      forall i | 0 <= i < |Parts(m)|
        ensures WellFormed(Parts(m)[i])
      {
        var p := Parts(n)[i];
        assert p in Parts(n);
        ReplaceWellFormed(p, rho);
      }
      if IsClosure(n) {
        ReplacedBinder(n, rho);
      }
    }
  }

  // A closure whose variables are renamed to variables still starts with a list of bound variables.
  lemma ReplacedBinder(n: Node, rho: map<Node, Node>)
    requires WellFormed(n) && IsClosure(n) && forall x | x in BoundList(n) :: RenamesVariable(x, Image(rho, x))
    ensures var m := Replace(n, rho); IsClosure(m) && m.op.None? && m.args != [] && IsVarList(m.args[0])
  {
    ReplaceClosure(n, rho);
    var list, m := n.args[0], Replace(n, rho);
    assert !IsLeaf(list) && m.args[0] == Replace(list, rho);
    assert m.args[0].args == BoundList(m);
    forall i | 0 <= i < |BoundList(m)|
      ensures BoundList(m)[i].BoundVariable?
    {
      assert RenamesVariable(BoundList(n)[i], BoundList(m)[i]);
    }
  }

  lemma ScopedReplaced(n: Node, rho: map<Node, Node>, i: nat)
    requires WellFormed(n) && !IsLeaf(n)
    ensures !IsLeaf(Replace(n, rho)) && |Scoped(Replace(n, rho))| == |Scoped(n)|
    ensures i < |Scoped(n)| ==>
              && Scoped(Replace(n, rho))[i] == Replace(Scoped(n)[i], rho)
              && Scoped(n)[i] in Parts(n) && WellFormed(Scoped(n)[i])
  {
    ReplaceParts(n, rho);
    if IsClosure(n) {
      ReplaceClosure(n, rho);
    }
    assert i < |Scoped(n)| ==> Scoped(n)[i] in Parts(n);
  }

  lemma FreeThroughScope(n: Node, l: Node, i: nat)
    requires !IsLeaf(n) && i < |Scoped(n)| && IsFree(l, Scoped(n)[i]) && l !in BoundList(n)
    ensures IsFree(l, n)
  {
  }

  // A free leaf of the replaced term comes from the image of a free leaf.
  lemma {:induction false} FreeOrigin(n: Node, rho: map<Node, Node>, y: Node) returns (l: Node)
    requires WellFormed(n) && (forall x | IsBound(x, n) :: RenamesVariable(x, Image(rho, x)))
    requires IsFree(y, Replace(n, rho))
    ensures IsFree(l, n) && IsFree(y, Image(rho, l))
  {
    if IsLeaf(n) {
      l := n;
    } else {
      ScopedReplaced(n, rho, 0);
      var i :| 0 <= i < |Scoped(n)| && IsFree(y, Scoped(Replace(n, rho))[i]);
      ScopedReplaced(n, rho, i);
      l := FreeOrigin(Scoped(n)[i], rho, y);
      NotOwnBinder(n, rho, l, y);
      FreeThroughScope(n, l, i);
    }
  }

  lemma NotOwnBinder(n: Node, rho: map<Node, Node>, l: Node, y: Node)
    requires WellFormed(n) && (forall x | IsBound(x, n) :: RenamesVariable(x, Image(rho, x)))
    requires y !in BoundList(Replace(n, rho)) && IsFree(y, Image(rho, l))
    ensures l !in BoundList(n)
  {
    if IsClosure(n) {
      ReplaceClosure(n, rho);
      forall j | 0 <= j < |BoundList(n)|
        ensures BoundList(n)[j] != l
      {
        assert IsBound(BoundList(n)[j], n) && BoundList(Replace(n, rho))[j] == Image(rho, BoundList(n)[j]);
      }
    }
  }

  // A binder whose variable is replaced by a symbol is malformed.
  lemma {:induction false} BrokenBinder(n: Node, rho: map<Node, Node>, x: Node)
    requires WellFormed(n) && IsBound(x, n) && Image(rho, x).Symbol?
    ensures !WellFormed(Replace(n, rho))
  {
    if x in BoundList(n) {
      ReplaceClosure(n, rho);
      var i :| 0 <= i < |BoundList(n)| && BoundList(n)[i] == x;
      assert BoundList(Replace(n, rho))[i] in BoundList(Replace(n, rho));
    } else {
      ReplaceParts(n, rho);
      var i :| 0 <= i < |Parts(n)| && IsBound(x, Parts(n)[i]);
      BrokenBinder(Parts(n)[i], rho, x);
      assert Parts(Replace(n, rho))[i] in Parts(Replace(n, rho));
    }
  }

  // A free leaf whose image is a variable of its own stays free.
  lemma {:induction false} FreeKept(n: Node, rho: map<Node, Node>, x: Node)
    requires WellFormed(n) && IsFree(x, n) && Image(rho, x).BoundVariable?
    requires forall y | IsLeafOf(y, n) && Image(rho, y) == Image(rho, x) :: y == x
    ensures IsFree(Image(rho, x), Replace(n, rho))
  {
    if !IsLeaf(n) {
      var i :| 0 <= i < |Scoped(n)| && IsFree(x, Scoped(n)[i]);
      ScopedReplaced(n, rho, i);
      FreeKept(Scoped(n)[i], rho, x);
      BinderKeepsApart(n, rho, x);
      FreeThroughScope(Replace(n, rho), Image(rho, x), i);
    }
  }

  lemma BinderKeepsApart(n: Node, rho: map<Node, Node>, x: Node)
    requires WellFormed(n) && !IsLeaf(n) && x !in BoundList(n)
    requires forall y | IsLeafOf(y, n) && Image(rho, y) == Image(rho, x) :: y == x
    ensures Image(rho, x) !in BoundList(Replace(n, rho))
  {
    if IsClosure(n) {
      ReplaceClosure(n, rho);
      forall j | 0 <= j < |BoundList(n)|
        ensures BoundList(Replace(n, rho))[j] != Image(rho, x)
      {
        BoundIsLeafOf(BoundList(n)[j], n);
      }
    }
  }
}
