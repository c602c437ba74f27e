/** The discrimination tree: insertion in place, and the backtracking search for the stored terms that match. */
module MatchTrie {
  import opened Options
  import opened MatchTerms
  import opened Sequences

  // A trie node: the variables among its branches, in order of insertion, and the term stored at it.
  datatype Entry = Entry(vars: seq<Term>, data: Option<Term>)

  // The trie nodes in memory. A node is identified by the path that leads to it; the branch from p by key k
  // exists when p + [k] does.
  type Nodes = map<Path, Entry>

  datatype Notification = Notification(data: Term, bindings: Bindings)

  // ---- what a trie that stores the given terms looks like

  ghost predicate OnTheWay(terms: set<Term>, p: Path) {
    p == [] || exists t | t in terms :: p <= Code(t)
  }

  ghost predicate Stores(nodes: Nodes, terms: set<Term>) {
    && [] in nodes
    && (forall p {:trigger ValidEntry(nodes, terms, p)} | p in nodes :: ValidEntry(nodes, terms, p))
    && (forall t {:trigger StoresTerm(nodes, t)} | t in terms :: StoresTerm(nodes, t))
  }

  ghost predicate ValidEntry(nodes: Nodes, terms: set<Term>, p: Path)
    requires p in nodes
  {
    && OnTheWay(terms, p) && (p != [] ==> Init(p) in nodes)
    && (nodes[p].data.Some? ==> nodes[p].data.value in terms && Code(nodes[p].data.value) == p)
    && VariablesIndexed(nodes, p)
  }

  // The variable list names exactly the variable branches, each once.
  ghost predicate VariablesIndexed(nodes: Nodes, p: Path)
    requires p in nodes
  {
    && (forall v | v in nodes[p].vars :: v.Var?)
    && (forall v :: v in nodes[p].vars <==> p + [VarKey(v)] in nodes)
    && (forall i, j | 0 <= i < j < |nodes[p].vars| :: nodes[p].vars[i] != nodes[p].vars[j])
  }

  ghost predicate StoresTerm(nodes: Nodes, t: Term) {
    && (forall i | 0 <= i <= |Code(t)| :: Code(t)[..i] in nodes)
    && nodes[Code(t)[..|Code(t)|]].data == Some(t)
  }

  // ---- the search as a recursive definition

  ghost function Matches(allowed: Typing, nodes: Nodes, p: Path, todo: seq<Term>, bs: Bindings): seq<Notification>
    decreases StackSize(todo), 2, 0
  {
    if p !in nodes then []
    else if todo == [] then (if nodes[p].data.Some? then [Notification(nodes[p].data.value, bs)] else [])
    else OpMatches(allowed, nodes, p, todo, bs) + VarMatches(allowed, nodes, p, todo, bs, 0)
  }

  ghost function OpMatches(allowed: Typing, nodes: Nodes, p: Path, todo: seq<Term>, bs: Bindings): seq<Notification>
    requires todo != []
    decreases StackSize(todo), 0, 0
  {
    StackSizeStep(todo);
    var t := Last(todo);
    if t.App? then Matches(allowed, nodes, p + [OpKey(t.op, |t.args|)], Init(todo) + t.args, bs) else []
  }

  // The matches through the variables from index i on.
  ghost function VarMatches(allowed: Typing, nodes: Nodes, p: Path, todo: seq<Term>, bs: Bindings,
                            i: nat): seq<Notification>
    requires todo != [] && p in nodes && i <= |nodes[p].vars|
    decreases StackSize(todo), 1, |nodes[p].vars| - i
  {
    if i == |nodes[p].vars| then []
    else VarMatch(allowed, nodes, p, todo, bs, nodes[p].vars[i]) + VarMatches(allowed, nodes, p, todo, bs, i + 1)
  }

  ghost function VarMatch(allowed: Typing, nodes: Nodes, p: Path, todo: seq<Term>, bs: Bindings,
                          v: Term): seq<Notification>
    requires todo != []
    decreases StackSize(todo), 0, 0
  {
    StackSizeStep(todo);
    match Bound(allowed, bs, v, Last(todo))
    case None => []
    case Some(bs') => Matches(allowed, nodes, p + [VarKey(v)], Init(todo), bs')
  }

  // The bindings after v is required to stand for t, if it can.
  function Bound(allowed: Typing, bs: Bindings, v: Term, t: Term): Option<Bindings> {
    if v in ToMap(bs) then (if ToMap(bs)[v] == t then Some(bs) else None)
    else if allowed(v, t) then Some(bs + [(v, t)])
    else None
  }

  // ---- the search is exact

  function Count(log: seq<Notification>, t: Term): nat {
    if log == [] then 0 else Count(log[..|log| - 1], t) + if log[|log| - 1].data == t then 1 else 0
  }

  lemma {:induction false} CountConcat(a: seq<Notification>, b: seq<Notification>, t: Term)
    ensures Count(a + b, t) == Count(a, t) + Count(b, t)
  {
    if b == [] {
      assert a + b == a;
    } else {
      assert (a + b)[..|a + b| - 1] == a + b[..|b| - 1];
      CountConcat(a, b[..|b| - 1], t);
    }
  }

  lemma {:induction false} CountAbsent(log: seq<Notification>, t: Term)
    requires forall m | m in log :: m.data != t
    ensures Count(log, t) == 0
  {
    if log != [] {
      CountAbsent(log[..|log| - 1], t);
    }
  }

  // A notification below p, with `todo` still to match, is for a stored term whose code continues p with the
  // code of patterns that match `todo`.
  ghost predicate Explained(allowed: Typing, terms: set<Term>, p: Path, todo: seq<Term>, bs: Bindings,
                            m: Notification) {
    m.data in terms && exists ps ::
      Code(m.data) == p + StackCode(ps) && MatchStack(allowed, ps, todo, bs) == Some(m.bindings)
  }

  // Through a variable branch: the pattern is the variable.
  lemma ExplainVar(allowed: Typing, terms: set<Term>, p: Path, todo: seq<Term>, bs: Bindings, m: Notification, v: Term)
    requires todo != [] && v.Var? && Bound(allowed, bs, v, Last(todo)).Some?
    requires Explained(allowed, terms, p + [VarKey(v)], Init(todo), Bound(allowed, bs, v, Last(todo)).value, m)
    ensures Explained(allowed, terms, p, todo, bs, m)
  {
    var bs' := Bound(allowed, bs, v, Last(todo)).value;
    var ps :| Code(m.data) == p + [VarKey(v)] + StackCode(ps)
              && MatchStack(allowed, ps, Init(todo), bs') == Some(m.bindings);
    Snoc(ps, v);
    StackCodeStep(ps + [v]);
    Assoc(p, [VarKey(v)], StackCode(ps));
    assert MatchStack(allowed, ps + [v], todo, bs) == Some(m.bindings);
  }

  // The terms from the given index on as the arguments of one term.
  ghost function Applied(ps: seq<Term>, from: nat, op: nat): seq<Term>
    requires from <= |ps|
  {
    ps[..from] + [App(op, ps[from..])]
  }

  lemma AppliedArgs(ps: seq<Term>, from: nat, op: nat)
    requires from <= |ps|
    ensures var ps' := Applied(ps, from, op);
      && |ps'| == from + 1 && Last(ps') == App(op, ps[from..]) && Init(ps') == ps[..from]
      && Init(ps') + Last(ps').args == ps
  {
  }

  // Through an operator branch: the pattern is the operator applied to the patterns on top of the stack.
  lemma ExplainOp(allowed: Typing, terms: set<Term>, p: Path, todo: seq<Term>, bs: Bindings, m: Notification)
    requires todo != [] && Last(todo).App?
    requires var t := Last(todo);
             Explained(allowed, terms, p + [OpKey(t.op, |t.args|)], Init(todo) + t.args, bs, m)
    ensures Explained(allowed, terms, p, todo, bs, m)
  {
    var t := Last(todo);
    var k := OpKey(t.op, |t.args|);
    var ps :| Code(m.data) == p + [k] + StackCode(ps)
              && MatchStack(allowed, ps, Init(todo) + t.args, bs) == Some(m.bindings);
    var ps' := Applied(ps, |ps| - |t.args|, t.op);
    AppliedArgs(ps, |ps| - |t.args|, t.op);
    StackCodeStep(ps');
    Assoc(p, [k], StackCode(ps));
    assert MatchStack(allowed, ps', todo, bs) == Some(m.bindings);
  }

  lemma {:induction false} MatchesSound(allowed: Typing, nodes: Nodes, terms: set<Term>, p: Path, todo: seq<Term>,
                                        bs: Bindings, m: Notification)
    requires Stores(nodes, terms) && m in Matches(allowed, nodes, p, todo, bs)
    ensures Explained(allowed, terms, p, todo, bs, m)
    decreases StackSize(todo), 1, 0
  {
    if todo == [] {
      assert ValidEntry(nodes, terms, p);
      assert Code(m.data) == p + StackCode([]);
    } else {
      StackSizeStep(todo);
      if m in OpMatches(allowed, nodes, p, todo, bs) {
        var t := Last(todo);
        MatchesSound(allowed, nodes, terms, p + [OpKey(t.op, |t.args|)], Init(todo) + t.args, bs, m);
        ExplainOp(allowed, terms, p, todo, bs, m);
      } else {
        VarMatchesSound(allowed, nodes, terms, p, todo, bs, 0, m);
      }
    }
  }

  lemma {:induction false} VarMatchesSound(allowed: Typing, nodes: Nodes, terms: set<Term>, p: Path, todo: seq<Term>,
                                           bs: Bindings, i: nat, m: Notification)
    requires Stores(nodes, terms) && todo != [] && p in nodes && i <= |nodes[p].vars|
    requires m in VarMatches(allowed, nodes, p, todo, bs, i)
    ensures Explained(allowed, terms, p, todo, bs, m)
    decreases StackSize(todo), 0, |nodes[p].vars| - i
  {
    var v := nodes[p].vars[i];
    if m in VarMatch(allowed, nodes, p, todo, bs, v) {
      StackSizeStep(todo);
      var bs' := Bound(allowed, bs, v, Last(todo)).value;
      MatchesSound(allowed, nodes, terms, p + [VarKey(v)], Init(todo), bs', m);
      assert ValidEntry(nodes, terms, p) && v in nodes[p].vars;
      ExplainVar(allowed, terms, p, todo, bs, m, v);
    } else {
      VarMatchesSound(allowed, nodes, terms, p, todo, bs, i + 1, m);
    }
  }

  // Nothing found through branch k is for a term whose code takes another branch.
  lemma OtherBranchAbsent(allowed: Typing, nodes: Nodes, terms: set<Term>, p: Path, k: Key, todo: seq<Term>,
                          bs: Bindings, t: Term, k': Key)
    requires Stores(nodes, terms) && p + [k'] <= Code(t) && k' != k
    ensures Count(Matches(allowed, nodes, p + [k], todo, bs), t) == 0
  {
    forall m | m in Matches(allowed, nodes, p + [k], todo, bs)
      ensures m.data != t
    {
      MatchesSound(allowed, nodes, terms, p + [k], todo, bs, m);
      assert Code(m.data)[|p|] == k && Code(t)[|p|] == (p + [k'])[|p|] == k';
    }
    CountAbsent(Matches(allowed, nodes, p + [k], todo, bs), t);
  }

  // Among the variable branches, only the one on the term's code can find the term.
  lemma {:induction false} VarMatchesCount(allowed: Typing, nodes: Nodes, terms: set<Term>, p: Path, todo: seq<Term>,
                                           bs: Bindings, i: nat, t: Term, k: Key, at: nat)
    requires Stores(nodes, terms) && todo != [] && p in nodes && i <= |nodes[p].vars|
    requires p + [k] <= Code(t) && forall j | 0 <= j < |nodes[p].vars| && j != at :: VarKey(nodes[p].vars[j]) != k
    ensures Count(VarMatches(allowed, nodes, p, todo, bs, i), t) ==
            if i <= at < |nodes[p].vars| then Count(VarMatch(allowed, nodes, p, todo, bs, nodes[p].vars[at]), t) else 0
    decreases |nodes[p].vars| - i
  {
    if i < |nodes[p].vars| {
      var v := nodes[p].vars[i];
      VarMatchesCount(allowed, nodes, terms, p, todo, bs, i + 1, t, k, at);
      CountConcat(VarMatch(allowed, nodes, p, todo, bs, v), VarMatches(allowed, nodes, p, todo, bs, i + 1), t);
      if i != at && Bound(allowed, bs, v, Last(todo)).Some? {
        OtherBranchAbsent(allowed, nodes, terms, p, VarKey(v), Init(todo), Bound(allowed, bs, v, Last(todo)).value, t,
                          k);
      }
    }
  }

  // A stored term whose code continues p with patterns that match is found exactly once below p.
  lemma {:induction false} MatchesComplete(allowed: Typing, nodes: Nodes, terms: set<Term>, p: Path, todo: seq<Term>,
                                           bs: Bindings, t: Term, ps: seq<Term>)
    requires Stores(nodes, terms) && t in terms && Code(t) == p + StackCode(ps)
    requires MatchStack(allowed, ps, todo, bs).Some?
    ensures Count(Matches(allowed, nodes, p, todo, bs), t) == 1
    decreases StackSize(todo)
  {
    assert StoresTerm(nodes, t) && p == Code(t)[..|p|] && ValidEntry(nodes, terms, p);
    if todo == [] {
      assert p == Code(t) == Code(t)[..|Code(t)|];
      var log := Matches(allowed, nodes, p, todo, bs);
      assert |log| == 1 && log[..0] == [] && Count(log[..0], t) == 0;
    } else {
      StackSizeStep(todo);
      StackCodeStep(ps);
      var pattern := Last(ps);
      CountConcat(OpMatches(allowed, nodes, p, todo, bs), VarMatches(allowed, nodes, p, todo, bs, 0), t);
      if pattern.Var? {
        MatchesCompleteVar(allowed, nodes, terms, p, todo, bs, t, ps);
      } else {
        MatchesCompleteOp(allowed, nodes, terms, p, todo, bs, t, ps);
      }
    }
  }

  lemma {:induction false} MatchesCompleteVar(allowed: Typing, nodes: Nodes, terms: set<Term>, p: Path,
                                              todo: seq<Term>, bs: Bindings, t: Term, ps: seq<Term>)
    requires Stores(nodes, terms) && t in terms && Code(t) == p + StackCode(ps) && p in nodes
    requires todo != [] && MatchStack(allowed, ps, todo, bs).Some? && Last(ps).Var?
    ensures Count(OpMatches(allowed, nodes, p, todo, bs), t) == 0
      && Count(VarMatches(allowed, nodes, p, todo, bs, 0), t) == 1
    decreases StackSize(todo), 0
  {
    var v, q := Last(ps), Last(todo);
    StackSizeStep(todo);
    StackCodeStep(ps);
    var next := p + [VarKey(v)];
    Assoc(p, [VarKey(v)], StackCode(Init(ps)));
    assert Code(t) == next + StackCode(Init(ps));
    if q.App? {
      OtherBranchAbsent(allowed, nodes, terms, p, OpKey(q.op, |q.args|), Init(todo) + q.args, bs, t, VarKey(v));
    }
    assert StoresTerm(nodes, t) && next == Code(t)[..|next|] && ValidEntry(nodes, terms, p);
    var at :| 0 <= at < |nodes[p].vars| && nodes[p].vars[at] == v;
    VarMatchesCount(allowed, nodes, terms, p, todo, bs, 0, t, VarKey(v), at);
    MatchesComplete(allowed, nodes, terms, next, Init(todo), Bound(allowed, bs, v, q).value, t, Init(ps));
  }

  lemma {:induction false} MatchesCompleteOp(allowed: Typing, nodes: Nodes, terms: set<Term>, p: Path, todo: seq<Term>,
                                             bs: Bindings, t: Term, ps: seq<Term>)
    requires Stores(nodes, terms) && t in terms && Code(t) == p + StackCode(ps) && p in nodes
    requires todo != [] && MatchStack(allowed, ps, todo, bs).Some? && Last(ps).App?
    ensures Count(OpMatches(allowed, nodes, p, todo, bs), t) == 1
      && Count(VarMatches(allowed, nodes, p, todo, bs, 0), t) == 0
    decreases StackSize(todo), 0
  {
    var pattern, q := Last(ps), Last(todo);
    StackSizeStep(todo);
    StackCodeStep(ps);
    var k := OpKey(q.op, |q.args|);
    Assoc(p, [k], StackCode(Init(ps) + pattern.args));
    assert Code(t) == p + [k] + StackCode(Init(ps) + pattern.args);
    MatchesComplete(allowed, nodes, terms, p + [k], Init(todo) + q.args, bs, t, Init(ps) + pattern.args);
    VarMatchesCount(allowed, nodes, terms, p, todo, bs, 0, t, k, |nodes[p].vars|);
  }

  // Every notification of the whole search is for a stored term, with a type-respecting substitution of
  // exactly its variables that maps it to the query; a stored term is notified once if it has such a
  // substitution, and otherwise never.
  lemma SearchIsExact(allowed: Typing, nodes: Nodes, terms: set<Term>, q: Term)
    requires Stores(nodes, terms)
    ensures forall m | m in Matches(allowed, nodes, [], [q], []) ::
              && m.data in terms && ValidBindings(allowed, m.bindings)
              && IsInstance(allowed, m.data, q, ToMap(m.bindings))
              && forall v :: v in ToMap(m.bindings) <==> OccursIn(v, m.data)
    ensures forall t | t in terms ::
              Count(Matches(allowed, nodes, [], [q], []), t) ==
                if exists theta :: IsInstance(allowed, t, q, theta) then 1 else 0
  {
    forall m | m in Matches(allowed, nodes, [], [q], [])
      ensures m.data in terms && ValidBindings(allowed, m.bindings) && IsInstance(allowed, m.data, q, ToMap(m.bindings))
      ensures forall v :: v in ToMap(m.bindings) <==> OccursIn(v, m.data)
    {
      NotificationMatches(allowed, nodes, terms, q, m);
      MatchIsExact(allowed, m.data, q);
    }
    forall t | t in terms
      ensures Count(Matches(allowed, nodes, [], [q], []), t) ==
        if exists theta :: IsInstance(allowed, t, q, theta) then 1 else 0
    {
      MatchIsExact(allowed, t, q);
      SearchCount(allowed, nodes, terms, q, t);
    }
  }

  lemma NotificationMatches(allowed: Typing, nodes: Nodes, terms: set<Term>, q: Term, m: Notification)
    requires Stores(nodes, terms) && m in Matches(allowed, nodes, [], [q], [])
    ensures m.data in terms && MatchStack(allowed, [m.data], [q], []) == Some(m.bindings)
  {
    MatchesSound(allowed, nodes, terms, [], [q], [], m);
    var ps :| Code(m.data) == [] + StackCode(ps) && MatchStack(allowed, ps, [q], []) == Some(m.bindings);
    StackCodeOne(m.data);
    StackCodeInjective(ps, [m.data]);
  }

  lemma SearchCount(allowed: Typing, nodes: Nodes, terms: set<Term>, q: Term, t: Term)
    requires Stores(nodes, terms) && t in terms
    ensures Count(Matches(allowed, nodes, [], [q], []), t) == if MatchStack(allowed, [t], [q], []).Some? then 1 else 0
  {
    var log := Matches(allowed, nodes, [], [q], []);
    if MatchStack(allowed, [t], [q], []).Some? {
      StackCodeOne(t);
      MatchesComplete(allowed, nodes, terms, [], [q], [], t, [t]);
    } else {
      forall m | m in log
        ensures m.data != t
      {
        NotificationMatches(allowed, nodes, terms, q, m);
      }
      CountAbsent(log, t);
    }
  }

  lemma StackCodeOne(t: Term)
    ensures StackCode([t]) == Code(t)
  {
    assert Init([t]) == [] && Last([t]) == t;
  }

  // ---- the order of the notifications

  // Of two branches of a node the search takes an operator before a variable, and variables as they are listed.
  ghost predicate TakenFirst(vars: seq<Term>, k: Key, l: Key) {
    l.VarKey? && (k.OpKey? || exists i, j | 0 <= i < j < |vars| :: vars[i] == k.v && vars[j] == l.v)
  }

  // Where the paths part, a takes the branch that comes first.
  ghost predicate ComesBefore(nodes: Nodes, a: Path, b: Path) {
    exists p, k, l {:trigger PartAt(nodes, a, b, p, k, l)} :: PartAt(nodes, a, b, p, k, l)
  }

  ghost predicate PartAt(nodes: Nodes, a: Path, b: Path, p: Path, k: Key, l: Key) {
    p in nodes && p + [k] <= a && p + [l] <= b && TakenFirst(nodes[p].vars, k, l)
  }

  ghost predicate InOrder(nodes: Nodes, log: seq<Notification>) {
    forall i, j | 0 <= i < j < |log| :: ComesBefore(nodes, Code(log[i].data), Code(log[j].data))
  }

  lemma InOrderConcat(nodes: Nodes, log: seq<Notification>, more: seq<Notification>)
    requires InOrder(nodes, log) && InOrder(nodes, more)
    requires forall m, m' | m in log && m' in more :: ComesBefore(nodes, Code(m.data), Code(m'.data))
    ensures InOrder(nodes, log + more)
  {
    var both := log + more;
    forall i, j | 0 <= i < j < |both|
      ensures ComesBefore(nodes, Code(both[i].data), Code(both[j].data))
    {
      assert i < |log| ==> both[i] in log;
      assert j >= |log| ==> both[j] in more;
    }
  }

  lemma FoundBelow(allowed: Typing, nodes: Nodes, terms: set<Term>, p: Path, todo: seq<Term>, bs: Bindings,
                   m: Notification)
    requires Stores(nodes, terms) && m in Matches(allowed, nodes, p, todo, bs)
    ensures p <= Code(m.data)
  {
    MatchesSound(allowed, nodes, terms, p, todo, bs, m);
  }

  // Notifications come in the order in which the stored terms' paths leave each other.
  lemma {:induction false} MatchesInOrder(allowed: Typing, nodes: Nodes, terms: set<Term>, p: Path, todo: seq<Term>,
                                          bs: Bindings)
    requires Stores(nodes, terms)
    ensures InOrder(nodes, Matches(allowed, nodes, p, todo, bs))
    decreases StackSize(todo), 1, 0
  {
    if p in nodes && todo != [] {
      StackSizeStep(todo);
      var t := Last(todo);
      var ops := OpMatches(allowed, nodes, p, todo, bs);
      if t.App? {
        MatchesInOrder(allowed, nodes, terms, p + [OpKey(t.op, |t.args|)], Init(todo) + t.args, bs);
      }
      VarMatchesInOrder(allowed, nodes, terms, p, todo, bs, 0);
      forall m, m' | m in ops && m' in VarMatches(allowed, nodes, p, todo, bs, 0)
        ensures ComesBefore(nodes, Code(m.data), Code(m'.data))
      {
        var k := OpKey(t.op, |t.args|);
        FoundBelow(allowed, nodes, terms, p + [k], Init(todo) + t.args, bs, m);
        var j := FoundByVar(allowed, nodes, terms, p, todo, bs, 0, m');
        assert PartAt(nodes, Code(m.data), Code(m'.data), p, k, VarKey(nodes[p].vars[j]));
      }
      InOrderConcat(nodes, ops, VarMatches(allowed, nodes, p, todo, bs, 0));
    }
  }

  lemma {:induction false} FoundByVar(allowed: Typing, nodes: Nodes, terms: set<Term>, p: Path, todo: seq<Term>,
                                      bs: Bindings, i: nat, m: Notification)
    returns (j: nat)
    requires Stores(nodes, terms) && todo != [] && p in nodes && i <= |nodes[p].vars|
    requires m in VarMatches(allowed, nodes, p, todo, bs, i)
    ensures i <= j < |nodes[p].vars| && p + [VarKey(nodes[p].vars[j])] <= Code(m.data)
    decreases |nodes[p].vars| - i
  {
    var v := nodes[p].vars[i];
    if m in VarMatch(allowed, nodes, p, todo, bs, v) {
      j := i;
      FoundBelow(allowed, nodes, terms, p + [VarKey(v)], Init(todo), Bound(allowed, bs, v, Last(todo)).value, m);
    } else {
      j := FoundByVar(allowed, nodes, terms, p, todo, bs, i + 1, m);
    }
  }

  lemma {:induction false} VarMatchesInOrder(allowed: Typing, nodes: Nodes, terms: set<Term>, p: Path, todo: seq<Term>,
                                             bs: Bindings, i: nat)
    requires Stores(nodes, terms) && todo != [] && p in nodes && i <= |nodes[p].vars|
    ensures InOrder(nodes, VarMatches(allowed, nodes, p, todo, bs, i))
    decreases StackSize(todo), 0, |nodes[p].vars| - i
  {
    if i < |nodes[p].vars| {
      StackSizeStep(todo);
      var v := nodes[p].vars[i];
      var first, rest := VarMatch(allowed, nodes, p, todo, bs, v), VarMatches(allowed, nodes, p, todo, bs, i + 1);
      var bs' := Bound(allowed, bs, v, Last(todo));
      if bs'.Some? {
        MatchesInOrder(allowed, nodes, terms, p + [VarKey(v)], Init(todo), bs'.value);
      }
      VarMatchesInOrder(allowed, nodes, terms, p, todo, bs, i + 1);
      forall m, m' | m in first && m' in rest
        ensures ComesBefore(nodes, Code(m.data), Code(m'.data))
      {
        FoundBelow(allowed, nodes, terms, p + [VarKey(v)], Init(todo), bs'.value, m);
        var j := FoundByVar(allowed, nodes, terms, p, todo, bs, i + 1, m');
        assert TakenFirst(nodes[p].vars, VarKey(v), VarKey(nodes[p].vars[j]));
        assert PartAt(nodes, Code(m.data), Code(m'.data), p, VarKey(v), VarKey(nodes[p].vars[j]));
      }
      InOrderConcat(nodes, first, rest);
    }
  }

  // ---- insertion

  // The trie while n is being inserted and the path `curr` of n has been walked.
  ghost predicate Inserting(nodes: Nodes, terms: set<Term>, n: Term, curr: Path) {
    && [] in nodes && curr <= Code(n)
    && (forall p {:trigger ValidEntry(nodes, terms + {n}, p)} | p in nodes :: ValidEntry(nodes, terms + {n}, p))
    && (forall t {:trigger StoresTerm(nodes, t)} | t in terms :: StoresTerm(nodes, t))
    && (forall i | 0 <= i <= |curr| :: curr[..i] in nodes)
  }

  // No node is lost, and the variables listed at a node stay in front of those that are added.
  ghost predicate Grows(nodes: Nodes, nodes': Nodes) {
    forall p | p in nodes :: p in nodes' && nodes[p].vars <= nodes'[p].vars
  }

  lemma InsertionStarts(nodes: Nodes, terms: set<Term>, n: Term)
    requires Stores(nodes, terms)
    ensures Inserting(nodes, terms, n, [])
  {
    forall p | p in nodes
      ensures ValidEntry(nodes, terms + {n}, p)
    {
      assert ValidEntry(nodes, terms, p);
    }
  }

  // The trie after branch k of p is followed: the branch is created if it is missing, and a new variable is listed.
  function WithBranch(nodes: Nodes, p: Path, k: Key): Nodes
    requires p in nodes
  {
    var listed := if k.VarKey? && k.v !in nodes[p].vars then nodes[p := Entry(nodes[p].vars + [k.v], nodes[p].data)]
      else nodes;
    if p + [k] in listed then listed else listed[p + [k] := Entry([], None)]
  }

  // The branches of the nodes after branch k of p is followed.
  lemma BranchesAfter(nodes: Nodes, p: Path, k: Key, q: Path, v: Term)
    requires p in nodes
    ensures q + [VarKey(v)] in WithBranch(nodes, p, k) <==> q + [VarKey(v)] in nodes || (q == p && VarKey(v) == k)
  {
    assert Init(q + [VarKey(v)]) == q && Last(q + [VarKey(v)]) == VarKey(v);
    assert Init(p + [k]) == p && Last(p + [k]) == k;
  }

  lemma BranchIndexed(nodes: Nodes, p: Path, k: Key, q: Path)
    requires p in nodes && VariablesIndexed(nodes, p) && (k.VarKey? ==> k.v.Var?)
    requires if q in nodes then VariablesIndexed(nodes, q) else q == p + [k] && forall v :: q + [VarKey(v)] !in nodes
    ensures q in WithBranch(nodes, p, k) && VariablesIndexed(WithBranch(nodes, p, k), q)
  {
    var after := WithBranch(nodes, p, k);
    assert p + [k] != p;
    forall v
      ensures v in after[q].vars <==> q + [VarKey(v)] in after
    {
      BranchesAfter(nodes, p, k, q, v);
    }
  }

  lemma BranchEntry(nodes: Nodes, terms: set<Term>, n: Term, curr: Path, k: Key, p: Path)
    requires Inserting(nodes, terms, n, curr) && curr + [k] <= Code(n) && (k.VarKey? ==> k.v.Var?)
    requires curr in nodes && p in WithBranch(nodes, curr, k)
    ensures ValidEntry(WithBranch(nodes, curr, k), terms + {n}, p)
  {
    assert ValidEntry(nodes, terms + {n}, curr);
    assert Init(curr + [k]) == curr;
    if p in nodes {
      assert ValidEntry(nodes, terms + {n}, p);
    } else {
      forall v
        ensures p + [VarKey(v)] !in nodes
      {
        assert Init(p + [VarKey(v)]) == p;
        assert p + [VarKey(v)] in nodes ==> ValidEntry(nodes, terms + {n}, p + [VarKey(v)]);
      }
    }
    BranchIndexed(nodes, curr, k, p);
  }

  // Walking on along the code of n keeps the trie of the terms stored before intact.
  lemma BranchFollowed(nodes: Nodes, terms: set<Term>, n: Term, curr: Path, k: Key)
    requires Inserting(nodes, terms, n, curr) && curr + [k] <= Code(n) && (k.VarKey? ==> k.v.Var?)
    ensures curr in nodes && Inserting(WithBranch(nodes, curr, k), terms, n, curr + [k])
  {
    assert curr == curr[..|curr|];
    var after := WithBranch(nodes, curr, k);
    forall p | p in after
      ensures ValidEntry(after, terms + {n}, p)
    {
      BranchEntry(nodes, terms, n, curr, k, p);
    }
    forall t | t in terms
      ensures StoresTerm(after, t)
    {
      assert StoresTerm(nodes, t);
    }
    forall i | 0 <= i <= |curr + [k]|
      ensures (curr + [k])[..i] in after
    {
      PrefixOfSnoc(curr, k, i);
    }
  }

  lemma PrefixOfSnoc(p: Path, k: Key, i: nat)
    requires i <= |p| + 1
    ensures (p + [k])[..i] == if i <= |p| then p[..i] else p + [k]
  {
  }

  // Storing n at the end of its path completes the insertion.
  lemma InsertionEnds(nodes: Nodes, terms: set<Term>, n: Term)
    requires Inserting(nodes, terms, n, Code(n))
    ensures Code(n) in nodes
    ensures Stores(nodes[Code(n) := Entry(nodes[Code(n)].vars, Some(n))], terms + {n})
  {
    var c := Code(n);
    assert c == c[..|c|];
    var after := nodes[c := Entry(nodes[c].vars, Some(n))];
    forall p | p in after
      ensures ValidEntry(after, terms + {n}, p)
    {
      assert ValidEntry(nodes, terms + {n}, p);
    }
    forall t | t in terms + {n}
      ensures StoresTerm(after, t)
    {
      if t != n {
        assert StoresTerm(nodes, t);
        assert Code(t)[..|Code(t)|] == Code(t);
        CodeInjective(t, n);
      }
    }
  }

  lemma CodeInjective(s: Term, t: Term)
    ensures Code(s) == Code(t) ==> s == t
  {
    StackCodeOne(s);
    StackCodeOne(t);
    if Code(s) == Code(t) {
      StackCodeInjective([s], [t]);
    }
  }

  // ---- the backtracking search with explicit stacks

  // The four parallel stacks as one list, top first: terms still to match at a trie node, the index of the next
  // variable branch to try (-1 before the operator branch), and whether the last one tried bound its variable.
  datatype Frames = Bottom | Frame(todo: seq<Term>, path: Path, index: int, bound: bool, below: Frames)

  ghost function Todos(fr: Frames): seq<seq<Term>> {
    if fr.Bottom? then [] else Todos(fr.below) + [fr.todo]
  }

  ghost function Paths(fr: Frames): seq<Path> {
    if fr.Bottom? then [] else Paths(fr.below) + [fr.path]
  }

  ghost function Indices(fr: Frames): seq<int> {
    if fr.Bottom? then [] else Indices(fr.below) + [fr.index]
  }

  ghost function Bounds(fr: Frames): seq<bool> {
    if fr.Bottom? then [] else Bounds(fr.below) + [fr.bound]
  }

  // The bindings in force at the top frame: those of the frames below that have bound a variable.
  ghost function Inherited(nodes: Nodes, fr: Frames): Bindings {
    if fr.Bottom? then [] else Current(nodes, fr.below)
  }

  ghost function Current(nodes: Nodes, fr: Frames): Bindings {
    if fr.Bottom? then []
    else if fr.bound && fr.path in nodes && 1 <= fr.index <= |nodes[fr.path].vars| && fr.todo != [] then
      Current(nodes, fr.below) + [(nodes[fr.path].vars[fr.index - 1], Last(fr.todo))]
    else
      Current(nodes, fr.below)
  }

  // How many terms are still to match after a path from the root.
  function Pending(p: Path): int {
    if p == [] then 1 else Pending(Init(p)) - 1 + (if Last(p).OpKey? then Last(p).arity else 0)
  }

  ghost predicate ValidFrames(nodes: Nodes, fr: Frames) {
    fr.Frame? ==>
      && fr.path in nodes && -1 <= fr.index <= |nodes[fr.path].vars|
      && |fr.todo| == Pending(fr.path)
      && (fr.todo == [] ==> fr.index == -1)
      && (fr.bound ==> 1 <= fr.index && nodes[fr.path].vars[fr.index - 1] !in ToMap(Inherited(nodes, fr)))
      && (fr.below.Frame? ==> fr.below.index >= 0)
      && ValidFrames(nodes, fr.below)
  }

  // What the search has still to notify.
  ghost function Remaining(allowed: Typing, nodes: Nodes, fr: Frames): seq<Notification>
    requires ValidFrames(nodes, fr)
  {
    if fr.Bottom? then []
    else
      var bs := Inherited(nodes, fr);
      (if fr.index == -1 then Matches(allowed, nodes, fr.path, fr.todo, bs)
       else VarMatches(allowed, nodes, fr.path, fr.todo, bs, fr.index))
      + Remaining(allowed, nodes, fr.below)
  }

  // How many steps it takes.
  ghost function Steps(allowed: Typing, nodes: Nodes, p: Path, todo: seq<Term>, bs: Bindings): nat
    decreases StackSize(todo), 2, 0
  {
    if p !in nodes then 0
    else if todo == [] then 1
    else
      StackSizeStep(todo);
      var t := Last(todo);
      1 + VarSteps(allowed, nodes, p, todo, bs, 0)
        + if t.App? then Steps(allowed, nodes, p + [OpKey(t.op, |t.args|)], Init(todo) + t.args, bs) else 0
  }

  ghost function VarSteps(allowed: Typing, nodes: Nodes, p: Path, todo: seq<Term>, bs: Bindings, i: nat): nat
    requires todo != [] && p in nodes && i <= |nodes[p].vars|
    decreases StackSize(todo), 1, |nodes[p].vars| - i
  {
    if i == |nodes[p].vars| then 1
    else
      StackSizeStep(todo);
      var v := nodes[p].vars[i];
      1 + VarSteps(allowed, nodes, p, todo, bs, i + 1)
        + match Bound(allowed, bs, v, Last(todo))
          case None => 0
          case Some(bs') => Steps(allowed, nodes, p + [VarKey(v)], Init(todo), bs')
  }

  ghost function StepsLeft(allowed: Typing, nodes: Nodes, fr: Frames): nat
    requires ValidFrames(nodes, fr)
  {
    if fr.Bottom? then 0
    else
      var bs := Inherited(nodes, fr);
      (if fr.index == -1 then Steps(allowed, nodes, fr.path, fr.todo, bs)
       else VarSteps(allowed, nodes, fr.path, fr.todo, bs, fr.index))
      + StepsLeft(allowed, nodes, fr.below)
  }

  // A node that nothing is left to match at stores a term.
  lemma {:induction false} PathLeaves(p: Path, ts: seq<Term>) returns (ps: seq<Term>)
    requires p <= StackCode(ts)
    ensures StackCode(ts) == p + StackCode(ps) && |ps| == |ts| - 1 + Pending(p)
    decreases |p|
  {
    if p == [] {
      ps := ts;
    } else {
      var before := PathLeaves(Init(p), ts);
      ConsHead(p, StackCode(ts), StackCode(before));
      StackCodeStep(before);
      var t := Last(before);
      ps := if t.Var? then Init(before) else Init(before) + t.args;
      ConsTail(p, StackCode(before), StackCode(ps));
    }
  }

  lemma ConsHead<T>(p: seq<T>, code: seq<T>, tail: seq<T>)
    requires p != [] && p <= code && code == Init(p) + tail
    ensures tail != [] && tail[0] == Last(p)
  {
    assert code[|p| - 1] == p[|p| - 1];
  }

  lemma ConsTail<T>(p: seq<T>, tail: seq<T>, rest: seq<T>)
    requires p != [] && tail == [Last(p)] + rest
    ensures Init(p) + tail == p + rest
  {
  }

  lemma LeafHasData(nodes: Nodes, terms: set<Term>, p: Path)
    requires Stores(nodes, terms) && p in nodes && Pending(p) == 0
    ensures nodes[p].data.Some?
  {
    assert ValidEntry(nodes, terms, p);
    var t :| t in terms && p <= Code(t);
    StackCodeOne(t);
    var ps := PathLeaves(p, [t]);
    assert p == Code(t) == Code(t)[..|Code(t)|] && StoresTerm(nodes, t);
  }

  // ---- the steps of the search

  ghost predicate SameWork(allowed: Typing, nodes: Nodes, fr: Frames, fr': Frames) {
    && ValidFrames(nodes, fr) && ValidFrames(nodes, fr')
    && Remaining(allowed, nodes, fr) == Remaining(allowed, nodes, fr')
    && StepsLeft(allowed, nodes, fr') < StepsLeft(allowed, nodes, fr)
  }

  lemma NotifyStep(allowed: Typing, nodes: Nodes, fr: Frames)
    requires ValidFrames(nodes, fr) && fr.Frame? && fr.todo == [] && nodes[fr.path].data.Some?
    ensures Current(nodes, fr) == Current(nodes, fr.below) && ValidFrames(nodes, fr.below)
    ensures Remaining(allowed, nodes, fr) ==
            [Notification(nodes[fr.path].data.value, Current(nodes, fr))] + Remaining(allowed, nodes, fr.below)
    ensures StepsLeft(allowed, nodes, fr.below) < StepsLeft(allowed, nodes, fr)
  {
  }

  // Trying the operator branch.
  ghost function AfterOp(nodes: Nodes, fr: Frames): Frames
    requires fr.Frame? && fr.todo != []
  {
    var t := Last(fr.todo);
    var k := if t.App? then OpKey(t.op, |t.args|) else VarKey(t);
    var tried := fr.(index := 0);
    if t.App? && fr.path + [k] in nodes then Frame(Init(fr.todo) + t.args, fr.path + [k], -1, false, tried) else tried
  }

  lemma PendingStep(p: Path, k: Key)
    ensures Pending(p + [k]) == Pending(p) - 1 + (if k.OpKey? then k.arity else 0)
  {
    assert Init(p + [k]) == p;
  }

  lemma OpStep(allowed: Typing, nodes: Nodes, fr: Frames)
    requires ValidFrames(nodes, fr) && fr.Frame? && fr.todo != [] && fr.index == -1
    ensures SameWork(allowed, nodes, fr, AfterOp(nodes, fr)) && Current(nodes, AfterOp(nodes, fr)) == Current(nodes, fr)
  {
    var t, after := Last(fr.todo), AfterOp(nodes, fr);
    TriedOp(allowed, nodes, fr);
    if t.App? && fr.path + [OpKey(t.op, |t.args|)] in nodes {
      PendingStep(fr.path, OpKey(t.op, |t.args|));
      assert ValidFrames(nodes, after);
      NewFrame(allowed, nodes, after);
    }
  }

  // The frame itself after its operator branch has been tried, and what the branch contributes.
  lemma TriedOp(allowed: Typing, nodes: Nodes, fr: Frames)
    requires ValidFrames(nodes, fr) && fr.Frame? && fr.todo != [] && fr.index == -1
    ensures var t, bs, tried := Last(fr.todo), Inherited(nodes, fr), fr.(index := 0);
      && ValidFrames(nodes, tried)
      && Remaining(allowed, nodes, fr) ==
         (if t.App? then Matches(allowed, nodes, fr.path + [OpKey(t.op, |t.args|)], Init(fr.todo) + t.args, bs) else [])
         + Remaining(allowed, nodes, tried)
      && StepsLeft(allowed, nodes, fr) == 1 + StepsLeft(allowed, nodes, tried)
           + (if t.App? then Steps(allowed, nodes, fr.path + [OpKey(t.op, |t.args|)], Init(fr.todo) + t.args, bs)
              else 0)
  {
    var bs := Inherited(nodes, fr);
    Assoc(OpMatches(allowed, nodes, fr.path, fr.todo, bs), VarMatches(allowed, nodes, fr.path, fr.todo, bs, 0),
          Remaining(allowed, nodes, fr.below));
  }

  // Leaving a frame whose variables have all been tried.
  lemma LeaveStep(allowed: Typing, nodes: Nodes, fr: Frames)
    requires ValidFrames(nodes, fr) && fr.Frame? && fr.index == |nodes[fr.path].vars| && fr.todo != [] && !fr.bound
    ensures SameWork(allowed, nodes, fr, fr.below) && Current(nodes, fr) == Current(nodes, fr.below)
  {
  }

  // Undoing the last binding.
  lemma UnbindStep(allowed: Typing, nodes: Nodes, fr: Frames)
    requires ValidFrames(nodes, fr) && fr.Frame? && fr.bound
    ensures ValidFrames(nodes, fr.(bound := false)) && fr.todo != []
    ensures Remaining(allowed, nodes, fr.(bound := false)) == Remaining(allowed, nodes, fr)
    ensures StepsLeft(allowed, nodes, fr.(bound := false)) == StepsLeft(allowed, nodes, fr)
    ensures Current(nodes, fr) != [] && Init(Current(nodes, fr)) == Current(nodes, fr.(bound := false))
    ensures Last(Current(nodes, fr)).0 !in ToMap(Init(Current(nodes, fr)))
  {
    Snoc(Inherited(nodes, fr), (nodes[fr.path].vars[fr.index - 1], Last(fr.todo)));
  }

  // Trying the next variable branch.
  ghost function AfterVar(allowed: Typing, nodes: Nodes, fr: Frames): Frames
    requires fr.Frame? && fr.todo != [] && fr.path in nodes && 0 <= fr.index < |nodes[fr.path].vars|
  {
    var v, bs := nodes[fr.path].vars[fr.index], Inherited(nodes, fr);
    match Bound(allowed, bs, v, Last(fr.todo))
    case None => fr.(index := fr.index + 1)
    case Some(_) => Frame(Init(fr.todo), fr.path + [VarKey(v)], -1, false,
                          fr.(index := fr.index + 1, bound := v !in ToMap(bs)))
  }

  lemma AfterVarIs(allowed: Typing, nodes: Nodes, fr: Frames)
    requires ValidFrames(nodes, fr) && fr.Frame? && fr.todo != [] && !fr.bound && 0 <= fr.index < |nodes[fr.path].vars|
    ensures var v, bs := nodes[fr.path].vars[fr.index], Current(nodes, fr);
            var after, found := AfterVar(allowed, nodes, fr), Bound(allowed, bs, v, Last(fr.todo));
            var tried := fr.(index := fr.index + 1, bound := found.Some? && v !in ToMap(bs));
            && after == (if found.Some? then Frame(Init(fr.todo), fr.path + [VarKey(v)], -1, false, tried) else tried)
            && Current(nodes, after) == (if found.Some? then found.value else bs)
  {
  }

  lemma VarStep(allowed: Typing, nodes: Nodes, terms: set<Term>, fr: Frames)
    requires Stores(nodes, terms) && ValidFrames(nodes, fr) && fr.Frame? && fr.todo != [] && !fr.bound
    requires 0 <= fr.index < |nodes[fr.path].vars|
    ensures SameWork(allowed, nodes, fr, AfterVar(allowed, nodes, fr))
    ensures var v := nodes[fr.path].vars[fr.index];
            Current(nodes, AfterVar(allowed, nodes, fr)) ==
            match Bound(allowed, Current(nodes, fr), v, Last(fr.todo)) {
              case None => Current(nodes, fr)
              case Some(bs') => bs'
            }
  {
    var v, bs := nodes[fr.path].vars[fr.index], Inherited(nodes, fr);
    match Bound(allowed, bs, v, Last(fr.todo))
    case None => VarStepStay(allowed, nodes, fr, v);
    case Some(bs') => VarStepDown(allowed, nodes, terms, fr, v, bs');
  }

  lemma VarStepStay(allowed: Typing, nodes: Nodes, fr: Frames, v: Term)
    requires ValidFrames(nodes, fr) && fr.Frame? && fr.todo != [] && !fr.bound
    requires 0 <= fr.index < |nodes[fr.path].vars| && v == nodes[fr.path].vars[fr.index]
    requires Bound(allowed, Inherited(nodes, fr), v, Last(fr.todo)).None?
    ensures SameWork(allowed, nodes, fr, AfterVar(allowed, nodes, fr))
    ensures Current(nodes, AfterVar(allowed, nodes, fr)) == Current(nodes, fr)
  {
    TriedVar(allowed, nodes, fr, false);
  }

  lemma VarStepDown(allowed: Typing, nodes: Nodes, terms: set<Term>, fr: Frames, v: Term, bs': Bindings)
    requires Stores(nodes, terms) && ValidFrames(nodes, fr) && fr.Frame? && fr.todo != [] && !fr.bound
    requires 0 <= fr.index < |nodes[fr.path].vars| && v == nodes[fr.path].vars[fr.index]
    requires Bound(allowed, Inherited(nodes, fr), v, Last(fr.todo)) == Some(bs')
    ensures SameWork(allowed, nodes, fr, AfterVar(allowed, nodes, fr))
    ensures Current(nodes, AfterVar(allowed, nodes, fr)) == bs'
  {
    var child := AfterVar(allowed, nodes, fr);
    TriedVar(allowed, nodes, fr, v !in ToMap(Inherited(nodes, fr)));
    DownIsValid(allowed, nodes, terms, fr, v, bs');
    VarMatchIs(allowed, nodes, fr.path, fr.todo, Inherited(nodes, fr), v, bs');
    NewFrame(allowed, nodes, child);
  }

  lemma DownIsValid(allowed: Typing, nodes: Nodes, terms: set<Term>, fr: Frames, v: Term, bs': Bindings)
    requires Stores(nodes, terms) && ValidFrames(nodes, fr) && fr.Frame? && fr.todo != [] && !fr.bound
    requires 0 <= fr.index < |nodes[fr.path].vars| && v == nodes[fr.path].vars[fr.index]
    requires Bound(allowed, Inherited(nodes, fr), v, Last(fr.todo)) == Some(bs')
    ensures var child := AfterVar(allowed, nodes, fr);
      && child == Frame(Init(fr.todo), fr.path + [VarKey(v)], -1, false,
                        fr.(index := fr.index + 1, bound := v !in ToMap(Inherited(nodes, fr))))
      && ValidFrames(nodes, child) && Current(nodes, child.below) == Current(nodes, child) == bs'
  {
    assert ValidEntry(nodes, terms, fr.path) && v in nodes[fr.path].vars;
    PendingStep(fr.path, VarKey(v));
  }

  lemma VarMatchIs(allowed: Typing, nodes: Nodes, p: Path, todo: seq<Term>, bs: Bindings, v: Term, bs': Bindings)
    requires todo != [] && Bound(allowed, bs, v, Last(todo)) == Some(bs')
    ensures VarMatch(allowed, nodes, p, todo, bs, v) == Matches(allowed, nodes, p + [VarKey(v)], Init(todo), bs')
  {
    StackSizeStep(todo);
  }

  lemma NewFrame(allowed: Typing, nodes: Nodes, fr: Frames)
    requires ValidFrames(nodes, fr) && fr.Frame? && fr.index == -1
    ensures var bs := Inherited(nodes, fr);
      && Remaining(allowed, nodes, fr) == Matches(allowed, nodes, fr.path, fr.todo, bs)
        + Remaining(allowed, nodes, fr.below)
      && StepsLeft(allowed, nodes, fr) == Steps(allowed, nodes, fr.path, fr.todo, bs)
        + StepsLeft(allowed, nodes, fr.below)
  {
  }

  // The frame itself after its next variable branch has been tried, and what the branch contributes.
  lemma TriedVar(allowed: Typing, nodes: Nodes, fr: Frames, bound: bool)
    requires ValidFrames(nodes, fr) && fr.Frame? && fr.todo != [] && 0 <= fr.index < |nodes[fr.path].vars|
    requires bound ==> nodes[fr.path].vars[fr.index] !in ToMap(Inherited(nodes, fr))
    ensures var v, bs := nodes[fr.path].vars[fr.index], Inherited(nodes, fr);
            var tried := fr.(index := fr.index + 1, bound := bound);
            var one := VarMatch(allowed, nodes, fr.path, fr.todo, bs, v);
            && ValidFrames(nodes, tried)
            && Remaining(allowed, nodes, fr) == one + Remaining(allowed, nodes, tried)
            && StepsLeft(allowed, nodes, fr) == 1 + StepsLeft(allowed, nodes, tried)
                 + (match Bound(allowed, bs, v, Last(fr.todo))
                    case None => 0
                    case Some(bs') => Steps(allowed, nodes, fr.path + [VarKey(v)], Init(fr.todo), bs'))
  {
    var v, bs := nodes[fr.path].vars[fr.index], Inherited(nodes, fr);
    var one, vm, rm := VarMatch(allowed, nodes, fr.path, fr.todo, bs, v),
                       VarMatches(allowed, nodes, fr.path, fr.todo, bs, fr.index + 1),
                       Remaining(allowed, nodes, fr.below);
    assert one + vm + rm == one + (vm + rm);
  }

  // ---- the vectors of the search

  // The four stacks and the bindings, as the vectors and the map that the loop updates.
  datatype Vectors = Vectors(
    visit: seq<seq<Term>>, visitTrie: seq<Path>, visitVarIndex: seq<int>, visitBoundVar: seq<bool>,
    vars: seq<Term>, subs: seq<Term>, smap: map<Term, Term>)

  function Zip(vars: seq<Term>, subs: seq<Term>): Bindings
    requires |vars| == |subs|
  {
    seq(|vars|, i requires 0 <= i < |vars| => (vars[i], subs[i]))
  }

  ghost predicate StacksAre(w: Vectors, fr: Frames) {
    w.visit == Todos(fr) && w.visitTrie == Paths(fr) && w.visitVarIndex == Indices(fr) && w.visitBoundVar == Bounds(fr)
  }

  ghost predicate BindingsAre(w: Vectors, bs: Bindings) {
    |w.vars| == |w.subs| && Zip(w.vars, w.subs) == bs && w.smap == ToMap(bs)
  }

  ghost predicate InSync(nodes: Nodes, w: Vectors, fr: Frames) {
    ValidFrames(nodes, fr) && StacksAre(w, fr) && BindingsAre(w, Current(nodes, fr))
  }

  function PopFrame(w: Vectors): Vectors
    requires w.visit != [] && |w.visit| == |w.visitTrie| == |w.visitVarIndex| == |w.visitBoundVar|
  {
    w.(visit := Init(w.visit), visitTrie := Init(w.visitTrie),
       visitVarIndex := Init(w.visitVarIndex), visitBoundVar := Init(w.visitBoundVar))
  }

  function PushFrame(w: Vectors, todo: seq<Term>, p: Path): Vectors {
    w.(visit := w.visit + [todo], visitTrie := w.visitTrie + [p],
       visitVarIndex := w.visitVarIndex + [-1], visitBoundVar := w.visitBoundVar + [false])
  }

  lemma TopFrame(w: Vectors, fr: Frames)
    requires StacksAre(w, fr)
    ensures |w.visit| == |w.visitTrie| == |w.visitVarIndex| == |w.visitBoundVar|
    ensures w.visit == [] <==> fr.Bottom?
    ensures fr.Frame? ==>
              && Last(w.visit) == fr.todo && Last(w.visitTrie) == fr.path
              && Last(w.visitVarIndex) == fr.index && Last(w.visitBoundVar) == fr.bound
              && StacksAre(PopFrame(w), fr.below)
    decreases fr
  {
    if fr.Frame? {
      TopFrame(w.(visit := Init(w.visit), visitTrie := Init(w.visitTrie),
                  visitVarIndex := Init(w.visitVarIndex), visitBoundVar := Init(w.visitBoundVar)), fr.below);
    }
  }

  // Updating the index and the flag of the top frame.
  lemma UpdateTop(w: Vectors, fr: Frames, index: int, bound: bool)
    requires StacksAre(w, fr) && fr.Frame?
    ensures |w.visitVarIndex| == |w.visitBoundVar| == |w.visit| > 0
    ensures StacksAre(w.(visitVarIndex := w.visitVarIndex[|w.visit| - 1 := index],
                         visitBoundVar := w.visitBoundVar[|w.visit| - 1 := bound]), fr.(index := index, bound := bound))
  {
    TopFrame(w, fr);
  }

  lemma PushedFrame(w: Vectors, fr: Frames, todo: seq<Term>, p: Path, bs: Bindings)
    requires StacksAre(w, fr) && BindingsAre(w, bs)
    ensures StacksAre(PushFrame(w, todo, p), Frame(todo, p, -1, false, fr)) && BindingsAre(PushFrame(w, todo, p), bs)
  {
  }

  ghost predicate AllAccepted(accept: (seq<Notification>, Notification) -> bool, log: seq<Notification>) {
    log == [] || (AllAccepted(accept, Init(log)) && accept(Init(log), Last(log)))
  }

  lemma InitialFrame(allowed: Typing, nodes: Nodes, w: Vectors, n: Term)
    requires [] in nodes && w == Vectors([[n]], [[]], [-1], [false], [], [], map[])
    ensures var fr := Frame([n], [], -1, false, Bottom);
            InSync(nodes, w, fr) && Remaining(allowed, nodes, fr) == Matches(allowed, nodes, [], [n], [])
  {
    assert Zip([], []) == [];
  }

  class MatchTrie {
    var nodes: Nodes
    ghost var terms: set<Term>

    ghost predicate Valid()
      reads this
    {
      Stores(nodes, terms)
    }

    constructor ()
      ensures Valid() && terms == {}
    {
      nodes, terms := map[[] := Entry([], None)], {};
    }

    method Clear()
      modifies this
      ensures Valid() && terms == {}
    {
      nodes, terms := map[[] := Entry([], None)], {};
    }

    method AddTerm(n: Term)
      requires Valid()
      modifies this
      ensures Valid() && terms == old(terms) + {n} && Grows(old(nodes), nodes)
    {
      var visit := [n];
      var curr: Path := [];
      InsertionStarts(nodes, terms, n);
      StackCodeOne(n);
      while visit != []
        invariant Inserting(nodes, terms, n, curr) && terms == old(terms) && Grows(old(nodes), nodes)
        invariant Code(n) == curr + StackCode(visit)
        decreases StackSize(visit)
      {
        var cn := Last(visit);
        StackCodeStep(visit);
        StackSizeStep(visit);
        visit := Init(visit);
        var k := if cn.App? then OpKey(cn.op, |cn.args|) else VarKey(cn);
        Assoc(curr, [k], if cn.App? then StackCode(visit + cn.args) else StackCode(visit));
        BranchFollowed(nodes, terms, n, curr, k);
        if cn.App? {
          visit := visit + cn.args;
        } else if cn !in nodes[curr].vars {
          nodes := nodes[curr := Entry(nodes[curr].vars + [cn], nodes[curr].data)];
        }
        if curr + [k] !in nodes {
          nodes := nodes[curr + [k] := Entry([], None)];
        }
        curr := curr + [k];
      }
      assert curr == Code(n);
      InsertionEnds(nodes, terms, n);
      nodes := nodes[curr := Entry(nodes[curr].vars, Some(n))];
      terms := terms + {n};
    }

    // Notifies the matches in order until one is declined. accept is what the caller's notify answers, given
    // the notifications before.
    method GetMatches(n: Term, allowed: Typing, accept: (seq<Notification>, Notification) -> bool)
      returns (result: bool, log: seq<Notification>)
      requires Valid()
      ensures result ==> log == Matches(allowed, nodes, [], [n], []) && AllAccepted(accept, log)
      ensures !result ==> log != [] && AllAccepted(accept, Init(log)) && !accept(Init(log), Last(log))
                          && log <= Matches(allowed, nodes, [], [n], [])
    {
      var w := Vectors([[n]], [[]], [-1], [false], [], [], map[]);
      ghost var fr := Frame([n], [], -1, false, Bottom);
      InitialFrame(allowed, nodes, w, n);
      log := [];
      result := true;
      while w.visit != []
        invariant InSync(nodes, w, fr)
        invariant log + Remaining(allowed, nodes, fr) == Matches(allowed, nodes, [], [n], [])
        invariant AllAccepted(accept, log) && result
        decreases StepsLeft(allowed, nodes, fr)
      {
        TopFrame(w, fr);
        if Last(w.visit) == [] {
          result, log, fr := NotifyMatch(w, fr, allowed, accept, log);
          if !result {
            return;
          }
          w := PopFrame(w);
        } else if Last(w.visitVarIndex) == -1 {
          w, fr := TryOperator(allowed, w, fr);
        } else {
          w, fr := TryVariable(allowed, w, fr);
        }
      }
      TopFrame(w, fr);
    }

    // The branch with nothing left to match: the trie node holds a stored term that is an instance.
    method NotifyMatch(w: Vectors, ghost fr: Frames, ghost allowed: Typing,
                       accept: (seq<Notification>, Notification) -> bool, log: seq<Notification>)
      returns (result: bool, log': seq<Notification>, ghost fr': Frames)
      requires Valid() && InSync(nodes, w, fr) && fr.Frame? && fr.todo == [] && AllAccepted(accept, log)
      ensures |log'| == |log| + 1 && Init(log') == log && result == accept(log, Last(log'))
      ensures result ==> AllAccepted(accept, log')
      ensures fr' == fr.below && |w.visit| == |w.visitTrie| == |w.visitVarIndex| == |w.visitBoundVar| > 0
      ensures InSync(nodes, PopFrame(w), fr') && StepsLeft(allowed, nodes, fr') < StepsLeft(allowed, nodes, fr)
      ensures log' + Remaining(allowed, nodes, fr') == log + Remaining(allowed, nodes, fr)
    {
      TopFrame(w, fr);
      LeafHasData(nodes, terms, fr.path);
      NotifyStep(allowed, nodes, fr);
      var m := Notification(nodes[Last(w.visitTrie)].data.value, Zip(w.vars, w.subs));
      log' := log + [m];
      result := accept(log, m);
      fr' := fr.below;
      Snoc(log, m);
      Assoc(log, [m], Remaining(allowed, nodes, fr'));
    }

    // The branch at index -1: recurse on the operator or the constant, if the trie has it.
    method TryOperator(ghost allowed: Typing, w: Vectors, ghost fr: Frames) returns (w': Vectors, ghost fr': Frames)
      requires Valid() && InSync(nodes, w, fr) && fr.Frame? && fr.todo != [] && fr.index == -1
      ensures InSync(nodes, w', fr') && SameWork(allowed, nodes, fr, fr')
    {
      TopFrame(w, fr);
      var index := |w.visit| - 1;
      var cvisit, curr := Last(w.visit), Last(w.visitTrie);
      var cn := Last(cvisit);
      w' := w.(visitVarIndex := w.visitVarIndex[index := 0]);
      OpStep(allowed, nodes, fr);
      UpdateTop(w, fr, 0, fr.bound);
      fr' := AfterOp(nodes, fr);
      if cn.App? && curr + [OpKey(cn.op, |cn.args|)] in nodes {
        w' := PushFrame(w', Init(cvisit) + cn.args, curr + [OpKey(cn.op, |cn.args|)]);
      }
    }

    // The branches from index 0 on: undo the last binding, then leave, or try the next variable.
    method TryVariable(allowed: Typing, w: Vectors, ghost fr: Frames) returns (w': Vectors, ghost fr': Frames)
      requires Valid() && InSync(nodes, w, fr) && fr.Frame? && fr.todo != [] && fr.index >= 0
      ensures InSync(nodes, w', fr') && SameWork(allowed, nodes, fr, fr')
    {
      TopFrame(w, fr);
      w', fr' := w, fr;
      if Last(w.visitBoundVar) {
        w', fr' := Unbind(allowed, w, fr);
      }
      w', fr' := LeaveOrTry(allowed, w', fr');
    }

    method LeaveOrTry(allowed: Typing, w: Vectors, ghost fr: Frames) returns (w': Vectors, ghost fr': Frames)
      requires Valid() && InSync(nodes, w, fr) && fr.Frame? && fr.todo != [] && fr.index >= 0 && !fr.bound
      ensures InSync(nodes, w', fr') && SameWork(allowed, nodes, fr, fr')
    {
      TopFrame(w, fr);
      w', fr' := w, fr;
      if Last(w'.visitVarIndex) == |nodes[Last(w'.visitTrie)].vars| {
        LeaveStep(allowed, nodes, fr');
        w', fr' := PopFrame(w'), fr'.below;
      } else {
        VarStep(allowed, nodes, terms, fr');
        w', fr' := TryNextVariable(allowed, w', fr');
      }
    }

    method Unbind(ghost allowed: Typing, w: Vectors, ghost fr: Frames) returns (w': Vectors, ghost fr': Frames)
      requires Valid() && InSync(nodes, w, fr) && fr.Frame? && fr.bound
      ensures InSync(nodes, w', fr') && fr' == fr.(bound := false)
      ensures Remaining(allowed, nodes, fr') == Remaining(allowed, nodes, fr)
      ensures StepsLeft(allowed, nodes, fr') == StepsLeft(allowed, nodes, fr)
    {
      UnbindStep(allowed, nodes, fr);
      BindPop(w, Current(nodes, fr));
      TopFrame(w, fr);
      UpdateTop(w, fr, fr.index, false);
      w' := w.(smap := w.smap - {Last(w.vars)}, vars := Init(w.vars), subs := Init(w.subs),
               visitBoundVar := w.visitBoundVar[|w.visit| - 1 := false]);
      fr' := fr.(bound := false);
      assert w.visitVarIndex[|w.visit| - 1 := fr.index] == w.visitVarIndex;
    }

    // Whether v can stand for cn; if it is not bound yet, it is now.
    method BindVariable(allowed: Typing, w: Vectors, v: Term, cn: Term, ghost bs: Bindings)
      returns (w': Vectors, recurse: bool, bind: bool)
      requires BindingsAre(w, bs)
      ensures w'.visit == w.visit && w'.visitTrie == w.visitTrie
      ensures w'.visitVarIndex == w.visitVarIndex && w'.visitBoundVar == w.visitBoundVar
      ensures recurse <==> Bound(allowed, bs, v, cn).Some?
      ensures BindingsAre(w', if recurse then Bound(allowed, bs, v, cn).value else bs)
      ensures bind <==> recurse && v !in ToMap(bs)
    {
      w', recurse, bind := w, true, false;
      if v in w.smap {
        if w.smap[v] != cn {
          recurse := false;
        }
      } else if !allowed(v, cn) {
        recurse := false;
      } else {
        BindPush(w, bs, v, cn);
        w' := w.(vars := w.vars + [v], subs := w.subs + [cn], smap := w.smap[v := cn]);
        bind := true;
      }
    }

    method TryNextVariable(allowed: Typing, w: Vectors, ghost fr: Frames) returns (w': Vectors, ghost fr': Frames)
      requires Valid() && InSync(nodes, w, fr) && fr.Frame? && fr.todo != [] && !fr.bound
      requires 0 <= fr.index < |nodes[fr.path].vars|
      ensures fr' == AfterVar(allowed, nodes, fr) && StacksAre(w', fr') && BindingsAre(w', Current(nodes, fr'))
    {
      TopFrame(w, fr);
      AfterVarIs(allowed, nodes, fr);
      var cvisit, curr, vindex := Last(w.visit), Last(w.visitTrie), Last(w.visitVarIndex);
      var v := nodes[curr].vars[vindex];
      var recurse, bind;
      w', recurse, bind := BindVariable(allowed, w, v, Last(cvisit), Current(nodes, fr));
      fr' := AfterVar(allowed, nodes, fr);
      ghost var tried := fr.(index := vindex + 1, bound := bind);
      w' := Advance(w', fr, vindex + 1, bind, Current(nodes, fr'));
      if recurse {
        PushedFrame(w', tried, Init(cvisit), curr + [VarKey(v)], Current(nodes, fr'));
        w' := PushFrame(w', Init(cvisit), curr + [VarKey(v)]);
      }
    }

    method Advance(w: Vectors, ghost fr: Frames, index: int, bound: bool, ghost bs: Bindings) returns (w': Vectors)
      requires StacksAre(w, fr) && fr.Frame? && BindingsAre(w, bs)
      ensures StacksAre(w', fr.(index := index, bound := bound)) && BindingsAre(w', bs)
    {
      UpdateTop(w, fr, index, bound);
      w' := w.(visitVarIndex := w.visitVarIndex[|w.visit| - 1 := index],
               visitBoundVar := w.visitBoundVar[|w.visit| - 1 := bound]);
    }
  }

  lemma BindPush(w: Vectors, bs: Bindings, v: Term, t: Term)
    requires BindingsAre(w, bs)
    ensures BindingsAre(w.(vars := w.vars + [v], subs := w.subs + [t], smap := w.smap[v := t]), bs + [(v, t)])
  {
    assert Zip(w.vars + [v], w.subs + [t]) == bs + [(v, t)];
    assert Init(bs + [(v, t)]) == bs;
  }

  lemma BindPop(w: Vectors, bs: Bindings)
    requires BindingsAre(w, bs) && bs != [] && Last(bs).0 !in ToMap(Init(bs))
    ensures w.vars != [] && w.subs != []
    ensures BindingsAre(w.(smap := w.smap - {Last(w.vars)}, vars := Init(w.vars), subs := Init(w.subs)), Init(bs))
  {
    assert Zip(Init(w.vars), Init(w.subs)) == Init(bs);
    assert Zip(w.vars, w.subs)[|bs| - 1] == Last(bs);
    assert ToMap(bs) == ToMap(Init(bs))[Last(bs).0 := Last(bs).1];
    assert w.smap - {Last(w.vars)} == ToMap(Init(bs));
  }
}
