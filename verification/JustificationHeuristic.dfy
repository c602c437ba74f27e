/** The justification-based decision heuristic at threshold 0, with its context-dependent caches. */
module JustificationHeuristic {
  import opened JustificationFormulas
  import opened Options

  datatype SearchResult = FOUND_SPLITTER | NO_SPLITTER | DONT_KNOW

  // A SAT literal; the variable is named by the atom it was created for.
  datatype SatLiteral = SatLiteral(variable: Node, negated: bool)

  type SkolemList = seq<(Node, Node)>

  // Everything the SAT context saves on push and brings back on pop.
  datatype Snapshot = Snapshot(
    labels: Labels,
    justified: set<Node>,
    prvsIndex: nat,
    startIndexCache: map<Node, nat>)

  // A skolem and its definition.
  type Definition = (Node, Node)

  // What the user context saves and brings back for the heuristic.
  datatype UserState = UserState(
    assertions: seq<Node>,
    skolemAssertions: map<Node, Node>,
    skolemCache: map<Node, SkolemList>)

  // A push of the user context, and how many pushes of the SAT context it came after. The literals of the CNF stream
  // are saved as well.
  datatype UserPush = UserPush(level: nat, user: UserState, literals: set<Node>)

  // The run invariant: justified nodes are settled by the labels of their own context level, whatever the index caches
  // skip is justified, and so are the definitions that the justified atoms depend on.
  ghost predicate Sound(s: Snapshot, user: UserState, definitions: set<Definition>) {
    && AllSettled(s.labels, s.justified)
    && StartIndicesSound(s.startIndexCache, s.justified)
    && AllJustified(user.assertions, s.prvsIndex, s.justified)
    && Handled(s.justified, user.skolemCache, definitions)
  }

  ghost predicate AllSettled(labels: Labels, justified: set<Node>) {
    forall n | n in justified :: Settled(labels, justified, n)
  }

  ghost predicate StartIndicesSound(startIndexCache: map<Node, nat>, justified: set<Node>) {
    forall n | n in startIndexCache :: AllJustified(n.children, startIndexCache[n], justified)
  }

  // The definitions listed for a justified atom are justified, unless the atom is itself a part of the definition.
  ghost predicate Handled(justified: set<Node>, skolemCache: map<Node, SkolemList>, definitions: set<Definition>) {
    forall a {:trigger AtomHandled(justified, skolemCache, definitions, a)} | a in justified && IsAtom(a) ::
      AtomHandled(justified, skolemCache, definitions, a)
  }

  ghost predicate AtomHandled(justified: set<Node>, skolemCache: map<Node, SkolemList>, definitions: set<Definition>,
                              a: Node) {
    a in skolemCache && forall d | d in skolemCache[a] :: Core(d.1) in justified || Within(definitions, d.0, a)
  }

  // n is part of a definition of the skolem k, or of a skolem that occurs in one, and so on.
  ghost predicate Within(definitions: set<Definition>, k: Node, n: Node) {
    exists p :: LeadsTo(definitions, p, k, n)
  }

  ghost predicate LeadsTo(definitions: set<Definition>, p: seq<Definition>, k: Node, n: Node) {
    && p != [] && p[0].0 == k && IsSubterm(n, p[|p| - 1].1)
    && (forall i | 0 <= i < |p| :: p[i] in definitions)
    && forall i | 0 <= i < |p| - 1 :: IsSubterm(p[i + 1].0, p[i].1)
  }

  lemma {:induction false} SubtermTransitive(l: Node, m: Node, n: Node)
    requires IsSubterm(l, m) && IsSubterm(m, n)
    ensures IsSubterm(l, n)
    decreases n
  {
    if m != n {
      var i :| 0 <= i < |n.children| && IsSubterm(m, n.children[i]);
      SubtermTransitive(l, m, n.children[i]);
    }
  }

  lemma WithinSubterm(definitions: set<Definition>, k: Node, n: Node, m: Node)
    requires Within(definitions, k, n) && IsSubterm(m, n)
    ensures Within(definitions, k, m)
  {
    var p: seq<Definition> :| LeadsTo(definitions, p, k, n);
    SubtermTransitive(m, n, p[|p| - 1].1);
    assert LeadsTo(definitions, p, k, m);
  }

  lemma WithinOwn(definitions: set<Definition>, d: Definition)
    requires d in definitions
    ensures Within(definitions, d.0, d.1)
  {
    assert LeadsTo(definitions, [d], d.0, d.1);
  }

  lemma WithinDefinition(definitions: set<Definition>, k: Node, n: Node, d: Definition)
    requires Within(definitions, k, n) && d in definitions && IsSubterm(d.0, n)
    ensures Within(definitions, k, d.1)
  {
    var p: seq<Definition> :| LeadsTo(definitions, p, k, n);
    SubtermTransitive(d.0, n, p[|p| - 1].1);
    assert LeadsTo(definitions, p + [d], k, d.1);
  }

  lemma WithinMore(definitions: set<Definition>, more: set<Definition>, k: Node, n: Node)
    requires Within(definitions, k, n) && definitions <= more
    ensures Within(more, k, n)
  {
    var p: seq<Definition> :| LeadsTo(definitions, p, k, n);
    assert LeadsTo(more, p, k, n);
  }

  // More lists and definitions change nothing for the atoms that are justified.
  lemma HandledMore(justified: set<Node>, skolemCache: map<Node, SkolemList>, moreCache: map<Node, SkolemList>,
                    definitions: set<Definition>, more: set<Definition>)
    requires Handled(justified, skolemCache, definitions) && CacheKept(skolemCache, moreCache) && definitions <= more
    ensures Handled(justified, moreCache, more)
  {
    forall a | a in justified && IsAtom(a)
      ensures AtomHandled(justified, moreCache, more, a)
    {
      assert AtomHandled(justified, skolemCache, definitions, a);
      forall d | d in moreCache[a] && Core(d.1) !in justified
        ensures Within(more, d.0, a)
      {
        WithinMore(definitions, more, d.0, a);
      }
    }
  }

  lemma SoundMore(s: Snapshot, user: UserState, moreCache: map<Node, SkolemList>, definitions: set<Definition>,
                  more: set<Definition>)
    requires Sound(s, user, definitions) && CacheKept(user.skolemCache, moreCache) && definitions <= more
    ensures Sound(s, user.(skolemCache := moreCache), more)
  {
    HandledMore(s.justified, user.skolemCache, moreCache, definitions, more);
  }

  ghost predicate SkolemsValid(skolemAssertions: map<Node, Node>, skolemCache: map<Node, SkolemList>,
                               definitions: set<Definition>) {
    && (forall k | k in skolemAssertions :: (k, skolemAssertions[k]) in definitions)
    && (forall n | n in skolemCache :: ListValid(skolemAssertions, definitions, n, skolemCache[n]))
  }

  // A list of skolems below n, with definitions.
  ghost predicate ListValid(skolemAssertions: map<Node, Node>, definitions: set<Definition>, n: Node, l: SkolemList) {
    forall d | d in l :: d.0 in skolemAssertions && d in definitions && IsStrictSubterm(d.0, n)
  }

  // Lists that were cached stay as they are.
  ghost predicate CacheKept(skolemCache: map<Node, SkolemList>, more: map<Node, SkolemList>) {
    forall n | n in skolemCache :: n in more && more[n] == skolemCache[n]
  }

  // The first `count` formulas are justified, up to negation.
  ghost predicate AllJustified(formulas: seq<Node>, count: nat, justified: set<Node>) {
    count <= |formulas| && forall i | 0 <= i < count :: Core(formulas[i]) in justified
  }

  // Every total assignment of the atoms extending the labels makes every assertion true.
  ghost predicate Entailed(labels: Labels, assertions: seq<Node>) {
    forall i, sigma: Assignment | 0 <= i < |assertions| && Extends(sigma, labels) ::
      IsFormula(assertions[i]) && Eval(assertions[i], sigma)
  }

  ghost predicate IsSubterm(m: Node, n: Node)
    decreases n, 1
  {
    m == n || IsStrictSubterm(m, n)
  }

  ghost predicate IsStrictSubterm(m: Node, n: Node)
    decreases n, 0
  {
    exists i | 0 <= i < |n.children| :: IsSubterm(m, n.children[i])
  }

  // The values asked of the two sides of an XOR or a Boolean EQUAL, as the source computes them.
  function ComputeXorIffDesiredValues(k: Kind, desiredVal: SatValue, val1: SatValue, val2: SatValue)
    : (SatValue, SatValue)
    requires k.EQUAL? || k.XOR?
  {
    var shouldInvert := (desiredVal == SAT_VALUE_TRUE && k.EQUAL?) || (desiredVal == SAT_VALUE_FALSE && k.XOR?);
    var desiredVal1 :=
      if val1 == SAT_VALUE_UNKNOWN && val2 == SAT_VALUE_UNKNOWN then SAT_VALUE_FALSE else val1;
    if val2 == SAT_VALUE_UNKNOWN then
      (desiredVal1, if shouldInvert then InvertValue(desiredVal1) else desiredVal1)
    else if desiredVal1 == SAT_VALUE_UNKNOWN then
      (if shouldInvert then InvertValue(val2) else val2, val2)
    else
      (desiredVal1, val2)
  }

  // What a XOR or EQUAL node evaluates to when its sides take the given values.
  function XorIffValue(k: Kind, val1: SatValue, val2: SatValue): SatValue
    requires k.EQUAL? || k.XOR?
  {
    if k.XOR? then Differ(val1, val2) else InvertValue(Differ(val1, val2))
  }

  // The values asked for give the node the desired value exactly when both sides were known and already
  // decided it; whenever a side is unknown, the source asks for the opposite combination.
  lemma DesiredValuesAchieveExactly(k: Kind, desiredVal: SatValue, val1: SatValue, val2: SatValue)
    requires k.EQUAL? || k.XOR?
    requires desiredVal != SAT_VALUE_UNKNOWN
    ensures var (desired1, desired2) := ComputeXorIffDesiredValues(k, desiredVal, val1, val2);
            && (XorIffValue(k, desired1, desired2) == desiredVal <==> XorIffValue(k, val1, val2) == desiredVal)
            && (val1 == SAT_VALUE_UNKNOWN || val2 == SAT_VALUE_UNKNOWN ==>
                  XorIffValue(k, desired1, desired2) == InvertValue(desiredVal))
  {
  }

  class JustificationHeuristic {
    // Context-dependent state (SAT context).
    var labels: Labels
    var justified: set<Node>
    var prvsIndex: nat
    var startIndexCache: map<Node, nat>
    var trail: seq<Snapshot>

    // User-context state and the CNF stream's literals.
    var literals: set<Node>
    var assertions: seq<Node>
    var skolemAssertions: map<Node, Node>
    var skolemCache: map<Node, SkolemList>
    var userTrail: seq<UserPush>

    // All that is or was in skolemAssertions, now and at the pushes of the user context.
    ghost var definitions: set<Definition>
    ghost var definitionsTrail: seq<set<Definition>>

    // State of one search.
    var visited: set<Node>
    var visitedComputeSkolems: set<Node>
    var curDecision: Option<SatLiteral>

    ghost function Current(): Snapshot
      reads this`labels, this`justified, this`prvsIndex, this`startIndexCache
    {
      Snapshot(labels, justified, prvsIndex, startIndexCache)
    }

    ghost function User(): UserState
      reads this`assertions, this`skolemAssertions, this`skolemCache
    {
      UserState(assertions, skolemAssertions, skolemCache)
    }

    // The part of the invariant that a search relies on and keeps.
    ghost predicate SearchValid()
      reads this`labels, this`justified, this`startIndexCache, this`skolemAssertions, this`skolemCache, this`definitions
    {
      && AllSettled(labels, justified) && StartIndicesSound(startIndexCache, justified)
      && SkolemsValid(skolemAssertions, skolemCache, definitions)
      && Handled(justified, skolemCache, definitions)
    }

    ghost predicate Valid()
      reads this
    {
      && SearchValid()
      && AllJustified(assertions, prvsIndex, justified)
      && (forall s | s in trail :: Sound(s, User(), definitions))
      && |definitionsTrail| == |userTrail|
      && (forall j {:trigger PushedSound(j)} | 0 <= j < |userTrail| :: PushedSound(j))
      && (forall j | 0 <= j < |userTrail| - 1 :: userTrail[j].level < userTrail[j + 1].level)
    }

    // The SAT contexts up to a push of the user context are sound for what the user context saved.
    ghost predicate PushedSound(j: nat)
      requires j < |userTrail| == |definitionsTrail|
      reads this`userTrail, this`trail, this`definitionsTrail
    {
      var u := userTrail[j].user;
      && userTrail[j].level < |trail| && SkolemsValid(u.skolemAssertions, u.skolemCache, definitionsTrail[j])
      && forall i | 0 <= i <= userTrail[j].level :: Sound(trail[i], u, definitionsTrail[j])
    }

    // The SAT context is not popped beyond the last push of the user context.
    ghost function BaseLevel(): nat
      reads this`userTrail
    {
      if userTrail == [] then 0 else userTrail[|userTrail| - 1].level + 1
    }

    // The assumptions on the SAT solver at a decision.
    ghost predicate SolverReady()
      reads this`labels, this`literals, this`assertions, this`definitions
    {
      && Propagated(literals, labels)
      && (forall a | a in assertions :: Wanted(a))
      && (forall d | d in definitions :: Wanted(d.1))
    }

    ghost predicate Wanted(n: Node)
      reads this`labels, this`literals
    {
      n in literals && ValueOf(labels, n) != SAT_VALUE_FALSE
    }

    constructor ()
      ensures Valid()
      ensures labels == map[] && assertions == [] && trail == [] && userTrail == [] && skolemAssertions == map[]
    {
      labels, justified, prvsIndex, startIndexCache, trail := map[], {}, 0, map[], [];
      literals, assertions, skolemAssertions, skolemCache, userTrail := {}, [], map[], map[], [];
      definitions, definitionsTrail := {}, [];
      visited, visitedComputeSkolems, curDecision := {}, {}, None;
    }

    // Context push: the SAT context saves its objects.
    method Push()
      requires Valid()
      modifies this`trail
      ensures Valid() && trail == old(trail) + [Current()]
    {
      trail := trail + [Snapshot(labels, justified, prvsIndex, startIndexCache)];
      forall j | 0 <= j < |userTrail|
        ensures PushedSound(j)
      {
        assert old(PushedSound(j));
      }
    }

    // Context pop: labels and caches return to the matching push together.
    method Pop()
      requires Valid() && |trail| > BaseLevel()
      modifies this`trail, this`labels, this`justified, this`prvsIndex, this`startIndexCache
      ensures Valid() && trail + [Current()] == old(trail)
    {
      var s := trail[|trail| - 1];
      assert s in trail && Sound(s, User(), definitions);
      BaseIsLast();
      Restore(s, |trail| - 1);
      forall j | 0 <= j < |userTrail|
        ensures PushedSound(j)
      {
        assert old(PushedSound(j));
      }
    }

    method Restore(s: Snapshot, level: nat)
      requires level < |trail|
      modifies this`trail, this`labels, this`justified, this`prvsIndex, this`startIndexCache
      ensures Current() == s && trail == old(trail)[..level]
    {
      labels, justified, prvsIndex, startIndexCache := s.labels, s.justified, s.prvsIndex, s.startIndexCache;
      trail := trail[..level];
    }

    lemma BaseIsLast()
      requires Valid()
      ensures forall j | 0 <= j < |userTrail| :: userTrail[j].level < BaseLevel()
      ensures forall j | 0 <= j < |userTrail| - 1 :: userTrail[j].level + 1 < BaseLevel()
    {
      forall j | 0 <= j < |userTrail| - 1
        ensures userTrail[j].level < userTrail[|userTrail| - 1].level
      {
        LevelsRise(j, |userTrail| - 1);
      }
    }

    lemma LevelsRise(j: nat, k: nat)
      requires Valid() && j < k < |userTrail|
      ensures userTrail[j].level < userTrail[k].level
      decreases k
    {
      if j < k - 1 {
        LevelsRise(j, k - 1);
      }
    }

    // A push of the user context, with the push of the SAT context that goes with it.
    method UserContextPush()
      requires Valid()
      modifies this`trail, this`userTrail, this`definitionsTrail
      ensures Valid() && trail == old(trail) + [Current()]
      ensures userTrail == old(userTrail) + [UserPush(|old(trail)|, User(), literals)]
      ensures definitionsTrail == old(definitionsTrail) + [definitions]
    {
      ghost var n := |userTrail|;
      BaseIsLast();
      assert n > 0 ==> PushedSound(n - 1);
      trail := trail + [Snapshot(labels, justified, prvsIndex, startIndexCache)];
      var user := UserState(assertions, skolemAssertions, skolemCache);
      userTrail := userTrail + [UserPush(|trail| - 1, user, literals)];
      definitionsTrail := definitionsTrail + [definitions];
      forall j | 0 <= j < |userTrail|
        ensures PushedSound(j)
      {
        if j < n {
          assert old(PushedSound(j));
        } else {
          assert forall i | 0 <= i < |trail| :: trail[i] in old(trail) || trail[i] == old(Current());
        }
      }
    }

    // The pop of the user context that matches: assertions, definitions, skolem lists and literals go back to the push,
    // and so does the SAT context, so that no index points past the assertions that are left.
    method UserContextPop()
      requires Valid() && userTrail != []
      modifies this`trail, this`labels, this`justified, this`prvsIndex, this`startIndexCache, this`userTrail,
               this`assertions, this`skolemAssertions, this`skolemCache, this`literals, this`definitions,
               this`definitionsTrail
      ensures Valid()
      ensures var u := old(userTrail)[|old(userTrail)| - 1];
        && userTrail == old(userTrail)[..|old(userTrail)| - 1] && User() == u.user && literals == u.literals
        && definitionsTrail + [definitions] == old(definitionsTrail)
        && u.level < |old(trail)| && trail + [Current()] == old(trail)[..u.level + 1]
    {
      ghost var n := |userTrail| - 1;
      var u := userTrail[|userTrail| - 1];
      assert PushedSound(n);
      BaseIsLast();
      RestoreUser(u);
      Restore(trail[u.level], u.level);
      forall j | 0 <= j < |userTrail|
        ensures PushedSound(j)
      {
        assert old(PushedSound(j));
      }
    }

    method RestoreUser(u: UserPush)
      requires |userTrail| == |definitionsTrail| > 0
      modifies this`userTrail, this`assertions, this`skolemAssertions, this`skolemCache, this`literals,
               this`definitions, this`definitionsTrail
      ensures User() == u.user && literals == u.literals && userTrail == old(userTrail)[..|old(userTrail)| - 1]
      ensures definitionsTrail == old(definitionsTrail)[..|userTrail|]
        && definitions == old(definitionsTrail)[|userTrail|]
    {
      assertions, skolemAssertions, skolemCache := u.user.assertions, u.user.skolemAssertions, u.user.skolemCache;
      literals := u.literals;
      userTrail := userTrail[..|userTrail| - 1];
      definitions, definitionsTrail := definitionsTrail[|userTrail|], definitionsTrail[..|userTrail|];
    }

    // The SAT solver decides or propagates: it labels more nodes, and may have created literals.
    method Assign(moreLiterals: set<Node>, more: Labels)
      requires Valid()
      requires forall n | n in labels :: n in more && more[n] == labels[n]
      modifies this`labels, this`literals
      ensures Valid() && labels == more && literals == old(literals) + moreLiterals
    {
      forall n | n in justified
        ensures Settled(more, justified, n)
      {
        SettledMonotone(labels, more, justified, justified, n);
      }
      labels, literals := more, literals + moreLiterals;
    }

    method AddAssertion(assertion: Node)
      requires Valid()
      modifies this`assertions
      ensures Valid() && assertions == old(assertions) + [assertion]
    {
      assertions := assertions + [assertion];
    }

    method AddSkolemDefinition(lem: Node, skolem: Node)
      requires Valid()
      modifies this`skolemAssertions, this`definitions
      ensures Valid() && skolemAssertions == old(skolemAssertions)[skolem := lem]
      ensures definitions == old(definitions) + {(skolem, lem)}
    {
      ghost var more := definitions + {(skolem, lem)};
      HandledMore(justified, skolemCache, skolemCache, definitions, more);
      forall s | s in trail
        ensures Handled(s.justified, skolemCache, more)
      {
        assert Sound(s, User(), definitions);
        HandledMore(s.justified, skolemCache, skolemCache, definitions, more);
      }
      skolemAssertions := skolemAssertions[skolem := lem];
      definitions := more;
      forall j | 0 <= j < |userTrail|
        ensures PushedSound(j)
      {
        assert old(PushedSound(j));
      }
    }

    // The next literal to decide, or the order to stop. Stopping is sound: whatever values the atoms that are not
    // justified take, every assertion is true, and so is every definition that a justified atom depends on, unless the
    // atom is part of it.
    method GetNext() returns (lit: Option<SatLiteral>, stopSearch: bool)
      requires Valid() && SolverReady()
      modifies this`justified, this`prvsIndex, this`startIndexCache, this`skolemCache, this`visited,
               this`visitedComputeSkolems, this`curDecision
      ensures Valid()
      ensures stopSearch <==> lit.None?
      ensures stopSearch ==> Entailed(Restrict(labels, justified), assertions) && DefinitionsEntailed()
      ensures lit.None? ==> prvsIndex == old(prvsIndex)
      ensures lit.Some? ==>
                && Decidable(lit.value)
                && prvsIndex < |assertions| && Requested(assertions[prvsIndex], SAT_VALUE_TRUE, lit.value)
    {
      visited := {};
      var i := prvsIndex;
      while i < |assertions|
        invariant prvsIndex <= i <= |assertions| && prvsIndex == old(prvsIndex)
        invariant SearchValid() && AllJustified(assertions, i, justified) && visited == {}
        invariant CacheKept(old(skolemCache), skolemCache)
      {
        var litDecision := SearchAssertion(i);
        if litDecision.Some? {
          prvsIndex := i;
          TrailStaysSound();
          return litDecision, false;
        }
        i := i + 1;
      }
      TrailStaysSound();
      JustifiedAssertionsEntailed(literals, labels, justified, assertions);
      JustifiedDefinitionsEntailed();
      return None, true;
    }

    method SearchAssertion(i: nat) returns (lit: Option<SatLiteral>)
      requires SearchValid() && SolverReady() && visited == {} && i < |assertions|
        && AllJustified(assertions, i, justified)
      modifies this`justified, this`startIndexCache, this`skolemCache, this`visited, this`visitedComputeSkolems,
               this`curDecision
      ensures SearchValid() && old(justified) <= justified && CacheKept(old(skolemCache), skolemCache)
      ensures AllJustified(assertions, if lit.None? then i + 1 else i, justified)
      ensures lit.None? ==> visited == {}
      ensures lit.Some? ==> Decidable(lit.value) && Requested(assertions[i], SAT_VALUE_TRUE, lit.value)
    {
      assert Wanted(assertions[i]);
      lit := FindSplitter(assertions[i], SAT_VALUE_TRUE);
    }

    // What has been saved stays sound when lists are cached.
    twostate lemma TrailStaysSound()
      requires old(Valid()) && CacheKept(old(skolemCache), skolemCache)
      requires unchanged(this`trail, this`userTrail, this`definitionsTrail, this`assertions, this`skolemAssertions,
                         this`definitions)
      ensures forall s | s in trail :: Sound(s, User(), definitions)
      ensures forall j | 0 <= j < |userTrail| :: PushedSound(j)
    {
      forall s | s in trail
        ensures Sound(s, User(), definitions)
      {
        SoundMore(s, old(User()), skolemCache, definitions, definitions);
      }
      forall j | 0 <= j < |userTrail|
        ensures PushedSound(j)
      {
        assert old(PushedSound(j));
      }
    }

    // Every definition listed for a justified atom is true, unless the atom is part of it.
    ghost predicate DefinitionsEntailed()
      reads this`labels, this`justified, this`skolemCache, this`definitions
    {
      forall a | a in justified && IsAtom(a) ::
        a in skolemCache && forall d | d in skolemCache[a] ::
          Entailed(Restrict(labels, justified), [d.1]) || Within(definitions, d.0, a)
    }

    lemma JustifiedDefinitionsEntailed()
      requires SearchValid() && SolverReady()
      ensures DefinitionsEntailed()
    {
      forall a | a in justified && IsAtom(a)
        ensures a in skolemCache
        ensures forall d | d in skolemCache[a] ::
          Entailed(Restrict(labels, justified), [d.1]) || Within(definitions, d.0, a)
      {
        assert AtomHandled(justified, skolemCache, definitions, a);
        assert ListValid(skolemAssertions, definitions, a, skolemCache[a]);
        forall d | d in skolemCache[a] && !Within(definitions, d.0, a)
          ensures Entailed(Restrict(labels, justified), [d.1])
        {
          assert Wanted(d.1);
          JustifiedAssertionsEntailed(literals, labels, justified, [d.1]);
        }
      }
    }

    // node is part of the definition of every skolem whose definition is under search.
    ghost predicate Inside(node: Node)
      reads this`visited, this`definitions
    {
      forall k {:trigger Within(definitions, k, node)} | k in visited :: Within(definitions, k, node)
    }

    lemma InsideChild(node: Node, child: Node)
      requires Inside(node) && child in node.children
      ensures Inside(child)
    {
      var i :| 0 <= i < |node.children| && node.children[i] == child;
      assert IsSubterm(child, node.children[i]) && IsSubterm(child, node);
      forall k | k in visited
        ensures Within(definitions, k, child)
      {
        WithinSubterm(definitions, k, node, child);
      }
    }

    // The literal is what the search for the node with the given value leads to: by itself, or through definitions,
    // each of a skolem that is listed for an atom which the search for the one before comes to.
    ghost predicate Requested(node: Node, desiredVal: SatValue, lit: SatLiteral)
      reads this`labels, this`skolemCache
    {
      exists via {:trigger Leads(node, desiredVal, lit, via)} :: Leads(node, desiredVal, lit, via)
    }

    ghost predicate Leads(node: Node, desiredVal: SatValue, lit: SatLiteral, via: seq<Definition>)
      reads this`labels, this`skolemCache
      decreases |via|
    {
      if via == [] then ComesTo(node, desiredVal, lit.variable, !lit.negated)
      else ComesToDefinition(node, desiredVal, via[0]) && Leads(via[0].1, SAT_VALUE_TRUE, lit, via[1..])
    }

    ghost predicate ComesToDefinition(node: Node, desiredVal: SatValue, d: Definition)
      reads this`labels, this`skolemCache
    {
      exists a, v {:trigger ComesTo(node, desiredVal, a, v)} ::
        ComesTo(node, desiredVal, a, v) && a in skolemCache && d in skolemCache[a]
    }

    ghost predicate ComesTo(node: Node, desiredVal: SatValue, a: Node, v: bool)
      reads this`labels
    {
      IsFormula(node) && Asks(labels, node, desiredVal == SAT_VALUE_TRUE, a, v)
    }

    // One of the definitions listed for the atom leads to the literal.
    ghost predicate RequestedByList(atom: Node, lit: SatLiteral)
      reads this`labels, this`skolemCache
    {
      atom in skolemCache && exists d | d in skolemCache[atom] :: Requested(d.1, SAT_VALUE_TRUE, lit)
    }

    lemma RequestedAtAtom(atom: Node, desiredVal: SatValue, lit: SatLiteral)
      requires Askable(atom, desiredVal) && IsFormula(atom) && IsAtom(atom)
      requires RequestedByList(atom, lit) || lit == SatLiteral(atom, desiredVal != SAT_VALUE_TRUE)
      ensures Requested(atom, desiredVal, lit)
    {
      assert ComesTo(atom, desiredVal, atom, desiredVal == SAT_VALUE_TRUE);
      if RequestedByList(atom, lit) {
        var d :| d in skolemCache[atom] && Requested(d.1, SAT_VALUE_TRUE, lit);
        var via :| Leads(d.1, SAT_VALUE_TRUE, lit, via);
        var way := [d] + via;
        assert way[1..] == via && Leads(atom, desiredVal, lit, way);
      } else {
        assert Leads(atom, desiredVal, lit, []);
      }
    }

    // Wherever the search for m comes to, that for n comes to.
    lemma RequestedThrough(n: Node, v: SatValue, m: Node, w: SatValue, lit: SatLiteral)
      requires Requested(m, w, lit) && forall a, b | ComesTo(m, w, a, b) :: ComesTo(n, v, a, b)
      ensures Requested(n, v, lit)
    {
      var via :| Leads(m, w, lit, via);
      assert Leads(n, v, lit, via);
    }

    // The search for the node goes on to its child i.
    ghost predicate Continues(node: Node, desiredVal: SatValue, i: nat, childVal: SatValue)
      reads this`labels
    {
      && IsFormula(node) && !IsAtom(node) && i < |node.children| && childVal != SAT_VALUE_UNKNOWN
      && AsksChild(labels, node, desiredVal == SAT_VALUE_TRUE, i, childVal == SAT_VALUE_TRUE)
    }

    lemma RequestedByChild(node: Node, desiredVal: SatValue, i: nat, childVal: SatValue, lit: SatLiteral)
      requires Askable(node, desiredVal) && Continues(node, desiredVal, i, childVal)
      requires Requested(node.children[i], childVal, lit)
      ensures Requested(node, desiredVal, lit)
    {
      forall a, v | ComesTo(node.children[i], childVal, a, v)
        ensures ComesTo(node, desiredVal, a, v)
      {
        assert AsksInChild(labels, node, i, childVal == SAT_VALUE_TRUE, a, v);
      }
      RequestedThrough(node, desiredVal, node.children[i], childVal, lit);
    }

    ghost predicate Decidable(lit: SatLiteral)
      reads this`labels, this`literals
    {
      IsAtom(lit.variable) && lit.variable in literals && lit.variable !in labels
    }

    method FindSplitter(node: Node, desiredVal: SatValue) returns (lit: Option<SatLiteral>)
      requires SearchValid() && SolverReady() && Askable(node, desiredVal) && visited == {}
      modifies this`justified, this`startIndexCache, this`skolemCache, this`visited, this`visitedComputeSkolems,
               this`curDecision
      ensures SearchValid() && old(justified) <= justified && CacheKept(old(skolemCache), skolemCache)
      ensures lit.None? ==> visited == {}
      ensures lit.Some? ==> Decidable(lit.value) && Requested(node, desiredVal, lit.value)
      ensures lit.None? ==> Core(node) in justified
    {
      curDecision := None;
      var _ := FindSplitterRec(node, desiredVal);
      lit := curDecision;
    }

    // A value can be asked of a node with a literal unless the node already has the opposite value.
    ghost predicate Askable(node: Node, desiredVal: SatValue)
      reads this`labels, this`literals
    {
      && node in literals
      && desiredVal != SAT_VALUE_UNKNOWN
      && ValueOf(labels, node) != InvertValue(desiredVal)
    }

    // The search has not found anything to split on and the node has the value asked for, settled.
    ghost predicate Satisfied(node: Node, desiredVal: SatValue)
      reads this`labels, this`justified
    {
      Settled(labels, justified, node) && ValueOf(labels, node) == desiredVal
    }

    // What every search step promises: at threshold 0 it always knows; either it decides on an unassigned
    // atom, or the node has the value asked for and the state of the search is as before.
    twostate predicate Searched(node: Node, desiredVal: SatValue, ret: SearchResult)
      reads this
    {
      && SearchValid() && old(justified) <= justified && CacheKept(old(skolemCache), skolemCache)
      && ret != DONT_KNOW
      && (ret == FOUND_SPLITTER ==>
            curDecision.Some? && Decidable(curDecision.value) && Requested(node, desiredVal, curDecision.value))
      && (ret == NO_SPLITTER ==>
            Satisfied(node, desiredVal) && visited == old(visited) && curDecision == old(curDecision))
    }

    method FindSplitterRec(n: Node, v: SatValue) returns (ret: SearchResult)
      requires SearchValid() && SolverReady() && Askable(n, v) && Inside(n)
      modifies this`justified, this`startIndexCache, this`skolemCache, this`visited, this`visitedComputeSkolems,
               this`curDecision
      ensures Searched(n, v, ret)
      ensures ret == NO_SPLITTER ==> Core(n) in justified
      decreases skolemAssertions.Keys - visited, n, 5
    {
      var node, desiredVal := n, v;
      while node.kind.NOT?
        invariant (node == n || node < n) && unchanged(this)
        invariant Askable(node, desiredVal) && Inside(node)
        invariant Core(node) == Core(n)
        invariant desiredVal == if Flips(node) == Flips(n) then v else InvertValue(v)
        decreases node
      {
        assert node.children[0] in node.children && CarriesDecision(labels, node);
        InsideChild(node, node.children[0]);
        desiredVal := InvertValue(desiredVal);
        node := node.children[0];
      }
      ret := FindSplitterBelowNot(node, desiredVal);
      if ret == NO_SPLITTER {
        SettledThroughNegations(literals, labels, justified, n);
      } else {
        forall a, b | ComesTo(node, desiredVal, a, b)
          ensures ComesTo(n, v, a, b)
        {
          AsksThroughNegations(literals, labels, n, v == SAT_VALUE_TRUE, a, b);
        }
        RequestedThrough(n, v, node, desiredVal, curDecision.value);
      }
    }

    // The search at a node that is not a negation.
    method FindSplitterBelowNot(node: Node, desiredVal: SatValue) returns (ret: SearchResult)
      requires SearchValid() && SolverReady() && Askable(node, desiredVal) && Inside(node) && !node.kind.NOT?
      modifies this`justified, this`startIndexCache, this`skolemCache, this`visited, this`visitedComputeSkolems,
               this`curDecision
      ensures Searched(node, desiredVal, ret)
      ensures ret == NO_SPLITTER ==> node in justified
      decreases skolemAssertions.Keys - visited, node, 4
    {
      if node in justified {
        return NO_SPLITTER;
      }
      var litVal := ValueOf(labels, node);
      if IsAtom(node) {
        ret := HandleEmbeddedSkolems(node);
        if ret == FOUND_SPLITTER {
          RequestedAtAtom(node, desiredVal, curDecision.value);
          return;
        }
        if litVal != SAT_VALUE_UNKNOWN {
          assert litVal == desiredVal;
          AtomIsHandled(node);
          SetJustified(node);
          return NO_SPLITTER;
        } else {
          curDecision := Some(SatLiteral(node, desiredVal != SAT_VALUE_TRUE));
          RequestedAtAtom(node, desiredVal, curDecision.value);
          return FOUND_SPLITTER;
        }
      }
      ret := HandleConnective(node, desiredVal);
      if ret == NO_SPLITTER {
        SettledMonotone(labels, labels, justified, justified + {node}, node);
        SetJustified(node);
      }
    }

    method HandleConnective(node: Node, desiredVal: SatValue) returns (ret: SearchResult)
      requires SearchValid() && SolverReady() && Askable(node, desiredVal) && Inside(node) && !IsAtom(node)
        && !node.kind.NOT?
      modifies this`justified, this`startIndexCache, this`skolemCache, this`visited, this`visitedComputeSkolems,
               this`curDecision
      ensures Searched(node, desiredVal, ret)
      decreases skolemAssertions.Keys - visited, node, 3
    {
      match node.kind {
        case CONST_BOOLEAN(value) =>
          assert CarriesDecision(labels, node);
          SettledByChildren(literals, labels, justified, {}, node);
          ret := NO_SPLITTER;
        case AND =>
          if desiredVal == SAT_VALUE_FALSE {
            ret := HandleAndOrEasy(node, desiredVal);
          } else {
            ret := HandleAndOrHard(node, desiredVal);
          }
        case OR =>
          if desiredVal == SAT_VALUE_FALSE {
            ret := HandleAndOrHard(node, desiredVal);
          } else {
            ret := HandleAndOrEasy(node, desiredVal);
          }
        case IMPLIES =>
          if desiredVal == SAT_VALUE_FALSE {
            ret := HandleBinaryHard(node, desiredVal, SAT_VALUE_TRUE, SAT_VALUE_FALSE);
          } else {
            ret := HandleBinaryEasy(node, desiredVal, SAT_VALUE_FALSE, SAT_VALUE_TRUE);
          }
        case XOR =>
          var (desiredVal1, desiredVal2) := ComputeXorIffDesiredValues(node.kind, desiredVal,
            ValueOf(labels, node.children[0]), ValueOf(labels, node.children[1]));
          ret := HandleBinaryHard(node, desiredVal, desiredVal1, desiredVal2);
        case EQUAL =>
          var (desiredVal1, desiredVal2) := ComputeXorIffDesiredValues(node.kind, desiredVal,
            ValueOf(labels, node.children[0]), ValueOf(labels, node.children[1]));
          ret := HandleBinaryHard(node, desiredVal, desiredVal1, desiredVal2);
        case ITE =>
          ret := HandleITE(node, desiredVal);
      }
    }

    method SetJustified(n: Node)
      requires SearchValid() && Settled(labels, justified + {n}, n)
      requires IsAtom(n) ==> AtomHandled(justified + {n}, skolemCache, definitions, n)
      modifies this`justified
      ensures SearchValid() && justified == old(justified) + {n} && Settled(labels, justified, n)
    {
      ghost var more := justified + {n};
      forall m | m in more
        ensures Settled(labels, more, m)
      {
        if m != n {
          SettledMonotone(labels, labels, justified, more, m);
        }
      }
      forall a | a in more && IsAtom(a)
        ensures AtomHandled(more, skolemCache, definitions, a)
      {
        assert a != n ==> AtomHandled(justified, skolemCache, definitions, a);
      }
      justified := justified + {n};
    }

    // An atom whose definitions have been searched can be justified.
    lemma AtomIsHandled(node: Node)
      requires Inside(node) && IsFormula(node) && IsAtom(node) && node in labels && ListSearched(node)
      ensures Settled(labels, justified + {node}, node)
      ensures AtomHandled(justified + {node}, skolemCache, definitions, node)
    {
    }

    // The definitions listed for node are justified or under search.
    ghost predicate ListSearched(node: Node)
      reads this`justified, this`skolemCache, this`visited
    {
      node in skolemCache && forall d | d in skolemCache[node] :: DefinitionSearched(d)
    }

    method HandleAndOrEasy(node: Node, desiredVal: SatValue) returns (ret: SearchResult)
      requires SearchValid() && SolverReady() && Askable(node, desiredVal) && Inside(node)
      requires (node.kind.AND? && desiredVal == SAT_VALUE_FALSE) || (node.kind.OR? && desiredVal == SAT_VALUE_TRUE)
      modifies this`justified, this`startIndexCache, this`skolemCache, this`visited, this`visitedComputeSkolems,
               this`curDecision
      ensures Searched(node, desiredVal, ret)
      decreases skolemAssertions.Keys - visited, node, 2
    {
      assert CarriesDecision(labels, node);
      var i := 0;
      while i < |node.children|
        invariant 0 <= i <= |node.children|
        invariant forall j | 0 <= j < i :: ValueOf(labels, node.children[j]) == InvertValue(desiredVal)
        invariant SearchValid() && visited == old(visited) && curDecision == old(curDecision)
        invariant justified == old(justified) && skolemCache == old(skolemCache)
      {
        var curNode := node.children[i];
        assert curNode in node.children;
        if ValueOf(labels, curNode) != InvertValue(desiredVal) {
          InsideChild(node, curNode);
          assert Continues(node, desiredVal, i, desiredVal);
          ret := FindSplitterRec(curNode, desiredVal);
          if ret == NO_SPLITTER {
            SettledByChildren(literals, labels, justified, {curNode}, node);
          } else {
            RequestedByChild(node, desiredVal, i, desiredVal, curDecision.value);
          }
          return;
        }
        i := i + 1;
      }
      // no controlling input found
      assert false;
    }

    method HandleAndOrHard(node: Node, desiredVal: SatValue) returns (ret: SearchResult)
      requires SearchValid() && SolverReady() && Askable(node, desiredVal) && Inside(node)
      requires (node.kind.AND? && desiredVal == SAT_VALUE_TRUE) || (node.kind.OR? && desiredVal == SAT_VALUE_FALSE)
      modifies this`justified, this`startIndexCache, this`skolemCache, this`visited, this`visitedComputeSkolems,
               this`curDecision
      ensures Searched(node, desiredVal, ret)
      decreases skolemAssertions.Keys - visited, node, 2
    {
      assert CarriesDecision(labels, node);
      var noSplitter := true;
      var i_st := GetStartIndex(node);
      var i := i_st;
      while i < |node.children|
        invariant i_st <= i <= |node.children| && noSplitter
        invariant SearchValid() && visited == old(visited) && curDecision == old(curDecision)
        invariant old(justified) <= justified && CacheKept(old(skolemCache), skolemCache)
        invariant AllJustified(node.children, i, justified)
      {
        ret := SearchChild(node, desiredVal, i, i_st);
        if ret == FOUND_SPLITTER {
          return FOUND_SPLITTER;
        }
        noSplitter := noSplitter && ret == NO_SPLITTER;
        i := i + 1;
      }
      ret := if noSplitter then NO_SPLITTER else DONT_KNOW;
      JustifiedChildrenSettle(literals, labels, justified, node);
    }

    // The i-th child is searched; if it has a splitter the next search starts with it.
    method SearchChild(node: Node, desiredVal: SatValue, i: nat, i_st: nat) returns (ret: SearchResult)
      requires SearchValid() && SolverReady() && Askable(node, desiredVal) && Inside(node)
      requires (node.kind.AND? && desiredVal == SAT_VALUE_TRUE) || (node.kind.OR? && desiredVal == SAT_VALUE_FALSE)
      requires i < |node.children| && AllJustified(node.children, i, justified)
      modifies this`justified, this`startIndexCache, this`skolemCache, this`visited, this`visitedComputeSkolems,
               this`curDecision
      ensures ret == FOUND_SPLITTER ==> Searched(node, desiredVal, ret)
      ensures ret == FOUND_SPLITTER && i != i_st ==> node in startIndexCache && startIndexCache[node] == i
      ensures ret != FOUND_SPLITTER ==>
                && ret == NO_SPLITTER && SearchValid() && visited == old(visited) && curDecision == old(curDecision)
                && old(justified) <= justified && CacheKept(old(skolemCache), skolemCache)
                && AllJustified(node.children, i + 1, justified)
      decreases skolemAssertions.Keys - visited, node, 1
    {
      assert CarriesDecision(labels, node);
      var curNode := node.children[i];
      assert curNode in node.children;
      InsideChild(node, curNode);
      JustifiedContinues(node, desiredVal, i);
      ret := FindSplitterRec(curNode, desiredVal);
      if ret == FOUND_SPLITTER {
        RequestedByChild(node, desiredVal, i, desiredVal, curDecision.value);
        if i != i_st {
          SaveStartIndex(node, i);
        }
      }
    }

    // The children before i, which are justified, do not decide the node.
    lemma JustifiedContinues(node: Node, desiredVal: SatValue, i: nat)
      requires SearchValid() && SolverReady() && Askable(node, desiredVal)
      requires (node.kind.AND? && desiredVal == SAT_VALUE_TRUE) || (node.kind.OR? && desiredVal == SAT_VALUE_FALSE)
      requires i < |node.children| && AllJustified(node.children, i, justified)
      ensures Continues(node, desiredVal, i, desiredVal)
    {
      assert CarriesDecision(labels, node) && HasChildrenIn(literals, node);
      forall j | 0 <= j < i
        ensures ValueOf(labels, node.children[j]) == desiredVal
      {
        assert node.children[j] in node.children;
        SettledThroughNegations(literals, labels, justified, node.children[j]);
      }
    }

    method GetStartIndex(node: Node) returns (index: nat)
      requires SearchValid()
      modifies this`startIndexCache
      ensures SearchValid() && AllJustified(node.children, index, justified)
      ensures startIndexCache == old(startIndexCache)[node := index]
      ensures index == if node in old(startIndexCache) then old(startIndexCache)[node] else 0
    {
      if node !in startIndexCache {
        startIndexCache := startIndexCache[node := 0];
      }
      index := startIndexCache[node];
    }

    method SaveStartIndex(node: Node, val: nat)
      requires SearchValid() && AllJustified(node.children, val, justified)
      modifies this`startIndexCache
      ensures SearchValid() && startIndexCache == old(startIndexCache)[node := val]
    {
      startIndexCache := startIndexCache[node := val];
    }

    // Only IMPLIES wanted true takes this path.
    method HandleBinaryEasy(node: Node, desiredVal: SatValue, desiredVal1: SatValue, desiredVal2: SatValue)
      returns (ret: SearchResult)
      requires SearchValid() && SolverReady() && Askable(node, desiredVal) && Inside(node)
      requires node.kind.IMPLIES? && desiredVal == SAT_VALUE_TRUE
      requires desiredVal1 == SAT_VALUE_FALSE && desiredVal2 == SAT_VALUE_TRUE
      modifies this`justified, this`startIndexCache, this`skolemCache, this`visited, this`visitedComputeSkolems,
               this`curDecision
      ensures Searched(node, desiredVal, ret)
      decreases skolemAssertions.Keys - visited, node, 2
    {
      var node1, node2 := node.children[0], node.children[1];
      assert node1 in node.children && node2 in node.children && CarriesDecision(labels, node);
      if ValueOf(labels, node1) != InvertValue(desiredVal1) {
        InsideChild(node, node1);
        assert Continues(node, desiredVal, 0, desiredVal1);
        ret := FindSplitterRec(node1, desiredVal1);
        if ret == NO_SPLITTER {
          SettledByChildren(literals, labels, justified, {node1}, node);
        } else {
          RequestedByChild(node, desiredVal, 0, desiredVal1, curDecision.value);
        }
        return;
      }
      if ValueOf(labels, node2) != InvertValue(desiredVal2) {
        InsideChild(node, node2);
        assert Continues(node, desiredVal, 1, desiredVal2);
        ret := FindSplitterRec(node2, desiredVal2);
        if ret == NO_SPLITTER {
          SettledByChildren(literals, labels, justified, {node2}, node);
        } else {
          RequestedByChild(node, desiredVal, 1, desiredVal2, curDecision.value);
        }
        return;
      }
      // no controlling input found
      assert false;
    }

    method HandleBinaryHard(node: Node, desiredVal: SatValue, desiredVal1: SatValue, desiredVal2: SatValue)
      returns (ret: SearchResult)
      requires SearchValid() && SolverReady() && Askable(node, desiredVal) && Inside(node)
      requires |node.children| == 2 && HardValues(node, desiredVal, desiredVal1, desiredVal2)
      modifies this`justified, this`startIndexCache, this`skolemCache, this`visited, this`visitedComputeSkolems,
               this`curDecision
      ensures Searched(node, desiredVal, ret)
      decreases skolemAssertions.Keys - visited, node, 2
    {
      var node1, node2 := node.children[0], node.children[1];
      assert node1 in node.children && node2 in node.children && CarriesDecision(labels, node);
      var noSplitter := true;
      FirstContinues(node, desiredVal, desiredVal1, desiredVal2);
      ret := SearchSide(node, desiredVal, 0, desiredVal1);
      if ret == FOUND_SPLITTER {
        return;
      }
      noSplitter := noSplitter && ret == NO_SPLITTER;
      ghost var justified1 := justified;
      SecondContinues(node, desiredVal, desiredVal1, desiredVal2);
      ret := SearchSide(node, desiredVal, 1, desiredVal2);
      if ret == FOUND_SPLITTER {
        return;
      }
      noSplitter := noSplitter && ret == NO_SPLITTER;
      ret := if noSplitter then NO_SPLITTER else DONT_KNOW;
      SettledMonotone(labels, labels, justified1, justified, node1);
      BothSettle(node, desiredVal, desiredVal1, desiredVal2);
    }

    // The values that are asked of the sides of IMPLIES wanted false, XOR and EQUAL.
    ghost predicate HardValues(node: Node, desiredVal: SatValue, desiredVal1: SatValue, desiredVal2: SatValue)
      requires |node.children| == 2
      reads this`labels
    {
      || (node.kind.IMPLIES? && desiredVal == SAT_VALUE_FALSE
          && desiredVal1 == SAT_VALUE_TRUE && desiredVal2 == SAT_VALUE_FALSE)
      || ((node.kind.XOR? || (node.kind.EQUAL? && !IsAtom(node)))
          && (desiredVal1, desiredVal2) == ComputeXorIffDesiredValues(node.kind, desiredVal,
               ValueOf(labels, node.children[0]), ValueOf(labels, node.children[1])))
    }

    lemma FirstContinues(node: Node, desiredVal: SatValue, desiredVal1: SatValue, desiredVal2: SatValue)
      requires |node.children| == 2 && Askable(node, desiredVal) && IsFormula(node)
      requires HardValues(node, desiredVal, desiredVal1, desiredVal2)
      ensures Continues(node, desiredVal, 0, desiredVal1)
    {
    }

    lemma SecondContinues(node: Node, desiredVal: SatValue, desiredVal1: SatValue, desiredVal2: SatValue)
      requires |node.children| == 2 && Askable(node, desiredVal) && IsFormula(node)
      requires HardValues(node, desiredVal, desiredVal1, desiredVal2)
      requires ValueOf(labels, node.children[0]) == desiredVal1
      ensures Continues(node, desiredVal, 1, desiredVal2)
    {
    }

    // One side of a binary connective; a splitter for it is one for the node.
    method SearchSide(node: Node, desiredVal: SatValue, i: nat, sideVal: SatValue) returns (ret: SearchResult)
      requires SearchValid() && SolverReady() && Askable(node, desiredVal) && Inside(node)
      requires |node.children| == 2 && i < 2 && Askable(node.children[i], sideVal)
      requires Continues(node, desiredVal, i, sideVal)
      modifies this`justified, this`startIndexCache, this`skolemCache, this`visited, this`visitedComputeSkolems,
               this`curDecision
      ensures if ret == FOUND_SPLITTER then Searched(node, desiredVal, ret)
        else Searched(node.children[i], sideVal, NO_SPLITTER)
      ensures ret != DONT_KNOW
      decreases skolemAssertions.Keys - visited, node, 1
    {
      assert node.children[i] in node.children;
      InsideChild(node, node.children[i]);
      ret := FindSplitterRec(node.children[i], sideVal);
      if ret == FOUND_SPLITTER {
        RequestedByChild(node, desiredVal, i, sideVal, curDecision.value);
      }
    }

    // The sides of a binary connective have the values asked for, in spite of which the node has the desired one.
    lemma BothSettle(node: Node, desiredVal: SatValue, desiredVal1: SatValue, desiredVal2: SatValue)
      requires SolverReady() && Askable(node, desiredVal) && |node.children| == 2
      requires || (node.kind.IMPLIES? && desiredVal == SAT_VALUE_FALSE
                   && desiredVal1 == SAT_VALUE_TRUE && desiredVal2 == SAT_VALUE_FALSE)
               || node.kind.XOR? || (node.kind.EQUAL? && !IsAtom(node))
      requires Satisfied(node.children[0], desiredVal1) && Satisfied(node.children[1], desiredVal2)
      ensures Satisfied(node, desiredVal)
    {
      var settled := {node.children[0], node.children[1]};
      SettledByChildren(literals, labels, justified, settled, node);
    }

    method HandleITE(node: Node, desiredVal: SatValue) returns (ret: SearchResult)
      requires SearchValid() && SolverReady() && Askable(node, desiredVal) && Inside(node) && node.kind.ITE?
      modifies this`justified, this`startIndexCache, this`skolemCache, this`visited, this`visitedComputeSkolems,
               this`curDecision
      ensures Searched(node, desiredVal, ret)
      decreases skolemAssertions.Keys - visited, node, 2
    {
      assert node.children[0] in node.children && CarriesDecision(labels, node);
      var ifVal := ValueOf(labels, node.children[0]);
      InsideChild(node, node.children[0]);
      if ifVal == SAT_VALUE_UNKNOWN {
        var trueChildVal := ValueOf(labels, node.children[1]);
        var falseChildVal := ValueOf(labels, node.children[2]);
        var ifDesiredVal;
        if trueChildVal == desiredVal || falseChildVal == InvertValue(desiredVal) {
          ifDesiredVal := SAT_VALUE_TRUE;
        } else if trueChildVal == InvertValue(desiredVal) || falseChildVal == desiredVal {
          ifDesiredVal := SAT_VALUE_FALSE;
        } else {
          ifDesiredVal := SAT_VALUE_TRUE;
        }
        assert Continues(node, desiredVal, 0, ifDesiredVal);
        ret := FindSplitterRec(node.children[0], ifDesiredVal);
        if ret == FOUND_SPLITTER {
          RequestedByChild(node, desiredVal, 0, ifDesiredVal, curDecision.value);
          return;
        }
        // no controlling input found
        assert false;
      } else {
        ret := HandleBranch(node, desiredVal, ifVal);
      }
    }

    // The condition has a value, which is to be justified, and then the branch it chooses.
    method HandleBranch(node: Node, desiredVal: SatValue, ifVal: SatValue) returns (ret: SearchResult)
      requires SearchValid() && SolverReady() && Askable(node, desiredVal) && Inside(node) && node.kind.ITE?
      requires |node.children| == 3 && ifVal == ValueOf(labels, node.children[0]) != SAT_VALUE_UNKNOWN
      modifies this`justified, this`startIndexCache, this`skolemCache, this`visited, this`visitedComputeSkolems,
               this`curDecision
      ensures Searched(node, desiredVal, ret)
      decreases skolemAssertions.Keys - visited, node, 1
    {
      assert node.children[0] in node.children && node.children[1] in node.children
        && node.children[2] in node.children;
      assert CarriesDecision(labels, node);
      InsideChild(node, node.children[0]);
      assert Continues(node, desiredVal, 0, ifVal);
      ret := FindSplitterRec(node.children[0], ifVal);
      if ret == FOUND_SPLITTER {
        RequestedByChild(node, desiredVal, 0, ifVal, curDecision.value);
        return;
      }
      ghost var justified1 := justified;
      var ch := if ifVal == SAT_VALUE_TRUE then 1 else 2;
      InsideChild(node, node.children[ch]);
      assert Continues(node, desiredVal, ch, desiredVal);
      ret := FindSplitterRec(node.children[ch], desiredVal);
      if ret == FOUND_SPLITTER {
        RequestedByChild(node, desiredVal, ch, desiredVal, curDecision.value);
        return;
      }
      SettledMonotone(labels, labels, justified1, justified, node.children[0]);
      SettledByChildren(literals, labels, justified, {node.children[0], node.children[ch]}, node);
      ret := NO_SPLITTER;
    }

    // Searches the definitions of the skolems in an atom. If nothing is found to split on, those that are listed are
    // justified or under search.
    method HandleEmbeddedSkolems(node: Node) returns (ret: SearchResult)
      requires SearchValid() && SolverReady() && Inside(node)
      modifies this`justified, this`startIndexCache, this`skolemCache, this`visited, this`visitedComputeSkolems,
               this`curDecision
      ensures SkolemSearched(node, ret)
      ensures ret == NO_SPLITTER ==> ListSearched(node)
      decreases skolemAssertions.Keys - visited, node, 1
    {
      var l := GetSkolems(node);
      var noSplitter := true;
      var i := 0;
      while i < |l|
        invariant 0 <= i <= |l| && noSplitter
        invariant SkolemSearched(node, NO_SPLITTER) && FirstSearched(node, l, i)
      {
        ret := SearchListed(node, l, i);
        if ret == FOUND_SPLITTER {
          return;
        }
        noSplitter := noSplitter && ret == NO_SPLITTER;
        i := i + 1;
      }
      ret := if noSplitter then NO_SPLITTER else DONT_KNOW;
    }

    // The first definitions of the list of node have been searched.
    ghost predicate FirstSearched(node: Node, l: SkolemList, count: nat)
      reads this`justified, this`skolemCache, this`visited
    {
      && count <= |l| && node in skolemCache && skolemCache[node] == l
      && forall j | 0 <= j < count :: DefinitionSearched(l[j])
    }

    method SearchListed(node: Node, l: SkolemList, i: nat) returns (ret: SearchResult)
      requires SearchValid() && SolverReady() && Inside(node) && i < |l| && FirstSearched(node, l, i)
      modifies this`justified, this`startIndexCache, this`skolemCache, this`visited, this`visitedComputeSkolems,
               this`curDecision
      ensures SkolemSearched(node, ret)
      ensures ret == NO_SPLITTER ==> FirstSearched(node, l, i + 1)
      decreases skolemAssertions.Keys - visited, node, 0, 1
    {
      assert ListValid(skolemAssertions, definitions, node, l) && l[i] in l;
      ret := SearchSkolem(node, l[i].0, l[i].1);
    }

    ghost predicate DefinitionSearched(d: Definition)
      reads this`justified, this`visited
    {
      Core(d.1) in justified || d.0 in visited
    }

    twostate predicate SkolemSearched(node: Node, ret: SearchResult)
      reads this
    {
      && SearchValid() && old(justified) <= justified && CacheKept(old(skolemCache), skolemCache)
      && ret != DONT_KNOW
      && (ret == FOUND_SPLITTER ==>
            curDecision.Some? && Decidable(curDecision.value) && RequestedByList(node, curDecision.value))
      && (ret == NO_SPLITTER ==> visited == old(visited) && curDecision == old(curDecision))
    }

    // One step of that search; a skolem whose definition is being searched already is left out.
    method SearchSkolem(ghost node: Node, skolem: Node, lem: Node) returns (ret: SearchResult)
      requires SearchValid() && SolverReady() && Inside(node)
      requires skolem in skolemAssertions && (skolem, lem) in definitions && IsStrictSubterm(skolem, node)
      modifies this`justified, this`startIndexCache, this`skolemCache, this`visited, this`visitedComputeSkolems,
               this`curDecision
      ensures SearchValid() && old(justified) <= justified && CacheKept(old(skolemCache), skolemCache)
      ensures ret != DONT_KNOW
      ensures ret == FOUND_SPLITTER ==>
        curDecision.Some? && Decidable(curDecision.value) && Requested(lem, SAT_VALUE_TRUE, curDecision.value)
      ensures ret == NO_SPLITTER ==> visited == old(visited) && curDecision == old(curDecision)
      ensures ret == NO_SPLITTER ==> DefinitionSearched((skolem, lem))
      decreases skolemAssertions.Keys - visited, node, 0, 0
    {
      if skolem in visited {
        return NO_SPLITTER;
      }
      assert Wanted((skolem, lem).1);
      InsideDefinition(node, (skolem, lem));
      visited := visited + {skolem};
      ret := FindSplitterRec(lem, SAT_VALUE_TRUE);
      if ret == NO_SPLITTER {
        visited := visited - {skolem};
      }
    }

    lemma InsideDefinition(node: Node, d: Definition)
      requires Inside(node) && d in definitions && IsStrictSubterm(d.0, node)
      ensures Within(definitions, d.0, d.1) && forall k | k in visited :: Within(definitions, k, d.1)
    {
      WithinOwn(definitions, d);
      forall k | k in visited
        ensures Within(definitions, k, d.1)
      {
        WithinDefinition(definitions, k, node, d);
      }
    }

    method GetSkolems(n: Node) returns (l: SkolemList)
      requires SearchValid()
      modifies this`skolemCache, this`visitedComputeSkolems
      ensures SearchValid() && n in skolemCache && skolemCache[n] == l
      ensures n in old(skolemCache) ==> skolemCache == old(skolemCache)
      ensures n !in old(skolemCache) ==>
                ListsSkolems(skolemAssertions, n, l) && skolemCache == old(skolemCache)[n := l]
    {
      if n in skolemCache {
        return skolemCache[n];
      }
      visitedComputeSkolems := {};
      l := ComputeSkolems(n, []);
      ghost var seen := visitedComputeSkolems;
      forall k | IsStrictSubterm(k, n) && k in skolemAssertions
        ensures (k, skolemAssertions[k]) in l
      {
        ListedBelow(skolemAssertions, seen, l, k, n);
      }
      CacheList(n, l);
    }

    // A list that is added to the cache changes nothing for the atoms that are justified.
    method CacheList(n: Node, l: SkolemList)
      requires SearchValid() && n !in skolemCache && ListValid(skolemAssertions, definitions, n, l)
      modifies this`skolemCache
      ensures SearchValid() && skolemCache == old(skolemCache)[n := l]
    {
      forall a | a in justified && IsAtom(a)
        ensures AtomHandled(justified, skolemCache[n := l], definitions, a)
      {
        assert AtomHandled(justified, skolemCache, definitions, a);
      }
      skolemCache := skolemCache[n := l];
    }

    method ComputeSkolems(n: Node, l0: SkolemList) returns (l: SkolemList)
      requires n !in visitedComputeSkolems
      modifies this`visitedComputeSkolems
      ensures old(visitedComputeSkolems) + {n} <= visitedComputeSkolems
      ensures forall m | m in visitedComputeSkolems && m !in old(visitedComputeSkolems) ::
                ChildrenListed(skolemAssertions, visitedComputeSkolems, l, m, |m.children|)
      ensures forall p | p in l0 :: p in l
      ensures forall p | p in l ::
        p in l0 || (p.0 in skolemAssertions.Keys && p.1 == skolemAssertions[p.0] && IsStrictSubterm(p.0, n))
      decreases n
    {
      l := l0;
      visitedComputeSkolems := visitedComputeSkolems + {n};
      var i := 0;
      while i < |n.children|
        invariant 0 <= i <= |n.children|
        invariant old(visitedComputeSkolems) + {n} <= visitedComputeSkolems
        invariant ChildrenListed(skolemAssertions, visitedComputeSkolems, l, n, i)
        invariant forall m | m in visitedComputeSkolems && m !in old(visitedComputeSkolems) && m != n ::
                    ChildrenListed(skolemAssertions, visitedComputeSkolems, l, m, |m.children|)
        invariant forall p | p in l0 :: p in l
        invariant forall p | p in l ::
          p in l0 || (p.0 in skolemAssertions.Keys && p.1 == skolemAssertions[p.0] && IsStrictSubterm(p.0, n))
      {
        var child := n.children[i];
        assert IsSubterm(child, n.children[i]);
        if child in skolemAssertions {
          l := l + [(child, skolemAssertions[child])];
        }
        if child !in visitedComputeSkolems {
          l := ComputeSkolems(child, l);
        }
        i := i + 1;
      }
    }
  }

  // An AND wanted true or an OR wanted false is settled once all its children are justified.
  lemma JustifiedChildrenSettle(literals: set<Node>, labels: Labels, justified: set<Node>, node: Node)
    requires Propagated(literals, labels) && AllSettled(labels, justified)
    requires node in literals && node.kind in {AND, OR}
    requires ValueOf(labels, node) != FromBool(node.kind.OR?)
    requires AllJustified(node.children, |node.children|, justified)
    ensures Settled(labels, justified, node) && ValueOf(labels, node) == FromBool(node.kind.AND?)
  {
    assert HasChildrenIn(literals, node) && CarriesDecision(labels, node);
    var settled := set c | c in node.children;
    forall c | c in settled
      ensures Settled(labels, justified, c) && ValueOf(labels, c) == FromBool(node.kind.AND?)
    {
      SettledThroughNegations(literals, labels, justified, c);
    }
    SettledByChildren(literals, labels, justified, settled, node);
  }

  // If every assertion's core is justified and no assertion is labelled false, the justified atoms entail all
  // assertions: the polarity that the justified set does not store comes from the labels.
  lemma JustifiedAssertionsEntailed(literals: set<Node>, labels: Labels, justified: set<Node>, assertions: seq<Node>)
    requires Propagated(literals, labels)
    requires AllSettled(labels, justified)
    requires forall a | a in assertions ::
               a in literals && ValueOf(labels, a) != SAT_VALUE_FALSE && Core(a) in justified
    ensures Entailed(Restrict(labels, justified), assertions)
  {
    forall i, sigma: Assignment | 0 <= i < |assertions| && Extends(sigma, Restrict(labels, justified))
      ensures IsFormula(assertions[i]) && Eval(assertions[i], sigma)
    {
      assert assertions[i] in assertions;
      SettledThroughNegations(literals, labels, justified, assertions[i]);
    }
  }

  // The first `count` children of m have been visited, and those that are skolems are listed.
  ghost predicate ChildrenListed(skolems: map<Node, Node>, seen: set<Node>, l: SkolemList, m: Node, count: nat)
    requires count <= |m.children|
  {
    forall i | 0 <= i < count ::
      && m.children[i] in seen
      && (m.children[i] in skolems ==> (m.children[i], skolems[m.children[i]]) in l)
  }

  // The list holds exactly the defined skolems that occur strictly below n.
  ghost predicate ListsSkolems(skolems: map<Node, Node>, n: Node, l: SkolemList) {
    && (forall p | p in l :: p.0 in skolems && p.1 == skolems[p.0] && IsStrictSubterm(p.0, n))
    && (forall k | IsStrictSubterm(k, n) && k in skolems :: (k, skolems[k]) in l)
  }

  lemma {:induction false} ListedBelow(skolems: map<Node, Node>, seen: set<Node>, l: SkolemList, k: Node, n: Node)
    requires forall m | m in seen :: ChildrenListed(skolems, seen, l, m, |m.children|)
    requires n in seen && IsStrictSubterm(k, n) && k in skolems
    ensures (k, skolems[k]) in l
    decreases n
  {
    var i :| 0 <= i < |n.children| && IsSubterm(k, n.children[i]);
    if k != n.children[i] {
      ListedBelow(skolems, seen, l, k, n.children[i]);
    }
  }
}
