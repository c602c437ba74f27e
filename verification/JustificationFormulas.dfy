/** Boolean structure seen by the decision heuristic: nodes, SAT values and what a SAT labelling says about them. */
module JustificationFormulas {

  datatype Kind =
    | CONST_BOOLEAN(value: bool)
    | NOT
    | AND
    | OR
    | IMPLIES
    | XOR
    | EQUAL
    | ITE
    | BOOLEAN_TERM_VARIABLE(id: nat)
    | THEORY(symbol: nat, boolean: bool)  // any kind owned by another theory; boolean: the sort is Bool

  // Nodes are hash-consed, so node identity is structural equality.
  datatype Node = Node(kind: Kind, children: seq<Node>)

  datatype SatValue = SAT_VALUE_TRUE | SAT_VALUE_FALSE | SAT_VALUE_UNKNOWN

  type Labels = map<Node, bool>

  type Assignment = Node -> bool

  function InvertValue(v: SatValue): SatValue {
    match v
    case SAT_VALUE_TRUE => SAT_VALUE_FALSE
    case SAT_VALUE_FALSE => SAT_VALUE_TRUE
    case SAT_VALUE_UNKNOWN => SAT_VALUE_UNKNOWN
  }

  function FromBool(b: bool): SatValue {
    if b then SAT_VALUE_TRUE else SAT_VALUE_FALSE
  }

  // The value of the node's SAT literal, or unknown.
  function ValueOf(labels: Labels, n: Node): SatValue {
    if n in labels then FromBool(labels[n]) else SAT_VALUE_UNKNOWN
  }

  predicate IsBooleanType(n: Node) {
    match n.kind
    case THEORY(_, boolean) => boolean
    case ITE => |n.children| == 3 && IsBooleanType(n.children[1])
    case _ => true
  }

  predicate IsAtom(n: Node) {
    || n.kind.BOOLEAN_TERM_VARIABLE?
    || n.kind.THEORY?
    || (n.kind.EQUAL? && |n.children| == 2 && !IsBooleanType(n.children[0]))
  }

  predicate IsFormula(n: Node) {
    match n.kind
    case CONST_BOOLEAN(_) => n.children == []
    case NOT => |n.children| == 1 && IsFormula(n.children[0])
    case AND => forall i | 0 <= i < |n.children| :: IsFormula(n.children[i])
    case OR => forall i | 0 <= i < |n.children| :: IsFormula(n.children[i])
    case IMPLIES => |n.children| == 2 && IsFormula(n.children[0]) && IsFormula(n.children[1])
    case XOR => |n.children| == 2 && IsFormula(n.children[0]) && IsFormula(n.children[1])
    case EQUAL =>
      |n.children| == 2 && (IsBooleanType(n.children[0]) ==> IsFormula(n.children[0]) && IsFormula(n.children[1]))
    case ITE => |n.children| == 3 && IsFormula(n.children[0]) && IsFormula(n.children[1]) && IsFormula(n.children[2])
    case BOOLEAN_TERM_VARIABLE(_) => true
    case THEORY(_, boolean) => boolean
  }

  // Formulas are of Boolean sort, so that an equality between them is a connective.
  lemma {:induction false} FormulaIsBoolean(n: Node)
    requires IsFormula(n)
    ensures IsBooleanType(n)
    ensures forall m | IsFormula(m) :: IsFormula(Node(EQUAL, [n, m])) && !IsAtom(Node(EQUAL, [n, m]))
  {
    if n.kind.ITE? {
      FormulaIsBoolean(n.children[1]);
    }
  }

  // Truth of a formula under a total assignment of its atoms.
  ghost predicate Eval(n: Node, sigma: Assignment)
    requires IsFormula(n)
  {
    if IsAtom(n) then sigma(n) else
    match n.kind
    case CONST_BOOLEAN(value) => value
    case NOT => !Eval(n.children[0], sigma)
    case AND => forall i | 0 <= i < |n.children| :: Eval(n.children[i], sigma)
    case OR => exists i | 0 <= i < |n.children| :: Eval(n.children[i], sigma)
    case IMPLIES => Eval(n.children[0], sigma) ==> Eval(n.children[1], sigma)
    case XOR => Eval(n.children[0], sigma) != Eval(n.children[1], sigma)
    case EQUAL => Eval(n.children[0], sigma) == Eval(n.children[1], sigma)
    case ITE => if Eval(n.children[0], sigma) then Eval(n.children[1], sigma) else Eval(n.children[2], sigma)
  }

  ghost predicate Extends(sigma: Assignment, labels: Labels) {
    forall a | a in labels && IsAtom(a) :: sigma(a) == labels[a]
  }

  // Every total assignment of the atoms that agrees with the labels gives n the value v.
  ghost predicate Forced(labels: Labels, n: Node, v: bool)
    requires IsFormula(n)
  {
    forall sigma: Assignment | Extends(sigma, labels) :: Eval(n, sigma) == v
  }

  // The formula under a chain of negations, and whether the chain flips the value.
  function Core(n: Node): Node {
    if n.kind.NOT? && |n.children| == 1 then Core(n.children[0]) else n
  }

  predicate Flips(n: Node) {
    n.kind.NOT? && |n.children| == 1 && !Flips(n.children[0])
  }

  // The value the children's known values decide for a formula that is not an atom.
  function Decide(labels: Labels, n: Node): SatValue
    requires IsFormula(n) && !IsAtom(n)
  {
    match n.kind
    case CONST_BOOLEAN(value) => FromBool(value)
    case NOT => InvertValue(ValueOf(labels, n.children[0]))
    case AND =>
      if exists i | 0 <= i < |n.children| :: ValueOf(labels, n.children[i]) == SAT_VALUE_FALSE then SAT_VALUE_FALSE
      else if forall i | 0 <= i < |n.children| :: ValueOf(labels, n.children[i]) == SAT_VALUE_TRUE then SAT_VALUE_TRUE
      else SAT_VALUE_UNKNOWN
    case OR =>
      if exists i | 0 <= i < |n.children| :: ValueOf(labels, n.children[i]) == SAT_VALUE_TRUE then SAT_VALUE_TRUE
      else if forall i | 0 <= i < |n.children| :: ValueOf(labels, n.children[i]) == SAT_VALUE_FALSE then SAT_VALUE_FALSE
      else SAT_VALUE_UNKNOWN
    case IMPLIES =>
      var v0, v1 := ValueOf(labels, n.children[0]), ValueOf(labels, n.children[1]);
      if v0 == SAT_VALUE_FALSE || v1 == SAT_VALUE_TRUE then SAT_VALUE_TRUE
      else if v0 == SAT_VALUE_TRUE && v1 == SAT_VALUE_FALSE then SAT_VALUE_FALSE
      else SAT_VALUE_UNKNOWN
    case XOR => Differ(ValueOf(labels, n.children[0]), ValueOf(labels, n.children[1]))
    case EQUAL => InvertValue(Differ(ValueOf(labels, n.children[0]), ValueOf(labels, n.children[1])))
    case ITE =>
      match ValueOf(labels, n.children[0])
      case SAT_VALUE_TRUE => ValueOf(labels, n.children[1])
      case SAT_VALUE_FALSE => ValueOf(labels, n.children[2])
      case SAT_VALUE_UNKNOWN => SAT_VALUE_UNKNOWN
  }

  function Differ(v0: SatValue, v1: SatValue): SatValue {
    if v0 == SAT_VALUE_UNKNOWN || v1 == SAT_VALUE_UNKNOWN then SAT_VALUE_UNKNOWN
    else FromBool(v0 != v1)
  }

  // The nodes with a SAT literal are formulas, closed under subformulas.
  ghost predicate ValidLiterals(literals: set<Node>) {
    forall n | n in literals :: IsFormula(n) && HasChildrenIn(literals, n)
  }

  ghost predicate HasChildrenIn(literals: set<Node>, n: Node) {
    !IsAtom(n) ==> forall c | c in n.children :: c in literals
  }

  // What the SAT solver is assumed to keep up at a decision: only nodes with literals are labelled, and
  // a node whose children's values decide it carries that value.
  ghost predicate Propagated(literals: set<Node>, labels: Labels) {
    && ValidLiterals(literals)
    && labels.Keys <= literals
    && forall n {:trigger CarriesDecision(labels, n)} | n in literals :: CarriesDecision(labels, n)
  }

  ghost predicate CarriesDecision(labels: Labels, n: Node)
    requires IsFormula(n)
  {
    !IsAtom(n) && Decide(labels, n) != SAT_VALUE_UNKNOWN ==> ValueOf(labels, n) == Decide(labels, n)
  }

  // The part of a labelling that covers the given nodes.
  function Restrict(labels: Labels, nodes: set<Node>): Labels {
    map m | m in labels && m in nodes :: labels[m]
  }

  // Whether a node's value is known and forced by the values of the atoms that are justified.
  ghost predicate Settled(labels: Labels, justified: set<Node>, n: Node) {
    IsFormula(n) && n in labels && Forced(Restrict(labels, justified), n, labels[n])
  }

  lemma {:induction false} CoreIsFormula(n: Node)
    requires IsFormula(n)
    ensures IsFormula(Core(n)) && !Core(n).kind.NOT?
    ensures forall sigma: Assignment :: Eval(n, sigma) == (Eval(Core(n), sigma) != Flips(n))
  {
    if n.kind.NOT? {
      CoreIsFormula(n.children[0]);
    }
  }

  lemma {:induction false} CoreValue(literals: set<Node>, labels: Labels, n: Node)
    requires Propagated(literals, labels) && n in literals
    ensures IsFormula(n) && Core(n) in literals
    ensures Core(n) in labels ==> n in labels && labels[n] == (labels[Core(n)] != Flips(n))
  {
    if n.kind.NOT? {
      assert n.children[0] in n.children && HasChildrenIn(literals, n) && CarriesDecision(labels, n);
      CoreValue(literals, labels, n.children[0]);
    }
  }

  // A node whose core is settled is settled itself.
  lemma SettledThroughNegations(literals: set<Node>, labels: Labels, justified: set<Node>, n: Node)
    requires Propagated(literals, labels) && n in literals && Settled(labels, justified, Core(n))
    ensures Settled(labels, justified, n)
  {
    CoreIsFormula(n);
    CoreValue(literals, labels, n);
  }

  // Settled nodes stay settled, with the same value, as more nodes are labelled and justified.
  lemma SettledMonotone(labels: Labels, more: Labels, justified: set<Node>, justified': set<Node>, n: Node)
    requires Settled(labels, justified, n) && justified <= justified'
    requires forall m | m in labels :: m in more && more[m] == labels[m]
    ensures Settled(more, justified', n)
  {
    forall sigma: Assignment | Extends(sigma, Restrict(more, justified'))
      ensures Eval(n, sigma) == more[n]
    {
      assert Extends(sigma, Restrict(labels, justified));
    }
  }

  // The assumptions on the solver can be met: labelling every formula by its truth under a total
  // assignment is propagated.
  lemma TruthIsPropagated(literals: set<Node>, sigma: Assignment)
    requires ValidLiterals(literals)
    ensures Propagated(literals, TruthLabels(literals, sigma))
    ensures forall n | n in literals :: TruthLabels(literals, sigma)[n] == Eval(n, sigma)
  {
    var labels := TruthLabels(literals, sigma);
    forall n | n in literals && !IsAtom(n)
      ensures ValueOf(labels, n) == Decide(labels, n)
    {
      assert HasChildrenIn(literals, n);
      assert forall i | 0 <= i < |n.children| :: n.children[i] in n.children;
      assert forall i | 0 <= i < |n.children| ::
          ValueOf(labels, n.children[i]) == FromBool(Eval(n.children[i], sigma));
    }
  }

  ghost function TruthLabels(literals: set<Node>, sigma: Assignment): Labels
    requires ValidLiterals(literals)
  {
    map n | n in literals :: Eval(n, sigma)
  }

  // If settled children already decide a node, the node is settled with the decided value.
  lemma SettledByChildren(literals: set<Node>, labels: Labels, justified: set<Node>, settled: set<Node>, n: Node)
    requires Propagated(literals, labels) && n in literals && !IsAtom(n)
    requires forall m | m in settled :: Settled(labels, justified, m)
    requires Decide(Restrict(labels, settled), n) != SAT_VALUE_UNKNOWN
    ensures Settled(labels, justified, n) && ValueOf(labels, n) == Decide(Restrict(labels, settled), n)
  {
    var known := Restrict(labels, settled);
    assert forall c | c in n.children && c in known :: ValueOf(known, c) == ValueOf(labels, c);
    DecideMonotone(known, labels, n);
    assert CarriesDecision(labels, n);
    forall sigma: Assignment | Extends(sigma, Restrict(labels, justified))
      ensures FromBool(Eval(n, sigma)) == Decide(known, n)
    {
      assert forall c | c in known :: Settled(labels, justified, c) && Eval(c, sigma) == known[c];
      EvalMatchesDecide(known, n, sigma);
    }
  }

  // Knowing more values keeps what is already decided.
  lemma DecideMonotone(known: Labels, labels: Labels, n: Node)
    requires IsFormula(n) && !IsAtom(n) && Decide(known, n) != SAT_VALUE_UNKNOWN
    requires forall m | m in known :: m in labels && labels[m] == known[m]
    ensures Decide(labels, n) == Decide(known, n)
  {
    assert forall m | m in known :: ValueOf(labels, m) == ValueOf(known, m);
  }

  lemma EvalMatchesDecide(known: Labels, n: Node, sigma: Assignment)
    requires IsFormula(n) && !IsAtom(n) && Decide(known, n) != SAT_VALUE_UNKNOWN
    requires forall m | m in known :: IsFormula(m) && Eval(m, sigma) == known[m]
    ensures FromBool(Eval(n, sigma)) == Decide(known, n)
  {
    assert forall m | m in known :: ValueOf(known, m) == FromBool(Eval(m, sigma));
  }

  // The search for n with the value d goes on to its child i with the value e. It looks at the children of AND and OR
  // from left to right, past those that do not decide the node, and at the branch of ITE that is chosen.
  ghost predicate AsksChild(labels: Labels, n: Node, d: bool, i: nat, e: bool)
    requires IsFormula(n) && !IsAtom(n) && i < |n.children|
  {
    match n.kind
    case CONST_BOOLEAN(_) => false
    case NOT => e == !d
    case AND => e == d && forall j | 0 <= j < i :: ValueOf(labels, n.children[j]) == SAT_VALUE_TRUE
    case OR => e == d && forall j | 0 <= j < i :: ValueOf(labels, n.children[j]) == SAT_VALUE_FALSE
    case IMPLIES => if i == 0 then e == !d else e == d && ValueOf(labels, n.children[0]) == SAT_VALUE_TRUE
    case XOR => AsksSide(labels, n, d, i, e)
    case EQUAL => AsksSide(labels, n, d, i, e)
    case ITE =>
      var ifVal := ValueOf(labels, n.children[0]);
      if i > 0 then e == d && ifVal == FromBool(i == 1)
      else if ifVal == SAT_VALUE_UNKNOWN then HelpsIf(labels, n, d, e)
      else ifVal == FromBool(e)
  }

  // A side of XOR or EQUAL that has a value is asked for that value. One that has none is asked for the value that
  // keeps the node from what is desired, or for false if the other side has none either.
  ghost predicate AsksSide(labels: Labels, n: Node, d: bool, i: nat, e: bool)
    requires IsFormula(n) && !IsAtom(n) && n.kind in {XOR, EQUAL} && i < |n.children|
  {
    var side, other := n.children[i], n.children[1 - i];
    && (i == 1 ==> ValueOf(labels, other) != SAT_VALUE_UNKNOWN)
    && (if ValueOf(labels, side) != SAT_VALUE_UNKNOWN then ValueOf(labels, side) == FromBool(e)
        else if ValueOf(labels, other) == SAT_VALUE_UNKNOWN then !e
        else Decide(labels[side := e], n) == FromBool(!d))
  }

  // The condition of n, which has no value, is asked for e. If !e gives n the desired value so does e; if e gives it
  // the opposite value so does !e; and if it makes no difference, e is true.
  ghost predicate HelpsIf(labels: Labels, n: Node, d: bool, e: bool)
    requires IsFormula(n) && n.kind.ITE?
  {
    && (BranchValue(labels, n, !e) == FromBool(d) ==> BranchValue(labels, n, e) == FromBool(d))
    && (BranchValue(labels, n, e) == FromBool(!d) ==> BranchValue(labels, n, !e) == FromBool(!d))
    && (BranchValue(labels, n, true) == BranchValue(labels, n, false) ==> e)
  }

  // The value that n gets, without any other value changing, when its condition gets the value b.
  ghost function BranchValue(labels: Labels, n: Node, b: bool): SatValue
    requires IsFormula(n) && n.kind.ITE?
  {
    ValueOf(labels, n.children[if b then 1 else 2])
  }

  lemma BranchDecides(labels: Labels, n: Node, b: bool)
    requires IsFormula(n) && n.kind.ITE? && n.children[0] !in n.children[1..]
    ensures Decide(labels[n.children[0] := b], n) == BranchValue(labels, n, b)
  {
    assert n.children[1] == n.children[1..][0] && n.children[2] == n.children[1..][1];
  }

  // A condition that is a branch as well can be asked for the wrong value: ite(c, c, y) wanted false asks for c,
  // which makes it true.
  lemma ConditionIsBranch(labels: Labels, c: Node, y: Node)
    requires IsFormula(c) && IsFormula(y) && c !in labels && y !in labels && c != y
    ensures var n := Node(ITE, [c, c, y]);
      IsFormula(n) && (forall e :: AsksChild(labels, n, false, 0, e) <==> e)
      && Decide(labels[c := true], n) == SAT_VALUE_TRUE && Decide(labels[c := false], n) == SAT_VALUE_UNKNOWN
  {
  }

  // Making atom a take the value v is what the search for n with the value d comes to, through nodes that do not have
  // the opposite of what is asked of them.
  ghost predicate Asks(labels: Labels, n: Node, d: bool, a: Node, v: bool)
    requires IsFormula(n)
    decreases n, 1
  {
    && ValueOf(labels, n) != FromBool(!d)
    && if IsAtom(n) then n == a && d == v
       else exists i, e {:trigger AsksChild(labels, n, d, i, e)} | 0 <= i < |n.children| ::
         AsksChild(labels, n, d, i, e) && AsksInChild(labels, n, i, e, a, v)
  }

  ghost predicate AsksInChild(labels: Labels, n: Node, i: nat, e: bool, a: Node, v: bool)
    requires IsFormula(n) && i < |n.children|
    decreases n, 0
  {
    IsFormula(n.children[i]) && Asks(labels, n.children[i], e, a, v)
  }

  // What the formula under negations asks, the negations ask.
  lemma {:induction false} AsksThroughNegations(literals: set<Node>, labels: Labels, n: Node, d: bool, a: Node, v: bool)
    requires Propagated(literals, labels) && n in literals && ValueOf(labels, n) != FromBool(!d)
    requires IsFormula(n) && IsFormula(Core(n)) && Asks(labels, Core(n), d != Flips(n), a, v)
    ensures Asks(labels, n, d, a, v)
  {
    if n.kind.NOT? {
      assert n.children[0] in n.children && HasChildrenIn(literals, n) && CarriesDecision(labels, n);
      AsksThroughNegations(literals, labels, n.children[0], !d, a, v);
      assert AsksChild(labels, n, d, 0, !d) && AsksInChild(labels, n, 0, !d, a, v);
    }
  }
}
