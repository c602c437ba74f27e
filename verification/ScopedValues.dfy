/** What backtracking means: a stack of snapshots, and the theorem that a pop undoes everything since its push. */
module ScopedValues {

  // The current values and, for each push that has not been popped, the values at that push. An object created after a
  // push but meant to survive its pop is added to the snapshots with its initial value.
  datatype State<O, T> = State(values: map<O, T>, snapshots: seq<map<O, T>>)

  // New creates an object in the scope at a level: it will survive the pops down to that level.
  datatype Command<O, T> = Set(o: O, data: T) | New(o: O, level: nat, initial: T) | Push | Pop

  ghost function Extended<O, T>(snapshots: seq<map<O, T>>, o: O, level: nat, initial: T): (r: seq<map<O, T>>)
    ensures |r| == |snapshots|
    ensures forall k | 0 <= k < |r| :: r[k] == if k < level then snapshots[k] else snapshots[k][o := initial]
  {
    seq(|snapshots|, k requires 0 <= k < |snapshots| => if k < level then snapshots[k] else snapshots[k][o := initial])
  }

  ghost function Step<O, T>(s: State<O, T>, c: Command<O, T>): State<O, T> {
    match c
    case Set(o, data) => s.(values := s.values[o := data])
    case New(o, level, initial) => State(s.values[o := initial], Extended(s.snapshots, o, level, initial))
    case Push => s.(snapshots := s.snapshots + [s.values])
    case Pop =>
      var n := |s.snapshots|;
      if n == 0 then s else State(s.snapshots[n - 1], s.snapshots[..n - 1])
  }

  ghost function Run<O, T>(s: State<O, T>, cs: seq<Command<O, T>>): State<O, T> {
    if cs == [] then s else Step(Run(s, cs[..|cs| - 1]), cs[|cs| - 1])
  }

  // The number of pushes minus the number of pops.
  ghost function Net<O, T>(cs: seq<Command<O, T>>): int {
    if cs == [] then 0
    else Net(cs[..|cs| - 1]) + match cs[|cs| - 1] { case Push => 1 case Pop => -1 case _ => 0 }
  }

  // Every pop in cs matches a push in cs.
  ghost predicate Nested<O, T>(cs: seq<Command<O, T>>) {
    cs == [] || (Nested(cs[..|cs| - 1]) && Net(cs) >= 0)
  }

  // The objects that cs creates at level k or below, with their initial values.
  ghost function Created<O, T>(cs: seq<Command<O, T>>, k: nat): map<O, T> {
    if cs == [] then map[]
    else
      var before := Created(cs[..|cs| - 1], k);
      match cs[|cs| - 1]
      case New(o, level, initial) => if level <= k then before[o := initial] else before
      case _ => before
  }

  // Whatever happens in nested scopes, a snapshot only gains the objects that were created for its level.
  lemma {:induction false} SnapshotsAreKept<O, T>(s: State<O, T>, cs: seq<Command<O, T>>)
    requires Nested(cs)
    ensures |Run(s, cs).snapshots| == |s.snapshots| + Net(cs)
    ensures forall k | 0 <= k < |s.snapshots| :: Run(s, cs).snapshots[k] == s.snapshots[k] + Created(cs, k)
  {
    if cs != [] {
      SnapshotsAreKept(s, cs[..|cs| - 1]);
    }
  }

  // The pop that matches a push gives back the values at the push, and of the objects created in between, those that
  // outlive the scope, with their initial values.
  lemma PopUndoesPush<O, T>(s: State<O, T>, cs: seq<Command<O, T>>)
    requires Nested(cs) && Net(cs) == 0
    ensures var r := Step(Run(Step(s, Push), cs), Pop);
      && r.values == s.values + Created(cs, |s.snapshots|)
      && |r.snapshots| == |s.snapshots|
      && forall k | 0 <= k < |s.snapshots| :: r.snapshots[k] == s.snapshots[k] + Created(cs, k)
  {
    SnapshotsAreKept(Step(s, Push), cs);
  }

  // In particular an object that existed at the push and is not created again has the value it had.
  lemma PopRestoresValue<O, T>(s: State<O, T>, cs: seq<Command<O, T>>, o: O)
    requires Nested(cs) && Net(cs) == 0 && o in s.values
    requires forall c | c in cs && c.New? :: c.o != o
    ensures var r := Step(Run(Step(s, Push), cs), Pop); o in r.values && r.values[o] == s.values[o]
  {
    PopUndoesPush(s, cs);
    NotCreated(cs, |s.snapshots|, o);
  }

  lemma {:induction false} NotCreated<O, T>(cs: seq<Command<O, T>>, k: nat, o: O)
    requires forall c | c in cs && c.New? :: c.o != o
    ensures o !in Created(cs, k)
  {
    if cs != [] {
      NotCreated(cs[..|cs| - 1], k, o);
    }
  }

  // ---- an object that is destroyed

  ghost function ForgottenIn<O, T>(snapshots: seq<map<O, T>>, o: O): (r: seq<map<O, T>>)
    ensures |r| == |snapshots| && forall k | 0 <= k < |r| :: r[k] == snapshots[k] - {o}
  {
    seq(|snapshots|, k requires 0 <= k < |snapshots| => snapshots[k] - {o})
  }

  ghost function Forget<O, T>(s: State<O, T>, o: O): State<O, T> {
    State(s.values - {o}, ForgottenIn(s.snapshots, o))
  }

  ghost predicate About<O, T>(c: Command<O, T>, o: O) {
    (c.Set? || c.New?) && c.o == o
  }

  lemma ForgetStep<O, T>(s: State<O, T>, c: Command<O, T>, o: O)
    requires !About(c, o)
    ensures Forget(Step(s, c), o) == Step(Forget(s, o), c)
  {
    match c
    case Set(_, _) =>
    case New(x, level, initial) =>
      assert forall m: map<O, T> :: m[x := initial] - {o} == (m - {o})[x := initial];
      assert ForgottenIn(Extended(s.snapshots, x, level, initial), o) ==
             Extended(ForgottenIn(s.snapshots, o), x, level, initial);
    case Push => assert ForgottenIn(s.snapshots + [s.values], o) == ForgottenIn(s.snapshots, o) + [s.values - {o}];
    case Pop =>
      var n := |s.snapshots|;
      assert n > 0 ==> ForgottenIn(s.snapshots[..n - 1], o) == ForgottenIn(s.snapshots, o)[..n - 1];
  }

  // Destroying an object now or after any run that does not touch it makes no difference to the others.
  lemma {:induction false} ForgetCommutes<O, T>(s: State<O, T>, cs: seq<Command<O, T>>, o: O)
    requires forall c | c in cs :: !About(c, o)
    ensures Forget(Run(s, cs), o) == Run(Forget(s, o), cs)
  {
    if cs != [] {
      var init, c := cs[..|cs| - 1], cs[|cs| - 1];
      ForgetCommutes(s, init, o);
      ForgetStep(Run(s, init), c, o);
    }
  }
}
