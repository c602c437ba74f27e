/** Contexts: scopes with intrusive lists of changed objects, saved versions, and push and pop. */
module Context {

  import Spec = ScopedValues
  import opened Sequences

  // What d_ppContextObjPrev points to: the head pointer of a scope's list or the next pointer of an object.
  datatype Link<!T> = NoLink | ListOf(s: Scope<T>) | NextOf(o: ContextObj<T>)

  // A context-dependent object or a saved version of one.
  class ContextObj<!T> {
    var pScope: Scope?<T>
    var restore: ContextObj?<T>
    var next: ContextObj?<T>
    var prev: Link<T>
    var data: T

    // The scope level whose memory region it lies in; 0 for an object on the heap.
    ghost const region: nat

    constructor (data: T, ghost region: nat)
      ensures this.data == data && pScope == null && restore == null && next == null && prev == NoLink
      ensures this.region == region
    {
      this.data, pScope, restore, next, prev := data, null, null, null, NoLink;
      this.region := region;
    }

    // save(): the copy constructor.
    constructor Save(o: ContextObj<T>, ghost region: nat)
      ensures pScope == o.pScope && restore == o.restore && next == o.next && prev == o.prev && data == o.data
      ensures this.region == region
    {
      pScope, restore, next, prev, data := o.pScope, o.restore, o.next, o.prev, o.data;
      this.region := region;
    }
  }

  // A scope. Its list is described by a sequence that goes from the end of the list to its head, so that an object
  // added at the head leaves every index as it was.
  class Scope<!T> {
    const level: nat
    var list: ContextObj?<T>

    constructor (level: nat)
      ensures this.level == level && list == null
    {
      this.level, list := level, null;
    }

    ghost predicate NextOK(c: seq<ContextObj<T>>, i: nat)
      requires i < |c|
      reads {c[i]}`pScope, {c[i]}`next
    {
      c[i].pScope == this && c[i].next == if i == 0 then null else c[i - 1]
    }

    ghost predicate PrevOK(c: seq<ContextObj<T>>, i: nat)
      requires i < |c|
      reads {c[i]}`prev
    {
      c[i].prev == if i == |c| - 1 then ListOf(this) else NextOf(c[i + 1])
    }

    // The objects of c can be walked from head on.
    ghost predicate Walk(c: seq<ContextObj<T>>, head: ContextObj?<T>)
      reads c`pScope, c`next
    {
      && (forall i | 0 <= i < |c| :: NextOK(c, i))
      && head == if c == [] then null else c[|c| - 1]
    }

    // The scope's list is the doubly linked list of c.
    ghost predicate Lists(c: seq<ContextObj<T>>)
      reads this`list, c`pScope, c`next, c`prev
    {
      && Walk(c, list)
      && (forall i | 0 <= i < |c| :: PrevOK(c, i))
    }

    twostate lemma KeepsLists(c: seq<ContextObj<T>>)
      requires old(Lists(c)) && list == old(list)
      requires forall n | n in c :: n.pScope == old(n.pScope) && n.next == old(n.next) && n.prev == old(n.prev)
      ensures Lists(c)
    {
      forall i | 0 <= i < |c|
        ensures NextOK(c, i) && PrevOK(c, i)
      {
        assert old(NextOK(c, i)) && old(PrevOK(c, i));
      }
    }

    // When the head of the list has been dealt with the rest can still be walked.
    twostate lemma WalksOn(c: seq<ContextObj<T>>)
      requires c != [] && old(Walk(c, c[|c| - 1]))
      requires forall i | 0 <= i < |c| - 1 :: c[i].next == old(c[i].next)
      requires forall i | 0 <= i < |c| - 1 :: c[i].pScope == old(c[i].pScope)
      ensures Walk(c[..|c| - 1], old(c[|c| - 1].next))
    {
      var d := c[..|c| - 1];
      assert old(NextOK(c, |c| - 1));
      forall i | 0 <= i < |d|
        ensures NextOK(d, i)
      {
        assert old(NextOK(c, i));
      }
    }

    // addToChain
    method AddToChain(o: ContextObj<T>, ghost c: seq<ContextObj<T>>)
      requires Lists(c) && Distinct(c) && o !in c && o.pScope == this
      modifies this`list, o`next, o`prev, c`prev
      ensures Lists(c + [o])
    {
      if list != null {
        list.prev := NextOf(o);
      }
      o.next, o.prev := list, ListOf(this);
      list := o;
      forall i | 0 <= i < |c + [o]|
        ensures NextOK(c + [o], i) && PrevOK(c + [o], i)
      {
        assert i < |c| ==> old(NextOK(c, i)) && old(PrevOK(c, i));
      }
    }

    // Sets o's scope to this one, to be restored from saved, and adds it to the list.
    method Enter(o: ContextObj<T>, saved: ContextObj?<T>, ghost c: seq<ContextObj<T>>)
      requires Lists(c) && Distinct(c) && o !in c
      modifies this`list, o`pScope, o`restore, o`next, o`prev, c`prev
      ensures Lists(c + [o]) && o.pScope == this && o.restore == saved
    {
      o.pScope := this;
      o.restore := saved;
      assert Lists(c);
      AddToChain(o, c);
    }

    // Takes o = c[i] out of the list.
    method Unlink(o: ContextObj<T>, ghost c: seq<ContextObj<T>>, ghost i: nat)
      requires Lists(c) && Distinct(c) && i < |c| && c[i] == o
      modifies this`list, c`next, c`prev
      ensures Lists(Without(c, i)) && o.next == old(o.next)
    {
      assert NextOK(c, i) && PrevOK(c, i);
      WithoutAt(c, i);
      if o.next != null {
        o.next.prev := o.prev;
      }
      match o.prev {
        case ListOf(s) => s.list := o.next;
        case NextOf(p) => p.next := o.next;
      }
      ghost var c' := Without(c, i);
      forall j | 0 <= j < |c'|
        ensures NextOK(c', j) && PrevOK(c', j)
      {
        ghost var k := if j < i then j else j + 1;
        assert c'[j] == c[k] && old(NextOK(c, k)) && old(PrevOK(c, k));
      }
    }

    // Makes the neighbours of o = c[i] point to o', which holds a copy of o's links.
    method Splice(o: ContextObj<T>, o': ContextObj<T>, ghost c: seq<ContextObj<T>>, ghost i: nat)
      requires Lists(c) && Distinct(c) && i < |c| && c[i] == o && o' !in c
      requires o'.pScope == o.pScope && o'.next == o.next && o'.prev == o.prev
      modifies this`list, c`next, c`prev
      ensures Lists(c[i := o'])
    {
      assert NextOK(c, i) && PrevOK(c, i);
      if o'.next != null {
        o'.next.prev := NextOf(o');
      }
      match o'.prev {
        case ListOf(s) => s.list := o';
        case NextOf(p) => p.next := o';
      }
      ghost var c' := c[i := o'];
      forall j | 0 <= j < |c'|
        ensures NextOK(c', j) && PrevOK(c', j)
      {
        assert old(NextOK(c, j)) && old(PrevOK(c, j));
      }
    }
  }

  // ---- where the versions sit: the layout has one sequence for each scope

  datatype Place = Place(level: nat, index: nat)

  type Layout<!T> = seq<seq<ContextObj<T>>>

  type Places<!T> = map<ContextObj<T>, Place>

  ghost function Members<T>(layout: Layout<T>): set<ContextObj<T>> {
    set k, i | 0 <= k < |layout| && 0 <= i < |layout[k]| :: layout[k][i]
  }

  ghost predicate Sits<T>(layout: Layout<T>, place: Places<T>, k: nat, i: nat)
    requires k < |layout| && i < |layout[k]|
  {
    layout[k][i] in place && place[layout[k][i]] == Place(k, i)
  }

  ghost predicate Found<T>(layout: Layout<T>, n: ContextObj<T>, p: Place) {
    p.level < |layout| && p.index < |layout[p.level]| && layout[p.level][p.index] == n
  }

  // Every version is in exactly one list, in one place.
  ghost predicate Placed<T>(layout: Layout<T>, place: Places<T>) {
    && (forall k, i | 0 <= k < |layout| && 0 <= i < |layout[k]| :: Sits(layout, place, k, i))
    && (forall n | n in place :: Found(layout, n, place[n]))
  }

  lemma PlacedOnce<T>(layout: Layout<T>, place: Places<T>)
    requires Placed(layout, place)
    ensures forall k | 0 <= k < |layout| :: Distinct(layout[k])
    ensures forall k, i | 0 <= k < |layout| && 0 <= i < |layout[k]| ::
      layout[k][i] in place && place[layout[k][i]] == Place(k, i)
  {
    forall k, i | 0 <= k < |layout| && 0 <= i < |layout[k]|
      ensures layout[k][i] in place && place[layout[k][i]] == Place(k, i)
    {
      assert Sits(layout, place, k, i);
    }
  }

  ghost function Swapped<T>(layout: Layout<T>, o': ContextObj<T>, p: Place): Layout<T>
    requires p.level < |layout| && p.index < |layout[p.level]|
  {
    layout[p.level := layout[p.level][p.index := o']]
  }

  lemma SwapPlaced<T>(layout: Layout<T>, place: Places<T>, o: ContextObj<T>, o': ContextObj<T>)
    requires Placed(layout, place) && o in place && o' !in place
    ensures Found(layout, o, place[o])
    ensures Placed(Swapped(layout, o', place[o]), (place - {o})[o' := place[o]])
  {
    assert Found(layout, o, place[o]);
    var layout', place' := Swapped(layout, o', place[o]), (place - {o})[o' := place[o]];
    forall k, i | 0 <= k < |layout'| && 0 <= i < |layout'[k]|
      ensures Sits(layout', place', k, i)
    {
      assert Sits(layout, place, k, i);
    }
    forall n | n in place'
      ensures Found(layout', n, place'[n])
    {
      assert n in place ==> Found(layout, n, place[n]);
    }
  }

  lemma AppendPlaced<T>(layout: Layout<T>, place: Places<T>, k: nat, o: ContextObj<T>)
    requires Placed(layout, place) && k < |layout| && o !in place
    ensures Placed(layout[k := layout[k] + [o]], place[o := Place(k, |layout[k]|)])
  {
    var layout', place' := layout[k := layout[k] + [o]], place[o := Place(k, |layout[k]|)];
    forall a, i | 0 <= a < |layout'| && 0 <= i < |layout'[a]|
      ensures Sits(layout', place', a, i)
    {
      assert (a, i) != (k, |layout[k]|) ==> Sits(layout, place, a, i);
    }
    forall n | n in place'
      ensures Found(layout', n, place'[n])
    {
      assert n in place ==> Found(layout, n, place[n]);
    }
  }

  lemma DropPlaced<T>(layout: Layout<T>, place: Places<T>, k: nat)
    requires Placed(layout, place) && k < |layout| && layout[k] != []
    ensures Placed(layout[k := layout[k][..|layout[k]| - 1]], place - {layout[k][|layout[k]| - 1]})
  {
    var last := |layout[k]| - 1;
    var o := layout[k][last];
    assert Sits(layout, place, k, last);
    var layout', place' := layout[k := layout[k][..last]], place - {o};
    forall a, i | 0 <= a < |layout'| && 0 <= i < |layout'[a]|
      ensures Sits(layout', place', a, i)
    {
      assert Sits(layout, place, a, i);
    }
    forall n | n in place'
      ensures Found(layout', n, place'[n])
    {
      assert Found(layout, n, place[n]);
    }
  }

  ghost function TakenOut<T>(layout: Layout<T>, p: Place): Layout<T>
    requires p.level < |layout| && p.index < |layout[p.level]|
  {
    layout[p.level := Without(layout[p.level], p.index)]
  }

  // Where the others sit when n has been taken out.
  ghost function ClosedUp<T>(place: Places<T>, n: ContextObj<T>): Places<T>
    requires n in place
  {
    map x | x in place && x != n :: Moved(place[x], place[n])
  }

  ghost function Moved(q: Place, p: Place): Place {
    if q.level == p.level && q.index > p.index then Place(q.level, q.index - 1) else q
  }

  lemma TakeOutPlaced<T>(layout: Layout<T>, place: Places<T>, n: ContextObj<T>)
    requires Placed(layout, place) && n in place
    ensures Found(layout, n, place[n])
    ensures Placed(TakenOut(layout, place[n]), ClosedUp(place, n))
  {
    var p := place[n];
    assert Found(layout, n, p);
    var layout', place' := TakenOut(layout, p), ClosedUp(place, n);
    WithoutAt(layout[p.level], p.index);
    forall k, i | 0 <= k < |layout'| && 0 <= i < |layout'[k]|
      ensures Sits(layout', place', k, i)
    {
      assert Sits(layout, place, k, if k == p.level && i >= p.index then i + 1 else i);
    }
    forall x | x in place'
      ensures Found(layout', x, place'[x])
    {
      assert Found(layout, x, place[x]);
    }
  }

  // ---- what the versions are for: each live object has a history of versions, oldest first, and is the last itself

  type History<!T> = map<ContextObj<T>, seq<ContextObj<T>>>

  type Owners<!T> = map<ContextObj<T>, ContextObj<T>>

  // values are those of the live objects; a snapshot is what values was at a push that has not been popped.
  datatype Model<!T> = Model(
    values: map<ContextObj<T>, T>,
    layout: Layout<T>,
    place: Places<T>,
    history: History<T>,
    owner: Owners<T>,
    snapshots: seq<map<ContextObj<T>, T>>
  )

  ghost predicate FreedWith<T>(place: Places<T>, h: seq<ContextObj<T>>, i: nat)
    requires 0 < i < |h| && h[i] in place
  {
    h[i - 1].region == place[h[i]].level
  }

  // Each version sits in a strictly later scope than the one before it, and each saved version lies in the memory
  // region of the scope that will restore it.
  ghost predicate Rising<T>(place: Places<T>, h: seq<ContextObj<T>>) {
    && (forall i | 0 <= i < |h| :: h[i] in place)
    && (forall i, j | 0 <= i < j < |h| :: place[h[i]].level < place[h[j]].level)
    && (forall i | 0 < i < |h| :: FreedWith(place, h, i))
  }

  // h is a history of o.
  ghost predicate Stacked<T>(place: Places<T>, h: seq<ContextObj<T>>, o: ContextObj<T>) {
    h != [] && h[|h| - 1] == o && Rising(place, h) && o.region <= place[h[0]].level
  }

  ghost predicate Owns<T>(h: seq<ContextObj<T>>, o: ContextObj<T>, owner: Owners<T>) {
    forall i | 0 <= i < |h| :: h[i] in owner && owner[h[i]] == o
  }

  ghost predicate Listed<T>(history: History<T>, owner: Owners<T>, n: ContextObj<T>) {
    n in owner && owner[n] in history && n in history[owner[n]]
  }

  // Every version belongs to one history.
  ghost predicate Owned<T>(place: Places<T>, history: History<T>, owner: Owners<T>) {
    && owner.Keys == place.Keys
    && (forall o {:trigger Owns(history[o], o, owner)} | o in history :: Owns(history[o], o, owner))
    && (forall n {:trigger Listed(history, owner, n)} | n in place :: Listed(history, owner, n))
  }

  // A snapshot has just the objects that existed when it was taken.
  ghost predicate Covers<T>(place: Places<T>, h: seq<ContextObj<T>>, o: ContextObj<T>,
                            snapshots: seq<map<ContextObj<T>, T>>)
    requires Stacked(place, h, o)
  {
    forall k | 0 <= k < |snapshots| :: o in snapshots[k] <==> place[h[0]].level <= k
  }

  ghost predicate Tracked<T>(m: Model<T>, o: ContextObj<T>) {
    o in m.history && Stacked(m.place, m.history[o], o) && Covers(m.place, m.history[o], o, m.snapshots)
  }

  ghost predicate Coherent<T>(m: Model<T>) {
    && |m.layout| == |m.snapshots| + 1
    && Placed(m.layout, m.place)
    && Owned(m.place, m.history, m.owner)
    && m.values.Keys == m.history.Keys
    && (forall o {:trigger Tracked(m, o)} | o in m.history :: Tracked(m, o))
    && (forall k | 0 <= k < |m.snapshots| :: m.snapshots[k].Keys <= m.history.Keys)
  }

  // o is a live object of m.
  ghost predicate Live<T>(m: Model<T>, o: ContextObj<T>) {
    && o in m.history && m.history[o] != []
    && o in m.place && Found(m.layout, o, m.place[o])
    && |m.layout| == |m.snapshots| + 1
  }

  lemma HistoryIsLive<T>(m: Model<T>, o: ContextObj<T>)
    requires Coherent(m) && o in m.history
    ensures Live(m, o)
  {
    assert Tracked(m, o);
    var h := m.history[o];
    assert h[|h| - 1] in m.place;
    assert Found(m.layout, o, m.place[o]);
  }

  // Every version sits in one list only, at one place only.
  lemma InOneList<T>(m: Model<T>, n: ContextObj<T>, k: nat, i: nat)
    requires Coherent(m) && k < |m.layout| && i < |m.layout[k]|
    ensures m.layout[k][i] == n <==> n in m.place && m.place[n] == Place(k, i)
  {
    assert Sits(m.layout, m.place, k, i);
  }

  // No version that can still be reached lies in memory that has been given back.
  lemma NoneDangles<T>(m: Model<T>, n: ContextObj<T>)
    requires Coherent(m) && n in m.place
    ensures n.region < |m.layout|
  {
    assert Listed(m.history, m.owner, n);
    var o := m.owner[n];
    var h := m.history[o];
    assert Tracked(m, o);
    var i :| 0 <= i < |h| && h[i] == n;
    assert Found(m.layout, h[0], m.place[h[0]]);
    if i < |h| - 1 {
      assert FreedWith(m.place, h, i + 1) && Found(m.layout, h[i + 1], m.place[h[i + 1]]);
    }
  }

  // n, as the i-th version of h, is to be restored from the one before.
  ghost predicate RestoreIs<T>(n: ContextObj<T>, h: seq<ContextObj<T>>, i: nat)
    requires i < |h|
    reads n`restore
  {
    n.restore == if i == 0 then null else h[i - 1]
  }

  ghost predicate RestoresBelow<T>(h: seq<ContextObj<T>>, i: nat)
    requires i <= |h|
    reads h`restore
  {
    forall j {:trigger RestoreIs(h[j], h, j)} | 0 <= j < i :: RestoreIs(h[j], h, j)
  }

  ghost predicate RestoreOK<T>(h: seq<ContextObj<T>>, i: nat)
    requires i < |h|
    reads {h[i]}`restore
  {
    RestoreIs(h[i], h, i)
  }

  // The restore pointers go through the history.
  ghost predicate Restores<T>(h: seq<ContextObj<T>>)
    reads h`restore
  {
    forall i | 0 <= i < |h| :: RestoreOK(h, i)
  }

  // h[i] is the version that was current while k was the top level.
  ghost predicate InForce<T>(m: Model<T>, o: ContextObj<T>, i: nat, k: nat)
    requires Tracked(m, o)
  {
    var h := m.history[o];
    i < |h| && k < |m.snapshots| && m.place[h[i]].level <= k && (i + 1 < |h| ==> k < m.place[h[i + 1]].level)
  }

  // Each snapshot has the value of the version of o that was in force.
  ghost predicate Remembers<T>(m: Model<T>, o: ContextObj<T>)
    requires Tracked(m, o)
    reads m.history[o]`data
  {
    forall k: nat, i: nat | InForce(m, o, i, k) :: o in m.snapshots[k] && m.snapshots[k][o] == m.history[o][i].data
  }

  ghost predicate Backed<T>(m: Model<T>, o: ContextObj<T>)
    requires o in m.history
    reads m.history[o]`restore, m.history[o]`data
  {
    && Tracked(m, o)
    && Restores(m.history[o])
    && Remembers(m, o)
    && o in m.values && m.values[o] == m.history[o][|m.history[o]| - 1].data
  }

  // What the saved versions of o say about it.
  ghost predicate SavedBacked<T>(m: Model<T>, o: ContextObj<T>)
    requires Tracked(m, o)
    reads m.history[o][..|m.history[o]| - 1]`restore, m.history[o][..|m.history[o]| - 1]`data
  {
    var h := m.history[o];
    var c := h[..|h| - 1];
    && (forall i | 0 <= i < |c| :: c[i].restore == if i == 0 then null else h[i - 1])
    && (forall k: nat, i: nat | InForce(m, o, i, k) && i < |c| ::
          o in m.snapshots[k] && m.snapshots[k][o] == c[i].data)
  }

  lemma SavedPart<T>(m: Model<T>, o: ContextObj<T>)
    requires o in m.history && Backed(m, o)
    ensures SavedBacked(m, o)
    ensures o !in m.history[o][..|m.history[o]| - 1]
  {
    var h := m.history[o];
    var c := h[..|h| - 1];
    forall i | 0 <= i < |c|
      ensures c[i].restore == if i == 0 then null else h[i - 1]
    {
      assert RestoreOK(h, i);
    }
  }

  // ---- update

  ghost function SavedIn<T>(h: seq<ContextObj<T>>, o: ContextObj<T>, saved: ContextObj<T>): seq<ContextObj<T>>
    requires h != []
  {
    h[..|h| - 1] + [saved, o]
  }

  ghost function SavedLayout<T>(m: Model<T>, o: ContextObj<T>, saved: ContextObj<T>): Layout<T>
    requires Live(m, o)
  {
    Swapped(m.layout, saved, m.place[o])
  }

  ghost function SavedPlace<T>(m: Model<T>, o: ContextObj<T>, saved: ContextObj<T>): Places<T>
    requires Live(m, o)
  {
    (m.place - {o})[saved := m.place[o]]
  }

  // saved takes o's place and o moves to the top level.
  ghost function Updated<T>(m: Model<T>, o: ContextObj<T>, saved: ContextObj<T>): Model<T>
    requires Live(m, o)
  {
    var layout, top := SavedLayout(m, o, saved), |m.snapshots|;
    Model(m.values,
          layout[top := layout[top] + [o]],
          SavedPlace(m, o, saved)[o := Place(top, |layout[top]|)],
          m.history[o := SavedIn(m.history[o], o, saved)],
          m.owner[saved := o],
          m.snapshots)
  }

  lemma SavedInMembers<T>(h: seq<ContextObj<T>>, o: ContextObj<T>, saved: ContextObj<T>)
    requires h != [] && h[|h| - 1] == o
    ensures forall n | n in h :: n in SavedIn(h, o, saved)
    ensures saved in SavedIn(h, o, saved)
  {
    assert h == h[..|h| - 1] + [o];
  }

  lemma UpdatedPlaced<T>(m: Model<T>, o: ContextObj<T>, saved: ContextObj<T>)
    requires Coherent(m) && Live(m, o) && saved !in m.place
    ensures Placed(Updated(m, o, saved).layout, Updated(m, o, saved).place)
  {
    SwapPlaced(m.layout, m.place, o, saved);
    AppendPlaced(SavedLayout(m, o, saved), SavedPlace(m, o, saved), |m.snapshots|, o);
  }

  lemma UpdatedOwned<T>(m: Model<T>, o: ContextObj<T>, saved: ContextObj<T>)
    requires Coherent(m) && Live(m, o) && saved !in m.place
    ensures Owned(Updated(m, o, saved).place, Updated(m, o, saved).history, Updated(m, o, saved).owner)
  {
    var h, m' := m.history[o], Updated(m, o, saved);
    assert Tracked(m, o) && Owns(h, o, m.owner);
    SavedInMembers(h, o, saved);
    forall x | x in m'.history
      ensures Owns(m'.history[x], x, m'.owner)
    {
      assert Owns(m.history[x], x, m.owner);
    }
    forall n | n in m'.place
      ensures Listed(m'.history, m'.owner, n)
    {
      assert n in m.place ==> Listed(m.history, m.owner, n);
    }
  }

  // A history is not affected when other versions move and the snapshots keep the object.
  lemma TrackedElsewhere<T>(m: Model<T>, m': Model<T>, o: ContextObj<T>)
    requires Tracked(m, o) && o in m'.history && m'.history[o] == m.history[o]
    requires forall i | 0 <= i < |m.history[o]| ::
      m.history[o][i] in m'.place && m'.place[m.history[o][i]].level == m.place[m.history[o][i]].level
    requires |m'.snapshots| == |m.snapshots|
    requires forall k | 0 <= k < |m.snapshots| :: o in m'.snapshots[k] <==> o in m.snapshots[k]
    ensures Tracked(m', o)
  {
    var h := m.history[o];
    forall i | 0 < i < |h|
      ensures FreedWith(m'.place, h, i)
    {
      assert FreedWith(m.place, h, i);
    }
  }

  lemma RisingSavedIn<T>(place: Places<T>, place': Places<T>, h: seq<ContextObj<T>>, o: ContextObj<T>,
                         saved: ContextObj<T>)
    requires h != [] && Rising(place, h)
    requires forall i | 0 <= i < |h| - 1 :: h[i] in place' && place'[h[i]] == place[h[i]]
    requires saved in place' && place'[saved] == place[h[|h| - 1]]
    requires o in place' && place'[o].level == saved.region > place[h[|h| - 1]].level
    ensures Rising(place', SavedIn(h, o, saved))
  {
    var h' := SavedIn(h, o, saved);
    forall i | 0 < i < |h'|
      ensures h'[i] in place' && FreedWith(place', h', i)
    {
      assert i < |h| ==> FreedWith(place, h, i);
    }
  }

  lemma SavedInStacked<T>(m: Model<T>, o: ContextObj<T>, saved: ContextObj<T>)
    requires Tracked(m, o) && Live(m, o) && saved !in m.place
    requires m.place[o].level < |m.snapshots| == saved.region
    ensures Tracked(Updated(m, o, saved), o)
  {
    RisingSavedIn(m.place, Updated(m, o, saved).place, m.history[o], o, saved);
  }

  lemma UpdatedTracked<T>(m: Model<T>, o: ContextObj<T>, saved: ContextObj<T>, x: ContextObj<T>)
    requires Coherent(m) && Live(m, o) && saved !in m.place && x in m.history
    requires m.place[o].level < |m.snapshots| == saved.region
    ensures Tracked(Updated(m, o, saved), x)
  {
    assert Tracked(m, o) && Tracked(m, x);
    assert Owns(m.history[o], o, m.owner) && Owns(m.history[x], x, m.owner);
    if x == o {
      SavedInStacked(m, o, saved);
    } else {
      TrackedElsewhere(m, Updated(m, o, saved), x);
    }
  }

  lemma UpdatedCoherent<T>(m: Model<T>, o: ContextObj<T>, saved: ContextObj<T>)
    requires Coherent(m) && Live(m, o) && saved !in m.place && m.place[o].level < |m.snapshots| == saved.region
    ensures Coherent(Updated(m, o, saved))
  {
    UpdatedPlaced(m, o, saved);
    UpdatedOwned(m, o, saved);
    forall x | x in Updated(m, o, saved).history
      ensures Tracked(Updated(m, o, saved), x)
    {
      UpdatedTracked(m, o, saved, x);
    }
  }

  // The values that the versions still in force hold are kept.
  lemma UpdatedRemembers<T>(m: Model<T>, o: ContextObj<T>, saved: ContextObj<T>, x: ContextObj<T>)
    requires Coherent(m) && Live(m, o) && saved !in m.place && x in m.history
    requires m.place[o].level < |m.snapshots| == saved.region
    requires Tracked(m, x) && Remembers(m, x) && saved.data == o.data
    ensures Tracked(Updated(m, o, saved), x) && Remembers(Updated(m, o, saved), x)
  {
    var m' := Updated(m, o, saved);
    UpdatedTracked(m, o, saved, x);
    assert Owns(m.history[o], o, m.owner) && Owns(m.history[x], x, m.owner);
    forall k: nat, i: nat | InForce(m', x, i, k)
      ensures x in m'.snapshots[k] && m'.snapshots[k][x] == m'.history[x][i].data
    {
      assert InForce(m, x, i, k);
    }
  }

  lemma UpdatedRestores<T>(m: Model<T>, o: ContextObj<T>, saved: ContextObj<T>)
    requires Tracked(m, o)
    requires forall i | 0 <= i < |m.history[o]| - 1 :: RestoreOK(m.history[o], i)
    requires o.restore == saved && saved.restore ==
      if |m.history[o]| == 1 then null else m.history[o][|m.history[o]| - 2]
    ensures Restores(SavedIn(m.history[o], o, saved))
  {
    var h, h' := m.history[o], SavedIn(m.history[o], o, saved);
    forall i | 0 <= i < |h'|
      ensures RestoreOK(h', i)
    {
      assert i < |h| - 1 ==> RestoreOK(h, i);
    }
  }

  // No version in the history of another object is o.
  lemma HistoriesApart<T>(m: Model<T>, o: ContextObj<T>, x: ContextObj<T>)
    requires Coherent(m) && o in m.history && x in m.history && x != o
    ensures o !in m.history[x]
  {
    HistoryIsLive(m, o);
    assert Tracked(m, o) && Owns(m.history[o], o, m.owner) && Owns(m.history[x], x, m.owner);
  }

  // o is only the last version in its own history.
  lemma LastOnly<T>(m: Model<T>, o: ContextObj<T>, i: nat)
    requires Tracked(m, o) && i < |m.history[o]| - 1
    ensures m.history[o][i] != o
  {
  }

  // ---- set, push and the creation of an object

  lemma SetCoherent<T>(m: Model<T>, o: ContextObj<T>, data: T)
    requires Coherent(m) && o in m.history
    ensures Coherent(m.(values := m.values[o := data]))
  {
    var m' := m.(values := m.values[o := data]);
    forall x | x in m'.history
      ensures Tracked(m', x)
    {
      assert Tracked(m, x);
    }
  }

  // A live object in the top scope is in force in no snapshot.
  lemma NotInForce<T>(m: Model<T>, o: ContextObj<T>, i: nat, k: nat)
    requires Coherent(m) && Live(m, o) && Tracked(m, o) && m.place[o].level == |m.snapshots| && InForce(m, o, i, k)
    ensures m.history[o][i] != o
  {
  }

  lemma SetBacked<T>(m: Model<T>, o: ContextObj<T>, x: ContextObj<T>)
    requires Coherent(m) && Tracked(m, o) && x in m.history
    requires if x == o then Restores(m.history[o]) && Remembers(m, o) else Backed(m, x)
    ensures Backed(m.(values := m.values[o := o.data]), x)
  {
    var m' := m.(values := m.values[o := o.data]);
    assert Tracked(m, x);
    SetCoherent(m, o, o.data);
    assert Tracked(m', x);
    forall k: nat, i: nat | InForce(m', x, i, k)
      ensures x in m'.snapshots[k] && m'.snapshots[k][x] == m'.history[x][i].data
    {
      assert InForce(m, x, i, k);
    }
  }

  ghost function Pushed<T>(m: Model<T>): Model<T> {
    m.(layout := m.layout + [[]], snapshots := m.snapshots + [m.values])
  }

  lemma PushedTracked<T>(m: Model<T>, o: ContextObj<T>)
    requires Coherent(m) && o in m.history
    ensures Tracked(Pushed(m), o)
  {
    assert Tracked(m, o);
    var h := m.history[o];
    assert Found(m.layout, h[0], m.place[h[0]]);
  }

  lemma PushedCoherent<T>(m: Model<T>)
    requires Coherent(m)
    ensures Coherent(Pushed(m))
  {
    var m' := Pushed(m);
    forall k, i | 0 <= k < |m'.layout| && 0 <= i < |m'.layout[k]|
      ensures Sits(m'.layout, m'.place, k, i)
    {
      assert Sits(m.layout, m.place, k, i);
    }
    forall n | n in m'.place
      ensures Found(m'.layout, n, m'.place[n])
    {
      assert Found(m.layout, n, m.place[n]);
    }
    assert Owned(m'.place, m'.history, m'.owner) by {
      assert m.place == m'.place && m.history == m'.history && m.owner == m'.owner;
    }
    forall o | o in m'.history
      ensures Tracked(m', o)
    {
      PushedTracked(m, o);
    }
  }

  lemma PushedBacked<T>(m: Model<T>, o: ContextObj<T>)
    requires Coherent(m) && o in m.history && Backed(m, o)
    ensures Backed(Pushed(m), o)
  {
    var m', h := Pushed(m), m.history[o];
    PushedTracked(m, o);
    forall j | 0 <= j < |h|
      ensures m.place[h[j]].level <= |m.snapshots|
    {
      assert Found(m.layout, h[j], m.place[h[j]]);
    }
    forall k: nat, i: nat | InForce(m', o, i, k)
      ensures o in m'.snapshots[k] && m'.snapshots[k][o] == h[i].data
    {
      assert k < |m.snapshots| ==> InForce(m, o, i, k);
    }
  }

  ghost function Created<T>(m: Model<T>, o: ContextObj<T>, level: nat, data: T): Model<T>
    requires level < |m.layout|
  {
    Model(m.values[o := data],
          m.layout[level := m.layout[level] + [o]],
          m.place[o := Place(level, |m.layout[level]|)],
          m.history[o := [o]],
          m.owner[o := o],
          Spec.Extended(m.snapshots, o, level, data))
  }

  lemma CreatedOwned<T>(m: Model<T>, o: ContextObj<T>, level: nat, data: T)
    requires Coherent(m) && level < |m.layout| && o !in m.place
    ensures Owned(Created(m, o, level, data).place, Created(m, o, level, data).history,
                  Created(m, o, level, data).owner)
  {
    var m' := Created(m, o, level, data);
    forall x | x in m'.history
      ensures Owns(m'.history[x], x, m'.owner)
    {
      assert x != o ==> Owns(m.history[x], x, m.owner);
    }
    forall n | n in m'.place
      ensures Listed(m'.history, m'.owner, n)
    {
      if n != o {
        assert Listed(m.history, m.owner, n);
        HistoryIsLive(m, m.owner[n]);
      }
    }
  }

  lemma CreatedTracked<T>(m: Model<T>, o: ContextObj<T>, level: nat, data: T, x: ContextObj<T>)
    requires Coherent(m) && level < |m.layout| && o !in m.place && o.region <= level
    requires x == o || x in m.history
    ensures Tracked(Created(m, o, level, data), x)
  {
    if x == o {
      forall k | 0 <= k < |m.snapshots|
        ensures o !in m.snapshots[k]
      {
        if o in m.history {
          HistoryIsLive(m, o);
        }
      }
    } else {
      assert Tracked(m, x);
      TrackedElsewhere(m, Created(m, o, level, data), x);
    }
  }

  lemma CreatedMeans<T>(m: Model<T>, o: ContextObj<T>, level: nat, data: T)
    requires level < |m.layout|
    ensures var m' := Created(m, o, level, data);
      && Spec.State(m'.values, m'.snapshots) == Spec.Step(Spec.State(m.values, m.snapshots), Spec.New(o, level, data))
      && m'.place.Keys == m.place.Keys + {o}
  {
  }

  lemma CreatedCoherent<T>(m: Model<T>, o: ContextObj<T>, level: nat, data: T)
    requires Coherent(m) && level < |m.layout| && o !in m.place && o.region <= level
    ensures Coherent(Created(m, o, level, data))
  {
    var m' := Created(m, o, level, data);
    assert m'.values.Keys == m'.history.Keys;
    AppendPlaced(m.layout, m.place, level, o);
    CreatedOwned(m, o, level, data);
    forall x | x in m'.history
      ensures Tracked(m', x)
    {
      CreatedTracked(m, o, level, data, x);
    }
  }

  lemma CreatedBacked<T>(m: Model<T>, o: ContextObj<T>, level: nat, data: T, x: ContextObj<T>)
    requires Coherent(m) && level < |m.layout| && o !in m.place && o.region <= level
    requires if x == o then o.data == data && o.restore == null else x in m.history && Backed(m, x)
    ensures x in Created(m, o, level, data).history && Backed(Created(m, o, level, data), x)
  {
    var m' := Created(m, o, level, data);
    CreatedTracked(m, o, level, data, x);
    forall k: nat, i: nat | InForce(m', x, i, k)
      ensures x in m'.snapshots[k] && m'.snapshots[k][x] == m'.history[x][i].data
    {
      assert x != o ==> InForce(m, x, i, k);
    }
  }

  // ---- pop

  // o is the head of the last list, the one of the scope that is deleted.
  ghost predicate Dying<T>(m: Model<T>, o: ContextObj<T>) {
    && |m.layout| == |m.snapshots| + 1 && |m.snapshots| > 0
    && (var c := m.layout[|m.snapshots|]; c != [] && c[|c| - 1] == o)
    && o in m.history && m.history[o] != []
  }

  // What is in the list of the last scope is a live object.
  lemma LastListIsLive<T>(m: Model<T>)
    requires Coherent(m) && |m.snapshots| > 0 && m.layout[|m.snapshots|] != []
    ensures var c := m.layout[|m.snapshots|]; Dying(m, c[|c| - 1])
  {
    var top := |m.snapshots|;
    var c := m.layout[top];
    var o := c[|c| - 1];
    assert Sits(m.layout, m.place, top, |c| - 1);
    assert Listed(m.history, m.owner, o);
    var x := m.owner[o];
    assert Tracked(m, x);
    var h := m.history[x];
    var i :| 0 <= i < |h| && h[i] == o;
    assert Found(m.layout, x, m.place[x]);
    assert i == |h| - 1;
  }

  ghost function DroppedLayout<T>(m: Model<T>, o: ContextObj<T>): Layout<T>
    requires Dying(m, o)
  {
    var top := |m.snapshots|;
    m.layout[top := m.layout[top][..|m.layout[top]| - 1]]
  }

  // The head of the last list disappears: it was created in the scope that is deleted.
  ghost function Removed<T>(m: Model<T>, o: ContextObj<T>): Model<T>
    requires Dying(m, o)
  {
    Model(m.values - {o}, DroppedLayout(m, o), m.place - {o}, m.history - {o}, m.owner - {o}, m.snapshots)
  }

  lemma RemovedCoherent<T>(m: Model<T>, o: ContextObj<T>)
    requires Coherent(m) && Dying(m, o) && |m.history[o]| == 1
    ensures Coherent(Removed(m, o))
  {
    var m' := Removed(m, o);
    assert Tracked(m, o) && Owns(m.history[o], o, m.owner);
    assert Sits(m.layout, m.place, |m.snapshots|, |m.layout[|m.snapshots|]| - 1);
    DropPlaced(m.layout, m.place, |m.snapshots|);
    forall x | x in m'.history
      ensures Owns(m'.history[x], x, m'.owner)
    {
      assert Owns(m.history[x], x, m.owner);
    }
    forall n | n in m'.place
      ensures Listed(m'.history, m'.owner, n)
    {
      assert Listed(m.history, m.owner, n);
    }
    forall x | x in m'.history
      ensures Tracked(m', x)
    {
      assert Tracked(m, x) && Owns(m.history[x], x, m.owner);
      TrackedElsewhere(m, m', x);
    }
  }

  lemma RemovedBacked<T>(m: Model<T>, o: ContextObj<T>, x: ContextObj<T>)
    requires Coherent(m) && Dying(m, o) && |m.history[o]| == 1
    requires x in m.history && x != o && Backed(m, x)
    ensures Backed(Removed(m, o), x)
  {
    var m' := Removed(m, o);
    RemovedCoherent(m, o);
    assert Tracked(m', x);
    forall k: nat, i: nat | InForce(m', x, i, k)
      ensures x in m'.snapshots[k] && m'.snapshots[k][x] == m'.history[x][i].data
    {
      assert InForce(m, x, i, k);
    }
  }

  ghost function Restored<T>(h: seq<ContextObj<T>>, o: ContextObj<T>): seq<ContextObj<T>>
    requires |h| > 1
  {
    h[..|h| - 2] + [o]
  }

  // o can be restored from its last saved version.
  ghost predicate Restorable<T>(m: Model<T>, o: ContextObj<T>) {
    && Dying(m, o) && |m.history[o]| > 1
    && (var saved := m.history[o][|m.history[o]| - 2];
        && saved in m.place && saved != o
        && m.place[saved].level < |m.snapshots| && Found(DroppedLayout(m, o), saved, m.place[saved]))
    && o in m.snapshots[|m.snapshots| - 1]
    && o in m.place && m.place[o].level == |m.snapshots|
  }

  // The head of the last list takes the place of its last saved version and gets that version's value.
  ghost function Reverted<T>(m: Model<T>, o: ContextObj<T>): Model<T>
    requires Restorable(m, o)
  {
    var saved := m.history[o][|m.history[o]| - 2];
    Model(m.values[o := m.snapshots[|m.snapshots| - 1][o]],
          Swapped(DroppedLayout(m, o), o, m.place[saved]),
          (m.place - {o} - {saved})[o := m.place[saved]],
          m.history[o := Restored(m.history[o], o)],
          m.owner - {saved},
          m.snapshots)
  }

  lemma DyingIsRestorable<T>(m: Model<T>, o: ContextObj<T>)
    requires Coherent(m) && Dying(m, o) && |m.history[o]| > 1
    ensures Restorable(m, o)
    ensures Placed(DroppedLayout(m, o), m.place - {o})
  {
    assert Tracked(m, o);
    var top := |m.snapshots|;
    assert Sits(m.layout, m.place, top, |m.layout[top]| - 1);
    DropPlaced(m.layout, m.place, top);
    var saved := m.history[o][|m.history[o]| - 2];
    assert m.place[saved].level < m.place[o].level;
    assert Found(DroppedLayout(m, o), saved, (m.place - {o})[saved]);
  }

  lemma RevertedPlaced<T>(m: Model<T>, o: ContextObj<T>)
    requires Coherent(m) && Restorable(m, o)
    ensures Placed(Reverted(m, o).layout, Reverted(m, o).place)
  {
    DyingIsRestorable(m, o);
    SwapPlaced(DroppedLayout(m, o), m.place - {o}, m.history[o][|m.history[o]| - 2], o);
  }

  lemma RestoredMembers<T>(h: seq<ContextObj<T>>, o: ContextObj<T>)
    requires |h| > 1 && h[|h| - 1] == o
    ensures forall n | n in h && n != h[|h| - 2] :: n in Restored(h, o)
  {
    assert h == h[..|h| - 2] + [h[|h| - 2], o];
  }

  lemma RevertedOwned<T>(m: Model<T>, o: ContextObj<T>)
    requires Coherent(m) && Restorable(m, o)
    ensures Owned(Reverted(m, o).place, Reverted(m, o).history, Reverted(m, o).owner)
  {
    var m', h := Reverted(m, o), m.history[o];
    assert Tracked(m, o) && Owns(h, o, m.owner);
    assert forall i | 0 <= i < |h| - 2 :: m.place[h[i]].level < m.place[h[|h| - 2]].level;
    RestoredMembers(h, o);
    forall x | x in m'.history
      ensures Owns(m'.history[x], x, m'.owner)
    {
      assert Owns(m.history[x], x, m.owner);
    }
    forall n | n in m'.place
      ensures Listed(m'.history, m'.owner, n)
    {
      assert Listed(m.history, m.owner, n);
    }
  }

  lemma RisingRestored<T>(place: Places<T>, place': Places<T>, h: seq<ContextObj<T>>, o: ContextObj<T>)
    requires |h| > 1 && Rising(place, h)
    requires forall i | 0 <= i < |h| - 2 :: h[i] in place' && place'[h[i]] == place[h[i]]
    requires o in place' && place'[o] == place[h[|h| - 2]]
    ensures Rising(place', Restored(h, o))
  {
    var h' := Restored(h, o);
    forall i | 0 < i < |h'|
      ensures h'[i] in place' && FreedWith(place', h', i)
    {
      assert FreedWith(place, h, i);
    }
  }

  lemma RevertedTracked<T>(m: Model<T>, o: ContextObj<T>, x: ContextObj<T>)
    requires Coherent(m) && Restorable(m, o) && x in m.history
    ensures Tracked(Reverted(m, o), x)
  {
    var m', h := Reverted(m, o), m.history[o];
    assert Tracked(m, o) && Tracked(m, x) && Owns(h, o, m.owner) && Owns(m.history[x], x, m.owner);
    if x == o {
      forall i | 0 <= i < |h| - 2
        ensures h[i] in m'.place && m'.place[h[i]] == m.place[h[i]]
      {
        assert m.place[h[i]].level < m.place[h[|h| - 2]].level;
      }
      RisingRestored(m.place, m'.place, h, o);
    } else {
      TrackedElsewhere(m, m', x);
    }
  }

  lemma RevertedCoherent<T>(m: Model<T>, o: ContextObj<T>)
    requires Coherent(m) && Restorable(m, o)
    ensures Coherent(Reverted(m, o))
  {
    var m' := Reverted(m, o);
    assert m'.history.Keys == m.history.Keys && m'.values.Keys == m.values.Keys by {
      assert Tracked(m, o);
    }
    RevertedPlaced(m, o);
    RevertedOwned(m, o);
    forall x | x in m'.history
      ensures Tracked(m', x)
    {
      RevertedTracked(m, o, x);
    }
  }

  lemma RevertedBacked<T>(m: Model<T>, o: ContextObj<T>, x: ContextObj<T>)
    requires Coherent(m) && Restorable(m, o) && x in m.history && x != o && Backed(m, x)
    ensures Backed(Reverted(m, o), x)
  {
    var m' := Reverted(m, o);
    RevertedTracked(m, o, x);
    forall k: nat, i: nat | InForce(m', x, i, k)
      ensures x in m'.snapshots[k] && m'.snapshots[k][x] == m'.history[x][i].data
    {
      assert InForce(m, x, i, k);
    }
  }

  lemma RevertedBackedOthers<T>(m: Model<T>, o: ContextObj<T>)
    requires Coherent(m) && Restorable(m, o)
    requires forall x {:trigger Backed(m, x)} | x in m.history && x != o :: Backed(m, x)
    ensures forall x {:trigger Backed(Reverted(m, o), x)} | x in m.history && x != o :: Backed(Reverted(m, o), x)
  {
    forall x | x in m.history && x != o
      ensures Backed(Reverted(m, o), x)
    {
      RevertedBacked(m, o, x);
    }
  }

  lemma RevertedRestores<T>(m: Model<T>, o: ContextObj<T>)
    requires Tracked(m, o) && |m.history[o]| > 1 && SavedBacked(m, o)
    requires o.restore == m.history[o][|m.history[o]| - 2].restore
    ensures Restores(Restored(m.history[o], o))
  {
    var h, h' := m.history[o], Restored(m.history[o], o);
    var c := h[..|h| - 1];
    forall i | 0 <= i < |h'|
      ensures RestoreOK(h', i)
    {
      assert c[i].restore == if i == 0 then null else h[i - 1];
    }
  }

  lemma RevertedBackedSelf<T>(m: Model<T>, o: ContextObj<T>, saved: ContextObj<T>)
    requires Coherent(m) && Restorable(m, o) && Tracked(m, o) && SavedBacked(m, o)
    requires m.history[o][|m.history[o]| - 2] == saved && o.restore == saved.restore && o.data == saved.data
    ensures Backed(Reverted(m, o), o)
  {
    var m' := Reverted(m, o);
    RevertedTracked(m, o, o);
    RevertedRestores(m, o);
    assert InForce(m, o, |m.history[o]| - 2, |m.snapshots| - 1);
    forall k: nat, i: nat | InForce(m', o, i, k)
      ensures o in m'.snapshots[k] && m'.snapshots[k][o] == m'.history[o][i].data
    {
      assert InForce(m, o, i, k);
    }
  }

  // ---- destroy

  // The versions from the i-th on.
  ghost function VersionsFrom<T>(h: seq<ContextObj<T>>, i: nat): set<ContextObj<T>> {
    set j | i <= j < |h| :: h[j]
  }

  // No version of o is left; layout and place say where the others sit.
  ghost function Destroyed<T>(m: Model<T>, o: ContextObj<T>, layout: Layout<T>, place: Places<T>): Model<T>
    requires o in m.history
  {
    Model(m.values - {o}, layout, place, m.history - {o}, m.owner - VersionsFrom(m.history[o], 0),
          Spec.ForgottenIn(m.snapshots, o))
  }

  // n is left, in its scope, unless it is one of the versions of o from the i-th on.
  ghost predicate Stays<T>(m: Model<T>, o: ContextObj<T>, place: Places<T>, i: nat, n: ContextObj<T>)
    requires o in m.history && n in m.place
  {
    && (n in place <==> n !in VersionsFrom(m.history[o], i))
    && (n in place ==> place[n].level == m.place[n].level)
  }

  // The i-th version of o and the newer ones have been taken out.
  ghost predicate TakenFrom<T>(m: Model<T>, o: ContextObj<T>, layout: Layout<T>, place: Places<T>, i: nat)
    requires o in m.history
  {
    && |layout| == |m.layout| && Placed(layout, place) && place.Keys <= m.place.Keys
    && forall n {:trigger Stays(m, o, place, i, n)} | n in m.place :: Stays(m, o, place, i, n)
  }

  // o stands in the place of the i-th of its versions; the newer ones have been taken out.
  ghost predicate StandsFor<T>(m: Model<T>, o: ContextObj<T>, layout: Layout<T>, place: Places<T>, i: nat)
    requires o in m.history
  {
    && |layout| == |m.layout| && Placed(layout, place) && place.Keys <= m.place.Keys && o in place
    && forall n {:trigger Stays(m, o, place, i, n)} | n in m.place && n != o :: Stays(m, o, place, i, n)
  }

  lemma NoneTaken<T>(m: Model<T>, o: ContextObj<T>)
    requires Coherent(m) && o in m.history && Tracked(m, o)
    ensures StandsFor(m, o, m.layout, m.place, |m.history[o]| - 1)
  {
    var h := m.history[o];
    assert VersionsFrom(h, |h| - 1) == {o};
  }

  lemma TakenOutStands<T>(m: Model<T>, o: ContextObj<T>, layout: Layout<T>, place: Places<T>, i: nat)
    requires Tracked(m, o) && i < |m.history[o]| && StandsFor(m, o, layout, place, i)
    ensures Found(layout, o, place[o]) && TakenFrom(m, o, TakenOut(layout, place[o]), ClosedUp(place, o), i)
  {
    var h := m.history[o];
    TakeOutPlaced(layout, place, o);
    assert h[|h| - 1] in VersionsFrom(h, i);
    forall n | n in m.place
      ensures Stays(m, o, ClosedUp(place, o), i, n)
    {
      assert n != o ==> Stays(m, o, place, i, n);
    }
  }

  lemma AllTaken<T>(m: Model<T>, o: ContextObj<T>, layout: Layout<T>, place: Places<T>)
    requires o in m.history && TakenFrom(m, o, layout, place, 0)
    ensures OthersStay(m, o, place)
  {
    forall n | n in m.place
      ensures n in place <==> n !in VersionsFrom(m.history[o], 0)
      ensures n in place ==> place[n].level == m.place[n].level
    {
      assert Stays(m, o, place, 0, n);
    }
  }

  // o takes the place of the version before those that have been taken out.
  lemma NextStands<T>(m: Model<T>, o: ContextObj<T>, layout: Layout<T>, place: Places<T>, i: nat)
    requires Tracked(m, o) && 0 < i < |m.history[o]| && TakenFrom(m, o, layout, place, i)
    ensures o in m.place && o !in place
    ensures var saved: ContextObj<T> := m.history[o][i - 1];
      && saved in place && Found(layout, saved, place[saved])
      && StandsFor(m, o, Swapped(layout, o, place[saved]), (place - {saved})[o := place[saved]], i - 1)
  {
    var h := m.history[o];
    var saved: ContextObj<T> := h[i - 1];
    HistoryDistinct(m, o);
    OneVersionMore(h, i);
    assert h[|h| - 1] in VersionsFrom(h, i);
    assert Stays(m, o, place, i, o) && Stays(m, o, place, i, saved);
    SwapPlaced(layout, place, saved, o);
    var place' := (place - {saved})[o := place[saved]];
    forall n | n in m.place && n != o
      ensures Stays(m, o, place', i - 1, n)
    {
      assert Stays(m, o, place, i, n);
    }
  }

  lemma HistoryDistinct<T>(m: Model<T>, o: ContextObj<T>)
    requires Tracked(m, o)
    ensures Distinct(m.history[o])
  {
  }

  lemma OneVersionMore<T>(h: seq<ContextObj<T>>, i: nat)
    requires Distinct(h) && 0 < i < |h|
    ensures h[i - 1] !in VersionsFrom(h, i) && VersionsFrom(h, i - 1) == VersionsFrom(h, i) + {h[i - 1]}
  {
  }

  // The versions of other objects stay in their scopes.
  ghost predicate OthersStay<T>(m: Model<T>, o: ContextObj<T>, place: Places<T>)
    requires o in m.history
  {
    && place.Keys == m.place.Keys - VersionsFrom(m.history[o], 0)
    && forall n | n in place :: place[n].level == m.place[n].level
  }

  lemma DestroyedTracked<T>(m: Model<T>, o: ContextObj<T>, layout: Layout<T>, place: Places<T>, x: ContextObj<T>)
    requires Coherent(m) && o in m.history && OthersStay(m, o, place) && x in m.history && x != o
    ensures Tracked(Destroyed(m, o, layout, place), x)
  {
    assert Tracked(m, x) && Owns(m.history[x], x, m.owner) && Owns(m.history[o], o, m.owner);
    TrackedElsewhere(m, Destroyed(m, o, layout, place), x);
  }

  lemma DestroyedCoherent<T>(m: Model<T>, o: ContextObj<T>, layout: Layout<T>, place: Places<T>)
    requires Coherent(m) && o in m.history
    requires |layout| == |m.layout| && Placed(layout, place) && OthersStay(m, o, place)
    ensures Coherent(Destroyed(m, o, layout, place))
  {
    var m' := Destroyed(m, o, layout, place);
    assert Owns(m.history[o], o, m.owner);
    forall x | x in m'.history
      ensures Owns(m'.history[x], x, m'.owner)
    {
      assert Owns(m.history[x], x, m.owner);
    }
    forall n | n in m'.place
      ensures Listed(m'.history, m'.owner, n)
    {
      assert Listed(m.history, m.owner, n);
    }
    forall x | x in m'.history
      ensures Tracked(m', x)
    {
      DestroyedTracked(m, o, layout, place, x);
    }
  }

  lemma DestroyedBacked<T>(m: Model<T>, o: ContextObj<T>, layout: Layout<T>, place: Places<T>, x: ContextObj<T>)
    requires Coherent(m) && o in m.history && OthersStay(m, o, place) && x in m.history && x != o && Backed(m, x)
    ensures Backed(Destroyed(m, o, layout, place), x)
  {
    var m' := Destroyed(m, o, layout, place);
    DestroyedTracked(m, o, layout, place, x);
    forall k: nat, i: nat | InForce(m', x, i, k)
      ensures x in m'.snapshots[k] && m'.snapshots[k][x] == m'.history[x][i].data
    {
      assert InForce(m, x, i, k);
    }
  }

  lemma DestroyedBackedOthers<T>(m: Model<T>, o: ContextObj<T>, layout: Layout<T>, place: Places<T>)
    requires Coherent(m) && o in m.history && OthersStay(m, o, place)
    requires forall x {:trigger Backed(m, x)} | x in m.history && x != o :: Backed(m, x)
    ensures var m' := Destroyed(m, o, layout, place);
      forall x {:trigger Backed(m', x)} | x in m'.history :: Backed(m', x)
  {
    forall x | x in m.history && x != o
      ensures Backed(Destroyed(m, o, layout, place), x)
    {
      DestroyedBacked(m, o, layout, place, x);
    }
  }

  // The last scope has been deleted.
  ghost function Popped<T>(m: Model<T>): Model<T>
    requires |m.layout| == |m.snapshots| + 1 && |m.snapshots| > 0
  {
    m.(layout := m.layout[..|m.snapshots|], snapshots := m.snapshots[..|m.snapshots| - 1])
  }

  ghost predicate Emptied<T>(m: Model<T>) {
    Coherent(m) && |m.snapshots| > 0 && m.layout[|m.snapshots|] == []
  }

  lemma EmptiedLevels<T>(m: Model<T>, n: ContextObj<T>)
    requires Emptied(m) && n in m.place
    ensures m.place[n].level < |m.snapshots|
  {
    assert Found(m.layout, n, m.place[n]);
  }

  lemma PoppedTracked<T>(m: Model<T>, o: ContextObj<T>)
    requires Emptied(m) && o in m.history
    ensures Tracked(Popped(m), o)
  {
    assert Tracked(m, o);
    var m' := Popped(m);
    assert forall k | 0 <= k < |m'.snapshots| :: m'.snapshots[k] == m.snapshots[k];
  }

  lemma PoppedCoherent<T>(m: Model<T>)
    requires Emptied(m)
    ensures Coherent(Popped(m))
  {
    var m' := Popped(m);
    forall k, i | 0 <= k < |m'.layout| && 0 <= i < |m'.layout[k]|
      ensures Sits(m'.layout, m'.place, k, i)
    {
      assert Sits(m.layout, m.place, k, i);
    }
    forall n | n in m'.place
      ensures Found(m'.layout, n, m'.place[n])
    {
      EmptiedLevels(m, n);
      assert Found(m.layout, n, m.place[n]);
    }
    assert m.place == m'.place && m.history == m'.history && m.owner == m'.owner;
    forall o | o in m'.history
      ensures Tracked(m', o)
    {
      PoppedTracked(m, o);
    }
  }

  lemma PoppedBacked<T>(m: Model<T>, o: ContextObj<T>)
    requires Emptied(m) && o in m.history && Backed(m, o)
    ensures Backed(Popped(m), o)
  {
    var m' := Popped(m);
    PoppedTracked(m, o);
    forall k: nat, i: nat | InForce(m', o, i, k)
      ensures o in m'.snapshots[k] && m'.snapshots[k][o] == m'.history[o][i].data
    {
      assert InForce(m, o, i, k);
    }
  }

  lemma AllPoppedBacked<T>(m: Model<T>)
    requires Emptied(m) && forall o {:trigger Backed(m, o)} | o in m.history :: Backed(m, o)
    ensures forall o {:trigger Backed(Popped(m), o)} | o in m.history :: Backed(Popped(m), o)
  {
    forall o | o in m.history
      ensures Backed(Popped(m), o)
    {
      PoppedBacked(m, o);
    }
  }

  // With the last scope deleted every live object has the value it had at the push.
  lemma PopRestores<T>(m: Model<T>)
    requires Emptied(m) && forall o {:trigger Backed(m, o)} | o in m.history :: Backed(m, o)
    ensures m.values == m.snapshots[|m.snapshots| - 1]
  {
    var k := |m.snapshots| - 1;
    forall o | o in m.history
      ensures o in m.snapshots[k] && m.snapshots[k][o] == m.values[o]
    {
      assert Backed(m, o) && Tracked(m, o);
      var h := m.history[o];
      EmptiedLevels(m, h[0]);
      EmptiedLevels(m, o);
      assert InForce(m, o, |h| - 1, k);
    }
    assert m.snapshots[k].Keys == m.history.Keys;
  }

  class Context<!T> {
    var scopeList: seq<Scope<T>>

    // The lists of the model are those of the scopes and, while the last scope popped is deleted, of that one too.
    ghost var model: Model<T>

    constructor ()
      ensures Valid() && fresh(scopeList) && |scopeList| == 1
      ensures State() == Spec.State(map[], [])
    {
      var scope := new Scope(0);
      scopeList := [scope];
      model := Model(map[], [[]], map[], map[], map[], []);
      new;
      assert ListsAt(model.layout, 0);
    }

    ghost predicate ListsAt(layout: Layout<T>, k: nat)
      requires k < |scopeList| && k < |layout|
      reads this`scopeList, {scopeList[k]}`list, layout[k]`pScope, layout[k]`next, layout[k]`prev
    {
      scopeList[k].level == k && scopeList[k].Lists(layout[k])
    }

    ghost predicate Linked(layout: Layout<T>)
      reads this`scopeList, scopeList`list, Members(layout)`pScope, Members(layout)`next, Members(layout)`prev
    {
      && |scopeList| <= |layout|
      && (forall k {:trigger ListsAt(layout, k)} | 0 <= k < |scopeList| :: ListsAt(layout, k))
    }

    ghost predicate Valid()
      reads this, scopeList`list, Members(model.layout), model.place.Keys
    {
      && |scopeList| == |model.layout|
      && Coherent(model)
      && Linked(model.layout)
      && (forall o {:trigger Backed(model, o)} | o in model.history :: Tracked(model, o) && Backed(model, o))
    }

    // What the context means.
    ghost function State(): Spec.State<ContextObj<T>, T>
      reads this`model
    {
      Spec.State(model.values, model.snapshots)
    }

    function TopScope(): Scope<T>
      requires scopeList != []
      reads this`scopeList
    {
      scopeList[|scopeList| - 1]
    }

    twostate lemma StaysLinked()
      requires old(Linked(model.layout)) && model == old(model) && scopeList == old(scopeList)
      requires forall s | s in scopeList :: s.list == old(s.list)
      requires forall n | n in model.place :: n.pScope == old(n.pScope)
      requires forall n | n in model.place :: n.next == old(n.next)
      requires forall n | n in model.place :: n.prev == old(n.prev)
      requires Placed(model.layout, model.place)
      ensures Linked(model.layout)
    {
      PlacedOnce(model.layout, model.place);
      forall k | 0 <= k < |scopeList|
        ensures ListsAt(model.layout, k)
      {
        assert old(ListsAt(model.layout, k));
        scopeList[k].KeepsLists(model.layout[k]);
      }
    }

    // A restore pointer goes to a version in a strictly older scope, in the memory of the scope that restores it.
    lemma RestoreGoesDown(n: ContextObj<T>)
      requires Valid() && n in model.place && n.restore != null
      ensures n.restore in model.place && model.place[n.restore].level < model.place[n].level
      ensures n.restore.region == model.place[n].level
    {
      assert Listed(model.history, model.owner, n);
      var o := model.owner[n];
      var h := model.history[o];
      assert Tracked(model, o) && Backed(model, o);
      var i :| 0 <= i < |h| && h[i] == n;
      assert RestoreOK(h, i) && FreedWith(model.place, h, i);
    }

    // m becomes the model.
    ghost method Adopt(m: Model<T>)
      requires |scopeList| == |m.layout| && Coherent(m) && Linked(m.layout)
        && forall o {:trigger Backed(m, o)} | o in m.history :: Backed(m, o)
      modifies this`model
      ensures model == m && Valid()
    {
      label before:
      model := m;
      forall o | o in m.history
        ensures Backed(m, o)
      {
        assert old@before(Backed(m, o));
      }
    }

    // o' takes o's place in the lists.
    method Swap(o: ContextObj<T>, o': ContextObj<T>, ghost layout: Layout<T>, ghost place: Places<T>)
      requires Placed(layout, place) && Linked(layout)
      requires o in place && place[o].level < |scopeList| && o' !in place
      requires o'.pScope == o.pScope && o'.next == o.next && o'.prev == o.prev
      modifies scopeList`list, place.Keys`next, place.Keys`prev
      ensures Found(layout, o, place[o]) && Linked(Swapped(layout, o', place[o]))
      ensures forall n | n in place && place[n].level >= |scopeList| :: n.next == old(n.next)
    {
      ghost var p := place[o];
      ghost var layout' := Swapped(layout, o', p);
      SwapPlaced(layout, place, o, o');
      PlacedOnce(layout, place);
      assert ListsAt(layout, p.level);
      assert scopeList[p.level].NextOK(layout[p.level], p.index);
      o.pScope.Splice(o, o', layout[p.level], p.index);
      forall k | 0 <= k < |scopeList|
        ensures ListsAt(layout', k)
      {
        assert old(ListsAt(layout, k));
        if k != p.level {
          scopeList[k].KeepsLists(layout[k]);
        }
      }
    }

    // o is added to the list of the scope at level k, to be restored from saved.
    method Enlist(o: ContextObj<T>, k: nat, saved: ContextObj?<T>, ghost layout: Layout<T>, ghost place: Places<T>)
      requires Placed(layout, place) && Linked(layout) && k < |scopeList| && o !in place
      modifies o`pScope, o`restore, o`next, o`prev, {scopeList[k]}`list, place.Keys`prev
      ensures o.pScope == scopeList[k] && o.restore == saved && Linked(layout[k := layout[k] + [o]])
    {
      ghost var layout' := layout[k := layout[k] + [o]];
      assert ListsAt(layout, k);
      PlacedOnce(layout, place);
      scopeList[k].Enter(o, saved, layout[k]);
      forall a | 0 <= a < |scopeList|
        ensures ListsAt(layout', a)
      {
        assert old(ListsAt(layout, a));
        if a != k {
          scopeList[a].KeepsLists(layout[a]);
        }
      }
    }

    // The part of update() that puts a saved version of o in o's place in its list.
    method SaveInPlace(o: ContextObj<T>, ghost m: Model<T>) returns (saved: ContextObj<T>)
      requires Coherent(m) && Live(m, o) && m.place[o].level < |scopeList| == |m.layout| && Linked(m.layout)
      modifies scopeList`list, m.place.Keys`next, m.place.Keys`prev
      ensures fresh(saved) && saved.region == |m.snapshots| && saved.data == o.data && saved.restore == o.restore
      ensures Placed(SavedLayout(m, o, saved), SavedPlace(m, o, saved)) && Linked(SavedLayout(m, o, saved))
    {
      saved := new ContextObj.Save(o, |scopeList| - 1);
      Swap(o, saved, m.layout, m.place);
      SwapPlaced(m.layout, m.place, o, saved);
    }

    lemma ScopeOf(o: ContextObj<T>)
      requires Valid() && o in model.history
      ensures Live(model, o)
      ensures o.pScope == TopScope() <==> model.place[o].level == |scopeList| - 1
    {
      HistoryIsLive(model, o);
      assert ListsAt(model.layout, |scopeList| - 1);
      var p := model.place[o];
      assert ListsAt(model.layout, p.level);
      assert scopeList[p.level].NextOK(model.layout[p.level], p.index);
    }

    // update() without the bookkeeping: o leaves its list to a saved version and enters that of the top scope.
    method SaveAndMove(o: ContextObj<T>, ghost m: Model<T>) returns (saved: ContextObj<T>)
      requires Coherent(m) && Live(m, o) && m.place[o].level < |scopeList| == |m.layout| && Linked(m.layout)
      modifies scopeList`list, o`pScope, o`restore, m.place.Keys`next, m.place.Keys`prev
      ensures fresh(saved) && saved.region == |m.snapshots| && saved.data == o.data && saved.restore == old(o.restore)
      ensures o.pScope == old(TopScope()) && o.restore == saved
      ensures Linked(Updated(m, o, saved).layout)
    {
      var top := |scopeList| - 1;
      saved := SaveInPlace(o, m);
      Enlist(o, top, saved, SavedLayout(m, o, saved), SavedPlace(m, o, saved));
    }

    // What update() does to the versions.
    method SaveVersion(o: ContextObj<T>, ghost m: Model<T>) returns (saved: ContextObj<T>)
      requires Valid() && m == model && Live(m, o) && m.place[o].level < |scopeList| - 1
      modifies scopeList`list, o`pScope, o`restore, m.place.Keys`next, m.place.Keys`prev
      ensures Coherent(Updated(m, o, saved)) && Linked(Updated(m, o, saved).layout)
      ensures o.pScope == old(TopScope())
      ensures forall x {:trigger Backed(Updated(m, o, saved), x)} | x in m.history :: Backed(Updated(m, o, saved), x)
    {
      saved := SaveAndMove(o, m);
      ghost var m' := Updated(m, o, saved);
      forall x | x in m.history
        ensures Restores(m'.history[x])
      {
        assert old(Backed(m, x)) && Tracked(m, x);
        if x == o {
          assert old(RestoreOK(m.history[o], |m.history[o]| - 1));
          forall i | 0 <= i < |m.history[o]| - 1
            ensures RestoreOK(m.history[o], i)
          {
            assert old(RestoreOK(m.history[o], i));
            LastOnly(m, o, i);
          }
          UpdatedRestores(m, o, saved);
        } else {
          HistoriesApart(m, o, x);
        }
      }
      forall x | x in m.history
        ensures Backed(m', x)
      {
        assert old(Backed(m, x)) && Tracked(m, x);
        UpdatedRemembers(m, o, saved, x);
      }
      UpdatedCoherent(m, o, saved);
    }

    // update(): the first change of o in the top scope.
    method Update(o: ContextObj<T>)
      requires Valid() && o in model.history && o.pScope != TopScope()
      modifies this`model, scopeList`list, model.place.Keys
      ensures Valid()
      ensures State() == old(State())
      ensures o.pScope == old(TopScope())
    {
      ScopeOf(o);
      var saved := SaveVersion(o, model);
      ghost var m := Updated(model, o, saved);
      assert |scopeList| == |m.layout|;
      Adopt(m);
    }

    method MakeCurrent(o: ContextObj<T>)
      requires Valid() && o in model.history
      modifies this`model, scopeList`list, model.place.Keys
      ensures Valid()
      ensures State() == old(State())
      ensures o.pScope == TopScope()
    {
      if o.pScope != TopScope() {
        Update(o);
      }
    }

    // CDO::set
    method Set(o: ContextObj<T>, data: T)
      requires Valid() && o in model.history
      modifies this`model, scopeList`list, model.place.Keys
      ensures Valid()
      ensures State() == Spec.Step(old(State()), Spec.Set(o, data))
    {
      ScopeOf(o);
      MakeCurrent(o);
      Assign(o, data);
    }

    // Assigns to an object of the top scope.
    method Assign(o: ContextObj<T>, data: T)
      requires Valid() && o in model.history && o.pScope == TopScope()
      modifies this`model, o`data
      ensures Valid()
      ensures State() == Spec.Step(old(State()), Spec.Set(o, data))
    {
      ScopeOf(o);
      ghost var m := AssignData(o, data);
      StaysLinked();
      SetCoherent(model, o, data);
      Adopt(m);
    }

    method AssignData(o: ContextObj<T>, data: T) returns (ghost m': Model<T>)
      requires Valid() && o in model.history && Live(model, o) && model.place[o].level == |model.snapshots|
      modifies o`data
      ensures m' == model.(values := model.values[o := data])
      ensures forall x {:trigger Backed(m', x)} | x in m'.history :: Backed(m', x)
    {
      ghost var m := model;
      m' := m.(values := m.values[o := data]);
      assert Backed(m, o);
      o.data := data;
      assert Remembers(m, o) by {
        forall k: nat, i: nat | InForce(m, o, i, k)
          ensures o in m.snapshots[k] && m.snapshots[k][o] == m.history[o][i].data
        {
          NotInForce(m, o, i, k);
        }
      }
      forall x | x in m.history
        ensures Backed(m', x)
      {
        if x != o {
          HistoriesApart(m, o, x);
          assert old(Backed(m, x));
        }
        SetBacked(m, o, x);
      }
    }

    // Context::push
    method Push()
      requires Valid()
      modifies this`model, this`scopeList
      ensures Valid()
      ensures |scopeList| == old(|scopeList|) + 1
      ensures State() == Spec.Step(old(State()), Spec.Push)
    {
      ghost var m := model;
      PushedCoherent(m);
      var scope := new Scope(|scopeList|);
      scopeList := scopeList + [scope];
      forall k | 0 <= k < |scopeList|
        ensures ListsAt(Pushed(m).layout, k)
      {
        assert k < |m.layout| ==> old(ListsAt(m.layout, k));
      }
      forall o | o in m.history
        ensures Backed(Pushed(m), o)
      {
        assert Backed(m, o);
        PushedBacked(m, o);
      }
      Adopt(Pushed(m));
    }

    // The constructors of ContextObj: a new object enters the bottom scope, or the top scope if its memory goes with
    // it.
    method NewObject(allocatedInCMM: bool, initial: T) returns (o: ContextObj<T>)
      requires Valid()
      modifies this`model, scopeList`list, model.place.Keys`prev
      ensures fresh(o) && Valid() && model.place.Keys == old(model.place.Keys) + {o}
      ensures State() == Spec.Step(old(State()), Spec.New(o, if allocatedInCMM then |scopeList| - 1 else 0, initial))
    {
      var level := if allocatedInCMM then |scopeList| - 1 else 0;
      ghost var m := model;
      o := NewObjectAt(level, initial);
      CreatedMeans(m, o, level, initial);
    }

    method NewObjectAt(level: nat, initial: T) returns (o: ContextObj<T>)
      requires Valid() && level < |scopeList|
      modifies this`model, scopeList`list, model.place.Keys`prev
      ensures fresh(o) && Valid() && model == Created(old(model), o, level, initial)
    {
      o := new ContextObj(initial, level);
      ghost var m := EnlistNew(o, level, initial);
      Adopt(m);
    }

    method EnlistNew(o: ContextObj<T>, level: nat, initial: T) returns (ghost m': Model<T>)
      requires Valid() && level < |scopeList| && o !in model.place && o.region == level && o.data == initial
      modifies o`pScope, o`restore, o`next, o`prev, {scopeList[level]}`list, model.place.Keys`prev
      ensures m' == Created(model, o, level, initial) && Coherent(m') && Linked(m'.layout)
      ensures forall x {:trigger Backed(m', x)} | x in m'.history :: Backed(m', x)
    {
      ghost var m := model;
      m' := Created(m, o, level, initial);
      Enlist(o, level, null, m.layout, m.place);
      CreatedCoherent(m, o, level, initial);
      forall x | x in m'.history
        ensures Backed(m', x)
      {
        assert x != o ==> old(Backed(m, x));
        CreatedBacked(m, o, level, initial, x);
      }
    }

    // o is taken out of its list.
    method TakeOut(o: ContextObj<T>, ghost layout: Layout<T>, ghost place: Places<T>)
      requires Placed(layout, place) && Linked(layout) && |layout| == |scopeList| && o in place
      modifies scopeList`list, place.Keys`next, place.Keys`prev
      ensures Found(layout, o, place[o]) && Placed(TakenOut(layout, place[o]), ClosedUp(place, o))
      ensures Linked(TakenOut(layout, place[o]))
    {
      ghost var p := place[o];
      TakeOutPlaced(layout, place, o);
      PlacedOnce(layout, place);
      ghost var layout' := TakenOut(layout, p);
      assert ListsAt(layout, p.level);
      assert scopeList[p.level].NextOK(layout[p.level], p.index);
      o.pScope.Unlink(o, layout[p.level], p.index);
      forall k | 0 <= k < |scopeList|
        ensures ListsAt(layout', k)
      {
        assert old(ListsAt(layout, k));
        if k != p.level {
          scopeList[k].KeepsLists(layout[k]);
        }
      }
    }

    // The scope s has been taken off scopeList and its list, the last of m, is walked from head.
    ghost predicate Deleting(m: Model<T>, s: Scope<T>, head: ContextObj?<T>)
      reads this`scopeList, scopeList`list, Members(m.layout), m.place.Keys
    {
      && |scopeList| == |m.snapshots| > 0
      && Coherent(m)
      && Linked(m.layout)
      && s.Walk(m.layout[|m.snapshots|], head)
      && (forall o {:trigger Backed(m, o)} | o in m.history :: Tracked(m, o) && Backed(m, o))
    }

    lemma DroppedLinked(m: Model<T>, o: ContextObj<T>)
      requires |scopeList| == |m.snapshots| && Linked(m.layout) && Dying(m, o)
        && Placed(DroppedLayout(m, o), m.place - {o})
      ensures Linked(DroppedLayout(m, o)) && o !in Members(DroppedLayout(m, o))
    {
      PlacedOnce(DroppedLayout(m, o), m.place - {o});
      forall k | 0 <= k < |scopeList|
        ensures ListsAt(DroppedLayout(m, o), k)
      {
        assert ListsAt(m.layout, k);
      }
    }

    // restoreAndContinue(), the fields: o goes back to the place and the data of a saved version.
    method TakePlace(o: ContextObj<T>, saved: ContextObj<T>, ghost layout: Layout<T>, ghost place: Places<T>)
      returns (next: ContextObj?<T>)
      requires Placed(layout, place) && Linked(layout) && o !in place
      requires saved in place && place[saved].level < |scopeList|
      modifies scopeList`list, o, place.Keys`next, place.Keys`prev
      ensures next == old(o.next) && o.restore == old(saved.restore) && o.data == old(saved.data)
      ensures forall n | n in place && place[n].level >= |scopeList| :: n.next == old(n.next)
      ensures Found(layout, saved, place[saved]) && Linked(Swapped(layout, o, place[saved]))
    {
      PlacedOnce(layout, place);
      assert o !in Members(layout);
      o.data := saved.data;
      next := o.next;
      o.pScope, o.next, o.prev := saved.pScope, saved.next, saved.prev;
      o.restore := saved.restore;
      Swap(saved, o, layout, place);
    }

    method TakeBack(o: ContextObj<T>, saved: ContextObj<T>, ghost m: Model<T>) returns (next: ContextObj?<T>)
      requires |scopeList| == |m.snapshots| && Coherent(m) && Linked(m.layout)
      requires Restorable(m, o) && saved == m.history[o][|m.history[o]| - 2]
      modifies scopeList`list, o, m.place.Keys`next, m.place.Keys`prev
      ensures next == old(o.next) && o.restore == saved.restore && o.data == saved.data
      ensures forall n | n in m.place && n != o && m.place[n].level == |m.snapshots| :: n.next == old(n.next)
      ensures Linked(Reverted(m, o).layout)
    {
      DyingIsRestorable(m, o);
      DroppedLinked(m, o);
      next := TakePlace(o, saved, DroppedLayout(m, o), m.place - {o});
    }

    // restoreAndContinue() for an object with a saved version.
    method RestoreVersion(o: ContextObj<T>, ghost m: Model<T>) returns (next: ContextObj?<T>)
      requires |scopeList| == |m.snapshots| && Coherent(m) && Linked(m.layout)
      requires Restorable(m, o) && (forall x {:trigger Backed(m, x)} | x in m.history :: Backed(m, x))
      modifies scopeList`list, o, m.place.Keys`next, m.place.Keys`prev
      ensures next == old(o.next)
      ensures forall n | n in m.place && n != o && m.place[n].level == |m.snapshots| :: n.next == old(n.next)
      ensures Linked(Reverted(m, o).layout)
      ensures forall x {:trigger Backed(Reverted(m, o), x)} | x in m.history :: Backed(Reverted(m, o), x)
    {
      assert Backed(m, o) && RestoreOK(m.history[o], |m.history[o]| - 1);
      SavedPart(m, o);
      var saved := o.restore;
      next := TakeBack(o, saved, m);
      RevertedBackedSelf(m, o, saved);
      forall x | x in m.history && x != o
        ensures Backed(m, x)
      {
        HistoriesApart(m, o, x);
        assert old(Backed(m, x));
      }
      RevertedBackedOthers(m, o);
    }

    lemma Head(m: Model<T>, s: Scope<T>, o: ContextObj<T>)
      requires Deleting(m, s, o)
      ensures Dying(m, o) && o in m.place && Backed(m, o)
      ensures o.restore == null <==> |m.history[o]| == 1
      ensures Distinct(m.layout[|m.snapshots|])
    {
      LastListIsLive(m);
      HistoryIsLive(m, o);
      assert Backed(m, o) && RestoreOK(m.history[o], |m.history[o]| - 1);
      PlacedOnce(m.layout, m.place);
    }

    // restoreAndContinue() without a restore pointer: the object's scope is gone and so is the object.
    method Disown(o: ContextObj<T>, ghost m: Model<T>, ghost s: Scope<T>) returns (next: ContextObj?<T>)
      requires Deleting(m, s, o) && Dying(m, o) && |m.history[o]| == 1 && Distinct(m.layout[|m.snapshots|])
      modifies o`pScope
      ensures Deleting(Removed(m, o), s, next) && o.pScope == null
    {
      RemovedCoherent(m, o);
      DroppedLinked(m, o);
      next := o.next;
      o.pScope := null;
      s.WalksOn(m.layout[|m.snapshots|]);
      forall x {:trigger Backed(Removed(m, o), x)} | x in Removed(m, o).history
        ensures Backed(Removed(m, o), x)
      {
        assert old(Backed(m, x));
        RemovedBacked(m, o, x);
      }
    }

    // restoreAndContinue() with a restore pointer. The list can still be walked from what comes after o.
    method RestoreHead(o: ContextObj<T>, ghost m: Model<T>, ghost s: Scope<T>) returns (next: ContextObj?<T>)
      requires Deleting(m, s, o) && Restorable(m, o) && Distinct(m.layout[|m.snapshots|])
      modifies scopeList`list, o, m.place.Keys`next, m.place.Keys`prev
      ensures s.Walk(m.layout[|m.snapshots|][..|m.layout[|m.snapshots|]| - 1], next)
      ensures Linked(Reverted(m, o).layout)
      ensures forall x {:trigger Backed(Reverted(m, o), x)} | x in m.history :: Backed(Reverted(m, o), x)
    {
      ghost var c := m.layout[|m.snapshots|];
      PlacedOnce(m.layout, m.place);
      assert forall i | 0 <= i < |c| - 1 :: c[i] != o && c[i] in m.place && m.place[c[i]].level == |m.snapshots|;
      next := RestoreVersion(o, m);
      s.WalksOn(c);
    }

    method GoBack(o: ContextObj<T>, ghost m: Model<T>, ghost s: Scope<T>) returns (next: ContextObj?<T>)
      requires Deleting(m, s, o) && Restorable(m, o) && Distinct(m.layout[|m.snapshots|])
      modifies scopeList`list, o, m.place.Keys`next, m.place.Keys`prev
      ensures Deleting(Reverted(m, o), s, next)
    {
      next := RestoreHead(o, m, s);
      RevertedCoherent(m, o);
      assert Reverted(m, o).layout[|m.snapshots|] == m.layout[|m.snapshots|][..|m.layout[|m.snapshots|]| - 1];
    }

    // restoreAndContinue(): o is the head of the list of the scope that is deleted.
    method RestoreAndContinue(o: ContextObj<T>, ghost m: Model<T>, ghost s: Scope<T>)
      returns (next: ContextObj?<T>, ghost m': Model<T>)
      requires Deleting(m, s, o)
      modifies scopeList`list, m.place.Keys
      ensures Deleting(m', s, next)
      ensures if old(o.restore) == null then Dying(m, o) && m' == Removed(m, o)
              else Restorable(m, o) && m' == Reverted(m, o)
      ensures m'.layout[|m'.snapshots|] == m.layout[|m.snapshots|][..|m.layout[|m.snapshots|]| - 1]
      ensures m'.snapshots == m.snapshots && m'.place.Keys <= m.place.Keys && NoScope(m, m')
    {
      Head(m, s, o);
      if o.restore == null {
        next := Disown(o, m, s);
        m' := Removed(m, o);
      } else {
        DyingIsRestorable(m, o);
        next := GoBack(o, m, s);
        m' := Reverted(m, o);
      }
    }

    // The objects that are gone have no scope.
    ghost predicate NoScope(m: Model<T>, m': Model<T>)
      reads m.history.Keys
    {
      forall o | o in m.history && o !in m'.history :: o !in m'.place && o.pScope == null
    }

    // The destructor of Scope.
    method DeleteScope(s: Scope<T>, ghost m: Model<T>) returns (ghost m': Model<T>)
      requires Deleting(m, s, s.list) && s !in scopeList
      modifies s`list, scopeList`list, m.place.Keys
      ensures Deleting(m', s, null) && m'.snapshots == m.snapshots && m'.place.Keys <= m.place.Keys
      ensures NoScope(m, m')
    {
      m' := m;
      while s.list != null
        invariant Deleting(m', s, s.list) && s !in scopeList
        invariant m'.snapshots == m.snapshots && m'.place.Keys <= m.place.Keys && NoScope(m, m')
        decreases |m'.layout[|m'.snapshots|]|
      {
        m' := DeleteHead(s, m');
      }
    }

    // One iteration of the destructor's loop.
    method DeleteHead(s: Scope<T>, ghost m: Model<T>) returns (ghost m': Model<T>)
      requires Deleting(m, s, s.list) && s !in scopeList && s.list != null
      modifies s`list, scopeList`list, m.place.Keys
      ensures Deleting(m', s, s.list) && m'.snapshots == m.snapshots && m'.place.Keys <= m.place.Keys
      ensures NoScope(m, m')
      ensures |m'.layout[|m'.snapshots|]| < |m.layout[|m.snapshots|]|
    {
      var next;
      next, m' := RestoreAndContinue(s.list, m, s);
      SetHead(s, next, m');
    }

    method SetHead(s: Scope<T>, head: ContextObj?<T>, ghost m: Model<T>)
      requires Deleting(m, s, head) && s !in scopeList
      modifies s`list
      ensures Deleting(m, s, s.list) && s.list == head
    {
      s.list := head;
    }

    method TakeTopScope() returns (s: Scope<T>)
      requires Valid() && |scopeList| > 1
      modifies this`scopeList
      ensures s == old(TopScope()) && scopeList == old(scopeList)[..|old(scopeList)| - 1]
      ensures Deleting(model, s, s.list) && s !in scopeList
    {
      s := scopeList[|scopeList| - 1];
      assert ListsAt(model.layout, |scopeList| - 1);
      scopeList := scopeList[..|scopeList| - 1];
      forall k | 0 <= k < |scopeList|
        ensures ListsAt(model.layout, k) && scopeList[k] != s
      {
        assert old(ListsAt(model.layout, k));
      }
    }

    lemma PoppedLinked(m: Model<T>)
      requires |scopeList| == |m.snapshots| > 0 && |m.layout| == |m.snapshots| + 1 && Linked(m.layout)
      ensures Linked(Popped(m).layout)
    {
      forall k | 0 <= k < |scopeList|
        ensures ListsAt(Popped(m).layout, k)
      {
        assert ListsAt(m.layout, k);
      }
    }

    // Context::pop
    method Pop()
      requires Valid() && |scopeList| > 1
      modifies this`model, this`scopeList, scopeList`list, model.place.Keys
      ensures Valid()
      ensures scopeList == old(scopeList)[..|old(scopeList)| - 1] && model.place.Keys <= old(model.place.Keys)
      ensures State() == Spec.Step(old(State()), Spec.Pop)
      ensures forall o | o in old(model.history) && o !in model.history :: o.pScope == null
    {
      ghost var m := DeleteTopScope();
      AdoptPopped(m);
    }

    method DeleteTopScope() returns (ghost m: Model<T>)
      requires Valid() && |scopeList| > 1
      modifies this`scopeList, scopeList`list, model.place.Keys
      ensures scopeList == old(scopeList)[..|old(scopeList)| - 1] && Emptied(m) && Linked(m.layout)
      ensures forall o {:trigger Backed(m, o)} | o in m.history :: Backed(m, o)
      ensures m.snapshots == model.snapshots && |scopeList| == |m.snapshots| && m.place.Keys <= model.place.Keys
      ensures NoScope(model, m)
    {
      var scope := TakeTopScope();
      m := DeleteScope(scope, model);
    }

    ghost method AdoptPopped(m: Model<T>)
      requires Emptied(m) && |scopeList| == |m.snapshots| && Linked(m.layout)
      requires forall o {:trigger Backed(m, o)} | o in m.history :: Backed(m, o)
      modifies this`model
      ensures Valid() && model.history == m.history && model.place == m.place
      ensures State() == Spec.State(m.snapshots[|m.snapshots| - 1], m.snapshots[..|m.snapshots| - 1])
    {
      PopRestores(m);
      PoppedCoherent(m);
      PoppedLinked(m);
      AllPoppedBacked(m);
      Adopt(Popped(m));
    }

    // Context::popto
    method PopTo(toLevel: int)
      requires Valid()
      modifies this`model, this`scopeList, scopeList`list, model.place.Keys
      ensures Valid()
      ensures var to := if toLevel < 0 then 0 else toLevel;
        if to < old(|scopeList|) - 1 then
          |scopeList| == to + 1 && State() == old(Spec.State(model.snapshots[to], model.snapshots[..to]))
        else
          State() == old(State()) && scopeList == old(scopeList)
    {
      var to := if toLevel < 0 then 0 else toLevel;
      while to < |scopeList| - 1
        invariant Valid() && scopeList <= old(scopeList) && model.place.Keys <= old(model.place.Keys)
        invariant to < |scopeList| || |scopeList| == old(|scopeList|)
        invariant State() == if |scopeList| == old(|scopeList|) then old(State())
          else Spec.State(old(model.snapshots)[|scopeList| - 1], old(model.snapshots)[..|scopeList| - 1])
        decreases |scopeList|
      {
        Pop();
      }
    }

    // The constructors of CDO that take a value: the initial value is that of the lower scopes.
    method NewCDO(allocatedInCMM: bool, initial: T, data: T) returns (o: ContextObj<T>)
      requires Valid()
      modifies this`model, scopeList`list, model.place.Keys
      ensures fresh(o) && Valid()
      ensures var level := if allocatedInCMM then |scopeList| - 1 else 0;
        State() == Spec.Step(Spec.Step(old(State()), Spec.New(o, level, initial)), Spec.Set(o, data))
    {
      o := NewObject(allocatedInCMM, initial);
      Set(o, data);
    }

    // destroy(): every version of the object leaves its list.
    method Destroy(o: ContextObj<T>)
      requires Valid() && o in model.history
      modifies this`model, scopeList`list, o, model.place.Keys`next, model.place.Keys`prev
      ensures Valid()
      ensures State() == Spec.Forget(old(State()), o)
      ensures model.place.Keys == old(model.place.Keys) - VersionsFrom(old(model.history[o]), 0)
    {
      ghost var m := RemoveFromLists(o);
      Adopt(m);
    }

    // What destroy() does to the lists.
    method RemoveFromLists(o: ContextObj<T>) returns (ghost m': Model<T>)
      requires Valid() && o in model.history
      modifies scopeList`list, o, model.place.Keys`next, model.place.Keys`prev
      ensures Coherent(m') && |m'.layout| == |model.layout| && Linked(m'.layout)
      ensures m' == Destroyed(old(model), o, m'.layout, m'.place) && OthersStay(old(model), o, m'.place)
      ensures forall x {:trigger Backed(m', x)} | x in m'.history :: Backed(m', x)
    {
      ghost var m := model;
      StartDestroying(o);
      ghost var layout, place := RemoveVersions(o, m);
      m' := Destroyed(m, o, layout, place);
      DestroyedCoherent(m, o, layout, place);
      OthersStayBacked(o);
      DestroyedBackedOthers(m, o, layout, place);
    }

    twostate lemma OthersStayBacked(o: ContextObj<T>)
      requires old(Valid()) && model == old(model) && o in model.history
      requires forall n | n in model.place && n != o :: n.restore == old(n.restore) && n.data == old(n.data)
      ensures forall x {:trigger Backed(model, x)} | x in model.history && x != o :: Backed(model, x)
    {
      forall x | x in model.history && x != o
        ensures Backed(model, x)
      {
        HistoriesApart(model, o, x);
        assert old(Backed(model, x)) && Tracked(model, x);
      }
    }

    // o stands in the place of the i-th of its versions in the lists as they are now.
    ghost predicate Destroying(o: ContextObj<T>, m: Model<T>, layout: Layout<T>, place: Places<T>, i: nat)
      requires o in m.history
      reads this`scopeList, scopeList`list, Members(layout)`pScope, Members(layout)`next, Members(layout)`prev
      reads o`restore, m.history[o]`restore
    {
      && Tracked(m, o) && i < |m.history[o]| && StandsFor(m, o, layout, place, i)
      && |scopeList| == |layout| && Linked(layout)
      && RestoreIs(o, m.history[o], i) && RestoresBelow(m.history[o], i)
    }

    lemma StartDestroying(o: ContextObj<T>)
      requires Valid() && o in model.history
      ensures o in model.place && model.history[o] != []
      ensures Destroying(o, model, model.layout, model.place, |model.history[o]| - 1)
    {
      HistoryIsLive(model, o);
      var h := model.history[o];
      assert Backed(model, o) && Tracked(model, o);
      assert RestoreOK(h, |h| - 1);
      forall j | 0 <= j < |h| - 1
        ensures RestoreIs(h[j], h, j)
      {
        assert RestoreOK(h, j);
      }
      NoneTaken(model, o);
    }

    // The current version of o and then the saved ones, from the newest on; o takes the place of each of them before it
    // is taken out there.
    method RemoveVersions(o: ContextObj<T>, ghost m: Model<T>) returns (ghost layout: Layout<T>, ghost place: Places<T>)
      requires o in m.history && m.history[o] != [] && o in m.place
      requires Destroying(o, m, m.layout, m.place, |m.history[o]| - 1)
      modifies scopeList`list, o, m.place.Keys`next, m.place.Keys`prev
      ensures |layout| == |m.layout| && Placed(layout, place) && OthersStay(m, o, place) && Linked(layout)
    {
      ghost var i := |m.history[o]| - 1;
      layout, place := m.layout, m.place;
      while true
        invariant 0 <= i && Destroying(o, m, layout, place, i) && place.Keys <= m.place.Keys
        decreases i
      {
        var last;
        last, layout, place := RemoveOne(o, m, layout, place, i);
        if last {
          break;
        }
        i := i - 1;
      }
    }

    method RemoveOne(o: ContextObj<T>, ghost m: Model<T>, ghost layout: Layout<T>, ghost place: Places<T>, ghost i: nat)
      returns (last: bool, ghost layout': Layout<T>, ghost place': Places<T>)
      requires o in m.history && Destroying(o, m, layout, place, i) && o in m.place && place.Keys <= m.place.Keys
      modifies scopeList`list, o, m.place.Keys`next, m.place.Keys`prev
      ensures last ==> |layout'| == |m.layout| && Placed(layout', place') && OthersStay(m, o, place') && Linked(layout')
      ensures !last ==> i > 0 && Destroying(o, m, layout', place', i - 1) && place'.Keys <= m.place.Keys
    {
      layout', place' := RemoveVersion(o, m, layout, place, i);
      last := o.restore == null;
      if last {
        AllTaken(m, o, layout', place');
      } else {
        layout', place' := TakeNextPlace(o, m, layout', place', i);
      }
    }

    method RemoveVersion(o: ContextObj<T>, ghost m: Model<T>, ghost layout: Layout<T>, ghost place: Places<T>,
                         ghost i: nat)
      returns (ghost layout': Layout<T>, ghost place': Places<T>)
      requires o in m.history && Destroying(o, m, layout, place, i)
      modifies scopeList`list, place.Keys`next, place.Keys`prev
      ensures TakenFrom(m, o, layout', place', i) && Linked(layout') && place'.Keys <= place.Keys
      ensures RestoreIs(o, m.history[o], i) && RestoresBelow(m.history[o], i)
    {
      TakenOutStands(m, o, layout, place, i);
      TakeOut(o, layout, place);
      layout', place' := TakenOut(layout, place[o]), ClosedUp(place, o);
    }

    method TakeNextPlace(o: ContextObj<T>, ghost m: Model<T>, ghost layout: Layout<T>, ghost place: Places<T>,
                         ghost i: nat)
      returns (ghost layout': Layout<T>, ghost place': Places<T>)
      requires Tracked(m, o) && TakenFrom(m, o, layout, place, i) && |scopeList| == |layout| && Linked(layout)
      requires 0 < i < |m.history[o]| && RestoreIs(o, m.history[o], i) && RestoresBelow(m.history[o], i)
      modifies scopeList`list, o, place.Keys`next, place.Keys`prev
      ensures Destroying(o, m, layout', place', i - 1) && place'.Keys <= place.Keys + {o}
    {
      ghost var h := m.history[o];
      ghost var saved: ContextObj<T> := h[i - 1];
      HistoryDistinct(m, o);
      assert RestoreIs(saved, h, i - 1) && forall j | 0 <= j < i :: h[j] != o;
      NextStands(m, o, layout, place, i);
      var _ := TakePlace(o, o.restore, layout, place);
      layout', place' := Swapped(layout, o, place[saved]), (place - {saved})[o := place[saved]];
    }
  }
}
