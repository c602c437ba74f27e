/** CDHashMap: a hash table of context-dependent elements, which are also linked in a ring in order of insertion. */
module CDHashMap {
  import Spec = ScopedValues
  import opened Versions
  import opened Sequences

  // What a version of an element says. The element was not in the map yet when inMap is false.
  datatype Slot<D> = Slot(data: D, inMap: bool)

  class Element<K(==), D> {
    const key: K
    var data: D
    var inMap: bool        // d_map is not NULL
    var prev: Element?<K, D>
    var next: Element?<K, D>

    // The part of ContextObj: the level of its scope and the saved versions, oldest first.
    var level: nat
    var saves: seq<Version<Slot<D>>>

    constructor (key: K, data: D)
      ensures this.key == key && this.data == data && !inMap && level == 0 && saves == []
    {
      this.key, this.data, inMap, prev, next, level, saves := key, data, false, null, null, 0, [];
    }

    function History(): (h: seq<Version<Slot<D>>>)
      reads this`saves, this`level, this`data, this`inMap
    {
      saves + [Version(level, Slot(data, inMap))]
    }

    // makeCurrent, with save()
    method MakeCurrent(top: nat)
      requires level <= top
      modifies this`saves, this`level
      ensures level == top
      ensures saves == if old(level) == top then old(saves) else old(History())
      ensures History() == if old(level) == top then old(History())
        else old(History()) + [Version(top, Slot(data, inMap))]
    {
      if level != top {
        saves := saves + [Version(level, Slot(data, inMap))];
        level := top;
      }
    }

    // set
    method Set(d: D, top: nat)
      requires level <= top && inMap
      modifies this`saves, this`level, this`data
      ensures History() == Changed(old(History()), top, d) && data == d
    {
      assert History()[..|History()| - 1] == saves;
      MakeCurrent(top);
      data := d;
      assert level == old(level) ==> saves == old(saves);
    }
  }

  // ---- versions

  // Each snapshot has the key iff the version in force then is in the map, and with its data.
  ghost predicate Remembered<K, D>(h: seq<Version<Slot<D>>>, key: K, snapshots: seq<map<K, D>>)
    requires h != []
  {
    forall k {:trigger AgreesAt(h, key, snapshots, k)} | 0 <= k < |snapshots| :: AgreesAt(h, key, snapshots, k)
  }

  ghost predicate AgreesAt<K, D>(h: seq<Version<Slot<D>>>, key: K, snapshots: seq<map<K, D>>, k: nat)
    requires h != [] && k < |snapshots|
  {
    Agrees(At(h, k).data, key, snapshots[k])
  }

  ghost predicate Agrees<K, D>(v: Slot<D>, key: K, m: map<K, D>) {
    (key in m <==> v.inMap) && (v.inMap ==> m[key] == v.data)
  }

  // ---- the ring

  ghost predicate LinkOK<K, D>(ring: seq<Element<K, D>>, i: nat)
    requires i < |ring|
    reads {ring[i]}`next, {ring[i]}`prev
  {
    && ring[i].next == ring[if i == |ring| - 1 then 0 else i + 1]
    && ring[i].prev == ring[if i == 0 then |ring| - 1 else i - 1]
  }

  ghost predicate Ring<K, D>(ring: seq<Element<K, D>>, first: Element?<K, D>)
    reads ring`next, ring`prev
  {
    && Distinct(ring)
    && first == (if ring == [] then null else ring[0])
    && (forall i | 0 <= i < |ring| :: LinkOK(ring, i))
  }

  lemma WithoutMembers<K, D>(ring: seq<Element<K, D>>, i: nat)
    requires Distinct(ring) && i < |ring|
    ensures forall x :: x in Without(ring, i) <==> x in ring && x != ring[i]
  {
    forall x | x in ring && x != ring[i]
      ensures x in Without(ring, i)
    {
      var j :| 0 <= j < |ring| && ring[j] == x;
      assert Without(ring, i)[if j < i then j else j - 1] == x;
    }
  }

  // The elements with the given keys, in their order.
  ghost function Those<K, D>(ring: seq<Element<K, D>>, keys: set<K>): seq<Element<K, D>> {
    if ring == [] then []
    else Those(ring[..|ring| - 1], keys) + if ring[|ring| - 1].key in keys then [ring[|ring| - 1]] else []
  }

  lemma {:induction false} ThoseWithout<K, D>(ring: seq<Element<K, D>>, i: nat, keys: set<K>)
    requires i < |ring| && ring[i].key !in keys
    ensures Those(Without(ring, i), keys) == Those(ring, keys)
    decreases |ring|
  {
    var init := ring[..|ring| - 1];
    if i == |ring| - 1 {
      assert Without(ring, i) == init;
    } else {
      ThoseWithout(init, i, keys);
      assert Without(ring, i)[..|ring| - 2] == Without(init, i);
    }
  }

  lemma {:induction false} ThoseAll<K, D>(ring: seq<Element<K, D>>, keys: set<K>)
    requires forall i | 0 <= i < |ring| :: ring[i].key in keys
    ensures Those(ring, keys) == ring
  {
    if ring != [] {
      ThoseAll(ring[..|ring| - 1], keys);
    }
  }

  // ---- the steps of a history

  // The versions of an element of the map at the level top: only the first can be from before it was in the map.
  ghost predicate Sound<K, D>(h: seq<Version<Slot<D>>>, key: K, top: nat, snapshots: seq<map<K, D>>) {
    && IsHistory(h, top)
    && (forall i | 0 < i < |h| :: h[i].data.inMap) && h[|h| - 1].data.inMap
    && Remembered(h, key, snapshots)
  }

  ghost function Changed<D>(h: seq<Version<Slot<D>>>, top: nat, data: D): seq<Version<Slot<D>>>
    requires h != []
  {
    if h[|h| - 1].level == top then h[..|h| - 1] + [Version(top, Slot(data, true))]
      else h + [Version(top, Slot(data, true))]
  }

  // Changing the data at the top level, saving first where needed, keeps what the snapshots say.
  lemma ChangedIsSound<K, D>(h: seq<Version<Slot<D>>>, key: K, top: nat, snapshots: seq<map<K, D>>, data: D)
    requires Sound(h, key, top, snapshots) && |snapshots| == top
    ensures Sound(Changed(h, top, data), key, top, snapshots)
  {
    var h', v := Changed(h, top, data), Version(top, Slot(data, true));
    if h[|h| - 1].level == top {
      HistoryReplace(h, top, v);
    } else {
      HistoryAppend(h, top, v);
    }
    forall k | 0 <= k < |snapshots|
      ensures AgreesAt(h', key, snapshots, k)
    {
      assert AgreesAt(h, key, snapshots, k);
      if h[|h| - 1].level == top {
        assert h == h[..|h| - 1] + [h[|h| - 1]];
        AtBefore(h[..|h| - 1], h[|h| - 1], k);
        AtBefore(h[..|h| - 1], Version(top, Slot(data, true)), k);
      } else {
        AtBefore(h, Version(top, Slot(data, true)), k);
      }
    }
  }

  // A new element at the level top is in no snapshot.
  lemma NewIsSound<K, D>(key: K, top: nat, snapshots: seq<map<K, D>>, data: D)
    requires |snapshots| == top && forall k | 0 <= k < |snapshots| :: key !in snapshots[k]
    ensures Sound(if top == 0 then [Version(0, Slot(data, true))]
                  else [Version(0, Slot(data, false)), Version(top, Slot(data, true))], key, top, snapshots)
  {
    if top > 0 {
      var h := [Version(0, Slot(data, false)), Version(top, Slot(data, true))];
      forall k | 0 <= k < |snapshots|
        ensures AgreesAt(h, key, snapshots, k)
      {
        AtFirst(h, k);
      }
    }
  }

  lemma PushedIsSound<K, D>(h: seq<Version<Slot<D>>>, key: K, top: nat, snapshots: seq<map<K, D>>, values: map<K, D>)
    requires Sound(h, key, top, snapshots) && |snapshots| == top
    requires key in values && values[key] == h[|h| - 1].data.data
    ensures Sound(h, key, top + 1, snapshots + [values])
  {
    var snapshots' := snapshots + [values];
    assert At(h, top) == h[|h| - 1];
    forall k | 0 <= k < |snapshots'|
      ensures AgreesAt(h, key, snapshots', k)
    {
      if k < top {
        assert AgreesAt(h, key, snapshots, k);
      }
    }
  }

  // Going back to the last saved version: the element stays iff the version before was in the map.
  lemma RestoredIsSound<K, D>(h: seq<Version<Slot<D>>>, key: K, top: nat, snapshots: seq<map<K, D>>)
    requires Sound(h, key, top, snapshots) && |snapshots| == top > 0 && h[|h| - 1].level == top
    ensures |h| > 1
    ensures h[|h| - 2].data.inMap ==> Sound(h[..|h| - 1], key, top, snapshots)
    ensures !h[|h| - 2].data.inMap ==> forall k | 0 <= k < |snapshots| :: key !in snapshots[k]
  {
    var h' := h[..|h| - 1];
    HistoryInit(h, top);
    assert h == h' + [h[|h| - 1]];
    forall k | 0 <= k < |snapshots|
      ensures AgreesAt(h', key, snapshots, k)
    {
      assert AgreesAt(h, key, snapshots, k);
      AtBefore(h', h[|h| - 1], k);
    }
    if !h[|h| - 2].data.inMap {
      assert |h| == 2;
      forall k | 0 <= k < |snapshots|
        ensures key !in snapshots[k]
      {
        assert AgreesAt(h', key, snapshots, k) && At(h', k) == h'[0];
      }
    }
  }

  // Once nothing is left at the level that is popped, the element has the value of the last snapshot.
  lemma PoppedIsSound<K, D>(h: seq<Version<Slot<D>>>, key: K, top: nat, snapshots: seq<map<K, D>>)
    requires Sound(h, key, top, snapshots) && |snapshots| == top > 0 && h[|h| - 1].level < top
    ensures Sound(h, key, top - 1, snapshots[..top - 1])
    ensures key in snapshots[top - 1] && snapshots[top - 1][key] == h[|h| - 1].data.data
  {
    assert At(h, top - 1) == h[|h| - 1];
    assert AgreesAt(h, key, snapshots, top - 1);
    var snapshots' := snapshots[..top - 1];
    forall k | 0 <= k < |snapshots'|
      ensures AgreesAt(h, key, snapshots', k)
    {
      assert AgreesAt(h, key, snapshots, k);
    }
  }

  // Snapshots that differ for another key only.
  lemma OtherKey<K, D>(h: seq<Version<Slot<D>>>, key: K, top: nat, snapshots: seq<map<K, D>>, other: K, d: D)
    requires Sound(h, key, top, snapshots) && key != other
    ensures Sound(h, key, top, Spec.Extended(snapshots, other, 0, d))
  {
    var snapshots' := Spec.Extended(snapshots, other, 0, d);
    forall k | 0 <= k < |snapshots'|
      ensures AgreesAt(h, key, snapshots', k)
    {
      assert AgreesAt(h, key, snapshots, k);
    }
  }

  // An element inserted at level 0 is in every snapshot.
  lemma InitialIsSound<K, D>(key: K, top: nat, snapshots: seq<map<K, D>>, d: D)
    ensures Sound([Version(0, Slot(d, true))], key, top, Spec.Extended(snapshots, key, 0, d))
  {
    var snapshots' := Spec.Extended(snapshots, key, 0, d);
    forall k | 0 <= k < |snapshots'|
      ensures AgreesAt([Version(0, Slot(d, true))], key, snapshots', k)
    {
    }
  }

  ghost predicate SoundElement<K, D>(e: Element<K, D>, top: nat, snapshots: seq<map<K, D>>)
    reads e`saves, e`level, e`data, e`inMap
  {
    Sound(e.History(), e.key, top, snapshots)
  }

  class CDHashMap<K(==), D> {
    var table: map<K, Element<K, D>>
    var first: Element?<K, D>

    // The level of the context, the elements in order of insertion, and what the map means.
    var level: nat
    ghost var ring: seq<Element<K, D>>
    ghost var values: map<K, D>
    ghost var snapshots: seq<map<K, D>>

    ghost function State(): Spec.State<K, D>
      reads this`values, this`snapshots
    {
      Spec.State(values, snapshots)
    }

    ghost predicate Stored(i: nat)
      requires i < |ring|
      reads this`ring, this`table
    {
      ring[i].key in table && table[ring[i].key] == ring[i]
    }

    ghost predicate Tabled(k: K)
      reads this`ring, this`table
    {
      k in table && table[k] in ring && table[k].key == k
    }

    ghost predicate Kept(i: nat)
      requires i < |ring|
      reads this`ring, this`level, this`snapshots, {ring[i]}
    {
      SoundElement(ring[i], level, snapshots)
    }

    ghost predicate Valued(i: nat)
      requires i < |ring|
      reads this`ring, this`values, {ring[i]}`data
    {
      ring[i].key in values && values[ring[i].key] == ring[i].data
    }

    // The table and the ring have the same elements.
    ghost predicate SameElements()
      reads this`table, this`first, this`ring, ring`next, ring`prev
    {
      && Ring(ring, first)
      && (forall i {:trigger Stored(i)} | 0 <= i < |ring| :: Stored(i))
      && (forall k {:trigger Tabled(k)} | k in table :: Tabled(k))
    }

    // The elements have the versions that the snapshots ask for.
    ghost predicate Consistent()
      reads this`table, this`first, this`level, this`ring, this`snapshots, ring
    {
      && |snapshots| == level
      && SameElements()
      && (forall m | 0 <= m < |snapshots| :: snapshots[m].Keys <= table.Keys)
      && (forall i {:trigger Kept(i)} | 0 <= i < |ring| :: Kept(i))
    }

    ghost predicate Valid()
      reads this, ring
    {
      Consistent() && values.Keys == table.Keys && (forall i {:trigger Valued(i)} | 0 <= i < |ring| :: Valued(i))
    }

    constructor ()
      ensures Valid() && level == 0 && State() == Spec.State(map[], [])
    {
      table, first, level, ring, values, snapshots := map[], null, 0, [], map[], [];
    }

    // Context::push
    method Push()
      requires Valid()
      modifies this
      ensures Valid() && State() == Spec.Step(old(State()), Spec.Push)
      ensures ring == old(ring) && level == old(level) + 1
    {
      level, snapshots := level + 1, snapshots + [values];
      forall i | 0 <= i < |ring|
        ensures Kept(i)
      {
        assert old(Kept(i)) && Valued(i);
        PushedIsSound(ring[i].History(), ring[i].key, old(level), old(snapshots), values);
      }
    }

    // set of an element: the versions of the others are not affected.
    method SetData(e: Element<K, D>, d: D, ghost i: nat)
      requires Consistent() && i < |ring| && ring[i] == e
      modifies e`data, e`level, e`saves
      ensures Consistent() && e.data == d
    {
      assert Kept(i);
      ChangedIsSound(e.History(), e.key, level, snapshots, d);
      e.Set(d, level);
      forall j | 0 <= j < |ring|
        ensures Kept(j)
      {
        assert j != i ==> old(Kept(j));
      }
    }

    method Set(e: Element<K, D>, d: D, ghost i: nat)
      requires Valid() && i < |ring| && ring[i] == e
      modifies this`values, e`data, e`level, e`saves
      ensures Valid() && State() == Spec.Step(old(State()), Spec.Set(e.key, d))
      ensures unchanged(this`ring, this`table, this`first, this`level)
    {
      assert Stored(i);
      SetData(e, d, i);
      values := values[e.key := d];
      assert values.Keys == table.Keys;
      forall j | 0 <= j < |ring|
        ensures Valued(j)
      {
        assert Stored(i) && Stored(j) && old(Valued(j));
      }
    }

    // The links of a new element.
    method Link(e: Element<K, D>)
      requires Ring(ring, first) && e !in ring
      modifies this`first, this`ring, e`next, e`prev, ring`next, ring`prev
      ensures ring == old(ring) + [e] && Ring(ring, first)
    {
      if first == null {
        first, e.next, e.prev := e, e, e;
      } else {
        assert LinkOK(ring, 0) && LinkOK(ring, |ring| - 1);
        e.prev := first.prev;
        e.next := first;
        e.prev.next := e;
        first.prev := e;
      }
      ring := ring + [e];
      forall i | 0 <= i < |ring|
        ensures LinkOK(ring, i)
      {
        assert i < |old(ring)| ==> old(LinkOK(ring, i));
      }
    }

    // The links when an element leaves the map.
    method Unlink(e: Element<K, D>, ghost i: nat)
      requires Ring(ring, first) && i < |ring| && ring[i] == e
      modifies this`first, this`ring, ring`next, ring`prev
      ensures ring == Without(old(ring), i) && Ring(ring, first)
    {
      ghost var ring0 := ring;
      assert LinkOK(ring, i);
      WithoutAt(ring, i);
      if first == e {
        if e.next == e {
          first := null;
        } else {
          first := e.next;
        }
      }
      e.next.prev := e.prev;
      e.prev.next := e.next;
      ring := Without(ring, i);
      forall j | 0 <= j < |ring|
        ensures LinkOK(ring, j)
      {
        ghost var k := if j < i then j else j + 1;
        assert old(LinkOK(ring, k)) && ring[j] == ring0[k];
      }
    }

    // The constructor of an element.
    method NewElement(k: K, d: D, atLevelZero: bool) returns (e: Element<K, D>)
      ensures fresh(e) && e.key == k && e.data == d && e.inMap
      ensures e.History() == if atLevelZero || level == 0 then [Version(0, Slot(d, true))]
                             else [Version(0, Slot(d, false)), Version(level, Slot(d, true))]
    {
      e := new Element(k, d);
      if !atLevelZero {
        e.MakeCurrent(level);
        e.data := d;
      }
      e.inMap := true;
    }

    // A new element goes to the end of the ring and into the table; the snapshots may gain its key.
    method Enter(e: Element<K, D>, ghost gained: bool)
      requires Consistent() && e !in ring && e.key !in table
      requires Sound(e.History(), e.key, level,
                     if gained then Spec.Extended(snapshots, e.key, 0, e.data) else snapshots)
      modifies this`table, this`first, this`ring, this`snapshots, e`next, e`prev, ring`next, ring`prev
      ensures Consistent() && ring == old(ring) + [e] && table == old(table)[e.key := e]
      ensures snapshots == if gained then Spec.Extended(old(snapshots), e.key, 0, e.data) else old(snapshots)
    {
      ghost var snapshots' := if gained then Spec.Extended(snapshots, e.key, 0, e.data) else snapshots;
      forall i | 0 <= i < |ring|
        ensures SoundElement(ring[i], level, snapshots')
      {
        assert Kept(i) && Stored(i);
        if gained {
          OtherKey(ring[i].History(), ring[i].key, level, snapshots, e.key, e.data);
        }
      }
      label before:
      EnterTable(e);
      snapshots := snapshots';
      forall i | 0 <= i < |ring|
        ensures Kept(i)
      {
        if i < |ring| - 1 {
          assert old@before(SoundElement(ring[i], level, snapshots'));
        } else {
          assert old@before(SoundElement(e, level, snapshots'));
        }
      }
    }

    method EnterTable(e: Element<K, D>)
      requires SameElements() && e !in ring && e.key !in table
      modifies this`table, this`first, this`ring, e`next, e`prev, ring`next, ring`prev
      ensures SameElements() && ring == old(ring) + [e] && table == old(table)[e.key := e]
    {
      Link(e);
      table := table[e.key := e];
      forall i | 0 <= i < |ring|
        ensures Stored(i)
      {
        assert i < |ring| - 1 ==> old(Stored(i));
      }
      forall k | k in table
        ensures Tabled(k)
      {
        assert k != e.key ==> old(Tabled(k));
      }
    }

    method Insert(k: K, d: D) returns (isNew: bool)
      requires Valid()
      modifies this, ring
      ensures Valid() && State() == Spec.Step(old(State()), Spec.Set(k, d)) && level == old(level)
      ensures isNew == (k !in old(table)) && k in table
      ensures ring == if isNew then old(ring) + [table[k]] else old(ring)
    {
      if k !in table {
        var e := NewElement(k, d, false);
        InsertNew(e, false);
        isNew := true;
      } else {
        assert Tabled(k);
        ghost var i :| 0 <= i < |ring| && ring[i] == table[k];
        Set(table[k], d, i);
        isNew := false;
      }
    }

    // insertAtContextLevelZero
    method InsertAtContextLevelZero(k: K, d: D)
      requires Valid() && k !in table
      modifies this, ring
      ensures Valid() && State() == Spec.Step(old(State()), Spec.New(k, 0, d)) && level == old(level)
      ensures k in table && ring == old(ring) + [table[k]]
    {
      var e := NewElement(k, d, true);
      InsertNew(e, true);
    }

    // operator[]: a key that is not present is inserted with the default value.
    method GetElement(k: K, default: D) returns (e: Element<K, D>)
      requires Valid()
      modifies this, ring`next, ring`prev
      ensures Valid() && k in table && e == table[k] && level == old(level)
      ensures ring == if k in old(table) then old(ring) else old(ring) + [e]
      ensures State() == if k in old(table) then old(State()) else Spec.Step(old(State()), Spec.Set(k, default))
    {
      if k !in table {
        e := NewElement(k, default, false);
        InsertNew(e, false);
      } else {
        e := table[k];
      }
    }

    method InsertNew(e: Element<K, D>, gained: bool)
      requires Valid() && e !in ring && e.key !in table
      requires e.History() == if gained || level == 0 then [Version(0, Slot(e.data, true))]
                              else [Version(0, Slot(e.data, false)), Version(level, Slot(e.data, true))]
      modifies this, e`next, e`prev, ring`next, ring`prev
      ensures Valid() && level == old(level) && ring == old(ring) + [e] && e.key in table && table[e.key] == e
      ensures State() == Spec.Step(old(State()), if gained then Spec.New(e.key, 0, e.data) else Spec.Set(e.key, e.data))
    {
      if gained {
        InitialIsSound(e.key, level, snapshots, e.data);
      } else {
        NewIsSound(e.key, level, snapshots, e.data);
      }
      Enter(e, gained);
      values := values[e.key := e.data];
      forall i | 0 <= i < |ring|
        ensures Valued(i)
      {
        assert Stored(i);
        assert i < |ring| - 1 ==> old(Valued(i)) && old(Stored(i));
      }
    }

    // The elements that have changed at the top level.
    ghost function Changes(): set<Element<K, D>>
      reads this`ring, this`level, ring`level
    {
      set x | x in ring && x.level == level
    }

    // restore() when the saved version was in the map.
    method GoBack(e: Element<K, D>, ghost i: nat)
      requires Consistent() && i < |ring| && ring[i] == e && |e.saves| > 0
      requires Sound(e.History()[..|e.saves|], e.key, level, snapshots) && e.inMap
      requires e.saves[|e.saves| - 1].level < e.level == level
      modifies e`data, e`level, e`saves
      ensures Consistent() && Changes() == old(Changes()) - {e}
    {
      ghost var h := e.History();
      var p := e.saves[|e.saves| - 1];
      e.data := p.data.data;
      e.level, e.saves := p.level, e.saves[..|e.saves| - 1];
      assert e.History() == h[..|h| - 1];
      forall j | 0 <= j < |ring|
        ensures Kept(j)
      {
        assert j != i ==> old(Kept(j));
      }
    }

    // restore() when the saved version was not in the map: the element leaves the table and the ring.
    method LeaveMap(e: Element<K, D>, ghost i: nat)
      requires Consistent() && i < |ring| && ring[i] == e
      requires forall m | 0 <= m < |snapshots| :: e.key !in snapshots[m]
      modifies this`table, this`first, this`ring, ring`next, ring`prev
      ensures Consistent() && ring == Without(old(ring), i) && table == old(table) - {e.key}
    {
      assert Stored(i);
      table := table - {e.key};
      Unlink(e, i);
      forall j | 0 <= j < |ring|
        ensures Stored(j) && Kept(j)
      {
        var j' := if j < i then j else j + 1;
        assert old(Stored(j')) && old(Kept(j'));
      }
      forall k | k in table
        ensures Tabled(k)
      {
        assert old(Tabled(k));
        ghost var j :| 0 <= j < |old(ring)| && old(ring)[j] == table[k];
        assert ring[if j < i then j else j - 1] == table[k];
      }
    }

    method Leave(e: Element<K, D>, ghost i: nat)
      requires Consistent() && i < |ring| && ring[i] == e && level > 0
      requires forall m | 0 <= m < |snapshots| :: e.key !in snapshots[m]
      modifies this`table, this`first, this`ring, ring`next, ring`prev
      ensures Consistent() && Changes() == old(Changes()) - {e}
      ensures forall j | 0 <= j < |ring| :: ring[j] in old(ring) && ring[j] != e
      ensures Those(ring, snapshots[level - 1].Keys) == Those(old(ring), snapshots[level - 1].Keys)
    {
      WithoutMembers(ring, i);
      ThoseWithout(ring, i, snapshots[level - 1].Keys);
      LeaveMap(e, i);
      assert forall j | 0 <= j < |ring| :: ring[j] in ring;
    }

    // restoreAndContinue with restore(): the element takes back its last saved version or leaves the map.
    method Restore(e: Element<K, D>, ghost i: nat)
      requires Consistent() && i < |ring| && ring[i] == e && e.level == level > 0
      modifies this`table, this`first, this`ring, ring
      ensures Consistent() && Changes() == old(Changes()) - {e}
      ensures forall j | 0 <= j < |ring| :: ring[j] in old(ring)
      ensures Those(ring, snapshots[level - 1].Keys) == Those(old(ring), snapshots[level - 1].Keys)
    {
      assert Kept(i);
      RestoredIsSound(e.History(), e.key, level, snapshots);
      assert Rises(e.History(), |e.saves|);
      var p := e.saves[|e.saves| - 1];
      if !p.data.inMap {
        Leave(e, i);
        e.level, e.saves := p.level, e.saves[..|e.saves| - 1];
      } else {
        GoBack(e, i);
      }
    }

    // Context::pop; the elements are restored in any order.
    method Pop()
      requires Valid() && level > 0
      modifies this, ring
      ensures Valid() && State() == Spec.Step(old(State()), Spec.Pop) && level == old(level) - 1
      ensures ring == Those(old(ring), values.Keys)
    {
      RestoreAll();
      FinishPop();
    }

    // Restores every element that has changed at the top level.
    method RestoreAll()
      requires Consistent() && level > 0
      modifies this`table, this`first, this`ring, ring
      ensures Consistent() && forall k | k in table :: table[k].level != level
      ensures forall j | 0 <= j < |ring| :: ring[j] in old(ring)
      ensures Those(ring, snapshots[level - 1].Keys) == Those(old(ring), snapshots[level - 1].Keys)
    {
      while exists k :: k in table && table[k].level == level
        invariant Consistent() && level == old(level) && snapshots == old(snapshots)
        invariant forall j | 0 <= j < |ring| :: ring[j] in old(ring)
        invariant Those(ring, snapshots[level - 1].Keys) == Those(old(ring), snapshots[level - 1].Keys)
        decreases Changes()
      {
        var k :| k in table && table[k].level == level;
        assert Tabled(k);
        ghost var i :| 0 <= i < |ring| && ring[i] == table[k];
        assert table[k] in Changes();
        Restore(table[k], i);
      }
    }

    lemma AllPopped()
      requires Consistent() && level > 0 && forall k | k in table :: table[k].level != level
      ensures forall i | 0 <= i < |ring| ::
        && SoundElement(ring[i], level - 1, snapshots[..level - 1])
        && ring[i].key in snapshots[level - 1] && snapshots[level - 1][ring[i].key] == ring[i].data
      ensures snapshots[level - 1].Keys == table.Keys && Those(ring, table.Keys) == ring
    {
      forall i | 0 <= i < |ring|
        ensures SoundElement(ring[i], level - 1, snapshots[..level - 1])
        ensures ring[i].key in snapshots[level - 1] && snapshots[level - 1][ring[i].key] == ring[i].data
        ensures ring[i].key in table.Keys
      {
        assert Kept(i) && Stored(i);
        PoppedIsSound(ring[i].History(), ring[i].key, level, snapshots);
      }
      forall k | k in table
        ensures k in snapshots[level - 1]
      {
        assert Tabled(k);
        var i :| 0 <= i < |ring| && ring[i] == table[k];
      }
      ThoseAll(ring, table.Keys);
    }

    method FinishPop()
      requires Consistent() && level > 0 && forall k | k in table :: table[k].level != level
      modifies this`level, this`values, this`snapshots
      ensures Valid() && level == old(level) - 1
      ensures values == old(snapshots)[level] && snapshots == old(snapshots)[..level]
      ensures Those(ring, values.Keys) == ring
    {
      ghost var top, last := level - 1, snapshots[level - 1];
      AllPopped();
      label before:
      level, snapshots, values := level - 1, snapshots[..top], last;
      forall i | 0 <= i < |ring|
        ensures Kept(i) && Valued(i)
      {
        assert old@before(SoundElement(ring[i], top, snapshots[..top]));
      }
    }

    // From begin() to end().
    method Keys() returns (ks: seq<K>)
      requires Valid()
      ensures |ks| == |ring| && forall i | 0 <= i < |ks| :: ks[i] == ring[i].key
      ensures forall k :: k in ks <==> k in values
      ensures forall i, j | 0 <= i < j < |ks| :: ks[i] != ks[j]
    {
      ks := [];
      var e := first;
      while e != null
        invariant |ks| <= |ring| && e == (if |ks| == |ring| then null else ring[|ks|])
        invariant forall i | 0 <= i < |ks| :: ks[i] == ring[i].key
        decreases |ring| - |ks|
      {
        assert LinkOK(ring, |ks|);
        ks := ks + [e.key];
        // next()
        e := if e.next == first then null else e.next;
      }
      forall k | k in values
        ensures k in ks
      {
        assert Tabled(k);
        var i :| 0 <= i < |ring| && ring[i] == table[k];
        assert ks[i] == k;
      }
      forall i | 0 <= i < |ks|
        ensures ks[i] in values && table[ks[i]] == ring[i]
      {
        assert Stored(i) && Valued(i);
      }
    }
  }
}
