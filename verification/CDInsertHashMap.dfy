/** CDInsertHashMap: a table with a deque of its keys, restored by popping keys off the back. */
module CDInsertHashMap {
  import Spec = ScopedValues
  import opened Versions

  // What save() copies: the number of keys, and of keys pushed to the front so far.
  datatype Sizes = Sizes(size: nat, pushFronts: nat)

  ghost function KeySet<K>(keys: seq<K>): set<K> {
    set k | k in keys
  }

  // m has just the given keys, with their values in the table.
  ghost predicate IsPart<K, D>(m: map<K, D>, table: map<K, D>, keys: seq<K>) {
    m.Keys == KeySet(keys) && forall k | k in m :: k in table && m[k] == table[k]
  }

  // The keys that a version sees, when the first n keys have been pushed to the front.
  ghost function Seen<K>(keys: seq<K>, n: nat, d: Sizes): seq<K> {
    if d.pushFronts <= d.size && n + (d.size - d.pushFronts) <= |keys| then keys[..n + (d.size - d.pushFronts)]
      else keys
  }

  ghost predicate RememberedAt<K, D>(h: seq<Version<Sizes>>, keys: seq<K>, n: nat, table: map<K, D>,
                                     snapshots: seq<map<K, D>>, k: nat)
    requires h != [] && k < |snapshots|
  {
    IsPart(snapshots[k], table, Seen(keys, n, At(h, k).data))
  }

  // Later versions have no fewer keys of either kind.
  ghost predicate Follows(h: seq<Version<Sizes>>, i: nat)
    requires 0 < i < |h|
  {
    var v, w := h[i - 1].data, h[i].data;
    v.pushFronts <= w.pushFronts && v.size - v.pushFronts <= w.size - w.pushFronts
  }

  ghost predicate Growing(h: seq<Version<Sizes>>) {
    && (forall i | 0 <= i < |h| :: h[i].data.pushFronts <= h[i].data.size)
    && (forall i {:trigger Follows(h, i)} | 0 < i < |h| :: Follows(h, i))
  }

  ghost predicate Sound<K, D>(h: seq<Version<Sizes>>, top: nat, keys: seq<K>, table: map<K, D>,
                              snapshots: seq<map<K, D>>) {
    && IsHistory(h, top) && |snapshots| == top && Growing(h)
    && h[|h| - 1].data.size == |keys|
    && (forall i, j | 0 <= i < j < |keys| :: keys[i] != keys[j])
    && table.Keys == KeySet(keys)
    && (forall k {:trigger RememberedAt(h, keys, h[|h| - 1].data.pushFronts, table, snapshots, k)} |
          0 <= k < |snapshots| ::
          RememberedAt(h, keys, h[|h| - 1].data.pushFronts, table, snapshots, k))
  }

  lemma {:induction false} BacksGrow(h: seq<Version<Sizes>>, i: nat, j: nat)
    requires Growing(h) && i <= j < |h|
    ensures h[i].data.size - h[i].data.pushFronts <= h[j].data.size - h[j].data.pushFronts
    ensures h[i].data.pushFronts <= h[j].data.pushFronts
  {
    if i < j {
      BacksGrow(h, i, j - 1);
      assert Follows(h, j);
    }
  }

  // Every version of a growing history sees as many keys at the back as are there, or fewer.
  lemma SeenIsPrefix<K>(h: seq<Version<Sizes>>, keys: seq<K>, k: nat)
    requires Growing(h) && h != [] && h[|h| - 1].data.size <= |keys|
    ensures var d, n := At(h, k).data, h[|h| - 1].data.pushFronts;
      d.pushFronts <= d.size && n + (d.size - d.pushFronts) <= |keys|
  {
    var v := At(h, k);
    var i :| 0 <= i < |h| && h[i] == v;
    BacksGrow(h, i, |h| - 1);
  }

  lemma GrowingAppend(h: seq<Version<Sizes>>, v: Version<Sizes>)
    requires Growing(h) && v.data.pushFronts <= v.data.size
    requires h != [] ==> var d := h[|h| - 1].data;
      d.pushFronts <= v.data.pushFronts && d.size - d.pushFronts <= v.data.size - v.data.pushFronts
    ensures Growing(h + [v])
  {
    forall i | 0 < i < |h + [v]|
      ensures Follows(h + [v], i)
    {
      assert i < |h| ==> Follows(h, i);
    }
  }

  lemma GrowingInit(h: seq<Version<Sizes>>)
    requires Growing(h) && h != []
    ensures Growing(h[..|h| - 1])
  {
    var c := h[..|h| - 1];
    forall i | 0 < i < |c|
      ensures Follows(c, i)
    {
      assert Follows(h, i);
    }
  }

  // ---- the steps

  // save()
  lemma SavedIsSound<K, D>(h: seq<Version<Sizes>>, top: nat, keys: seq<K>, table: map<K, D>, snapshots: seq<map<K, D>>)
    requires Sound(h, top, keys, table, snapshots) && h[|h| - 1].level < top
    ensures Sound(h + [Version(top, h[|h| - 1].data)], top, keys, table, snapshots)
  {
    var v := Version(top, h[|h| - 1].data);
    var n := v.data.pushFronts;
    HistoryAppend(h, top, v);
    GrowingAppend(h, v);
    forall k | 0 <= k < |snapshots|
      ensures RememberedAt(h + [v], keys, n, table, snapshots, k)
    {
      assert RememberedAt(h, keys, n, table, snapshots, k);
      AtBefore(h, v, k);
    }
  }

  // What a version sees depends on the number of its keys at the back only.
  ghost function Backs(d: Sizes): int {
    d.size - d.pushFronts
  }

  // A new key at the back, in the top scope, is seen by no snapshot.
  lemma PushedBack<K, D>(h: seq<Version<Sizes>>, top: nat, keys: seq<K>, table: map<K, D>, snapshots: seq<map<K, D>>,
                         key: K, d: D)
    requires Sound(h, top, keys, table, snapshots) && h[|h| - 1].level == top && key !in table
    ensures var v := h[|h| - 1].data;
      Sound(h[..|h| - 1] + [Version(top, Sizes(v.size + 1, v.pushFronts))], top, keys + [key], table[key := d],
            snapshots)
  {
    var c, v := h[..|h| - 1], Version(top, Sizes(h[|h| - 1].data.size + 1, h[|h| - 1].data.pushFronts));
    var h', keys', table', n := c + [v], keys + [key], table[key := d], v.data.pushFronts;
    assert h == c + [h[|h| - 1]];
    HistoryReplace(h, top, v);
    GrowingInit(h);
    assert |h| > 1 ==> Follows(h, |h| - 1);
    GrowingAppend(c, v);
    assert forall k :: k in keys' <==> k in keys || k == key;
    forall k | 0 <= k < |snapshots|
      ensures RememberedAt(h', keys', n, table', snapshots, k)
    {
      assert RememberedAt(h, keys, n, table, snapshots, k);
      AtBefore(c, h[|h| - 1], k);
      AtBefore(c, v, k);
      SeenIsPrefix(h, keys, k);
      var m := n + Backs(At(h, k).data);
      assert keys'[..m] == keys[..m];
    }
  }

  lemma FrontIsPart<K, D>(m: map<K, D>, table: map<K, D>, keys: seq<K>, key: K, d: D)
    requires IsPart(m, table, keys) && key !in table
    ensures IsPart(m[key := d], table[key := d], [key] + keys)
  {
  }

  // A new key at the front is seen by every snapshot.
  lemma PushedFront<K, D>(h: seq<Version<Sizes>>, top: nat, keys: seq<K>, table: map<K, D>, snapshots: seq<map<K, D>>,
                          key: K, d: D)
    requires Sound(h, top, keys, table, snapshots) && h[|h| - 1].level == top && key !in table
    ensures var v := h[|h| - 1].data;
      Sound(h[..|h| - 1] + [Version(top, Sizes(v.size + 1, v.pushFronts + 1))], top, [key] + keys, table[key := d],
            Spec.Extended(snapshots, key, 0, d))
  {
    var c, v := h[..|h| - 1], Version(top, Sizes(h[|h| - 1].data.size + 1, h[|h| - 1].data.pushFronts + 1));
    var h', keys', table', n := c + [v], [key] + keys, table[key := d], v.data.pushFronts;
    var snapshots' := Spec.Extended(snapshots, key, 0, d);
    assert h == c + [h[|h| - 1]];
    HistoryReplace(h, top, v);
    GrowingInit(h);
    assert |h| > 1 ==> Follows(h, |h| - 1);
    GrowingAppend(c, v);
    assert forall k :: k in keys' <==> k in keys || k == key;
    forall k | 0 <= k < |snapshots'|
      ensures RememberedAt(h', keys', n, table', snapshots', k)
    {
      FrontRemembered(h, top, keys, table, snapshots, key, d, v, k);
    }
  }

  lemma FrontRemembered<K, D>(h: seq<Version<Sizes>>, top: nat, keys: seq<K>, table: map<K, D>,
                              snapshots: seq<map<K, D>>, key: K, d: D, v: Version<Sizes>, k: nat)
    requires Sound(h, top, keys, table, snapshots) && h[|h| - 1].level == top && key !in table && k < |snapshots|
    requires v == Version(top, Sizes(h[|h| - 1].data.size + 1, h[|h| - 1].data.pushFronts + 1))
    ensures RememberedAt(h[..|h| - 1] + [v], [key] + keys, v.data.pushFronts, table[key := d],
                         Spec.Extended(snapshots, key, 0, d), k)
  {
    var c, keys', n := h[..|h| - 1], [key] + keys, v.data.pushFronts;
    assert h == c + [h[|h| - 1]];
    assert RememberedAt(h, keys, n - 1, table, snapshots, k);
    AtBefore(c, h[|h| - 1], k);
    AtBefore(c, v, k);
    SeenIsPrefix(h, keys, k);
    var m := n - 1 + Backs(At(h, k).data);
    assert keys'[..m + 1] == [key] + keys[..m];
    FrontIsPart(snapshots[k], table, keys[..m], key, d);
  }

  lemma PushedScope<K, D>(h: seq<Version<Sizes>>, top: nat, keys: seq<K>, table: map<K, D>, snapshots: seq<map<K, D>>)
    requires Sound(h, top, keys, table, snapshots)
    ensures Sound(h, top + 1, keys, table, snapshots + [table])
  {
    var snapshots', n := snapshots + [table], h[|h| - 1].data.pushFronts;
    forall k | 0 <= k < |snapshots'|
      ensures RememberedAt(h, keys, n, table, snapshots', k)
    {
      if k < top {
        assert RememberedAt(h, keys, n, table, snapshots, k);
      } else {
        assert keys[..|keys|] == keys;
      }
    }
  }

  ghost function Part<K, D>(table: map<K, D>, keys: seq<K>): map<K, D> {
    map k | k in keys && k in table :: table[k]
  }

  // restore(): the keys at the back go back to those of the last saved version, and those at the front stay.
  ghost function RestoredSize(v: Sizes, n: nat): int {
    v.size + (n - v.pushFronts)
  }

  lemma RestoredRemembers<K, D>(h: seq<Version<Sizes>>, top: nat, keys: seq<K>, table: map<K, D>,
                                snapshots: seq<map<K, D>>, k: nat)
    requires Sound(h, top, keys, table, snapshots) && h[|h| - 1].level == top > 0 && k < top
    ensures |h| > 1 && h[|h| - 2].data.pushFronts <= h[|h| - 1].data.pushFronts
    ensures RestoredSize(h[|h| - 2].data, h[|h| - 1].data.pushFronts) <= |keys|
    ensures var n := h[|h| - 1].data.pushFronts;
      var size := RestoredSize(h[|h| - 2].data, n);
      var v := Version(h[|h| - 2].level, Sizes(size, n));
      RememberedAt(h[..|h| - 2] + [v], keys[..size], n, Part(table, keys[..size]), snapshots, k)
  {
    var n := h[|h| - 1].data.pushFronts;
    var w := h[|h| - 2];
    var size := RestoredSize(w.data, n);
    var v := Version(w.level, Sizes(size, n));
    var b := h[..|h| - 1];
    assert h == b + [h[|h| - 1]] && b[..|h| - 2] == h[..|h| - 2];
    assert Follows(h, |h| - 1) && RememberedAt(h, keys, n, table, snapshots, k);
    AtBefore(b, h[|h| - 1], k);
    GrowingInit(h);
    RestoredAt(b, v, k);
    RestoredPrefix(b, k, n, size);
    PartOfPart(snapshots[k], table, keys, size, n + Backs(At(b, k).data));
  }

  // The restored version stands for the saved one.
  lemma RestoredAt(b: seq<Version<Sizes>>, v: Version<Sizes>, k: nat)
    requires b != [] && v.level == b[|b| - 1].level
    requires v.data.pushFronts <= v.data.size && Backs(v.data) == Backs(b[|b| - 1].data)
    ensures Backs(At(b[..|b| - 1] + [v], k).data) == Backs(At(b, k).data)
    ensures Growing(b) ==> At(b[..|b| - 1] + [v], k).data.pushFronts <= At(b[..|b| - 1] + [v], k).data.size
  {
    var c, w := b[..|b| - 1], b[|b| - 1];
    assert b == c + [w];
    if c != [] && k < w.level {
      AtBefore(c, w, k);
      AtBefore(c, v, k);
    }
  }

  lemma PartOfPart<K, D>(m: map<K, D>, table: map<K, D>, keys: seq<K>, size: nat, n: nat)
    requires n <= size <= |keys| && IsPart(m, table, keys[..n])
    ensures IsPart(m, Part(table, keys[..size]), keys[..size][..n])
  {
    assert keys[..size][..n] == keys[..n];
    forall k | k in m
      ensures k in keys[..size]
    {
      assert k in keys[..n];
    }
  }

  // No version before sees more keys than the one that is restored.
  lemma RestoredPrefix(b: seq<Version<Sizes>>, k: nat, n: nat, size: int)
    requires Growing(b) && b != [] && b[|b| - 1].data.pushFronts <= n && size == RestoredSize(b[|b| - 1].data, n)
    ensures n + Backs(At(b, k).data) <= size && Backs(At(b, k).data) >= 0
  {
    var i :| 0 <= i < |b| && b[i] == At(b, k);
    BacksGrow(b, i, |b| - 1);
  }

  lemma RestoredIsSound<K, D>(h: seq<Version<Sizes>>, top: nat, keys: seq<K>, table: map<K, D>,
                              snapshots: seq<map<K, D>>)
    requires Sound(h, top, keys, table, snapshots) && h[|h| - 1].level == top > 0
    ensures |h| > 1 && h[|h| - 2].data.pushFronts <= h[|h| - 1].data.pushFronts
    ensures 0 <= RestoredSize(h[|h| - 2].data, h[|h| - 1].data.pushFronts) <= |keys|
    ensures var n := h[|h| - 1].data.pushFronts;
      var size := RestoredSize(h[|h| - 2].data, n);
      var v := Version(h[|h| - 2].level, Sizes(size, n));
      && Sound(h[..|h| - 2] + [v], top - 1, keys[..size], Part(table, keys[..size]), snapshots[..top - 1])
      && Part(table, keys[..size]) == snapshots[top - 1]
  {
    RestoredRemembers(h, top, keys, table, snapshots, top - 1);
    var n := h[|h| - 1].data.pushFronts;
    var w := h[|h| - 2];
    var size := RestoredSize(w.data, n);
    var v := Version(w.level, Sizes(size, n));
    var c, keys', table', snapshots' := h[..|h| - 2], keys[..size], Part(table, keys[..size]), snapshots[..top - 1];
    assert h[..|h| - 1][..|h| - 2] == c;
    HistoryInit(h, top);
    HistoryReplace(h[..|h| - 1], top - 1, v);
    GrowingInit(h);
    GrowingInit(h[..|h| - 1]);
    assert |h| > 2 ==> Follows(h, |h| - 2);
    GrowingAppend(c, v);
    forall k | 0 <= k < |snapshots'|
      ensures RememberedAt(c + [v], keys', n, table', snapshots', k)
    {
      RestoredRemembers(h, top, keys, table, snapshots, k);
      assert RememberedAt(c + [v], keys', n, table', snapshots, k);
    }
    assert RememberedAt(c + [v], keys', n, table', snapshots, top - 1);
    assert At(c + [v], top - 1) == v;
  }

  lemma UnchangedIsSound<K, D>(h: seq<Version<Sizes>>, top: nat, keys: seq<K>, table: map<K, D>,
                               snapshots: seq<map<K, D>>)
    requires Sound(h, top, keys, table, snapshots) && h[|h| - 1].level < top
    ensures Sound(h, top - 1, keys, table, snapshots[..top - 1])
    ensures table == snapshots[top - 1]
  {
    var n, snapshots' := h[|h| - 1].data.pushFronts, snapshots[..top - 1];
    assert At(h, top - 1) == h[|h| - 1] && RememberedAt(h, keys, n, table, snapshots, top - 1);
    assert keys[..|keys|] == keys;
    forall k | 0 <= k < |snapshots'|
      ensures RememberedAt(h, keys, n, table, snapshots', k)
    {
      assert RememberedAt(h, keys, n, table, snapshots, k);
    }
  }

  // The table and the deque of its keys.
  class InsertHashMap<K(==), D> {
    var keys: seq<K>
    var table: map<K, D>

    constructor ()
      ensures keys == [] && table == map[]
    {
      keys, table := [], map[];
    }

    method PushFront(k: K, d: D)
      requires k !in table
      modifies this
      ensures keys == [k] + old(keys) && table == old(table)[k := d]
    {
      table := table[k := d];
      keys := [k] + keys;
    }

    method PushBack(k: K, d: D)
      requires k !in table
      modifies this
      ensures keys == old(keys) + [k] && table == old(table)[k := d]
    {
      table := table[k := d];
      keys := keys + [k];
    }

    method PopBack()
      requires keys != []
      modifies this
      ensures keys == old(keys)[..|old(keys)| - 1] && table == old(table) - {old(keys)[|old(keys)| - 1]}
    {
      table := table - {keys[|keys| - 1]};
      keys := keys[..|keys| - 1];
    }

    // pop_to_size
    method PopToSize(n: nat)
      requires table.Keys == KeySet(keys) && forall i, j | 0 <= i < j < |keys| :: keys[i] != keys[j]
      modifies this
      ensures keys == (if n <= |old(keys)| then old(keys)[..n] else old(keys)) && table == Part(old(table), keys)
    {
      assert keys[..|keys|] == keys && table == Part(table, keys);
      while |keys| > n
        invariant |keys| <= |old(keys)| && keys == old(keys)[..|keys|] && (n <= |keys| || keys == old(keys))
        invariant table == Part(old(table), keys)
      {
        ghost var keys0 := keys;
        assert keys0 == keys0[..|keys0| - 1] + [keys0[|keys0| - 1]];
        PopBack();
        assert forall k :: k in keys <==> k in keys0 && k != keys0[|keys0| - 1];
      }
    }
  }

  class CDInsertHashMap<K(==), D> {
    const insertMap: InsertHashMap<K, D>
    var size: nat
    var pushFronts: nat

    // The part of ContextObj: the level of its scope and the saved versions, oldest first. top is the context's level.
    var level: nat
    var saves: seq<Version<Sizes>>
    var top: nat

    ghost var snapshots: seq<map<K, D>>

    ghost function History(): seq<Version<Sizes>>
      reads this`size, this`pushFronts, this`level, this`saves
    {
      saves + [Version(level, Sizes(size, pushFronts))]
    }

    ghost predicate SoundAt(top: nat, snapshots: seq<map<K, D>>)
      reads this`size, this`pushFronts, this`level, this`saves, insertMap
    {
      Sound(History(), top, insertMap.keys, insertMap.table, snapshots)
    }

    ghost predicate Valid()
      reads this, insertMap
    {
      SoundAt(top, snapshots)
    }

    ghost function State(): Spec.State<K, D>
      reads this, insertMap
    {
      Spec.State(insertMap.table, snapshots)
    }

    // The keys inserted at level zero, the newest first, and the others, the newest last.
    ghost function Fronts(): seq<K>
      reads this, insertMap
    {
      if pushFronts <= |insertMap.keys| then insertMap.keys[..pushFronts] else []
    }

    ghost function BackKeys(): seq<K>
      reads this, insertMap
    {
      if pushFronts <= |insertMap.keys| then insertMap.keys[pushFronts..] else []
    }

    constructor ()
      ensures Valid() && State() == Spec.State(map[], []) && top == 0 && fresh(insertMap)
    {
      insertMap := new InsertHashMap();
      size, pushFronts, level, saves, top, snapshots := 0, 0, 0, [], 0, [];
    }

    method MakeCurrent()
      requires Valid()
      modifies this`saves, this`level
      ensures Valid() && level == top
    {
      if level != top {
        SavedIsSound(History(), top, insertMap.keys, insertMap.table, snapshots);
        saves := saves + [Version(level, Sizes(size, pushFronts))];
        level := top;
      }
    }

    method Insert(k: K, d: D)
      requires Valid() && k !in insertMap.table
      modifies this, insertMap
      ensures Valid() && State() == Spec.Step(old(State()), Spec.Set(k, d)) && top == old(top)
      ensures Fronts() == old(Fronts()) && BackKeys() == old(BackKeys()) + [k]
    {
      MakeCurrent();
      InsertBack(k, d);
    }

    method InsertBack(k: K, d: D)
      requires Valid() && k !in insertMap.table && level == top
      modifies this`size, insertMap
      ensures Valid() && insertMap.table == old(insertMap.table)[k := d]
      ensures Fronts() == old(Fronts()) && BackKeys() == old(BackKeys()) + [k]
    {
      ghost var h := History();
      PushedBack(h, top, insertMap.keys, insertMap.table, snapshots, k, d);
      assert h[..|h| - 1] == saves;
      size := size + 1;
      insertMap.PushBack(k, d);
    }

    method InsertAtContextLevelZero(k: K, d: D)
      requires Valid() && k !in insertMap.table
      modifies this, insertMap
      ensures Valid() && State() == Spec.Step(old(State()), Spec.New(k, 0, d)) && top == old(top)
      ensures Fronts() == [k] + old(Fronts()) && BackKeys() == old(BackKeys())
    {
      MakeCurrent();
      InsertFront(k, d);
    }

    method InsertFront(k: K, d: D)
      requires Valid() && k !in insertMap.table && level == top
      modifies this`size, this`pushFronts, this`snapshots, insertMap
      ensures Valid() && insertMap.table == old(insertMap.table)[k := d]
      ensures snapshots == Spec.Extended(old(snapshots), k, 0, d)
      ensures Fronts() == [k] + old(Fronts()) && BackKeys() == old(BackKeys())
    {
      ghost var h := History();
      PushedFront(h, top, insertMap.keys, insertMap.table, snapshots, k, d);
      assert h[..|h| - 1] == saves;
      size := size + 1;
      pushFronts := pushFronts + 1;
      insertMap.PushFront(k, d);
      snapshots := Spec.Extended(snapshots, k, 0, d);
    }

    // insert_safe
    method InsertSafe(k: K, d: D) returns (inserted: bool)
      requires Valid()
      modifies this, insertMap
      ensures Valid() && inserted == (k !in old(insertMap.table))
      ensures State() == if inserted then Spec.Step(old(State()), Spec.Set(k, d)) else old(State())
    {
      if k in insertMap.table {
        return false;
      }
      Insert(k, d);
      return true;
    }

    // Context::push
    method PushScope()
      requires Valid()
      modifies this`top, this`snapshots
      ensures Valid() && State() == Spec.Step(old(State()), Spec.Push) && top == old(top) + 1
    {
      PushedScope(History(), top, insertMap.keys, insertMap.table, snapshots);
      top, snapshots := top + 1, snapshots + [insertMap.table];
    }

    // Context::pop, which restores the map if it has changed.
    method PopScope()
      requires Valid() && top > 0
      modifies this, insertMap
      ensures Valid() && State() == Spec.Step(old(State()), Spec.Pop) && top == old(top) - 1
      ensures Fronts() == old(Fronts()) && BackKeys() <= old(BackKeys())
    {
      if level == top {
        Restore();
      } else {
        Keep();
      }
      FinishPop();
    }

    lemma Keep()
      requires Valid() && level < top
      ensures SoundAt(top - 1, snapshots[..top - 1]) && insertMap.table == snapshots[top - 1] && |snapshots| == top
    {
      UnchangedIsSound(History(), top, insertMap.keys, insertMap.table, snapshots);
    }

    method FinishPop()
      requires top > 0 && |snapshots| == top
      requires SoundAt(top - 1, snapshots[..top - 1])
      modifies this`top, this`snapshots
      ensures Valid() && top == old(top) - 1 && snapshots == old(snapshots)[..top]
    {
      top, snapshots := top - 1, snapshots[..top - 1];
    }

    // restore(), with what ContextObj restores.
    method Restore()
      requires Valid() && level == top > 0
      modifies this`size, this`level, this`saves, insertMap
      ensures SoundAt(top - 1, snapshots[..top - 1])
      ensures insertMap.table == snapshots[top - 1] && |snapshots| == top
      ensures Fronts() == old(Fronts()) && BackKeys() <= old(BackKeys())
    {
      ghost var h, keys, table := History(), insertMap.keys, insertMap.table;
      RestoredIsSound(h, top, keys, table, snapshots);
      var v := saves[|saves| - 1];
      assert h[|h| - 2] == v && h[..|h| - 2] == saves[..|saves| - 1];
      assert v.data.pushFronts <= v.data.size by {
        assert 0 <= |h| - 2 < |h|;
      }
      var restoreSize := v.data.size + (pushFronts - v.data.pushFronts);
      insertMap.PopToSize(restoreSize);
      size := restoreSize;
      level, saves := v.level, saves[..|saves| - 1];
    }
  }
}
