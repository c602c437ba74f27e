/** CDQueue over CDList: a backtrackable queue in one growing array that is truncated as early as possible. */
module CDQueue {
  import opened Versions

  const INITIAL_SIZE := 10
  const GROWTH_FACTOR := 2

  // What save() copies; the array is not saved.
  datatype Indices = Indices(size: nat, iter: nat, lastsave: nat)

  // The part of the array that a version sees, if the array has the given elements.
  ghost function Seen<T>(elements: seq<T>, d: Indices): seq<T> {
    if d.iter <= d.size <= |elements| then elements[d.iter..d.size] else []
  }

  // Each version was saved with the size that the next remembers, so that sizes never decrease.
  ghost predicate Stacked(h: seq<Version<Indices>>) {
    && (forall i | 0 <= i < |h| :: h[i].data.iter <= h[i].data.size && h[i].data.lastsave <= h[i].data.size)
    && (forall i {:trigger Follows(h, i)} | 0 < i < |h| :: Follows(h, i))
  }

  ghost predicate Follows(h: seq<Version<Indices>>, i: nat)
    requires 0 < i < |h|
  {
    h[i].data.lastsave == h[i - 1].data.size
  }

  lemma StackedInit(h: seq<Version<Indices>>)
    requires Stacked(h) && h != []
    ensures Stacked(h[..|h| - 1])
  {
    var c := h[..|h| - 1];
    forall i | 0 < i < |c|
      ensures Follows(c, i)
    {
      assert Follows(h, i);
    }
  }

  lemma StackedAppend(h: seq<Version<Indices>>, v: Version<Indices>)
    requires Stacked(h) && v.data.iter <= v.data.size && v.data.lastsave <= v.data.size
    requires h != [] ==> v.data.lastsave == h[|h| - 1].data.size
    ensures Stacked(h + [v])
  {
    forall i | 0 < i < |h + [v]|
      ensures Follows(h + [v], i)
    {
      assert i < |h| ==> Follows(h, i);
    }
  }

  // Every saved version ends where the last saved one does, or before.
  lemma {:induction false} SizesGrow(h: seq<Version<Indices>>, i: nat, j: nat)
    requires Stacked(h) && i <= j < |h|
    ensures h[i].data.size <= h[j].data.size
  {
    if i < j {
      SizesGrow(h, i, j - 1);
      assert Follows(h, j);
    }
  }

  ghost predicate RememberedAt<T(!new)>(h: seq<Version<Indices>>, elements: seq<T>, snapshots: seq<seq<T>>, k: nat)
    requires h != [] && k < |snapshots|
  {
    Seen(elements, At(h, k).data) == snapshots[k]
  }

  // The version in force at each push sees what the queue held then.
  ghost predicate Remembered<T(!new)>(h: seq<Version<Indices>>, elements: seq<T>, snapshots: seq<seq<T>>)
    requires h != []
  {
    forall k {:trigger RememberedAt(h, elements, snapshots, k)} | 0 <= k < |snapshots| ::
      RememberedAt(h, elements, snapshots, k)
  }

  // The versions h of a queue in an array with the given elements, at the level top.
  ghost predicate Sound<T(!new)>(h: seq<Version<Indices>>, top: nat, elements: seq<T>, snapshots: seq<seq<T>>) {
    && IsHistory(h, top) && |snapshots| == top
    && Stacked(h) && h[|h| - 1].data.size == |elements|
    && Remembered(h, elements, snapshots)
  }

  // ---- the steps

  // What saved versions see does not depend on elements after the last saved size.
  lemma SeenPrefix<T(!new)>(h: seq<Version<Indices>>, k: nat, elements: seq<T>, elements': seq<T>, n: nat)
    requires Stacked(h) && h != [] && h[|h| - 1].data.size <= n
    requires n <= |elements| && n <= |elements'| && elements[..n] == elements'[..n]
    ensures Seen(elements, At(h, k).data) == Seen(elements', At(h, k).data)
  {
    var v := At(h, k);
    var i :| 0 <= i < |h| && h[i] == v;
    SizesGrow(h, i, |h| - 1);
    assert elements[v.data.iter..v.data.size] == elements[..n][v.data.iter..v.data.size];
    assert elements'[v.data.iter..v.data.size] == elements'[..n][v.data.iter..v.data.size];
  }

  // The versions before the current one, which is at the level top.
  ghost function Saved(h: seq<Version<Indices>>): seq<Version<Indices>>
    requires h != []
  {
    h[..|h| - 1]
  }

  // In the top scope indices and elements may change, as long as the elements up to the last saved size stay.
  lemma ChangedIsSound<T(!new)>(h: seq<Version<Indices>>, top: nat, elements: seq<T>, snapshots: seq<seq<T>>,
                                elements': seq<T>, iter': nat)
    requires Sound(h, top, elements, snapshots) && h[|h| - 1].level == top
    requires var n := h[|h| - 1].data.lastsave;
      n <= |elements'| && elements[..n] == elements'[..n] && iter' <= |elements'|
    ensures var n := h[|h| - 1].data.lastsave;
      Sound(Saved(h) + [Version(top, Indices(|elements'|, iter', n))], top, elements', snapshots)
  {
    var n := h[|h| - 1].data.lastsave;
    var v := Version(top, Indices(|elements'|, iter', n));
    var h' := Saved(h) + [v];
    assert h == Saved(h) + [h[|h| - 1]];
    HistoryReplace(h, top, v);
    StackedInit(h);
    assert |h| > 1 ==> Follows(h, |h| - 1);
    StackedAppend(Saved(h), v);
    forall k | 0 <= k < |snapshots|
      ensures RememberedAt(h', elements', snapshots, k)
    {
      assert RememberedAt(h, elements, snapshots, k);
      assert Saved(h) != [];
      AtBefore(Saved(h), h[|h| - 1], k);
      AtBefore(Saved(h), v, k);
      SeenPrefix(Saved(h), k, elements, elements', n);
    }
  }

  // save(): the current version is kept and a new one for the top scope remembers its size.
  lemma SavedIsSound<T(!new)>(h: seq<Version<Indices>>, top: nat, elements: seq<T>, snapshots: seq<seq<T>>)
    requires Sound(h, top, elements, snapshots) && h[|h| - 1].level < top
    ensures var d := h[|h| - 1].data;
      Sound(h + [Version(top, Indices(d.size, d.iter, d.size))], top, elements, snapshots)
  {
    var d := h[|h| - 1].data;
    var v := Version(top, Indices(d.size, d.iter, d.size));
    HistoryAppend(h, top, v);
    StackedAppend(h, v);
    forall k | 0 <= k < |snapshots|
      ensures RememberedAt(h + [v], elements, snapshots, k)
    {
      assert RememberedAt(h, elements, snapshots, k);
      AtBefore(h, v, k);
    }
  }

  lemma PushedIsSound<T(!new)>(h: seq<Version<Indices>>, top: nat, elements: seq<T>, snapshots: seq<seq<T>>)
    requires Sound(h, top, elements, snapshots)
    ensures Sound(h, top + 1, elements, snapshots + [elements[h[|h| - 1].data.iter..]])
  {
    var snapshots' := snapshots + [elements[h[|h| - 1].data.iter..]];
    forall k | 0 <= k < |snapshots'|
      ensures RememberedAt(h, elements, snapshots', k)
    {
      assert k < top ==> RememberedAt(h, elements, snapshots, k);
      if k == top {
        assert elements[h[|h| - 1].data.iter..] == elements[h[|h| - 1].data.iter..|elements|];
      }
    }
  }

  lemma RestoredRemembers<T(!new)>(h: seq<Version<Indices>>, top: nat, elements: seq<T>, snapshots: seq<seq<T>>, k: nat)
    requires Sound(h, top, elements, snapshots) && h[|h| - 1].level == top > 0 && k < top
    ensures |h| > 1 && h[|h| - 2].data.size <= |elements|
    ensures Seen(elements[..h[|h| - 2].data.size], At(Saved(h), k).data) == snapshots[k]
  {
    var d := h[|h| - 2].data;
    assert RememberedAt(h, elements, snapshots, k) && Follows(h, |h| - 1);
    assert h == Saved(h) + [h[|h| - 1]];
    StackedInit(h);
    SizesGrow(h, |h| - 2, |h| - 1);
    AtBefore(Saved(h), h[|h| - 1], k);
    SeenPrefix(Saved(h), k, elements, elements[..d.size], d.size);
  }

  // restore(): the last saved version becomes the current one, and the array is truncated to its size.
  lemma RestoredIsSound<T(!new)>(h: seq<Version<Indices>>, top: nat, elements: seq<T>, snapshots: seq<seq<T>>)
    requires Sound(h, top, elements, snapshots) && h[|h| - 1].level == top > 0
    ensures |h| > 1 && h[|h| - 2].data.size <= |elements|
    ensures var d := h[|h| - 2].data;
      && Sound(Saved(h), top - 1, elements[..d.size], snapshots[..top - 1])
      && elements[..d.size][d.iter..] == snapshots[top - 1]
  {
    HistoryInit(h, top);
    RestoredRemembers(h, top, elements, snapshots, top - 1);
    StackedInit(h);
    var elements', snapshots' := elements[..h[|h| - 2].data.size], snapshots[..top - 1];
    forall k | 0 <= k < |snapshots'|
      ensures RememberedAt(Saved(h), elements', snapshots', k)
    {
      RestoredRemembers(h, top, elements, snapshots, k);
    }
    assert At(Saved(h), top - 1) == h[|h| - 2];
  }

  // A queue that has not changed since the push is as it was.
  lemma UnchangedIsSound<T(!new)>(h: seq<Version<Indices>>, top: nat, elements: seq<T>, snapshots: seq<seq<T>>)
    requires Sound(h, top, elements, snapshots) && h[|h| - 1].level < top
    ensures Sound(h, top - 1, elements, snapshots[..top - 1])
    ensures elements[h[|h| - 1].data.iter..] == snapshots[top - 1]
  {
    assert At(h, top - 1) == h[|h| - 1] && RememberedAt(h, elements, snapshots, top - 1);
    var snapshots' := snapshots[..top - 1];
    forall k | 0 <= k < |snapshots'|
      ensures RememberedAt(h, elements, snapshots', k)
    {
      assert RememberedAt(h, elements, snapshots, k);
    }
  }

  class CDQueue<T(0, !new)> {
    var list: array?<T>
    var size: nat
    var iter: nat
    var lastsave: nat
    const callDestructor: bool
    // What a destroyed element leaves behind.
    const destroyed: T

    // The part of ContextObj: the level of its scope and the saved versions, oldest first. top is the context's level.
    var level: nat
    var saves: seq<Version<Indices>>
    var top: nat

    ghost var snapshots: seq<seq<T>>

    ghost function Elements(): seq<T>
      reads this`list, this`size, list
    {
      if list != null && size <= list.Length then list[..size] else []
    }

    ghost function History(): seq<Version<Indices>>
      reads this`saves, this`level, this`size, this`iter, this`lastsave
    {
      saves + [Version(level, Indices(size, iter, lastsave))]
    }

    ghost predicate Valid()
      reads this, list
    {
      && (list == null ==> size == 0) && (list != null ==> size <= list.Length && list.Length > 0)
      && Sound(History(), top, Elements(), snapshots)
    }

    // The elements that have not been dequeued.
    ghost function Queue(): seq<T>
      requires Valid()
      reads this, list
    {
      Elements()[iter..]
    }

    constructor (callDestructor: bool, destroyed: T)
      ensures Valid() && Queue() == [] && top == 0 && snapshots == []
    {
      list, size, iter, lastsave, this.callDestructor, this.destroyed := null, 0, 0, 0, callDestructor, destroyed;
      level, saves, top, snapshots := 0, [], 0, [];
    }

    method MakeCurrent()
      requires Valid()
      modifies this`saves, this`lastsave, this`level
      ensures Valid() && level == top && Queue() == old(Queue())
      ensures old(level) == top ==> unchanged(this)
    {
      if level != top {
        SavedIsSound(History(), top, Elements(), snapshots);
        saves := saves + [Version(level, Indices(size, iter, lastsave))];
        lastsave := size;
        level := top;
      }
    }

    // Makes room for one more element.
    method Grow()
      requires Valid()
      modifies this`list
      ensures Valid() && Queue() == old(Queue()) && list != null && size < list.Length
      ensures list == old(list) || fresh(list)
      ensures unchanged(this`size, this`iter, this`saves, this`level, this`lastsave, this`top, this`snapshots)
    {
      if list == null {
        list := new T[INITIAL_SIZE];
      } else if size == list.Length {
        ghost var elements := Elements();
        list := Reallocated(list);
        assert Elements() == elements;
      }
    }

    static method Reallocated(l: array<T>) returns (newList: array<T>)
      requires l.Length > 0
      ensures fresh(newList) && newList.Length == GROWTH_FACTOR * l.Length && newList[..l.Length] == l[..]
    {
      newList := new T[GROWTH_FACTOR * l.Length];
      var i := 0;
      while i < l.Length
        invariant 0 <= i <= l.Length && newList[..i] == l[..i]
      {
        newList[i] := l[i];
        i := i + 1;
      }
    }

    // Constructs an element at the end.
    method Append(data: T)
      requires list != null && size < list.Length
      modifies this`size, list
      ensures size == old(size) + 1 && Elements() == old(Elements()) + [data]
    {
      list[size] := data;
      size := size + 1;
    }

    method TruncateList(n: nat)
      requires n <= size && (list == null ==> size == 0) && (list != null ==> size <= list.Length)
      modifies this`size, list
      ensures size == n && Elements() == old(Elements())[..n]
      ensures forall i | n <= i < old(size) :: list[i] == if callDestructor then destroyed else old(list[i])
    {
      if callDestructor {
        ghost var elements := Elements();
        while size != n
          invariant n <= size <= old(size) && Elements() == elements[..size]
          invariant forall i | size <= i < old(size) :: list[i] == destroyed
        {
          size := size - 1;
          list[size] := destroyed;
        }
      } else {
        size := n;
      }
    }

    // push
    method Enqueue(data: T)
      requires Valid()
      modifies this, list
      ensures Valid() && Queue() == old(Queue()) + [data]
      ensures snapshots == old(snapshots) && top == old(top)
    {
      MakeCurrent();
      Grow();
      PushBack(data);
    }

    // The end of CDList::push_back.
    method PushBack(data: T)
      requires Valid() && level == top && list != null && size < list.Length
      modifies this`size, list
      ensures Valid() && Queue() == old(Queue()) + [data]
    {
      ghost var h, elements := History(), Elements();
      ghost var elements' := elements + [data];
      assert Saved(h) == saves;
      assert elements[..lastsave] == elements'[..lastsave];
      ChangedIsSound(h, top, elements, snapshots, elements', iter);
      Append(data);
      assert elements'[iter..] == elements[iter..] + [data];
    }

    method IsEmpty() returns (e: bool)
      requires Valid()
      ensures e <==> Queue() == []
    {
      e := iter == size;
    }

    method Front() returns (x: T)
      requires Valid() && Queue() != []
      ensures x == Queue()[0]
    {
      x := list[iter];
    }

    method Back() returns (x: T)
      requires Valid() && Queue() != []
      ensures x == Queue()[|Queue()| - 1]
    {
      x := list[size - 1];
    }

    // pop
    method Dequeue()
      requires Valid() && Queue() != []
      modifies this, list
      ensures Valid() && Queue() == old(Queue())[1..]
      ensures Queue() == [] ==> size == lastsave
      ensures snapshots == old(snapshots) && top == old(top)
    {
      MakeCurrent();
      ghost var h, elements := History(), Elements();
      iter := iter + 1;
      if iter == size && lastsave != size {
        ChangedIsSound(h, top, elements, snapshots, elements[..lastsave], lastsave);
        TruncateList(lastsave);
        iter := lastsave;
      } else {
        ChangedIsSound(h, top, elements, snapshots, elements, iter);
      }
    }

    // Context::push
    method PushScope()
      requires Valid()
      modifies this`top, this`snapshots
      ensures Valid() && Queue() == old(Queue())
      ensures top == old(top) + 1 && snapshots == old(snapshots) + [old(Queue())]
    {
      PushedIsSound(History(), top, Elements(), snapshots);
      top, snapshots := top + 1, snapshots + [Queue()];
    }

    // Context::pop, which restores the queue if it has changed.
    method PopScope()
      requires Valid() && top > 0
      modifies this, list
      ensures Valid() && Queue() == old(snapshots)[|old(snapshots)| - 1]
      ensures top == old(top) - 1 && snapshots == old(snapshots)[..|old(snapshots)| - 1]
    {
      ghost var h, elements := History(), Elements();
      if level == top {
        RestoredIsSound(h, top, elements, snapshots);
        assert h[|h| - 2] == saves[|saves| - 1];
        Restore();
      } else {
        UnchangedIsSound(h, top, elements, snapshots);
      }
      top, snapshots := top - 1, snapshots[..|snapshots| - 1];
    }

    method Restore()
      requires Valid() && |saves| > 0 && saves[|saves| - 1].data.size <= size
      modifies this`iter, this`lastsave, this`size, this`level, this`saves, list
      ensures History() == Saved(old(History())) && Elements() == old(Elements())[..size]
      ensures size == old(saves)[|old(saves)| - 1].data.size && iter == old(saves)[|old(saves)| - 1].data.iter
      ensures unchanged(this`list, this`top, this`snapshots)
    {
      var v := saves[|saves| - 1];
      iter, lastsave := v.data.iter, v.data.lastsave;
      TruncateList(v.data.size);
      level, saves := v.level, saves[..|saves| - 1];
    }
  }
}
