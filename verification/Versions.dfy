/** The versions of a context-dependent object: the saved ones, oldest first, and the current one. */
module Versions {

  datatype Version<D> = Version(level: nat, data: D)

  // The versions of an object that was created at level 0, up to the level top.
  ghost predicate IsHistory<D>(h: seq<Version<D>>, top: nat) {
    && h != [] && h[0].level == 0 && h[|h| - 1].level <= top
    && (forall i {:trigger Rises(h, i)} | 0 < i < |h| :: Rises(h, i))
  }

  ghost predicate Rises<D>(h: seq<Version<D>>, i: nat)
    requires 0 < i < |h|
  {
    h[i - 1].level < h[i].level
  }

  lemma HistoryInit<D>(h: seq<Version<D>>, top: nat)
    requires IsHistory(h, top) && h[|h| - 1].level > 0
    ensures |h| > 1 && IsHistory(h[..|h| - 1], h[|h| - 1].level - 1)
  {
    var c := h[..|h| - 1];
    assert Rises(h, |h| - 1);
    forall i | 0 < i < |c|
      ensures Rises(c, i)
    {
      assert Rises(h, i);
    }
  }

  lemma HistoryAppend<D>(h: seq<Version<D>>, top: nat, v: Version<D>)
    requires if h == [] then v.level == 0 else IsHistory(h, top) && h[|h| - 1].level < v.level
    ensures IsHistory(h + [v], v.level)
  {
    forall i | 0 < i < |h + [v]|
      ensures Rises(h + [v], i)
    {
      assert i < |h| ==> Rises(h, i);
    }
  }

  // The current version may be replaced by another at its level.
  lemma HistoryReplace<D>(h: seq<Version<D>>, top: nat, v: Version<D>)
    requires IsHistory(h, top) && v.level == h[|h| - 1].level
    ensures IsHistory(h[..|h| - 1] + [v], v.level)
  {
    if v.level > 0 {
      HistoryInit(h, top);
      HistoryAppend(h[..|h| - 1], v.level - 1, v);
    } else {
      var h' := h[..|h| - 1] + [v];
      forall i | 0 < i < |h'|
        ensures Rises(h', i)
      {
        assert Rises(h, i);
      }
    }
  }

  // The version in force at level k.
  ghost function At<D>(h: seq<Version<D>>, k: nat): (v: Version<D>)
    requires h != []
    ensures v in h
  {
    if |h| == 1 || h[|h| - 1].level <= k then h[|h| - 1] else At(h[..|h| - 1], k)
  }

  // A version at a higher level makes no difference.
  lemma AtBefore<D>(h: seq<Version<D>>, v: Version<D>, k: nat)
    requires h != [] && k < v.level
    ensures At(h + [v], k) == At(h, k)
  {
    assert (h + [v])[..|h|] == h;
  }

  lemma {:induction false} AtFirst<D>(h: seq<Version<D>>, k: nat)
    requires h != [] && forall i | 0 < i < |h| :: k < h[i].level
    ensures At(h, k) == h[0]
    decreases |h|
  {
    if |h| > 1 {
      AtFirst(h[..|h| - 1], k);
    }
  }
}
