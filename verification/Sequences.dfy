/** Sequences that are used as stacks, and sequences without repetition. */
module Sequences {

  function Last<T>(s: seq<T>): T
    requires s != []
  {
    s[|s| - 1]
  }

  function Init<T>(s: seq<T>): seq<T>
    requires s != []
  {
    s[..|s| - 1]
  }

  lemma Assoc<T>(a: seq<T>, b: seq<T>, c: seq<T>)
    ensures (a + b) + c == a + (b + c)
  {
  }

  lemma SplitAt<T>(a: seq<T>, b: seq<T>)
    ensures (a + b)[..|a|] == a && (a + b)[|a|..] == b
  {
  }

  lemma Snoc<T>(s: seq<T>, x: T)
    ensures Init(s + [x]) == s && Last(s + [x]) == x
  {
  }

  lemma ConcatInit<T>(s: seq<T>, t: seq<T>)
    requires t != []
    ensures Init(s + t) == s + Init(t) && Last(s + t) == Last(t)
  {
  }

  lemma InitMembers<T>(s: seq<T>)
    requires s != []
    ensures forall x {:trigger x in Init(s)} {:trigger x in s} :: x in s <==> x in Init(s) || x == Last(s)
  {
    assert s == Init(s) + [Last(s)];
  }

  ghost predicate Distinct<T>(s: seq<T>) {
    forall i, j | 0 <= i < j < |s| :: s[i] != s[j]
  }

  ghost function Without<T>(s: seq<T>, i: nat): seq<T>
    requires i < |s|
  {
    s[..i] + s[i + 1..]
  }

  lemma WithoutAt<T>(s: seq<T>, i: nat)
    requires i < |s|
    ensures |Without(s, i)| == |s| - 1
    ensures forall j | 0 <= j < |s| - 1 :: Without(s, i)[j] == s[if j < i then j else j + 1]
    ensures Distinct(s) ==> Distinct(Without(s, i))
  {
  }
}
