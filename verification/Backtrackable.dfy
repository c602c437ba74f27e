/** Linked lists that can be concatenated, and a backtracker that undoes concatenations when it is next asked. */
module Backtrackable {
  import opened Options
  import opened Sequences

  // ---- what concatenations mean

  // A list is concatenated to another.
  datatype Merge<L> = Merge(into: L, other: L)

  // x and what has been concatenated to it, in order.
  ghost function Group<L>(ms: seq<Merge<L>>, x: L): (r: seq<L>)
    ensures r != [] && r[0] == x
  {
    if ms == [] then [x]
    else if x == Last(ms).into then Group(Init(ms), x) + Group(Init(ms), Last(ms).other)
    else Group(Init(ms), x)
  }

  // No list has been concatenated to twice, so that x is at the front of its group.
  ghost predicate IsFront<L>(ms: seq<Merge<L>>, x: L) {
    forall m | m in ms :: m.other != x
  }

  // Only lists that are at the front of different groups are concatenated.
  ghost predicate Proper<L>(ms: seq<Merge<L>>) {
    ms == [] ||
    (Proper(Init(ms)) && IsFront(Init(ms), Last(ms).into) && IsFront(Init(ms), Last(ms).other) &&
     Last(ms).into != Last(ms).other)
  }

  // x and what comes behind it in the group it is in.
  ghost function Rest<L>(ms: seq<Merge<L>>, x: L): (r: seq<L>)
    ensures r != [] && r[0] == x
  {
    if ms == [] then [x]
    else
      var r := Rest(Init(ms), x);
      if Last(r) == Last(Group(Init(ms), Last(ms).into)) then r + Group(Init(ms), Last(ms).other) else r
  }

  // The list that comes just before x in its group.
  ghost function Before<L>(ms: seq<Merge<L>>, x: L): Option<L> {
    if ms == [] then None
    else if x == Last(ms).other then Some(Last(Group(Init(ms), Last(ms).into)))
    else Before(Init(ms), x)
  }

  lemma FrontInit<L>(ms: seq<Merge<L>>, x: L)
    requires ms != []
    ensures IsFront(ms, x) <==> IsFront(Init(ms), x) && x != Last(ms).other
  {
    InitMembers(ms);
  }

  lemma {:induction false} LastsDiffer<L>(ms: seq<Merge<L>>, x: L, y: L)
    requires Proper(ms) && IsFront(ms, x) && IsFront(ms, y) && x != y
    ensures Last(Group(ms, x)) != Last(Group(ms, y))
  {
    if ms != [] {
      FrontInit(ms, x);
      FrontInit(ms, y);
      var m := Last(ms);
      LastsDiffer(Init(ms), if x == m.into then m.other else x, if y == m.into then m.other else y);
    }
  }

  // At the front of a group nothing of the group is missing.
  lemma {:induction false} RestOfFront<L>(ms: seq<Merge<L>>, x: L)
    requires Proper(ms) && IsFront(ms, x)
    ensures Rest(ms, x) == Group(ms, x)
  {
    if ms != [] {
      FrontInit(ms, x);
      RestOfFront(Init(ms), x);
      if x != Last(ms).into {
        LastsDiffer(Init(ms), x, Last(ms).into);
      }
    }
  }

  lemma {:induction false} RestOfLast<L>(ms: seq<Merge<L>>, x: L)
    requires Proper(ms)
    ensures Rest(ms, Last(Rest(ms, x))) == [Last(Rest(ms, x))]
  {
    if ms != [] {
      var before, m := Init(ms), Last(ms);
      RestOfLast(before, x);
      RestOfLast(before, m.other);
      RestOfFront(before, m.other);
      LastsDiffer(before, m.into, m.other);
    }
  }

  lemma {:induction false} RestOfNext<L>(ms: seq<Merge<L>>, x: L)
    requires Proper(ms) && |Rest(ms, x)| > 1
    ensures Rest(ms, Rest(ms, x)[1]) == Rest(ms, x)[1..]
  {
    var before, m := Init(ms), Last(ms);
    var r := Rest(before, x);
    if |r| > 1 {
      RestOfNext(before, x);
    } else {
      RestOfFront(before, m.other);
      LastsDiffer(before, m.into, m.other);
      assert Rest(ms, x)[1..] == Group(before, m.other);
    }
  }

  lemma {:induction false} BeforeFront<L>(ms: seq<Merge<L>>, x: L)
    ensures Before(ms, x) == None <==> IsFront(ms, x)
  {
    if ms != [] {
      FrontInit(ms, x);
      BeforeFront(Init(ms), x);
    }
  }

  // The list before y is the one that y comes next to.
  lemma {:induction false} BeforeIffNext<L>(ms: seq<Merge<L>>, x: L, y: L)
    requires Proper(ms)
    ensures Before(ms, y) == Some(x) <==> |Rest(ms, x)| > 1 && Rest(ms, x)[1] == y
  {
    if ms != [] {
      var before, m := Init(ms), Last(ms);
      BeforeIffNext(before, x, y);
      BeforeFront(before, m.other);
      RestOfFront(before, m.into);
      RestOfLast(before, m.into);
    }
  }

  ghost function Next<L>(ms: seq<Merge<L>>, x: L): Option<L> {
    if |Rest(ms, x)| > 1 then Some(Rest(ms, x)[1]) else None
  }

  lemma Merged<L>(ms: seq<Merge<L>>, m: Merge<L>, x: L)
    ensures Group(ms + [m], x) == if x == m.into then Group(ms, x) + Group(ms, m.other) else Group(ms, x)
    ensures Rest(ms + [m], x) ==
      if Last(Rest(ms, x)) == Last(Group(ms, m.into)) then Rest(ms, x) + Group(ms, m.other) else Rest(ms, x)
    ensures Before(ms + [m], x) == if x == m.other then Some(Last(Group(ms, m.into))) else Before(ms, x)
    ensures Proper(ms + [m]) <==> Proper(ms) && IsFront(ms, m.into) && IsFront(ms, m.other) && m.into != m.other
  {
    Snoc(ms, m);
  }

  // One more concatenation changes what comes next to the last list of the group in front, and nothing else.
  lemma MergeNext<L>(ms: seq<Merge<L>>, m: Merge<L>, x: L)
    requires Proper(ms + [m])
    ensures Next(ms + [m], x) == if x == Last(Group(ms, m.into)) then Some(m.other) else Next(ms, x)
    ensures Next(ms, Last(Group(ms, m.into))) == None && Before(ms, m.other) == None && Proper(ms)
    ensures Before(ms + [m], x) == if x == m.other then Some(Last(Group(ms, m.into))) else Before(ms, x)
    ensures Last(Group(ms + [m], x)) == Last(Group(ms, if x == m.into then m.other else x))
  {
    Merged(ms, m, x);
    SecondOf(Rest(ms, x), Group(ms, m.other));
    ConcatInit(Group(ms, m.into), Group(ms, m.other));
    RestOfFront(ms, m.into);
    RestOfLast(ms, m.into);
    BeforeFront(ms, m.other);
    if |Rest(ms, x)| == 1 {
      assert Rest(ms, x) == [x];
    }
  }

  lemma SecondOf<L>(r: seq<L>, more: seq<L>)
    requires r != [] && more != []
    ensures |r + more| > 1 && (r + more)[1] == if |r| > 1 then r[1] else more[0]
  {
  }

  // Each list is in the group of some front, and what comes behind it there is its rest.
  lemma {:induction false} InGroup<L>(ms: seq<Merge<L>>, x: L) returns (front: L, first: seq<L>)
    requires Proper(ms)
    ensures IsFront(ms, front) && Group(ms, front) == first + Rest(ms, x)
  {
    if ms == [] {
      front, first := x, [];
    } else {
      front, first := InGroup(Init(ms), x);
      assert ms == Init(ms) + [Last(ms)];
      front, first := InMerged(Init(ms), Last(ms), x, front, first);
    }
  }

  lemma InMerged<L>(ms: seq<Merge<L>>, m: Merge<L>, x: L, front: L, first: seq<L>) returns (front': L, first': seq<L>)
    requires Proper(ms + [m]) && IsFront(ms, front) && Group(ms, front) == first + Rest(ms, x)
    ensures IsFront(ms + [m], front') && Group(ms + [m], front') == first' + Rest(ms + [m], x)
  {
    Merged(ms, m, x);
    ConcatInit(first, Rest(ms, x));
    front', first' := front, first;
    if front == m.other {
      LastsDiffer(ms, m.into, m.other);
      front', first' := m.into, Group(ms, m.into) + first;
      Assoc(Group(ms, m.into), first, Rest(ms, x));
    } else if front == m.into {
      Assoc(first, Rest(ms, x), Group(ms, m.other));
    } else {
      LastsDiffer(ms, front, m.into);
    }
    Merged(ms, m, front');
  }

  lemma {:induction false} RestInGroup<L>(ms: seq<Merge<L>>, front: L, i: nat)
    requires Proper(ms) && IsFront(ms, front) && i < |Group(ms, front)|
    ensures Rest(ms, Group(ms, front)[i]) == Group(ms, front)[i..]
  {
    if i == 0 {
      RestOfFront(ms, front);
    } else {
      RestInGroup(ms, front, i - 1);
      RestOfNext(ms, Group(ms, front)[i - 1]);
    }
  }

  // Each list is in one group only, and there once.
  lemma GroupsDisjoint<L>(ms: seq<Merge<L>>, x: L, y: L, i: nat, j: nat)
    requires Proper(ms) && IsFront(ms, x) && IsFront(ms, y) && i < |Group(ms, x)| && j < |Group(ms, y)|
    requires Group(ms, x)[i] == Group(ms, y)[j]
    ensures x == y && i == j
  {
    RestInGroup(ms, x, i);
    RestInGroup(ms, y, j);
    assert Group(ms, x)[i..] == Group(ms, y)[j..];
    if x != y {
      LastsDiffer(ms, x, y);
    }
  }

  lemma {:induction false} ProperPrefix<L>(ms: seq<Merge<L>>, n: nat)
    requires Proper(ms) && n <= |ms|
    ensures Proper(ms[..n])
  {
    if n == |ms| {
      assert ms[..n] == ms;
    } else {
      ProperPrefix(Init(ms), n);
      assert Init(ms)[..n] == ms[..n];
    }
  }

  // The elements of lists, one after the other.
  ghost function Flat<L, T>(elements: map<L, seq<T>>, ls: seq<L>): seq<T> {
    if ls == [] then [] else (if ls[0] in elements then elements[ls[0]] else []) + Flat(elements, ls[1..])
  }

  lemma FlatJoined<L, T>(elements: map<L, seq<T>>, ls: seq<L>, more: seq<L>)
    ensures Flat(elements, ls + more) == Flat(elements, ls) + Flat(elements, more)
  {
    if ls == [] {
      assert ls + more == more;
    } else {
      assert (ls + more)[1..] == ls[1..] + more;
      FlatJoined(elements, ls[1..], more);
    }
  }

  // Concatenating appends the elements of one group to those of another, and the rest stay as they are.
  lemma ConcatMeans<L, T>(elements: map<L, seq<T>>, ms: seq<Merge<L>>, m: Merge<L>, x: L)
    requires Proper(ms + [m]) && IsFront(ms + [m], x)
    ensures Flat(elements, Group(ms + [m], x)) ==
      Flat(elements, Group(ms, x)) + if x == m.into then Flat(elements, Group(ms, m.other)) else []
  {
    Merged(ms, m, x);
    FlatJoined(elements, Group(ms, m.into), Group(ms, m.other));
  }

  lemma MembersOf<L>(ms: seq<Merge<L>>, lists: set<L>, x: L)
    requires x in lists && forall m | m in ms :: m.into in lists && m.other in lists
    ensures forall y | y in Group(ms, x) :: y in lists
    ensures forall y | y in Rest(ms, x) :: y in lists
    ensures forall y | Before(ms, x) == Some(y) :: y in lists
  {
    if ms != [] {
      InitMembers(ms);
      MembersOf(Init(ms), lists, x);
      MembersOf(Init(ms), lists, Last(ms).into);
      MembersOf(Init(ms), lists, Last(ms).other);
    }
  }

  lemma {:induction false} NewList<L>(ms: seq<Merge<L>>, lists: set<L>, x: L)
    requires x !in lists && forall m | m in ms :: m.into in lists && m.other in lists
    ensures Group(ms, x) == [x] && Next(ms, x) == None && Before(ms, x) == None
  {
    if ms != [] {
      InitMembers(ms);
      NewList(Init(ms), lists, x);
      MembersOf(Init(ms), lists, Last(ms).into);
    }
  }

  lemma MoveFirst<T>(s: seq<T>, d: T, rest: seq<T>, rest': seq<T>)
    requires s != [] && Last(s) == d && rest == [d] + rest'
    ensures s + rest' == Init(s) + rest
  {
  }

  // ---- the lists on the heap

  // A node of the list owner; age counts the elements that were appended before.
  class ListNode<T(0)> {
    var data: T
    var next: ListNode?<T>
    var empty: bool
    ghost var owner: List?<T>
    ghost const age: nat

    constructor (t: T, n: ListNode?<T>, ghost owner: List<T>, ghost age: nat)
      ensures data == t && next == n && !empty && this.owner == owner && this.age == age
    {
      data, next, empty := t, n, false;
      this.owner, this.age := owner, age;
    }

    // The node that a list has before anything is appended.
    constructor Empty()
      ensures next == null && empty && owner == null && age == 0
    {
      next, empty, owner, age := null, true, null, 0;
    }
  }

  class List<T(0)> {
    var head: ListNode<T>
    var tail: ListNode<T>
    var ptr_to_head: ListNode?<T>
    var uninitialized: bool
    const bck: Backtracker<T>

    // Its own nodes, from the oldest, which stays the last one, to the head.
    ghost const base: ListNode<T>
    ghost var nodes: seq<ListNode<T>>

    constructor (b: Backtracker<T>)
      requires b.Valid()
      modifies b`elements, b`all
      ensures bck == b && b.Valid() && this !in old(b.elements) && b.elements == old(b.elements)[this := []]
      ensures b.Merges() == old(b.Merges()) && b.Saved() == old(b.Saved()) && IsFront(b.Merges(), this)
    {
      var node := new ListNode.Empty();
      bck, head, tail, base, nodes := b, node, node, node, [node];
      ptr_to_head, uninitialized := null, true;
      new;
      node.owner := this;
      b.AddList(this);
    }

    method Append(d: T)
      requires bck.Valid() && this in bck.elements
      modifies this, bck, bck.elements.Keys, bck.all
      ensures bck.Valid() && bck.elements == old(bck.elements)[this := [d] + old(bck.elements[this])]
      ensures bck.undo_stack == bck.Merges() == old(bck.Merges()) && bck.Saved() == old(bck.Saved())
    {
      bck.CheckConsistency();
      ghost var ms := bck.undo_stack;
      AddFirst(d, ms);
      Relink(ms);
    }

    method AddFirst(d: T, ghost ms: seq<Merge<List<T>>>)
      requires bck.Made(ms) && this in bck.elements
      modifies this`head, this`nodes, this`uninitialized, bck`elements, bck`all, bck.all`data, bck.all`empty
      ensures bck.elements == old(bck.elements)[this := [d] + old(bck.elements[this])]
      ensures bck.MadeBut(ms, this) && fresh(bck.all - old(bck.all))
    {
      assert bck.Whole(this) && bck.OwnNode(this, |nodes| - 1);
      if uninitialized {
        Fill(d);
      } else {
        Prepend(d);
      }
      forall x | x in bck.elements
        ensures bck.JoinedBut(ms, this, x)
      {
        assert old(bck.Joined(ms, x));
      }
    }

    // The first element goes into the node that is there.
    method Fill(d: T)
      requires this in bck.elements && uninitialized
      requires forall x {:trigger bck.Whole(x)} | x in bck.elements :: bck.Whole(x)
      modifies this`uninitialized, head`data, head`empty, bck`elements
      ensures bck.elements == old(bck.elements)[this := [d] + old(bck.elements[this])]
      ensures forall x {:trigger bck.Whole(x)} | x in bck.elements :: bck.Whole(x)
    {
      assert bck.Whole(this) && bck.OwnNode(this, 0);
      head.data, head.empty := d, false;
      uninitialized := false;
      bck.elements := bck.elements[this := [d] + bck.elements[this]];
      assert bck.OwnNode(this, 0) && bck.Whole(this);
      bck.OthersWhole(this);
    }

    // Other elements go before the head.
    method Prepend(d: T)
      requires this in bck.elements && !uninitialized
      requires forall x {:trigger bck.Whole(x)} | x in bck.elements :: bck.Whole(x)
      modifies this`head, this`nodes, bck`elements, bck`all
      ensures bck.elements == old(bck.elements)[this := [d] + old(bck.elements[this])]
      ensures old(bck.all) <= bck.all && fresh(bck.all - old(bck.all))
      ensures forall x {:trigger bck.Whole(x)} | x in bck.elements :: bck.Whole(x)
    {
      assert bck.Whole(this);
      var new_node := new ListNode(d, head, this, |nodes|);
      head := new_node;
      nodes, bck.all := nodes + [new_node], bck.all + {new_node};
      bck.elements := bck.elements[this := [d] + bck.elements[this]];
      bck.PrependedWhole(this);
      bck.OthersWhole(this);
    }

    // It is never true: a list has its first node before anything is appended.
    method Empty() returns (empty: bool)
      requires bck.Valid() && this in bck.elements
      modifies bck`undo_stack, bck`curr_level, bck.elements.Keys`tail, bck.elements.Keys`ptr_to_head, bck.all`next
      ensures bck.Valid() && bck.undo_stack == bck.Merges() == old(bck.Merges()) && bck.Saved() == old(bck.Saved())
      ensures !empty
    {
      bck.CheckConsistency();
      var first: ListNode?<T> := head;
      empty := first == null;
    }

    // The first element of the list, from where the iteration goes on to the lists behind it.
    method Begin() returns (pointee: ListNode?<T>)
      requires bck.Valid() && this in bck.elements
      modifies bck`undo_stack, bck`curr_level, bck.elements.Keys`tail, bck.elements.Keys`ptr_to_head, bck.all`next
      ensures bck.Valid() && bck.Merges() == old(bck.Merges()) && bck.Saved() == old(bck.Saved())
      ensures bck.undo_stack == bck.Merges() && bck.IsPosition(pointee)
      ensures bck.Remaining(pointee) == Flat(bck.elements, Rest(bck.Merges(), this))
    {
      bck.CheckConsistency();
      bck.HeadRemains(this);
      pointee := bck.SkipEmpty(head);
    }

    // The list before this one, if there is one, goes on with the head of this one.
    method Relink(ghost ms: seq<Merge<List<T>>>)
      requires bck.MadeBut(ms, this) && this in bck.elements
      modifies bck.all`next
      ensures bck.Made(ms)
    {
      assert bck.JoinedBut(ms, this, this);
      if ptr_to_head != null {
        bck.BeforeKnown(ms, this);
        assert bck.JoinedBut(ms, this, Before(ms, this).value);
        ptr_to_head.next := head;
      }
      bck.AllWhole();
      forall x | x in bck.elements
        ensures bck.Joined(ms, x)
      {
        BeforeIffNext(ms, x, this);
        assert old(bck.JoinedBut(ms, this, x));
      }
    }

    method Concat(other: List<T>)
      requires bck.Valid() && this in bck.elements && other in bck.elements && this != other
      requires IsFront(bck.Merges(), this) && IsFront(bck.Merges(), other)
      modifies bck, bck.elements.Keys, bck.all
      ensures bck.Valid() && bck.elements == old(bck.elements) && bck.Saved() == old(bck.Saved())
      ensures bck.Merges() == old(bck.Merges()) + [Merge(this, other)]
      ensures bck.Contents(this) == old(bck.Contents(this) + bck.Contents(other))
    {
      bck.CheckConsistency();
      ghost var ms := bck.undo_stack;
      bck.NotifyConcat(this, other);
      Join(other, ms);
      assert Merge(this, other) in ms + [Merge(this, other)];
      ConcatMeans(bck.elements, ms, Merge(this, other), this);
    }

    method Join(other: List<T>, ghost ms: seq<Merge<List<T>>>)
      requires bck.Made(ms) && this in bck.elements && other in bck.elements && this != other
      requires IsFront(ms, this) && IsFront(ms, other)
      modifies this`tail, other`ptr_to_head, bck.all`next
      ensures bck.Made(ms + [Merge(this, other)])
    {
      ghost var m := Merge(this, other);
      bck.FrontsReady(ms, m);
      Attach(other);
      forall x | x in bck.elements
        ensures bck.Joined(ms + [m], x)
      {
        MergeNext(ms, m, x);
        assert old(bck.Joined(ms, x));
      }
    }

    method Attach(other: List<T>)
      requires tail in bck.all && tail.next == null && tail.age == 0 && other.ptr_to_head == null && this != other
      requires forall x {:trigger bck.Whole(x)} | x in bck.elements :: bck.Whole(x)
      modifies this`tail, other`ptr_to_head, bck.all`next
      ensures tail == old(other.tail) && other.ptr_to_head == old(tail)
      ensures forall n | n in bck.all :: n.next == if n == old(tail) then other.head else old(n.next)
      ensures forall x {:trigger bck.Whole(x)} | x in bck.elements :: bck.Whole(x)
    {
      assert tail.next == null;
      tail.next := other.head;
      assert other.ptr_to_head == null;
      other.ptr_to_head := tail;
      tail := other.tail;
      bck.AllWhole();
    }

    // Undoes the last concatenation.
    method Unconcat(other: List<T>, ghost ms: seq<Merge<List<T>>>)
      requires bck.Made(ms + [Merge(this, other)]) && this in bck.elements && other in bck.elements
      modifies this`tail, other`ptr_to_head, bck.all`next
      ensures bck.Made(ms)
    {
      ghost var m := Merge(this, other);
      MergeNext(ms, m, other);
      bck.LastKnown(ms, m);
      assert bck.Joined(ms + [m], other) && bck.Joined(ms + [m], Last(Group(ms, this)));
      Detach(other);
      forall x | x in bck.elements
        ensures bck.Joined(ms, x)
      {
        MergeNext(ms, m, x);
        assert old(bck.Joined(ms + [m], x));
      }
    }
  
    method Detach(other: List<T>)
      requires other.ptr_to_head != null && other.ptr_to_head in bck.all && other.ptr_to_head.age == 0
      requires forall x {:trigger bck.Whole(x)} | x in bck.elements :: bck.Whole(x)
      modifies this`tail, other`ptr_to_head, bck.all`next
      ensures tail == old(other.ptr_to_head) && other.ptr_to_head == null
      ensures forall n | n in bck.all :: n.next == if n == old(other.ptr_to_head) then null else old(n.next)
      ensures forall x {:trigger bck.Whole(x)} | x in bck.elements :: bck.Whole(x)
    {
      assert other.ptr_to_head != null;
      other.ptr_to_head.next := null;
      tail := other.ptr_to_head;
      other.ptr_to_head := null;
      bck.AllWhole();
    }
  }

  class Backtracker<T(0)> {
    // The concatenations that have been made and not yet been undone.
    var undo_stack: seq<Merge<List<T>>>
    var curr_level: int

    // A context-dependent number, with the values saved at the pushes of the context.
    var pop_level: int
    var trail: seq<int>

    // The lists with the elements that were appended to them, the last one first, and the nodes of all lists.
    ghost var elements: map<List<T>, seq<T>>
    ghost var all: set<ListNode<T>>

    // ---- what the lists are to hold

    // The concatenations in force.
    ghost function Merges(): seq<Merge<List<T>>>
      requires 0 <= pop_level <= |undo_stack|
      reads this`undo_stack, this`pop_level
    {
      undo_stack[..pop_level]
    }

    // Those in force at the pushes of the context.
    ghost function Saved(): seq<seq<Merge<List<T>>>>
      requires forall i | 0 <= i < |trail| :: 0 <= trail[i] <= |undo_stack|
      reads this`undo_stack, this`trail
    {
      var (levels, ms) := (trail, undo_stack);
      seq(|levels|, i requires 0 <= i < |levels| && 0 <= levels[i] <= |ms| => ms[..levels[i]])
    }

    // The elements of a list and of those concatenated to it.
    ghost function Contents(x: List<T>): seq<T>
      requires 0 <= pop_level <= |undo_stack|
      reads this`undo_stack, this`pop_level, this`elements
    {
      Flat(elements, Group(Merges(), x))
    }

    // ---- the nodes of each list

    ghost predicate Own(x: List<T>)
      requires x in elements
      reads this`elements, this`all, x, x.nodes
    {
      && x.bck == this && x.nodes != [] && x.nodes[0] == x.base && x.head == x.nodes[|x.nodes| - 1]
      && |x.nodes| == (if x.uninitialized then 1 else |elements[x]|) && (x.uninitialized ==> elements[x] == [])
      && forall k {:trigger OwnNode(x, k)} | 0 <= k < |x.nodes| :: OwnNode(x, k)
    }

    ghost predicate OwnNode(x: List<T>, k: nat)
      requires x in elements && k < |x.nodes|
      reads this`elements, this`all, x, x.nodes
    {
      var n := x.nodes[k];
      && n in all && n.owner == x && n.age == k && n.empty == x.uninitialized
      && (k > 0 ==> n.next == x.nodes[k - 1])
      && (k < |elements[x]| ==> n.data == elements[x][|elements[x]| - 1 - k])
    }

    ghost predicate Whole(x: List<T>)
      requires x in elements
      reads this`elements, this`all, elements.Keys, all
    {
      (forall n | n in x.nodes :: n in all) && Own(x)
    }

    twostate predicate SameNode(n: ListNode<T>)
      reads n
    {
      unchanged(n`data, n`empty, n`owner) && (n.age > 0 ==> unchanged(n`next))
    }

    twostate lemma StaysWhole(x: List<T>)
      requires x in old(elements) && x in elements && elements[x] == old(elements[x]) && old(Whole(x))
      requires unchanged(x`head, x`nodes, x`uninitialized) && old(all) <= all
      requires forall n {:trigger SameNode(n)} | n in old(all) && old(n.owner) == x :: SameNode(n)
      ensures Whole(x)
    {
      forall k | 0 <= k < |x.nodes|
        ensures OwnNode(x, k)
      {
        assert old(OwnNode(x, k)) && SameNode(x.nodes[k]);
      }
    }

    twostate lemma PrependedWhole(x: List<T>)
      requires x in old(elements) && old(Whole(x)) && !x.uninitialized && unchanged(x`uninitialized)
      requires elements == old(elements)[x := [x.head.data] + old(elements[x])] && old(all) <= all
      requires |x.nodes| == |old(x.nodes)| + 1 && x.nodes[..|x.nodes| - 1] == old(x.nodes)
      requires x.head == x.nodes[|x.nodes| - 1] && x.head in all && x.head.next == old(x.head)
      requires !x.head.empty && x.head.owner == x && x.head.age == |x.nodes| - 1
      requires forall n | n in old(x.nodes) :: unchanged(n)
      ensures Whole(x)
    {
      forall k | 0 <= k < |x.nodes|
        ensures OwnNode(x, k)
      {
        if k < |old(x.nodes)| {
          assert old(OwnNode(x, k)) && x.nodes[k] == old(x.nodes)[k] && x.nodes[k] in old(x.nodes);
        }
        assert k > 0 ==> x.nodes[k - 1] == old(x.nodes)[k - 1];
      }
      assert x.nodes[0] == old(x.nodes)[0];
      forall n | n in x.nodes
        ensures n in all
      {
        assert n in old(x.nodes) || n == x.head;
      }
    }

    twostate lemma OthersWhole(y: List<T>)
      requires old(elements.Keys) <= elements.Keys == old(elements.Keys) + {y} && old(all) <= all
      requires forall x {:trigger old(Whole(x))} | x in old(elements) :: old(Whole(x))
      requires forall x | x in elements && x != y ::
        elements[x] == old(elements[x]) && unchanged(x`head, x`nodes, x`uninitialized)
      requires forall n {:trigger SameNode(n)} | n in old(all) && old(n.owner) != y :: SameNode(n)
      ensures forall x {:trigger Whole(x)} | x in elements && x != y :: Whole(x)
    {
      forall x | x in elements && x != y
        ensures Whole(x)
      {
        assert old(Whole(x));
        StaysWhole(x);
      }
    }

    twostate lemma AllWhole()
      requires elements == old(elements) && all == old(all)
      requires forall x {:trigger old(Whole(x))} | x in old(elements) :: old(Whole(x))
      requires forall x | x in elements :: unchanged(x`head, x`nodes, x`uninitialized)
      requires forall n {:trigger SameNode(n)} | n in all :: SameNode(n)
      ensures forall x {:trigger Whole(x)} | x in elements :: Whole(x)
    {
      forall x | x in elements
        ensures Whole(x)
      {
        assert old(Whole(x));
        StaysWhole(x);
      }
    }

    // ---- how the lists are joined when the concatenations ms have been made

    ghost function HeadOf(x: Option<List<T>>): ListNode?<T>
      reads this`elements, elements.Keys
    {
      if x.Some? && x.value in elements then x.value.head else null
    }

    ghost function BaseOf(x: Option<List<T>>): ListNode?<T> {
      if x.Some? then x.value.base else null
    }

    // What comes before the head of y does not matter.
    ghost predicate JoinedBut(ms: seq<Merge<List<T>>>, y: List<T>, x: List<T>)
      requires x in elements
      reads this`elements, this`all, elements.Keys, all
    {
      && x.base in all && x.base.owner == x && x.base.age == 0
      && x.tail == BaseOf(Some(Last(Group(ms, x)))) && x.ptr_to_head == BaseOf(Before(ms, x))
      && (Next(ms, x) == Some(y) || x.base.next == HeadOf(Next(ms, x)))
    }

    ghost predicate Joined(ms: seq<Merge<List<T>>>, x: List<T>)
      requires x in elements
      reads this`elements, this`all, elements.Keys, all
    {
      && x.base in all && x.base.owner == x && x.base.age == 0
      && x.tail == BaseOf(Some(Last(Group(ms, x)))) && x.ptr_to_head == BaseOf(Before(ms, x))
      && x.base.next == HeadOf(Next(ms, x))
    }

    ghost predicate Known(ms: seq<Merge<List<T>>>)
      reads this`elements
    {
      Proper(ms) && forall m | m in ms :: m.into in elements && m.other in elements
    }

    ghost predicate Made(ms: seq<Merge<List<T>>>)
      reads this`elements, this`all, elements.Keys, all
    {
      && Known(ms)
      && (forall x {:trigger Whole(x)} | x in elements :: Whole(x))
      && (forall x {:trigger Joined(ms, x)} | x in elements :: Joined(ms, x))
    }

    ghost predicate MadeBut(ms: seq<Merge<List<T>>>, y: List<T>)
      reads this`elements, this`all, elements.Keys, all
    {
      && Known(ms)
      && (forall x {:trigger Whole(x)} | x in elements :: Whole(x))
      && (forall x {:trigger JoinedBut(ms, y, x)} | x in elements :: JoinedBut(ms, y, x))
    }

    ghost predicate Valid()
      reads this, elements.Keys, all
    {
      && Made(undo_stack) && curr_level == |undo_stack| && 0 <= pop_level <= curr_level
      && (forall i | 0 <= i < |trail| :: 0 <= trail[i] <= pop_level)
      && (forall i, j | 0 <= i < j < |trail| :: trail[i] <= trail[j])
    }

    // The list that another one is concatenated to is one of those on the heap.
    lemma LastKnown(ms: seq<Merge<List<T>>>, m: Merge<List<T>>)
      requires m.into in elements && (Known(ms) || Known(ms + [m]))
      ensures Last(Group(ms, m.into)) in elements
    {
      assert forall e | e in ms :: e in ms + [m];
      MembersOf(ms, elements.Keys, m.into);
    }

    // No list is behind the last one of a group, and none before its front.
    lemma FrontsReady(ms: seq<Merge<List<T>>>, m: Merge<List<T>>)
      requires Made(ms) && m.into in elements && m.other in elements && m.into != m.other
      requires IsFront(ms, m.into) && IsFront(ms, m.other)
      ensures var last := Last(Group(ms, m.into));
        last in elements && m.into.tail == last.base && last.base in all && last.base.owner == last
        && last.base.age == 0 && last.base.next == null
      ensures m.other.ptr_to_head == null && m.other.tail == Last(Group(ms, m.other)).base && Known(ms + [m])
    {
      Merged(ms, m, m.into);
      MergeNext(ms, m, m.into);
      LastKnown(ms, m);
      assert Joined(ms, m.into) && Joined(ms, m.other) && Joined(ms, Last(Group(ms, m.into)));
    }

    lemma BeforeKnown(ms: seq<Merge<List<T>>>, x: List<T>)
      requires x in elements && Known(ms) && Before(ms, x).Some?
      ensures Before(ms, x).value in elements
    {
      MembersOf(ms, elements.Keys, x);
    }

    // Nothing has changed but for a new list.
    twostate lemma OthersJoined(y: List<T>)
      requires old(elements.Keys) <= elements.Keys == old(elements.Keys) + {y} && old(all) <= all
      requires old(Made(undo_stack))
      requires forall x | x in old(elements) :: unchanged(x`head, x`tail, x`ptr_to_head)
      requires forall n | n in old(all) :: unchanged(n`next, n`owner)
      ensures forall x {:trigger Joined(old(undo_stack), x)} | x in elements && x != y :: Joined(old(undo_stack), x)
    {
      forall x | x in elements && x != y
        ensures Joined(old(undo_stack), x)
      {
        assert old(Joined(undo_stack, x));
        MembersOf(old(undo_stack), old(elements.Keys), x);
      }
    }

    // What concat asserts of the other list is that it is at the front of its group.
    lemma AssertedIffFront(x: List<T>)
      requires Made(undo_stack) && x in elements
      ensures x.ptr_to_head == null <==> IsFront(undo_stack, x)
    {
      assert Joined(undo_stack, x);
      BeforeFront(undo_stack, x);
    }

    // A new list is in no group but its own.
    ghost method AddList(x: List<T>)
      requires Valid() && x !in elements && x.base !in all
      requires x.bck == this && x.nodes == [x.base] && x.head == x.tail == x.base && x.ptr_to_head == null
      requires x.uninitialized && x.base.next == null && x.base.empty && x.base.owner == x && x.base.age == 0
      modifies this`elements, this`all
      ensures Valid() && elements == old(elements)[x := []] && Merges() == old(Merges()) && Saved() == old(Saved())
      ensures IsFront(Merges(), x)
    {
      elements, all := elements[x := []], all + {x.base};
      NewList(undo_stack, old(elements.Keys), x);
      assert OwnNode(x, 0);
      assert Whole(x) && elements.Keys == old(elements.Keys) + {x};
      OthersWhole(x);
      OthersJoined(x);
    }

    // ---- concatenating and undoing

    method NotifyConcat(a: List<T>, b: List<T>)
      requires Valid() && undo_stack == Merges()
      modifies this`undo_stack, this`curr_level, this`pop_level
      ensures undo_stack == old(undo_stack) + [Merge(a, b)] && curr_level == |undo_stack| == pop_level
      ensures Saved() == old(Saved())
    {
      curr_level := curr_level + 1;
      pop_level := pop_level + 1;
      undo_stack := undo_stack + [Merge(a, b)];
      assert forall i | 0 <= i < |trail| :: Saved()[i] == old(Saved()[i]);
    }

    // Undoes the concatenations that are no longer in force.
    method CheckConsistency()
      requires Valid()
      modifies this`undo_stack, this`curr_level, elements.Keys`tail, elements.Keys`ptr_to_head, all`next
      ensures Valid() && Merges() == old(Merges()) && Saved() == old(Saved())
      ensures undo_stack == Merges()
    {
      if curr_level == pop_level || pop_level == -1 {
        assert undo_stack == Merges();
        return;
      }
      assert curr_level > pop_level;
      while curr_level > pop_level
        invariant pop_level <= curr_level == |undo_stack| <= old(|undo_stack|)
        invariant undo_stack == old(undo_stack)[..curr_level]
        invariant Made(undo_stack)
      {
        curr_level := curr_level - 1;
        UndoLast();
      }
      assert undo_stack == Merges();
      assert forall i | 0 <= i < |trail| :: Saved()[i] == old(Saved()[i]);
    }

    method UndoLast()
      requires Made(undo_stack) && undo_stack != []
      modifies this`undo_stack, elements.Keys`tail, elements.Keys`ptr_to_head, all`next
      ensures undo_stack == old(Init(undo_stack)) && Made(undo_stack)
    {
      ghost var ms, m := Init(undo_stack), Last(undo_stack);
      assert undo_stack == ms + [m] && m in undo_stack;
      assert Whole(m.into);
      var l1, l2 := undo_stack[|undo_stack| - 1].into, undo_stack[|undo_stack| - 1].other;
      l1.Unconcat(l2, ms);
      undo_stack := undo_stack[..|undo_stack| - 1];
    }

    // ---- the context, and runs through the lists

    constructor ()
      ensures Valid() && elements == map[] && Merges() == [] && Saved() == []
    {
      undo_stack, curr_level, pop_level, trail := [], 0, 0, [];
      elements, all := map[], {};
    }

    method ContextPush()
      requires Valid()
      modifies this`trail
      ensures Valid() && Merges() == old(Merges()) && Saved() == old(Saved()) + [old(Merges())]
    {
      trail := trail + [pop_level];
    }

    // What was appended since the push stays, what was concatenated is undone, if only when a list is next used.
    method ContextPop()
      requires Valid() && trail != []
      modifies this`pop_level, this`trail
      ensures Valid() && Saved() + [Merges()] == old(Saved())
    {
      pop_level := trail[|trail| - 1];
      trail := trail[..|trail| - 1];
    }

    // A node of one of the lists, or the end.
    ghost predicate IsNode(n: ListNode?<T>)
      reads this`elements, elements.Keys, n
    {
      n != null ==> n.owner in elements && n.age < |n.owner.nodes| && n.owner.nodes[n.age] == n
    }

    ghost predicate IsPosition(n: ListNode?<T>)
      reads this`elements, elements.Keys, n
    {
      IsNode(n) && (n != null ==> !n.empty)
    }

    // The elements from the node n on.
    ghost function Remaining(n: ListNode?<T>): seq<T>
      reads this`elements, this`undo_stack, n
    {
      if n == null || n.owner !in elements then []
      else OwnFrom(elements[n.owner], n.age) + Flat(elements, Rest(undo_stack, n.owner)[1..])
    }

    ghost function OwnFrom(own: seq<T>, age: nat): seq<T> {
      if age < |own| then own[|own| - 1 - age..] else []
    }

    lemma HeadRemains(x: List<T>)
      requires Made(undo_stack) && x in elements
      ensures IsNode(x.head) && Remaining(x.head) == Flat(elements, Rest(undo_stack, x))
    {
      assert Whole(x) && OwnNode(x, |x.nodes| - 1);
      assert OwnFrom(elements[x], x.head.age) == elements[x];
    }

    // From the last node of a list the run goes on to the next list.
    lemma BaseRemains(x: List<T>)
      requires Made(undo_stack) && x in elements
      ensures IsNode(x.base.next) && Remaining(x.base.next) == Flat(elements, Rest(undo_stack, x)[1..])
      ensures x.base.next != null ==> |Rest(undo_stack, x.base.next.owner)| < |Rest(undo_stack, x)|
    {
      assert Joined(undo_stack, x);
      MembersOf(undo_stack, elements.Keys, x);
      if |Rest(undo_stack, x)| > 1 {
        RestOfNext(undo_stack, x);
        HeadRemains(Rest(undo_stack, x)[1]);
        assert Whole(Rest(undo_stack, x)[1]) && OwnNode(Rest(undo_stack, x)[1], |Rest(undo_stack, x)[1].nodes| - 1);
      }
    }

    lemma EmptyRemains(n: ListNode<T>)
      requires Made(undo_stack) && IsNode(n) && n.empty
      ensures IsNode(n.next) && Remaining(n) == Remaining(n.next)
      ensures n.next != null ==> |Rest(undo_stack, n.next.owner)| < |Rest(undo_stack, n.owner)|
    {
      assert Whole(n.owner) && OwnNode(n.owner, n.age);
      BaseRemains(n.owner);
    }

    method SkipEmpty(n: ListNode?<T>) returns (temp: ListNode?<T>)
      requires Made(undo_stack) && IsNode(n)
      ensures IsPosition(temp) && Remaining(temp) == Remaining(n)
    {
      temp := n;
      while temp != null && temp.empty
        invariant IsNode(temp) && Remaining(temp) == Remaining(n)
        decreases if temp == null then 0 else |Rest(undo_stack, temp.owner)|
      {
        EmptyRemains(temp);
        temp := temp.next;
      }
    }

    lemma NextRemains(n: ListNode<T>)
      requires Made(undo_stack) && IsPosition(n)
      ensures IsNode(n.next) && Remaining(n) == [n.data] + Remaining(n.next)
    {
      var x := n.owner;
      assert Whole(x) && OwnNode(x, n.age);
      OwnFromNext(elements[x], n.age);
      var behind := Flat(elements, Rest(undo_stack, x)[1..]);
      assert Remaining(n) == OwnFrom(elements[x], n.age) + behind;
      if n.age > 0 {
        assert OwnNode(x, n.age - 1);
        Assoc([n.data], OwnFrom(elements[x], n.age - 1), behind);
      } else {
        BaseRemains(x);
        assert OwnFrom(elements[x], 0) == [n.data];
      }
    }

    lemma OwnFromNext(own: seq<T>, age: nat)
      requires age < |own|
      ensures OwnFrom(own, age) == [own[|own| - 1 - age]] + (if age > 0 then OwnFrom(own, age - 1) else [])
    {
    }

    // The iterator goes one element on.
    method Advance(pointee: ListNode<T>) returns (next: ListNode?<T>)
      requires Made(undo_stack) && IsPosition(pointee)
      ensures IsPosition(next) && Remaining(pointee) == [pointee.data] + Remaining(next)
    {
      NextRemains(pointee);
      next := SkipEmpty(pointee.next);
    }

    method RunFrom(pointee: ListNode?<T>) returns (s: seq<T>)
      requires Made(undo_stack) && IsPosition(pointee)
      ensures s == Remaining(pointee)
    {
      var it := pointee;
      s := [];
      ghost var rest := Remaining(it);
      while it != null
        invariant IsPosition(it) && rest == Remaining(it) && s + rest == Remaining(pointee)
        decreases |rest|
      {
        ghost var before, d := s, it.data;
        s := s + [it.data];
        Snoc(before, d);
        it := Advance(it);
        MoveFirst(s, d, rest, Remaining(it));
        rest := Remaining(it);
      }
    }

    // A run through a list sees its elements and those of the lists behind it: all of a group, if it starts in front.
    method Elements(list: List<T>) returns (s: seq<T>)
      requires Valid() && list in elements
      modifies this`undo_stack, this`curr_level, elements.Keys`tail, elements.Keys`ptr_to_head, all`next
      ensures Valid() && Merges() == old(Merges()) && Saved() == old(Saved())
      ensures s == Flat(elements, Rest(Merges(), list))
      ensures IsFront(Merges(), list) ==> s == Contents(list)
    {
      assert Whole(list);
      var it := list.Begin();
      s := RunFrom(it);
      if IsFront(Merges(), list) {
        RestOfFront(Merges(), list);
      }
    }
  }
}
