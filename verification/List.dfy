/** Singly linked lists and sorted lists (lib/list.cc). */
module Lists {
  import opened Sequences

  // ---- what the list operations mean for the sequence of items ----

  /** `s` without its element at `k`. */
  function Without<T>(s: seq<T>, k: nat): seq<T>
    requires k < |s|
  {
    s[..k] + s[k + 1..]
  }

  /** `item` before the first element that compares greater. */
  function InsertSorted<T>(s: seq<T>, item: T, compare: (T, T) -> int): (r: seq<T>)
    ensures |r| == |s| + 1
  {
    if s == [] then [item]
    else if compare(item, s[0]) < 0 then [item] + s
    else [s[0]] + InsertSorted(s[1..], item, compare)
  }

  /** `compare` is a total preorder, as a comparison function is documented to be. */
  ghost predicate IsOrder<T(!new)>(compare: (T, T) -> int)
  {
    && (forall x, y :: compare(x, y) < 0 <==> compare(y, x) > 0)
    && (forall x, y, z :: compare(x, y) <= 0 && compare(y, z) <= 0 ==> compare(x, z) <= 0)
  }

  ghost predicate Sorted<T>(s: seq<T>, compare: (T, T) -> int)
  {
    forall i, j :: 0 <= i < j < |s| ==> compare(s[i], s[j]) <= 0
  }

  /** Where the item went: behind everything that does not compare greater, in front of the first that does. */
  lemma {:induction false} InsertSortedAt<T>(s: seq<T>, item: T, compare: (T, T) -> int, k: nat)
    requires k <= |s|
    requires forall i :: 0 <= i < k ==> compare(item, s[i]) >= 0
    requires k < |s| ==> compare(item, s[k]) < 0
    ensures InsertSorted(s, item, compare) == s[..k] + [item] + s[k..]
  {
    if k > 0 {
      InsertSortedAt(s[1..], item, compare, k - 1);
      ShiftedInsert(s, item, k);
    } else {
      assert s[..0] + [item] + s[0..] == [item] + s;
    }
  }

  lemma ShiftedInsert<T>(s: seq<T>, item: T, k: nat)
    requires 0 < k <= |s|
    ensures [s[0]] + (s[1..][..k - 1] + [item] + s[1..][k - 1..]) == s[..k] + [item] + s[k..]
  {
    assert [s[0]] + s[1..][..k - 1] == s[..k];
    assert s[1..][k - 1..] == s[k..];
  }

  lemma Flip<T(!new)>(compare: (T, T) -> int, x: T, y: T)
    requires IsOrder(compare)
    ensures compare(x, y) < 0 <==> compare(y, x) > 0
  {
  }

  lemma Transitive<T(!new)>(compare: (T, T) -> int, x: T, y: T, z: T)
    requires IsOrder(compare) && compare(x, y) <= 0 && compare(y, z) <= 0
    ensures compare(x, z) <= 0
  {
  }

  /** Inserting keeps the list sorted and is stable: nothing equal to the item is behind it. */
  lemma InsertSortedIsSorted<T(!new)>(s: seq<T>, item: T, compare: (T, T) -> int) returns (k: nat)
    requires IsOrder(compare) && Sorted(s, compare)
    ensures Sorted(InsertSorted(s, item, compare), compare)
    ensures k <= |s| && InsertSorted(s, item, compare) == s[..k] + [item] + s[k..]
    ensures forall i :: 0 <= i < k ==> compare(s[i], item) <= 0
    ensures forall i :: k <= i < |s| ==> compare(item, s[i]) < 0
  {
    hide IsOrder, InsertSorted;
    k := 0;
    while k < |s| && compare(item, s[k]) >= 0
      invariant k <= |s| && forall i :: 0 <= i < k ==> compare(item, s[i]) >= 0
    {
      k := k + 1;
    }
    InsertSortedAt(s, item, compare, k);
    forall i | 0 <= i < k ensures compare(s[i], item) <= 0 {
      Flip(compare, item, s[i]);
      Flip(compare, s[i], item);
    }
    forall i | k <= i < |s| ensures compare(item, s[i]) < 0 {
      if compare(item, s[i]) >= 0 {
        Flip(compare, item, s[i]);
        Flip(compare, item, s[k]);
        assert k != i;
        Transitive(compare, s[k], s[i], item);
      }
    }
    SortedAround(s, item, compare, k);
  }

  lemma SortedAround<T>(s: seq<T>, item: T, compare: (T, T) -> int, k: nat)
    requires Sorted(s, compare) && k <= |s|
    requires forall i :: 0 <= i < k ==> compare(s[i], item) <= 0
    requires forall i :: k <= i < |s| ==> compare(item, s[i]) < 0
    ensures Sorted(s[..k] + [item] + s[k..], compare)
  {
    var r := s[..k] + [item] + s[k..];
    forall i, j | 0 <= i < j < |r| ensures compare(r[i], r[j]) <= 0 {
      var i', j' := if i > k then i - 1 else i, if j > k then j - 1 else j;
      assert i != k ==> r[i] == s[i'];
      assert j != k ==> r[j] == s[j'];
    }
  }

  lemma InsertSortedMembers<T>(s: seq<T>, item: T, compare: (T, T) -> int)
    ensures multiset(InsertSorted(s, item, compare)) == multiset(s) + multiset{item}
  {
    if s == [] {
    } else if compare(item, s[0]) < 0 {
    } else {
      InsertSortedMembers(s[1..], item, compare);
      assert s == [s[0]] + s[1..];
    }
  }

  class ListElement<T> {
    var next: ListElement?<T>
    const item: T

    constructor (item: T)
      ensures this.item == item && next == null
    {
      this.item := item;
      next := null;
    }
  }

  /** Element `i`, or null past either end. */
  ghost function At<T>(nodes: seq<ListElement<T>>, i: int): ListElement?<T>
  {
    if 0 <= i < |nodes| then nodes[i] else null
  }

  ghost function ItemsOf<T>(nodes: seq<ListElement<T>>): (s: seq<T>)
    ensures |s| == |nodes| && forall i :: 0 <= i < |s| ==> s[i] == nodes[i].item
  {
    seq(|nodes|, i requires 0 <= i < |nodes| => nodes[i].item)
  }

  lemma WithoutItem<T>(nodes: seq<ListElement<T>>, k: nat)
    requires k < |nodes| && Distinct(ItemsOf(nodes))
    ensures ItemsOf(Without(nodes, k)) == Without(ItemsOf(nodes), k)
    ensures ItemsOf(nodes)[k] !in ItemsOf(Without(nodes, k))
  {
  }

  /** Where element `i` was before element `k` was taken out. */
  ghost function Back(k: int, i: int): int { if i < k then i else i + 1 }

  lemma WithoutAt<T>(nodes: seq<ListElement<T>>, k: nat, i: int)
    requires k < |nodes| && 0 <= i
    ensures |Without(nodes, k)| == |nodes| - 1
    ensures At(Without(nodes, k), i) == At(nodes, Back(k, i))
    ensures i < |nodes| - 1 ==> Without(nodes, k)[i] == nodes[Back(k, i)]
  {
  }

  lemma AtIs<T>(nodes: seq<ListElement<T>>, i: int)
    ensures At(nodes, i) == null <==> !(0 <= i < |nodes|)
    ensures 0 <= i < |nodes| ==> At(nodes, i) == nodes[i]
  {
  }

  lemma NotSame<T>(nodes: seq<ListElement<T>>, i: nat, j: nat)
    requires i < |nodes| && j < |nodes| && Distinct(ItemsOf(nodes))
    ensures nodes[i] == nodes[j] <==> i == j
  {
    assert ItemsOf(nodes)[i] == nodes[i].item && ItemsOf(nodes)[j] == nodes[j].item;
  }

  ghost function With<T>(nodes: seq<ListElement<T>>, k: nat, element: ListElement<T>): seq<ListElement<T>>
    requires k <= |nodes|
  {
    nodes[..k] + [element] + nodes[k..]
  }

  lemma WithAt<T>(nodes: seq<ListElement<T>>, k: nat, element: ListElement<T>, i: int)
    requires k <= |nodes| && 0 <= i
    ensures |With(nodes, k, element)| == |nodes| + 1
    ensures At(With(nodes, k, element), i) == if i == k then element else At(nodes, if i < k then i else i - 1)
    ensures i <= |nodes| ==> With(nodes, k, element)[i] == if i == k then element else nodes[if i < k then i else i - 1]
  {
  }

  lemma WithFront<T>(nodes: seq<ListElement<T>>, element: ListElement<T>)
    ensures With(nodes, 0, element) == [element] + nodes
  {
  }

  lemma WithNodes<T>(nodes: seq<ListElement<T>>, k: nat, element: ListElement<T>)
    requires k <= |nodes|
    ensures forall e :: e in With(nodes, k, element) ==> e in nodes || e == element
  {
  }

  lemma WithItem<T>(nodes: seq<ListElement<T>>, k: nat, element: ListElement<T>)
    requires k <= |nodes|
    ensures ItemsOf(With(nodes, k, element)) == ItemsOf(nodes)[..k] + [element.item] + ItemsOf(nodes)[k..]
  {
  }

  lemma WithItemsDistinct<T>(nodes: seq<ListElement<T>>, k: nat, element: ListElement<T>)
    requires k <= |nodes| && Distinct(ItemsOf(nodes)) && element.item !in ItemsOf(nodes)
    ensures var w := With(nodes, k, element); forall i, j :: 0 <= i < j < |w| ==> w[i].item != w[j].item
  {
    hide With, ItemsOf;
    var w := With(nodes, k, element);
    forall i, j | 0 <= i < j < |w| ensures w[i].item != w[j].item {
      WithAt(nodes, k, element, i);
      WithAt(nodes, k, element, j);
      assert i != k ==> w[i].item == ItemsOf(nodes)[if i < k then i else i - 1];
      assert j != k ==> w[j].item == ItemsOf(nodes)[if j < k then j else j - 1];
    }
  }

  class List<T(==)> {
    var first: ListElement?<T>
    var last: ListElement?<T>
    var numInList: nat
    ghost var nodes: seq<ListElement<T>>

    /** The elements are linked in the order of `nodes`, and no item is on the list twice. */
    ghost predicate Valid()
      reads this, nodes
    {
      && numInList == |nodes|
      && first == At(nodes, 0) && last == At(nodes, |nodes| - 1)
      && (forall i :: 0 <= i < |nodes| ==> nodes[i].next == At(nodes, i + 1))
      && (forall i, j :: 0 <= i < j < |nodes| ==> nodes[i].item != nodes[j].item)
    }

    ghost function Items(): (s: seq<T>)
      reads this
      ensures |s| == |nodes|
    {
      ItemsOf(nodes)
    }

    constructor ()
      ensures Valid() && Items() == [] && nodes == []
    {
      first, last, numInList, nodes := null, null, 0, [];
    }

    predicate IsEmpty()
      requires Valid()
      reads this, nodes
      ensures IsEmpty() <==> Items() == []
    {
      numInList == 0
    }

    function Front(): (item: T)
      requires Valid() && Items() != []
      reads this, nodes
      ensures item == Items()[0]
    {
      first.item
    }

    method IsInList(item: T) returns (found: bool)
      requires Valid()
      ensures found <==> item in Items()
    {
      var ptr := first;
      ghost var k := 0;
      while ptr != null
        invariant 0 <= k <= |nodes|
        invariant ptr == if k < |nodes| then nodes[k] else null
        invariant item !in Items()[..k]
        decreases |nodes| - k
      {
        if item == ptr.item {
          assert Items()[k] == item;
          return true;
        }
        ptr := ptr.next;
        k := k + 1;
      }
      return false;
    }

    method Append(item: T)
      requires Valid() && item !in Items()
      modifies this, nodes
      ensures Valid() && Items() == old(Items()) + [item]
      ensures old(nodes) < nodes && fresh(nodes[|old(nodes)|])
    {
      var element := new ListElement(item);
      if IsEmpty() {
        first, last := element, element;
        numInList, nodes := numInList + 1, [element];
      } else {
        LinkAfter(last, element, |nodes|);
        WithItem(old(nodes), |old(nodes)|, element);
      }
    }

    method Prepend(item: T)
      requires Valid() && item !in Items()
      modifies this, nodes
      ensures Valid() && Items() == [item] + old(Items())
      ensures |nodes| == |old(nodes)| + 1 && nodes[1..] == old(nodes) && fresh(nodes[0])
    {
      hide With;
      var element := new ListElement(item);
      ghost var was := nodes;
      if IsEmpty() {
        first, last := element, element;
      } else {
        element.next := first;
        first := element;
      }
      numInList, nodes := numInList + 1, [element] + nodes;
      WithFront(was, element);
      WithItemsDistinct(was, 0, element);
      forall i | 0 <= i < |nodes| ensures nodes[i].next == At(nodes, i + 1) {
        if i > 0 {
          assert old(was[i - 1].next) == At(was, i);
        }
      }
    }

    method RemoveFront() returns (thing: T)
      requires Valid() && Items() != []
      modifies this
      ensures Valid() && [thing] + Items() == old(Items()) && nodes == old(nodes)[1..]
    {
      thing := first.item;
      if first == last {
        assert |nodes| == 1 by {
          assert nodes[0].item == nodes[|nodes| - 1].item;
        }
        first, last := null, null;
      } else {
        first := first.next;
      }
      numInList := numInList - 1;
      nodes := nodes[1..];
    }

    method Remove(item: T)
      requires Valid() && item in Items()
      modifies this, nodes
      ensures Valid() && item !in Items()
      ensures exists k :: 0 <= k < |old(Items())| && old(Items())[k] == item && Items() == Without(old(Items()), k)
      ensures forall e :: e in nodes ==> e in old(nodes)
    {
      if item == first.item {
        ghost var was := Items();
        var removed := RemoveFront();
        assert was[0] == item && Items() == Without(was, 0);
        return;
      }
      var prev, ptr := first, first.next;
      ghost var k := 1;
      while ptr != null
        invariant 1 <= k <= |nodes| && prev == nodes[k - 1]
        invariant ptr == if k < |nodes| then nodes[k] else null
        invariant item !in Items()[..k]
        decreases |nodes| - k
      {
        if item == ptr.item {
          Unlink(prev, ptr, k);
          WithoutItem(old(nodes), k);
          return;
        }
        prev, ptr := ptr, ptr.next;
        k := k + 1;
      }
    }

    method Unlink(prev: ListElement<T>, ptr: ListElement<T>, ghost k: nat)
      requires Valid() && 1 <= k < |nodes| && prev == nodes[k - 1] && ptr == nodes[k]
      modifies this, prev
      ensures Valid() && nodes == Without(old(nodes), k)
    {
      hide Without, At;
      ghost var was := nodes;
      AtIs(was, k);
      AtIs(was, k - 1);
      AtIs(was, k + 1);
      AtIs(was, |was| - 1);
      prev.next := ptr.next;
      if prev.next == null {
        last := prev;
      }
      numInList := numInList - 1;
      nodes := Without(nodes, k);
      forall i | 0 <= i < |nodes| ensures nodes[i].next == At(nodes, i + 1) {
        WithoutAt(was, k, i);
        WithoutAt(was, k, i + 1);
        NotSame(was, k - 1, Back(k, i));
        assert old(was[Back(k, i)].next) == At(was, Back(k, i) + 1);
      }
      WithoutAt(was, k, 0);
      WithoutAt(was, k, |was| - 2);
      forall i, j | 0 <= i < j < |nodes| ensures nodes[i].item != nodes[j].item {
        WithoutAt(was, k, i);
        WithoutAt(was, k, j);
      }
    }

    /** SortedList::Insert */
    method Insert(item: T, compare: (T, T) -> int)
      requires Valid() && item !in Items()
      modifies this, nodes
      ensures Valid() && Items() == InsertSorted(old(Items()), item, compare)
      ensures forall e :: e in nodes ==> e in old(nodes) || fresh(e)
    {
      hide InsertSorted, With, ItemsOf;
      ghost var was := Items();
      if IsEmpty() {
        var element := new ListElement(item);
        first, last := element, element;
        numInList := numInList + 1;
        nodes := [element];
        InsertSortedAt(was, item, compare, 0);
        assert Items() == [item] == was[..0] + [item] + was[0..];
      } else if compare(item, first.item) < 0 {
        Prepend(item);
        InsertSortedAt(was, item, compare, 0);
        assert [item] + was == was[..0] + [item] + was[0..];
      } else {
        ghost var k;
        var ptr;
        ptr, k := FindPlace(item, compare);
        var element := new ListElement(item);
        LinkAfter(ptr, element, k);
        InsertSortedAt(was, item, compare, k);
        WithItem(old(nodes), k, element);
        WithNodes(old(nodes), k, element);
        assert Items() == was[..k] + [item] + was[k..];
      }
    }

    /** The last element that the item is to follow. */
    method FindPlace(item: T, compare: (T, T) -> int) returns (ptr: ListElement<T>, ghost k: nat)
      requires Valid() && Items() != [] && compare(item, Items()[0]) >= 0
      ensures 1 <= k <= |nodes| && ptr == nodes[k - 1]
      ensures forall i :: 0 <= i < k ==> compare(item, Items()[i]) >= 0
      ensures k < |nodes| ==> compare(item, Items()[k]) < 0
    {
      ptr, k := first, 1;
      while ptr.next != null
        invariant 1 <= k <= |nodes| && ptr == nodes[k - 1]
        invariant forall i :: 0 <= i < k ==> compare(item, Items()[i]) >= 0
        decreases |nodes| - k
      {
        if compare(item, ptr.next.item) < 0 {
          return;
        }
        ptr := ptr.next;
        k := k + 1;
      }
    }

    method LinkAfter(prev: ListElement<T>, element: ListElement<T>, ghost k: nat)
      requires Valid() && 1 <= k <= |nodes| && prev == nodes[k - 1]
      requires element !in nodes && element.item !in Items() && element.next == null
      modifies this, prev, element
      ensures Valid() && nodes == With(old(nodes), k, element)
    {
      hide With, At;
      ghost var was := nodes;
      AtIs(was, k);
      AtIs(was, k - 1);
      AtIs(was, |was| - 1);
      if prev.next != null {
        element.next := prev.next;
        prev.next := element;
      } else {
        last.next := element;
        last := element;
      }
      numInList := numInList + 1;
      nodes := With(nodes, k, element);
      forall i | 0 <= i < |nodes| ensures nodes[i].next == At(nodes, i + 1) {
        WithAt(was, k, element, i);
        WithAt(was, k, element, i + 1);
        if i != k {
          var j := if i < k then i else i - 1;
          NotSame(was, k - 1, j);
          assert old(was[j].next) == At(was, j + 1);
        }
      }
      WithAt(was, k, element, 0);
      WithAt(was, k, element, |was|);
      WithItemsDistinct(was, k, element);
    }
  }

  /** Steps through the items of a list that is not being changed. */
  class ListIterator<T(==)> {
    var current: ListElement?<T>
    ghost var nodes: seq<ListElement<T>>
    ghost var seen: nat

    ghost predicate Valid()
      reads this, nodes
    {
      && seen <= |nodes| && current == At(nodes, seen)
      && (forall i :: 0 <= i < |nodes| ==> nodes[i].next == At(nodes, i + 1))
    }

    constructor (list: List<T>)
      requires list.Valid()
      ensures Valid() && nodes == list.nodes && seen == 0
    {
      current := list.first;
      nodes := list.nodes;
      seen := 0;
    }

    predicate IsDone()
      requires Valid()
      reads this, nodes
      ensures IsDone() <==> seen == |nodes|
    {
      current == null
    }

    method Item() returns (item: T)
      requires Valid() && !IsDone()
      ensures item == ItemsOf(nodes)[seen]
    {
      item := current.item;
    }

    method Next()
      requires Valid() && !IsDone()
      modifies this
      ensures Valid() && nodes == old(nodes) && seen == old(seen) + 1
    {
      current := current.next;
      seen := seen + 1;
    }
  }
}
