/** Tables of linked lists (lib/hash.cc, over lib/list.cc): no two lists of a table share an element. */
module Buckets {
  import opened Lists

  ghost function ListsOf<T>(lists: seq<List<T>>): set<List<T>>
  {
    set l | l in lists
  }

  ghost function NodesOf<T>(lists: seq<List<T>>): set<ListElement<T>>
    reads lists
  {
    set b, i | 0 <= b < |lists| && 0 <= i < |lists[b].nodes| :: lists[b].nodes[i]
  }

  ghost function Contents<T>(lists: seq<List<T>>): (s: seq<seq<T>>)
    reads lists
    ensures |s| == |lists| && forall b :: 0 <= b < |s| ==> s[b] == lists[b].Items()
  {
    seq(|lists|, b requires 0 <= b < |lists| reads lists => lists[b].Items())
  }

  lemma OneValid<T>(lists: seq<List<T>>, b: nat)
    requires Separate(lists) && b < |lists|
    ensures lists[b].Valid()
  {
  }

  lemma OneIn<T>(lists: seq<List<T>>, b: nat)
    requires b < |lists|
    ensures forall e :: e in lists[b].nodes ==> e in NodesOf(lists)
  {
  }

  ghost predicate Apart<T>(l: List<T>, m: List<T>)
    reads l, m
  {
    l != m && forall e :: e in l.nodes ==> e !in m.nodes
  }

  ghost predicate Separate<T>(lists: seq<List<T>>)
    reads lists, NodesOf(lists)
  {
    && (forall b :: 0 <= b < |lists| ==> lists[b].Valid())
    && (forall b, c :: 0 <= b < |lists| && 0 <= c < |lists| && b != c ==> Apart(lists[b], lists[c]))
  }

  twostate predicate SameFields<T>(l: List<T>)
    reads l
  {
    && l.first == old(l.first) && l.last == old(l.last)
    && l.numInList == old(l.numInList) && l.nodes == old(l.nodes)
  }

  /** Neither the list nor its elements changed. */
  twostate predicate Untouched<T>(l: List<T>)
    reads l, l.nodes
  {
    SameFields(l) && forall e :: e in l.nodes ==> e.next == old(e.next)
  }

  twostate lemma StillValid<T>(l: List<T>)
    requires old(l.Valid()) && Untouched(l)
    ensures l.Valid()
  {
    forall i | 0 <= i < |l.nodes| ensures l.nodes[i].next == At(l.nodes, i + 1) {
      assert l.nodes[i] in l.nodes && old(l.nodes[i].next) == At(l.nodes, i + 1);
    }
  }

  /** An operation that changes list `b` and its elements only. */
  twostate lemma Framed<T>(lists: seq<List<T>>, new b: nat)
    requires old(Separate(lists)) && b < |lists| && lists[b].Valid()
    requires forall l :: l in lists && l != lists[b] ==> SameFields(l)
    requires forall e :: e in old(NodesOf(lists)) && e !in old(lists[b].nodes) ==> e.next == old(e.next)
    requires forall e :: e in lists[b].nodes ==> e in old(lists[b].nodes) || fresh(e)
    ensures Separate(lists)
    ensures forall e :: e in NodesOf(lists) ==> e in old(NodesOf(lists)) || fresh(e)
    ensures forall c :: 0 <= c < |lists| && c != b ==> lists[c].Items() == old(lists[c].Items())
  {
    hide List.Valid;
    forall c | 0 <= c < |lists| && c != b ensures Untouched(lists[c]) {
      assert old(Apart(lists[c], lists[b]));
      assert lists[c] in lists && SameFields(lists[c]);
      ghost var nodes := old(lists[c].nodes);
      forall i | 0 <= i < |nodes| ensures nodes[i].next == old(nodes[i].next) {
        assert nodes[i] in old(NodesOf(lists)) && nodes[i] !in old(lists[b].nodes);
      }
    }
    forall c | 0 <= c < |lists| ensures lists[c].Valid() {
      if c != b {
        assert old(lists[c].Valid());
        StillValid(lists[c]);
      }
    }
    forall c, d | 0 <= c < |lists| && 0 <= d < |lists| && c != d ensures Apart(lists[c], lists[d]) {
      assert old(Apart(lists[c], lists[d]));
      assert c != b ==> Untouched(lists[c]);
      assert d != b ==> Untouched(lists[d]);
    }
    forall e | e in NodesOf(lists) ensures e in old(NodesOf(lists)) || fresh(e) {
      var c :| 0 <= c < |lists| && e in lists[c].nodes;
      assert c != b ==> Untouched(lists[c]);
    }
  }

  /** List::Append on one of the lists. */
  method AppendTo<T(==)>(l: List<T>, item: T, ghost lists: seq<List<T>>, ghost b: nat)
    requires Separate(lists) && b < |lists| && l == lists[b] && item !in l.Items()
    modifies l, l.nodes
    ensures Separate(lists)
    ensures forall e :: e in NodesOf(lists) ==> e in old(NodesOf(lists)) || fresh(e)
    ensures Contents(lists) == old(Contents(lists))[b := old(Contents(lists))[b] + [item]]
  {
    hide List.Valid;
    l.Append(item);
    Framed(lists, b);
  }

  method TakeFirst<T(==)>(l: List<T>, ghost lists: seq<List<T>>, ghost b: nat) returns (item: T)
    requires Separate(lists) && b < |lists| && l == lists[b] && l.Items() != []
    modifies l
    ensures Separate(lists)
    ensures forall e :: e in NodesOf(lists) ==> e in old(NodesOf(lists)) || fresh(e)
    ensures old(Contents(lists))[b][0] == item
    ensures Contents(lists) == old(Contents(lists))[b := old(Contents(lists))[b][1..]]
  {
    hide List.Valid;
    item := l.RemoveFront();
    Framed(lists, b);
    assert old(Contents(lists))[b][1..] == lists[b].Items();
  }

  /** List::Remove. */
  method TakeOut<T(==)>(l: List<T>, item: T, ghost lists: seq<List<T>>, ghost b: nat) returns (ghost k: nat)
    requires Separate(lists) && b < |lists| && l == lists[b] && item in l.Items()
    modifies l, l.nodes
    ensures Separate(lists)
    ensures forall e :: e in NodesOf(lists) ==> e in old(NodesOf(lists)) || fresh(e)
    ensures k < |old(Contents(lists))[b]| && old(Contents(lists))[b][k] == item
    ensures Contents(lists) == old(Contents(lists))[b := Without(old(Contents(lists))[b], k)]
  {
    hide List.Valid, Without;
    ghost var was := l.Items();
    l.Remove(item);
    k :| 0 <= k < |was| && was[k] == item && lists[b].Items() == Without(was, k);
    Framed(lists, b);
  }

  /** Takes the first item of one list to the end of another. */
  method MoveFirst<T(==)>(from: List<T>, to: seq<List<T>>, slot: T -> nat, ghost all: seq<List<T>>, ghost i: nat)
    requires Separate(all) && |to| <= |all| && to == all[|all| - |to|..]
    requires i < |all| - |to| && from == all[i] && Contents(all)[i] != []
    requires var item := Contents(all)[i][0];
             slot(item) < |to| && item !in Contents(all)[|all| - |to| + slot(item)]
    modifies all, NodesOf(all)
    ensures Separate(all)
    ensures forall e :: e in NodesOf(all) ==> e in old(NodesOf(all)) || fresh(e)
    ensures var was, item := old(Contents(all)), old(Contents(all))[i][0];
            var b := |all| - |to| + slot(item);
            Contents(all) == was[i := was[i][1..]][b := was[b] + [item]]
  {
    hide Separate, List.Valid, NodesOf, Contents;
    OneIn(all, i);
    var item := TakeFirst(from, all, i);
    var b := slot(item);
    OneIn(all, |all| - |to| + b);
    AppendTo(to[b], item, all, |all| - |to| + b);
  }

  /** HashTable::InitBuckets. */
  method NewLists<T(==)>(n: nat) returns (lists: seq<List<T>>)
    ensures Separate(lists) && Contents(lists) == seq(n, _ => [])
    ensures fresh(lists) && NodesOf(lists) == {}
  {
    lists := [];
    for i := 0 to n
      invariant |lists| == i && fresh(lists)
      invariant forall b :: 0 <= b < i ==> lists[b].Valid() && lists[b].nodes == []
      invariant forall b, c :: 0 <= b < c < i ==> lists[b] != lists[c]
    {
      var l := new List();
      lists := lists + [l];
    }
  }

  /** A new table beside another. */
  method NewBeside<T(==)>(ghost from: seq<List<T>>, n: nat) returns (to: seq<List<T>>)
    requires Separate(from)
    ensures |to| == n && Separate(from + to) && Contents(from + to) == old(Contents(from)) + seq(n, _ => [])
    ensures fresh(to) && NodesOf(from + to) == old(NodesOf(from))
  {
    hide List.Valid;
    to := NewLists(n);
    JoinedApart(from, to);
    Joined(from, to);
  }

  /** Two tables side by side. */
  lemma Joined<T>(from: seq<List<T>>, to: seq<List<T>>)
    ensures Contents(from + to) == Contents(from) + Contents(to)
    ensures NodesOf(from + to) == NodesOf(from) + NodesOf(to)
    ensures Separate(from + to) ==> Separate(to)
  {
    hide List.Valid;
    var all := from + to;
    forall e | e in NodesOf(from) + NodesOf(to) ensures e in NodesOf(all) {
      if b, i :| 0 <= b < |from| && 0 <= i < |from[b].nodes| && e == from[b].nodes[i] {
        assert all[b].nodes[i] == e;
      } else {
        var b, i :| 0 <= b < |to| && 0 <= i < |to[b].nodes| && e == to[b].nodes[i];
        assert all[|from| + b].nodes[i] == e;
      }
    }
    if Separate(all) {
      forall b | 0 <= b < |to| ensures to[b].Valid() {
        assert all[|from| + b].Valid();
      }
      forall b, c | 0 <= b < |to| && 0 <= c < |to| && b != c ensures Apart(to[b], to[c]) {
        assert Apart(all[|from| + b], all[|from| + c]);
      }
    }
  }

  lemma JoinedApart<T>(from: seq<List<T>>, to: seq<List<T>>)
    requires Separate(from) && Separate(to) && NodesOf(to) == {} && forall l :: l in to ==> l !in from
    ensures Separate(from + to)
  {
    hide List.Valid;
    forall b, c | 0 <= b < |from| && 0 <= c < |to| ensures Apart(from[b], to[c]) && Apart(to[c], from[b]) {
      assert to[c] in to;
      assert forall e :: e in to[c].nodes ==> e in NodesOf(to);
    }
  }
}
