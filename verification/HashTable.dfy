/** The self-expanding hash table (lib/hash.cc). A bucket is a linked list; what the table maps is said of the sequences
    of items on the lists. */
module HashTables {
  import opened Buckets
  import opened Lists
  import opened Sequences

  const INITIAL_BUCKETS := 4
  const RESIZE_RATIO := 3
  const INCREASE_SIZE_BY := 4

  /** The bucket of a hash value. */
  function Slot(h: nat, n: nat): (b: nat)
    requires n > 0
    ensures b < n
  {
    h % n
  }

  /** The buckets hold exactly the items of a map from keys: each in the bucket of its hash, and once. */
  ghost predicate Holds<Key, T>(buckets: seq<seq<T>>, items: map<Key, T>, getKey: T -> Key, hash: Key -> nat)
  {
    && |buckets| > 0
    && (forall b, i :: 0 <= b < |buckets| && 0 <= i < |buckets[b]| ==>
          var key := getKey(buckets[b][i]);
          key in items && items[key] == buckets[b][i] && Slot(hash(key), |buckets|) == b)
    && (forall key :: key in items ==> getKey(items[key]) == key && items[key] in buckets[Slot(hash(key), |buckets|)])
    && (forall b, i, j :: 0 <= b < |buckets| && 0 <= i < j < |buckets[b]| ==> buckets[b][i] != buckets[b][j])
  }

  lemma HoldsNothing<Key, T>(n: nat, getKey: T -> Key, hash: Key -> nat)
    requires n > 0
    ensures Holds(seq(n, _ => []), map[], getKey, hash)
  {
  }

  lemma HoldsMore<Key, T>(buckets: seq<seq<T>>, items: map<Key, T>, getKey: T -> Key, hash: Key -> nat, item: T)
    requires Holds(buckets, items, getKey, hash) && getKey(item) !in items
    ensures var b := Slot(hash(getKey(item)), |buckets|);
            Holds(buckets[b := buckets[b] + [item]], items[getKey(item) := item], getKey, hash)
  {
    hide Slot;
    var b := Slot(hash(getKey(item)), |buckets|);
    var after, items' := buckets[b := buckets[b] + [item]], items[getKey(item) := item];
    forall c, i | 0 <= c < |after| && 0 <= i < |after[c]|
      ensures var key := getKey(after[c][i]);
              key in items' && items'[key] == after[c][i] && Slot(hash(key), |after|) == c
    {
      if !(c == b && i == |buckets[b]|) {
        assert after[c][i] == buckets[c][i];
      }
    }
    forall key | key in items'
      ensures getKey(items'[key]) == key && items'[key] in after[Slot(hash(key), |after|)]
    {
      if key == getKey(item) {
        assert after[b][|buckets[b]|] == item;
      } else {
        assert items[key] in buckets[Slot(hash(key), |buckets|)];
      }
    }
    forall c, i, j | 0 <= c < |after| && 0 <= i < j < |after[c]| ensures after[c][i] != after[c][j] {
      assert after[c][i] == buckets[c][i];
      if c == b && j == |buckets[b]| {
        assert getKey(buckets[c][i]) in items;
      }
    }
  }

  /** `buckets` without item `k` of bucket `b`. */
  function RemoveAt<T>(buckets: seq<seq<T>>, b: nat, k: nat): (r: seq<seq<T>>)
    requires b < |buckets| && k < |buckets[b]|
    ensures |r| == |buckets|
  {
    buckets[b := Without(buckets[b], k)]
  }

  /** Where item `i` of bucket `c` was before. */
  ghost function PlaceBefore(b: nat, k: nat, c: int, i: int): int
  {
    if c == b && i >= k then i + 1 else i
  }

  lemma RemoveAtIs<T>(buckets: seq<seq<T>>, b: nat, k: nat, c: int, i: int)
    requires b < |buckets| && k < |buckets[b]| && 0 <= c < |buckets| && 0 <= i < |RemoveAt(buckets, b, k)[c]|
    ensures 0 <= PlaceBefore(b, k, c, i) < |buckets[c]|
    ensures RemoveAt(buckets, b, k)[c][i] == buckets[c][PlaceBefore(b, k, c, i)]
    ensures c == b ==> PlaceBefore(b, k, c, i) != k
  {
  }

  lemma RemoveAtKeeps<T>(buckets: seq<seq<T>>, b: nat, k: nat, c: int, x: T)
    requires b < |buckets| && k < |buckets[b]| && 0 <= c < |buckets| && x in buckets[c] && x != buckets[b][k]
    ensures x in RemoveAt(buckets, b, k)[c]
  {
    var i :| 0 <= i < |buckets[c]| && buckets[c][i] == x;
    assert RemoveAt(buckets, b, k)[c][if c == b && i > k then i - 1 else i] == x;
  }

  lemma HoldsLess<Key, T>(buckets: seq<seq<T>>, items: map<Key, T>, getKey: T -> Key, hash: Key -> nat, b: nat, k: nat)
    requires Holds(buckets, items, getKey, hash) && b < |buckets| && k < |buckets[b]|
    ensures Holds(RemoveAt(buckets, b, k), items - {getKey(buckets[b][k])}, getKey, hash)
  {
    hide Slot, RemoveAt;
    var item := buckets[b][k];
    var after, items' := RemoveAt(buckets, b, k), items - {getKey(item)};
    forall c, i | 0 <= c < |after| && 0 <= i < |after[c]|
      ensures var key := getKey(after[c][i]);
              key in items' && items'[key] == after[c][i] && Slot(hash(key), |after|) == c
    {
      RemoveAtIs(buckets, b, k, c, i);
      NotTwice(buckets, items, getKey, hash, c, PlaceBefore(b, k, c, i), b, k);
    }
    forall key | key in items'
      ensures getKey(items'[key]) == key && items'[key] in after[Slot(hash(key), |after|)]
    {
      RemoveAtKeeps(buckets, b, k, Slot(hash(key), |buckets|), items[key]);
    }
    forall c, i, j | 0 <= c < |after| && 0 <= i < j < |after[c]| ensures after[c][i] != after[c][j] {
      RemoveAtIs(buckets, b, k, c, i);
      RemoveAtIs(buckets, b, k, c, j);
    }
  }

  /** Items at different places have different keys. */
  lemma NotTwice<Key, T>(buckets: seq<seq<T>>, items: map<Key, T>, getKey: T -> Key, hash: Key -> nat,
                         c: nat, i: nat, b: nat, k: nat)
    requires Holds(buckets, items, getKey, hash)
    requires c < |buckets| && i < |buckets[c]| && b < |buckets| && k < |buckets[b]| && (c == b ==> i != k)
    ensures getKey(buckets[c][i]) != getKey(buckets[b][k])
  {
    hide Slot;
  }

  /** The items of all buckets, first bucket first. */
  ghost function Flat<T>(buckets: seq<seq<T>>): seq<T>
  {
    if buckets == [] then [] else Flat(buckets[..|buckets| - 1]) + buckets[|buckets| - 1]
  }

  ghost predicate InSome<T>(buckets: seq<seq<T>>, x: T)
  {
    exists b :: 0 <= b < |buckets| && x in buckets[b]
  }

  lemma InSomeNext<T>(buckets: seq<seq<T>>, x: T)
    requires buckets != []
    ensures var n := |buckets| - 1; InSome(buckets, x) <==> InSome(buckets[..n], x) || x in buckets[n]
  {
    var n := |buckets| - 1;
    if b :| 0 <= b < |buckets| && x in buckets[b] {
      assert b < n ==> x in buckets[..n][b];
    }
    if b :| 0 <= b < n && x in buckets[..n][b] {
      assert x in buckets[b];
    }
  }

  lemma {:induction false} FlatMembers<T>(buckets: seq<seq<T>>, x: T)
    ensures x in Flat(buckets) <==> InSome(buckets, x)
  {
    hide InSome;
    if buckets != [] {
      FlatMembers(buckets[..|buckets| - 1], x);
      InSomeNext(buckets, x);
    } else {
      NotInNone(x);
    }
  }

  lemma NotInNone<T>(x: T)
    ensures !InSome([], x)
  {
  }

  lemma {:induction false} FlatDistinct<T>(buckets: seq<seq<T>>)
    requires forall b, i, j :: 0 <= b < |buckets| && 0 <= i < j < |buckets[b]| ==> buckets[b][i] != buckets[b][j]
    requires forall b, c, x :: 0 <= b < c < |buckets| && x in buckets[b] ==> x !in buckets[c]
    ensures forall i, j :: 0 <= i < j < |Flat(buckets)| ==> Flat(buckets)[i] != Flat(buckets)[j]
  {
    if buckets != [] {
      var n := |buckets| - 1;
      var front := Flat(buckets[..n]);
      FlatDistinct(buckets[..n]);
      forall x | x in front ensures x !in buckets[n] {
        FlatMembers(buckets[..n], x);
        var b :| 0 <= b < n && x in buckets[..n][b];
        assert x in buckets[b];
      }
      forall i, j | 0 <= i < j < |Flat(buckets)| ensures Flat(buckets)[i] != Flat(buckets)[j] {
        if i < |front| <= j {
          assert front[i] in front && buckets[n][j - |front|] in buckets[n];
        }
      }
    }
  }

  lemma {:induction false} FlatLength<T>(buckets: seq<seq<T>>, b: nat, bucket: seq<T>)
    requires b < |buckets|
    ensures |Flat(buckets[b := bucket])| == |Flat(buckets)| - |buckets[b]| + |bucket|
  {
    var n := |buckets| - 1;
    var after := buckets[b := bucket];
    if b < n {
      FlatLength(buckets[..n], b, bucket);
      assert after[..n] == buckets[..n][b := bucket];
    } else {
      assert after[..n] == buckets[..n];
    }
  }

  lemma {:induction false} FlatEmpty<T>(buckets: seq<seq<T>>)
    requires forall b :: 0 <= b < |buckets| ==> buckets[b] == []
    ensures Flat(buckets) == []
  {
    if buckets != [] {
      FlatEmpty(buckets[..|buckets| - 1]);
    }
  }

  /** Walking through the buckets meets every item of the map, and none twice. */
  lemma FlatIsEveryItemOnce<Key, T>(buckets: seq<seq<T>>, items: map<Key, T>, getKey: T -> Key, hash: Key -> nat)
    requires Holds(buckets, items, getKey, hash)
    ensures forall i, j :: 0 <= i < j < |Flat(buckets)| ==> Flat(buckets)[i] != Flat(buckets)[j]
    ensures forall x :: x in Flat(buckets) <==> getKey(x) in items && items[getKey(x)] == x
  {
    hide Slot, Flat;
    forall b, c, x | 0 <= b < c < |buckets| && x in buckets[b] ensures x !in buckets[c] {
      assert Slot(hash(getKey(x)), |buckets|) == b;
    }
    FlatDistinct(buckets);
    forall x ensures x in Flat(buckets) <==> getKey(x) in items && items[getKey(x)] == x {
      FlatMembers(buckets, x);
      if getKey(x) in items && items[getKey(x)] == x {
        assert x in buckets[Slot(hash(getKey(x)), |buckets|)];
      }
    }
  }

  /** The resize test, without the division. */
  lemma RatioReached(numItems: nat, numBuckets: nat)
    requires numBuckets > 0
    ensures numItems / numBuckets >= RESIZE_RATIO <==> numItems >= RESIZE_RATIO * numBuckets
  {
    var q, r := numItems / numBuckets, numItems % numBuckets;
    assert numItems == q * numBuckets + r;
    if q >= RESIZE_RATIO {
      assert q * numBuckets >= RESIZE_RATIO * numBuckets;
    } else {
      assert q * numBuckets <= (RESIZE_RATIO - 1) * numBuckets;
    }
  }

  ghost predicate Divides<Key, T>(items: map<Key, T>, moved: map<Key, T>, rest: map<Key, T>)
  {
    && (forall k :: k in items ==> k in moved || k in rest)
    && (forall k :: k in moved ==> k !in rest && k in items && items[k] == moved[k])
    && (forall k :: k in rest ==> k in items && items[k] == rest[k])
  }

  /** While a table is being rehashed, its items are divided between the old buckets and the new. */
  ghost predicate Moving<Key, T>(from: seq<seq<T>>, rest: map<Key, T>, to: seq<seq<T>>, moved: map<Key, T>,
                                 items: map<Key, T>, getKey: T -> Key, hash: Key -> nat)
  {
    && Holds(from, rest, getKey, hash) && Holds(to, moved, getKey, hash)
    && Divides(items, moved, rest) && |Flat(to)| == |moved|
  }

  lemma NoneMoved<Key, T>(from: seq<seq<T>>, items: map<Key, T>, n: nat, getKey: T -> Key, hash: Key -> nat)
    requires Holds(from, items, getKey, hash) && n > 0
    ensures Moving(from, items, seq(n, _ => []), map[], items, getKey, hash)
  {
    hide Holds, Flat;
    HoldsNothing(n, getKey, hash);
    FlatEmpty<T>(seq(n, _ => []));
  }

  lemma MoveOne<Key, T>(from: seq<seq<T>>, rest: map<Key, T>, to: seq<seq<T>>, moved: map<Key, T>,
                        items: map<Key, T>, getKey: T -> Key, hash: Key -> nat, i: nat)
    requires Moving(from, rest, to, moved, items, getKey, hash) && i < |from| && from[i] != [] && |to| > 0
    ensures var item := from[i][0];
            var b := Slot(hash(getKey(item)), |to|);
            Moving(from[i := from[i][1..]], rest - {getKey(item)}, to[b := to[b] + [item]], moved[getKey(item) := item],
                   items, getKey, hash)
  {
    hide Holds, Flat, Slot, RemoveAt;
    var item := from[i][0];
    var b := Slot(hash(getKey(item)), |to|);
    HoldsAt(from, rest, getKey, hash, i, 0);
    HoldsLess(from, rest, getKey, hash, i, 0);
    RemoveFirst(from, i);
    HoldsMore(to, moved, getKey, hash, item);
    FlatLength(to, b, to[b] + [item]);
    MoveKey(items, rest, moved, getKey(item));
  }

  lemma RemoveFirst<T>(buckets: seq<seq<T>>, i: nat)
    requires i < |buckets| && buckets[i] != []
    ensures RemoveAt(buckets, i, 0) == buckets[i := buckets[i][1..]]
  {
    assert buckets[i][..0] + buckets[i][1..] == buckets[i][1..];
  }

  lemma MoveKey<Key, T>(items: map<Key, T>, rest: map<Key, T>, moved: map<Key, T>, key: Key)
    requires Divides(items, moved, rest) && key in rest
    ensures key !in moved && Divides(items, moved[key := rest[key]], rest - {key})
    ensures |moved[key := rest[key]]| == |moved| + 1
  {
    assert moved[key := rest[key]].Keys == moved.Keys + {key};
  }

  lemma AllMoved<Key, T>(from: seq<seq<T>>, rest: map<Key, T>, to: seq<seq<T>>, moved: map<Key, T>,
                         items: map<Key, T>, getKey: T -> Key, hash: Key -> nat)
    requires Moving(from, rest, to, moved, items, getKey, hash) && forall b :: 0 <= b < |from| ==> from[b] == []
    ensures Holds(to, items, getKey, hash) && |Flat(to)| == |items|
  {
    hide Holds, Flat;
    HoldsNone(from, rest, getKey, hash);
    assert moved == items;
  }

  class HashTable<Key(==), T(==)> {
    const getKey: T -> Key
    const hash: Key -> nat
    var buckets: seq<List<T>>
    var numBuckets: nat
    var numItems: nat
    ghost var items: map<Key, T>    // what the table maps

    ghost predicate Valid()
      reads this, buckets, NodesOf(buckets)
    {
      && Separate(buckets) && numBuckets == |buckets| && Holds(Contents(buckets), items, getKey, hash)
      && numItems == |items| == |Flat(Contents(buckets))|
      && numItems <= RESIZE_RATIO * numBuckets
    }

    constructor (getKey: T -> Key, hash: Key -> nat)
      ensures Valid() && items == map[] && this.getKey == getKey && this.hash == hash
      ensures fresh(buckets) && fresh(NodesOf(buckets))
    {
      hide Separate, NodesOf, Holds, Flat;
      this.getKey, this.hash := getKey, hash;
      numItems := 0;
      numBuckets := INITIAL_BUCKETS;
      var lists := NewLists(INITIAL_BUCKETS);
      buckets := lists;
      items := map[];
      HoldsNothing(INITIAL_BUCKETS, getKey, hash);
      FlatEmpty<T>(seq(INITIAL_BUCKETS, _ => []));
    }

    lemma Sizes()
      requires Valid()
      ensures numBuckets == |buckets| == |Contents(buckets)| && numItems == |Flat(Contents(buckets))|
      ensures Holds(Contents(buckets), items, getKey, hash)
      ensures forall b :: 0 <= b < numBuckets ==> Contents(buckets)[b] == buckets[b].Items()
    {
    }

    method FindInBucket(bucket: nat, key: Key) returns (item: Option<T>, ghost k: nat)
      requires bucket < |buckets| && buckets[bucket].Valid()
      ensures item.Some? ==> k < |buckets[bucket].Items()| && item.value == buckets[bucket].Items()[k] &&
                             getKey(item.value) == key
      ensures item.None? ==> forall i :: 0 <= i < |buckets[bucket].Items()| ==> getKey(buckets[bucket].Items()[i]) != key
    {
      var iter := new ListIterator(buckets[bucket]);
      ghost var there := buckets[bucket].Items();
      while !iter.IsDone()
        invariant iter.Valid() && fresh(iter) && iter.nodes == buckets[bucket].nodes
        invariant forall i :: 0 <= i < iter.seen ==> getKey(there[i]) != key
        decreases |there| - iter.seen
      {
        var candidate := iter.Item();
        if key == getKey(candidate) {
          return Some(candidate), iter.seen;
        }
        iter.Next();
      }
      return None, 0;
    }

    /** Finds exactly what the map has for the key. */
    method Find(key: Key) returns (item: Option<T>)
      requires Valid()
      ensures item == if key in items then Some(items[key]) else None
    {
      hide Slot, Flat, List.Valid;
      ghost var k;
      var bucket := Slot(hash(key), numBuckets);
      item, k := FindInBucket(bucket, key);
      Found(Contents(buckets), items, getKey, hash, bucket, key, item, k);
    }

    method Insert(item: T)
      requires Valid() && getKey(item) !in items
      modifies this, buckets, NodesOf(buckets)
      ensures Valid() && items == old(items)[getKey(item) := item]
      ensures fresh(ListsOf(buckets) - old(ListsOf(buckets)))
      ensures forall e :: e in NodesOf(buckets) ==> e in old(NodesOf(buckets)) || fresh(e)
    {
      hide Slot, Flat, Holds, Separate, NodesOf;
      HoldsSome(Contents(buckets), items, getKey, hash);
      RatioReached(numItems, numBuckets);
      if numItems / numBuckets >= RESIZE_RATIO {
        ReHash();
      }
      Put(item);
    }

    /** Keeps the number of items; the lists are other objects. */
    method Count(n: nat, ghost items': map<Key, T>)
      requires Separate(buckets)
      modifies this`numItems, this`items
      ensures numItems == n && items == items'
      ensures Separate(buckets) && Contents(buckets) == old(Contents(buckets)) && NodesOf(buckets) == old(NodesOf(buckets))
    {
      hide List.Valid, Apart;
      numItems, items := n, items';
    }

    method Put(item: T)
      requires Valid() && getKey(item) !in items && numItems < RESIZE_RATIO * numBuckets
      modifies this, buckets, NodesOf(buckets)
      ensures Valid() && items == old(items)[getKey(item) := item] && buckets == old(buckets)
      ensures forall e :: e in NodesOf(buckets) ==> e in old(NodesOf(buckets)) || fresh(e)
    {
      hide Slot, Flat, Holds, List.Valid, Separate, NodesOf, Contents;
      ghost var was := Contents(buckets);
      HoldsSome(was, items, getKey, hash);
      var b := Slot(hash(getKey(item)), numBuckets);
      HoldsMore(was, items, getKey, hash, item);
      NotThere(was, items, getKey, hash, b, item);
      FlatLength(was, b, was[b] + [item]);
      OneIn(buckets, b);
      AppendTo(buckets[b], item, buckets, b);
      Count(numItems + 1, items[getKey(item) := item]);
    }

    /** Moves every item to its bucket in a table four times as big. */
    method ReHash()
      requires Valid()
      modifies this`buckets, this`numBuckets, buckets, NodesOf(buckets)
      ensures Valid() && numBuckets == old(numBuckets) * INCREASE_SIZE_BY
      ensures fresh(buckets)
      ensures forall e :: e in NodesOf(buckets) ==> e in old(NodesOf(buckets)) || fresh(e)
    {
      hide Flat, Holds, List.Valid, Apart;
      HoldsSome(Contents(buckets), items, getKey, hash);
      var size := numBuckets * INCREASE_SIZE_BY;
      var lists := MoveAll(buckets, size, getKey, hash, items);
      buckets, numBuckets := lists, size;
    }

    /** The first bucket from `start` on that has items. */
    method FindNextFullBucket(start: nat) returns (bucket: nat)
      requires Valid() && start <= numBuckets
      ensures start <= bucket <= numBuckets && (bucket < numBuckets ==> Contents(buckets)[bucket] != [])
      ensures Flat(Contents(buckets)[..bucket]) == Flat(Contents(buckets)[..start])
    {
      hide Holds, Flat, List.Valid;
      bucket := start;
      while bucket < numBuckets
        invariant start <= bucket <= numBuckets
        invariant Flat(Contents(buckets)[..bucket]) == Flat(Contents(buckets)[..start])
      {
        if !buckets[bucket].IsEmpty() {
          break;
        }
        FlatNext(Contents(buckets), bucket);
        bucket := bucket + 1;
      }
    }

    /** Takes out exactly the item of the key. */
    method Remove(key: Key) returns (item: T)
      requires Valid() && key in items
      modifies this, buckets, NodesOf(buckets)
      ensures Valid() && item == old(items)[key] && items == old(items) - {key}
      ensures buckets == old(buckets)
      ensures forall e :: e in NodesOf(buckets) ==> e in old(NodesOf(buckets)) || fresh(e)
    {
      hide Slot, Flat, Holds, List.Valid, Separate;
      ghost var was, k := Contents(buckets), 0;
      HoldsSome(was, items, getKey, hash);
      var bucket := Slot(hash(key), numBuckets);
      OneValid(buckets, bucket);
      var found;
      found, k := FindInBucket(bucket, key);
      Found(was, items, getKey, hash, bucket, key, found, k);
      item := found.value;
      TakeAway(bucket, item);
    }

    method TakeAway(bucket: nat, item: T)
      requires Valid() && bucket < |buckets| && item in Contents(buckets)[bucket]
      modifies this, buckets, NodesOf(buckets)
      ensures Valid() && items == old(items) - {getKey(item)}
      ensures buckets == old(buckets)
      ensures forall e :: e in NodesOf(buckets) ==> e in old(NodesOf(buckets)) || fresh(e)
    {
      hide Slot, Flat, Holds, List.Valid, Separate, NodesOf, Contents, Without;
      ghost var was := Contents(buckets);
      OneIn(buckets, bucket);
      ghost var k := TakeOut(buckets[bucket], item, buckets, bucket);
      HoldsWithout(was, items, getKey, hash, bucket, k);
      Count(numItems - 1, items - {getKey(item)});
    }
  }

  /** The two tables while items are being moved, one behind the other. */
  ghost predicate Halfway<Key, T>(all: seq<seq<T>>, n: nat, rest: map<Key, T>, moved: map<Key, T>,
                                  items: map<Key, T>, getKey: T -> Key, hash: Key -> nat)
  {
    n < |all| && Moving(all[..n], rest, all[n..], moved, items, getKey, hash)
  }

  lemma Started<Key, T>(from: seq<seq<T>>, size: nat, items: map<Key, T>, getKey: T -> Key, hash: Key -> nat)
    requires Holds(from, items, getKey, hash) && size > 0
    ensures Halfway(from + seq(size, _ => []), |from|, items, map[], items, getKey, hash)
  {
    hide Moving, Holds;
    NoneMoved(from, items, size, getKey, hash);
    var all := from + seq(size, _ => []);
    assert all[..|from|] == from && all[|from|..] == seq(size, _ => []);
  }

  lemma MovesOn<Key, T>(all: seq<seq<T>>, n: nat, rest: map<Key, T>, moved: map<Key, T>,
                        items: map<Key, T>, getKey: T -> Key, hash: Key -> nat, i: nat)
    requires Halfway(all, n, rest, moved, items, getKey, hash) && i < n && all[i] != []
    ensures var item := all[i][0];
            var b := n + Slot(hash(getKey(item)), |all| - n);
            item !in all[b] &&
            Halfway(all[i := all[i][1..]][b := all[b] + [item]], n, rest - {getKey(item)}, moved[getKey(item) := item],
                    items, getKey, hash)
  {
    hide Moving, Slot;
    var from, to := all[..n], all[n..];
    var item := all[i][0];
    var b := Slot(hash(getKey(item)), |to|);
    MoveOne(from, rest, to, moved, items, getKey, hash, i);
    NotYetMoved(from, rest, to, moved, items, getKey, hash, i, b);
    var after := all[i := all[i][1..]][n + b := all[n + b] + [item]];
    assert after[..n] == from[i := from[i][1..]] && after[n..] == to[b := to[b] + [item]];
  }

  lemma Finished<Key, T>(all: seq<seq<T>>, n: nat, rest: map<Key, T>, moved: map<Key, T>,
                         items: map<Key, T>, getKey: T -> Key, hash: Key -> nat)
    requires Halfway(all, n, rest, moved, items, getKey, hash) && AllEmpty(all[..n])
    ensures Holds(all[n..], items, getKey, hash) && |Flat(all[n..])| == |items|
  {
    hide Moving, Holds, Flat;
    AllMoved(all[..n], rest, all[n..], moved, items, getKey, hash);
  }

  ghost predicate AllEmpty<T>(buckets: seq<seq<T>>)
  {
    forall b :: 0 <= b < |buckets| ==> buckets[b] == []
  }

  lemma OneMoreEmpty<T>(all: seq<seq<T>>, i: nat)
    requires i < |all| && AllEmpty(all[..i]) && all[i] == []
    ensures AllEmpty(all[..i + 1])
  {
    assert all[..i + 1] == all[..i] + [[]];
  }

  /** The loops of ReHash. */
  method MoveAll<Key, T(==)>(from: seq<List<T>>, size: nat, getKey: T -> Key, hash: Key -> nat,
                             ghost items: map<Key, T>) returns (to: seq<List<T>>)
    requires Separate(from) && Holds(Contents(from), items, getKey, hash) && size > 0
    modifies from, NodesOf(from)
    ensures Separate(to) && fresh(to)
    ensures forall e :: e in NodesOf(to) ==> e in old(NodesOf(from)) || fresh(e)
    ensures |to| == size && Holds(Contents(to), items, getKey, hash) && |Flat(Contents(to))| == |items|
  {
    hide Flat, Holds, Halfway, Separate, NodesOf, Contents, List.Valid;
    Started(Contents(from), size, items, getKey, hash);
    to := NewBeside(from, size);
    MoveLists(from, to, getKey, hash, items, from + to);
    Joined(from, to);
    assert Contents(from + to)[|from|..] == Contents(to);
  }

  method MoveLists<Key, T(==)>(from: seq<List<T>>, to: seq<List<T>>, getKey: T -> Key, hash: Key -> nat,
                               ghost items: map<Key, T>, ghost all: seq<List<T>>)
    requires all == from + to && Separate(all) && |to| > 0
    requires Halfway(Contents(all), |from|, items, map[], items, getKey, hash)
    modifies all, NodesOf(all)
    ensures Separate(all)
    ensures forall e :: e in NodesOf(all) ==> e in old(NodesOf(all)) || fresh(e)
    ensures Holds(Contents(all)[|from|..], items, getKey, hash) && |Flat(Contents(all)[|from|..])| == |items|
  {
    hide Flat, Holds, Halfway, Separate, NodesOf, Contents, List.Valid;
    ghost var moved, rest: map<Key, T> := map[], items;
    for i := 0 to |from|
      invariant Separate(all)
      invariant forall e :: e in NodesOf(all) ==> e in old(NodesOf(all)) || fresh(e)
      invariant Halfway(Contents(all), |from|, rest, moved, items, getKey, hash)
      invariant AllEmpty(Contents(all)[..i])
    {
      rest, moved := Empty(from[i], to, getKey, hash, items, rest, moved, all, i);
      OneMoreEmpty(Contents(all), i);
    }
    Finished(Contents(all), |from|, rest, moved, items, getKey, hash);
  }

  /** Moves the items of one list. */
  method Empty<Key, T(==)>(from: List<T>, to: seq<List<T>>, getKey: T -> Key, hash: Key -> nat, ghost items: map<Key, T>,
                           ghost rest: map<Key, T>, ghost moved: map<Key, T>, ghost all: seq<List<T>>, ghost i: nat)
      returns (ghost rest': map<Key, T>, ghost moved': map<Key, T>)
    requires Separate(all) && 0 < |to| <= |all| && to == all[|all| - |to|..] && i < |all| - |to| && from == all[i]
    requires Halfway(Contents(all), |all| - |to|, rest, moved, items, getKey, hash)
    modifies all, NodesOf(all)
    ensures Separate(all)
    ensures forall e :: e in NodesOf(all) ==> e in old(NodesOf(all)) || fresh(e)
    ensures Halfway(Contents(all), |all| - |to|, rest', moved', items, getKey, hash)
    ensures Contents(all)[i] == [] && Contents(all)[..i] == old(Contents(all))[..i]
  {
    hide Slot, Halfway, Separate, NodesOf, List.Valid, Contents;
    rest', moved' := rest, moved;
    OneValid(all, i);
    while !from.IsEmpty()
      invariant Separate(all)
      invariant forall e :: e in NodesOf(all) ==> e in old(NodesOf(all)) || fresh(e)
      invariant Halfway(Contents(all), |all| - |to|, rest', moved', items, getKey, hash)
      invariant from.Valid() && Contents(all)[..i] == old(Contents(all))[..i]
      decreases |from.Items()|
    {
      ghost var was := Contents(all);
      ghost var item := was[i][0];
      MovesOn(was, |all| - |to|, rest', moved', items, getKey, hash, i);
      MoveFirst(from, to, x => Slot(hash(getKey(x)), |to|), all, i);
      rest', moved' := rest' - {getKey(item)}, moved'[getKey(item) := item];
      OneValid(all, i);
    }
  }

  lemma Found<Key, T>(buckets: seq<seq<T>>, items: map<Key, T>, getKey: T -> Key, hash: Key -> nat, b: nat, key: Key,
                      item: Option<T>, k: nat)
    requires Holds(buckets, items, getKey, hash) && b == Slot(hash(key), |buckets|)
    requires item.Some? ==> k < |buckets[b]| && item.value == buckets[b][k] && getKey(item.value) == key
    requires item.None? ==> forall i :: 0 <= i < |buckets[b]| ==> getKey(buckets[b][i]) != key
    ensures item == if key in items then Some(items[key]) else None
  {
    hide Slot;
  }

  lemma HoldsWithout<Key, T>(buckets: seq<seq<T>>, items: map<Key, T>, getKey: T -> Key, hash: Key -> nat,
                             b: nat, k: nat)
    requires Holds(buckets, items, getKey, hash) && b < |buckets| && k < |buckets[b]|
    ensures var after, items' := buckets[b := Without(buckets[b], k)], items - {getKey(buckets[b][k])};
            Holds(after, items', getKey, hash) && |Flat(after)| == |Flat(buckets)| - 1 && |items'| == |items| - 1
  {
    hide Flat, Holds;
    var key := getKey(buckets[b][k]);
    HoldsAt(buckets, items, getKey, hash, b, k);
    HoldsLess(buckets, items, getKey, hash, b, k);
    FlatLength(buckets, b, Without(buckets[b], k));
    assert (items - {key}).Keys == items.Keys - {key};
  }

  lemma NotYetMoved<Key, T>(from: seq<seq<T>>, rest: map<Key, T>, to: seq<seq<T>>, moved: map<Key, T>,
                            items: map<Key, T>, getKey: T -> Key, hash: Key -> nat, i: nat, b: nat)
    requires Moving(from, rest, to, moved, items, getKey, hash) && i < |from| && from[i] != [] && b < |to|
    ensures from[i][0] !in to[b]
  {
    hide Holds, Flat;
    HoldsAt(from, rest, getKey, hash, i, 0);
    NotThere(to, moved, getKey, hash, b, from[i][0]);
  }

  lemma NotThere<Key, T>(buckets: seq<seq<T>>, items: map<Key, T>, getKey: T -> Key, hash: Key -> nat, b: nat, item: T)
    requires Holds(buckets, items, getKey, hash) && b < |buckets| && getKey(item) !in items
    ensures item !in buckets[b]
  {
    hide Slot;
  }

  lemma HoldsSome<Key, T>(buckets: seq<seq<T>>, items: map<Key, T>, getKey: T -> Key, hash: Key -> nat)
    requires Holds(buckets, items, getKey, hash)
    ensures |buckets| > 0
  {
  }

  lemma HoldsAt<Key, T>(buckets: seq<seq<T>>, items: map<Key, T>, getKey: T -> Key, hash: Key -> nat, b: nat, k: nat)
    requires Holds(buckets, items, getKey, hash) && b < |buckets| && k < |buckets[b]|
    ensures getKey(buckets[b][k]) in items && items[getKey(buckets[b][k])] == buckets[b][k]
  {
  }

  lemma HoldsNone<Key, T>(buckets: seq<seq<T>>, items: map<Key, T>, getKey: T -> Key, hash: Key -> nat)
    requires Holds(buckets, items, getKey, hash) && forall b :: 0 <= b < |buckets| ==> buckets[b] == []
    ensures items == map[]
  {
  }

  lemma FlatNext<T>(buckets: seq<seq<T>>, b: nat)
    requires b < |buckets|
    ensures Flat(buckets[..b + 1]) == Flat(buckets[..b]) + buckets[b]
  {
    assert buckets[..b + 1][..b] == buckets[..b];
  }

  /** One more item passed, and what that is at the end of a bucket. */
  lemma PassOne<T>(all: seq<seq<T>>, b: nat, place: nat)
    requires b < |all| && place < |all[b]|
    ensures Flat(all[..b]) + all[b][..place + 1] == Flat(all[..b]) + all[b][..place] + [all[b][place]]
    ensures place + 1 == |all[b]| ==>
              Flat(all[..b + 1]) == Flat(all[..b]) + all[b][..place] + [all[b][place]]
    ensures all[b][..0] == []
  {
    hide Flat;
    FlatNext(all, b);
    assert all[b][..place + 1] == all[b][..place] + [all[b][place]];
  }

  /** Steps through the items of a table that is not being changed. */
  class HashIterator<Key(==), T(==)> {
    const table: HashTable<Key, T>
    var bucket: nat
    var bucketIter: ListIterator?<T>

    ghost predicate Valid()
      reads this, table, table.buckets, NodesOf(table.buckets), bucketIter
    {
      && table.Valid() && bucket <= table.numBuckets
      && (bucket < table.numBuckets ==>
            && bucketIter != null && bucketIter.nodes == table.buckets[bucket].nodes
            && bucketIter.Valid() && bucketIter.seen < |bucketIter.nodes|)
    }

    /** How far the list iterator is in its bucket. */
    ghost function Place(): nat
      reads this, bucketIter
    {
      if bucketIter == null then 0 else bucketIter.seen
    }

    /** The items already passed. */
    ghost function Passed(): seq<T>
      requires Valid()
      reads this, table, table.buckets, NodesOf(table.buckets), bucketIter
    {
      var all := Contents(table.buckets);
      Flat(all[..bucket]) + if bucket < table.numBuckets then all[bucket][..Place()] else []
    }

    constructor (table: HashTable<Key, T>)
      requires table.Valid()
      ensures Valid() && this.table == table && Passed() == [] && (bucketIter == null || fresh(bucketIter))
    {
      hide Holds, Flat, List.Valid, Apart, Contents;
      var first, iter := EnterFrom(table, 0);
      FlatEmpty(Contents(table.buckets)[..0]);
      this.table := table;
      bucket, bucketIter := first, iter;
    }

    /** Where the iterator goes when everything before bucket `start` is passed. */
    static method EnterFrom(table: HashTable<Key, T>, start: nat) returns (bucket: nat, iter: ListIterator?<T>)
      requires table.Valid() && start <= table.numBuckets
      ensures start <= bucket <= table.numBuckets && table.Valid()
      ensures Flat(Contents(table.buckets)[..bucket]) == Flat(Contents(table.buckets)[..start])
      ensures if bucket == table.numBuckets then iter == null
              else && iter != null && fresh(iter) && iter.nodes == table.buckets[bucket].nodes
                   && iter.Valid() && iter.seen == 0 < |iter.nodes|
    {
      hide Holds, Flat, List.Valid, Apart;
      bucket := table.FindNextFullBucket(start);
      iter := null;
      if bucket < table.numBuckets {
        OneValid(table.buckets, bucket);
        iter := new ListIterator(table.buckets[bucket]);
      }
    }

    predicate IsDone()
      requires Valid()
      reads this, table, table.buckets, NodesOf(table.buckets), bucketIter
    {
      bucket == table.numBuckets
    }

    lemma DoneMeansAll()
      requires Valid() && IsDone()
      ensures Passed() == Flat(Contents(table.buckets))
    {
      hide Holds, Flat;
      assert Contents(table.buckets)[..bucket] == Contents(table.buckets);
    }

    method Item() returns (item: T)
      requires Valid() && !IsDone()
      ensures Place() < |Contents(table.buckets)[bucket]| && item == Contents(table.buckets)[bucket][Place()]
    {
      hide Holds, Flat, List.Valid, Apart;
      item := bucketIter.Item();
    }

    method Next()
      requires Valid() && !IsDone()
      modifies this, bucketIter
      ensures Valid() && Passed() == old(Passed()) + [old(Contents(table.buckets)[bucket][Place()])]
      ensures Contents(table.buckets) == old(Contents(table.buckets))
      ensures bucket > old(bucket) || (bucket == old(bucket) && Place() == old(Place()) + 1)
      ensures bucketIter == null || bucketIter == old(bucketIter) || fresh(bucketIter)
    {
      hide HashTable.Valid, NodesOf, Contents, Flat, ListIterator.Valid;
      table.Sizes();
      PassOne(Contents(table.buckets), bucket, Place());
      Advance();
      if bucketIter.IsDone() {
        var next, iter := EnterFrom(table, bucket + 1);
        MoveTo(next, iter);
      }
    }

    /** Steps on in the list; the table is made of other objects. */
    method Advance()
      requires table.Valid() && bucketIter != null && bucketIter.Valid() && !bucketIter.IsDone()
      modifies bucketIter
      ensures table.Valid() && Contents(table.buckets) == old(Contents(table.buckets))
      ensures NodesOf(table.buckets) == old(NodesOf(table.buckets))
      ensures bucketIter.Valid() && bucketIter.nodes == old(bucketIter.nodes) && bucketIter.seen == old(bucketIter.seen) + 1
    {
      hide Holds, Flat, List.Valid, Apart;
      bucketIter.Next();
    }

    method MoveTo(next: nat, iter: ListIterator?<T>)
      requires table.Valid() && (iter != null ==> iter.Valid())
      modifies this
      ensures bucket == next && bucketIter == iter
      ensures table.Valid() && Contents(table.buckets) == old(Contents(table.buckets))
      ensures NodesOf(table.buckets) == old(NodesOf(table.buckets))
      ensures iter != null ==> iter.Valid()
    {
      hide Holds, Flat, List.Valid, Apart;
      bucket, bucketIter := next, iter;
    }
  }

  /** An iterator visits each item of the table exactly once. */
  method VisitAll<Key(==), T(==)>(table: HashTable<Key, T>) returns (visited: seq<T>)
    requires table.Valid()
    ensures |visited| == table.numItems
    ensures forall i, j :: 0 <= i < j < |visited| ==> visited[i] != visited[j]
    ensures forall x :: x in visited <==> table.getKey(x) in table.items && table.items[table.getKey(x)] == x
  {
    hide Holds, Flat, HashTable.Valid, NodesOf, Contents;
    visited := Visit(table);
    table.Sizes();
    FlatIsEveryItemOnce(Contents(table.buckets), table.items, table.getKey, table.hash);
  }

  method Visit<Key(==), T(==)>(table: HashTable<Key, T>) returns (visited: seq<T>)
    requires table.Valid()
    ensures table.Valid() && visited == Flat(Contents(table.buckets))
  {
    hide Holds, Flat, List.Valid, Apart;
    visited := [];
    var iter := new HashIterator(table);
    while !iter.IsDone()
      invariant iter.Valid() && fresh(iter) && iter.table == table && visited == iter.Passed()
      invariant iter.bucketIter == null || fresh(iter.bucketIter)
      invariant Contents(table.buckets) == old(Contents(table.buckets))
      decreases table.numBuckets - iter.bucket,
                if iter.bucket < table.numBuckets then |Contents(table.buckets)[iter.bucket]| - iter.Place() else 0
    {
      var item := iter.Item();
      visited := visited + [item];
      iter.Next();
    }
    iter.DoneMeansAll();
  }
}
