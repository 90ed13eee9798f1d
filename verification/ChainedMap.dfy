/** The chained map as the program keeps it: an array of chains, changed in place. */
module ChainedMap {
  import opened Options
  import opened Sequences
  import opened Chains
  import opened MapModel

  /** Finds the first link with `key` in a bucket, and the link in front of it. */
  method FindKey(table: array<Link?<Item>>, ghost s: Shape<Item>, b: nat, key: string)
    returns (before: Link?<Item>, link: Link?<Item>)
    requires Good(s) && Mirrors(table, s) && b < table.Length
    ensures StandsAt(s, link, b, IndexOf(BucketsOf(s)[b], key))
    ensures before == if IndexOf(BucketsOf(s)[b], key) == 0 then null
      else s.chains[b][IndexOf(BucketsOf(s)[b], key) - 1]
  {
    hide Good, Agree, BucketsOf;
    ghost var c := BucketsOf(s)[b];
    before, link := null, table[b];
    ghost var i := 0;
    Stands(s, b, 0);
    while link != null && link.item.key != key
      invariant 0 <= i <= |s.chains[b]| && StandsAt(s, link, b, i)
      invariant before == if i == 0 then null else s.chains[b][i - 1]
      invariant forall j :: 0 <= j < i ==> c[j].key != key
      decreases |c| - i
    {
      Stands(s, b, i + 1);
      before, link := link, link.next;
      i := i + 1;
    }
    IndexIs(c, key, i);
  }

  /** prv_map_insert_item: overwrites the data of the link with the same key, or puts the link in front. */
  method InsertLink(hash: Hash, table: array<Link?<Item>>, n: nat, ghost s: Shape<Item>, link: Link<Item>)
    returns (n': nat, ghost s': Shape<Item>)
    requires Good(s) && Mirrors(table, s) && table.Length > 0 && link !in s.home
    modifies table, link`next, s.home.Keys`item
    ensures Good(s') && Mirrors(table, s') && s.home.Keys <= s'.home.Keys <= s.home.Keys + {link}
    ensures Map(BucketsOf(s'), n') == InsertItem(hash, Map(BucketsOf(s), n), old(link.item))
  {
    hide Good, Mirrors, BucketsOf;
    BucketCount(table, s);
    var b := hash(link.item.key) % table.Length;
    ghost var c := BucketsOf(s)[b];
    var _, iter := FindKey(table, s, b, link.item.key);
    n' := n;
    if iter != null {
      s' := SetItem(table, s, b, IndexOf(c, link.item.key), iter, Item(iter.item.key, link.item.data));
    } else {
      s' := PrependLink(table, s, b, link);
      n' := n' + 1;
    }
  }

  // ----- moving all links to another array

  /** The links that still stand in the old array once those of bucket `i` from `j` on have moved. */
  ghost predicate Ahead(s: Shape<Item>, i: nat, j: nat, x: Link<Item>) {
    x in s.home && (s.home[x].bucket > i || (s.home[x].bucket == i && s.home[x].index < j))
  }

  ghost predicate Waiting(old0: Shape<Item>, i: nat, j: nat)
    reads old0.home.Keys
  {
    forall x {:trigger x.next} {:trigger x.item} ::
      x in old0.home && Ahead(old0, i, j, x) && x in old0.succ && x in old0.item ==>
      x.item == old0.item[x] && x.next == old0.succ[x]
  }

  /** The new array holds links that have left the old one, and stands for `m`. */
  ghost predicate Moving(old0: Shape<Item>, i: nat, j: nat, table: array<Link?<Item>>, s: Shape<Item>, n: nat, m: Map)
    reads table, s.home.Keys, old0.home.Keys
  {
    && Good(old0) && Good(s) && Mirrors(table, s) && table.Length > 0
    && Waiting(old0, i, j)
    && (forall x :: x in s.home ==> x in old0.home && !Ahead(old0, i, j, x))
    && Map(BucketsOf(s), n) == m
  }

  /** Moves the one link of the old array that is next to go. */
  method MoveLink(hash: Hash, ghost old0: Shape<Item>, ghost i: nat, ghost j: nat, link: Link<Item>,
                  table: array<Link?<Item>>, n: nat, ghost s: Shape<Item>, ghost m: Map)
    returns (n': nat, ghost s': Shape<Item>)
    requires Moving(old0, i, j + 1, table, s, n, m)
    requires i < |old0.chains| && j < |old0.chains[i]| && link == old0.chains[i][j]
    modifies table, old0.home.Keys
    ensures |m.buckets| > 0
    ensures Moving(old0, i, j, table, s', n', InsertItem(hash, m, BucketsOf(old0)[i][j]))
  {
    hide Good, Agree, BucketsOf, InsertItem;
    Step(old0, i, j);
    link.next := null;
    n', s' := InsertLink(hash, table, n, s, link);
  }

  /** prv_map_realloc_item: the links behind this one move first. */
  method MoveChain(hash: Hash, ghost old0: Shape<Item>, ghost i: nat, ghost j: nat, link: Link<Item>,
                   table: array<Link?<Item>>, n: nat, ghost s: Shape<Item>, ghost m: Map)
    returns (n': nat, ghost s': Shape<Item>)
    requires i < |old0.chains| && j < |old0.chains[i]| && link == old0.chains[i][j]
    requires Moving(old0, i, |old0.chains[i]|, table, s, n, m)
    modifies table, old0.home.Keys
    ensures |m.buckets| > 0
    ensures Moving(old0, i, j, table, s', n', InsertChain(hash, m, BucketsOf(old0)[i][j..]))
    decreases |old0.chains[i]| - j
  {
    hide Good, Mirrors, BucketsOf, InsertItem;
    BucketCount(table, s);
    ghost var c := BucketsOf(old0)[i];
    Step(old0, i, j);
    n', s' := n, s;
    if link.next != null {
      n', s' := MoveChain(hash, old0, i, j + 1, link.next, table, n, s, m);
    }
    ghost var m' := InsertChain(hash, m, c[j + 1..]);
    assert c[j..][1..] == c[j + 1..];
    n', s' := MoveLink(hash, old0, i, j, link, table, n', s', m');
  }

  /** How many links of bucket `i` wait when its turn comes. */
  ghost function Limit(s: Shape<Item>, i: nat): nat { if i < |s.chains| then |s.chains[i]| else 0 }

  lemma NextBucket(old0: Shape<Item>, i: nat, table: array<Link?<Item>>, s: Shape<Item>, n: nat, m: Map)
    requires i < |old0.chains| && Moving(old0, i, 0, table, s, n, m)
    ensures Moving(old0, i + 1, Limit(old0, i + 1), table, s, n, m)
  {
    hide Good, Mirrors, BucketsOf;
    forall x | x in old0.home ensures Ahead(old0, i + 1, Limit(old0, i + 1), x) <==> Ahead(old0, i, 0, x) {
      Standing(old0, x);
    }
  }

  lemma SkipEmptyBucket(hash: Hash, old0: Shape<Item>, i: nat, table: array<Link?<Item>>, s: Shape<Item>, n: nat,
                        m: Map)
    requires i < |old0.chains| && old0.chains[i] == [] && Moving(old0, i, Limit(old0, i), table, s, n, m)
    ensures BucketsOf(old0)[i] == [] && |m.buckets| > 0
    ensures Moving(old0, i, 0, table, s, n, InsertChain(hash, m, BucketsOf(old0)[i]))
  {
  }

  /** Moves every chain, one old bucket after the other. */
  method MoveAll(hash: Hash, ghost old0: Shape<Item>, oldTable: array<Link?<Item>>, table: array<Link?<Item>>,
                 n: nat, ghost s: Shape<Item>)
    returns (n': nat, ghost s': Shape<Item>)
    requires Good(old0) && oldTable != table && oldTable.Length == |old0.chains|
    requires forall b :: 0 <= b < oldTable.Length ==> oldTable[b] == Head(old0.chains[b])
    requires Good(s) && table.Length > 0 && Moving(old0, 0, Limit(old0, 0), table, s, n, Map(BucketsOf(s), n))
    modifies table, old0.home.Keys
    ensures Good(s') && Mirrors(table, s') && s'.home.Keys <= old0.home.Keys
    ensures |BucketsOf(s)| > 0
    ensures Map(BucketsOf(s'), n') == InsertChains(hash, Map(BucketsOf(s), n), BucketsOf(old0))
  {
    hide Good, Mirrors, BucketsOf, InsertChain;
    BucketCount(table, s);
    ghost var b, m := BucketsOf(old0), Map(BucketsOf(s), n);
    n', s' := n, s;
    var i := 0;
    while i < oldTable.Length
      invariant 0 <= i <= oldTable.Length == |b| && |m.buckets| > 0
      invariant Moving(old0, i, Limit(old0, i), table, s', n', InsertChains(hash, m, b[..i]))
    {
      assert b[..i + 1][..i] == b[..i];
      if oldTable[i] != null {
        n', s' := MoveChain(hash, old0, i, 0, oldTable[i], table, n', s', InsertChains(hash, m, b[..i]));
        assert b[i][0..] == b[i];
      } else {
        SkipEmptyBucket(hash, old0, i, table, s', n', InsertChains(hash, m, b[..i]));
      }
      NextBucket(old0, i, table, s', n', InsertChains(hash, m, b[..i + 1]));
      i := i + 1;
    }
    assert b[..i] == b;
  }

  method Rebuild(hash: Hash, ghost old0: Shape<Item>, oldTable: array<Link?<Item>>, n: nat, newSize: nat)
    returns (table: array<Link?<Item>>, n': nat, ghost s: Shape<Item>)
    requires Good(old0) && Mirrors(oldTable, old0) && newSize > 0
    modifies old0.home.Keys
    ensures fresh(table) && table.Length == newSize && Good(s) && Mirrors(table, s) && s.home.Keys <= old0.home.Keys
    ensures Map(BucketsOf(s), n') == Resize(hash, Map(BucketsOf(old0), n), newSize)
  {
    table, s := NewTable(newSize);
    AllWait(old0, oldTable, table, s, n);
    assert forall b :: 0 <= b < oldTable.Length ==> oldTable[b] == Head(old0.chains[b]);
    hide Good, Mirrors, BucketsOf, InsertChains, Moving;
    n', s := MoveAll(hash, old0, oldTable, table, n, s);
  }

  class ChainedMap {
    const hash: Hash
    const threshold: real
    var hashTable: array<Link?<Item>>
    var n: nat
    var size: nat
    var reallocAt: int
    ghost var shape: Shape<Item>

    ghost predicate Valid()
      reads this, hashTable, shape.home.Keys
    {
      && size == hashTable.Length > 0
      && reallocAt == ReallocAt(size, threshold)
      && Good(shape) && Mirrors(hashTable, shape)
    }

    /** The map on values. */
    ghost function View(): (m: Map)
      requires Good(shape)
      reads this
    {
      Map(BucketsOf(shape), n)
    }

    /** Every object the map writes to. */
    ghost function Repr(): set<object>
      reads this
    {
      {this, hashTable} + shape.home.Keys
    }

    constructor (hash: Hash, newSize: nat, threshold: real)
      requires newSize > 0
      ensures Valid() && View() == Empty(newSize)
      ensures fresh(hashTable) && shape.home == map[]
      ensures this.hash == hash && this.threshold == threshold
    {
      this.hash, this.threshold := hash, threshold;
      size, reallocAt, n := newSize, ReallocAt(newSize, threshold), 0;
      new;
      hashTable, shape := NewTable(newSize);
    }

    method Get(key: string) returns (data: Option<nat>)
      requires Valid()
      ensures |View().buckets| > 0 && data == MapModel.Get(hash, View(), key)
    {
      hide Good, Mirrors, BucketsOf;
      BucketCount(hashTable, shape);
      var _, current := FindKey(hashTable, shape, Bucket(hash, key, size), key);
      data := if current == null then None else Some(current.item.data);
    }

    /** map_realloc: `n` goes on counting from its old value. */
    method Realloc(newSize: nat)
      requires Valid() && newSize > 0
      modifies this, shape.home.Keys
      ensures Valid() && View() == Resize(hash, old(View()), newSize)
      ensures fresh(hashTable) && shape.home.Keys <= old(shape.home.Keys)
    {
      hide Good, Mirrors, BucketsOf, Resize;
      size, reallocAt := newSize, ReallocAt(newSize, threshold);
      hashTable, n, shape := Rebuild(hash, shape, hashTable, n, newSize);
    }

    method Insert(key: string, data: nat)
      requires Valid()
      modifies Repr()
      ensures |old(View()).buckets| > 0
      ensures Valid() && View() == MapModel.Insert(hash, threshold, old(View()), key, data)
      ensures fresh(Repr() - old(Repr()))
    {
      hide Good, Mirrors, BucketsOf, InsertItem, Resize;
      BucketCount(hashTable, shape);
      if n + 1 >= reallocAt {
        Realloc(size * 2);
      }
      var toCopy := new Link(Item(key, data));
      n, shape := InsertLink(hash, hashTable, n, shape, toCopy);
    }

    /** Returns the data of the removed key. */
    method Remove(key: string) returns (data: Option<nat>)
      requires Valid()
      modifies hashTable, `shape, shape.home.Keys`next
      ensures |old(View()).buckets| > 0
      ensures Valid() && View() == MapModel.Remove(hash, old(View()), key)
      ensures data == MapModel.Get(hash, old(View()), key)
      ensures shape.home.Keys <= old(shape.home.Keys)
    {
      hide Good, Mirrors, BucketsOf;
      BucketCount(hashTable, shape);
      var b := Bucket(hash, key, size);
      var before, current := FindKey(hashTable, shape, b, key);
      data := None;
      if current != null {
        data := Some(current.item.data);
        shape := TakeLink(hashTable, shape, b, IndexOf(BucketsOf(shape)[b], key), before, current);
      }
    }

    /** map_all_keys: stops as soon as `n` keys are out. */
    method AllKeys() returns (out: seq<string>)
      requires Valid()
      ensures out == MapModel.AllKeys(View())
    {
      hide Good, Mirrors, BucketsOf, Keys;
      BucketCount(hashTable, shape);
      out := [];
      var i := 0;
      while i < size && |out| < n
        invariant 0 <= i <= size
        invariant KeysFrom(View(), i, out) == MapModel.AllKeys(View())
      {
        var keys := BucketKeys(hashTable, shape, i);
        out := out + keys;
        i := i + 1;
      }
    }
  }

  lemma AllWait(old0: Shape<Item>, oldTable: array<Link?<Item>>, table: array<Link?<Item>>, s: Shape<Item>, n: nat)
    requires Good(old0) && Mirrors(oldTable, old0) && Good(s) && Mirrors(table, s) && s.home == map[] &&
      table.Length > 0
    ensures Moving(old0, 0, Limit(old0, 0), table, s, n, Map(BucketsOf(s), n))
  {
  }

  method BucketKeys(table: array<Link?<Item>>, ghost s: Shape<Item>, b: nat) returns (keys: seq<string>)
    requires Good(s) && Mirrors(table, s) && b < table.Length
    ensures keys == Keys(BucketsOf(s)[b])
  {
    hide Good, Agree, BucketsOf;
    ghost var c := BucketsOf(s)[b];
    var current := table[b];
    keys := [];
    ghost var i := 0;
    Stands(s, b, 0);
    while current != null
      invariant 0 <= i <= |c| && StandsAt(s, current, b, i)
      invariant keys == Keys(c[..i])
      decreases |c| - i
    {
      Stands(s, b, i + 1);
      keys := keys + [current.item.key];
      current := current.next;
      i := i + 1;
    }
    assert c[..i] == c;
  }
}
