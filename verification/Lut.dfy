/** The lookup table as the program keeps it: an array of chains, relinked in place. */
module Lut {
  import opened Options
  import opened Sequences
  import opened Chains
  import opened LutModel
  import opened Ownership
  import LutIds
  import opened References

  /** The old links that have moved so far: those of the buckets before `i`, and `j` of bucket `i`. */
  ghost predicate MovedUpTo(old0: Shape<Entry>, new0: Shape<Entry>, i: nat, j: nat) {
    && (forall x {:trigger x in new0.home} :: x in new0.home ==> x in old0.home)
    && (forall x {:trigger old0.home[x]} :: x in old0.home ==>
      (x in new0.home <==> old0.home[x].bucket < i || (old0.home[x].bucket == i && old0.home[x].index < j)))
  }

  /** The old links that have not moved are linked as before; no entry has changed. */
  ghost predicate Waiting(old0: Shape<Entry>, moved: set<Link<Entry>>)
    reads old0.home.Keys
  {
    forall x {:trigger x.next} {:trigger x.item} :: x in old0.home && x in old0.succ && x in old0.item ==>
      x.item == old0.item[x] && (x !in moved ==> x.next == old0.succ[x])
  }

  class LookupTable {
    const hash: Key -> U32
    var table: array<Link?<Entry>>
    var n: nat
    var size: nat
    var reallocAt: nat
    var refs: Ledger
    ghost var shape: Shape<Entry>

    ghost predicate Valid()
      reads `table, `n, `size, `reallocAt, `shape, table, shape.home.Keys
    {
      && size == table.Length > 0
      && reallocAt == ReallocAt(size)
      && Good(shape) && Mirrors(table, shape)
      && n == |Flatten(BucketsOf(shape))|
    }

    /** The table on values. */
    ghost function View(): (t: Table)
      requires Good(shape)
      reads `n, `shape
    {
      Table(BucketsOf(shape), n)
    }

    /** Every object the table writes to. */
    ghost function Repr(): set<object>
      reads `table, `shape
    {
      {this, table} + shape.home.Keys
    }

    constructor (hash: Key -> U32, newSize: nat)
      requires newSize > 0
      ensures Valid() && View() == Empty(newSize)
      ensures fresh(table) && shape.home == map[]
      ensures this.hash == hash && refs == map[]
    {
      this.hash := hash;
      size, reallocAt, n, refs := newSize, ReallocAt(newSize), 0, map[];
      new;
      table, shape := NewTable(newSize);
      hide Good, Mirrors;
      FlattenEmpty(BucketsOf(shape));
    }

    // ----- searching a bucket

    /** Counts the entries under the hash until the key is found. */
    method GetId(key: Key) returns (id: nat, flag: Flags)
      requires Valid()
      ensures (id, flag) == LutModel.GetId(hash, View(), key)
    {
      ScanIsGetId(hash, View(), key);
      id, flag := ScanBucket(hash(key), key);
    }

    method ScanBucket(h: U32, key: Key) returns (id: nat, flag: Flags)
      requires Valid()
      ensures (id, flag) == Scan(h, key, View().buckets[h % size], 0)
    {
      ghost var b := View().buckets[h % size];
      ghost var c := shape.chains[h % size];
      assert table[h % size] == Head(c) && |b| == |c|;
      var overlap: nat := 0;
      var current := table[h % size];
      ghost var i := 0;
      hide Pack, Good, BucketsOf;
      while current != null
        invariant 0 <= i <= |c| && current == if i < |c| then c[i] else null
        invariant Scan(h, key, b[i..], overlap) == Scan(h, key, b, 0)
        decreases |c| - i
      {
        Step(shape, h % size, i);
        assert b[i..][1..] == b[i + 1..];
        if IdHash(current.item.id) == h {
          if current.item.key == key {
            return current.item.id, PRESENT;
          }
          overlap := overlap + 1;
        }
        current := current.next;
        i := i + 1;
      }
      return Pack(h, overlap), NOT_FOUND;
    }

    /** The first link that carries `id`, if any. */
    method FindLink(id: nat) returns (link: Link?<Entry>)
      requires Valid()
      ensures match FindId(View(), id)
        case None => link == null
        case Some(e) => link != null && link.item == e
    {
      link := FindInTable(table, shape, id);
    }

    method Get(id: nat) returns (data: nat)
      requires Valid()
      ensures data == LutModel.Get(View(), id)
    {
      var link := FindLink(id);
      data := if link == null then 0 else link.item.data;
    }

    method GetKey(id: nat) returns (key: Option<Key>)
      requires Valid()
      ensures key == LutModel.GetKey(View(), id)
    {
      var link := FindLink(id);
      key := if link == null then None else Some(link.item.key);
    }

    // ----- resizing

    /** lut_realloc: every link moves to a new array of buckets. */
    method Realloc(newSize: nat)
      requires Valid() && newSize > 0
      modifies this, shape.home.Keys`next
      ensures Valid() && View() == Resize(old(View()), newSize)
      ensures fresh(table) && shape.home.Keys == old(shape.home.Keys) && refs == old(refs)
      ensures forall x :: x in shape.home ==> x.item == old(x.item)
    {
      hide Good, Mirrors, BucketsOf, Spread, Flatten;
      size, reallocAt := newSize, ReallocAt(newSize);
      table, shape, n := Rebuild(table, n, newSize, shape);
    }

    method GrowIfFull()
      requires Valid()
      modifies this, shape.home.Keys`next
      ensures Valid() && View() == Grow(old(View()))
      ensures (table == old(table) || fresh(table)) && shape.home.Keys == old(shape.home.Keys) && refs == old(refs)
    {
      if n + 1 >= reallocAt {
        Realloc(size * 4);
      }
    }

    // ----- insertion

    method AppendNode(node: Link<Entry>)
      requires Valid() && node.next == null && node !in shape.home
      modifies `n, `shape, table, shape.home.Keys`next
      ensures Valid() && View() == LutModel.Append(old(View()), old(node.item))
      ensures shape.home.Keys == old(shape.home.Keys) + {node}
    {
      hide Good, Mirrors, BucketsOf, Flatten;
      BucketCount(table, shape);
      var b := IdHash(node.item.id) % size;
      AppendToChain(BucketsOf(shape), b, node.item);
      shape := AppendLink(table, shape, b, node);
      n := n + 1;
    }

    /** An overwrite with other data takes a reference on it and gives the old one back. */
    method SettleReferences(prior: Entry, data: nat, flag: Flags)
      modifies `refs
      ensures Settled(old(refs), refs, prior, data, flag)
    {
      hide Owner;
      if data != prior.data {
        refs := Take(refs, Owner(flag, data));
        refs := GiveBack(refs, Owner(prior.flags, prior.data));
      }
    }

    /** Overwrites the entry that carries `id`. */
    method OverwriteNode(id: nat, data: nat, flag: Flags)
      requires Valid() && FindId(View(), id).Some?
      modifies `shape, `refs, shape.home.Keys`item
      ensures Valid() && View() == Overwrite(old(View()), id, data, flag)
      ensures shape.home == old(shape.home)
      ensures Settled(old(refs), refs, old(FindId(View(), id)).value, data, flag)
    {
      hide Good, Mirrors, BucketsOf, Flatten, Settled;
      BucketCount(table, shape);
      var prior;
      prior, shape := OverwriteLink(table, shape, id, data, flag);
      SettleReferences(prior, data, flag);
    }

    /** lut_insert_id: the node takes its reference first; an overwrite frees the node again. */
    method InsertId(key: Key, data: nat, id: nat, flag: Flags)
      requires Valid() && CanInsert(View(), id, flag)
      modifies Repr()
      ensures Valid() && View() == LutModel.InsertId(old(View()), key, data, id, flag)
      ensures fresh(Repr() - old(Repr()))
      ensures forall r :: Held(refs, r) == Held(old(refs), r) + InsertDelta(old(View()), data, id, flag, r)
    {
      hide Good, Mirrors, BucketsOf, Flatten, Owner, Held, FindId, Grow;
      GrowIfFull();
      var node := new Link(Entry(key, id, data, flag));
      refs := Take(refs, Owner(flag, data));
      if flag.notFound {
        AppendNode(node);
      } else if flag.present {
        OverwriteNode(id, data, flag);
        refs := GiveBack(refs, Owner(flag, data));
      }
    }

    /** lut_insert: looks the id up, then inserts under it. */
    method Insert(key: Key, data: nat, flags: Flags) returns (id: nat)
      requires Valid() && Wf(hash, View()) && LutIds.OwnerFlags(flags)
      modifies Repr()
      ensures Valid() && View() == LutIds.Insert(hash, old(View()), key, data, flags) && Wf(hash, View())
      ensures id == LutModel.GetId(hash, old(View()), key).0
      ensures fresh(Repr() - old(Repr()))
      ensures forall r :: Held(refs, r) == Held(old(refs), r) + CallDelta(hash, old(View()), key, data, flags, r)
    {
      hide Good, Mirrors, BucketsOf, Flatten, Wf, LutModel.GetId, InsertDelta, LutModel.InsertId;
      LutIds.KnownKeyCanBeInserted(hash, View(), key, flags);
      LutIds.InsertKeepsWf(hash, View(), key, data, flags);
      var flag;
      id, flag := GetId(key);
      InsertId(key, data, id, Or(flag, flags));
    }

    // ----- releasing the table

    /** lut_free: frees every node of every bucket, and with it the reference the node owns. */
    method Release()
      requires Valid()
      modifies `refs
      ensures forall r :: Held(refs, r) == Held(old(refs), r) - OwnCount(View(), r)
    {
      hide Good, Mirrors, BucketsOf, Flatten, Filter, OwnedBy, Held;
      BucketCount(table, shape);
      ghost var b := BucketsOf(shape);
      assert b[..0] == [];
      FlattenNone<Entry>();
      FilterNothing();
      var i := 0;
      while i < size
        invariant 0 <= i <= size == |b|
        invariant forall r :: Held(refs, r) == Held(old(refs), r) - |Filter(OwnedBy(r), Flatten(b[..i]))|
      {
        refs := ReleaseChain(table, shape, i, refs);
        FlattenNext(b, i);
        forall r
          ensures |Filter(OwnedBy(r), Flatten(b[..i + 1]))| ==
            |Filter(OwnedBy(r), Flatten(b[..i]))| + |Filter(OwnedBy(r), b[i])|
        {
          FilterConcat(OwnedBy(r), Flatten(b[..i]), b[i]);
        }
        i := i + 1;
      }
      assert b[..i] == b;
    }
  }

  /** The life of a table: made empty, filled by calls of lut_insert, freed. A run that keeps the kinds of ownership
      leaves no reference on any object. */
  method FillAndRelease(hash: Key -> U32, size: nat, calls: seq<LutIds.Call>) returns (table: LookupTable)
    requires size > 0 && LutIds.OwnerCalls(calls)
    ensures fresh(table) && table.Valid() && Wf(hash, Empty(size))
    ensures table.View() == LutIds.Run(hash, Empty(size), calls)
    ensures RunKeepsKinds(hash, Empty(size), calls) ==> forall r :: Held(table.refs, r) == 0
  {
    hide Good, Mirrors, BucketsOf, Flatten, Wf, Held, RunKeepsKinds, RunDelta, CallDelta, OwnCount, LutIds.Run,
      LutIds.Insert;
    EmptyWf(hash, size);
    NothingRun(hash, Empty(size));
    table := new LookupTable(hash, size);
    for i := 0 to |calls|
      invariant fresh(table.Repr()) && table.hash == hash && table.Valid()
      invariant table.View() == LutIds.Run(hash, Empty(size), calls[..i])
      invariant forall r :: Held(table.refs, r) == RunDelta(hash, Empty(size), calls[..i], r)
    {
      var call := calls[i];
      RunNext(hash, Empty(size), calls, i);
      var _ := table.Insert(call.key, call.data, call.flags);
    }
    assert calls[..|calls|] == calls;
    table.Release();
    forall r | RunKeepsKinds(hash, Empty(size), calls) ensures Held(table.refs, r) == 0 {
      RunFromEmptyConserves(hash, size, calls, r);
    }
  }

  lemma FilterNothing()
    ensures forall r :: Filter(OwnedBy(r), []) == []
  {
  }

  /** Frees the nodes of one bucket, the last one first. */
  method ReleaseChain(table: array<Link?<Entry>>, ghost s: Shape<Entry>, p: nat, refs: Ledger) returns (refs': Ledger)
    requires Good(s) && Mirrors(table, s) && p < table.Length
    ensures forall r :: Held(refs', r) == Held(refs, r) - |Filter(OwnedBy(r), BucketsOf(s)[p])|
  {
    hide Good, Agree, BucketsOf, Filter, OwnedBy, Held;
    Stands(s, p, 0);
    refs' := ReleaseNode(table[p], s, p, 0, refs);
    assert BucketsOf(s)[p][0..] == BucketsOf(s)[p];
  }

  /** lut_node_free: the next node first, then the reference of this one. */
  method ReleaseNode(node: Link?<Entry>, ghost s: Shape<Entry>, ghost p: nat, ghost j: nat, refs: Ledger)
    returns (refs': Ledger)
    requires Good(s) && Agree(s) && StandsAt(s, node, p, j)
    ensures forall r :: Held(refs', r) == Held(refs, r) - |Filter(OwnedBy(r), BucketsOf(s)[p][j..])|
    decreases |s.chains[p]| - j
  {
    hide Good, Agree, BucketsOf, Filter, OwnedBy, Held;
    ghost var b := BucketsOf(s)[p];
    refs' := refs;
    if node == null {
      FilterNothing();
      assert b[j..] == [];
    } else {
      Stands(s, p, j + 1);
      refs' := ReleaseNode(node.next, s, p, j + 1, refs);
      refs' := GiveBack(refs', Owner(node.item.flags, node.item.data));
      forall r ensures |Filter(OwnedBy(r), b[j..])| ==
        |Filter(OwnedBy(r), b[j + 1..])| + Mine(Owner(b[j].flags, b[j].data), r)
      {
        CountFirst(b, j, r);
      }
    }
  }

  lemma CountFirst(b: seq<Entry>, j: nat, r: Ref)
    requires j < |b|
    ensures |Filter(OwnedBy(r), b[j..])| == |Filter(OwnedBy(r), b[j + 1..])| + Mine(Owner(b[j].flags, b[j].data), r)
  {
    assert b[j..] == [b[j]] + b[j + 1..];
    FilterConcat(OwnedBy(r), [b[j]], b[j + 1..]);
    assert [] + [b[j]] == [b[j]];
    FilterAppend(OwnedBy(r), [], b[j]);
  }

  ghost predicate Settled(before: Ledger, after: Ledger, prior: Entry, data: nat, flag: Flags) {
    forall r :: Held(after, r) == Held(before, r) +
      (if data == prior.data then 0 else Mine(Owner(flag, data), r) - Mine(Owner(prior.flags, prior.data), r))
  }

  /** Where the entry of an id stands: the bucket, and the place in it, or the end of the bucket. */
  function PlaceOf(b: seq<seq<Entry>>, id: nat): (r: Place)
    requires |b| > 0
    ensures r.bucket < |b| && r.index <= |b[r.bucket]|
  {
    Place(IdHash(id) % |b|, IndexOfId(id, b[IdHash(id) % |b|]))
  }

  /** Searches the bucket of `id`. */
  method FindInTable(table: array<Link?<Entry>>, ghost s: Shape<Entry>, id: nat) returns (link: Link?<Entry>)
    requires Good(s) && Mirrors(table, s) && table.Length > 0
    ensures StandsAt(s, link, PlaceOf(BucketsOf(s), id).bucket, PlaceOf(BucketsOf(s), id).index)
  {
    hide Good, Agree, BucketsOf;
    ghost var p := IdHash(id) % table.Length;
    ghost var b := BucketsOf(s)[p];
    link := table[IdHash(id) % table.Length];
    ghost var i := 0;
    Stands(s, p, 0);
    while link != null && link.item.id != id
      invariant 0 <= i <= |s.chains[p]| && StandsAt(s, link, p, i)
      invariant forall j :: 0 <= j < i ==> b[j].id != id
      decreases |b| - i
    {
      Stands(s, p, i + 1);
      link := link.next;
      i := i + 1;
    }
    IndexOfIdIs(id, b, i);
  }

  /** Overwrites data and flags of the entry that carries `id`. */
  method OverwriteLink(table: array<Link?<Entry>>, ghost s: Shape<Entry>, id: nat, data: nat, flag: Flags)
    returns (prior: Entry, ghost s': Shape<Entry>)
    requires Good(s) && Mirrors(table, s) && table.Length > 0
    requires FindId(Table(BucketsOf(s), 0), id).Some?
    modifies s.home.Keys`item
    ensures prior == FindId(Table(BucketsOf(s), 0), id).value
    ensures Good(s') && Mirrors(table, s') && s'.home == s.home
    ensures |Flatten(BucketsOf(s'))| == |Flatten(BucketsOf(s))|
    ensures BucketsOf(s') == Overwrite(Table(BucketsOf(s), 0), id, data, flag).buckets
  {
    hide Good, Mirrors, BucketsOf, Flatten;
    var current := FindInTable(table, s, id);
    ghost var place := PlaceOf(BucketsOf(s), id);
    prior := current.item;
    FlattenUpdate(BucketsOf(s), place.bucket,
                  BucketsOf(s)[place.bucket][place.index := prior.(data := data, flags := flag)]);
    s' := SetItem(table, s, place.bucket, place.index, current, prior.(data := data, flags := flag));
  }

  /** Moves every link of the old table to a new one. */
  method Rebuild(oldTable: array<Link?<Entry>>, oldCount: nat, newSize: nat, ghost old0: Shape<Entry>)
    returns (table: array<Link?<Entry>>, ghost s: Shape<Entry>, n: nat)
    requires newSize > 0 && Good(old0) && Mirrors(oldTable, old0) && oldCount == |Flatten(BucketsOf(old0))|
    modifies old0.home.Keys`next
    ensures fresh(table) && table.Length == newSize && Good(s) && Mirrors(table, s)
    ensures s.home.Keys == old0.home.Keys
    ensures BucketsOf(s) == Spread(Flatten(BucketsOf(old0)), newSize)
    ensures n == oldCount == |Flatten(BucketsOf(s))|
  {
    SpreadKeepsAll(Flatten(BucketsOf(old0)), newSize);
    table, s := NewTable<Entry>(newSize);
    StartMoving(old0, table, s);
    assert forall b :: 0 <= b < oldTable.Length ==> oldTable[b] == Head(old0.chains[b]);
    hide Good, Mirrors, BucketsOf, Spread, Flatten, Moving;
    s, n := MoveAll(oldTable, table, oldCount, s, old0);
  }

  lemma StartMoving(old0: Shape<Entry>, table: array<Link?<Entry>>, s: Shape<Entry>)
    requires Good(old0) && Agree(old0) && Good(s) && Mirrors(table, s) && s.home == map[] && table.Length > 0
    requires BucketsOf(s) == seq(table.Length, _ => [])
    ensures Moving(old0, table, s, 0, 0, [])
  {
    assert BucketsOf(s) == Spread([], table.Length);
    assert forall x :: x in old0.home ==> x in old0.succ && x in old0.item;
  }

  /** The new table holds exactly the entries `done`, moved from the old buckets in order. */
  ghost predicate Moving(old0: Shape<Entry>, table: array<Link?<Entry>>, s: Shape<Entry>, i: nat, j: nat,
                         done: seq<Entry>)
    reads table, s.home.Keys, old0.home.Keys
  {
    && Good(old0) && Good(s) && Mirrors(table, s) && table.Length > 0
    && MovedUpTo(old0, s, i, j) && Waiting(old0, s.home.Keys)
    && BucketsOf(s) == Spread(done, table.Length)
  }

  /** Puts a link that was cut from its old chain at the end of its new one. */
  method PlaceLink(table: array<Link?<Entry>>, ghost s: Shape<Entry>, link: Link<Entry>, ghost done: seq<Entry>)
    returns (ghost s': Shape<Entry>)
    requires Good(s) && Mirrors(table, s) && table.Length > 0
    requires link.next == null && link !in s.home
    requires BucketsOf(s) == Spread(done, table.Length)
    modifies table, s.home.Keys`next
    ensures Good(s') && Mirrors(table, s') && s'.home.Keys == s.home.Keys + {link}
    ensures BucketsOf(s') == Spread(done + [old(link.item)], table.Length)
  {
    hide Good, Mirrors, BucketsOf, Spread;
    SpreadAppend(done, link.item, table.Length);
    var b := IdHash(link.item.id) % table.Length;
    s' := AppendLink(table, s, b, link);
  }

  /** Cuts a waiting link from its old chain and moves it. */
  method CutAndPlace(table: array<Link?<Entry>>, ghost s: Shape<Entry>, link: Link<Entry>, ghost old0: Shape<Entry>,
                     ghost done: seq<Entry>)
    returns (ghost s': Shape<Entry>)
    requires Good(s) && Mirrors(table, s) && table.Length > 0
    requires link !in s.home && link in old0.home && s.home.Keys <= old0.home.Keys
    requires BucketsOf(s) == Spread(done, table.Length) && Waiting(old0, s.home.Keys)
    modifies table, old0.home.Keys`next
    ensures Good(s') && Mirrors(table, s') && s'.home.Keys == s.home.Keys + {link}
    ensures BucketsOf(s') == Spread(done + [old(link.item)], table.Length) && Waiting(old0, s'.home.Keys)
  {
    hide Good, Mirrors, BucketsOf, Spread;
    CutLink(link, table, s);
    s' := PlaceLink(table, s, link, done);
  }

  /** Moves link `j` of old bucket `i`. */
  method MoveLink(table: array<Link?<Entry>>, ghost s: Shape<Entry>, link: Link<Entry>,
                  ghost old0: Shape<Entry>, ghost i: nat, ghost j: nat, ghost done: seq<Entry>)
    returns (next: Link?<Entry>, ghost s': Shape<Entry>)
    requires Moving(old0, table, s, i, j, done)
    requires i < |old0.chains| && j < |old0.chains[i]| && link == old0.chains[i][j]
    modifies table, old0.home.Keys`next
    ensures Moving(old0, table, s', i, j + 1, done + [BucketsOf(old0)[i][j]])
    ensures next == After(old0.chains[i], j)
  {
    Step(old0, i, j);
    hide Good, Mirrors, BucketsOf, Spread, After;
    next := link.next;
    s' := CutAndPlace(table, s, link, old0, done);
    MovedOneMore(old0, s, s', i, j, link);
  }

  lemma MovedOneMore(old0: Shape<Entry>, before: Shape<Entry>, after: Shape<Entry>, i: nat, j: nat, link: Link<Entry>)
    requires Good(old0) && MovedUpTo(old0, before, i, j)
    requires link in old0.home && old0.home[link] == Place(i, j)
    requires after.home.Keys == before.home.Keys + {link}
    ensures MovedUpTo(old0, after, i, j + 1)
  {
    forall x | x in old0.home
      ensures x in after.home <==> old0.home[x].bucket < i || (old0.home[x].bucket == i && old0.home[x].index < j + 1)
    {
      if old0.home[x] == Place(i, j) {
        assert old0.chains[i][j] == x && old0.chains[i][j] == link;
      }
    }
  }

  /** Moves the links of one old chain, in order. */
  method MoveChain(oldTable: array<Link?<Entry>>, i: nat, table: array<Link?<Entry>>, ghost s: Shape<Entry>,
                   ghost old0: Shape<Entry>, ghost done: seq<Entry>)
    returns (ghost s': Shape<Entry>, count: nat)
    requires i < oldTable.Length == |old0.chains| && oldTable != table && oldTable[i] == Head(old0.chains[i])
    requires Good(old0) && Moving(old0, table, s, i, 0, done)
    modifies table, old0.home.Keys`next
    ensures Moving(old0, table, s', i + 1, 0, done + BucketsOf(old0)[i]) && count == |BucketsOf(old0)[i]|
  {
    hide Moving, BucketsOf, Good;
    var current := oldTable[i];
    ghost var c, b, j := old0.chains[i], BucketsOf(old0)[i], 0;
    s', count := s, 0;
    assert done + b[..0] == done;
    while current != null
      invariant 0 <= j <= |c| == |b| && count == j && current == if j < |c| then c[j] else null
      invariant Moving(old0, table, s', i, j, done + b[..j])
      decreases |c| - j
    {
      assert done + b[..j + 1] == done + b[..j] + [b[j]];
      current, s' := MoveLink(table, s', current, old0, i, j, done + b[..j]);
      count := count + 1;
      j := j + 1;
    }
    assert b[..j] == b;
    NextBucket(old0, table, s', i, done + b);
  }

  lemma NextBucket(old0: Shape<Entry>, table: array<Link?<Entry>>, s: Shape<Entry>, i: nat, done: seq<Entry>)
    requires i < |old0.chains| && Moving(old0, table, s, i, |old0.chains[i]|, done)
    ensures Moving(old0, table, s, i + 1, 0, done)
  {
    forall x | x in old0.home ensures x in s.home <==> old0.home[x].bucket < i + 1 {
      assert old0.home[x].bucket == i ==> old0.home[x].index < |old0.chains[i]|;
    }
  }

  /** Moves every link; the loop over the old buckets stops once all entries are out. */
  method MoveAll(oldTable: array<Link?<Entry>>, table: array<Link?<Entry>>, oldCount: nat,
                 ghost s: Shape<Entry>, ghost old0: Shape<Entry>)
    returns (ghost s': Shape<Entry>, n: nat)
    requires oldTable != table && Good(old0) && Moving(old0, table, s, 0, 0, [])
    requires oldTable.Length == |old0.chains|
    requires forall b :: 0 <= b < oldTable.Length ==> oldTable[b] == Head(old0.chains[b])
    requires oldCount == |Flatten(BucketsOf(old0))|
    modifies table, old0.home.Keys`next
    ensures Good(s') && Mirrors(table, s') && s'.home.Keys == old0.home.Keys
    ensures BucketsOf(s') == Spread(Flatten(BucketsOf(old0)), table.Length) && n == oldCount
  {
    hide Moving, BucketsOf, Good, Mirrors, Spread;
    var i := 0;
    ghost var b := BucketsOf(old0);
    s', n := s, 0;
    assert b[..0] == [];
    FlattenNone<Entry>();
    hide Flatten;
    while i < oldTable.Length && n < oldCount
      invariant 0 <= i <= oldTable.Length == |b|
      invariant Moving(old0, table, s', i, 0, Flatten(b[..i])) && n == |Flatten(b[..i])|
    {
      FlattenNext(b, i);
      var count;
      s', count := MoveChain(oldTable, i, table, s', old0, Flatten(b[..i]));
      n := n + count;
      i := i + 1;
    }
    RestIsEmpty(b, i);
    MovedEverything(old0, table, s', i, Flatten(b));
  }

  lemma MovedEverything(old0: Shape<Entry>, table: array<Link?<Entry>>, s: Shape<Entry>, i: nat, done: seq<Entry>)
    requires Good(old0) && Moving(old0, table, s, i, 0, done)
    requires forall k :: i <= k < |old0.chains| ==> BucketsOf(old0)[k] == []
    ensures Good(s) && Mirrors(table, s) && s.home.Keys == old0.home.Keys
    ensures BucketsOf(s) == Spread(done, table.Length)
  {
    hide Mirrors, Spread, Waiting;
    forall x | x in old0.home ensures x in s.home {
      Standing(old0, x);
      assert |BucketsOf(old0)[old0.home[x].bucket]| > 0;
    }
  }

  lemma FlattenNext(b: seq<seq<Entry>>, i: nat)
    requires i < |b|
    ensures Flatten(b[..i + 1]) == Flatten(b[..i]) + b[i]
  {
    assert b[..i + 1] == b[..i] + [b[i]];
    FlattenAppend(b[..i], b[i]);
  }

  /** Once as many entries are out as there are, the remaining buckets are empty. */
  lemma RestIsEmpty(b: seq<seq<Entry>>, i: nat)
    requires i <= |b| && (|Flatten(b[..i])| >= |Flatten(b)| || i == |b|)
    ensures Flatten(b[..i]) == Flatten(b)
    ensures forall k :: i <= k < |b| ==> b[k] == []
  {
    FlattenConcat(b[..i], b[i..]);
    assert b == b[..i] + b[i..];
    forall k | i <= k < |b| ensures b[k] == [] {
      if b[k] != [] { FlattenMember(b[i..], k - i, b[k][0]); }
    }
  }

  lemma {:induction false} IndexOfIdIs(id: nat, b: seq<Entry>, i: nat)
    requires i <= |b| && (forall j :: 0 <= j < i ==> b[j].id != id) && (i < |b| ==> b[i].id == id)
    ensures IndexOfId(id, b) == i
  {
    if i > 0 { IndexOfIdIs(id, b[1..], i - 1); }
  }
}
