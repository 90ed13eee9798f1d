/** Ids are for ever: over any run of insertions, overwrites and resizes the lookup table agrees with
    a simple map in which a key's id is fixed when the key is first inserted. */
module LutIds {
  import opened Options
  import opened Sequences
  import opened LutModel

  // ----- the reference: a map from keys to entries, without buckets or resizes

  type Store = map<Key, Entry>

  function KeysUnder(hash: Key -> U32, m: Store, h: U32): set<Key> { set k | k in m && hash(k) == h }

  /** The caller's flags only tell how the data is owned. */
  predicate OwnerFlags(flags: Flags) { !flags.notFound && !flags.present }

  /** A new key gets the number of the keys that share its hash as its overlap; a known key keeps its id. */
  function StoreInsert(hash: Key -> U32, m: Store, key: Key, data: nat, flags: Flags): Store {
    if key in m then m[key := Entry(key, m[key].id, data, Or(PRESENT, flags))]
    else m[key := Entry(key, Pack(hash(key), |KeysUnder(hash, m, hash(key))|), data, Or(NOT_FOUND, flags))]
  }

  datatype Call = Call(key: Key, data: nat, flags: Flags)

  function StoreRun(hash: Key -> U32, m: Store, calls: seq<Call>): Store {
    if calls == [] then m
    else
      var c := calls[|calls| - 1];
      StoreInsert(hash, StoreRun(hash, m, calls[..|calls| - 1]), c.key, c.data, c.flags)
  }

  ghost predicate StoreCapped(hash: Key -> U32, m: Store) {
    forall h: U32 :: |KeysUnder(hash, m, h)| <= OVERLAPS
  }

  // ----- the table as a map

  function Lookup(hash: Key -> U32, t: Table, key: Key): Option<Entry>
    requires t.Size() > 0
  {
    var g := Group(t, hash(key));
    var j := IndexOf(key, g);
    if j < |g| then Some(g[j]) else None
  }

  ghost predicate Represents(hash: Key -> U32, t: Table, m: Store)
    requires t.Size() > 0
  {
    forall k: Key :: Lookup(hash, t, k) == if k in m then Some(m[k]) else None
  }

  lemma {:induction false} IndexOfIs(key: Key, g: seq<Entry>, j: nat)
    requires j < |g| && g[j].key == key
    requires forall i :: 0 <= i < j ==> g[i].key != key
    ensures IndexOf(key, g) == j
  {
    if j > 0 { IndexOfIs(key, g[1..], j - 1); }
  }

  /** An id finds the data and the key of the first entry of its bucket that carries it; an id that no entry of the
      table carries finds 0 and no key. */
  lemma IdFindsFirst(hash: Key -> U32, t: Table, id: nat)
    requires Wf(hash, t)
    ensures var b := t.buckets[id % 0x1_0000_0000 % |t.buckets|];
      if forall i :: 0 <= i < |b| ==> b[i].id != id then Get(t, id) == 0 && GetKey(t, id) == None
      else
        exists i :: 0 <= i < |b| && b[i].id == id && (forall j :: 0 <= j < i ==> b[j].id != id)
          && Get(t, id) == b[i].data && GetKey(t, id) == Some(b[i].key)
    ensures (forall i, j :: 0 <= i < |t.buckets| && 0 <= j < |t.buckets[i]| ==> t.buckets[i][j].id != id) ==>
      Get(t, id) == 0 && GetKey(t, id) == None
  {
    var b := t.buckets[IdHash(id) % t.Size()];
    var j := IndexOfId(id, b);
    assert j < |b| ==> b[j].id == id;
  }

  /** An id leads to the entry of its group that the wrapped overlap counter names. */
  lemma FindIdIsExact(hash: Key -> U32, t: Table, h: U32, j: nat)
    requires Wf(hash, t) && j < |Group(t, h)|
    ensures FindId(t, Group(t, h)[j].id) == Some(Group(t, h)[j % OVERLAPS])
  {
    hide Group, FindId;
    var g := Group(t, h);
    assert GoodGroup(hash, h, g);
    PackHash(h, j);
    assert g[j] in g;
    var k := FindIdInGroup(t, h, g[j].id);
    PackInjective(h, k, h, j);
    var w := j % OVERLAPS;
    PackInjective(h, w, h, j);
    hide Pack;
    assert g[w].id == g[j].id;
    assert w >= k;
    assert k % OVERLAPS == w;
  }

  /** Distinct keys have distinct ids exactly when no hash has more than 65536 keys. */
  lemma IdsDistinctIffCapped(hash: Key -> U32, t: Table)
    requires Wf(hash, t)
    ensures Capped(t) <==>
      forall k1: Key, k2: Key :: k1 != k2 && Lookup(hash, t, k1).Some? && Lookup(hash, t, k2).Some? ==>
        Lookup(hash, t, k1).value.id != Lookup(hash, t, k2).value.id
  {
    if Capped(t) {
      forall k1: Key, k2: Key | k1 != k2 && Lookup(hash, t, k1).Some? && Lookup(hash, t, k2).Some?
        ensures Lookup(hash, t, k1).value.id != Lookup(hash, t, k2).value.id
      {
        CappedIdsDiffer(hash, t, k1, k2);
      }
    } else {
      var h: U32 :| |Group(t, h)| > OVERLAPS;
      WrappedIdsCollide(hash, t, h);
    }
  }

  lemma CappedIdsDiffer(hash: Key -> U32, t: Table, k1: Key, k2: Key)
    requires Wf(hash, t) && Capped(t)
    requires k1 != k2 && Lookup(hash, t, k1).Some? && Lookup(hash, t, k2).Some?
    ensures Lookup(hash, t, k1).value.id != Lookup(hash, t, k2).value.id
  {
    hide Group, Pack;
    var g1, g2 := Group(t, hash(k1)), Group(t, hash(k2));
    var i, j := IndexOf(k1, g1), IndexOf(k2, g2);
    assert GoodGroup(hash, hash(k1), g1) && GoodGroup(hash, hash(k2), g2);
    assert |g1| <= OVERLAPS && |g2| <= OVERLAPS;
    PackInjective(hash(k1), i, hash(k2), j);
  }

  lemma WrappedIdsCollide(hash: Key -> U32, t: Table, h: U32)
    requires Wf(hash, t) && |Group(t, h)| > OVERLAPS
    ensures var k1, k2 := Group(t, h)[0].key, Group(t, h)[OVERLAPS].key;
      && k1 != k2 && Lookup(hash, t, k1).Some? && Lookup(hash, t, k2).Some?
      && Lookup(hash, t, k1).value.id == Lookup(hash, t, k2).value.id
  {
    var g := Group(t, h);
    assert GoodGroup(hash, h, g);
    IndexOfIs(g[0].key, g, 0);
    IndexOfIs(g[OVERLAPS].key, g, OVERLAPS);
    assert Pack(h, 0) == Pack(h, OVERLAPS);
  }

  // ----- what an insertion does to the groups

  lemma AppendEffect(hash: Key -> U32, t: Table, e: Entry, h: U32)
    requires t.Size() > 0
    ensures Group(Append(t, e), h) == Group(t, h) + if IdHash(e.id) == h then [e] else []
  {
    var c := IdHash(e.id) % t.Size();
    if c == h % t.Size() { FilterAppend(HasHash(h), t.buckets[c], e); }
  }

  lemma GoodGroupAppend(hash: Key -> U32, h: U32, g: seq<Entry>, e: Entry)
    requires GoodGroup(hash, h, g)
    requires hash(e.key) == h && e.id == Pack(h, |g|) && IndexOf(e.key, g) == |g|
    ensures GoodGroup(hash, h, g + [e])
  {
    hide Pack, IndexOf;
    DistinctKeysAppend(g, e);
    IdsAppend(hash, h, g, e);
  }

  lemma IdsAppend(hash: Key -> U32, h: U32, g: seq<Entry>, e: Entry)
    requires forall j :: 0 <= j < |g| ==> g[j].id == Pack(h, j) && hash(g[j].key) == h
    requires hash(e.key) == h && e.id == Pack(h, |g|)
    ensures forall j :: 0 <= j < |g + [e]| ==> (g + [e])[j].id == Pack(h, j) && hash((g + [e])[j].key) == h
  {
    hide Pack;
  }

  lemma DistinctKeysAppend(g: seq<Entry>, e: Entry)
    requires forall i, j :: 0 <= i < j < |g| ==> g[i].key != g[j].key
    requires forall i :: 0 <= i < |g| ==> g[i].key != e.key
    ensures forall i, j :: 0 <= i < j < |g + [e]| ==> (g + [e])[i].key != (g + [e])[j].key
  {
  }

  lemma AppendKeepsWf(hash: Key -> U32, t: Table, e: Entry)
    requires Wf(hash, t)
    requires var h := hash(e.key); e.id == Pack(h, |Group(t, h)|) && IndexOf(e.key, Group(t, h)) == |Group(t, h)|
    ensures Wf(hash, Append(t, e))
  {
    var own := hash(e.key);
    PackHash(own, |Group(t, own)|);
    AppendToChain(t.buckets, IdHash(e.id) % t.Size(), e);
    AppendKeepsPlaces(t, e);
    hide Group, Pack, GoodGroup;
    forall h: U32 ensures GoodGroup(hash, h, Group(Append(t, e), h)) {
      AppendEffect(hash, t, e, h);
      assert GoodGroup(hash, h, Group(t, h));
      if h == own {
        GoodGroupAppend(hash, h, Group(t, h), e);
      } else {
        assert Group(t, h) + [] == Group(t, h);
      }
    }
  }

  lemma AppendKeepsPlaces(t: Table, e: Entry)
    requires t.Size() > 0 && WellPlaced(t.buckets)
    ensures WellPlaced(Append(t, e).buckets)
  {
    var c := IdHash(e.id) % t.Size();
    forall i, x | 0 <= i < t.Size() && x in Append(t, e).buckets[i] ensures IdHash(x.id) % t.Size() == i {
      if !(i == c && x == e) { assert x in t.buckets[i]; }
    }
  }

  lemma OverwriteEffect(hash: Key -> U32, t: Table, h: U32, j: nat, data: nat, flags: Flags)
    requires Wf(hash, t) && j < |Group(t, h)|
    ensures FindId(t, Group(t, h)[j].id).Some?
    ensures var g, k := Group(t, h), j % OVERLAPS;
      Group(Overwrite(t, g[j].id, data, flags), h) == g[k := g[k].(data := data, flags := flags)]
    ensures forall other: U32 :: other != h ==>
      Group(Overwrite(t, Group(t, h)[j].id, data, flags), other) == Group(t, other)
  {
    var g, b, p := Group(t, h), t.buckets[h % t.Size()], HasHash(h);
    var id := g[j].id;
    assert GoodGroup(hash, h, g);
    PackHash(h, j);
    FindIdIsExact(hash, t, h, j);
    var i := IndexOfId(id, b);
    var x := b[i].(data := data, flags := flags);
    var k := FilterUpdate(p, b, i, x);
    assert g[k] == g[j % OVERLAPS];
    assert GoodGroup(hash, h, g) && g[k].key == g[j % OVERLAPS].key;
    assert k == j % OVERLAPS;
    forall other: U32 | other != h
      ensures Group(Overwrite(t, id, data, flags), other) == Group(t, other)
    {
      if other % t.Size() == h % t.Size() { FilterUpdateOther(HasHash(other), b, i, x); }
    }
  }

  lemma GoodGroupUpdate(hash: Key -> U32, h: U32, g: seq<Entry>, k: nat, data: nat, flags: Flags)
    requires GoodGroup(hash, h, g) && k < |g|
    ensures GoodGroup(hash, h, g[k := g[k].(data := data, flags := flags)])
  {
    hide Pack;
  }

  lemma OverwriteKeepsWf(hash: Key -> U32, t: Table, h: U32, j: nat, data: nat, flags: Flags)
    requires Wf(hash, t) && j < |Group(t, h)|
    ensures FindId(t, Group(t, h)[j].id).Some?
    ensures Wf(hash, Overwrite(t, Group(t, h)[j].id, data, flags))
  {
    OverwriteEffect(hash, t, h, j, data, flags);
    OverwriteKeepsPlaces(t, Group(t, h)[j].id, data, flags);
    var t' := Overwrite(t, Group(t, h)[j].id, data, flags);
    assert t'.n == t.n;
    hide Group, GoodGroup, Overwrite;
    forall other: U32 ensures GoodGroup(hash, other, Group(t', other)) {
      assert GoodGroup(hash, other, Group(t, other));
      GoodGroupUpdate(hash, h, Group(t, h), j % OVERLAPS, data, flags);
    }
  }

  lemma OverwriteKeepsPlaces(t: Table, id: nat, data: nat, flags: Flags)
    requires t.Size() > 0 && FindId(t, id).Some? && WellPlaced(t.buckets)
    ensures WellPlaced(Overwrite(t, id, data, flags).buckets)
    ensures |Flatten(Overwrite(t, id, data, flags).buckets)| == |Flatten(t.buckets)|
  {
    var c := IdHash(id) % t.Size();
    var b := t.buckets[c];
    var i := IndexOfId(id, b);
    var t' := Overwrite(t, id, data, flags);
    FlattenUpdate(t.buckets, c, t'.buckets[c]);
    forall k, x | 0 <= k < t.Size() && x in t'.buckets[k] ensures IdHash(x.id) % t.Size() == k {
      if k == c {
        var y :| 0 <= y < |b| && t'.buckets[c][y] == x;
        assert b[y] in t.buckets[c] && x.id == b[y].id;
      } else {
        assert x in t.buckets[k];
      }
    }
  }

  // ----- the insertion as a whole

  lemma KnownKeyCanBeInserted(hash: Key -> U32, t: Table, key: Key, flags: Flags)
    requires Wf(hash, t) && OwnerFlags(flags)
    ensures CanInsert(t, GetId(hash, t, key).0, Or(GetId(hash, t, key).1, flags))
  {
    var g := Group(t, hash(key));
    var j := IndexOf(key, g);
    GrowKeepsTable(hash, t);
    assert Group(Grow(t), hash(key)) == g;
    if j < |g| { FindIdIsExact(hash, Grow(t), hash(key), j); }
  }

  /** lut_insert: look the id up, then insert under it. */
  ghost function Insert(hash: Key -> U32, t: Table, key: Key, data: nat, flags: Flags): (r: Table)
    requires Wf(hash, t) && OwnerFlags(flags)
    ensures r.Size() > 0
  {
    KnownKeyCanBeInserted(hash, t, key, flags);
    var (id, found) := GetId(hash, t, key);
    InsertId(t, key, data, id, Or(found, flags))
  }

  /** lut_insert_id under an id just looked up is lut_insert. */
  lemma InsertIdIsInsert(hash: Key -> U32, t: Table, key: Key, data: nat, flags: Flags, id: nat, found: Flags)
    requires Wf(hash, t) && OwnerFlags(flags) && GetId(hash, t, key) == (id, found)
    ensures CanInsert(t, id, Or(found, flags))
    ensures InsertId(t, key, data, id, Or(found, flags)) == Insert(hash, t, key, data, flags)
  {
    KnownKeyCanBeInserted(hash, t, key, flags);
  }

  lemma InsertKeepsWf(hash: Key -> U32, t: Table, key: Key, data: nat, flags: Flags)
    requires Wf(hash, t) && OwnerFlags(flags)
    ensures Wf(hash, Insert(hash, t, key, data, flags))
  {
    hide Wf, Group, Pack, FindId, Append, Overwrite;
    WfHasBuckets(hash, t);
    var h := hash(key);
    var j := IndexOf(key, Group(t, h));
    KnownKeyCanBeInserted(hash, t, key, flags);
    GrowKeepsTable(hash, t);
    assert Group(Grow(t), h) == Group(t, h);
    if j < |Group(t, h)| {
      OverwriteKeepsWf(hash, Grow(t), h, j, data, Or(PRESENT, flags));
    } else {
      AppendKeepsWf(hash, Grow(t), Entry(key, Pack(h, j), data, Or(NOT_FOUND, flags)));
    }
  }

  /** A group after an overwrite through the id of its member `j`. */
  function Overwritten(g: seq<Entry>, j: nat, data: nat, flags: Flags): seq<Entry>
    requires j < |g|
  {
    g[j % OVERLAPS := g[j % OVERLAPS].(data := data, flags := flags)]
  }

  /** What an insertion does to the entries under each hash: a new key joins its group at the end,
      with the group's length as its overlap; a known key is overwritten in place. */
  lemma InsertEffect(hash: Key -> U32, t: Table, key: Key, data: nat, flags: Flags, h: U32)
    requires Wf(hash, t) && OwnerFlags(flags)
    ensures var g, j := Group(t, h), IndexOf(key, Group(t, h));
      Group(Insert(hash, t, key, data, flags), h) ==
        if h != hash(key) then g
        else if j == |g| then g + [Entry(key, Pack(h, j), data, Or(NOT_FOUND, flags))]
        else Overwritten(g, j, data, Or(PRESENT, flags))
  {
    hide Wf, Group, Pack, FindId, Append, Overwrite;
    var own := hash(key);
    WfHasBuckets(hash, t);
    var j := IndexOf(key, Group(t, own));
    KnownKeyCanBeInserted(hash, t, key, flags);
    GrowKeepsTable(hash, t);
    assert Group(Grow(t), h) == Group(t, h) && Group(Grow(t), own) == Group(t, own);
    if j < |Group(t, own)| {
      OverwriteEffect(hash, Grow(t), own, j, data, Or(PRESENT, flags));
    } else {
      PackHash(own, j);
      AppendEffect(hash, Grow(t), Entry(key, Pack(own, j), data, Or(NOT_FOUND, flags)), h);
    }
  }

  // ----- the table refines the map

  lemma {:induction false} IndexOfUpdate(k: Key, g: seq<Entry>, i: nat, e: Entry)
    requires i < |g| && e.key == g[i].key
    ensures IndexOf(k, g[i := e]) == IndexOf(k, g)
  {
    if g[0].key != k && i > 0 {
      assert g[i := e][1..] == g[1..][i - 1 := e];
      IndexOfUpdate(k, g[1..], i - 1, e);
    } else if g[0].key != k {
      assert g[i := e][1..] == g[1..];
    }
  }

  function KeySet(g: seq<Entry>): set<Key> { set i | 0 <= i < |g| :: g[i].key }

  lemma {:induction false} DistinctKeysCount(g: seq<Entry>)
    requires forall i, j :: 0 <= i < j < |g| ==> g[i].key != g[j].key
    ensures |KeySet(g)| == |g|
  {
    if g != [] {
      var u, last := g[..|g| - 1], |g| - 1;
      DistinctKeysCount(u);
      assert KeySet(g) == KeySet(u) + {g[last].key} by {
        assert forall i :: 0 <= i < last ==> u[i] == g[i];
      }
      assert g[last].key !in KeySet(u);
    }
  }

  /** The overlap counter of a new key is the number of keys stored under its hash. */
  lemma GroupCountsKeys(hash: Key -> U32, t: Table, m: Store, h: U32)
    requires Wf(hash, t) && Represents(hash, t, m)
    ensures |Group(t, h)| == |KeysUnder(hash, m, h)|
  {
    hide Group;
    var g := Group(t, h);
    assert GoodGroup(hash, h, g);
    DistinctKeysCount(g);
    forall k: Key ensures k in KeySet(g) <==> k in KeysUnder(hash, m, h) {
      assert Lookup(hash, t, k) == if k in m then Some(m[k]) else None;
      if k in KeySet(g) {
        var i :| 0 <= i < |g| && g[i].key == k;
        assert IndexOf(k, g) <= i;
      }
    }
    assert KeySet(g) == KeysUnder(hash, m, h);
  }

  /** One insertion does to the map the table stands for what it does to the reference map. */
  lemma InsertRefinesStore(hash: Key -> U32, t: Table, m: Store, key: Key, data: nat, flags: Flags)
    requires Wf(hash, t) && Represents(hash, t, m) && OwnerFlags(flags)
    requires |KeysUnder(hash, m, hash(key))| <= OVERLAPS
    ensures Represents(hash, Insert(hash, t, key, data, flags), StoreInsert(hash, m, key, data, flags))
    ensures GetId(hash, t, key).0 == StoreInsert(hash, m, key, data, flags)[key].id
  {
    hide Group, Insert, Pack;
    GroupCountsKeys(hash, t, m, hash(key));
    assert Lookup(hash, t, key) == if key in m then Some(m[key]) else None;
    var t', m' := Insert(hash, t, key, data, flags), StoreInsert(hash, m, key, data, flags);
    forall k: Key ensures Lookup(hash, t', k) == if k in m' then Some(m'[k]) else None {
      LookupAfterInsert(hash, t, key, data, flags, k);
      assert Lookup(hash, t, k) == if k in m then Some(m[k]) else None;
    }
  }

  lemma LookupAfterInsert(hash: Key -> U32, t: Table, key: Key, data: nat, flags: Flags, k: Key)
    requires Wf(hash, t) && OwnerFlags(flags) && |Group(t, hash(key))| <= OVERLAPS
    ensures Lookup(hash, Insert(hash, t, key, data, flags), k) ==
      if k != key then Lookup(hash, t, k)
      else if Lookup(hash, t, key).None?
        then Some(Entry(key, Pack(hash(key), |Group(t, hash(key))|), data, Or(NOT_FOUND, flags)))
      else Some(Lookup(hash, t, key).value.(data := data, flags := Or(PRESENT, flags)))
  {
    hide Group, Insert, Pack, IndexOf;
    var h := hash(k);
    var g := Group(t, h);
    InsertEffect(hash, t, key, data, flags, h);
    if h == hash(key) {
      var j := IndexOf(key, g);
      if j == |g| {
        FoundAfterAppend(k, g, Entry(key, Pack(h, j), data, Or(NOT_FOUND, flags)));
      } else {
        FoundAfterUpdate(k, g, j, g[j].(data := data, flags := Or(PRESENT, flags)));
      }
    }
  }

  lemma FoundAfterAppend(k: Key, g: seq<Entry>, e: Entry)
    ensures var j := IndexOf(k, g + [e]);
      if IndexOf(k, g) < |g| then j == IndexOf(k, g) && (g + [e])[j] == g[j]
      else if k == e.key then j == |g| && (g + [e])[j] == e
      else j == |g + [e]|
  {
    IndexOfConcat(k, g, [e]);
  }

  lemma FoundAfterUpdate(k: Key, g: seq<Entry>, j: nat, e: Entry)
    requires |g| <= OVERLAPS && j == IndexOf(e.key, g) < |g|
    ensures j % OVERLAPS == j
    ensures IndexOf(k, g[j := e]) == IndexOf(k, g)
  {
    IndexOfUpdate(k, g, j, e);
  }

  lemma EmptyRepresents(hash: Key -> U32, size: nat)
    requires size > 0
    ensures Represents(hash, Empty(size), map[])
  {
    EmptyWf(hash, size);
  }

  // ----- runs

  ghost predicate OwnerCalls(calls: seq<Call>) { forall i :: 0 <= i < |calls| ==> OwnerFlags(calls[i].flags) }

  /** A run of lut_insert calls; the resizes happen inside. */
  ghost function Run(hash: Key -> U32, t: Table, calls: seq<Call>): (r: Table)
    requires Wf(hash, t) && OwnerCalls(calls)
    ensures Wf(hash, r)
  {
    if calls == [] then t
    else
      var c := calls[|calls| - 1];
      var u := Run(hash, t, calls[..|calls| - 1]);
      InsertKeepsWf(hash, u, c.key, c.data, c.flags);
      Insert(hash, u, c.key, c.data, c.flags)
  }

  lemma StoreInsertGrows(hash: Key -> U32, m: Store, key: Key, data: nat, flags: Flags, h: U32)
    ensures KeysUnder(hash, m, h) <= KeysUnder(hash, StoreInsert(hash, m, key, data, flags), h)
    ensures |KeysUnder(hash, m, h)| <= |KeysUnder(hash, StoreInsert(hash, m, key, data, flags), h)|
  {
    SubsetSize(KeysUnder(hash, m, h), KeysUnder(hash, StoreInsert(hash, m, key, data, flags), h));
  }

  lemma {:induction false} SubsetSize<T>(a: set<T>, b: set<T>)
    requires a <= b
    ensures |a| <= |b|
  {
    if a != {} {
      var x :| x in a;
      SubsetSize(a - {x}, b - {x});
    }
  }

  /** Over any run the table agrees with the reference map, as long as at most 65536 keys end up
      under one hash. */
  lemma {:induction false} RunRefinesStore(hash: Key -> U32, t: Table, m: Store, calls: seq<Call>)
    requires Wf(hash, t) && Represents(hash, t, m) && OwnerCalls(calls)
    requires StoreCapped(hash, StoreRun(hash, m, calls))
    ensures Represents(hash, Run(hash, t, calls), StoreRun(hash, m, calls))
  {
    if calls != [] {
      var init, c := calls[..|calls| - 1], calls[|calls| - 1];
      var u := StoreRun(hash, m, init);
      forall h: U32 ensures |KeysUnder(hash, u, h)| <= OVERLAPS {
        StoreInsertGrows(hash, u, c.key, c.data, c.flags, h);
      }
      RunRefinesStore(hash, t, m, init);
      InsertRefinesStore(hash, Run(hash, t, init), u, c.key, c.data, c.flags);
    }
  }

  /** The data of the last call for `key`, or `before` if there was none. */
  function LastData(calls: seq<Call>, key: Key, before: nat): nat {
    if calls == [] then before
    else if calls[|calls| - 1].key == key then calls[|calls| - 1].data
    else LastData(calls[..|calls| - 1], key, before)
  }

  lemma {:induction false} StoreRunKeepsIds(hash: Key -> U32, m: Store, calls: seq<Call>, key: Key)
    requires key in m
    ensures var r := StoreRun(hash, m, calls);
      key in r && r[key].id == m[key].id && r[key].data == LastData(calls, key, m[key].data)
  {
    if calls != [] { StoreRunKeepsIds(hash, m, calls[..|calls| - 1], key); }
  }

  /** An id that was once issued keeps naming its key, through every later run of calls: the key
      still gets it, it still gives the key, and it gives the data stored last. */
  lemma IdsAreForever(hash: Key -> U32, t: Table, m: Store, calls: seq<Call>, key: Key)
    requires Wf(hash, t) && Represents(hash, t, m) && OwnerCalls(calls) && key in m
    requires StoreCapped(hash, StoreRun(hash, m, calls))
    ensures var r := Run(hash, t, calls);
      && GetId(hash, r, key) == (m[key].id, PRESENT)
      && GetKey(r, m[key].id) == Some(key)
      && Get(r, m[key].id) == LastData(calls, key, m[key].data)
  {
    var r, s := Run(hash, t, calls), StoreRun(hash, m, calls);
    RunRefinesStore(hash, t, m, calls);
    StoreRunKeepsIds(hash, m, calls, key);
    IdLeadsToEntry(hash, r, s, key);
  }

  lemma WfHasBuckets(hash: Key -> U32, t: Table)
    requires Wf(hash, t)
    ensures t.Size() > 0
  {
  }

  lemma Stored(hash: Key -> U32, t: Table, m: Store, key: Key)
    requires t.Size() > 0 && Represents(hash, t, m) && key in m
    ensures Lookup(hash, t, key) == Some(m[key])
  {
  }

  /** In a table with at most 65536 keys a hash, a stored key and its id lead to each other. */
  lemma IdLeadsToEntry(hash: Key -> U32, t: Table, m: Store, key: Key)
    requires Wf(hash, t) && Represents(hash, t, m) && key in m && StoreCapped(hash, m)
    ensures GetId(hash, t, key) == (m[key].id, PRESENT)
    ensures FindId(t, m[key].id) == Some(m[key]) && m[key].key == key
  {
    hide Group, FindId, Wf, Represents;
    WfHasBuckets(hash, t);
    Stored(hash, t, m, key);
    GroupCountsKeys(hash, t, m, hash(key));
    var j := IndexOf(key, Group(t, hash(key)));
    FindIdIsExact(hash, t, hash(key), j);
    assert |KeysUnder(hash, m, hash(key))| <= OVERLAPS;
    assert j % OVERLAPS == j;
  }

  /** Registering a new key under the id the table has for it, as the interning of flags and the loader do. */
  lemma NewKeyRegistered(hash: Key -> U32, t: Table, m: Store, key: Key, data: nat, id: nat)
    requires Wf(hash, t) && Represents(hash, t, m) && StoreCapped(hash, m) && key !in m
    requires GetId(hash, t, key) == (id, NOT_FOUND)
    ensures CanInsert(t, id, Or(NOT_FOUND, PYTHON))
    ensures var t', m' := InsertId(t, key, data, id, Or(NOT_FOUND, PYTHON)), StoreInsert(hash, m, key, data, PYTHON);
      && Wf(hash, t') && Represents(hash, t', m')
      && m'.Keys == m.Keys + {key} && m'[key].data == data && m'[key].id == id
      && forall k :: k in m ==> m'[k] == m[k]
  {
    hide Wf, Represents, GetId;
    assert |KeysUnder(hash, m, hash(key))| <= OVERLAPS;
    hide StoreCapped;
    InsertIdIsInsert(hash, t, key, data, PYTHON, id, NOT_FOUND);
    InsertKeepsWf(hash, t, key, data, PYTHON);
    InsertRefinesStore(hash, t, m, key, data, PYTHON);
  }

  /** What the table answers for a key. */
  lemma KnownId(hash: Key -> U32, t: Table, m: Store, name: string)
    requires Wf(hash, t) && Represents(hash, t, m)
    ensures name in m ==> GetId(hash, t, name) == (m[name].id, PRESENT)
    ensures name !in m ==> GetId(hash, t, name).1 == NOT_FOUND
  {
    assert Lookup(hash, t, name) == if name in m then Some(m[name]) else None;
  }

  /** The id that an atom takes for a key that is not in the table yet survives the insertion of another key exactly
      when their hashes differ; otherwise it becomes the id of that other key. */
  lemma EarlyIdLastsIff(hash: Key -> U32, t: Table, early: Key, other: Key, data: nat, flags: Flags)
    requires Wf(hash, t) && OwnerFlags(flags) && early != other
    requires Lookup(hash, t, early) == None && Lookup(hash, t, other) == None
    ensures var t' := Insert(hash, t, other, data, flags);
      && (GetId(hash, t', early).0 == GetId(hash, t, early).0 <==> hash(early) != hash(other))
      && (hash(early) == hash(other) ==> GetId(hash, t, early).0 == GetId(hash, t', other).0)
  {
    hide Group, Pack, Insert, Wf, IndexOf;
    var h, t' := hash(other), Insert(hash, t, other, data, flags);
    WfHasBuckets(hash, t);
    InsertEffect(hash, t, other, data, flags, h);
    InsertEffect(hash, t, other, data, flags, hash(early));
    var g := Group(t, h);
    PackInjective(h, |g|, h, |g| + 1);
    var e := Entry(other, Pack(h, |g|), data, Or(NOT_FOUND, flags));
    assert [e][0] == e;
    IndexOfConcat(early, g, [e]);
    IndexOfConcat(other, g, [e]);
  }

  /** Whatever an id leads to is stored under the key that it carries. */
  lemma FoundIsStored(hash: Key -> U32, t: Table, m: Store, id: nat)
    requires Wf(hash, t) && Represents(hash, t, m) && FindId(t, id).Some?
    ensures var e := FindId(t, id).value; e.key in m && m[e.key] == e
  {
    var e, h := FindId(t, id).value, IdHash(id);
    var g := Group(t, h);
    assert e in t.buckets[h % t.Size()] && HasHash(h)(e);
    FilterKeeps(HasHash(h), t.buckets[h % t.Size()], e);
    InGroup(hash, t, h, e);
    hide Wf, Group;
    assert Lookup(hash, t, e.key) == if e.key in m then Some(m[e.key]) else None;
  }

  lemma InGroup(hash: Key -> U32, t: Table, h: U32, e: Entry)
    requires Wf(hash, t) && e in Group(t, h)
    ensures t.Size() > 0 && Lookup(hash, t, e.key) == Some(e)
  {
    hide Group;
    var g := Group(t, h);
    assert GoodGroup(hash, h, g);
    var j :| 0 <= j < |g| && g[j] == e;
    IndexOfIs(e.key, g, j);
  }
}
