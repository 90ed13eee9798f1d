/** The id-issuing lookup table on values: its buckets, its operations, and the simple map it stands for.

    An id packs the 32-bit hash of a key with a 16-bit overlap counter. What survives every resize is,
    for each hash, the group of the entries under that hash in the order of their insertion. */
module LutModel {
  import opened Options
  import opened Sequences

  const HASHES: int := 0x1_0000_0000
  const OVERLAPS: int := 0x1_0000

  type U32 = x: int | 0 <= x < HASHES

  type Key = string

  /** The bits of the table's flag word that its operations test. */
  datatype Flags = Flags(notFound: bool, present: bool, reference: bool, python: bool)

  function Or(a: Flags, b: Flags): Flags {
    Flags(a.notFound || b.notFound, a.present || b.present, a.reference || b.reference, a.python || b.python)
  }

  const NOT_FOUND := Flags(true, false, false, false)
  const PRESENT := Flags(false, true, false, false)
  const PYTHON := Flags(false, false, false, true)

  datatype Entry = Entry(key: Key, id: nat, data: nat, flags: Flags)

  /** The overlap counter is 16 bits wide and wraps around. */
  function Pack(hash: U32, overlap: nat): nat { hash + overlap % OVERLAPS * HASHES }

  function IdHash(id: nat): U32 { id % HASHES }

  function HasHash(h: U32): Entry -> bool { (e: Entry) => IdHash(e.id) == h }

  function InBucket(size: nat, b: nat): Entry -> bool
    requires size > 0
  {
    (e: Entry) => IdHash(e.id) % size == b
  }

  /** `n` counts the entries; the size is the number of buckets. */
  datatype Table = Table(buckets: seq<seq<Entry>>, n: nat) {
    function Size(): nat { |buckets| }
  }

  /** The entry count that triggers the next resize: 0.7 of the size. */
  function ReallocAt(size: nat): nat { size * 7 / 10 }

  function Empty(size: nat): Table { Table(seq(size, _ => []), 0) }

  /** The entries under one hash, oldest first. */
  function Group(t: Table, h: U32): seq<Entry>
    requires t.Size() > 0
  {
    Filter(HasHash(h), t.buckets[h % t.Size()])
  }

  /** The first place of `key`, or the length. */
  function IndexOf(key: Key, g: seq<Entry>): (j: nat)
    ensures j <= |g|
    ensures j < |g| ==> g[j].key == key
    ensures forall i :: 0 <= i < j ==> g[i].key != key
  {
    if g == [] || g[0].key == key then 0 else 1 + IndexOf(key, g[1..])
  }

  /** The first place of `id`, or the length. */
  function IndexOfId(id: nat, b: seq<Entry>): (j: nat)
    ensures j <= |b|
    ensures j < |b| ==> b[j].id == id
    ensures forall i :: 0 <= i < j ==> b[i].id != id
  {
    if b == [] || b[0].id == id then 0 else 1 + IndexOfId(id, b[1..])
  }

  lemma {:induction false} IndexOfConcat(k: Key, g: seq<Entry>, s: seq<Entry>)
    ensures IndexOf(k, g + s) == if IndexOf(k, g) < |g| then IndexOf(k, g) else |g| + IndexOf(k, s)
  {
    if g == [] {
      assert g + s == s;
    } else {
      assert (g + s)[1..] == g[1..] + s;
      if g[0].key != k { IndexOfConcat(k, g[1..], s); }
    }
  }

  // ----- the operations

  /** The id of `key`: the one it has, or the one its insertion would give it. */
  function GetId(hash: Key -> U32, t: Table, key: Key): (nat, Flags)
    requires t.Size() > 0
  {
    var g := Group(t, hash(key));
    var j := IndexOf(key, g);
    if j < |g| then (g[j].id, PRESENT) else (Pack(hash(key), |g|), NOT_FOUND)
  }

  /** The program's search, entry by entry: it counts the entries under `h` until it meets the key. */
  function Scan(h: U32, key: Key, b: seq<Entry>, overlap: nat): (nat, Flags) {
    if b == [] then (Pack(h, overlap), NOT_FOUND)
    else if IdHash(b[0].id) != h then Scan(h, key, b[1..], overlap)
    else if b[0].key == key then (b[0].id, PRESENT)
    else Scan(h, key, b[1..], overlap + 1)
  }

  /** With `a` scanned in vain, scanning `b` answers for `a + b`. */
  lemma {:induction false} ScanAnswers(h: U32, key: Key, a: seq<Entry>, b: seq<Entry>)
    requires IndexOf(key, Filter(HasHash(h), a)) == |Filter(HasHash(h), a)|
    ensures Scan(h, key, b, |Filter(HasHash(h), a)|) ==
      var g := Filter(HasHash(h), a + b);
      var j := IndexOf(key, g);
      if j < |g| then (g[j].id, PRESENT) else (Pack(h, |g|), NOT_FOUND)
    decreases |b|
  {
    hide Filter, Pack;
    var p := HasHash(h);
    if b == [] {
      assert a + b == a;
    } else {
      var x, rest := b[0], b[1..];
      assert a + b == a + [x] + rest;
      FilterAppend(p, a, x);
      if p(x) {
        IndexOfConcat(key, Filter(p, a), [x]);
      } else {
        assert Filter(p, a) + [] == Filter(p, a);
      }
      if p(x) && x.key == key {
        FilterConcat(p, a + [x], rest);
        IndexOfConcat(key, Filter(p, a + [x]), Filter(p, rest));
      } else {
        ScanAnswers(h, key, a + [x], rest);
      }
    }
  }

  lemma ScanIsGetId(hash: Key -> U32, t: Table, key: Key)
    requires t.Size() > 0
    ensures Scan(hash(key), key, t.buckets[hash(key) % t.Size()], 0) == GetId(hash, t, key)
  {
    var b := t.buckets[hash(key) % t.Size()];
    ScanAnswers(hash(key), key, [], b);
    assert [] + b == b;
  }

  function FindId(t: Table, id: nat): Option<Entry>
    requires t.Size() > 0
  {
    var b := t.buckets[IdHash(id) % t.Size()];
    var j := IndexOfId(id, b);
    if j < |b| then Some(b[j]) else None
  }

  function Get(t: Table, id: nat): nat
    requires t.Size() > 0
  {
    match FindId(t, id)
    case None => 0
    case Some(e) => e.data
  }

  function GetKey(t: Table, id: nat): Option<Key>
    requires t.Size() > 0
  {
    match FindId(t, id)
    case None => None
    case Some(e) => Some(e.key)
  }

  /** Entries dealt out to buckets by their hash. */
  function Spread(s: seq<Entry>, size: nat): (b: seq<seq<Entry>>)
    requires size > 0
    ensures |b| == size
  {
    seq(size, i requires 0 <= i < size => Filter(InBucket(size, i), s))
  }

  function Resize(t: Table, size: nat): Table
    requires size > 0
  {
    Table(Spread(Flatten(t.buckets), size), t.n)
  }

  function Grow(t: Table): (r: Table)
    requires t.Size() > 0
    ensures r.Size() > 0
  {
    if t.n + 1 >= ReallocAt(t.Size()) then Resize(t, t.Size() * 4) else t
  }

  function Append(t: Table, e: Entry): (r: Table)
    requires t.Size() > 0
    ensures r.Size() == t.Size()
  {
    var c := IdHash(e.id) % t.Size();
    Table(t.buckets[c := t.buckets[c] + [e]], t.n + 1)
  }

  function Overwrite(t: Table, id: nat, data: nat, flags: Flags): (r: Table)
    requires t.Size() > 0 && FindId(t, id).Some?
    ensures r.Size() == t.Size()
  {
    var c := IdHash(id) % t.Size();
    var b := t.buckets[c];
    var j := IndexOfId(id, b);
    Table(t.buckets[c := b[j := b[j].(data := data, flags := flags)]], t.n)
  }

  /** An insertion may only claim that the key is present when its id is in the table. */
  predicate CanInsert(t: Table, id: nat, flags: Flags) {
    t.Size() > 0 && (!flags.notFound && flags.present ==> FindId(Grow(t), id).Some?)
  }

  function InsertId(t: Table, key: Key, data: nat, id: nat, flags: Flags): (r: Table)
    requires CanInsert(t, id, flags)
    ensures r.Size() > 0
  {
    var g := Grow(t);
    if flags.notFound then Append(g, Entry(key, id, data, flags))
    else if flags.present then Overwrite(g, id, data, flags)
    else g
  }

  // ----- the representation invariant

  ghost predicate WellPlaced(b: seq<seq<Entry>>) {
    forall i, e :: 0 <= i < |b| && e in b[i] ==> IdHash(e.id) % |b| == i
  }

  /** The overlaps under one hash are 0, 1, 2, ... in insertion order, and the keys differ. */
  ghost predicate GoodGroup(hash: Key -> U32, h: U32, g: seq<Entry>) {
    && (forall j :: 0 <= j < |g| ==> g[j].id == Pack(h, j) && hash(g[j].key) == h)
    && (forall i, j :: 0 <= i < j < |g| ==> g[i].key != g[j].key)
  }

  ghost predicate Wf(hash: Key -> U32, t: Table) {
    && t.Size() > 0
    && WellPlaced(t.buckets)
    && t.n == |Flatten(t.buckets)|
    && (forall h: U32 :: GoodGroup(hash, h, Group(t, h)))
  }

  /** No bucket list grows past the load factor. */
  predicate Loaded(t: Table) { t.n < ReallocAt(t.Size()) || t.n == 0 }

  /** At most 65536 keys share a hash: the overlap counter has not wrapped. */
  ghost predicate Capped(t: Table)
    requires t.Size() > 0
  {
    forall h: U32 :: |Group(t, h)| <= OVERLAPS
  }

  lemma EmptyWf(hash: Key -> U32, size: nat)
    requires size > 0
    ensures Wf(hash, Empty(size)) && Loaded(Empty(size))
    ensures forall h: U32 :: Group(Empty(size), h) == []
  {
    FlattenEmpty(Empty(size).buckets);
  }

  lemma PackHash(hash: U32, overlap: nat)
    ensures IdHash(Pack(hash, overlap)) == hash
  {
    var k := overlap % OVERLAPS;
    assert (hash + k * HASHES) % HASHES == hash;
  }

  /** Two ids agree exactly when the hashes agree and so do the overlaps, up to wrap-around. */
  lemma PackInjective(h1: U32, i: nat, h2: U32, j: nat)
    ensures Pack(h1, i) == Pack(h2, j) <==> h1 == h2 && i % OVERLAPS == j % OVERLAPS
  {
    PackHash(h1, i);
    PackHash(h2, j);
  }

  // ----- an id search is a search of a group

  /** The group's members in front of place `k` come from the bucket in front of place `i`. */
  lemma FirstInGroup(b: seq<Entry>, i: nat, h: U32, k: nat)
    requires i < |b| && k == |Filter(HasHash(h), b[..i])|
    requires forall x :: 0 <= x < i ==> b[x].id != b[i].id
    ensures k <= |Filter(HasHash(h), b)|
    ensures forall x :: 0 <= x < k ==> Filter(HasHash(h), b)[x].id != b[i].id
  {
    var p := HasHash(h);
    FilterConcat(p, b[..i], b[i..]);
    assert b == b[..i] + b[i..];
    forall x | 0 <= x < k ensures Filter(p, b)[x].id != b[i].id {
      assert Filter(p, b)[x] == Filter(p, b[..i])[x];
      assert Filter(p, b[..i])[x] in b[..i];
    }
  }

  /** An id search finds the first entry with that id in its group. */
  lemma FindIdInGroup(t: Table, h: U32, id: nat) returns (k: nat)
    requires t.Size() > 0 && IdHash(id) == h
    requires exists e :: e in Group(t, h) && e.id == id
    ensures k < |Group(t, h)| && Group(t, h)[k].id == id && FindId(t, id) == Some(Group(t, h)[k])
    ensures forall x :: 0 <= x < k ==> Group(t, h)[x].id != id
  {
    hide Filter;
    var b, p := t.buckets[h % t.Size()], HasHash(h);
    var e :| e in Group(t, h) && e.id == id;
    FilterKeeps(p, b, e);
    var i := IndexOfId(id, b);
    assert i < |b| && p(b[i]);
    k := FilterUpdate(p, b, i, b[i]);
    FirstInGroup(b, i, h, k);
  }

  // ----- resizing

  /** Resizing keeps, for every hash, the entries under it and their order. */
  lemma ResizeKeepsGroups(t: Table, size: nat, h: U32)
    requires t.Size() > 0 && size > 0 && WellPlaced(t.buckets)
    ensures Group(Resize(t, size), h) == Group(t, h)
  {
    var p, q := HasHash(h), InBucket(size, h % size);
    FilterFilter(p, q, Flatten(t.buckets));
    FilterFlatten(p, t.buckets, h % t.Size());
  }

  lemma SpreadPlaces(s: seq<Entry>, size: nat)
    requires size > 0
    ensures WellPlaced(Spread(s, size))
  {
    forall i, e | 0 <= i < size && e in Spread(s, size)[i] ensures IdHash(e.id) % size == i {
      FilterKeeps(InBucket(size, i), s, e);
    }
  }

  lemma SpreadAppend(s: seq<Entry>, x: Entry, size: nat)
    requires size > 0
    ensures var b, c := Spread(s, size), IdHash(x.id) % size;
      Spread(s + [x], size) == b[c := b[c] + [x]]
  {
    var b, c := Spread(s, size), IdHash(x.id) % size;
    hide Filter;
    forall i | 0 <= i < size
      ensures Spread(s + [x], size)[i] == b[c := b[c] + [x]][i]
    {
      FilterAppend(InBucket(size, i), s, x);
      assert Filter(InBucket(size, i), s) + [] == Filter(InBucket(size, i), s);
    }
    assert |Spread(s + [x], size)| == |b[c := b[c] + [x]]|;
  }

  /** Spreading entries over buckets loses none and duplicates none. */
  lemma {:induction false} SpreadKeepsAll(s: seq<Entry>, size: nat)
    requires size > 0
    ensures multiset(Flatten(Spread(s, size))) == multiset(s) && |Flatten(Spread(s, size))| == |s|
  {
    if s == [] {
      FlattenEmpty(Spread(s, size));
    } else {
      hide Flatten;
      var u, x := s[..|s| - 1], s[|s| - 1];
      assert s == u + [x];
      SpreadKeepsAll(u, size);
      SpreadAppend(u, x, size);
      AppendToChain(Spread(u, size), IdHash(x.id) % size, x);
    }
  }

  lemma AppendToChain(b: seq<seq<Entry>>, c: nat, x: Entry)
    requires c < |b|
    ensures multiset(Flatten(b[c := b[c] + [x]])) == multiset(Flatten(b)) + multiset([x])
    ensures |Flatten(b[c := b[c] + [x]])| == |Flatten(b)| + 1
  {
    hide Flatten;
    FlattenUpdate(b, c, b[c] + [x]);
    CancelChain(multiset(Flatten(b[c := b[c] + [x]])), multiset(b[c]), multiset(Flatten(b)), multiset([x]));
  }

  lemma CancelChain(all: multiset<Entry>, chain: multiset<Entry>, before: multiset<Entry>, x: multiset<Entry>)
    requires all + chain == before + (chain + x)
    ensures all == before + x
  {
    forall e ensures all[e] == (before + x)[e] {
      assert (all + chain)[e] == (before + (chain + x))[e];
    }
  }

  /** Resizing keeps the table well formed, every entry exactly once, and the entries under every hash. */
  lemma ResizeKeepsTable(hash: Key -> U32, t: Table, size: nat)
    requires Wf(hash, t) && size > 0
    ensures Wf(hash, Resize(t, size))
    ensures multiset(Flatten(Resize(t, size).buckets)) == multiset(Flatten(t.buckets))
    ensures forall h: U32 :: Group(Resize(t, size), h) == Group(t, h)
  {
    forall h: U32 ensures Group(Resize(t, size), h) == Group(t, h) { ResizeKeepsGroups(t, size, h); }
    SpreadPlaces(Flatten(t.buckets), size);
    SpreadKeepsAll(Flatten(t.buckets), size);
  }

  /** Resizing keeps what every id leads to, whether the table is well formed or not. */
  lemma ResizeKeepsSearch(t: Table, size: nat, id: nat)
    requires t.Size() > 0 && size > 0 && WellPlaced(t.buckets)
    ensures FindId(Resize(t, size), id) == FindId(t, id)
  {
    hide Group, FindId, Spread;
    var h, t' := IdHash(id), Resize(t, size);
    var g := Group(t, h);
    ResizeKeepsGroups(t, size, h);
    FoundInGroup(t, id);
    FoundInGroup(t', id);
    if e :| e in g && e.id == id {
      var k := FindIdInGroup(t, h, id);
      var k' := FindIdInGroup(t', h, id);
      assert k == k';
    }
  }

  /** A search succeeds exactly when the group of the id's hash has an entry with the id. */
  lemma FoundInGroup(t: Table, id: nat)
    requires t.Size() > 0
    ensures FindId(t, id).Some? <==> exists e :: e in Group(t, IdHash(id)) && e.id == id
  {
    var b, p := t.buckets[IdHash(id) % t.Size()], HasHash(IdHash(id));
    var j := IndexOfId(id, b);
    if j < |b| { FilterKeeps(p, b, b[j]); }
    if e :| e in Filter(p, b) && e.id == id { FilterKeeps(p, b, e); }
  }

  lemma GrowKeepsTable(hash: Key -> U32, t: Table)
    requires Wf(hash, t)
    ensures Wf(hash, Grow(t))
    ensures multiset(Flatten(Grow(t).buckets)) == multiset(Flatten(t.buckets))
    ensures forall h: U32 :: Group(Grow(t), h) == Group(t, h)
  {
    if t.n + 1 >= ReallocAt(t.Size()) { ResizeKeepsTable(hash, t, t.Size() * 4); }
  }

  /** After every insertion the load is below the resize limit. */
  lemma InsertKeepsLoad(t: Table, key: Key, data: nat, id: nat, flags: Flags)
    requires CanInsert(t, id, flags) && Loaded(t)
    ensures Loaded(InsertId(t, key, data, id, flags))
    ensures InsertId(t, key, data, id, flags).n < ReallocAt(InsertId(t, key, data, id, flags).Size())
  {
  }

  /** An insertion quadruples the buckets exactly when the count comes within two of seven tenths of them. */
  lemma GrowsFourfoldIff(t: Table, key: Key, data: nat, id: nat, flags: Flags)
    requires CanInsert(t, id, flags)
    ensures InsertId(t, key, data, id, flags).Size() ==
      if 10 * (t.n + 2) > 7 * t.Size() then 4 * t.Size() else t.Size()
  {
    hide FindId, Spread;
  }

  /** The lower 32 bits of an id are the hash of its key, the 16 bits above them the overlap. */
  lemma IdLayout(hash: U32, overlap: nat)
    ensures Pack(hash, overlap) % 0x1_0000_0000 == hash
    ensures Pack(hash, overlap) / 0x1_0000_0000 == overlap % 0x1_0000
    ensures Pack(hash, overlap) < 0x1_0000_0000_0000
  {
  }
}
