/** The references the table holds on the objects stored in it, and when they are conserved. */
module Ownership {
  import opened Options
  import opened Sequences
  import opened LutModel

  /** A Python object, or one of the program's own reference-counted objects. */
  datatype Ref = PyRef(address: nat) | CountedRef(address: nat)

  /** The references taken minus the references given back, for each object. */
  type Ledger = map<Ref, int>

  function Held(l: Ledger, r: Ref): int { if r in l then l[r] else 0 }

  /** The object an entry with these flags owns; the null address owns nothing. */
  function Owner(flags: Flags, data: nat): Option<Ref> {
    if data == 0 then None
    else if flags.python then Some(PyRef(data))
    else if flags.reference then Some(CountedRef(data))
    else None
  }

  function Mine(o: Option<Ref>, r: Ref): int { if o == Some(r) then 1 else 0 }

  function Take(l: Ledger, o: Option<Ref>): (l': Ledger)
    ensures forall r :: Held(l', r) == Held(l, r) + Mine(o, r)
  {
    match o
    case None => l
    case Some(r) => l[r := Held(l, r) + 1]
  }

  function GiveBack(l: Ledger, o: Option<Ref>): (l': Ledger)
    ensures forall r :: Held(l', r) == Held(l, r) - Mine(o, r)
  {
    match o
    case None => l
    case Some(r) => l[r := Held(l, r) - 1]
  }

  function OwnedBy(r: Ref): Entry -> bool { (e: Entry) => Owner(e.flags, e.data) == Some(r) }

  /** How many live entries own `r`. */
  function OwnCount(t: Table, r: Ref): nat { |Filter(OwnedBy(r), Flatten(t.buckets))| }

  /** How an insertion changes the references held on `r`, the temporary node included: a new node
      keeps the reference it takes; an overwrite takes one, gives the old one back, and frees the
      temporary node; an insertion that is neither loses its node. */
  function InsertDelta(t: Table, data: nat, id: nat, flags: Flags, r: Ref): int
    requires CanInsert(t, id, flags)
  {
    if flags.notFound || !flags.present then Mine(Owner(flags, data), r)
    else
      var prior := FindId(Grow(t), id).value;
      if prior.data == data then 0 else Mine(Owner(flags, data), r) - Mine(Owner(prior.flags, prior.data), r)
  }

  lemma ResizeKeepsOwners(t: Table, size: nat, r: Ref)
    requires size > 0
    ensures OwnCount(Resize(t, size), r) == OwnCount(t, r)
  {
    SpreadKeepsAll(Flatten(t.buckets), size);
    FilterCount(OwnedBy(r), Flatten(Resize(t, size).buckets), Flatten(t.buckets));
  }

  lemma AppendOwners(t: Table, e: Entry, r: Ref)
    requires t.Size() > 0
    ensures OwnCount(Append(t, e), r) == OwnCount(t, r) + Mine(Owner(e.flags, e.data), r)
  {
    var c := IdHash(e.id) % t.Size();
    FlattenUpdateCount(OwnedBy(r), t.buckets, c, t.buckets[c] + [e]);
    FilterAppend(OwnedBy(r), t.buckets[c], e);
  }

  lemma OverwriteOwners(t: Table, id: nat, data: nat, flags: Flags, r: Ref)
    requires t.Size() > 0 && FindId(t, id).Some?
    ensures var prior := FindId(t, id).value;
      OwnCount(Overwrite(t, id, data, flags), r) ==
        OwnCount(t, r) + Mine(Owner(flags, data), r) - Mine(Owner(prior.flags, prior.data), r)
  {
    var c := IdHash(id) % t.Size();
    var b := t.buckets[c];
    var j := IndexOfId(id, b);
    var e := b[j].(data := data, flags := flags);
    FlattenUpdateCount(OwnedBy(r), t.buckets, c, b[j := e]);
    CountUpdate(OwnedBy(r), b, j, e);
  }

  lemma CountUpdate(p: Entry -> bool, b: seq<Entry>, j: nat, e: Entry)
    requires j < |b|
    ensures |Filter(p, b[j := e])| - (if p(e) then 1 else 0) == |Filter(p, b)| - (if p(b[j]) then 1 else 0)
  {
    assert b == b[..j] + [b[j]] + b[j + 1..] && b[j := e] == b[..j] + [e] + b[j + 1..];
    FilterConcat(p, b[..j] + [b[j]], b[j + 1..]);
    FilterConcat(p, b[..j] + [e], b[j + 1..]);
    FilterAppend(p, b[..j], b[j]);
    FilterAppend(p, b[..j], e);
  }

  /** The references taken match the entries that own, for every object, exactly when the insertion
      adds an entry, or replaces the data, or keeps the kind of ownership of the data it keeps. */
  lemma ReferencesConservedIff(t: Table, key: Key, data: nat, id: nat, flags: Flags)
    requires CanInsert(t, id, flags) && (flags.notFound || flags.present)
    ensures
      (forall r :: OwnCount(InsertId(t, key, data, id, flags), r) - OwnCount(t, r) ==
        InsertDelta(t, data, id, flags, r))
      <==>
      (flags.notFound ||
       var prior := FindId(Grow(t), id).value;
       prior.data != data || Owner(prior.flags, data) == Owner(flags, data))
  {
    var g := Grow(t);
    var t' := InsertId(t, key, data, id, flags);
    forall r ensures OwnCount(g, r) == OwnCount(t, r) {
      if t.n + 1 >= ReallocAt(t.Size()) { ResizeKeepsOwners(t, t.Size() * 4, r); }
    }
    hide OwnCount, Grow;
    if flags.notFound {
      forall r ensures OwnCount(t', r) - OwnCount(t, r) == InsertDelta(t, data, id, flags, r) {
        AppendOwners(g, Entry(key, id, data, flags), r);
      }
    } else {
      OverwriteConservedIff(t, key, data, id, flags);
    }
  }

  lemma OverwriteConservedIff(t: Table, key: Key, data: nat, id: nat, flags: Flags)
    requires CanInsert(t, id, flags) && !flags.notFound && flags.present
    requires forall r :: OwnCount(Grow(t), r) == OwnCount(t, r)
    ensures
      var prior := FindId(Grow(t), id).value;
      (forall r :: OwnCount(InsertId(t, key, data, id, flags), r) - OwnCount(t, r) ==
        InsertDelta(t, data, id, flags, r))
      <==> prior.data != data || Owner(prior.flags, data) == Owner(flags, data)
  {
    var g, prior := Grow(t), FindId(Grow(t), id).value;
    var t' := InsertId(t, key, data, id, flags);
    hide OwnCount, Grow, Owner, FindId;
    forall r
      ensures OwnCount(t', r) - OwnCount(t, r) == Mine(Owner(flags, data), r) - Mine(Owner(prior.flags, prior.data), r)
    {
      OverwriteOwners(g, id, data, flags, r);
    }
    var before, after := Owner(prior.flags, data), Owner(flags, data);
    if prior.data == data && before != after {
      var r := if before.Some? then before.value else after.value;
      assert Mine(after, r) != Mine(before, r);
      assert OwnCount(t', r) - OwnCount(t, r) != InsertDelta(t, data, id, flags, r);
    }
  }

  // ----- what the flag bits mean

  /** Data stored with these flag bits is the object `r`: Python's bit goes before the other one, and null is none. */
  predicate Denotes(flags: Flags, data: nat, r: Ref) {
    match r
    case PyRef(address) => data != 0 && address == data && flags.python
    case CountedRef(address) => data != 0 && address == data && flags.reference && !flags.python
  }

  /** As many references as entries whose flag bits and data denote the object. */
  lemma OwnCountIsLiveEntries(t: Table, r: Ref)
    ensures var all := Flatten(t.buckets);
      OwnCount(t, r) == |set i | 0 <= i < |all| && Denotes(all[i].flags, all[i].data, r)|
  {
    hide Filter, Flatten;
    var all := Flatten(t.buckets);
    FilterIsCount(OwnedBy(r), all, set i | 0 <= i < |all| && Denotes(all[i].flags, all[i].data, r));
  }

  /** What lut_insert_id does to the references on `r`: a new entry takes one on the object that its flag bits and data
      denote; an overwrite with other data takes one on the new object and gives one back on the old. */
  lemma DeltaByFlags(t: Table, data: nat, id: nat, flags: Flags, r: Ref)
    requires CanInsert(t, id, flags) && WellPlaced(t.buckets)
    ensures flags.notFound ==> InsertDelta(t, data, id, flags, r) == if Denotes(flags, data, r) then 1 else 0
    ensures !flags.notFound && flags.present ==>
      && FindId(t, id).Some?
      && var e := FindId(t, id).value;
        InsertDelta(t, data, id, flags, r) ==
          if e.data == data then 0
          else (if Denotes(flags, data, r) then 1 else 0) - (if Denotes(e.flags, e.data, r) then 1 else 0)
  {
    hide FindId, Resize;
    if t.n + 1 >= ReallocAt(t.Size()) { ResizeKeepsSearch(t, t.Size() * 4, id); }
  }
}
