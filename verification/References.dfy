/** Reference conservation over whole runs of the lookup table. */
module References {
  import opened Options
  import opened Sequences
  import opened LutModel
  import opened LutIds
  import opened Ownership

  /** How a lut_insert call changes the references held on `r`. */
  ghost function CallDelta(hash: Key -> U32, t: Table, key: Key, data: nat, flags: Flags, r: Ref): int
    requires Wf(hash, t) && OwnerFlags(flags)
  {
    KnownKeyCanBeInserted(hash, t, key, flags);
    var (id, found) := GetId(hash, t, key);
    InsertDelta(t, data, id, Or(found, flags), r)
  }

  /** The call adds a key, replaces the data, or keeps the kind of ownership of the data it keeps. */
  ghost predicate KeepsKind(hash: Key -> U32, t: Table, key: Key, data: nat, flags: Flags)
    requires Wf(hash, t) && OwnerFlags(flags)
  {
    KnownKeyCanBeInserted(hash, t, key, flags);
    var (id, found) := GetId(hash, t, key);
    found.notFound ||
    var prior := FindId(Grow(t), id).value;
    prior.data != data || Owner(prior.flags, data) == Owner(Or(found, flags), data)
  }

  /** The references taken by a run, all calls together. */
  ghost function RunDelta(hash: Key -> U32, t: Table, calls: seq<Call>, r: Ref): int
    requires Wf(hash, t) && OwnerCalls(calls)
  {
    if calls == [] then 0
    else
      var init, c := calls[..|calls| - 1], calls[|calls| - 1];
      RunDelta(hash, t, init, r) + CallDelta(hash, Run(hash, t, init), c.key, c.data, c.flags, r)
  }

  ghost predicate RunKeepsKinds(hash: Key -> U32, t: Table, calls: seq<Call>)
    requires Wf(hash, t) && OwnerCalls(calls)
  {
    calls == [] ||
    var init, c := calls[..|calls| - 1], calls[|calls| - 1];
    RunKeepsKinds(hash, t, init) && KeepsKind(hash, Run(hash, t, init), c.key, c.data, c.flags)
  }

  lemma NothingRun(hash: Key -> U32, t: Table)
    requires Wf(hash, t)
    ensures Run(hash, t, []) == t && forall r :: RunDelta(hash, t, [], r) == Held(map[], r)
  {
  }

  lemma RunNext(hash: Key -> U32, t: Table, calls: seq<Call>, i: nat)
    requires Wf(hash, t) && OwnerCalls(calls) && i < |calls|
    ensures var (u, c) := (Run(hash, t, calls[..i]), calls[i]);
      && Run(hash, t, calls[..i + 1]) == Insert(hash, u, c.key, c.data, c.flags)
      && forall r ::
        RunDelta(hash, t, calls[..i + 1], r) ==
          RunDelta(hash, t, calls[..i], r) + CallDelta(hash, u, c.key, c.data, c.flags, r)
  {
    hide CallDelta, Insert;
    assert calls[..i + 1][..i] == calls[..i];
  }

  lemma CallConserves(hash: Key -> U32, t: Table, key: Key, data: nat, flags: Flags, r: Ref)
    requires Wf(hash, t) && OwnerFlags(flags) && KeepsKind(hash, t, key, data, flags)
    ensures OwnCount(Insert(hash, t, key, data, flags), r) - OwnCount(t, r) == CallDelta(hash, t, key, data, flags, r)
  {
    hide OwnCount, Owner, FindId, Grow, InsertDelta, InsertId;
    KnownKeyCanBeInserted(hash, t, key, flags);
    var (id, found) := GetId(hash, t, key);
    ReferencesConservedIff(t, key, data, id, Or(found, flags));
  }

  /** Over any run that keeps the kinds of ownership, the references held on any object change by exactly the change
      in the number of the entries that own it. */
  lemma {:induction false} RunConserves(hash: Key -> U32, t: Table, calls: seq<Call>, r: Ref)
    requires Wf(hash, t) && OwnerCalls(calls) && RunKeepsKinds(hash, t, calls)
    ensures RunDelta(hash, t, calls, r) == OwnCount(Run(hash, t, calls), r) - OwnCount(t, r)
  {
    if calls != [] {
      hide OwnCount, KeepsKind, CallDelta, Insert;
      var init, c := calls[..|calls| - 1], calls[|calls| - 1];
      RunConserves(hash, t, init, r);
      CallConserves(hash, Run(hash, t, init), c.key, c.data, c.flags, r);
    }
  }

  /** From an empty table on, the table holds as many references on an object as entries own it; so its release, which
      gives back one for each of them, leaves none. */
  lemma RunFromEmptyConserves(hash: Key -> U32, size: nat, calls: seq<Call>, r: Ref)
    requires size > 0 && OwnerCalls(calls)
    ensures Wf(hash, Empty(size))
    ensures RunKeepsKinds(hash, Empty(size), calls) ==>
      RunDelta(hash, Empty(size), calls, r) == OwnCount(Run(hash, Empty(size), calls), r)
  {
    hide KeepsKind, CallDelta, Insert;
    EmptyWf(hash, size);
    FlattenEmpty(Empty(size).buckets);
    if RunKeepsKinds(hash, Empty(size), calls) { RunConserves(hash, Empty(size), calls, r); }
  }

  /** A lut_insert of a new key takes one reference: on the Python object, if the caller's flags say so, otherwise on
      the counted object, if they say so; null and plain data take none. */
  lemma NewKeyTakes(hash: Key -> U32, t: Table, key: Key, data: nat, flags: Flags, r: Ref)
    requires Wf(hash, t) && OwnerFlags(flags) && Lookup(hash, t, key) == None
    ensures CallDelta(hash, t, key, data, flags, r) ==
      if data == 0 then 0
      else if flags.python then (if r == PyRef(data) then 1 else 0)
      else if flags.reference then (if r == CountedRef(data) then 1 else 0)
      else 0
  {
    hide Group, Wf, InsertDelta;
    assert WellPlaced(t.buckets) by { PlacesOf(hash, t); }
    KnownKeyCanBeInserted(hash, t, key, flags);
    var (id, found) := GetId(hash, t, key);
    DeltaByFlags(t, data, id, Or(found, flags), r);
  }

  lemma PlacesOf(hash: Key -> U32, t: Table)
    requires Wf(hash, t)
    ensures t.Size() > 0 && WellPlaced(t.buckets)
  {
  }

  /** A lut_insert of a known key moves a reference from the object stored under its id to the new one; the same data
      moves none. */
  lemma KnownKeyMoves(hash: Key -> U32, t: Table, key: Key, data: nat, flags: Flags, r: Ref)
    requires Wf(hash, t) && OwnerFlags(flags) && Lookup(hash, t, key).Some?
    ensures var e := FindId(t, GetId(hash, t, key).0);
      && e.Some?
      && CallDelta(hash, t, key, data, flags, r) ==
        if e.value.data == data then 0
        else (if Denotes(flags, data, r) then 1 else 0) - (if Denotes(e.value.flags, e.value.data, r) then 1 else 0)
  {
    hide Group, Wf, InsertDelta;
    assert WellPlaced(t.buckets) by { PlacesOf(hash, t); }
    KnownKeyCanBeInserted(hash, t, key, flags);
    var (id, found) := GetId(hash, t, key);
    DeltaByFlags(t, data, id, Or(found, flags), r);
  }
}
