/** The repository: packages registered in the lookup table, filled by the loader's inner loop. */
module Repository {
  import opened Options
  import opened Sequences
  import opened Versions
  import opened PackageOrder
  import opened Packages
  import opened Grouping
  import opened LutModel
  import opened LutIds
  import opened Interning
  import Chains
  import Lut

  datatype Outcome = Done | NoVersion

  /** The package objects by address. */
  type Objects = map<nat, Package>

  /** Every ebuild of every package. */
  ghost function Members(objects: Objects): set<Ebuild>
    reads objects.Values
  {
    set a, e | a in objects && e in objects[a].list :: e
  }

  /** Every object that loading may change. */
  ghost function Footprint(table: Lut.LookupTable, objects: Objects): set<object>
    reads table, objects.Values
  {
    table.Repr() + objects.Values + Members(objects)
  }

  /** The table's data are the addresses of the packages, each under its own key. */
  ghost predicate Named(objects: Objects, nextAddress: nat, names: Store) {
    && nextAddress > 0
    && (forall a :: a in objects ==> 0 < a < nextAddress && objects[a].key in names && names[objects[a].key].data == a)
    && (forall k :: k in names ==> names[k].data in objects && objects[names[k].data].key == k)
  }

  /** Every package holds what it should. */
  ghost predicate Filled(objects: Objects, content: Content)
    reads objects.Values, Members(objects)
  {
    forall a :: a in objects ==>
      && (assert forall e :: e in objects[a].list ==> e in Members(objects);
          objects[a].Valid())
      && objects[a].key in content && ReleaseOf(objects[a].list) == content[objects[a].key]
  }

  /** All that a repository keeps: the table's contents as a store, and the packages behind it. */
  ghost predicate Consistent(table: Lut.LookupTable, names: Store, objects: Objects, nextAddress: nat, content: Content)
    reads table, table.table, table.shape.home.Keys, objects.Values, Members(objects)
  {
    && table.Valid() && Wf(table.hash, table.View()) && Represents(table.hash, table.View(), names)
    && Named(objects, nextAddress, names) && Filled(objects, content) && names.Keys == content.Keys
  }

  lemma TableWithin(table: Lut.LookupTable, objects: Objects)
    ensures table.Repr() <= Footprint(table, objects)
  {
  }

  /** Registers a new package under the id the table has for its key. */
  method Register(table: Lut.LookupTable, ghost names: Store, objects: Objects, nextAddress: nat,
                  ghost content: Content, key: string, id: nat)
    returns (pkg: Package, ghost names': Store)
    requires table.Valid() && Wf(table.hash, table.View()) && Represents(table.hash, table.View(), names)
    requires StoreCapped(table.hash, names) && Named(objects, nextAddress, names) && Filled(objects, content)
    requires key !in names && LutModel.GetId(table.hash, table.View(), key) == (id, NOT_FOUND)
    modifies table.Repr()
    ensures table.Valid() && Wf(table.hash, table.View()) && Represents(table.hash, table.View(), names')
    ensures forall o :: o in Footprint(table, objects[nextAddress := pkg]) ==>
      o in old(Footprint(table, objects)) || fresh(o)
    ensures pkg.key == key
    ensures Registered(names, names', key, nextAddress, id)
    ensures Named(objects[nextAddress := pkg], nextAddress + 1, names')
    ensures Filled(objects[nextAddress := pkg], content[key := []])
  {
    hide Wf, Represents, LutModel.GetId, StoreCapped, Chains.Good, Chains.BucketsOf, Chains.Mirrors, Named, Filled,
      Registered, Members, Footprint;
    names' := RegisterName(table, names, objects, nextAddress, content, key, id);
    pkg := MakePackage(objects, nextAddress, names, names', content, key, id);
    FootprintWith(table, objects, nextAddress, pkg);
  }

  /** Registers the address of a package to come under the id the table has for its key; no package notices. */
  method RegisterName(table: Lut.LookupTable, ghost names: Store, ghost objects: Objects, nextAddress: nat,
                      ghost content: Content, key: string, id: nat)
    returns (ghost names': Store)
    requires table.Valid() && Wf(table.hash, table.View()) && Represents(table.hash, table.View(), names)
    requires StoreCapped(table.hash, names) && Filled(objects, content)
    requires key !in names && LutModel.GetId(table.hash, table.View(), key) == (id, NOT_FOUND)
    modifies table.Repr()
    ensures table.Valid() && Wf(table.hash, table.View()) && Represents(table.hash, table.View(), names')
    ensures forall o :: o in Footprint(table, objects) ==> o in old(Footprint(table, objects)) || fresh(o)
    ensures Registered(names, names', key, nextAddress, id) && Filled(objects, content)
  {
    hide Wf, Represents, LutModel.GetId, StoreCapped, Chains.Good, Chains.BucketsOf, Chains.Mirrors, Filled, Registered;
    ghost var repr := table.Repr();
    assert forall p: Package :: p in objects.Values ==> p !in repr;
    assert forall e: Ebuild :: e in Members(objects) ==> e !in repr;
    names' := RegisterKey(table, names, key, nextAddress, id);
  }

  lemma FootprintWith(table: Lut.LookupTable, objects: Objects, address: nat, pkg: Package)
    requires pkg.list == []
    ensures Footprint(table, objects[address := pkg]) <= Footprint(table, objects) + {pkg}
  {
    assert Members(objects[address := pkg]) <= Members(objects);
  }

  /** Makes the object of a key that has just been registered. */
  method MakePackage(ghost objects: Objects, ghost nextAddress: nat, ghost names: Store, ghost names': Store,
                     ghost content: Content, key: string, ghost id: nat)
    returns (pkg: Package)
    requires Named(objects, nextAddress, names) && Filled(objects, content) && key !in names
    requires Registered(names, names', key, nextAddress, id)
    ensures fresh(pkg) && pkg.key == key && pkg.list == []
    ensures Named(objects[nextAddress := pkg], nextAddress + 1, names')
    ensures Filled(objects[nextAddress := pkg], content[key := []])
  {
    hide Named, Filled, Registered;
    assert forall e: Ebuild :: e in Members(objects) ==> allocated(e);
    pkg := new Package(key);
    NamedAfter(objects, nextAddress, names, names', pkg, id);
    FilledAfter(objects, nextAddress, names, content, pkg);
  }

  lemma NamedAfter(objects: Objects, nextAddress: nat, names: Store, names': Store, pkg: Package, id: nat)
    requires Named(objects, nextAddress, names) && pkg.key !in names
    requires Registered(names, names', pkg.key, nextAddress, id)
    ensures Named(objects[nextAddress := pkg], nextAddress + 1, names')
  {
  }

  lemma FilledAfter(objects: Objects, nextAddress: nat, names: Store, content: Content, pkg: Package)
    requires Named(objects, nextAddress, names) && Filled(objects, content) && pkg.key !in names
    requires pkg.Valid() && pkg.list == []
    ensures Filled(objects[nextAddress := pkg], content[pkg.key := []])
  {
    hide Chained, NoRepeats;
    assert ReleaseOf([]) == [];
  }

  lemma OtherPackagesApart(objects: Objects, nextAddress: nat, names: Store, content: Content, a: nat, ebuild: Ebuild)
    requires Named(objects, nextAddress, names) && Filled(objects, content)
    requires a in objects && ebuild.package == null
    ensures forall b :: b in objects && b != a ==>
      && objects[b] != objects[a] && ebuild !in objects[b].list
      && forall e :: e in objects[b].list ==> e !in objects[a].list
  {
    hide Chained, NoRepeats;
    forall b | b in objects && b != a
      ensures objects[b] != objects[a] && ebuild !in objects[b].list
      ensures forall e :: e in objects[b].list ==> e !in objects[a].list
    {
      assert objects[a].Valid() && objects[b].Valid();
      assert names[objects[a].key].data == a && names[objects[b].key].data == b;
    }
  }

  /** Adds an ebuild to one of the packages; the others do not notice. */
  method AddToPackage(ghost objects: Objects, ghost nextAddress: nat, ghost names: Store, ghost content: Content,
                      ghost a: nat, pkg: Package, ebuild: Ebuild)
    requires Named(objects, nextAddress, names) && Filled(objects, content)
    requires a in objects && objects[a] == pkg && ebuild.package == null
    requires ComparableWith(ebuild.release.version, pkg.list)
    modifies pkg`ebuilds, pkg`list, ebuild, (set e | e in pkg.list)`older
    ensures Filled(objects, content[pkg.key := Inserted(Listed(content, pkg.key), ebuild.release)])
    ensures forall e :: e in pkg.list ==> e in old(pkg.list) || e == ebuild
  {
    hide Inserted, Position, AllReadable, Chained, NoRepeats, Named;
    OtherPackagesApart(objects, nextAddress, names, content, a, ebuild);
    var _ := pkg.AddEbuild(ebuild);
    OtherKeys(objects, nextAddress, names);
  }

  lemma OtherKeys(objects: Objects, nextAddress: nat, names: Store)
    requires Named(objects, nextAddress, names)
    ensures forall a, b :: a in objects && b in objects && a != b ==> objects[a].key != objects[b].key
  {
  }

  /** Finds the package of a key, or registers it: the loader looks the key up once, when it parses the entry,
      and then finds a known package through the id. */
  method PackageFor(table: Lut.LookupTable, ghost names: Store, objects: Objects, nextAddress: nat,
                    ghost content: Content, key: string)
    returns (pkg: Package?, ghost address: nat, objects': Objects, nextAddress': nat, ghost names': Store)
    requires Consistent(table, names, objects, nextAddress, content) && StoreCapped(table.hash, names)
    modifies table.Repr()
    ensures forall o :: o in Footprint(table, objects') ==> o in old(Footprint(table, objects)) || fresh(o)
    ensures pkg != null && pkg.key == key && address in objects' && objects'[address] == pkg
    ensures Consistent(table, names', objects', nextAddress', content[key := Listed(content, key)])
    ensures StoreGrows(names, names', key)
  {
    hide Wf, Represents, LutModel.GetId, StoreCapped, Chains.Good, Chains.BucketsOf, Chains.Mirrors, Named, Filled,
      Footprint;
    NextIsFree(objects, nextAddress, names);
    TableWithin(table, objects);
    assert forall e: Ebuild :: e in Members(objects) ==> allocated(e);
    var id, flag := table.GetId(key);
    assert Filled(objects, content) && Footprint(table, objects) == old(Footprint(table, objects));
    KnownId(table.hash, table.View(), names, key);
    objects', nextAddress', names' := objects, nextAddress, names;
    if flag.notFound {
      address := nextAddress;
      pkg, names' := Register(table, names, objects, nextAddress, content, key, id);
      objects', nextAddress' := objects[nextAddress := pkg], nextAddress + 1;
    } else {
      pkg, address := FetchPackage(table, names, objects, nextAddress, id, key);
      assert content[key := Listed(content, key)] == content;
    }
  }

  lemma NextIsFree(objects: Objects, nextAddress: nat, names: Store)
    requires Named(objects, nextAddress, names)
    ensures nextAddress !in objects
  {
  }

  ghost predicate StoreGrows(before: Store, after: Store, key: string) {
    && after.Keys == before.Keys + {key}
    && forall k :: k in before ==> after[k] == before[k]
  }

  /** The package behind the id of a known key. */
  method FetchPackage(table: Lut.LookupTable, ghost names: Store, objects: Objects, ghost nextAddress: nat, id: nat,
                      ghost key: string)
    returns (pkg: Package?, ghost address: nat)
    requires table.Valid() && Wf(table.hash, table.View()) && Represents(table.hash, table.View(), names)
    requires StoreCapped(table.hash, names) && Named(objects, nextAddress, names)
    requires key in names && names[key].id == id
    ensures pkg != null && pkg.key == key && address in objects && objects[address] == pkg
  {
    hide Wf, Represents, StoreCapped, Chains.Good, Chains.BucketsOf, Chains.Mirrors, FindId, LutModel.GetId;
    IdLeadsToEntry(table.hash, table.View(), names, key);
    var data := table.Get(id);
    pkg, address := if data in objects then objects[data] else null, data;
  }

  lemma ListedIn(objects: Objects, content: Content, a: nat)
    requires Filled(objects, content) && a in objects
    ensures objects[a].Valid() && objects[a].key in content && ReleaseOf(objects[a].list) == content[objects[a].key]
  {
  }

  lemma ComparableList(v: Version, list: seq<Ebuild>)
    requires Comparable(v, ReleaseOf(list))
    ensures ComparableWith(v, list)
  {
    hide AllReadable;
    forall i | 0 <= i < |list|
      ensures AllReadable(v, list[i].release.version) && AllReadable(list[i].release.version, v)
    {
      assert ReleaseOf(list)[i] in ReleaseOf(list);
    }
  }

  /** Makes an ebuild object and adds it to its package. */
  method AddRelease(table: Lut.LookupTable, ghost names: Store, ghost objects: Objects, ghost nextAddress: nat,
                    ghost content: Content, ghost address: nat, pkg: Package, release: Release)
    requires Consistent(table, names, objects, nextAddress, content)
    requires address in objects && objects[address] == pkg && pkg.key == release.packageKey
    requires Comparable(release.version, Listed(content, pkg.key))
    modifies Footprint(table, objects)
    ensures Consistent(table, names, objects, nextAddress, Grouping.Group(content, release))
    ensures forall o :: o in Footprint(table, objects) ==> o in old(Footprint(table, objects)) || fresh(o)
  {
    hide Wf, Represents, Chains.Good, Chains.BucketsOf, Chains.Mirrors, Named, Filled, Inserted, AllReadable, Chained,
      NoRepeats, Comparable;
    ListedIn(objects, content, address);
    ComparableList(release.version, pkg.list);
    assert pkg !in table.Repr() && forall e: Ebuild :: e in pkg.list ==> e !in table.Repr();
    assert forall e: Ebuild :: e in Members(objects) ==> allocated(e);
    var ebuild := new Ebuild(release);
    assert Filled(objects, content);
    AddToPackage(objects, nextAddress, names, content, address, pkg, ebuild);
  }

  /** The body of the loader's inner loop, from the parsed entry on. */
  method LoadRelease(table: Lut.LookupTable, ghost names: Store, objects: Objects, nextAddress: nat,
                     ghost content: Content, release: Release)
    returns (objects': Objects, nextAddress': nat, ghost names': Store)
    requires Consistent(table, names, objects, nextAddress, content) && StoreCapped(table.hash, names)
    requires Comparable(release.version, Listed(content, release.packageKey))
    modifies Footprint(table, objects)
    ensures forall o :: o in Footprint(table, objects') ==> o in old(Footprint(table, objects)) || fresh(o)
    ensures Consistent(table, names', objects', nextAddress', Grouping.Group(content, release))
    ensures StoreGrows(names, names', release.packageKey)
  {
    hide Consistent, StoreCapped, Comparable, Inserted, Footprint;
    TableWithin(table, objects);
    var pkg;
    ghost var address;
    pkg, address, objects', nextAddress', names' :=
      PackageFor(table, names, objects, nextAddress, content, release.packageKey);
    ghost var content' := content[release.packageKey := Listed(content, release.packageKey)];
    assert Grouping.Group(content, release) == Grouping.Group(content', release);
    AddRelease(table, names', objects', nextAddress', content', address, pkg, release);
  }

  lemma GroupOneMore(s: seq<Release>, r: Release)
    ensures GroupAll(map[], s + [r]) == Grouping.Group(GroupAll(map[], s), r)
  {
    assert (s + [r])[..|s|] == s;
  }

  function KeysWith(hash: Key -> U32, keys: set<Key>, h: U32): set<Key> { set k | k in keys && hash(k) == h }

  /** At most 65536 of the keys share a hash. */
  ghost predicate RoomFor(hash: Key -> U32, keys: set<Key>) {
    forall h: U32 :: |KeysWith(hash, keys, h)| <= OVERLAPS
  }

  function PackageKeys(s: seq<Release>): set<Key> { set r | r in s :: r.packageKey }

  lemma RoomIsEnough(hash: Key -> U32, names: Store, keys: set<Key>)
    requires RoomFor(hash, keys) && names.Keys <= keys
    ensures StoreCapped(hash, names)
  {
    forall h: U32 ensures |KeysUnder(hash, names, h)| <= OVERLAPS {
      SubsetSize(KeysUnder(hash, names, h), KeysWith(hash, keys, h));
    }
  }

  /** What the loader has done: `releases` are in the packages, and no id has changed. */
  ghost predicate Progress(table: Lut.LookupTable, names: Store, names': Store, objects': Objects, nextAddress': nat,
                           loaded: seq<Release>, releases: seq<Release>)
    reads table, table.table, table.shape.home.Keys, objects'.Values, Members(objects')
  {
    && Consistent(table, names', objects', nextAddress', GroupAll(map[], loaded + releases))
    && names'.Keys <= names.Keys + PackageKeys(releases)
    && forall k :: k in names ==> k in names' && names'[k] == names[k]
  }

  /** One directory entry: its package is found or created, and the ebuild is added. */
  method LoadEntry(table: Lut.LookupTable, ghost names: Store, ghost names1: Store, objects: Objects, nextAddress: nat,
                   ghost loaded: seq<Release>, ghost releases: seq<Release>, release: Release)
    returns (objects': Objects, nextAddress': nat, ghost names': Store)
    requires Progress(table, names, names1, objects, nextAddress, loaded, releases)
    requires AllComparable(loaded + (releases + [release])) &&
      RoomFor(table.hash, names.Keys + PackageKeys(releases + [release]))
    modifies Footprint(table, objects)
    ensures forall o :: o in Footprint(table, objects') ==> o in old(Footprint(table, objects)) || fresh(o)
    ensures Progress(table, names, names', objects', nextAddress', loaded, releases + [release])
  {
    hide Consistent, StoreCapped, Comparable, Grouping.Group, GroupAll, AllComparable, RoomFor, Footprint, PackageKeys;
    NextFits(table.hash, names, names1, loaded, releases, release);
    objects', nextAddress', names' :=
      LoadRelease(table, names1, objects, nextAddress, GroupAll(map[], loaded + releases), release);
  }

  /** What is loaded and what the entries hold can be compared, and there is room for its keys. */
  ghost predicate CanLoad(hash: Key -> U32, names: Store, loaded: seq<Release>, category: string,
                          entries: seq<string>)
  {
    EntriesReleases(category, entries).Some? ==>
      var rs := EntriesReleases(category, entries).value;
      AllComparable(loaded + rs) && RoomFor(hash, names.Keys + PackageKeys(rs))
  }

  /** The next entry of the directory; it may be one that is passed over, or one without a version. */
  method LoadNext(table: Lut.LookupTable, ghost names: Store, ghost names1: Store, objects: Objects, nextAddress: nat,
                  ghost loaded: seq<Release>, ghost releases: seq<Release>, category: string,
                  entries: seq<string>, i: nat)
    returns (ok: bool, objects': Objects, nextAddress': nat, ghost names': Store, ghost releases': seq<Release>)
    requires Progress(table, names, names1, objects, nextAddress, loaded, releases)
    requires i < |entries| && EntriesReleases(category, entries[..i]) == Some(releases)
    requires CanLoad(table.hash, names, loaded, category, entries[..i + 1])
    modifies Footprint(table, objects)
    ensures forall o :: o in Footprint(table, objects') ==> o in old(Footprint(table, objects)) || fresh(o)
    ensures EntriesReleases(category, entries[..i + 1]) == if ok then Some(releases') else None
    ensures Progress(table, names, names', objects', nextAddress', loaded, releases')
  {
    hide Progress, EntryRelease, AllComparable, RoomFor, Footprint, PackageKeys, EntriesReleases;
    ok, objects', nextAddress', names', releases' := true, objects, nextAddress, names1, releases;
    OneMoreEntry(category, entries, i);
    if !Skipped(entries[i]) {
      var parsed := EntryRelease(category, entries[i]);
      if parsed.None? {
        ok := false;
      } else {
        objects', nextAddress', names' :=
          LoadEntry(table, names, names1, objects, nextAddress, loaded, releases, parsed.value);
        releases' := releases + [parsed.value];
      }
    }
  }

  /** The loader's loop over the entries of one category directory. An entry without a version trips an
      assertion, which ends the program. */
  method LoadEntries(table: Lut.LookupTable, ghost names: Store, objects: Objects, nextAddress: nat,
                     ghost loaded: seq<Release>, category: string, entries: seq<string>)
    returns (outcome: Outcome, objects': Objects, nextAddress': nat, ghost names': Store, ghost releases: seq<Release>)
    requires Consistent(table, names, objects, nextAddress, GroupAll(map[], loaded))
    requires forall n :: 0 <= n <= |entries| ==> CanLoad(table.hash, names, loaded, category, entries[..n])
    modifies Footprint(table, objects)
    ensures outcome == if EntriesReleases(category, entries).Some? then Done else NoVersion
    ensures outcome == Done ==> releases == EntriesReleases(category, entries).value
    ensures Progress(table, names, names', objects', nextAddress', loaded, releases)
  {
    hide Progress, Consistent, CanLoad, Footprint, EntriesReleases, GroupAll;
    objects', nextAddress', names', releases := objects, nextAddress, names, [];
    NothingLoaded(table, names, objects, nextAddress, loaded, category);
    assert entries[..0] == [];
    var i := 0;
    while i < |entries|
      invariant 0 <= i <= |entries| && EntriesReleases(category, entries[..i]) == Some(releases)
      invariant Progress(table, names, names', objects', nextAddress', loaded, releases)
      invariant forall o :: o in Footprint(table, objects') ==> o in old(Footprint(table, objects)) || fresh(o)
    {
      var ok;
      ok, objects', nextAddress', names', releases :=
        LoadNext(table, names, names', objects', nextAddress', loaded, releases, category, entries, i);
      if !ok {
        NoReleases(category, entries, i);
        return NoVersion, objects', nextAddress', names', releases;
      }
      i := i + 1;
    }
    assert entries[..i] == entries;
    outcome := Done;
  }

  lemma NothingLoaded(table: Lut.LookupTable, names: Store, objects: Objects, nextAddress: nat, loaded: seq<Release>,
                      category: string)
    requires Consistent(table, names, objects, nextAddress, GroupAll(map[], loaded))
    ensures Progress(table, names, names, objects, nextAddress, loaded, []) && EntriesReleases(category, []) == Some([])
  {
    hide Consistent;
    assert loaded + [] == loaded;
  }

  lemma OneMoreEntry(category: string, entries: seq<string>, i: nat)
    requires i < |entries| && EntriesReleases(category, entries[..i]).Some?
    ensures EntriesReleases(category, entries[..i + 1]) ==
      var rs := EntriesReleases(category, entries[..i]).value;
      if Skipped(entries[i]) then Some(rs)
      else if EntryRelease(category, entries[i]).None? then None
      else Some(rs + [EntryRelease(category, entries[i]).value])
  {
    hide EntryRelease;
    assert entries[..i + 1][..i] == entries[..i];
  }

  lemma {:induction false} NoReleases(category: string, entries: seq<string>, i: nat)
    requires i < |entries| && EntriesReleases(category, entries[..i + 1]) == None
    ensures EntriesReleases(category, entries) == None
    decreases |entries|
  {
    if i + 1 < |entries| {
      var init := entries[..|entries| - 1];
      assert init[..i + 1] == entries[..i + 1];
      NoReleases(category, init, i);
    } else {
      assert entries[..i + 1] == entries;
    }
  }

  lemma NextFits(hash: Key -> U32, names: Store, names': Store, loaded: seq<Release>, releases: seq<Release>,
                 r: Release)
    requires AllComparable(loaded + (releases + [r])) && RoomFor(hash, names.Keys + PackageKeys(releases + [r]))
    requires names'.Keys <= names.Keys + PackageKeys(releases)
    ensures StoreCapped(hash, names')
    ensures Comparable(r.version, Listed(GroupAll(map[], loaded + releases), r.packageKey))
    ensures GroupAll(map[], loaded + (releases + [r])) == Grouping.Group(GroupAll(map[], loaded + releases), r)
    ensures names.Keys + PackageKeys(releases + [r]) == names.Keys + PackageKeys(releases) + {r.packageKey}
  {
    hide AllComparable, Comparable, GroupAll, RoomFor, StoreCapped, Grouping.Group;
    assert loaded + (releases + [r]) == loaded + releases + [r];
    NextIsComparable(loaded + releases, r);
    GroupOneMore(loaded + releases, r);
    assert PackageKeys(releases + [r]) == PackageKeys(releases) + {r.packageKey} by {
      assert forall x :: x in releases + [r] <==> x in releases || x == r;
    }
    RoomIsEnough(hash, names', names.Keys + PackageKeys(releases + [r]));
  }

  /** match_atom: the package behind the id, whichever key it belongs to, and its pick; an unknown id is an error. */
  method FindMatch(table: Lut.LookupTable, ghost names: Store, objects: Objects, ghost nextAddress: nat,
                   ghost loaded: seq<Release>, atom: Atom, id: nat)
    returns (found: bool, pick: Ebuild?)
    requires Consistent(table, names, objects, nextAddress, GroupAll(map[], loaded))
    requires FindId(table.View(), id).Some? ==>
      Comparable(atom.version, Listed(GroupAll(map[], loaded), FindId(table.View(), id).value.key))
    ensures match FindId(table.View(), id)
      case None => !found && pick == null
      case Some(e) =>
        var list := Listed(GroupAll(map[], loaded), e.key);
        var i := PackageOrder.MatchAtom(atom, list);
        found && i <= |list| && if i == |list| then pick == null else pick != null && pick.release == list[i]
    ensures StoreCapped(table.hash, names) && atom.key in names && id == names[atom.key].id ==>
      FindId(table.View(), id) == Some(names[atom.key]) && names[atom.key].key == atom.key
  {
    hide Wf, Represents, StoreCapped, Chains.Good, Chains.BucketsOf, Chains.Mirrors, FindId, LutModel.GetId, GroupAll,
      Comparable, AllReadable, Chained, NoRepeats, MatchFrom;
    if StoreCapped(table.hash, names) && atom.key in names {
      IdLeadsToEntry(table.hash, table.View(), names, atom.key);
    }
    WfHasBuckets(table.hash, table.View());
    if FindId(table.View(), id).Some? { FoundIsStored(table.hash, table.View(), names, id); }
    var data := table.Get(id);
    if data !in objects {
      return false, null;
    }
    ComparableList(atom.version, objects[data].list);
    pick := objects[data].MatchAtom(atom);
    found := true;
  }

  /** A new repository: an empty table, and no packages. */
  method NewRepository(hash: Key -> U32) returns (table: Lut.LookupTable)
    ensures fresh(table) && fresh(table.Repr()) && table.hash == hash
    ensures table.Valid() && table.View() == Empty(512)
    ensures Consistent(table, map[], map[], 1, GroupAll(map[], []))
  {
    hide Wf, Represents, Chains.Good, Chains.BucketsOf, Chains.Mirrors;
    table := new Lut.LookupTable(hash, 512);
    EmptyWf(hash, 512);
    EmptyRepresents(hash, 512);
  }
}
