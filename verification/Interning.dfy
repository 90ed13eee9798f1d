/** Interning of USE flags over the lookup table (use_get_global). */
module Interning {
  import opened Options
  import opened LutModel
  import opened LutIds
  import opened Chains
  import opened UseFlags
  import Lut

  /** Inserts a new key under the id the table has for it. */
  method RegisterKey(table: Lut.LookupTable, ghost names: Store, key: string, data: nat, id: nat)
    returns (ghost names': Store)
    requires table.Valid() && Wf(table.hash, table.View()) && Represents(table.hash, table.View(), names)
    requires StoreCapped(table.hash, names)
    requires key !in names && LutModel.GetId(table.hash, table.View(), key) == (id, NOT_FOUND)
    modifies table.Repr()
    ensures table.Valid() && Wf(table.hash, table.View()) && Represents(table.hash, table.View(), names')
    ensures fresh(table.Repr() - old(table.Repr()))
    ensures Registered(names, names', key, data, id)
  {
    hide Wf, Represents, LutModel.GetId, StoreInsert, Good, BucketsOf, Mirrors, StoreCapped, LutModel.InsertId;
    NewKeyRegistered(table.hash, table.View(), names, key, data, id);
    table.InsertId(key, data, id, Or(NOT_FOUND, PYTHON));
    names' := StoreInsert(table.hash, names, key, data, PYTHON);
  }

  ghost predicate Registered(before: Store, after: Store, key: string, data: nat, id: nat) {
    && after.Keys == before.Keys + {key} && after[key].data == data && after[key].id == id
    && forall k :: k in before && k != key ==> after[k] == before[k]
  }

  class UseRegistry {
    const flags: Lut.LookupTable
    /** The flag objects by address; the next free address. */
    var objects: map<nat, UseFlag>
    var nextAddress: nat
    /** What has been interned. */
    ghost var names: Store

    ghost predicate Valid()
      reads this, flags, flags.table, flags.shape.home.Keys
    {
      && flags.Valid() && Wf(flags.hash, flags.View())
      && Represents(flags.hash, flags.View(), names)
      && ObjectsMatch(objects, nextAddress, names)
    }

    constructor (hash: Key -> U32)
      ensures Valid() && names == map[] && flags.hash == hash && flags.View() == Empty(256)
      ensures fresh(flags) && fresh(flags.Repr())
    {
      hide Wf, Represents;
      flags := new Lut.LookupTable(hash, 256);
      objects, nextAddress, names := map[], 1, map[];
      EmptyWf(hash, 256);
      EmptyRepresents(hash, 256);
    }

    /** The id of a flag; a flag that was never seen gets an object, switched off. */
    method UseGetGlobal(useflag: Option<string>) returns (id: nat)
      requires Valid() && StoreCapped(flags.hash, names)
      modifies this, flags.Repr()
      ensures Valid() && fresh(flags.Repr() - old(flags.Repr()))
      ensures match useflag
        case None => id == 0 && names == old(names) && objects == old(objects)
        case Some(name) => Interned(old(names), names, old(objects), objects, name, id)
    {
      hide Wf, Represents, LutModel.GetId, StoreInsert, Good, BucketsOf, Mirrors, IndexOf;
      if useflag.None? {
        return 0;
      }
      var name := useflag.value;
      var flag;
      id, flag := flags.GetId(name);
      KnownId(flags.hash, flags.View(), names, name);
      if flag.notFound {
        InternNew(name, id);
      }
    }

    /** Registers a flag under the id the table has for it. */
    method InternNew(name: string, id: nat)
      requires Valid() && StoreCapped(flags.hash, names)
      requires name !in names && LutModel.GetId(flags.hash, flags.View(), name) == (id, NOT_FOUND)
      modifies this, flags.Repr()
      ensures Valid() && fresh(flags.Repr() - old(flags.Repr()))
      ensures Interned(old(names), names, old(objects), objects, name, id)
    {
      hide Wf, Represents, LutModel.GetId, StoreCapped, Good, BucketsOf, Mirrors, ObjectsMatch, Registered, Interned;
      ghost var before := names;
      names := RegisterKey(flags, names, name, nextAddress, id);
      InternedNow(before, names, objects, nextAddress, name, id);
      objects := objects[nextAddress := UseFlag(name, false)];
      nextAddress := nextAddress + 1;
    }
  }

  /** The table's data are the addresses of the flag objects. */
  ghost predicate ObjectsMatch(objects: map<nat, UseFlag>, nextAddress: nat, names: Store) {
    && nextAddress > 0
    && (forall a :: a in objects ==> 0 < a < nextAddress)
    && (forall k :: k in names ==> names[k].data in objects && objects[names[k].data].name == k)
  }

  lemma InternedNow(before: Store, after: Store, objects: map<nat, UseFlag>, nextAddress: nat, name: string, id: nat)
    requires ObjectsMatch(objects, nextAddress, before) && name !in before
    requires Registered(before, after, name, nextAddress, id)
    ensures var objects' := objects[nextAddress := UseFlag(name, false)];
      ObjectsMatch(objects', nextAddress + 1, after) && Interned(before, after, objects, objects', name, id)
  {
  }

  /** `name` has the id `id` now; no flag interned before has changed its id or its object; a new flag
      gets an object that carries its name and is off. */
  ghost predicate Interned(before: Store, after: Store, objects: map<nat, UseFlag>, objects': map<nat, UseFlag>,
                           name: string, id: nat) {
    && name in after && after[name].id == id
    && after.Keys == before.Keys + {name}
    && (forall k :: k in before ==> after[k] == before[k])
    && (forall a :: a in objects ==> a in objects' && objects'[a] == objects[a])
    && (name !in before ==> after[name].data in objects' && objects'[after[name].data] == UseFlag(name, false))
  }
}
