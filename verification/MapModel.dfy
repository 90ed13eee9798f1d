/** The chained map on values: its buckets and operations, and the finite map it stands for.

    `n` is only an upper bound on the number of items: a resize counts every item again, and a removal
    never takes one off. */
module MapModel {
  import opened Options
  import opened Sequences

  datatype Item = Item(key: string, data: nat)

  datatype Map = Map(buckets: seq<seq<Item>>, n: nat)

  type Hash = string -> nat

  function Bucket(hash: Hash, key: string, size: nat): (b: nat)
    requires size > 0
    ensures b < size
  {
    hash(key) % size
  }

  function ReallocAt(size: nat, threshold: real): int { (size as real * threshold).Floor }

  function Empty(size: nat): Map { Map(seq(size, _ => []), 0) }

  /** The first place of `key` in a chain, or its length. */
  function IndexOf(c: seq<Item>, key: string): (j: nat)
    ensures j <= |c|
    ensures j < |c| ==> c[j].key == key
    ensures forall i :: 0 <= i < j ==> c[i].key != key
  {
    if c == [] || c[0].key == key then 0 else 1 + IndexOf(c[1..], key)
  }

  function Find(c: seq<Item>, key: string): Option<nat> {
    if IndexOf(c, key) < |c| then Some(c[IndexOf(c, key)].data) else None
  }

  /** Overwrites the data in place, or puts the item in front. */
  function Put(c: seq<Item>, item: Item): seq<Item> {
    var j := IndexOf(c, item.key);
    if j < |c| then c[j := c[j].(data := item.data)] else [item] + c
  }

  function Take(c: seq<Item>, key: string): seq<Item> {
    var j := IndexOf(c, key);
    if j < |c| then c[..j] + c[j + 1..] else c
  }

  // ----- the operations

  function InsertItem(hash: Hash, m: Map, item: Item): (r: Map)
    requires |m.buckets| > 0
    ensures |r.buckets| == |m.buckets|
  {
    var b := Bucket(hash, item.key, |m.buckets|);
    Map(m.buckets[b := Put(m.buckets[b], item)], if Find(m.buckets[b], item.key).Some? then m.n else m.n + 1)
  }

  /** Moving a chain inserts its last item first. */
  function InsertChain(hash: Hash, m: Map, c: seq<Item>): (r: Map)
    requires |m.buckets| > 0
    ensures |r.buckets| == |m.buckets|
  {
    if c == [] then m else InsertItem(hash, InsertChain(hash, m, c[1..]), c[0])
  }

  function InsertChains(hash: Hash, m: Map, chains: seq<seq<Item>>): (r: Map)
    requires |m.buckets| > 0
    ensures |r.buckets| == |m.buckets|
  {
    if chains == [] then m
    else InsertChain(hash, InsertChains(hash, m, chains[..|chains| - 1]), chains[|chains| - 1])
  }

  /** The count goes on from its old value. */
  function Resize(hash: Hash, m: Map, size: nat): (r: Map)
    requires size > 0
    ensures |r.buckets| == size
  {
    InsertChains(hash, Map(seq(size, _ => []), m.n), m.buckets)
  }

  function Insert(hash: Hash, threshold: real, m: Map, key: string, data: nat): Map
    requires |m.buckets| > 0
  {
    var grown := if m.n + 1 >= ReallocAt(|m.buckets|, threshold) then Resize(hash, m, |m.buckets| * 2) else m;
    InsertItem(hash, grown, Item(key, data))
  }

  function Get(hash: Hash, m: Map, key: string): Option<nat>
    requires |m.buckets| > 0
  {
    Find(m.buckets[Bucket(hash, key, |m.buckets|)], key)
  }

  function Remove(hash: Hash, m: Map, key: string): Map
    requires |m.buckets| > 0
  {
    var b := Bucket(hash, key, |m.buckets|);
    Map(m.buckets[b := Take(m.buckets[b], key)], m.n)
  }

  function Keys(c: seq<Item>): (r: seq<string>)
    ensures |r| == |c|
  {
    seq(|c|, i requires 0 <= i < |c| => c[i].key)
  }

  /** The loop over the buckets stops as soon as `n` keys are out. */
  function KeysFrom(m: Map, i: nat, out: seq<string>): seq<string>
    decreases |m.buckets| - i
  {
    if i < |m.buckets| && |out| < m.n then KeysFrom(m, i + 1, out + Keys(m.buckets[i])) else out
  }

  function AllKeys(m: Map): seq<string> { KeysFrom(m, 0, []) }

  // ----- the invariant

  predicate Unique(c: seq<Item>) {
    c == [] || (Find(c[1..], c[0].key) == None && Unique(c[1..]))
  }

  ghost predicate GoodBucket(hash: Hash, m: Map, b: nat)
    requires b < |m.buckets|
  {
    && Unique(m.buckets[b])
    && forall x :: x in m.buckets[b] ==> Bucket(hash, x.key, |m.buckets|) == b
  }

  ghost predicate Wf(hash: Hash, m: Map) {
    && |m.buckets| > 0
    && (forall b :: 0 <= b < |m.buckets| ==> GoodBucket(hash, m, b))
    && |Flatten(m.buckets)| <= m.n
  }

  /** The map holds exactly what the finite map holds. */
  ghost predicate Represents(hash: Hash, m: Map, store: map<string, nat>) {
    && Wf(hash, m)
    && forall k :: Get(hash, m, k) == if k in store then Some(store[k]) else None
  }

  // ----- one chain

  lemma FindPut(c: seq<Item>, item: Item, k: string)
    ensures Find(Put(c, item), k) == if k == item.key then Some(item.data) else Find(c, k)
    ensures |Put(c, item)| == if Find(c, item.key).Some? then |c| else |c| + 1
    ensures forall x :: x in Put(c, item) ==> x.key == item.key || x in c
  {
    var j, d := IndexOf(c, item.key), Put(c, item);
    if j < |c| {
      IndexIs(d, k, IndexOf(c, k));
    } else {
      assert d[1..] == c;
    }
  }

  /** The first place is the only one with nothing before it. */
  lemma {:induction false} IndexIs(c: seq<Item>, k: string, j: nat)
    requires j <= |c| && (j < |c| ==> c[j].key == k) && forall i :: 0 <= i < j ==> c[i].key != k
    ensures IndexOf(c, k) == j
  {
    if j > 0 { IndexIs(c[1..], k, j - 1); }
  }

  lemma FindNone(c: seq<Item>, k: string)
    ensures Find(c, k) == None <==> forall i :: 0 <= i < |c| ==> c[i].key != k
  {
  }

  lemma {:induction false} UniqueKeys(c: seq<Item>)
    ensures Unique(c) <==> forall i, j :: 0 <= i < j < |c| ==> c[i].key != c[j].key
  {
    if c != [] {
      var rest := c[1..];
      UniqueKeys(rest);
      FindNone(rest, c[0].key);
      assert forall i :: 0 < i < |c| ==> c[i] == rest[i - 1];
      if forall i, j :: 0 <= i < j < |c| ==> c[i].key != c[j].key {
        forall i | 0 <= i < |rest| ensures rest[i].key != c[0].key { assert c[i + 1] == rest[i]; }
        forall i, j | 0 <= i < j < |rest| ensures rest[i].key != rest[j].key {
          assert c[i + 1] == rest[i] && c[j + 1] == rest[j];
        }
      }
    }
  }

  lemma PutKeepsUnique(c: seq<Item>, item: Item)
    requires Unique(c)
    ensures Unique(Put(c, item))
  {
    UniqueKeys(c);
    UniqueKeys(Put(c, item));
  }

  lemma TakeEffect(c: seq<Item>, key: string, k: string)
    requires Unique(c)
    ensures Find(Take(c, key), k) == if k == key then None else Find(c, k)
  {
    hide Unique, IndexOf;
    UniqueKeys(c);
    var j, d := IndexOf(c, key), Take(c, key);
    if j < |c| {
      var i := IndexOf(c, k);
      assert forall x :: 0 <= x < |d| ==> d[x] == if x < j then c[x] else c[x + 1];
      IndexIs(d, k, if k == key then |d| else if i > j then i - 1 else i);
    }
  }

  lemma TakeKeepsUnique(c: seq<Item>, key: string)
    requires Unique(c)
    ensures |Take(c, key)| <= |c| && Unique(Take(c, key))
    ensures forall x :: x in Take(c, key) ==> x in c
  {
    hide Unique, Find;
    UniqueKeys(c);
    UniqueKeys(Take(c, key));
  }

  // ----- insertion, resize, removal

  lemma InsertItemEffect(hash: Hash, m: Map, item: Item, k: string)
    requires |m.buckets| > 0
    ensures Get(hash, InsertItem(hash, m, item), k) == if k == item.key then Some(item.data) else Get(hash, m, k)
  {
    FindPut(m.buckets[Bucket(hash, item.key, |m.buckets|)], item, k);
  }

  lemma InsertItemKeepsWf(hash: Hash, m: Map, item: Item)
    requires Wf(hash, m)
    ensures Wf(hash, InsertItem(hash, m, item))
  {
    hide Unique, Put, Find, Flatten;
    var b, r := Bucket(hash, item.key, |m.buckets|), InsertItem(hash, m, item);
    FindPut(m.buckets[b], item, item.key);
    assert GoodBucket(hash, m, b);
    PutKeepsUnique(m.buckets[b], item);
    FlattenUpdate(m.buckets, b, r.buckets[b]);
    forall c | 0 <= c < |r.buckets| ensures GoodBucket(hash, r, c) {
      assert GoodBucket(hash, m, c) && GoodBucket(hash, m, b);
    }
  }

  lemma {:induction false} InsertChainEffect(hash: Hash, m: Map, c: seq<Item>, k: string)
    requires |m.buckets| > 0
    ensures Get(hash, InsertChain(hash, m, c), k) == if Find(c, k).Some? then Find(c, k) else Get(hash, m, k)
  {
    hide InsertItem, Get;
    if c != [] {
      InsertChainEffect(hash, m, c[1..], k);
      InsertItemEffect(hash, InsertChain(hash, m, c[1..]), c[0], k);
    }
  }

  lemma {:induction false} InsertChainKeepsWf(hash: Hash, m: Map, c: seq<Item>)
    requires Wf(hash, m)
    ensures Wf(hash, InsertChain(hash, m, c))
  {
    hide InsertItem, Wf;
    WfHasBuckets(hash, m);
    if c != [] {
      InsertChainKeepsWf(hash, m, c[1..]);
      InsertItemKeepsWf(hash, InsertChain(hash, m, c[1..]), c[0]);
    }
  }

  /** A key that stands in one chain only is found there. */
  lemma {:induction false} InsertChainsEffect(hash: Hash, m: Map, chains: seq<seq<Item>>, b: nat, k: string)
    requires |m.buckets| > 0
    requires forall i :: 0 <= i < |chains| && i != b ==> Find(chains[i], k) == None
    ensures Get(hash, InsertChains(hash, m, chains), k) ==
      if b < |chains| && Find(chains[b], k).Some? then Find(chains[b], k) else Get(hash, m, k)
  {
    hide InsertChain, Get, Find;
    if chains != [] {
      var init, last := chains[..|chains| - 1], chains[|chains| - 1];
      InsertChainsEffect(hash, m, init, b, k);
      InsertChainEffect(hash, InsertChains(hash, m, init), last, k);
    }
  }

  lemma {:induction false} InsertChainsKeepsWf(hash: Hash, m: Map, chains: seq<seq<Item>>)
    requires Wf(hash, m)
    ensures Wf(hash, InsertChains(hash, m, chains))
  {
    hide InsertChain, Wf;
    WfHasBuckets(hash, m);
    if chains != [] {
      InsertChainsKeepsWf(hash, m, chains[..|chains| - 1]);
      InsertChainKeepsWf(hash, InsertChains(hash, m, chains[..|chains| - 1]), chains[|chains| - 1]);
    }
  }

  lemma KeyElsewhere(hash: Hash, m: Map, i: nat, k: string)
    requires Wf(hash, m) && i < |m.buckets| && i != Bucket(hash, k, |m.buckets|)
    ensures Find(m.buckets[i], k) == None
  {
    assert GoodBucket(hash, m, i);
  }

  /** A resize keeps every key with its data. */
  lemma ResizeKeepsContents(hash: Hash, m: Map, size: nat, k: string)
    requires Wf(hash, m) && size > 0
    ensures Get(hash, Resize(hash, m, size), k) == Get(hash, m, k)
    ensures Wf(hash, Resize(hash, m, size))
  {
    hide Wf, Find, InsertChains;
    WfHasBuckets(hash, m);
    var empty, b := Map(seq(size, _ => []), m.n), Bucket(hash, k, |m.buckets|);
    EmptyIsEmpty(hash, size, m.n, k);
    InsertChainsKeepsWf(hash, empty, m.buckets);
    forall i | 0 <= i < |m.buckets| && i != b ensures Find(m.buckets[i], k) == None {
      KeyElsewhere(hash, m, i, k);
    }
    InsertChainsEffect(hash, empty, m.buckets, b, k);
  }

  lemma EmptyIsEmpty(hash: Hash, size: nat, n: nat, k: string)
    requires size > 0
    ensures Wf(hash, Map(seq(size, _ => []), n)) && Get(hash, Map(seq(size, _ => []), n), k) == None
  {
    FlattenEmpty<Item>(seq(size, _ => []));
  }

  lemma InsertRefinesUpdate(hash: Hash, threshold: real, m: Map, store: map<string, nat>, key: string, data: nat)
    requires Represents(hash, m, store)
    ensures Represents(hash, Insert(hash, threshold, m, key, data), store[key := data])
  {
    hide Wf, Resize, Get, InsertItem;
    WfHasBuckets(hash, m);
    var grown := if m.n + 1 >= ReallocAt(|m.buckets|, threshold) then Resize(hash, m, |m.buckets| * 2) else m;
    if m.n + 1 >= ReallocAt(|m.buckets|, threshold) {
      ResizeKeepsContents(hash, m, |m.buckets| * 2, key);
    }
    InsertItemKeepsWf(hash, grown, Item(key, data));
    WfHasBuckets(hash, grown);
    forall k ensures Get(hash, InsertItem(hash, grown, Item(key, data)), k) ==
        if k in store[key := data] then Some(store[key := data][k]) else None
    {
      InsertItemEffect(hash, grown, Item(key, data), k);
      if grown != m { ResizeKeepsContents(hash, m, |m.buckets| * 2, k); }
    }
  }

  lemma WfHasBuckets(hash: Hash, m: Map)
    requires Wf(hash, m)
    ensures |m.buckets| > 0
  {
  }

  lemma RemoveKeepsWf(hash: Hash, m: Map, key: string)
    requires Wf(hash, m)
    ensures Wf(hash, Remove(hash, m, key))
  {
    hide Unique, Take, Find, Flatten;
    var b, r := Bucket(hash, key, |m.buckets|), Remove(hash, m, key);
    assert GoodBucket(hash, m, b);
    TakeKeepsUnique(m.buckets[b], key);
    FlattenUpdate(m.buckets, b, r.buckets[b]);
    forall c | 0 <= c < |r.buckets| ensures GoodBucket(hash, r, c) {
      assert GoodBucket(hash, m, c);
    }
  }

  lemma RemoveRefinesDeletion(hash: Hash, m: Map, store: map<string, nat>, key: string)
    requires Represents(hash, m, store)
    ensures Represents(hash, Remove(hash, m, key), store - {key})
  {
    hide Unique, Take, Find, Flatten;
    RemoveKeepsWf(hash, m, key);
    var b := Bucket(hash, key, |m.buckets|);
    forall k ensures Get(hash, Remove(hash, m, key), k) ==
      if k in store - {key} then Some((store - {key})[k]) else None
    {
      assert GoodBucket(hash, m, b);
      TakeEffect(m.buckets[b], key, k);
      assert Get(hash, m, k) == if k in store then Some(store[k]) else None;
    }
  }

  // ----- all keys

  lemma KeysHoldOnce(c: seq<Item>, k: string)
    requires Unique(c)
    ensures multiset(Keys(c))[k] == if Find(c, k).Some? then 1 else 0
  {
    if c != [] {
      KeysHoldOnce(c[1..], k);
      assert Keys(c) == [c[0].key] + Keys(c[1..]);
    }
  }

  /** With `out` taken from the first `i` buckets, the loop completes the keys: when it stops early,
      the remaining buckets are empty. */
  lemma {:induction false} KeysFromCompletes(hash: Hash, m: Map, i: nat, out: seq<string>, k: string)
    requires Wf(hash, m) && i <= |m.buckets| && |out| == |Flatten(m.buckets[..i])|
    ensures multiset(KeysFrom(m, i, out))[k] == multiset(out)[k] +
      if i <= Bucket(hash, k, |m.buckets|) && Get(hash, m, k).Some? then 1 else 0
    decreases |m.buckets| - i
  {
    hide Unique, Find, Flatten;
    if i == |m.buckets| {
    } else if |out| < m.n {
      assert m.buckets[..i + 1] == m.buckets[..i] + [m.buckets[i]];
      FlattenAppend(m.buckets[..i], m.buckets[i]);
      KeysFromCompletes(hash, m, i + 1, out + Keys(m.buckets[i]), k);
      assert GoodBucket(hash, m, i);
      KeysHoldOnce(m.buckets[i], k);
      if i != Bucket(hash, k, |m.buckets|) { KeyElsewhere(hash, m, i, k); }
    } else {
      RestHasNoKeys(hash, m, i, k);
    }
  }

  lemma RestHasNoKeys(hash: Hash, m: Map, i: nat, k: string)
    requires Wf(hash, m) && i <= |m.buckets| && m.n <= |Flatten(m.buckets[..i])|
    ensures i <= Bucket(hash, k, |m.buckets|) ==> Get(hash, m, k) == None
  {
    hide Flatten;
    var b := Bucket(hash, k, |m.buckets|);
    if i <= b {
      FlattenConcat(m.buckets[..i], m.buckets[i..]);
      assert m.buckets == m.buckets[..i] + m.buckets[i..];
      if m.buckets[b] != [] { FlattenMember(m.buckets[i..], b - i, m.buckets[b][0]); }
    }
  }

  /** Every key is listed exactly once, and nothing else is. */
  lemma AllKeysOnce(hash: Hash, m: Map, store: map<string, nat>)
    requires Represents(hash, m, store)
    ensures multiset(AllKeys(m)) == multiset(store.Keys)
  {
    hide Wf, Get, Flatten;
    WfHasBuckets(hash, m);
    assert m.buckets[..0] == [];
    FlattenNone<Item>();
    forall k ensures multiset(AllKeys(m))[k] == multiset(store.Keys)[k] {
      KeysFromCompletes(hash, m, 0, [], k);
    }
  }

  // ----- runs

  datatype Call = InsertCall(key: string, data: nat) | RemoveCall(key: string) | GetCall(key: string)

  /** What a call returns: the data found, for a removal and a lookup. */
  function Answer(hash: Hash, threshold: real, m: Map, call: Call): (Map, Option<nat>)
    requires |m.buckets| > 0
  {
    match call
    case InsertCall(k, d) => (Insert(hash, threshold, m, k, d), None)
    case RemoveCall(k) => (Remove(hash, m, k), Get(hash, m, k))
    case GetCall(k) => (m, Get(hash, m, k))
  }

  function StoreAnswer(store: map<string, nat>, call: Call): (map<string, nat>, Option<nat>) {
    match call
    case InsertCall(k, d) => (store[k := d], None)
    case RemoveCall(k) => (store - {k}, if k in store then Some(store[k]) else None)
    case GetCall(k) => (store, if k in store then Some(store[k]) else None)
  }

  ghost function Run(hash: Hash, threshold: real, m: Map, calls: seq<Call>): (Map, seq<Option<nat>>)
    requires Wf(hash, m)
    decreases |calls|
  {
    if calls == [] then (m, [])
    else
      AnswerKeepsWf(hash, threshold, m, calls[0]);
      var (next, answer) := Answer(hash, threshold, m, calls[0]);
      var (last, answers) := Run(hash, threshold, next, calls[1..]);
      (last, [answer] + answers)
  }

  ghost function StoreRun(store: map<string, nat>, calls: seq<Call>): (map<string, nat>, seq<Option<nat>>)
    decreases |calls|
  {
    if calls == [] then (store, [])
    else
      var (next, answer) := StoreAnswer(store, calls[0]);
      var (last, answers) := StoreRun(next, calls[1..]);
      (last, [answer] + answers)
  }

  lemma AnswerKeepsWf(hash: Hash, threshold: real, m: Map, call: Call)
    requires Wf(hash, m)
    ensures Wf(hash, Answer(hash, threshold, m, call).0)
  {
    hide Wf, Remove, Resize, InsertItem, Get;
    WfHasBuckets(hash, m);
    match call
    case InsertCall(k, d) =>
      ResizeKeepsContents(hash, m, |m.buckets| * 2, k);
      WfHasBuckets(hash, Resize(hash, m, |m.buckets| * 2));
      InsertItemKeepsWf(hash, Resize(hash, m, |m.buckets| * 2), Item(k, d));
      InsertItemKeepsWf(hash, m, Item(k, d));
    case RemoveCall(k) => RemoveKeepsWf(hash, m, k);
    case GetCall(k) =>
  }

  lemma AnswerRefines(hash: Hash, threshold: real, m: Map, store: map<string, nat>, call: Call)
    requires Represents(hash, m, store)
    ensures |m.buckets| > 0
    ensures var ((next, answer), (next', answer')) := (Answer(hash, threshold, m, call), StoreAnswer(store, call));
      answer == answer' && Represents(hash, next, next')
  {
    hide Wf, Insert, Remove, Get;
    WfHasBuckets(hash, m);
    match call
    case InsertCall(k, d) => InsertRefinesUpdate(hash, threshold, m, store, k, d);
    case RemoveCall(k) => RemoveRefinesDeletion(hash, m, store, k);
    case GetCall(k) =>
  }

  /** Over any run of calls, the chained map answers as the finite map does, and keeps listing its keys. */
  lemma {:induction false} RunRefinesStore(hash: Hash, threshold: real, m: Map, store: map<string, nat>,
                                           calls: seq<Call>)
    requires Represents(hash, m, store)
    ensures var ((last, answers), (last', answers')) := (Run(hash, threshold, m, calls), StoreRun(store, calls));
      answers == answers' && Represents(hash, last, last') && multiset(AllKeys(last)) == multiset(last'.Keys)
    decreases |calls|
  {
    hide Wf, Answer, StoreAnswer, AllKeys, Get;
    if calls == [] {
      AllKeysOnce(hash, m, store);
    } else {
      AnswerKeepsWf(hash, threshold, m, calls[0]);
      AnswerRefines(hash, threshold, m, store, calls[0]);
      RunRefinesStore(hash, threshold, Answer(hash, threshold, m, calls[0]).0, StoreAnswer(store, calls[0]).0,
        calls[1..]);
    }
  }

  lemma EmptyRepresents(hash: Hash, size: nat)
    requires size > 0
    ensures Represents(hash, Empty(size), map[])
  {
    forall k ensures Get(hash, Empty(size), k) == None {
      EmptyIsEmpty(hash, size, 0, k);
    }
    EmptyIsEmpty(hash, size, 0, "");
  }

  /** From a new map on, every run of calls is answered as by a finite map that starts empty. */
  lemma RunFromEmpty(hash: Hash, threshold: real, size: nat, calls: seq<Call>)
    requires size > 0
    ensures Wf(hash, Empty(size))
    ensures var ((last, answers), (last', answers')) :=
      (Run(hash, threshold, Empty(size), calls), StoreRun(map[], calls));
      answers == answers' && Represents(hash, last, last') && multiset(AllKeys(last)) == multiset(last'.Keys)
  {
    hide Wf, Run, StoreRun, AllKeys, Get;
    EmptyRepresents(hash, size);
    RunRefinesStore(hash, threshold, Empty(size), map[], calls);
  }

  // ----- the count

  lemma {:induction false} InsertChainCounts(hash: Hash, m: Map, c: seq<Item>)
    requires |m.buckets| > 0 && Unique(c) && forall i :: 0 <= i < |c| ==> Get(hash, m, c[i].key) == None
    ensures InsertChain(hash, m, c).n == m.n + |c|
  {
    hide Get, Find;
    if c != [] {
      assert forall i :: 0 <= i < |c| - 1 ==> c[1..][i] == c[i + 1];
      InsertChainCounts(hash, m, c[1..]);
      InsertChainEffect(hash, m, c[1..], c[0].key);
      NewItemCounts(hash, InsertChain(hash, m, c[1..]), c[0]);
    }
  }

  lemma NewItemCounts(hash: Hash, m: Map, item: Item)
    requires |m.buckets| > 0 && Get(hash, m, item.key) == None
    ensures InsertItem(hash, m, item).n == m.n + 1
  {
  }

  /** Every item of a well-formed map is counted again when its chain is inserted. */
  lemma {:induction false} InsertChainsCounts(hash: Hash, m: Map, empty: Map, i: nat)
    requires Wf(hash, m) && |empty.buckets| > 0 && i <= |m.buckets|
    requires forall k :: Get(hash, empty, k) == None
    ensures InsertChains(hash, empty, m.buckets[..i]).n == empty.n + |Flatten(m.buckets[..i])|
  {
    hide Wf, Get, Find, InsertChain, Flatten;
    if i == 0 {
      FlattenNone<Item>();
      assert m.buckets[..0] == [];
    } else {
      var chains, c := m.buckets[..i - 1], m.buckets[i - 1];
      assert m.buckets[..i] == chains + [c] && m.buckets[..i][..i - 1] == chains;
      FlattenAppend(chains, c);
      InsertChainsCounts(hash, m, empty, i - 1);
      BucketIsGood(hash, m, i - 1);
      forall j | 0 <= j < |c| ensures Get(hash, InsertChains(hash, empty, chains), c[j].key) == None {
        var k := c[j].key;
        assert c[j] in c;
        forall x | 0 <= x < |chains| && x != i - 1 ensures Find(chains[x], k) == None { KeyElsewhere(hash, m, x, k); }
        InsertChainsEffect(hash, empty, chains, i - 1, k);
      }
      InsertChainCounts(hash, InsertChains(hash, empty, chains), c);
    }
  }

  lemma BucketIsGood(hash: Hash, m: Map, b: nat)
    requires Wf(hash, m) && b < |m.buckets|
    ensures GoodBucket(hash, m, b)
  {
  }

  /** A resize adds the number of items to the count; a removal leaves the count as it is. */
  lemma CountDrifts(hash: Hash, m: Map, size: nat, key: string)
    requires Wf(hash, m) && size > 0
    ensures Resize(hash, m, size).n == m.n + |Flatten(m.buckets)|
    ensures Remove(hash, m, key).n == m.n
  {
    hide Wf, Get, Find, InsertChains, Flatten;
    var empty := Map(seq(size, _ => []), m.n);
    WfHasBuckets(hash, m);
    forall k ensures Get(hash, empty, k) == None { EmptyIsEmpty(hash, size, m.n, k); }
    InsertChainsCounts(hash, m, empty, |m.buckets|);
    assert m.buckets[..|m.buckets|] == m.buckets;
  }

  // ----- when the map grows

  /** The documented trigger is a count of at least size times threshold. The map grows whenever that is met, and at
      most two counts before; so it does as documented exactly when the trigger is met or the code's own test fails. */
  lemma GrowsAsDocumentedIff(hash: Hash, threshold: real, m: Map, key: string, data: nat)
    requires |m.buckets| > 0
    ensures var limit := |m.buckets| as real * threshold;
      var grows, due := |Insert(hash, threshold, m, key, data).buckets| > |m.buckets|, m.n as real >= limit;
      && (due ==> grows) && (grows ==> (m.n + 2) as real > limit)
      && ((grows <==> due) <==> due || m.n + 1 < ReallocAt(|m.buckets|, threshold))
  {
    hide Resize, InsertItem;
  }

  /** Of 32 buckets with the threshold 0.8 the map grows at a count of 24; the documented trigger is met from 26 on. */
  lemma GrowsTwoEarly(hash: Hash, m: Map, key: string, data: nat)
    requires |m.buckets| == 32 && m.n == 24
    ensures |Insert(hash, 0.8, m, key, data).buckets| == 64
    ensures 25.0 < |m.buckets| as real * 0.8 <= 26.0
  {
    assert ReallocAt(32, 0.8) == 25;
  }

  // ----- where items stand

  /** A new item goes in front of its chain; a known one stays where it is and changes its data. */
  lemma InsertItemPlaces(hash: Hash, m: Map, item: Item)
    requires |m.buckets| > 0
    ensures var (b, r) := (Bucket(hash, item.key, |m.buckets|), InsertItem(hash, m, item));
      && (forall c :: 0 <= c < |m.buckets| && c != b ==> r.buckets[c] == m.buckets[c])
      && (Get(hash, m, item.key) == None ==> r.buckets[b] == [item] + m.buckets[b] && r.n == m.n + 1)
      && (Get(hash, m, item.key) != None ==>
        Keys(r.buckets[b]) == Keys(m.buckets[b]) && |r.buckets[b]| == |m.buckets[b]| && r.n == m.n)
  {
  }

  function InBucket(hash: Hash, size: nat, b: nat): Item -> bool
    requires size > 0
  {
    (x: Item) => Bucket(hash, x.key, size) == b
  }

  lemma {:induction false} InsertChainPlaces(hash: Hash, m: Map, c: seq<Item>, b: nat)
    requires |m.buckets| > 0 && Unique(c) && forall i :: 0 <= i < |c| ==> Get(hash, m, c[i].key) == None
    requires b < |m.buckets|
    ensures InsertChain(hash, m, c).buckets[b] == Filter(InBucket(hash, |m.buckets|, b), c) + m.buckets[b]
  {
    hide Get, Find, Filter, InsertItem;
    var p := InBucket(hash, |m.buckets|, b);
    if c == [] {
      FilterNone(p, c);
    } else {
      var rest, r := c[1..], InsertChain(hash, m, c[1..]);
      assert forall i :: 0 <= i < |rest| ==> rest[i] == c[i + 1];
      InsertChainPlaces(hash, m, rest, b);
      InsertChainEffect(hash, m, rest, c[0].key);
      InsertItemPlaces(hash, r, c[0]);
      assert c == [c[0]] + rest && [] + [c[0]] == [c[0]];
      FilterConcat(p, [c[0]], rest);
      FilterAppend(p, [], c[0]);
      FilterNone(p, []);
    }
  }

  /** The chains joined, the last one first. */
  function FlattenBack(chains: seq<seq<Item>>): seq<Item> {
    if chains == [] then [] else chains[|chains| - 1] + FlattenBack(chains[..|chains| - 1])
  }

  lemma {:induction false} InsertChainsPlaces(hash: Hash, m: Map, empty: Map, i: nat, b: nat)
    requires Wf(hash, m) && i <= |m.buckets| && b < |empty.buckets| && empty.buckets[b] == []
    requires forall k :: Get(hash, empty, k) == None
    ensures InsertChains(hash, empty, m.buckets[..i]).buckets[b] ==
      Filter(InBucket(hash, |empty.buckets|, b), FlattenBack(m.buckets[..i]))
  {
    hide Wf, Get, Find, InsertChain, Filter;
    var p := InBucket(hash, |empty.buckets|, b);
    if i == 0 {
      assert m.buckets[..0] == [];
      FilterNone(p, []);
    } else {
      var chains, c := m.buckets[..i - 1], m.buckets[i - 1];
      assert m.buckets[..i] == chains + [c] && m.buckets[..i][..i - 1] == chains;
      InsertChainsPlaces(hash, m, empty, i - 1, b);
      BucketIsGood(hash, m, i - 1);
      forall j | 0 <= j < |c| ensures Get(hash, InsertChains(hash, empty, chains), c[j].key) == None {
        var k := c[j].key;
        assert c[j] in c;
        forall x | 0 <= x < |chains| && x != i - 1 ensures Find(chains[x], k) == None { KeyElsewhere(hash, m, x, k); }
        InsertChainsEffect(hash, empty, chains, i - 1, k);
      }
      InsertChainPlaces(hash, InsertChains(hash, empty, chains), c, b);
      FilterConcat(p, c, FlattenBack(chains));
    }
  }

  /** A resize deals the items out by their hashes: in each new bucket those of later old buckets stand in front, and
      those of one old bucket in their old order. */
  lemma ResizeDealsOut(hash: Hash, m: Map, size: nat, b: nat)
    requires Wf(hash, m) && b < size
    ensures Resize(hash, m, size).buckets[b] == Filter(InBucket(hash, size, b), FlattenBack(m.buckets))
  {
    hide Wf, Get, Find, InsertChains, Filter;
    var empty := Map(seq(size, _ => []), m.n);
    forall k ensures Get(hash, empty, k) == None { EmptyIsEmpty(hash, size, m.n, k); }
    InsertChainsPlaces(hash, m, empty, |m.buckets|, b);
    assert m.buckets[..|m.buckets|] == m.buckets;
  }

  lemma {:induction false} KeysFromInOrder(hash: Hash, m: Map, i: nat, out: seq<string>)
    requires Wf(hash, m) && i <= |m.buckets| && out == Keys(Flatten(m.buckets[..i]))
    ensures KeysFrom(m, i, out) == Keys(Flatten(m.buckets))
    decreases |m.buckets| - i
  {
    hide Unique, Find, Flatten;
    if i == |m.buckets| {
      assert m.buckets[..i] == m.buckets;
    } else if |out| < m.n {
      assert m.buckets[..i + 1] == m.buckets[..i] + [m.buckets[i]];
      FlattenAppend(m.buckets[..i], m.buckets[i]);
      assert Keys(Flatten(m.buckets[..i]) + m.buckets[i]) == out + Keys(m.buckets[i]);
      KeysFromInOrder(hash, m, i + 1, out + Keys(m.buckets[i]));
    } else {
      FlattenConcat(m.buckets[..i], m.buckets[i..]);
      assert m.buckets == m.buckets[..i] + m.buckets[i..];
    }
  }

  /** The listing follows the buckets, and in each its chain. */
  lemma AllKeysInOrder(hash: Hash, m: Map)
    requires Wf(hash, m)
    ensures AllKeys(m) == Keys(Flatten(m.buckets))
  {
    hide Wf, Flatten;
    assert m.buckets[..0] == [];
    FlattenNone<Item>();
    KeysFromInOrder(hash, m, 0, []);
  }
}
