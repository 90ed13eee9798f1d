/** Singly linked chains, and arrays of them: the storage of both hash tables.

    A `Shape` is a snapshot of such an array on values: which links each bucket chains, in order, and
    what every link holds. `Mirrors` says that the objects agree with it; everything else is about values. */
module Chains {
  import opened Sequences

  class Link<T> {
    var item: T
    var next: Link?<T>

    constructor (item: T)
      ensures this.item == item && next == null
    {
      this.item, next := item, null;
    }
  }

  /** Where a link stands: the bucket, and the place in its chain. */
  datatype Place = Place(bucket: nat, index: nat)

  ghost function After<T>(c: seq<Link<T>>, i: nat): Link?<T> { if i + 1 < |c| then c[i + 1] else null }

  ghost function Head<T>(c: seq<Link<T>>): Link?<T> { if c == [] then null else c[0] }

  datatype Shape<!T(!new)> = Shape(
    chains: seq<seq<Link<T>>>,
    home: map<Link<T>, Place>,
    succ: map<Link<T>, Link?<T>>,
    item: map<Link<T>, T>)

  /** Every link stands at its one home, and is followed by the next one of its chain. */
  ghost predicate Good<T(!new)>(s: Shape<T>) {
    && s.home.Keys == s.succ.Keys == s.item.Keys
    && (forall b, i {:trigger s.chains[b][i]} :: 0 <= b < |s.chains| && 0 <= i < |s.chains[b]| ==>
      s.chains[b][i] in s.home && s.home[s.chains[b][i]] == Place(b, i))
    && (forall x {:trigger s.home[x]} :: x in s.home ==>
      var Place(b, i) := s.home[x];
      b < |s.chains| && i < |s.chains[b]| && s.chains[b][i] == x)
    && (forall x {:trigger s.succ[x]} :: x in s.home ==>
      var Place(b, i) := s.home[x];
      s.succ[x] == After(s.chains[b], i))
  }

  ghost predicate Mirrors<T(!new)>(table: array<Link?<T>>, s: Shape<T>)
    reads table, s.home.Keys
  {
    && table.Length == |s.chains|
    && (forall b {:trigger table[b]} :: 0 <= b < table.Length ==> table[b] == Head(s.chains[b]))
    && Agree(s)
  }

  ghost predicate Agree<T(!new)>(s: Shape<T>)
    reads s.home.Keys
  {
    forall x {:trigger x.next} {:trigger x.item} ::
      x in s.home && x in s.succ && x in s.item ==> x.next == s.succ[x] && x.item == s.item[x]
  }

  ghost function Items<T(!new)>(c: seq<Link<T>>, item: map<Link<T>, T>): seq<T>
    requires forall i :: 0 <= i < |c| ==> c[i] in item
  {
    seq(|c|, i requires 0 <= i < |c| => item[c[i]])
  }

  ghost function BucketsOf<T(!new)>(s: Shape<T>): (r: seq<seq<T>>)
    requires Good(s)
    ensures |r| == |s.chains|
    ensures forall b :: 0 <= b < |r| ==> |r[b]| == |s.chains[b]|
    ensures forall b, i {:trigger r[b][i]} {:trigger s.chains[b][i]} :: 0 <= b < |r| && 0 <= i < |r[b]| ==>
      s.chains[b][i] in s.item && r[b][i] == s.item[s.chains[b][i]]
  {
    seq(|s.chains|, b requires 0 <= b < |s.chains| =>
      assert forall i :: 0 <= i < |s.chains[b]| ==> s.chains[b][i] in s.home;
      Items(s.chains[b], s.item))
  }

  ghost function EmptyShape<T(!new)>(size: nat): (s: Shape<T>)
    ensures Good(s)
  {
    Shape(seq(size, _ => []), map[], map[], map[])
  }

  method NewTable<T(!new)>(size: nat) returns (table: array<Link?<T>>, ghost s: Shape<T>)
    ensures fresh(table) && Good(s) && Mirrors(table, s) && s.home == map[]
    ensures BucketsOf(s) == seq(size, _ => [])
  {
    table := new Link?<T>[size](_ => null);
    s := EmptyShape(size);
  }

  lemma Step<T(!new)>(s: Shape<T>, b: nat, i: nat)
    requires Good(s) && b < |s.chains| && i < |s.chains[b]|
    ensures var x := s.chains[b][i];
      x in s.home && x in s.succ && x in s.item && s.home[x] == Place(b, i) &&
      s.succ[x] == After(s.chains[b], i) && s.item[x] == BucketsOf(s)[b][i]
  {
    assert s.home[s.chains[b][i]] == Place(b, i);
  }

  lemma Standing<T(!new)>(s: Shape<T>, x: Link<T>)
    requires Good(s) && x in s.home
    ensures var Place(b, i) := s.home[x];
      b < |s.chains| && i < |s.chains[b]| && s.chains[b][i] == x &&
      x in s.succ && x in s.item && s.succ[x] == After(s.chains[b], i)
  {
  }

  // ----- places

  /** The link that stands at place `j` of bucket `p`, or null at the end. */
  ghost predicate StandsAt<T(!new)>(s: Shape<T>, link: Link?<T>, p: nat, j: nat)
    requires Good(s)
    reads s.home.Keys
  {
    && p < |s.chains| && j <= |s.chains[p]| == |BucketsOf(s)[p]|
    && (j == |s.chains[p]| ==> link == null)
    && (j < |s.chains[p]| ==>
      link == s.chains[p][j] && link in s.home && link.item == BucketsOf(s)[p][j] &&
      link.next == After(s.chains[p], j))
  }

  lemma BucketCount<T(!new)>(table: array<Link?<T>>, s: Shape<T>)
    requires Mirrors(table, s)
    ensures |s.chains| == table.Length
  {
  }

  lemma Stands<T(!new)>(s: Shape<T>, p: nat, j: nat)
    requires Good(s) && Agree(s) && p < |s.chains| && j <= |s.chains[p]|
    ensures StandsAt(s, if j < |s.chains[p]| then s.chains[p][j] else null, p, j)
  {
    if j < |s.chains[p]| { Step(s, p, j); }
  }

  // ----- appending a link

  ghost function WithLink<T(!new)>(s: Shape<T>, b: nat, link: Link<T>, item: T): Shape<T>
    requires Good(s) && b < |s.chains| && link !in s.home
  {
    var c := s.chains[b];
    Shape(s.chains[b := c + [link]],
          s.home[link := Place(b, |c|)],
          (if c == [] then s.succ else s.succ[c[|c| - 1] := link])[link := null],
          s.item[link := item])
  }

  lemma HomesAfterAppend<T(!new)>(s: Shape<T>, b: nat, link: Link<T>, item: T)
    requires Good(s) && b < |s.chains| && link !in s.home
    ensures var s' := WithLink(s, b, link, item);
      forall k, i {:trigger s'.chains[k][i]} :: 0 <= k < |s'.chains| && 0 <= i < |s'.chains[k]| ==>
        s'.chains[k][i] in s'.home && s'.home[s'.chains[k][i]] == Place(k, i)
  {
    var s' := WithLink(s, b, link, item);
    forall k, i | 0 <= k < |s'.chains| && 0 <= i < |s'.chains[k]|
      ensures s'.chains[k][i] in s'.home && s'.home[s'.chains[k][i]] == Place(k, i)
    {
      if i < |s.chains[k]| { assert s'.chains[k][i] == s.chains[k][i]; }
    }
  }

  lemma SuccAfterAppend<T(!new)>(s: Shape<T>, b: nat, link: Link<T>, item: T, x: Link<T>)
    requires Good(s) && b < |s.chains| && link !in s.home
    requires x in WithLink(s, b, link, item).home
    ensures var s' := WithLink(s, b, link, item);
      var Place(k, i) := s'.home[x];
      k < |s'.chains| && i < |s'.chains[k]| && s'.chains[k][i] == x && x in s'.succ &&
        s'.succ[x] == After(s'.chains[k], i)
  {
    var c, s' := s.chains[b], WithLink(s, b, link, item);
    if c != [] { Step(s, b, |c| - 1); }
    if x != link {
      var Place(k, i) := s.home[x];
      assert s.chains[k][i] == x && s'.chains[k][i] == x && s.succ[x] == After(s.chains[k], i);
    }
  }

  lemma AppendIsGood<T(!new)>(s: Shape<T>, b: nat, link: Link<T>, item: T)
    requires Good(s) && b < |s.chains| && link !in s.home
    ensures Good(WithLink(s, b, link, item))
    ensures BucketsOf(WithLink(s, b, link, item)) == BucketsOf(s)[b := BucketsOf(s)[b] + [item]]
  {
    hide WithLink, BucketsOf, After;
    HomesAfterAppend(s, b, link, item);
    AppendKeys(s, b, link, item);
    var s' := WithLink(s, b, link, item);
    forall x | x in s'.home
      ensures var Place(k, i) := s'.home[x];
        k < |s'.chains| && i < |s'.chains[k]| && s'.chains[k][i] == x && s'.succ[x] == After(s'.chains[k], i)
    {
      SuccAfterAppend(s, b, link, item, x);
    }
    AppendedBuckets(s, b, link, item);
  }

  lemma AppendKeys<T(!new)>(s: Shape<T>, b: nat, link: Link<T>, item: T)
    requires Good(s) && b < |s.chains| && link !in s.home
    ensures var s' := WithLink(s, b, link, item);
      s'.home.Keys == s'.succ.Keys == s'.item.Keys == s.home.Keys + {link}
    ensures s.home.Keys == s.succ.Keys == s.item.Keys
  {
    var c := s.chains[b];
    if c != [] { Step(s, b, |c| - 1); }
  }

  lemma AppendedBuckets<T(!new)>(s: Shape<T>, b: nat, link: Link<T>, item: T)
    requires Good(s) && b < |s.chains| && link !in s.home && Good(WithLink(s, b, link, item))
    ensures BucketsOf(WithLink(s, b, link, item)) == BucketsOf(s)[b := BucketsOf(s)[b] + [item]]
  {
    hide BucketsOf, Good;
    var s' := WithLink(s, b, link, item);
    var expected := BucketsOf(s)[b := BucketsOf(s)[b] + [item]];
    forall k | 0 <= k < |s.chains| ensures BucketsOf(s')[k] == expected[k] {
      forall i | 0 <= i < |s'.chains[k]| ensures BucketsOf(s')[k][i] == expected[k][i] {
        if i < |s.chains[k]| {
          Step(s, k, i);
          assert s'.chains[k][i] == s.chains[k][i];
        }
      }
    }
  }

  /** Cuts a link that belongs to another table from its chain; this table does not notice. */
  method CutLink<T(!new)>(link: Link<T>, table: array<Link?<T>>, ghost s: Shape<T>)
    requires Mirrors(table, s) && link !in s.home
    modifies link`next
    ensures link.next == null && Mirrors(table, s)
  {
    link.next := null;
  }

  /** Walks to the last link of a bucket. */
  method LastLink<T(!new)>(table: array<Link?<T>>, ghost s: Shape<T>, b: nat) returns (last: Link<T>)
    requires Good(s) && Mirrors(table, s) && b < table.Length && table[b] != null
    ensures s.chains[b] != [] && last == s.chains[b][|s.chains[b]| - 1]
  {
    hide Good;
    last := table[b];
    ghost var i := 0;
    Step(s, b, i);
    while last.next != null
      invariant 0 <= i < |s.chains[b]| && last == s.chains[b][i]
      invariant last in s.home && last in s.succ && last in s.item && s.succ[last] == After(s.chains[b], i)
      decreases |s.chains[b]| - i
    {
      last := last.next;
      i := i + 1;
      Step(s, b, i);
    }
  }

  /** What the objects must hold for the appended link to be in place. */
  ghost predicate LinkedIn<T(!new)>(table: array<Link?<T>>, s: Shape<T>, b: nat, link: Link<T>)
    requires b < |s.chains|
    reads table, s.home.Keys, link
  {
    var c := s.chains[b];
    && table.Length == |s.chains|
    && (forall x {:trigger x.next} :: x in s.home && x in s.succ && (c == [] || x != c[|c| - 1]) ==>
      x.next == s.succ[x])
    && (forall x {:trigger x.item} :: x in s.home && x in s.item ==> x.item == s.item[x])
    && (c != [] ==> c[|c| - 1] in s.home && c[|c| - 1].next == link)
    && (forall k {:trigger table[k]} :: 0 <= k < table.Length ==>
      table[k] == if k == b && c == [] then link else Head(s.chains[k]))
    && link.next == null
  }

  lemma MirrorsAfterAppend<T(!new)>(table: array<Link?<T>>, s: Shape<T>, b: nat, link: Link<T>)
    requires Good(s) && b < |s.chains| && link !in s.home
    requires LinkedIn(table, s, b, link)
    ensures Mirrors(table, WithLink(s, b, link, link.item))
  {
    var c, s' := s.chains[b], WithLink(s, b, link, link.item);
    assert s.home.Keys == s.succ.Keys == s.item.Keys;
    if c != [] { Step(s, b, |c| - 1); }
    hide Good, After;
    forall x | x in s'.home ensures x.next == s'.succ[x] && x.item == s'.item[x] {
      if x != link { assert x in s.home; }
    }
  }

  /** Puts a link at the end of a chain, as the program does: it walks to the last link. */
  method AppendLink<T(!new)>(table: array<Link?<T>>, ghost s: Shape<T>, b: nat, link: Link<T>)
    returns (ghost s': Shape<T>)
    requires Good(s) && Mirrors(table, s) && b < table.Length
    requires link.next == null && link !in s.home
    modifies table, s.home.Keys`next
    ensures Good(s') && Mirrors(table, s') && s'.home.Keys == s.home.Keys + {link}
    ensures BucketsOf(s') == BucketsOf(s)[b := BucketsOf(s)[b] + [old(link.item)]]
  {
    hide Good, After, BucketsOf, WithLink;
    AppendKeys(s, b, link, link.item);
    AppendIsGood(s, b, link, link.item);
    s' := WithLink(s, b, link, link.item);
    if table[b] == null {
      table[b] := link;
    } else {
      var last := LastLink(table, s, b);
      Step(s, b, |s.chains[b]| - 1);
      last.next := link;
    }
    MirrorsAfterAppend(table, s, b, link);
  }

  // ----- overwriting an item

  ghost function Update<T(!new)>(s: Shape<T>, x: Link<T>, item: T): Shape<T>
    requires x in s.item
  {
    s.(item := s.item[x := item])
  }

  lemma UpdateIsGood<T(!new)>(s: Shape<T>, b: nat, j: nat, item: T)
    requires Good(s) && b < |s.chains| && j < |s.chains[b]|
    ensures s.chains[b][j] in s.item && Good(Update(s, s.chains[b][j], item))
    ensures BucketsOf(Update(s, s.chains[b][j], item)) == BucketsOf(s)[b := BucketsOf(s)[b][j := item]]
  {
    Step(s, b, j);
    var s' := Update(s, s.chains[b][j], item);
    assert Good(s') by { assert s'.item.Keys == s.item.Keys; }
    var expected := BucketsOf(s)[b := BucketsOf(s)[b][j := item]];
    hide BucketsOf, Good;
    forall k | 0 <= k < |s.chains| ensures BucketsOf(s')[k] == expected[k] {
      forall i | 0 <= i < |s.chains[k]| ensures BucketsOf(s')[k][i] == expected[k][i] {
        Step(s, k, i);
        Step(s', k, i);
      }
    }
  }

  /** Overwrites the item of one link. */
  method SetItem<T(!new)>(table: array<Link?<T>>, ghost s: Shape<T>, ghost b: nat, ghost j: nat, link: Link<T>, item: T)
    returns (ghost s': Shape<T>)
    requires Good(s) && Mirrors(table, s) && b < |s.chains| && j < |s.chains[b]| && link == s.chains[b][j]
    modifies link`item
    ensures Good(s') && Mirrors(table, s') && s'.home == s.home
    ensures BucketsOf(s') == BucketsOf(s)[b := BucketsOf(s)[b][j := item]]
  {
    UpdateIsGood(s, b, j, item);
    SameKeys(s);
    s' := Update(s, link, item);
    hide Good, BucketsOf, After;
    link.item := item;
  }

  lemma SameKeys<T(!new)>(s: Shape<T>)
    requires Good(s)
    ensures s.home.Keys == s.succ.Keys == s.item.Keys
    ensures forall b, i {:trigger s.chains[b][i]} :: 0 <= b < |s.chains| && 0 <= i < |s.chains[b]| ==>
      s.chains[b][i] in s.home
  {
  }

  // ----- a link in front of a chain

  ghost function WithFirst<T(!new)>(s: Shape<T>, b: nat, link: Link<T>, item: T): Shape<T>
    requires Good(s) && b < |s.chains| && link !in s.home
  {
    Shape(s.chains[b := [link] + s.chains[b]],
          map x | x in s.home.Keys + {link} ::
            if x == link then Place(b, 0)
            else if s.home[x].bucket == b then Place(b, s.home[x].index + 1) else s.home[x],
          s.succ[link := Head(s.chains[b])],
          s.item[link := item])
  }

  lemma FirstKeys<T(!new)>(s: Shape<T>, b: nat, link: Link<T>, item: T)
    requires Good(s) && b < |s.chains| && link !in s.home
    ensures var s' := WithFirst(s, b, link, item);
      s'.home.Keys == s'.succ.Keys == s'.item.Keys == s.home.Keys + {link} && |s'.chains| == |s.chains|
  {
  }

  lemma HomeAfterFirst<T(!new)>(s: Shape<T>, b: nat, link: Link<T>, item: T, k: nat, i: nat)
    requires Good(s) && b < |s.chains| && link !in s.home
    requires k < |s.chains| && i < |WithFirst(s, b, link, item).chains[k]|
    ensures var s' := WithFirst(s, b, link, item);
      s'.chains[k][i] in s'.home && s'.home[s'.chains[k][i]] == Place(k, i)
  {
    hide Good, BucketsOf, After;
    if k != b { Step(s, k, i); } else if i > 0 { Step(s, b, i - 1); }
  }

  lemma SuccAfterFirst<T(!new)>(s: Shape<T>, b: nat, link: Link<T>, item: T, x: Link<T>)
    requires Good(s) && b < |s.chains| && link !in s.home && (x == link || x in s.home)
    ensures var s' := WithFirst(s, b, link, item);
      x in s'.home && x in s'.succ && var Place(k, i) := s'.home[x];
      k < |s'.chains| && i < |s'.chains[k]| && s'.chains[k][i] == x && s'.succ[x] == After(s'.chains[k], i)
  {
    hide Good;
    if x != link { Standing(s, x); }
  }

  lemma FirstIsGood<T(!new)>(s: Shape<T>, b: nat, link: Link<T>, item: T)
    requires Good(s) && b < |s.chains| && link !in s.home
    ensures Good(WithFirst(s, b, link, item))
  {
    hide WithFirst, BucketsOf, After;
    FirstKeys(s, b, link, item);
    var s' := WithFirst(s, b, link, item);
    forall k, i {:trigger s'.chains[k][i]} | 0 <= k < |s'.chains| && 0 <= i < |s'.chains[k]|
      ensures s'.chains[k][i] in s'.home && s'.home[s'.chains[k][i]] == Place(k, i)
    {
      HomeAfterFirst(s, b, link, item, k, i);
    }
    forall x | x in s'.home
      ensures var Place(k, i) := s'.home[x];
        k < |s'.chains| && i < |s'.chains[k]| && s'.chains[k][i] == x && s'.succ[x] == After(s'.chains[k], i)
    {
      SuccAfterFirst(s, b, link, item, x);
    }
  }

  lemma FirstBuckets<T(!new)>(s: Shape<T>, b: nat, link: Link<T>, item: T)
    requires Good(s) && b < |s.chains| && link !in s.home && Good(WithFirst(s, b, link, item))
    ensures BucketsOf(WithFirst(s, b, link, item)) == BucketsOf(s)[b := [item] + BucketsOf(s)[b]]
  {
    hide BucketsOf, Good;
    var s' := WithFirst(s, b, link, item);
    var expected := BucketsOf(s)[b := [item] + BucketsOf(s)[b]];
    forall k | 0 <= k < |s.chains| ensures BucketsOf(s')[k] == expected[k] {
      forall i | 0 <= i < |s'.chains[k]| ensures BucketsOf(s')[k][i] == expected[k][i] {
        Step(s', k, i);
        if k != b { Step(s, k, i); } else if i > 0 { Step(s, b, i - 1); }
      }
    }
  }

  lemma MirrorsAfterFirst<T(!new)>(table: array<Link?<T>>, s: Shape<T>, b: nat, link: Link<T>)
    requires Good(s) && b < |s.chains| && link !in s.home && Agree(s)
    requires table.Length == |s.chains| && link.next == Head(s.chains[b])
    requires forall k {:trigger table[k]} :: 0 <= k < table.Length ==>
      table[k] == if k == b then link else Head(s.chains[k])
    ensures Mirrors(table, WithFirst(s, b, link, link.item))
  {
    hide Good;
    SameKeys(s);
  }

  /** Puts a link in front of a chain. */
  method PrependLink<T(!new)>(table: array<Link?<T>>, ghost s: Shape<T>, b: nat, link: Link<T>)
    returns (ghost s': Shape<T>)
    requires Good(s) && Mirrors(table, s) && b < table.Length && link !in s.home
    modifies table, link`next
    ensures Good(s') && Mirrors(table, s') && s'.home.Keys == s.home.Keys + {link}
    ensures BucketsOf(s') == BucketsOf(s)[b := [old(link.item)] + BucketsOf(s)[b]]
  {
    hide Good, BucketsOf, WithFirst, Head;
    FirstIsGood(s, b, link, link.item);
    FirstBuckets(s, b, link, link.item);
    FirstKeys(s, b, link, link.item);
    s' := WithFirst(s, b, link, link.item);
    link.next := table[b];
    table[b] := link;
    MirrorsAfterFirst(table, s, b, link);
  }

  // ----- taking a link out of a chain

  ghost function Without<T(!new)>(s: Shape<T>, b: nat, j: nat): Shape<T>
    requires Good(s) && b < |s.chains| && j < |s.chains[b]|
  {
    var c := s.chains[b];
    assert j > 0 ==> c[j - 1] in s.home;
    Shape(s.chains[b := c[..j] + c[j + 1..]],
          map x | x in s.home.Keys - {c[j]} ::
            if s.home[x].bucket == b && s.home[x].index > j then Place(b, s.home[x].index - 1) else s.home[x],
          (if j > 0 then s.succ[c[j - 1] := After(c, j)] else s.succ) - {c[j]},
          s.item - {c[j]})
  }

  lemma WithoutKeys<T(!new)>(s: Shape<T>, b: nat, j: nat)
    requires Good(s) && b < |s.chains| && j < |s.chains[b]|
    ensures var s' := Without(s, b, j);
      s'.home.Keys == s'.succ.Keys == s'.item.Keys == s.home.Keys - {s.chains[b][j]} && |s'.chains| == |s.chains|
  {
    Step(s, b, j);
    if j > 0 { Step(s, b, j - 1); }
  }

  lemma HomeWithout<T(!new)>(s: Shape<T>, b: nat, j: nat, k: nat, i: nat)
    requires Good(s) && b < |s.chains| && j < |s.chains[b]|
    requires k < |s.chains| && i < |Without(s, b, j).chains[k]|
    ensures var s' := Without(s, b, j);
      s'.chains[k][i] in s'.home && s'.home[s'.chains[k][i]] == Place(k, i)
  {
    hide Good;
    var i' := if k == b && i >= j then i + 1 else i;
    Step(s, b, j);
    Step(s, k, i');
  }

  lemma SuccWithout<T(!new)>(s: Shape<T>, b: nat, j: nat, x: Link<T>)
    requires Good(s) && b < |s.chains| && j < |s.chains[b]| && x in s.home && x != s.chains[b][j]
    ensures var s' := Without(s, b, j);
      x in s'.home && x in s'.succ && var Place(k, i) := s'.home[x];
      k < |s'.chains| && i < |s'.chains[k]| && s'.chains[k][i] == x && s'.succ[x] == After(s'.chains[k], i)
  {
    hide Good;
    Step(s, b, j);
    if j > 0 { Step(s, b, j - 1); }
    Standing(s, x);
  }

  lemma WithoutIsGood<T(!new)>(s: Shape<T>, b: nat, j: nat)
    requires Good(s) && b < |s.chains| && j < |s.chains[b]|
    ensures Good(Without(s, b, j))
  {
    hide Without, BucketsOf, After;
    WithoutKeys(s, b, j);
    var s' := Without(s, b, j);
    forall k, i {:trigger s'.chains[k][i]} | 0 <= k < |s'.chains| && 0 <= i < |s'.chains[k]|
      ensures s'.chains[k][i] in s'.home && s'.home[s'.chains[k][i]] == Place(k, i)
    {
      HomeWithout(s, b, j, k, i);
    }
    forall x | x in s'.home
      ensures var Place(k, i) := s'.home[x];
        k < |s'.chains| && i < |s'.chains[k]| && s'.chains[k][i] == x && s'.succ[x] == After(s'.chains[k], i)
    {
      SuccWithout(s, b, j, x);
    }
  }

  lemma WithoutBuckets<T(!new)>(s: Shape<T>, b: nat, j: nat)
    requires Good(s) && b < |s.chains| && j < |s.chains[b]| && Good(Without(s, b, j))
    ensures BucketsOf(Without(s, b, j)) == BucketsOf(s)[b := BucketsOf(s)[b][..j] + BucketsOf(s)[b][j + 1..]]
  {
    hide BucketsOf, Good;
    var s' := Without(s, b, j);
    var expected := BucketsOf(s)[b := BucketsOf(s)[b][..j] + BucketsOf(s)[b][j + 1..]];
    forall k | 0 <= k < |s.chains| ensures BucketsOf(s')[k] == expected[k] {
      forall i | 0 <= i < |s'.chains[k]| ensures BucketsOf(s')[k][i] == expected[k][i] {
        var i' := if k == b && i >= j then i + 1 else i;
        Step(s', k, i);
        Step(s, k, i');
      }
    }
  }

  /** Takes link `j` out of its chain; `before` is the link in front of it, or null. */
  method TakeLink<T(!new)>(table: array<Link?<T>>, ghost s: Shape<T>, b: nat, ghost j: nat,
                           before: Link?<T>, link: Link<T>)
    returns (ghost s': Shape<T>)
    requires Good(s) && Mirrors(table, s) && b < table.Length && j < |s.chains[b]| && link == s.chains[b][j]
    requires before == if j == 0 then null else s.chains[b][j - 1]
    modifies table, s.home.Keys`next
    ensures Good(s') && Mirrors(table, s') && s'.home.Keys == s.home.Keys - {link}
    ensures BucketsOf(s') == BucketsOf(s)[b := BucketsOf(s)[b][..j] + BucketsOf(s)[b][j + 1..]]
  {
    hide Good, BucketsOf, Without, Head, After;
    WithoutKeys(s, b, j);
    WithoutIsGood(s, b, j);
    WithoutBuckets(s, b, j);
    SameKeys(s);
    Step(s, b, j);
    s' := Without(s, b, j);
    if before == null {
      table[b] := link.next;
    } else {
      Step(s, b, j - 1);
      before.next := link.next;
    }
    MirrorsWithout(table, s, b, j);
  }

  lemma MirrorsWithout<T(!new)>(table: array<Link?<T>>, s: Shape<T>, b: nat, j: nat)
    requires Good(s) && b < |s.chains| && j < |s.chains[b]| && table.Length == |s.chains|
    requires forall k {:trigger table[k]} :: 0 <= k < table.Length ==>
      table[k] == if k == b && j == 0 then After(s.chains[b], j) else Head(s.chains[k])
    requires forall x {:trigger x.next} :: x in s.home && x in s.succ && x != s.chains[b][j] ==>
      x.next == if j > 0 && x == s.chains[b][j - 1] then After(s.chains[b], j) else s.succ[x]
    requires forall x {:trigger x.item} :: x in s.home && x in s.item ==> x.item == s.item[x]
    ensures Mirrors(table, Without(s, b, j))
  {
    hide Good;
    WithoutKeys(s, b, j);
    Step(s, b, j);
    if j > 0 { Step(s, b, j - 1); }
  }
}
