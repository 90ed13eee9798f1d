/** The four dependency lists of an ebuild. */
module DependencyContainers {
  import opened Options

  /** The lists of a container by index: the resolver fills them with bdepend, depend, rdepend and pdepend, in
      this order. */
  datatype DependencyContainer<N> = DependencyContainer(depend: seq<N>, runDepend: seq<N>, buildDepend: seq<N>,
                                                        postDepend: seq<N>) {
    function Append(i: nat, x: N): DependencyContainer<N>
      requires i < 4
    {
      if i == 0 then this.(depend := depend + [x])
      else if i == 1 then this.(runDepend := runDepend + [x])
      else if i == 2 then this.(buildDepend := buildDepend + [x])
      else this.(postDepend := postDepend + [x])
    }
  }

  function Empty<N>(): DependencyContainer<N> { DependencyContainer([], [], [], []) }

  /** The members of a container with the index of their list, in the order of the resolver's loops. */
  function Tagged<N>(i: nat, list: seq<N>): (r: seq<(nat, N)>)
    requires i < 4
    ensures |r| == |list| && forall k :: 0 <= k < |r| ==> r[k] == (i, list[k])
  {
    seq(|list|, k requires 0 <= k < |list| => (i, list[k]))
  }

  function AllOf<N>(d: DependencyContainer<N>): (r: seq<(nat, N)>)
    ensures forall p :: p in r ==> p.0 < 4
  {
    Tagged(0, d.depend) + Tagged(1, d.runDepend) + Tagged(2, d.buildDepend) + Tagged(3, d.postDepend)
  }

  ghost predicate Within<N>(d: DependencyContainer<N>, u: set<N>) {
    forall p :: p in AllOf(d) ==> p.1 in u
  }

  // ----- appending

  lemma AppendMembers<N>(d: DependencyContainer<N>, i: nat, x: N, p: (nat, N))
    requires i < 4
    ensures p in AllOf(d.Append(i, x)) <==> p in AllOf(d) || p == (i, x)
  {
    TaggedAppend(0, d.depend, x, p);
    TaggedAppend(1, d.runDepend, x, p);
    TaggedAppend(2, d.buildDepend, x, p);
    TaggedAppend(3, d.postDepend, x, p);
  }

  lemma TaggedAppend<N>(i: nat, list: seq<N>, x: N, p: (nat, N))
    requires i < 4
    ensures p in Tagged(i, list + [x]) <==> p in Tagged(i, list) || p == (i, x)
  {
    assert Tagged(i, list + [x]) == Tagged(i, list) + [(i, x)];
  }

  lemma AppendWithin<N>(d: DependencyContainer<N>, i: nat, x: Option<N>, u: set<N>)
    requires i < 4 && Within(d, u) && (x.Some? ==> x.value in u)
    ensures x.Some? ==> Within(d.Append(i, x.value), u)
  {
    hide AllOf;
    if x.Some? {
      forall p | p in AllOf(d.Append(i, x.value)) ensures p.1 in u { AppendMembers(d, i, x.value, p); }
    }
  }

  lemma EmptyWithin<N>(u: set<N>)
    ensures Within<N>(Empty(), u)
  {
  }

  // ----- copying a container

  function Filled<N>(done: seq<(nat, N)>): DependencyContainer<N>
    requires forall p :: p in done ==> p.0 < 4
  {
    if done == [] then Empty()
    else Filled(done[..|done| - 1]).Append(done[|done| - 1].0, done[|done| - 1].1)
  }

  lemma FilledOneMore<N>(done: seq<(nat, N)>, p: (nat, N))
    requires p.0 < 4 && forall q :: q in done ==> q.0 < 4
    ensures Filled(done + [p]) == Filled(done).Append(p.0, p.1)
  {
    assert (done + [p])[..|done|] == done;
  }

  function Appended<N>(d: DependencyContainer<N>, i: nat, list: seq<N>): DependencyContainer<N>
    requires i < 4
  {
    if i == 0 then d.(depend := d.depend + list)
    else if i == 1 then d.(runDepend := d.runDepend + list)
    else if i == 2 then d.(buildDepend := d.buildDepend + list)
    else d.(postDepend := d.postDepend + list)
  }

  lemma AppendedOneMore<N>(d: DependencyContainer<N>, i: nat, list: seq<N>)
    requires i < 4
    ensures list == [] ==> Appended(d, i, list) == d
    ensures list != [] ==> Appended(d, i, list[..|list| - 1]).Append(i, list[|list| - 1]) == Appended(d, i, list)
  {
    if list != [] {
      LastBehind(d.depend, list);
      LastBehind(d.runDepend, list);
      LastBehind(d.buildDepend, list);
      LastBehind(d.postDepend, list);
    }
  }

  lemma LastBehind<N>(a: seq<N>, list: seq<N>)
    requires list != []
    ensures a + list[..|list| - 1] + [list[|list| - 1]] == a + list
  {
  }

  /** Appending the members of one list, in order, appends that list. */
  lemma {:induction false} FilledList<N>(done: seq<(nat, N)>, i: nat, list: seq<N>)
    requires i < 4 && forall q :: q in done ==> q.0 < 4
    ensures Filled(done + Tagged(i, list)) == Appended(Filled(done), i, list)
  {
    hide Filled, Appended;
    AppendedOneMore(Filled(done), i, list);
    if list == [] {
      assert done + Tagged(i, list) == done;
    } else {
      var init, last := list[..|list| - 1], list[|list| - 1];
      FilledList(done, i, init);
      FilledOneMore(done + Tagged(i, init), (i, last));
      assert done + Tagged(i, list) == done + Tagged(i, init) + [(i, last)];
    }
  }

  /** Copying a container member by member copies it. */
  lemma FilledIsCopy<N>(d: DependencyContainer<N>)
    ensures Filled(AllOf(d)) == d
  {
    hide Filled, Tagged;
    var none: seq<(nat, N)> := [];
    var t0, t1 := Tagged(0, d.depend), Tagged(1, d.runDepend);
    var t2, t3 := Tagged(2, d.buildDepend), Tagged(3, d.postDepend);
    NothingFilled<N>();
    FilledList(none, 0, d.depend);
    assert none + t0 == t0;
    FilledList(t0, 1, d.runDepend);
    FilledList(t0 + t1, 2, d.buildDepend);
    FilledList(t0 + t1 + t2, 3, d.postDepend);
  }

  lemma NothingFilled<N>()
    ensures Filled<N>([]) == Empty()
  {
  }

  /** The numbers of the lists: 0 for depend, 1 for run_depend, 2 for build_depend, 3 for post_depend; walking a
      container visits them in this order. */
  lemma ListNumbers<N>(d: DependencyContainer<N>, x: N)
    ensures d.Append(0, x) == d.(depend := d.depend + [x]) && d.Append(1, x) == d.(runDepend := d.runDepend + [x])
    ensures d.Append(2, x) == d.(buildDepend := d.buildDepend + [x])
    ensures d.Append(3, x) == d.(postDepend := d.postDepend + [x])
    ensures var (a, b) := (|d.depend|, |d.depend| + |d.runDepend|);
      var (c, all) := (b + |d.buildDepend|, AllOf(d));
      && |all| == c + |d.postDepend|
      && (forall k :: 0 <= k < a ==> all[k] == (0, d.depend[k]))
      && (forall k :: a <= k < b ==> all[k] == (1, d.runDepend[k - a]))
      && (forall k :: b <= k < c ==> all[k] == (2, d.buildDepend[k - b]))
      && (forall k :: c <= k < |all| ==> all[k] == (3, d.postDepend[k - c]))
  {
  }
}
