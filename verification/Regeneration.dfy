/** Flags over a whole session: what a session that returns normally has achieved, and when it does. */
module Regeneration {
  import opened Options
  import opened AtomRequirements
  import opened DependencyContainers
  import opened RequiredUse
  import opened ResolveModel
  import opened Sequences
  import opened UseModel

  // ----- a walk is a run of starts

  /** Ebuilds join one after the other, until one raises. */
  ghost function Replay<N, A(!new), S(!new)>(m: Emerge<N, A, S>, u: set<N>, c: Core<N, S>, trace: seq<N>)
    : (r: (Core<N, S>, Outcome))
    requires Fits(m, u) && Good(c, u) && forall x :: x in trace ==> x in u
    ensures Good(r.0, u)
    decreases |trace|
  {
    if trace == [] then (c, Returned)
    else
      var (d, outcome) := Start(m, u, c, trace[0]);
      if outcome != Returned then (d, outcome) else Replay(m, u, d, trace[1..])
  }

  lemma {:induction false} ReplayConcat<N, A(!new), S(!new)>(m: Emerge<N, A, S>, u: set<N>, c: Core<N, S>,
                                                             trace: seq<N>, more: seq<N>)
    requires Fits(m, u) && Good(c, u) && forall x :: x in trace + more ==> x in u
    ensures forall x :: x in trace || x in more ==> x in u
    ensures var (d, outcome) := Replay(m, u, c, trace);
      Replay(m, u, c, trace + more) == if outcome == Returned then Replay(m, u, d, more) else (d, outcome)
    decreases |trace|
  {
    hide Fits, Good, Start;
    assert forall x :: x in trace || x in more ==> x in trace + more;
    if trace == [] {
      assert trace + more == more;
    } else {
      var (d, outcome) := Start(m, u, c, trace[0]);
      assert (trace + more)[1..] == trace[1..] + more;
      if outcome == Returned { ReplayConcat(m, u, d, trace[1..], more); }
    }
  }

  /** The members of the trace, each once, are those that joined. */
  ghost predicate Joins<N>(before: set<N>, after: set<N>, trace: seq<N>) {
    && NoRepeats(trace) && after == before + (set x | x in trace)
    && forall x :: x in trace ==> x !in before
  }

  lemma JoinsOn<N>(a: set<N>, b: set<N>, c: set<N>, trace: seq<N>, more: seq<N>)
    requires Joins(a, b, trace) && Joins(b, c, more)
    ensures Joins(a, c, trace + more)
  {
    var all := trace + more;
    assert forall x :: x in all <==> x in trace || x in more;
    forall i, j | 0 <= i < j < |all| ensures all[i] != all[j] {
      if i < |trace| <= j { assert all[i] in trace && all[j] in more; }
    }
    assert c == a + (set x | x in all);
  }

  /** All that a walk does besides recording resolved dependencies, it does by starting ebuilds one after the other. */
  lemma {:induction false} VisitIsReplay<N, A(!new), S(!new)>(m: Emerge<N, A, S>, u: set<N>, s: Resolution<N, S>, e: N)
    returns (trace: seq<N>)
    requires Fits(m, u) && GoodResolution(s, u) && e in u
    ensures forall x :: x in trace ==> x in u
    ensures Replay(m, u, s.core, trace) == (Visit(m, u, s, e).0.core, Visit(m, u, s, e).1)
    ensures Joins(s.core.session, Visit(m, u, s, e).0.core.session, trace)
    decreases u - s.core.session, 0
  {
    hide Fits, Good, VisitList, AllOf, Visit, Start;
    if e in s.core.session {
      VisitSeen(m, u, s, e);
      trace := [];
    } else {
      UnfoldVisit(m, u, s, e);
      var (t, outcome) := Started(m, u, s, e);
      trace := [e];
      StartIsReplay(m, u, s.core, e);
      if outcome == Returned {
        var more := ListIsReplay(m, u, t, e, AllOf(t.core.generators[e]));
        ReplayConcat(m, u, s.core, [e], more);
        JoinsOn(s.core.session, t.core.session, Visit(m, u, s, e).0.core.session, [e], more);
        trace := [e] + more;
      }
    }
  }

  lemma StartIsReplay<N, A(!new), S(!new)>(m: Emerge<N, A, S>, u: set<N>, c: Core<N, S>, e: N)
    requires Fits(m, u) && Good(c, u) && e in u
    ensures Replay(m, u, c, [e]) == Start(m, u, c, e)
  {
    hide Fits, Start;
    assert [e][1..] == [];
  }

  lemma {:induction false} ListIsReplay<N, A(!new), S(!new)>(m: Emerge<N, A, S>, u: set<N>, s: Resolution<N, S>, e: N,
                                                             todo: seq<(nat, N)>)
    returns (trace: seq<N>)
    requires Fits(m, u) && GoodResolution(s, u) && e in s.core.session
    requires forall p :: p in todo ==> p.0 < 4 && p.1 in u
    ensures forall x :: x in trace ==> x in u
    ensures Replay(m, u, s.core, trace) == (VisitList(m, u, s, e, todo).0.core, VisitList(m, u, s, e, todo).1)
    ensures Joins(s.core.session, VisitList(m, u, s, e, todo).0.core.session, trace)
    decreases u - s.core.session, 1, |todo|
  {
    hide Fits, Good, VisitList, Visit, Start;
    if todo == [] {
      ListDone(m, u, s, e);
      trace := [];
    } else {
      UnfoldList(m, u, s, e, todo);
      var (v, outcome) := Visit(m, u, s, todo[0].1);
      trace := VisitIsReplay(m, u, s, todo[0].1);
      if outcome == Returned {
        var more := ListIsReplay(m, u, Recorded(v, e, todo[0]), e, todo[1..]);
        ReplayConcat(m, u, s.core, trace, more);
        JoinsOn(s.core.session, v.core.session, VisitList(m, u, s, e, todo).0.core.session, trace, more);
        trace := trace + more;
      }
    }
  }

  // ----- lists behind a condition

  lemma KnownAfterOne<N, A(!new), S(!new)>(m: Emerge<N, A, S>, u: set<N>, c: Core<N, S>, e: N, p: (nat, Dependency<A>),
                                           name: string)
    requires Fits(m, u) && Good(c, u) && e in u && p.0 < 4 && name in Current(c.flags[e])
    ensures e in ExpandOne(m, u, c, e, p).0.flags && name in Current(ExpandOne(m, u, c, e, p).0.flags[e])
  {
    hide AllOf, RequireAll, Current;
    if p.1.Need? && m.select(e, p.1.atom, c.selected).0 == Some(e) {
      KeptByAll(c.flags[e], p.1.uses);
      KnownStays(c.flags[e], RequireAll(c.flags[e], p.1.uses).0, name);
    }
  }

  /** A list behind a condition on a flag that the ebuild has is passed over: the expansion is the same without it. */
  lemma {:induction false} GuardedListIsPassedOver<N, A(!new), S(!new)>(m: Emerge<N, A, S>, u: set<N>, c: Core<N, S>,
                                                                       e: N, before: seq<(nat, Dependency<A>)>, i: nat,
                                                                       name: string, after: seq<(nat, Dependency<A>)>)
    requires Fits(m, u) && Good(c, u) && e in u && name in Current(c.flags[e])
    requires i < 4 && forall p :: p in before + after ==> p.0 < 4
    ensures forall p :: p in before + [(i, Guarded(name))] + after ==> p.0 < 4
    ensures ExpandAll(m, u, c, e, before + [(i, Guarded(name))] + after) == ExpandAll(m, u, c, e, before + after)
    decreases |before|
  {
    hide Fits, Good, AllOf, Current;
    var all, rest := before + [(i, Guarded(name))] + after, before + after;
    if before == [] {
      assert all[1..] == after && rest == after;
    } else {
      assert all[1..] == before[1..] + [(i, Guarded(name))] + after && rest[1..] == before[1..] + after;
      assert all[0] == rest[0] && before[0] in rest;
      hide ExpandOne;
      KnownAfterOne(m, u, c, e, before[0], name);
      if ExpandOne(m, u, c, e, before[0]).1 == Returned {
        GuardedListIsPassedOver(m, u, ExpandOne(m, u, c, e, before[0]).0, e, before[1..], i, name, after);
      }
    }
  }

  // ----- selections, and what an expansion raises

  /** What has been selected and blocked after the dependencies: each atom once, in their order. */
  function SelectedAfter<N, A, S>(m: Emerge<N, A, S>, e: N, todo: seq<(nat, Dependency<A>)>, selected: S): S
    decreases |todo|
  {
    if todo == [] then selected
    else
      var next :=
        match todo[0].1
        case Need(a, _) => m.select(e, a, selected).1
        case Blocker(a) => m.addBlock(e, a, selected)
        case _ => selected;
      SelectedAfter(m, e, todo[1..], next)
  }

  lemma {:induction false} SelectionsInOrder<N, A(!new), S(!new)>(m: Emerge<N, A, S>, u: set<N>, c: Core<N, S>, e: N,
                                                                  todo: seq<(nat, Dependency<A>)>)
    requires Fits(m, u) && Good(c, u) && e in u && forall p :: p in todo ==> p.0 < 4
    requires ExpandAll(m, u, c, e, todo).1 == Returned
    ensures ExpandAll(m, u, c, e, todo).0.selected == SelectedAfter(m, e, todo, c.selected)
    decreases |todo|
  {
    hide Fits, Good, AllOf, RequireAll, Current;
    if todo != [] { SelectionsInOrder(m, u, ExpandOne(m, u, c, e, todo[0]).0, e, todo[1..]); }
  }

  /** What a regeneration raises: what the flush and the expression raise; else, of the first dependency that cannot be
      had, the exception of its selection, of its requirements, or the KeyError of its condition. */
  lemma RebuildRaises<N, A(!new), S(!new)>(m: Emerge<N, A, S>, u: set<N>, c: Core<N, S>, e: N, p: (nat, Dependency<A>))
    requires Fits(m, u) && Good(c, u) && e in u && p.0 < 4
    ensures e in c.flags
    ensures Refresh(c.flags[e], m.metadata(e).requiredUse).1 != Returned ==>
      Rebuild(m, u, c, e) ==
        (c.(generators := c.generators[e := Empty()],
            flags := c.flags[e := Refresh(c.flags[e], m.metadata(e).requiredUse).0]),
         Refresh(c.flags[e], m.metadata(e).requiredUse).1)
    ensures var outcome := ExpandOne(m, u, c, e, p).1;
      match p.1
      case Need(a, uses) =>
        var x := m.select(e, a, c.selected).0;
        if x.None? then outcome == SelectionException
        else x.value in c.flags && outcome == RequireAll(c.flags[x.value], uses).1
      case Guarded(name) => outcome == if name in Current(c.flags[e]) then Returned else KeyError
      case _ => outcome == Returned
  {
    hide AllOf, RequireAll, Refresh, Within, ExpandAll;
  }

  /** The dependencies in front of the first one that raises have been expanded; that one adds no generator, and those
      behind it are not looked at. */
  lemma {:induction false} FirstDependencyRaises<N, A(!new), S(!new)>(m: Emerge<N, A, S>, u: set<N>, c: Core<N, S>,
                                                                     e: N, todo: seq<(nat, Dependency<A>)>, k: nat)
    requires Fits(m, u) && Good(c, u) && e in u && (forall p :: p in todo ==> p.0 < 4) && k < |todo|
    ensures forall p :: p in todo[..k] ==> p.0 < 4
    ensures var (d, outcome) := ExpandAll(m, u, c, e, todo[..k]);
      outcome == Returned && ExpandOne(m, u, d, e, todo[k]).1 != Returned ==>
        && ExpandAll(m, u, c, e, todo) == ExpandOne(m, u, d, e, todo[k])
        && ExpandAll(m, u, c, e, todo).0.generators == d.generators
    decreases k
  {
    hide Fits, Good, AllOf, ExpandOne;
    if k > 0 {
      assert todo[..k][0] == todo[0] && todo[..k][1..] == todo[1..][..k - 1];
      if ExpandOne(m, u, c, e, todo[0]).1 == Returned {
        FirstDependencyRaises(m, u, ExpandOne(m, u, c, e, todo[0]).0, e, todo[1..], k - 1);
      }
    } else {
      assert todo[..0] == [];
      if ExpandOne(m, u, c, e, todo[0]).1 != Returned { RaisedAddsNothing(m, u, c, e, todo[0]); }
    }
  }

  lemma RaisedAddsNothing<N, A(!new), S(!new)>(m: Emerge<N, A, S>, u: set<N>, c: Core<N, S>, e: N,
                                               p: (nat, Dependency<A>))
    requires Fits(m, u) && Good(c, u) && e in u && p.0 < 4 && ExpandOne(m, u, c, e, p).1 != Returned
    ensures ExpandOne(m, u, c, e, p).0.generators == c.generators
  {
    hide AllOf, RequireAll, Current;
  }

  // ----- what a regeneration leaves behind

  /** The dependency has a generator on whose flags a hook stands for each requirement. */
  ghost predicate Supplied<N, A, S>(c: Core<N, S>, x: N, p: (nat, Dependency<A>)) {
    match p.1
    case Need(_, uses) =>
      exists y :: y in c.flags && x in c.generators && (p.0, y) in AllOf(c.generators[x]) &&
        forall r :: r in uses ==> Noted(c.flags[y], r)
    case Guarded(name) => x in c.flags && name in Current(c.flags[x])
    case _ => true
  }

  ghost predicate Watched<N, A, S>(m: Emerge<N, A, S>, c: Core<N, S>, x: N) {
    x in c.flags && (m.metadata(x).requiredUse.Some? ==>
      m.metadata(x).requiredUse.value in c.flags[x].globalFlagHooks)
  }

  ghost predicate Provided<N, A, S>(m: Emerge<N, A, S>, c: Core<N, S>, x: N) {
    && Watched(m, c, x)
    && forall p :: p in AllOf(m.metadata(x).dependencies) ==> Supplied(c, x, p)
  }

  ghost predicate FlagsHold<N, S>(c: Core<N, S>, u: set<N>) { forall x :: x in u && x in c.flags ==> Inv(c.flags[x]) }

  /** In the session, or clean. */
  ghost predicate Settled<N, S>(c: Core<N, S>, x: N) { x in c.session || (x in c.flags && !c.flags[x].isDirty) }

  /** The flags of every ebuild keep their invariant, and members of the session and clean ebuilds are provided for. */
  ghost predicate Sound<N, A, S>(m: Emerge<N, A, S>, c: Core<N, S>, u: set<N>) {
    && FlagsHold(c, u)
    && forall x {:trigger Provided(m, c, x)} :: x in u && Settled(c, x) ==> Provided(m, c, x)
  }

  /** No hook is lost, nobody but `e` gets clean, and the generators of `e` are only added to. */
  ghost predicate Later<N, S>(c: Core<N, S>, d: Core<N, S>, u: set<N>, e: N) {
    && c.flags.Keys == d.flags.Keys == c.generators.Keys == d.generators.Keys == u
    && (forall x :: x in u ==> Kept(c.flags[x], d.flags[x]))
    && (forall x :: x in u && x != e && c.flags[x].isDirty ==> d.flags[x].isDirty)
    && (forall x {:trigger d.generators[x]} :: x in u && x != e ==> d.generators[x] == c.generators[x])
  }

  ghost predicate GeneratorsGrow<N, S>(c: Core<N, S>, d: Core<N, S>, e: N) {
    e in c.generators && e in d.generators && forall p :: p in AllOf(c.generators[e]) ==> p in AllOf(d.generators[e])
  }

  lemma SuppliedStays<N, A, S>(c: Core<N, S>, d: Core<N, S>, u: set<N>, e: N, x: N, p: (nat, Dependency<A>))
    requires Later(c, d, u, e) && x in u && Supplied(c, x, p) && (x == e ==> GeneratorsGrow(c, d, e))
    ensures Supplied(d, x, p)
  {
    hide Noted, Kept, AllOf;
    match p.1
    case Need(_, uses) =>
      var y :| y in c.flags && (p.0, y) in AllOf(c.generators[x]) && forall r :: r in uses ==> Noted(c.flags[y], r);
      forall r | r in uses ensures Noted(d.flags[y], r) { NotedStays(c.flags[y], d.flags[y], r); }
      assert (p.0, y) in AllOf(d.generators[x]);
    case Guarded(name) => KnownStays(c.flags[x], d.flags[x], name);
    case _ =>
  }

  lemma KnownStays(s: State, t: State, name: string)
    requires Kept(s, t) && name in Current(s)
    ensures name in Current(t)
  {
    assert name in Current(s).Keys;
  }

  lemma LaterOn<N, S>(c: Core<N, S>, d: Core<N, S>, v: Core<N, S>, u: set<N>, e: N)
    requires Later(c, d, u, e) && Later(d, v, u, e)
    ensures Later(c, v, u, e)
    ensures GeneratorsGrow(c, d, e) && GeneratorsGrow(d, v, e) ==> GeneratorsGrow(c, v, e)
  {
    hide Kept, AllOf;
    forall x | x in u ensures Kept(c.flags[x], v.flags[x]) { KeptOn(c.flags[x], d.flags[x], v.flags[x]); }
  }

  lemma LaterItself<N, S>(c: Core<N, S>, u: set<N>, e: N)
    requires Good(c, u) && e in u
    ensures Later(c, c, u, e) && GeneratorsGrow(c, c, e)
  {
    hide Kept, AllOf;
    forall x | x in u ensures Kept(c.flags[x], c.flags[x]) { KeptItself(c.flags[x]); }
  }

  /** One expanded dependency is supplied. */
  lemma ExpandSupplies<N, A(!new), S(!new)>(m: Emerge<N, A, S>, u: set<N>, c: Core<N, S>, e: N,
                                            p: (nat, Dependency<A>))
    requires Fits(m, u) && Good(c, u) && e in u && p.0 < 4 && FlagsHold(c, u)
    requires ExpandOne(m, u, c, e, p).1 == Returned
    ensures var v := ExpandOne(m, u, c, e, p).0;
      Later(c, v, u, e) && GeneratorsGrow(c, v, e) && FlagsHold(v, u) && Supplied(v, e, p)
  {
    hide Fits, Noted, Kept, Inv, RequireAll, AllOf, Current;
    LaterItself(c, u, e);
    var (d, x, _) := Expand(m, u, c, e, p.1);
    match p.1
    case Need(a, uses) =>
      var y := x.value;
      RequireAllNotes(c.flags[y], uses);
      if c.flags[y].isDirty { DirtStays(c.flags[y], uses); }
      forall q ensures q in AllOf(d.generators[e].Append(p.0, y)) <==> q in AllOf(d.generators[e]) || q == (p.0, y) {
        AppendMembers(d.generators[e], p.0, y, q);
      }
      assert (p.0, y) in AllOf(d.generators[e].Append(p.0, y));
    case _ =>
  }

  lemma {:induction false} ExpandAllSupplies<N, A(!new), S(!new)>(m: Emerge<N, A, S>, u: set<N>, c: Core<N, S>, e: N,
                                                                  todo: seq<(nat, Dependency<A>)>)
    requires Fits(m, u) && Good(c, u) && e in u && FlagsHold(c, u) && forall p :: p in todo ==> p.0 < 4
    requires ExpandAll(m, u, c, e, todo).1 == Returned
    ensures var d := ExpandAll(m, u, c, e, todo).0;
      && Later(c, d, u, e) && GeneratorsGrow(c, d, e) && FlagsHold(d, u)
      && forall p :: p in todo ==> Supplied(d, e, p)
    decreases |todo|
  {
    hide Fits, Later, GeneratorsGrow, FlagsHold, Supplied, ExpandOne, AllOf;
    if todo == [] {
      LaterItself(c, u, e);
    } else {
      var w, d := ExpandOne(m, u, c, e, todo[0]).0, ExpandAll(m, u, c, e, todo).0;
      ExpandSupplies(m, u, c, e, todo[0]);
      ExpandAllSupplies(m, u, w, e, todo[1..]);
      LaterOn(c, w, d, u, e);
      SuppliedStays(w, d, u, e, e, todo[0]);
      assert forall p :: p in todo <==> p == todo[0] || p in todo[1..];
    }
  }

  /** The start of a regeneration: the generators are cleared, the flags brought up to date, the expression watched. */
  lemma RefreshLater<N, A(!new), S(!new)>(m: Emerge<N, A, S>, u: set<N>, c: Core<N, S>, e: N)
    requires Fits(m, u) && Good(c, u) && e in u && FlagsHold(c, u)
    requires Refresh(c.flags[e], m.metadata(e).requiredUse).1 == Returned
    ensures var f := Refresh(c.flags[e], m.metadata(e).requiredUse).0;
      var d := c.(generators := c.generators[e := Empty()], flags := c.flags[e := f]);
      Good(d, u) && Later(c, d, u, e) && FlagsHold(d, u) && Watched(m, d, e)
  {
    hide Inv, Kept, Refresh, AllOf;
    var data := m.metadata(e);
    EmptyWithin(u);
    LaterItself(c, u, e);
    RefreshReturnsIff(c.flags[e], data.requiredUse);
    KeptByRefresh(c.flags[e], data.requiredUse);
  }

  lemma KeptCleaned(s: State)
    requires Inv(s)
    ensures Kept(s, s.(isDirty := false)) && Inv(s.(isDirty := false))
  {
    hide Hook;
  }

  lemma CleanedLater<N, S>(c: Core<N, S>, u: set<N>, e: N)
    requires Good(c, u) && e in u && FlagsHold(c, u)
    ensures var d := c.(flags := c.flags[e := c.flags[e].(isDirty := false)]);
      Later(c, d, u, e) && GeneratorsGrow(c, d, e) && FlagsHold(d, u)
  {
    hide AllOf, Within, Kept;
    forall x | x in u ensures Kept(c.flags[x], c.flags[x]) { KeptItself(c.flags[x]); }
    KeptCleaned(c.flags[e]);
  }

  lemma WatchedStays<N, A, S>(m: Emerge<N, A, S>, c: Core<N, S>, d: Core<N, S>, u: set<N>, e: N, x: N)
    requires Later(c, d, u, e) && x in u && Watched(m, c, x)
    ensures Watched(m, d, x)
  {
  }

  lemma InCore<N, S>(c: Core<N, S>, u: set<N>, e: N)
    requires Good(c, u) && e in u
    ensures e in c.flags && e in c.generators
  {
  }

  /** A regeneration that returns normally provides for the ebuild. */
  lemma RebuildProvides<N, A(!new), S(!new)>(m: Emerge<N, A, S>, u: set<N>, c: Core<N, S>, e: N)
    requires Fits(m, u) && Good(c, u) && e in u && FlagsHold(c, u) && Rebuild(m, u, c, e).1 == Returned
    ensures var d := Rebuild(m, u, c, e).0; Later(c, d, u, e) && FlagsHold(d, u) && Provided(m, d, e)
  {
    hide Fits, Good, Later, GeneratorsGrow, FlagsHold, Supplied, Watched, ExpandAll, AllOf, Refresh;
    var data := m.metadata(e);
    InCore(c, u, e);
    RefreshLater(m, u, c, e);
    var f := Refresh(c.flags[e], data.requiredUse).0;
    var c1 := c.(generators := c.generators[e := Empty()], flags := c.flags[e := f]);
    var todo := AllOf(data.dependencies);
    ExpandAllSupplies(m, u, c1, e, todo);
    var c2, d := ExpandAll(m, u, c1, e, todo).0, Rebuild(m, u, c, e).0;
    CleanedLater(c2, u, e);
    LaterOn(c1, c2, d, u, e);
    LaterOn(c, c1, d, u, e);
    WatchedStays(m, c1, d, u, e, e);
    forall p | p in todo ensures Supplied(d, e, p) { SuppliedStays(c2, d, u, e, e, p); }
  }

  lemma ProvidedStays<N, A, S>(m: Emerge<N, A, S>, c: Core<N, S>, d: Core<N, S>, u: set<N>, e: N, x: N)
    requires Later(c, d, u, e) && x in u && x != e && Provided(m, c, x)
    ensures Provided(m, d, x)
  {
    hide Later, Supplied, Watched;
    WatchedStays(m, c, d, u, e, x);
    forall p | p in AllOf(m.metadata(x).dependencies) ensures Supplied(d, x, p) { SuppliedStays(c, d, u, e, x, p); }
  }

  lemma StartSound<N, A(!new), S(!new)>(m: Emerge<N, A, S>, u: set<N>, c: Core<N, S>, e: N)
    requires Fits(m, u) && Good(c, u) && e in u && Sound(m, c, u) && Start(m, u, c, e).1 == Returned
    ensures Sound(m, Start(m, u, c, e).0, u)
  {
    hide Fits, FlagsHold, Rebuild;
    var c1, d := c.(session := c.session + {e}), Start(m, u, c, e).0;
    FlagsHoldIn(c, c1, u);
    SameProvided(m, c, c1);
    if c.flags[e].isDirty {
      RebuildProvides(m, u, c1, e);
      forall x | x in u && Settled(d, x) ensures Provided(m, d, x) {
        if x != e {
          SettledBefore(c1, d, u, e, x);
          ProvidedStays(m, c1, d, u, e, x);
        }
      }
    }
  }

  lemma FlagsHoldIn<N, S>(c: Core<N, S>, d: Core<N, S>, u: set<N>)
    requires FlagsHold(c, u) && d.flags == c.flags
    ensures FlagsHold(d, u)
  {
  }

  lemma SameProvided<N, A, S>(m: Emerge<N, A, S>, c: Core<N, S>, d: Core<N, S>)
    requires d.flags == c.flags && d.generators == c.generators
    ensures forall x :: Provided(m, c, x) ==> Provided(m, d, x)
  {
  }

  lemma SettledBefore<N, S>(c: Core<N, S>, d: Core<N, S>, u: set<N>, e: N, x: N)
    requires Later(c, d, u, e) && d.session == c.session && x in u && x != e && Settled(d, x)
    ensures Settled(c, x)
  {
  }

  lemma {:induction false} ReplaySound<N, A(!new), S(!new)>(m: Emerge<N, A, S>, u: set<N>, c: Core<N, S>, trace: seq<N>)
    requires Fits(m, u) && Good(c, u) && (forall x :: x in trace ==> x in u) && Sound(m, c, u)
    requires Replay(m, u, c, trace).1 == Returned
    ensures Sound(m, Replay(m, u, c, trace).0, u)
    decreases |trace|
  {
    hide Fits, Good, Sound, Start;
    if trace != [] {
      StartSound(m, u, c, trace[0]);
      ReplaySound(m, u, Start(m, u, c, trace[0]).0, trace[1..]);
    }
  }

  /** The dependency is resolved to a member of the session whose flags are as the atom asks. */
  ghost predicate Met<N, A, S>(t: Resolution<N, S>, x: N, p: (nat, Dependency<A>)) {
    p.1.Need? ==>
      exists y ::
        && y in t.core.session && y in t.core.flags && x in t.resolved && (p.0, y) in AllOf(t.resolved[x])
        && forall r :: r in p.1.uses ==> Honoured(t.core.flags[y], r)
  }

  /** The REQUIRED_USE of `x` is accepted, and each atom that it needs is resolved to a member of the session whose
      flags are as the atom asks. */
  ghost predicate Served<N, A, S>(m: Emerge<N, A, S>, t: Resolution<N, S>, x: N) {
    && x in t.core.flags
    && (m.metadata(x).requiredUse.Some? ==>
      Hook(Current(t.core.flags[x]), m.metadata(x).requiredUse.value) == Accepted)
    && forall p :: p in AllOf(m.metadata(x).dependencies) ==> Met(t, x, p)
  }

  /** A session that returns normally leaves a sound state, also for the next session. */
  lemma SessionStaysSound<N, A(!new), S(!new)>(m: Emerge<N, A, S>, u: set<N>, s: Resolution<N, S>, e: N)
    requires Fits(m, u) && GoodResolution(s, u) && e in u && Sound(m, s.core, u) && s.core.session == {}
    requires Visit(m, u, s, e).1 == Returned
    ensures var t := Visit(m, u, s, e).0;
      && Sound(m, t.core, u) && Sound(m, Restarted(t).core, u)
      && forall x :: x in t.core.session ==> x in u && Provided(m, t.core, x)
  {
    hide Fits, Visit, Sound, Good, Provided, Joins;
    var trace := VisitIsReplay(m, u, s, e);
    ReplaySound(m, u, s.core, trace);
    SoundOnceRestarted(m, Visit(m, u, s, e).0, u);
  }

  lemma SoundOnceRestarted<N, A, S>(m: Emerge<N, A, S>, t: Resolution<N, S>, u: set<N>)
    requires GoodResolution(t, u) && Sound(m, t.core, u)
    ensures Sound(m, Restarted(t).core, u)
    ensures forall x :: x in t.core.session ==> x in u && Provided(m, t.core, x)
  {
    hide Provided;
    SameProvided(m, t.core, Restarted(t).core);
    forall x | x in t.core.session ensures x in u && Provided(m, t.core, x) {
      assert Settled(t.core, x);
    }
  }

  /** When a new session returns normally, every member is served at its end, by the flags as they are then. */
  lemma SessionHonours<N, A(!new), S(!new)>(m: Emerge<N, A, S>, u: set<N>, s: Resolution<N, S>, e: N)
    requires Fits(m, u) && GoodResolution(s, u) && e in u && Sound(m, s.core, u) && s.core.session == {}
    requires Visit(m, u, s, e).1 == Returned
    ensures var t := Visit(m, u, s, e).0;
      && Sound(m, t.core, u) && Sound(m, Restarted(t).core, u)
      && forall x :: x in t.core.session ==> Served(m, t, x)
  {
    hide Fits, Visit, Provided, Served, Complete;
    var t := Visit(m, u, s, e).0;
    SessionStaysSound(m, u, s, e);
    SessionIsReachableSet(m, u, s, e, {});
    forall x | x in t.core.session ensures Served(m, t, x) {
      ProvidedIsServed(m, t, u, x);
    }
  }

  lemma ProvidedIsServed<N, A, S>(m: Emerge<N, A, S>, t: Resolution<N, S>, u: set<N>, x: N)
    requires GoodResolution(t, u) && x in u && FlagsHold(t.core, u) && Provided(m, t.core, x) && Complete(t, x)
    ensures Served(m, t, x)
  {
    hide Hook, AllOf, Noted, Honoured, Current;
    forall p | p in AllOf(m.metadata(x).dependencies) ensures Met(t, x, p) {
      assert Supplied(t.core, x, p);
      if p.1.Need? {
        var y :| y in t.core.flags && (p.0, y) in AllOf(t.core.generators[x]) &&
          forall r :: r in p.1.uses ==> Noted(t.core.flags[y], r);
        forall r | r in p.1.uses ensures Honoured(t.core.flags[y], r) { NotedIsHonoured(t.core.flags[y], r); }
      }
    }
  }
}
