/** Exactly when a session returns normally, while atoms select the same ebuilds every time. */
module SessionOutcome {
  import opened Options
  import opened AtomRequirements
  import opened DependencyContainers
  import opened Regeneration
  import opened RequiredUse
  import opened ResolveModel
  import opened UseModel

  /** The ebuild that each atom selects, and the flags of every ebuild. */
  datatype Plan<!N, !A> = Plan(choose: A -> Option<N>, flags: map<N, Flags>)

  /** The selection depends on the atom alone. */
  ghost predicate Fixed<N, A(!new), S(!new)>(m: Emerge<N, A, S>, u: set<N>, plan: Plan<N, A>) {
    forall e, a, sel :: e in u ==> m.select(e, a, sel).0 == plan.choose(a)
  }

  function Choice<N, A>(plan: Plan<N, A>, d: Dependency<A>): Option<N> {
    if d.Need? then plan.choose(d.atom) else None
  }

  /** What one dependency expression adds to the list of generators. */
  function ChosenBy<N, A>(plan: Plan<N, A>, p: (nat, Dependency<A>)): (r: seq<(nat, N)>)
    ensures forall q :: q in r ==> q.0 == p.0
  {
    if Choice(plan, p.1).Some? then [(p.0, Choice(plan, p.1).value)] else []
  }

  /** The ebuilds that dependency expressions select. */
  function TargetList<N, A>(plan: Plan<N, A>, todo: seq<(nat, Dependency<A>)>): (r: seq<(nat, N)>)
    ensures (forall p :: p in todo ==> p.0 < 4) ==> forall q :: q in r ==> q.0 < 4
  {
    if todo == [] then []
    else ChosenBy(plan, todo[0]) + TargetList(plan, todo[1..])
  }

  function Targets<N, A, S>(m: Emerge<N, A, S>, plan: Plan<N, A>, x: N): DependencyContainer<N> {
    Filled(TargetList(plan, AllOf(m.metadata(x).dependencies)))
  }

  /** The dependency can be had as the flags stand: its atom selects an ebuild whose flags are as the atom asks; a
      condition is on a flag that the ebuild has. */
  predicate CanHave<N(==), A>(plan: Plan<N, A>, x: N, d: Dependency<A>) {
    match d
    case Need(a, uses) =>
      plan.choose(a).Some? && plan.choose(a).value in plan.flags &&
      forall r :: r in uses ==> AsAsked(plan.flags[plan.choose(a).value], r.name, r.option)
    case Guarded(name) => x in plan.flags && name in plan.flags[x]
    case _ => true
  }

  /** The ebuild's expression is accepted, and all its dependencies can be had, as the flags stand. */
  predicate Possible<N(==), A(==), S>(m: Emerge<N, A, S>, plan: Plan<N, A>, x: N) {
    && (m.metadata(x).requiredUse.Some? ==>
      x in plan.flags && Hook(plan.flags[x], m.metadata(x).requiredUse.value) == Accepted)
    && forall p :: p in AllOf(m.metadata(x).dependencies) ==> CanHave(plan, x, p.1)
  }

  /** No atom falls back on a default: the flags it asks for exist, or it names none. */
  predicate NoFallback<N(==), A>(plan: Plan<N, A>, d: Dependency<A>) {
    d.Need? && plan.choose(d.atom).Some? && plan.choose(d.atom).value in plan.flags ==>
      forall r :: r in d.uses ==> r.name in plan.flags[plan.choose(d.atom).value] || r.fallback == NoDefault
  }

  ghost predicate NoFallbacks<N, A, S>(m: Emerge<N, A, S>, u: set<N>, plan: Plan<N, A>) {
    forall x {:trigger m.metadata(x)} :: x in u ==>
      forall p :: p in AllOf(m.metadata(x).dependencies) ==> NoFallback(plan, p.1)
  }

  /** The flags are as planned, and nothing else is scheduled. */
  ghost predicate AsPlanned<N, A, S>(c: Core<N, S>, u: set<N>, plan: Plan<N, A>) {
    forall x :: x in u && x in c.flags ==> x in plan.flags && Calm(c.flags[x]) && Current(c.flags[x]) == plan.flags[x]
  }

  /** Members of the session and clean ebuilds have what they select for generators, and could have it. */
  ghost predicate Exact<N, A, S>(m: Emerge<N, A, S>, u: set<N>, plan: Plan<N, A>, c: Core<N, S>) {
    && AsPlanned(c, u, plan)
    && forall x {:trigger Settled(c, x)} :: x in u && x in c.generators && Settled(c, x) ==>
      c.generators[x] == Targets(m, plan, x) && Possible(m, plan, x)
  }

  ghost predicate DirtKept<N, S>(c: Core<N, S>, d: Core<N, S>, u: set<N>) {
    forall x :: x in u && x in c.flags && x in d.flags && c.flags[x].isDirty ==> d.flags[x].isDirty
  }

  lemma ExpandIff<N, A(!new), S(!new)>(m: Emerge<N, A, S>, u: set<N>, plan: Plan<N, A>, c: Core<N, S>, e: N,
                                       d: Dependency<A>)
    requires Fits(m, u) && Good(c, u) && e in u && Fixed(m, u, plan) && AsPlanned(c, u, plan) && NoFallback(plan, d)
    ensures Expand(m, u, c, e, d).2 == Returned <==> CanHave(plan, e, d)
    ensures Expand(m, u, c, e, d).2 == Returned ==>
      var (v, x, _) := Expand(m, u, c, e, d); AsPlanned(v, u, plan) && DirtKept(c, v, u) && x == Choice(plan, d)
  {
    hide Calm, Current, RequireAll, AsAsked, AllOf;
    match d
    case Need(a, uses) =>
      if plan.choose(a).Some? {
        var y := plan.choose(a).value;
        assert m.select(e, a, c.selected).0 == plan.choose(a);
        CalmAll(c.flags[y], uses);
        if c.flags[y].isDirty { DirtStays(c.flags[y], uses); }
      }
    case _ =>
  }

  lemma ExpandOneIff<N, A(!new), S(!new)>(m: Emerge<N, A, S>, u: set<N>, plan: Plan<N, A>, c: Core<N, S>, e: N,
                                          done: seq<(nat, N)>, p: (nat, Dependency<A>))
    requires Fits(m, u) && Good(c, u) && e in u && Fixed(m, u, plan) && AsPlanned(c, u, plan)
    requires p.0 < 4 && NoFallback(plan, p.1) && forall q :: q in done ==> q.0 < 4
    requires e in c.generators && c.generators[e] == Filled(done)
    ensures var (w, outcome) := ExpandOne(m, u, c, e, p);
      && (outcome == Returned <==> CanHave(plan, e, p.1))
      && (outcome == Returned ==>
        && AsPlanned(w, u, plan) && DirtKept(c, w, u)
        && e in w.generators && w.generators[e] == Filled(done + ChosenBy(plan, p)))
  {
    hide Fits, Fixed, AsPlanned, CanHave, Expand, Filled, NoFallback, AllOf;
    var (v, x, outcome) := Expand(m, u, c, e, p.1);
    ExpandIff(m, u, plan, c, e, p.1);
    if outcome == Returned {
      AsPlannedIn(v, WithGenerator(v, e, p.0, x), u, plan);
      if x.Some? { FilledOneMore(done, (p.0, x.value)); } else { assert done + ChosenBy(plan, p) == done; }
    }
  }

  lemma {:induction false} ExpandAllIff<N, A(!new), S(!new)>(m: Emerge<N, A, S>, u: set<N>, plan: Plan<N, A>,
                                                             c: Core<N, S>, e: N, done: seq<(nat, N)>,
                                                             todo: seq<(nat, Dependency<A>)>)
    requires Fits(m, u) && Good(c, u) && e in u && Fixed(m, u, plan) && AsPlanned(c, u, plan)
    requires forall p :: p in todo ==> p.0 < 4 && NoFallback(plan, p.1)
    requires forall q :: q in done + TargetList(plan, todo) ==> q.0 < 4
    requires forall q :: q in done ==> q.0 < 4
    requires e in c.generators && c.generators[e] == Filled(done)
    ensures var (d, outcome) := ExpandAll(m, u, c, e, todo);
      && (outcome == Returned <==> forall p :: p in todo ==> CanHave(plan, e, p.1))
      && (outcome == Returned ==>
        && AsPlanned(d, u, plan) && DirtKept(c, d, u)
        && e in d.generators && d.generators[e] == Filled(done + TargetList(plan, todo)))
    decreases |todo|
  {
    hide Fits, Good, Fixed, AsPlanned, CanHave, ExpandOne, Filled, NoFallback, DirtKept, ChosenBy, AllOf;
    if todo == [] {
      assert done + TargetList(plan, todo) == done;
      DirtKeptItself(c, u);
    } else {
      var (w, outcome) := ExpandOne(m, u, c, e, todo[0]);
      ExpandOneIff(m, u, plan, c, e, done, todo[0]);
      assert forall p :: p in todo <==> p == todo[0] || p in todo[1..];
      if outcome == Returned {
        var done' := done + ChosenBy(plan, todo[0]);
        assert done + TargetList(plan, todo) == done' + TargetList(plan, todo[1..]);
        ExpandAllIff(m, u, plan, w, e, done', todo[1..]);
        var (d, last) := ExpandAll(m, u, w, e, todo[1..]);
        if last == Returned { DirtKeptOn(c, w, d, u); }
      }
    }
  }

  lemma DirtKeptItself<N, S>(c: Core<N, S>, u: set<N>)
    ensures DirtKept(c, c, u)
  {
  }

  lemma DirtKeptOn<N, S>(c: Core<N, S>, d: Core<N, S>, v: Core<N, S>, u: set<N>)
    requires Good(d, u) && DirtKept(c, d, u) && DirtKept(d, v, u)
    ensures DirtKept(c, v, u)
  {
    hide AllOf;
  }

  lemma AsPlannedIn<N, A, S>(c: Core<N, S>, d: Core<N, S>, u: set<N>, plan: Plan<N, A>)
    requires AsPlanned(c, u, plan) && d.flags == c.flags
    ensures AsPlanned(d, u, plan)
  {
  }

  /** Bringing calm flags up to date changes none; it returns normally exactly when the expression is accepted. */
  lemma RefreshIff<N, A, S>(m: Emerge<N, A, S>, u: set<N>, plan: Plan<N, A>, c: Core<N, S>, e: N)
    requires Good(c, u) && e in u && AsPlanned(c, u, plan)
    ensures e in c.flags && e in plan.flags
    ensures var (f, outcome) := Refresh(c.flags[e], m.metadata(e).requiredUse);
      && (outcome == Returned <==> m.metadata(e).requiredUse.Some? ==>
        Hook(plan.flags[e], m.metadata(e).requiredUse.value) == Accepted)
      && AsPlanned(c.(flags := c.flags[e := f]), u, plan)
  {
    hide Hook, Refresh, Calm, Current, AllOf;
    CalmRefresh(c.flags[e], m.metadata(e).requiredUse);
  }

  lemma CleanedAsPlanned<N, A, S>(c: Core<N, S>, u: set<N>, plan: Plan<N, A>, e: N)
    requires Good(c, u) && e in u && AsPlanned(c, u, plan)
    ensures e in c.flags && AsPlanned(c.(flags := c.flags[e := c.flags[e].(isDirty := false)]), u, plan)
  {
    hide AllOf;
  }

  ghost predicate OthersDirtKept<N, S>(c: Core<N, S>, d: Core<N, S>, u: set<N>, e: N) {
    forall x :: x in u && x != e && x in c.flags && x in d.flags && c.flags[x].isDirty ==> d.flags[x].isDirty
  }

  /** The second half of a regeneration: the dependencies are expanded, and the ebuild is clean. */
  lemma ExpandAndCleanIff<N, A(!new), S(!new)>(m: Emerge<N, A, S>, u: set<N>, plan: Plan<N, A>, c: Core<N, S>, e: N)
    requires Fits(m, u) && Good(c, u) && e in u && Fixed(m, u, plan) && AsPlanned(c, u, plan)
    requires NoFallbacks(m, u, plan) && e in c.generators && c.generators[e] == Empty()
    ensures var todo := AllOf(m.metadata(e).dependencies);
      var (d, outcome) := ExpandAll(m, u, c, e, todo);
      && (outcome == Returned <==> forall p :: p in todo ==> CanHave(plan, e, p.1))
      && (outcome == Returned ==>
        && e in d.flags && e in d.generators && d.generators[e] == Targets(m, plan, e)
        && var d' := d.(flags := d.flags[e := d.flags[e].(isDirty := false)]);
          AsPlanned(d', u, plan) && OthersDirtKept(c, d', u, e))
  {
    hide Fits, Fixed, AsPlanned, CanHave, ExpandAll, Filled, NoFallback, AllOf;
    NothingFilled<N>();
    var todo := AllOf(m.metadata(e).dependencies);
    var none: seq<(nat, N)> := [];
    assert none + TargetList(plan, todo) == TargetList(plan, todo);
    ExpandAllIff(m, u, plan, c, e, none, todo);
    if ExpandAll(m, u, c, e, todo).1 == Returned { CleanedAsPlanned(ExpandAll(m, u, c, e, todo).0, u, plan, e); }
  }

  lemma RebuildIff<N, A(!new), S(!new)>(m: Emerge<N, A, S>, u: set<N>, plan: Plan<N, A>, c: Core<N, S>, e: N)
    requires Fits(m, u) && Good(c, u) && e in u && Fixed(m, u, plan) && AsPlanned(c, u, plan)
    requires NoFallbacks(m, u, plan)
    ensures var (d, outcome) := Rebuild(m, u, c, e);
      && (outcome == Returned <==> Possible(m, plan, e))
      && (outcome == Returned ==>
        && AsPlanned(d, u, plan) && OthersDirtKept(c, d, u, e)
        && e in d.generators && d.generators[e] == Targets(m, plan, e))
  {
    hide Fits, Fixed, Within, AsPlanned, NoFallbacks, CanHave, ExpandAll, Targets, AllOf, Refresh, Hook;
    RefreshIff(m, u, plan, c, e);
    EmptyWithin(u);
    var (f, refreshed) := Refresh(c.flags[e], m.metadata(e).requiredUse);
    if refreshed == Returned {
      var c1 := c.(generators := c.generators[e := Empty()], flags := c.flags[e := f]);
      AsPlannedIn(c.(flags := c.flags[e := f]), c1, u, plan);
      ExpandAndCleanIff(m, u, plan, c1, e);
    }
  }

  lemma StartIff<N, A(!new), S(!new)>(m: Emerge<N, A, S>, u: set<N>, plan: Plan<N, A>, c: Core<N, S>, e: N)
    requires Fits(m, u) && Good(c, u) && e in u && Fixed(m, u, plan) && NoFallbacks(m, u, plan)
    requires Exact(m, u, plan, c)
    ensures Start(m, u, c, e).1 == Returned <==> Possible(m, plan, e)
    ensures Start(m, u, c, e).1 == Returned ==> Exact(m, u, plan, Start(m, u, c, e).0)
  {
    hide Fits, Fixed, NoFallbacks, AsPlanned, Possible, Targets, Rebuild;
    var c1, d := c.(session := c.session + {e}), Start(m, u, c, e).0;
    AsPlannedIn(c, c1, u, plan);
    if c.flags[e].isDirty {
      RebuildIff(m, u, plan, c1, e);
      if Start(m, u, c, e).1 == Returned {
        forall x | x in u && x in d.generators && Settled(d, x)
          ensures d.generators[x] == Targets(m, plan, x) && Possible(m, plan, x)
        {
          if x != e { assert Settled(c, x); }
        }
      }
    } else {
      assert Settled(c, e);
      forall x | x in u && x in d.generators && Settled(d, x)
        ensures d.generators[x] == Targets(m, plan, x) && Possible(m, plan, x)
      {
        assert Settled(c, x);
      }
    }
  }

  lemma {:induction false} ReplayExact<N, A(!new), S(!new)>(m: Emerge<N, A, S>, u: set<N>, plan: Plan<N, A>,
                                                            c: Core<N, S>, trace: seq<N>)
    requires Fits(m, u) && Good(c, u) && Fixed(m, u, plan) && NoFallbacks(m, u, plan) && Exact(m, u, plan, c)
    requires (forall x :: x in trace ==> x in u) && Replay(m, u, c, trace).1 == Returned
    ensures Exact(m, u, plan, Replay(m, u, c, trace).0)
    decreases |trace|
  {
    hide Fits, Good, Fixed, NoFallbacks, Exact, Start;
    if trace != [] {
      StartIff(m, u, plan, c, trace[0]);
      ReplayExact(m, u, plan, Start(m, u, c, trace[0]).0, trace[1..]);
    }
  }

  /** Where a run stops, one ebuild of the session is not possible, and all others are as selected. */
  lemma {:induction false} ReplayFails<N, A(!new), S(!new)>(m: Emerge<N, A, S>, u: set<N>, plan: Plan<N, A>,
                                                            c: Core<N, S>, trace: seq<N>)
    returns (bad: N)
    requires Fits(m, u) && Good(c, u) && Fixed(m, u, plan) && NoFallbacks(m, u, plan) && Exact(m, u, plan, c)
    requires (forall x :: x in trace ==> x in u) && Replay(m, u, c, trace).1 != Returned
    ensures var d := Replay(m, u, c, trace).0;
      bad in d.session && !Possible(m, plan, bad) && AsSelected(m, plan, d, d.session - {bad})
    decreases |trace|
  {
    hide Fits, Fixed, NoFallbacks, Exact, Start, Possible, Targets, Within;
    var d, outcome := Start(m, u, c, trace[0]).0, Start(m, u, c, trace[0]).1;
    StartIff(m, u, plan, c, trace[0]);
    if outcome == Returned {
      bad := ReplayFails(m, u, plan, d, trace[1..]);
    } else {
      bad := trace[0];
      forall x {:trigger d.generators[x]} | x in d.session - {bad} && x in d.generators
        ensures d.generators[x] == Targets(m, plan, x)
      {
        MemberExact(m, u, plan, c, x);
      }
    }
  }

  lemma MemberExact<N, A, S>(m: Emerge<N, A, S>, u: set<N>, plan: Plan<N, A>, c: Core<N, S>, x: N)
    requires Good(c, u) && Exact(m, u, plan, c) && x in c.session
    ensures x in c.generators && c.generators[x] == Targets(m, plan, x) && Possible(m, plan, x)
  {
    hide Possible, Targets, AllOf;
    assert Settled(c, x);
  }

  /** With an ebuild, the set holds what the ebuild selects. */
  ghost predicate Closed<N, A, S>(m: Emerge<N, A, S>, plan: Plan<N, A>, c: set<N>) {
    forall x {:trigger Targets(m, plan, x)} :: x in c ==> Within(Targets(m, plan, x), c)
  }

  /** A set of ebuilds that could be installed together. */
  ghost predicate Consistent<N, A, S>(m: Emerge<N, A, S>, plan: Plan<N, A>, c: set<N>) {
    Closed(m, plan, c) && forall x {:trigger Possible(m, plan, x)} :: x in c ==> Possible(m, plan, x)
  }

  lemma SessionIsConsistent<N, A(!new), S(!new)>(m: Emerge<N, A, S>, u: set<N>, plan: Plan<N, A>,
                                                 s: Resolution<N, S>, e: N)
    requires Fits(m, u) && GoodResolution(s, u) && e in u && s.core.session == {}
    requires Visit(m, u, s, e).1 == Returned && Exact(m, u, plan, Visit(m, u, s, e).0.core)
    ensures var c := Visit(m, u, s, e).0.core.session; e in c && c <= u && Consistent(m, plan, c)
  {
    hide Fits, Exact, Possible, Targets, Visit, AllOf;
    var t := Visit(m, u, s, e).0;
    SessionIsReachableSet(m, u, s, e, {});
    forall x | x in t.core.session ensures Possible(m, plan, x) && Within(Targets(m, plan, x), t.core.session) {
      MemberExact(m, u, plan, t.core, x);
      assert Complete(t, x);
    }
  }

  /** The members of the session that are also in `c` have what they select for generators. */
  ghost predicate AsSelected<N, A, S>(m: Emerge<N, A, S>, plan: Plan<N, A>, d: Core<N, S>, c: set<N>) {
    forall x {:trigger d.generators[x]} :: x in d.session && x in c && x in d.generators ==>
      d.generators[x] == Targets(m, plan, x)
  }

  /** Then a closed set `c` with the ebuild holds the session. */
  lemma SessionWithin<N, A(!new), S(!new)>(m: Emerge<N, A, S>, u: set<N>, plan: Plan<N, A>, s: Resolution<N, S>, e: N,
                                           c: set<N>)
    requires Fits(m, u) && GoodResolution(s, u) && e in u && s.core.session == {} && e in c && Closed(m, plan, c)
    requires AsSelected(m, plan, Visit(m, u, s, e).0.core, c)
    ensures Visit(m, u, s, e).0.core.session <= c
  {
    hide Fits, Targets, Visit, Within;
    var t := Visit(m, u, s, e).0;
    forall x {:trigger t.core.generators[x]} | x in t.core.session && x in c && x in t.core.generators
      ensures Within(t.core.generators[x], c)
    {
      assert t.core.generators[x] == Targets(m, plan, x);
    }
    VisitMinimal(m, u, s, e, c);
  }

  lemma ExactAgain<N, A, S>(m: Emerge<N, A, S>, u: set<N>, plan: Plan<N, A>, t: Resolution<N, S>)
    requires Exact(m, u, plan, t.core)
    ensures Exact(m, u, plan, Restarted(t).core)
  {
    hide AsPlanned, Possible, Targets;
    var d := Restarted(t).core;
    AsPlannedIn(t.core, d, u, plan);
    forall x | x in u && x in d.generators && Settled(d, x)
      ensures d.generators[x] == Targets(m, plan, x) && Possible(m, plan, x)
    {
      assert Settled(t.core, x);
    }
  }

  /** A new session returns normally exactly when the ebuild belongs to a set of ebuilds that is closed under what they
      select and in which each is possible. Then the session is the least closed set with the ebuild, and no flag of
      any ebuild has changed. */
  lemma SessionReturnsIff<N, A(!new), S(!new)>(m: Emerge<N, A, S>, u: set<N>, plan: Plan<N, A>, s: Resolution<N, S>,
                                               e: N)
    requires Fits(m, u) && GoodResolution(s, u) && e in u && s.core.session == {}
    requires Fixed(m, u, plan) && NoFallbacks(m, u, plan) && Exact(m, u, plan, s.core)
    ensures Visit(m, u, s, e).1 == Returned <==> exists c: set<N> :: e in c && c <= u && Consistent(m, plan, c)
    ensures var t := Visit(m, u, s, e).0;
      Visit(m, u, s, e).1 == Returned ==>
        && e in t.core.session && Closed(m, plan, t.core.session)
        && (forall c: set<N> :: e in c && Closed(m, plan, c) ==> t.core.session <= c)
        && AsPlanned(t.core, u, plan) && Exact(m, u, plan, Restarted(t).core)
  {
    hide Fits, Fixed, NoFallbacks, Exact, Closed, Visit, AsPlanned, Good, Targets, Possible;
    var (t, outcome) := Visit(m, u, s, e);
    var trace := VisitIsReplay(m, u, s, e);
    if outcome == Returned {
      ReplayExact(m, u, plan, s.core, trace);
      SessionIsConsistent(m, u, plan, s, e);
      forall c: set<N> | e in c && Closed(m, plan, c) ensures t.core.session <= c {
        forall x {:trigger t.core.generators[x]} | x in t.core.session && x in t.core.generators
          ensures t.core.generators[x] == Targets(m, plan, x)
        {
          MemberExact(m, u, plan, t.core, x);
        }
        SessionWithin(m, u, plan, s, e, c);
      }
      ExactAgain(m, u, plan, t);
      ExactIsAsPlanned(m, u, plan, t.core);
    } else if c: set<N> :| e in c && c <= u && Consistent(m, plan, c) {
      var bad := ReplayFails(m, u, plan, s.core, trace);
      if bad !in c { SessionWithin(m, u, plan, s, e, c); }
    }
  }

  lemma ExactIsAsPlanned<N, A, S>(m: Emerge<N, A, S>, u: set<N>, plan: Plan<N, A>, c: Core<N, S>)
    requires Exact(m, u, plan, c)
    ensures AsPlanned(c, u, plan)
  {
  }

  // ----- no flag changes

  ghost predicate CalmFlags<N, S>(c: Core<N, S>, u: set<N>) { forall x :: x in u && x in c.flags ==> Calm(c.flags[x]) }

  ghost predicate FlagsGrow<N, S>(c: Core<N, S>, d: Core<N, S>, u: set<N>) {
    forall x :: x in u && x in c.flags && x in d.flags ==> Grows(Current(c.flags[x]), Current(d.flags[x]))
  }

  lemma GrowOn<N, S>(c: Core<N, S>, d: Core<N, S>, v: Core<N, S>, u: set<N>)
    requires d.flags.Keys == u && FlagsGrow(c, d, u) && FlagsGrow(d, v, u)
    ensures FlagsGrow(c, v, u)
  {
    hide Current;
  }

  lemma ExpandGrows<N, A(!new), S(!new)>(m: Emerge<N, A, S>, u: set<N>, c: Core<N, S>, e: N, p: (nat, Dependency<A>))
    requires Fits(m, u) && Good(c, u) && e in u && CalmFlags(c, u) && p.0 < 4
    requires ExpandOne(m, u, c, e, p).1 == Returned
    ensures var v := ExpandOne(m, u, c, e, p).0; CalmFlags(v, u) && FlagsGrow(c, v, u)
  {
    hide Calm, Current, RequireAll, AllOf;
    if p.1.Need? { CalmAll(c.flags[Expand(m, u, c, e, p.1).1.value], p.1.uses); }
  }

  lemma {:induction false} ExpandAllGrows<N, A(!new), S(!new)>(m: Emerge<N, A, S>, u: set<N>, c: Core<N, S>, e: N,
                                                               todo: seq<(nat, Dependency<A>)>)
    requires Fits(m, u) && Good(c, u) && e in u && CalmFlags(c, u) && forall p :: p in todo ==> p.0 < 4
    requires ExpandAll(m, u, c, e, todo).1 == Returned
    ensures var d := ExpandAll(m, u, c, e, todo).0; CalmFlags(d, u) && FlagsGrow(c, d, u)
    decreases |todo|
  {
    hide Fits, ExpandOne, AllOf, Calm, Current;
    if todo != [] {
      var w := ExpandOne(m, u, c, e, todo[0]).0;
      ExpandGrows(m, u, c, e, todo[0]);
      ExpandAllGrows(m, u, w, e, todo[1..]);
      GrowOn(c, w, ExpandAll(m, u, w, e, todo[1..]).0, u);
    }
  }

  lemma RefreshGrows<N, S>(u: set<N>, c: Core<N, S>, e: N, requiredUse: Option<seq<Expr>>)
    requires Good(c, u) && e in u && CalmFlags(c, u)
    ensures var d := c.(generators := c.generators[e := Empty()],
                        flags := c.flags[e := Refresh(c.flags[e], requiredUse).0]);
      Good(d, u) && CalmFlags(d, u) && FlagsGrow(c, d, u)
  {
    hide AllOf, Calm, Current, Refresh;
    EmptyWithin(u);
    CalmRefresh(c.flags[e], requiredUse);
  }

  lemma CleanedGrows<N, S>(u: set<N>, c: Core<N, S>, e: N)
    requires Good(c, u) && e in u && CalmFlags(c, u)
    ensures var d := c.(flags := c.flags[e := c.flags[e].(isDirty := false)]); CalmFlags(d, u) && FlagsGrow(c, d, u)
  {
    hide AllOf;
  }

  lemma RebuildGrows<N, A(!new), S(!new)>(m: Emerge<N, A, S>, u: set<N>, c: Core<N, S>, e: N)
    requires Fits(m, u) && Good(c, u) && e in u && CalmFlags(c, u) && Rebuild(m, u, c, e).1 == Returned
    ensures var d := Rebuild(m, u, c, e).0; CalmFlags(d, u) && FlagsGrow(c, d, u)
  {
    hide Fits, Within, ExpandAll, AllOf, CalmFlags, FlagsGrow, Refresh;
    var data := m.metadata(e);
    RefreshGrows(u, c, e, data.requiredUse);
    var f := Refresh(c.flags[e], data.requiredUse).0;
    var c1 := c.(generators := c.generators[e := Empty()], flags := c.flags[e := f]);
    var todo := AllOf(data.dependencies);
    ExpandAllGrows(m, u, c1, e, todo);
    var c2, d := ExpandAll(m, u, c1, e, todo).0, Rebuild(m, u, c, e).0;
    CleanedGrows(u, c2, e);
    GrowOn(c, c1, c2, u);
    GrowOn(c, c2, d, u);
  }

  lemma {:induction false} ReplayGrows<N, A(!new), S(!new)>(m: Emerge<N, A, S>, u: set<N>, c: Core<N, S>, trace: seq<N>)
    requires Fits(m, u) && Good(c, u) && CalmFlags(c, u) && forall x :: x in trace ==> x in u
    requires Replay(m, u, c, trace).1 == Returned
    ensures var d := Replay(m, u, c, trace).0; CalmFlags(d, u) && FlagsGrow(c, d, u)
    decreases |trace|
  {
    hide Fits, Rebuild, AllOf, Calm, Current;
    if trace != [] {
      var c1, d := c.(session := c.session + {trace[0]}), Start(m, u, c, trace[0]).0;
      if c.flags[trace[0]].isDirty { RebuildGrows(m, u, c1, trace[0]); }
      ReplayGrows(m, u, d, trace[1..]);
      GrowOn(c, d, Replay(m, u, d, trace[1..]).0, u);
    }
  }

  /** A session that returns normally changes no flag of any ebuild, as long as nothing was scheduled before it that
      does; flags may be added, with their defaults. A requirement that would change a flag raises at once. */
  lemma SessionChangesNoFlag<N, A(!new), S(!new)>(m: Emerge<N, A, S>, u: set<N>, s: Resolution<N, S>, e: N, x: N)
    requires Fits(m, u) && GoodResolution(s, u) && e in u && x in u && CalmFlags(s.core, u)
    requires Visit(m, u, s, e).1 == Returned
    ensures var t := Visit(m, u, s, e).0;
      && x in s.core.flags && x in t.core.flags && Calm(t.core.flags[x])
      && Grows(Current(s.core.flags[x]), Current(t.core.flags[x]))
  {
    hide Fits, Visit, Calm, Current, AllOf;
    var trace := VisitIsReplay(m, u, s, e);
    ReplayGrows(m, u, s.core, trace);
  }
}
