/** The resolution session over ebuild objects: get_resolved, regenerate and the expansion of dependencies, which
    change the ebuilds in place. */
module Resolver {
  import opened Options
  import opened DependencyContainers
  import opened Regeneration
  import RequiredUse
  import opened ResolveModel
  import opened SelectedEbuilds
  import opened UseModel

  class PackageResolutionSession {
    var currentResolution: set<SelectedEbuild>

    constructor ()
      ensures currentResolution == {}
    {
      currentResolution := {};
    }

    method CheckResolved(ebuild: SelectedEbuild) returns (r: bool)
      ensures r <==> ebuild in currentResolution
    {
      r := ebuild in currentResolution;
    }

    method AddToSession(ebuild: SelectedEbuild)
      modifies this
      ensures currentResolution == old(currentResolution) + {ebuild}
    {
      currentResolution := currentResolution + {ebuild};
    }
  }

  ghost function GeneratorsOf(u: set<SelectedEbuild>): map<SelectedEbuild, DependencyContainer<SelectedEbuild>>
    reads u`generators
  {
    map x | x in u :: x.generators
  }

  ghost function ResolvedOf(u: set<SelectedEbuild>): map<SelectedEbuild, DependencyContainer<SelectedEbuild>>
    reads u`resolvedDeps
  {
    map x | x in u :: x.resolvedDeps
  }

  ghost function FlagsOf(u: set<SelectedEbuild>): map<SelectedEbuild, UseModel.State>
    reads u`useflags, u`useFlagHooks, u`globalFlagHooks, u`flags, u`isDirty
  {
    map x | x in u :: x.View()
  }

  /** The objects, and what atoms have selected so far, as the model's state. */
  ghost function View<S>(session: PackageResolutionSession, u: set<SelectedEbuild>, selected: S)
    : Resolution<SelectedEbuild, S>
    reads session, u
  {
    Resolution(Core(session.currentResolution, GeneratorsOf(u), FlagsOf(u), selected), ResolvedOf(u))
  }

  ghost function CoreOf<S>(session: PackageResolutionSession, u: set<SelectedEbuild>, selected: S)
    : Core<SelectedEbuild, S>
    reads session, u
  {
    View(session, u, selected).core
  }

  lemma ViewMembers<S>(session: PackageResolutionSession, u: set<SelectedEbuild>, selected: S, e: SelectedEbuild)
    requires e in u
    ensures var s := View(session, u, selected);
      && s.core.session == session.currentResolution && s.core.selected == selected
      && e in s.core.flags && s.core.flags[e] == e.View() && s.core.flags[e].isDirty == e.isDirty
      && e in s.core.generators && s.core.generators[e] == e.generators
      && e in s.resolved && s.resolved[e] == e.resolvedDeps
  {
  }

  lemma ViewSelected<S>(session: PackageResolutionSession, u: set<SelectedEbuild>, selected: S, selected': S)
    ensures var s := View(session, u, selected);
      View(session, u, selected') == s.(core := s.core.(selected := selected'))
  {
  }

  // ----- one object changes

  method SetGenerators<S>(session: PackageResolutionSession, ghost u: set<SelectedEbuild>, ghost selected: S,
                          e: SelectedEbuild, generators: DependencyContainer<SelectedEbuild>)
    requires e in u
    modifies e`generators
    ensures var s := old(View(session, u, selected));
      View(session, u, selected) == s.(core := s.core.(generators := s.core.generators[e := generators]))
  {
    hide FlagsOf, ResolvedOf;
    e.generators := generators;
  }

  method SetResolved<S>(session: PackageResolutionSession, ghost u: set<SelectedEbuild>, ghost selected: S,
                        e: SelectedEbuild, resolved: DependencyContainer<SelectedEbuild>)
    requires e in u
    modifies e`resolvedDeps
    ensures var s := old(View(session, u, selected));
      View(session, u, selected) == s.(resolved := s.resolved[e := resolved])
  {
    hide FlagsOf, GeneratorsOf;
    e.resolvedDeps := resolved;
  }

  /** The state in which the flags of one ebuild are `f`. */
  ghost function WithFlags<N, S>(s: Resolution<N, S>, e: N, f: UseModel.State): Resolution<N, S> {
    s.(core := s.core.(flags := s.core.flags[e := f]))
  }

  method SetClean<S>(session: PackageResolutionSession, ghost u: set<SelectedEbuild>, ghost selected: S,
                     e: SelectedEbuild)
    requires e in u
    modifies e`isDirty
    ensures View(session, u, selected) ==
      WithFlags(old(View(session, u, selected)), e, old(e.View()).(isDirty := false))
  {
    hide GeneratorsOf, ResolvedOf;
    e.isDirty := false;
  }

  method RefreshFlags<S>(session: PackageResolutionSession, ghost u: set<SelectedEbuild>, ghost selected: S,
                         e: SelectedEbuild, requiredUse: Option<seq<RequiredUse.Expr>>)
    returns (outcome: Outcome)
    requires e in u
    modifies e`flags, e`useflags, e`globalFlagHooks
    ensures var (f, o) := Refresh(old(e.View()), requiredUse);
      outcome == o && View(session, u, selected) == WithFlags(old(View(session, u, selected)), e, f)
  {
    hide Refresh, GeneratorsOf, ResolvedOf;
    outcome := e.Refresh(requiredUse);
  }

  method RequireOn<S>(session: PackageResolutionSession, ghost u: set<SelectedEbuild>, ghost selected: S,
                      x: SelectedEbuild, uses: seq<AtomRequirements.Requirement>)
    returns (outcome: Outcome)
    requires x in u
    modifies x`useflags, x`flags, x`isDirty, x`useFlagHooks
    ensures var (f, o) := AtomRequirements.RequireAll(old(x.View()), uses);
      outcome == o && View(session, u, selected) == WithFlags(old(View(session, u, selected)), x, f)
  {
    hide AtomRequirements.RequireAll, GeneratorsOf, ResolvedOf;
    outcome := x.RequireAll(uses);
  }

  // ----- the expansion of dependencies

  /** resolve_single: what a dependency expression selects, with its requirements. */
  method ResolveSingle<A(!new), S(!new)>(m: Emerge<SelectedEbuild, A, S>, session: PackageResolutionSession,
                                         ghost u: set<SelectedEbuild>, e: SelectedEbuild, selected: S,
                                         d: Dependency<A>)
    returns (selected': S, x: Option<SelectedEbuild>, outcome: Outcome)
    requires Fits(m, u) && GoodResolution(View(session, u, selected), u) && e in u
    modifies u`useflags, u`flags, u`isDirty, u`useFlagHooks
    ensures View(session, u, selected').resolved == old(View(session, u, selected)).resolved
    ensures (CoreOf(session, u, selected'), x, outcome) == Expand(m, u, old(CoreOf(session, u, selected)), e, d)
  {
    hide View, Within, Current, AtomRequirements.RequireAll;
    ViewMembers(session, u, selected, e);
    selected', x, outcome := selected, None, Returned;
    match d {
      case Need(a, uses) =>
        x, selected' := m.select(e, a, selected).0, m.select(e, a, selected).1;
        ViewSelected(session, u, selected, selected');
        if x.None? {
          return selected', x, SelectionException;
        }
        assert m.select(e, a, selected).0.Some?;
        ViewMembers(session, u, selected', x.value);
        outcome := RequireOn(session, u, selected', x.value, uses);
      case Blocker(a) =>
        selected' := m.addBlock(e, a, selected);
        ViewSelected(session, u, selected, selected');
      case Guarded(name) =>
        var state := e.GetUse(name);
        outcome := if state.None? then KeyError else Returned;
      case Group =>
    }
  }

  /** Expands one dependency expression and appends what it selects to the generators. */
  method ResolveNext<A(!new), S(!new)>(m: Emerge<SelectedEbuild, A, S>, session: PackageResolutionSession,
                                       ghost u: set<SelectedEbuild>, e: SelectedEbuild, selected: S,
                                       p: (nat, Dependency<A>))
    returns (selected': S, outcome: Outcome)
    requires Fits(m, u) && GoodResolution(View(session, u, selected), u) && e in u && p.0 < 4
    modifies u`useflags, u`flags, u`isDirty, u`useFlagHooks, e`generators
    ensures View(session, u, selected').resolved == old(View(session, u, selected)).resolved
    ensures (CoreOf(session, u, selected'), outcome) == ExpandOne(m, u, old(CoreOf(session, u, selected)), e, p)
  {
    hide View, Fits, Good, Expand, AllOf;
    var x;
    selected', x, outcome := ResolveSingle(m, session, u, e, selected, p.1);
    ViewMembers(session, u, selected', e);
    if outcome == Returned && x.Some? {
      SetGenerators(session, u, selected', e, e.generators.Append(p.0, x.value));
    }
  }

  /** resolve_all, list after list. */
  method ResolveAll<A(!new), S(!new)>(m: Emerge<SelectedEbuild, A, S>, session: PackageResolutionSession,
                                      ghost u: set<SelectedEbuild>, e: SelectedEbuild, selected: S,
                                      todo: seq<(nat, Dependency<A>)>)
    returns (selected': S, outcome: Outcome)
    requires Fits(m, u) && GoodResolution(View(session, u, selected), u) && e in u
    requires forall p :: p in todo ==> p.0 < 4
    modifies u`useflags, u`flags, u`isDirty, u`useFlagHooks, e`generators
    ensures View(session, u, selected').resolved == old(View(session, u, selected)).resolved
    ensures (CoreOf(session, u, selected'), outcome) ==
      ExpandAll(m, u, old(CoreOf(session, u, selected)), e, todo)
  {
    hide View, Fits, Good, ExpandOne, AllOf;
    selected', outcome := selected, Returned;
    ghost var c := CoreOf(session, u, selected);
    var i := 0;
    while i < |todo|
      invariant 0 <= i <= |todo| && outcome == Returned
      invariant GoodResolution(View(session, u, selected'), u)
      invariant View(session, u, selected').resolved == old(View(session, u, selected)).resolved
      invariant ExpandAll(m, u, c, e, todo) == ExpandAll(m, u, CoreOf(session, u, selected'), e, todo[i..])
    {
      assert todo[i..][1..] == todo[i + 1..];
      selected', outcome := ResolveNext(m, session, u, e, selected', todo[i]);
      if outcome != Returned {
        return;
      }
      i := i + 1;
    }
  }

  /** The part of regenerate that a dirty ebuild runs. */
  method RebuildGenerators<A(!new), S(!new)>(m: Emerge<SelectedEbuild, A, S>, session: PackageResolutionSession,
                                             ghost u: set<SelectedEbuild>, e: SelectedEbuild, selected: S)
    returns (selected': S, outcome: Outcome)
    requires Fits(m, u) && GoodResolution(View(session, u, selected), u) && e in u
    modifies u`useflags, u`flags, u`isDirty, u`useFlagHooks, u`globalFlagHooks, u`generators
    ensures View(session, u, selected').resolved == old(View(session, u, selected)).resolved
    ensures (CoreOf(session, u, selected'), outcome) == Rebuild(m, u, old(CoreOf(session, u, selected)), e)
  {
    hide View, Fits, ExpandAll, AllOf, Refresh;
    ViewMembers(session, u, selected, e);
    EmptyWithin(u);
    selected' := selected;
    SetGenerators(session, u, selected, e, Empty());
    outcome := RefreshFlags(session, u, selected, e, m.metadata(e).requiredUse);
    if outcome != Returned {
      return;
    }
    selected', outcome := ResolveAll(m, session, u, e, selected, AllOf(m.metadata(e).dependencies));
    if outcome != Returned {
      return;
    }
    ViewMembers(session, u, selected', e);
    SetClean(session, u, selected', e);
  }

  // ----- the walk

  /** get_resolved: an ebuild that the session has seen is not visited again. */
  method GetResolved<A(!new), S(!new)>(m: Emerge<SelectedEbuild, A, S>, session: PackageResolutionSession,
                                       ghost u: set<SelectedEbuild>, e: SelectedEbuild, selected: S)
    returns (selected': S, outcome: Outcome)
    requires Fits(m, u) && GoodResolution(View(session, u, selected), u) && e in u
    modifies session, u
    ensures (View(session, u, selected'), outcome) == Visit(m, u, old(View(session, u, selected)), e)
    decreases u - session.currentResolution, 0
  {
    hide Fits, GoodResolution, Visit, VisitList, GeneratorsOf, FlagsOf, ResolvedOf;
    ghost var s := View(session, u, selected);
    var seen := session.CheckResolved(e);
    if seen {
      VisitSeen(m, u, s, e);
      return selected, Returned;
    }
    session.AddToSession(e);
    selected', outcome := Regenerate(m, session, u, e, selected, s);
  }

  lemma JoinedIsGood<N, S>(s: Resolution<N, S>, u: set<N>, e: N)
    requires GoodResolution(s, u) && e in u
    ensures GoodResolution(s.(core := s.core.(session := s.core.session + {e})), u)
  {
    hide AllOf;
  }

  /** regenerate: rebuilds the generators of a dirty ebuild, then resolves all generators anew, list after list. */
  method Regenerate<A(!new), S(!new)>(m: Emerge<SelectedEbuild, A, S>, session: PackageResolutionSession,
                                      ghost u: set<SelectedEbuild>, e: SelectedEbuild, selected: S,
                                      ghost s: Resolution<SelectedEbuild, S>)
    returns (selected': S, outcome: Outcome)
    requires Fits(m, u) && GoodResolution(s, u) && e in u && e !in s.core.session
    requires View(session, u, selected) == s.(core := s.core.(session := s.core.session + {e}))
    modifies session, u
    ensures (View(session, u, selected'), outcome) == Visit(m, u, s, e)
    decreases u - session.currentResolution, 2
  {
    hide Fits, GoodResolution, Visit, VisitList, View, Rebuild, AllOf;
    JoinedIsGood(s, u, e);
    UnfoldVisit(m, u, s, e);
    ViewMembers(session, u, selected, e);
    selected', outcome := selected, Returned;
    if e.isDirty {
      selected', outcome := RebuildGenerators(m, session, u, e, selected);
    }
    if outcome != Returned {
      return;
    }
    SetResolved(session, u, selected', e, Empty());
    ViewMembers(session, u, selected', e);
    selected', outcome := ResolveGenerators(m, session, u, e, selected', AllOf(e.generators));
  }

  /** Resolves the generators one after the other and records each under its list. */
  method ResolveGenerators<A(!new), S(!new)>(m: Emerge<SelectedEbuild, A, S>, session: PackageResolutionSession,
                                             ghost u: set<SelectedEbuild>, e: SelectedEbuild, selected: S,
                                             todo: seq<(nat, SelectedEbuild)>)
    returns (selected': S, outcome: Outcome)
    requires Fits(m, u) && GoodResolution(View(session, u, selected), u)
    requires e in session.currentResolution && e in u && forall p :: p in todo ==> p.0 < 4 && p.1 in u
    modifies session, u
    ensures (View(session, u, selected'), outcome) == VisitList(m, u, old(View(session, u, selected)), e, todo)
    decreases u - session.currentResolution, 1
  {
    hide Fits, GoodResolution, Visit, VisitList, View;
    ViewMembers(session, u, selected, e);
    selected', outcome := selected, Returned;
    ghost var s0 := View(session, u, selected);
    var i := 0;
    while i < |todo|
      invariant 0 <= i <= |todo| && e in session.currentResolution && outcome == Returned
      invariant session.currentResolution == View(session, u, selected').core.session
      invariant GoodResolution(View(session, u, selected'), u)
      invariant VisitList(m, u, s0, e, todo) == VisitList(m, u, View(session, u, selected'), e, todo[i..])
      invariant old(session.currentResolution) <= session.currentResolution
      decreases |todo| - i
    {
      UnfoldList(m, u, View(session, u, selected'), e, todo[i..]);
      selected', outcome := GetResolved(m, session, u, todo[i].1, selected');
      ViewMembers(session, u, selected', e);
      if outcome != Returned {
        return;
      }
      SetResolved(session, u, selected', e, e.resolvedDeps.Append(todo[i].0, todo[i].1));
      ViewMembers(session, u, selected', e);
      assert todo[i..][1..] == todo[i + 1..];
      i := i + 1;
    }
    ListDone(m, u, View(session, u, selected'), e);
  }

  // ----- a whole session

  /** The REQUIRED_USE of `x` is accepted, and each atom that it needs is resolved to a member of the session whose
      flags are as the atom asks. */
  ghost predicate Served<A, S>(m: Emerge<SelectedEbuild, A, S>, session: PackageResolutionSession, x: SelectedEbuild)
    reads session, x, session.currentResolution
  {
    && (m.metadata(x).requiredUse.Some? ==>
      RequiredUse.Hook(Current(x.View()), m.metadata(x).requiredUse.value) == RequiredUse.Accepted)
    && forall p :: p in AllOf(m.metadata(x).dependencies) && p.1.Need? ==>
      exists y ::
        && y in session.currentResolution && (p.0, y) in AllOf(x.resolvedDeps)
        && forall r :: r in p.1.uses ==> AtomRequirements.Honoured(y.View(), r)
  }

  lemma MemberServed<A, S>(m: Emerge<SelectedEbuild, A, S>, session: PackageResolutionSession, u: set<SelectedEbuild>,
                           selected: S, x: SelectedEbuild)
    requires session.currentResolution <= u && x in u && Regeneration.Served(m, View(session, u, selected), x)
    ensures Served(m, session, x)
  {
    hide AllOf, Current, AtomRequirements.Honoured, RequiredUse.Hook;
    var t := View(session, u, selected);
    forall p | p in AllOf(m.metadata(x).dependencies) && p.1.Need?
      ensures exists y ::
        && y in session.currentResolution && (p.0, y) in AllOf(x.resolvedDeps)
        && forall r :: r in p.1.uses ==> AtomRequirements.Honoured(y.View(), r)
    {
      assert Met(t, x, p);
    }
  }

  /** Resolving an ebuild in a new session: on a normal return, all that its members ask of each other holds. */
  method ResolveInNewSession<A(!new), S(!new)>(m: Emerge<SelectedEbuild, A, S>, ghost u: set<SelectedEbuild>,
                                               e: SelectedEbuild, selected: S)
    returns (session: PackageResolutionSession, selected': S, outcome: Outcome)
    requires Fits(m, u) && e in u
    requires forall x :: x in u ==> Within(x.generators, u)
    requires forall x :: x in u ==> x.isDirty && Inv(x.View())
    modifies u
    ensures fresh(session)
    ensures outcome == Returned ==>
      && e in session.currentResolution && session.currentResolution <= u
      && forall x :: x in session.currentResolution ==> Served(m, session, x)
  {
    hide Fits, Visit, AllOf, GeneratorsOf, FlagsOf, ResolvedOf, Inv;
    session := new PackageResolutionSession();
    ghost var s := View(session, u, selected);
    StartsSound(m, session, u, selected);
    selected', outcome := GetResolved(m, session, u, e, selected);
    if outcome == Returned {
      SessionHonours(m, u, s, e);
      forall x | x in session.currentResolution ensures Served(m, session, x) {
        MemberServed(m, session, u, selected', x);
      }
    }
  }

  lemma StartsSound<A, S>(m: Emerge<SelectedEbuild, A, S>, session: PackageResolutionSession, u: set<SelectedEbuild>,
                          selected: S)
    requires session.currentResolution == {}
    requires forall x :: x in u ==> Within(x.generators, u) && x.isDirty && Inv(x.View())
    ensures GoodResolution(View(session, u, selected), u) && Sound(m, CoreOf(session, u, selected), u)
  {
    hide Within, Inv;
  }
}
