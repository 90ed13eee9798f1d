/** The resolution session on values: a depth-first walk over a dependency graph that may have cycles, cut by the
    set of ebuilds that the session has seen.

    What an ebuild depends on is found when it is regenerated: its flags are brought up to date, its REQUIRED_USE is
    put under watch, and its dependency expressions are expanded, which puts requirements on the flags of other
    ebuilds. Each of these may raise half-way. */
module ResolveModel {
  import opened Options
  import opened AtomRequirements
  import opened DependencyContainers
  import RequiredUse
  import opened UseModel

  // ----- what portage knows

  /** A dependency expression: an atom, which may be a blocker; a list behind a USE condition; or another group. */
  datatype Dependency<A> = Need(atom: A, uses: seq<Requirement>) | Blocker(atom: A) | Guarded(useFlag: string) | Group

  datatype Metadata<A> = Metadata(dependencies: DependencyContainer<Dependency<A>>,
                                  requiredUse: Option<seq<RequiredUse.Expr>>)

  /** What the ebuilds say of themselves, and how atoms select ebuilds: for a parent and an atom, from what has been
      selected so far. No ebuild stands for an exception. */
  datatype Emerge<!N, !A, !S> = Emerge(metadata: N -> Metadata<A>, select: (N, A, S) -> (Option<N>, S),
                                       addBlock: (N, A, S) -> S)

  /** All but the resolved dependencies. */
  datatype Core<N, S> = Core(session: set<N>, generators: map<N, DependencyContainer<N>>,
                             flags: map<N, UseModel.State>, selected: S)

  datatype Resolution<N, S> = Resolution(core: Core<N, S>, resolved: map<N, DependencyContainer<N>>)

  /** Atoms select among `u`. */
  ghost predicate Fits<N, A(!new), S(!new)>(m: Emerge<N, A, S>, u: set<N>) {
    forall e, a, sel :: e in u && m.select(e, a, sel).0.Some? ==> m.select(e, a, sel).0.value in u
  }

  ghost predicate Good<N, S>(c: Core<N, S>, u: set<N>) {
    && c.generators.Keys == c.flags.Keys == u && c.session <= u
    && forall e :: e in u ==> Within(c.generators[e], u)
  }

  ghost predicate GoodResolution<N, S>(s: Resolution<N, S>, u: set<N>) { Good(s.core, u) && s.resolved.Keys == u }

  /** Nothing but flags and selections has changed, and the generators of `e`. */
  ghost predicate OnlyExpands<N, S>(c: Core<N, S>, d: Core<N, S>, u: set<N>, e: N) {
    && Good(d, u) && d.session == c.session
    && forall x {:trigger d.generators[x]} :: x in c.generators && x in d.generators && x != e ==>
      d.generators[x] == c.generators[x]
  }

  // ----- regeneration

  /** resolve_single: the ebuild that a dependency expression selects, if any, with the requirements on it. A list
      behind a condition yields none: its hook is made, which looks the flag up, and never raises. */
  ghost function Expand<N, A(!new), S(!new)>(m: Emerge<N, A, S>, u: set<N>, c: Core<N, S>, e: N, d: Dependency<A>)
    : (r: (Core<N, S>, Option<N>, Outcome))
    requires Fits(m, u) && Good(c, u) && e in u
    ensures OnlyExpands(c, r.0, u, e) && r.0.generators == c.generators && (r.1.Some? ==> r.1.value in u)
  {
    match d
    case Need(a, uses) =>
      var (x, selected) := m.select(e, a, c.selected);
      var t := c.(selected := selected);
      if x.None? then (t, None, SelectionException)
      else
        var (f, outcome) := RequireAll(t.flags[x.value], uses);
        (t.(flags := t.flags[x.value := f]), x, outcome)
    case Blocker(a) => (c.(selected := m.addBlock(e, a, c.selected)), None, Returned)
    case Guarded(name) => (c, None, if name in Current(c.flags[e]) then Returned else KeyError)
    case Group => (c, None, Returned)
  }

  function WithGenerator<N, S>(c: Core<N, S>, e: N, i: nat, x: Option<N>): Core<N, S>
    requires i < 4 && e in c.generators
  {
    if x.None? then c else c.(generators := c.generators[e := c.generators[e].Append(i, x.value)])
  }

  /** One expression expanded, and what it selects appended to the generators. */
  ghost function ExpandOne<N, A(!new), S(!new)>(m: Emerge<N, A, S>, u: set<N>, c: Core<N, S>, e: N,
                                                p: (nat, Dependency<A>))
    : (r: (Core<N, S>, Outcome))
    requires Fits(m, u) && Good(c, u) && e in u && p.0 < 4
    ensures OnlyExpands(c, r.0, u, e)
  {
    var (d, x, outcome) := Expand(m, u, c, e, p.1);
    AppendWithin(d.generators[e], p.0, x, u);
    (if outcome == Returned then WithGenerator(d, e, p.0, x) else d, outcome)
  }

  ghost function ExpandAll<N, A(!new), S(!new)>(m: Emerge<N, A, S>, u: set<N>, c: Core<N, S>, e: N,
                                                todo: seq<(nat, Dependency<A>)>)
    : (r: (Core<N, S>, Outcome))
    requires Fits(m, u) && Good(c, u) && e in u && forall p :: p in todo ==> p.0 < 4
    ensures OnlyExpands(c, r.0, u, e)
    decreases |todo|
  {
    if todo == [] then (c, Returned)
    else
      var (d, outcome) := ExpandOne(m, u, c, e, todo[0]);
      if outcome != Returned then (d, outcome) else ExpandAll(m, u, d, e, todo[1..])
  }

  /** The part of regenerate for a dirty ebuild. When it raises, the ebuild stays dirty and keeps the generators
      found so far. */
  ghost function Rebuild<N, A(!new), S(!new)>(m: Emerge<N, A, S>, u: set<N>, c: Core<N, S>, e: N)
    : (r: (Core<N, S>, Outcome))
    requires Fits(m, u) && Good(c, u) && e in u
    ensures OnlyExpands(c, r.0, u, e)
  {
    EmptyWithin(u);
    var data := m.metadata(e);
    var (f, refreshed) := Refresh(c.flags[e], data.requiredUse);
    var d := c.(generators := c.generators[e := Empty()], flags := c.flags[e := f]);
    if refreshed != Returned then (d, refreshed)
    else
      var (d', expanded) := ExpandAll(m, u, d, e, AllOf(data.dependencies));
      if expanded != Returned then (d', expanded)
      else (d'.(flags := d'.flags[e := d'.flags[e].(isDirty := false)]), Returned)
  }

  // ----- the walk

  /** An ebuild joins the session, and is rebuilt if it is dirty. */
  ghost function Start<N, A(!new), S(!new)>(m: Emerge<N, A, S>, u: set<N>, c: Core<N, S>, e: N)
    : (r: (Core<N, S>, Outcome))
    requires Fits(m, u) && Good(c, u) && e in u
    ensures Good(r.0, u) && r.0.session == c.session + {e}
    ensures forall x {:trigger r.0.generators[x]} :: x in u && x != e ==> r.0.generators[x] == c.generators[x]
  {
    var d := c.(session := c.session + {e});
    if d.flags[e].isDirty then Rebuild(m, u, d, e) else (d, Returned)
  }

  /** What a call leaves as it was: the ebuilds that the session has seen already. */
  ghost predicate Extends<N, S>(s: Resolution<N, S>, t: Resolution<N, S>) {
    && s.core.session <= t.core.session
    && s.core.generators.Keys <= t.core.generators.Keys && s.resolved.Keys <= t.resolved.Keys
    && forall x {:trigger t.core.generators[x]} {:trigger t.resolved[x]} ::
      x in s.core.session && x in s.core.generators && x in s.resolved ==>
      t.core.generators[x] == s.core.generators[x] && t.resolved[x] == s.resolved[x]
  }

  /** The state in which the loops over the generators of `e` start, or the one in which the call raised. */
  ghost function Started<N, A(!new), S(!new)>(m: Emerge<N, A, S>, u: set<N>, s: Resolution<N, S>, e: N)
    : (r: (Resolution<N, S>, Outcome))
    requires Fits(m, u) && GoodResolution(s, u) && e in u
    ensures GoodResolution(r.0, u)
  {
    var (c, outcome) := Start(m, u, s.core, e);
    (s.(core := c, resolved := if outcome == Returned then s.resolved[e := Empty()] else s.resolved), outcome)
  }

  ghost function Visit<N, A(!new), S(!new)>(m: Emerge<N, A, S>, u: set<N>, s: Resolution<N, S>, e: N)
    : (r: (Resolution<N, S>, Outcome))
    requires Fits(m, u) && GoodResolution(s, u) && e in u
    ensures GoodResolution(r.0, u) && Extends(s, r.0) && e in r.0.core.session
    decreases u - s.core.session, 0
  {
    if e in s.core.session then (s, Returned)
    else
      var (t, outcome) := Started(m, u, s, e);
      if outcome != Returned then (t, outcome) else VisitList(m, u, t, e, AllOf(t.core.generators[e]))
  }

  ghost function VisitList<N, A(!new), S(!new)>(m: Emerge<N, A, S>, u: set<N>, s: Resolution<N, S>, e: N,
                                                todo: seq<(nat, N)>)
    : (r: (Resolution<N, S>, Outcome))
    requires Fits(m, u) && GoodResolution(s, u) && e in s.core.session
    requires forall p :: p in todo ==> p.0 < 4 && p.1 in u
    ensures GoodResolution(r.0, u) && s.core.session <= r.0.core.session
    ensures forall x :: x in s.core.session ==>
      r.0.core.generators[x] == s.core.generators[x] && (x != e ==> r.0.resolved[x] == s.resolved[x])
    decreases u - s.core.session, 1, |todo|
  {
    if todo == [] then (s, Returned)
    else
      var (t, outcome) := Visit(m, u, s, todo[0].1);
      if outcome != Returned then (t, outcome)
      else VisitList(m, u, Recorded(t, e, todo[0]), e, todo[1..])
  }

  /** The state after dependency `p` of `e` has been resolved. */
  ghost function Recorded<N, S>(v: Resolution<N, S>, e: N, p: (nat, N)): Resolution<N, S>
    requires p.0 < 4 && e in v.resolved
  {
    v.(resolved := v.resolved[e := v.resolved[e].Append(p.0, p.1)])
  }

  // ----- what a normal return means

  /** The ebuild's dependencies are its generators, list by list and in order, and all of them are in the session. */
  ghost predicate Complete<N, S>(s: Resolution<N, S>, x: N) {
    && x in s.core.generators && x in s.resolved && s.resolved[x] == s.core.generators[x]
    && forall p :: p in AllOf(s.core.generators[x]) ==> p.1 in s.core.session
  }

  lemma UnfoldVisit<N, A(!new), S(!new)>(m: Emerge<N, A, S>, u: set<N>, s: Resolution<N, S>, e: N)
    requires Fits(m, u) && GoodResolution(s, u) && e in u && e !in s.core.session
    ensures var (t, outcome) := Started(m, u, s, e);
      && GoodResolution(t, u) && t.core.session == s.core.session + {e} && e in t.core.generators && e in t.resolved
      && (outcome == Returned ==>
        && t.resolved[e] == Empty() && (forall p :: p in AllOf(t.core.generators[e]) ==> p.0 < 4 && p.1 in u)
        && Visit(m, u, s, e) == VisitList(m, u, t, e, AllOf(t.core.generators[e])))
      && (outcome != Returned ==> Visit(m, u, s, e) == (t, outcome))
  {
  }

  lemma UnfoldList<N, A(!new), S(!new)>(m: Emerge<N, A, S>, u: set<N>, s: Resolution<N, S>, e: N, todo: seq<(nat, N)>)
    requires Fits(m, u) && GoodResolution(s, u) && e in s.core.session && todo != []
    requires forall p :: p in todo ==> p.0 < 4 && p.1 in u
    ensures var (v, outcome) := Visit(m, u, s, todo[0].1);
      && GoodResolution(v, u) && s.core.session <= v.core.session && todo[0].1 in v.core.session
      && v.core.generators[e] == s.core.generators[e] && v.resolved[e] == s.resolved[e]
      && GoodResolution(Recorded(v, e, todo[0]), u)
      && VisitList(m, u, s, e, todo) ==
        if outcome == Returned then VisitList(m, u, Recorded(v, e, todo[0]), e, todo[1..]) else (v, outcome)
  {
  }

  /** What a walk over the rest of a list leaves as it was. */
  lemma ListExtends<N, A(!new), S(!new)>(m: Emerge<N, A, S>, u: set<N>, s: Resolution<N, S>, e: N, todo: seq<(nat, N)>,
                                         x: N)
    requires Fits(m, u) && GoodResolution(s, u) && e in s.core.session
    requires forall p :: p in todo ==> p.0 < 4 && p.1 in u
    ensures var t := VisitList(m, u, s, e, todo).0;
      && GoodResolution(t, u) && s.core.session <= t.core.session
      && (x in s.core.session ==>
        && x in u && x in t.core.generators && x in s.core.generators && x in t.resolved && x in s.resolved
        && t.core.generators[x] == s.core.generators[x] && (x != e ==> t.resolved[x] == s.resolved[x]))
  {
  }

  /** On a normal return every ebuild that joined the session is complete. */
  lemma {:induction false} VisitCompletes<N, A(!new), S(!new)>(m: Emerge<N, A, S>, u: set<N>, s: Resolution<N, S>, e: N,
                                                               x: N)
    requires Fits(m, u) && GoodResolution(s, u) && e in u && Visit(m, u, s, e).1 == Returned
    requires x in Visit(m, u, s, e).0.core.session && x !in s.core.session
    ensures Complete(Visit(m, u, s, e).0, x)
    decreases u - s.core.session, 0
  {
    hide Fits, GoodResolution, VisitList, AllOf, Started, Filled;
    if e !in s.core.session {
      UnfoldVisit(m, u, s, e);
      var start := Started(m, u, s, e).0;
      var all := AllOf(start.core.generators[e]);
      assert [] + all == all;
      FilledIsCopy(start.core.generators[e]);
      NothingFilled<N>();
      ListCompletes(m, u, start, e, [], all, x);
      ListExtends(m, u, start, e, all, e);
    }
  }

  lemma {:induction false} ListCompletes<N, A(!new), S(!new)>(m: Emerge<N, A, S>, u: set<N>, s: Resolution<N, S>, e: N,
                                                              done: seq<(nat, N)>, todo: seq<(nat, N)>, x: N)
    requires Fits(m, u) && GoodResolution(s, u) && e in s.core.session && e in s.resolved && e in s.core.generators
    requires forall p :: p in done + todo ==> p.0 < 4
    requires forall p :: p in todo ==> p.0 < 4 && p.1 in u
    requires s.resolved[e] == Filled(done)
    requires VisitList(m, u, s, e, todo).1 == Returned
    ensures var t := VisitList(m, u, s, e, todo).0;
      && (x in t.core.session && x !in s.core.session ==> Complete(t, x))
      && (forall p :: p in todo ==> p.1 in t.core.session)
      && e in t.resolved && t.resolved[e] == Filled(done + todo)
    decreases u - s.core.session, 1, |todo|
  {
    hide Fits, GoodResolution, VisitList, Visit, AllOf, Filled;
    if todo == [] {
      assert done + todo == done;
      ListDone(m, u, s, e);
    } else {
      var p := todo[0];
      UnfoldList(m, u, s, e, todo);
      var v := Visit(m, u, s, p.1).0;
      var s' := Recorded(v, e, p);
      if x in v.core.session && x !in s.core.session { VisitCompletes(m, u, s, p.1, x); }
      FilledOneMore(done, p);
      assert done + [p] + todo[1..] == done + todo;
      ListCompletes(m, u, s', e, done + [p], todo[1..], x);
      ListExtends(m, u, s', e, todo[1..], x);
    }
  }

  lemma ListDone<N, A(!new), S(!new)>(m: Emerge<N, A, S>, u: set<N>, s: Resolution<N, S>, e: N)
    requires Fits(m, u) && GoodResolution(s, u) && e in s.core.session
    ensures VisitList(m, u, s, e, []) == (s, Returned)
  {
  }

  // ----- nothing joins without need

  /** Within `c`, the ebuilds that joined since `s` depend on members of `c` only. */
  ghost predicate ClosedIn<N, S>(s: Resolution<N, S>, t: Resolution<N, S>, c: set<N>) {
    forall x {:trigger t.core.generators[x]} ::
      x in t.core.session && x !in s.core.session && x in c && x in t.core.generators ==>
      Within(t.core.generators[x], c)
  }

  /** The session after a visit lies within every set that holds the session before, the ebuild, and with an
      ebuild what it depends on. */
  lemma {:induction false} VisitMinimal<N, A(!new), S(!new)>(m: Emerge<N, A, S>, u: set<N>, s: Resolution<N, S>, e: N,
                                                             c: set<N>)
    requires Fits(m, u) && GoodResolution(s, u) && e in u && s.core.session <= c && e in c
    requires ClosedIn(s, Visit(m, u, s, e).0, c)
    ensures Visit(m, u, s, e).0.core.session <= c
    decreases u - s.core.session, 0
  {
    hide Fits, GoodResolution, VisitList, AllOf, Started, Visit;
    if e in s.core.session {
      VisitSeen(m, u, s, e);
    } else {
      UnfoldVisit(m, u, s, e);
      var (start, outcome) := Started(m, u, s, e);
      if outcome == Returned {
        var all := AllOf(start.core.generators[e]);
        ListExtends(m, u, start, e, all, e);
        var t := VisitList(m, u, start, e, all).0;
        assert Within(t.core.generators[e], c);
        ListMinimal(m, u, start, e, all, c);
      }
    }
  }

  lemma VisitSeen<N, A(!new), S(!new)>(m: Emerge<N, A, S>, u: set<N>, s: Resolution<N, S>, e: N)
    requires Fits(m, u) && GoodResolution(s, u) && e in u && e in s.core.session
    ensures Visit(m, u, s, e) == (s, Returned)
  {
  }

  lemma {:induction false} ListMinimal<N, A(!new), S(!new)>(m: Emerge<N, A, S>, u: set<N>, s: Resolution<N, S>, e: N,
                                                            todo: seq<(nat, N)>, c: set<N>)
    requires Fits(m, u) && GoodResolution(s, u) && e in s.core.session && s.core.session <= c
    requires forall p :: p in todo ==> p.0 < 4 && p.1 in u && p.1 in c
    requires ClosedIn(s, VisitList(m, u, s, e, todo).0, c)
    ensures VisitList(m, u, s, e, todo).0.core.session <= c
    decreases u - s.core.session, 1, |todo|
  {
    hide Fits, GoodResolution, VisitList, AllOf, Within, Visit;
    if todo == [] {
      ListDone(m, u, s, e);
    } else {
      UnfoldList(m, u, s, e, todo);
      var (v, outcome) := Visit(m, u, s, todo[0].1);
      var s', t := Recorded(v, e, todo[0]), VisitList(m, u, s, e, todo).0;
      if outcome == Returned {
        forall x | x in v.core.session && x !in s.core.session && x in c && x in v.core.generators
          ensures Within(v.core.generators[x], c)
        {
          ListExtends(m, u, s', e, todo[1..], x);
        }
      }
      VisitMinimal(m, u, s, todo[0].1, c);
      if outcome == Returned { ListMinimal(m, u, s', e, todo[1..], c); }
    }
  }

  // ----- the session as a whole

  /** Resolving an ebuild in a new session: on a normal return the session is the least set that holds the ebuild and,
      with every member, all its dependencies; and every member's resolved dependencies are its generators. */
  lemma SessionIsReachableSet<N, A(!new), S(!new)>(m: Emerge<N, A, S>, u: set<N>, s: Resolution<N, S>, e: N, c: set<N>)
    requires Fits(m, u) && GoodResolution(s, u) && e in u && s.core.session == {}
    requires Visit(m, u, s, e).1 == Returned
    ensures var t := Visit(m, u, s, e).0;
      && e in t.core.session && t.core.session <= u
      && (forall x :: x in t.core.session ==> Complete(t, x))
      && (e in c && ClosedIn(s, t, c) ==> t.core.session <= c)
  {
    hide Complete;
    var t := Visit(m, u, s, e).0;
    forall x | x in t.core.session ensures Complete(t, x) { VisitCompletes(m, u, s, e, x); }
    if e in c && ClosedIn(s, t, c) { VisitMinimal(m, u, s, e, c); }
  }

  /** An ebuild whose regeneration raised stays in the session: the next call takes it for resolved. */
  lemma FailureSticks<N, A(!new), S(!new)>(m: Emerge<N, A, S>, u: set<N>, s: Resolution<N, S>, e: N)
    requires Fits(m, u) && GoodResolution(s, u) && e in u && Visit(m, u, s, e).1 != Returned
    ensures var t := Visit(m, u, s, e).0; Visit(m, u, t, e) == (t, Returned)
  {
    VisitSeen(m, u, Visit(m, u, s, e).0, e);
  }

  /** A list that raises has resolved and recorded what stands in front of the dependency that raised, and no more. */
  lemma {:induction false} RaisedListIsPrefix<N, A(!new), S(!new)>(m: Emerge<N, A, S>, u: set<N>, s: Resolution<N, S>,
                                                                   e: N, done: seq<(nat, N)>, todo: seq<(nat, N)>)
    returns (k: nat)
    requires Fits(m, u) && GoodResolution(s, u) && e in s.core.session
    requires forall p :: p in done + todo ==> p.0 < 4 && p.1 in u
    requires forall p :: p in done || p in todo ==> p in done + todo
    requires s.resolved[e] == Filled(done) && VisitList(m, u, s, e, todo).1 != Returned
    ensures k < |todo| && (forall p :: p in done + todo[..k] ==> p.0 < 4)
    ensures VisitList(m, u, s, e, todo).0.resolved[e] == Filled(done + todo[..k])
    ensures todo[k].1 in VisitList(m, u, s, e, todo).0.core.session
    decreases |todo|
  {
    hide Fits, GoodResolution, Visit, VisitList, Filled;
    k := 0;
    if todo == [] {
      ListDone(m, u, s, e);
    } else {
      UnfoldList(m, u, s, e, todo);
      var (v, outcome) := Visit(m, u, s, todo[0].1);
      if outcome == Returned {
        FilledOneMore(done, todo[0]);
        assert done + todo == done + [todo[0]] + todo[1..];
        k := RaisedListIsPrefix(m, u, Recorded(v, e, todo[0]), e, done + [todo[0]], todo[1..]);
        assert done + [todo[0]] + todo[1..][..k] == done + todo[..k + 1];
        k := k + 1;
      } else {
        assert done + todo[..0] == done;
      }
    }
  }

  /** When a regeneration raises, the ebuild keeps its old resolved dependencies; when one of its dependencies raises,
      it has those in front of it, in the order of the generators. */
  lemma RaisedVisitKeepsPrefix<N, A(!new), S(!new)>(m: Emerge<N, A, S>, u: set<N>, s: Resolution<N, S>, e: N)
    requires Fits(m, u) && GoodResolution(s, u) && e in u && Visit(m, u, s, e).1 != Returned
    ensures var t := Visit(m, u, s, e).0;
      if Start(m, u, s.core, e).1 != Returned then t.resolved == s.resolved
      else
        exists k: nat ::
          && k < |AllOf(t.core.generators[e])| && t.resolved[e] == Filled(AllOf(t.core.generators[e])[..k])
  {
    hide Fits, VisitList, AllOf, Start;
    if e in s.core.session { VisitSeen(m, u, s, e); }
    var t := Started(m, u, s, e).0;
    if Start(m, u, s.core, e).1 == Returned {
      var todo := AllOf(t.core.generators[e]);
      var k := RaisedListIsPrefix(m, u, t, e, [], todo);
      assert [] + todo[..k] == todo[..k];
    }
  }

  // ----- cached generators

  ghost predicate AllClean<N, S>(c: Core<N, S>, members: set<N>) {
    forall x :: x in members && x in c.flags ==> !c.flags[x].isDirty
  }

  ghost predicate HoldsGenerators<N, S>(c: Core<N, S>, members: set<N>) {
    forall x {:trigger c.generators[x]} :: x in members && x in c.generators ==> Within(c.generators[x], members)
  }

  /** The state in which a new session starts. */
  function Restarted<N, S>(s: Resolution<N, S>): Resolution<N, S> { s.(core := s.core.(session := {})) }

  /** A walk among clean ebuilds builds nothing. */
  lemma {:induction false} CleanVisit<N, A(!new), S(!new)>(m: Emerge<N, A, S>, u: set<N>, s: Resolution<N, S>, e: N,
                                                           c: set<N>)
    requires Fits(m, u) && GoodResolution(s, u) && e in u && e in c && c <= u && AllClean(s.core, c)
    requires HoldsGenerators(s.core, c)
    ensures Visit(m, u, s, e).1 == Returned
    ensures var t := Visit(m, u, s, e).0; t.core == s.core.(session := t.core.session)
    decreases u - s.core.session, 0
  {
    hide Fits, GoodResolution, VisitList, AllOf, Visit, Started;
    if e in s.core.session {
      VisitSeen(m, u, s, e);
    } else {
      UnfoldVisit(m, u, s, e);
      InGenerators(s, u, e);
      CleanStarts(m, u, s, e);
      var start := Started(m, u, s, e).0;
      assert Within(s.core.generators[e], c);
      CleanList(m, u, start, e, AllOf(start.core.generators[e]), c);
    }
  }

  lemma CleanStarts<N, A(!new), S(!new)>(m: Emerge<N, A, S>, u: set<N>, s: Resolution<N, S>, e: N)
    requires Fits(m, u) && GoodResolution(s, u) && e in u && AllClean(s.core, {e})
    ensures var (t, outcome) := Started(m, u, s, e);
      outcome == Returned && t.core == s.core.(session := s.core.session + {e})
  {
    hide Rebuild;
  }

  lemma InGenerators<N, S>(s: Resolution<N, S>, u: set<N>, e: N)
    requires GoodResolution(s, u) && e in u
    ensures e in s.core.generators
  {
  }

  lemma {:induction false} CleanList<N, A(!new), S(!new)>(m: Emerge<N, A, S>, u: set<N>, s: Resolution<N, S>, e: N,
                                                          todo: seq<(nat, N)>, c: set<N>)
    requires Fits(m, u) && GoodResolution(s, u) && e in s.core.session && c <= u && AllClean(s.core, c)
    requires forall p :: p in todo ==> p.0 < 4 && p.1 in u && p.1 in c
    requires HoldsGenerators(s.core, c)
    ensures VisitList(m, u, s, e, todo).1 == Returned
    ensures var t := VisitList(m, u, s, e, todo).0;
      t.core == s.core.(session := t.core.session)
    decreases u - s.core.session, 1, |todo|
  {
    hide Fits, GoodResolution, VisitList, AllOf, Visit, Within;
    if todo == [] {
      ListDone(m, u, s, e);
    } else {
      UnfoldList(m, u, s, e, todo);
      CleanVisit(m, u, s, todo[0].1, c);
      var v := Visit(m, u, s, todo[0].1).0;
      CleanList(m, u, Recorded(v, e, todo[0]), e, todo[1..], c);
    }
  }

  /** Once the session is over and no member is dirty, resolving again in a new session changes nothing: the same
      ebuilds, generators, flags, selections and dependencies. */
  lemma ResolvingAgainIsStable<N, A(!new), S(!new)>(m: Emerge<N, A, S>, u: set<N>, s: Resolution<N, S>, e: N)
    requires Fits(m, u) && GoodResolution(s, u) && e in u && s.core.session == {} && Visit(m, u, s, e).1 == Returned
    requires AllClean(Visit(m, u, s, e).0.core, Visit(m, u, s, e).0.core.session)
    ensures var t := Visit(m, u, s, e).0;
      var (again, outcome) := Visit(m, u, Restarted(t), e);
      outcome == Returned && again.core == t.core
      && forall x :: x in t.core.session ==>
        x in again.resolved && x in t.resolved && again.resolved[x] == t.resolved[x]
  {
    hide Fits, AllOf, Visit;
    var t := Visit(m, u, s, e).0;
    var restarted := Restarted(t);
    SessionIsReachableSet(m, u, s, e, t.core.session);
    assert GoodResolution(restarted, u);
    forall x | x in t.core.session && x in t.core.generators
      ensures Within(t.core.generators[x], t.core.session)
    {
      assert Complete(t, x);
    }
    CleanVisit(m, u, restarted, e, t.core.session);
    var again := Visit(m, u, restarted, e).0;
    SessionIsReachableSet(m, u, restarted, e, t.core.session);
    assert forall x :: x in again.core.session ==>
      Complete(again, x) && Within(again.core.generators[x], again.core.session);
    SessionIsReachableSet(m, u, s, e, again.core.session);
    forall x | x in t.core.session ensures again.resolved[x] == t.resolved[x] {
      assert Complete(t, x) && Complete(again, x);
    }
  }
}
