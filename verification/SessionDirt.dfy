/** Which ebuilds a session leaves dirty, and when a second session changes nothing. */
module SessionDirt {
  import opened Options
  import opened AtomRequirements
  import opened DependencyContainers
  import opened Regeneration
  import opened RequiredUse
  import opened ResolveModel
  import opened Sequences
  import opened UseFlags
  import opened UseModel

  // ----- requirements that make an ebuild dirty

  /** The requirement schedules a value: it asks for on or off outright, or it takes a default. */
  predicate Switches(s: State, r: Requirement) {
    if r.name in Current(s) then r.option == Enable || r.option == Disable else r.fallback != NoDefault
  }

  /** A value that is scheduled makes the ebuild dirty, and a flush alone, whether or not it raises, leaves it so. */
  lemma SchedulingDirties(s: State, use: UseFlag)
    ensures ScheduleUse(s, use).isDirty && FlushUse(ScheduleUse(s, use)).0.isDirty
  {
    hide FlushUse;
    FlushKeepsDirt(ScheduleUse(s, use));
  }

  lemma RequirementDirtiesIff(s: State, name: string, flag: AtomUse)
    requires AddUseRequirement(s, name, flag).1 == Returned
    ensures var t := AddUseRequirement(s, name, flag).0;
      && (t.isDirty <==> s.isDirty || flag == Enable || flag == Disable)
      && Current(t) == Current(s)
  {
  }

  lemma FlagDirtiesIff(s: State, r: Requirement)
    requires RequireFlag(s, r).1 == Returned
    ensures var t := RequireFlag(s, r).0;
      && (t.isDirty <==> s.isDirty || Switches(s, r))
      && (!Switches(s, r) ==> Current(t) == Current(s))
  {
    hide AddUseRequirement, Current;
    if r.name in Current(s) {
      RequirementDirtiesIff(s, r.name, r.option);
    } else if r.fallback == DefaultOn {
      RequirementDirtiesIff(AddUse(s, r.name, true), r.name, Enable);
    } else {
      RequirementDirtiesIff(AddUse(s, r.name, false), r.name, Disable);
    }
  }

  /** The requirements of an atom make the ebuild dirty exactly when one of them schedules a value. */
  lemma {:induction false} RequireAllDirtiesIff(s: State, rs: seq<Requirement>)
    requires RequireAll(s, rs).1 == Returned
    ensures RequireAll(s, rs).0.isDirty <==> s.isDirty || exists r :: r in rs && Switches(s, r)
    decreases |rs|
  {
    hide RequireFlag, Current;
    if rs != [] {
      var t := RequireFlag(s, rs[0]).0;
      FlagDirtiesIff(s, rs[0]);
      RequireAllDirtiesIff(t, rs[1..]);
      assert forall r :: r in rs <==> r == rs[0] || r in rs[1..];
      if Switches(s, rs[0]) {
        DirtStays(t, rs[1..]);
      } else {
        assert forall r :: Switches(t, r) <==> Switches(s, r);
      }
    }
  }

  // ----- one regeneration

  /** Expanding `d` puts a requirement on `x` that schedules a value. */
  ghost predicate AskedBy<N, A, S>(m: Emerge<N, A, S>, c: Core<N, S>, e: N, d: Dependency<A>, x: N) {
    d.Need? && x in c.flags && m.select(e, d.atom, c.selected).0 == Some(x) &&
    exists r :: r in d.uses && Switches(c.flags[x], r)
  }

  ghost predicate Asked<N, A(!new), S(!new)>(m: Emerge<N, A, S>, u: set<N>, c: Core<N, S>, e: N,
                                             todo: seq<(nat, Dependency<A>)>, x: N)
    requires Fits(m, u) && Good(c, u) && e in u && forall p :: p in todo ==> p.0 < 4
    decreases |todo|
  {
    todo != [] &&
    (AskedBy(m, c, e, todo[0].1, x) || Asked(m, u, ExpandOne(m, u, c, e, todo[0]).0, e, todo[1..], x))
  }

  lemma ExpandDirtiesIff<N, A(!new), S(!new)>(m: Emerge<N, A, S>, u: set<N>, c: Core<N, S>, e: N,
                                              p: (nat, Dependency<A>), x: N)
    requires Fits(m, u) && Good(c, u) && e in u && p.0 < 4 && x in u && ExpandOne(m, u, c, e, p).1 == Returned
    ensures var d := ExpandOne(m, u, c, e, p).0;
      x in d.flags && x in c.flags && (d.flags[x].isDirty <==> c.flags[x].isDirty || AskedBy(m, c, e, p.1, x))
  {
    hide AllOf, RequireAll, Switches;
    if p.1.Need? && m.select(e, p.1.atom, c.selected).0 == Some(x) { RequireAllDirtiesIff(c.flags[x], p.1.uses); }
  }

  lemma {:induction false} ExpandAllDirtiesIff<N, A(!new), S(!new)>(m: Emerge<N, A, S>, u: set<N>, c: Core<N, S>, e: N,
                                                                    todo: seq<(nat, Dependency<A>)>, x: N)
    requires Fits(m, u) && Good(c, u) && e in u && x in u && forall p :: p in todo ==> p.0 < 4
    requires ExpandAll(m, u, c, e, todo).1 == Returned
    ensures var d := ExpandAll(m, u, c, e, todo).0;
      x in d.flags && x in c.flags && (d.flags[x].isDirty <==> c.flags[x].isDirty || Asked(m, u, c, e, todo, x))
    decreases |todo|
  {
    hide Fits, ExpandOne, AskedBy, AllOf;
    if todo != [] {
      ExpandDirtiesIff(m, u, c, e, todo[0], x);
      ExpandAllDirtiesIff(m, u, ExpandOne(m, u, c, e, todo[0]).0, e, todo[1..], x);
    }
  }

  lemma {:induction false} FlushKeepsDirt(s: State)
    ensures FlushUse(s).0.isDirty == s.isDirty
    decreases |s.queue|
  {
    hide RunSelections, RunGlobals;
    if s.queue != [] && FlushOne(s).1 == Returned { FlushKeepsDirt(FlushOne(s).0); }
  }

  lemma RefreshKeepsDirt(s: State, requiredUse: Option<seq<Expr>>)
    ensures Refresh(s, requiredUse).0.isDirty == s.isDirty
  {
    hide Hook, FlushUse;
    FlushKeepsDirt(s);
  }

  /** The state in which a dirty ebuild that joins expands its dependencies. */
  ghost function Refreshed<N, A, S>(m: Emerge<N, A, S>, u: set<N>, c: Core<N, S>, e: N): (d: Core<N, S>)
    requires Good(c, u) && e in u
    ensures Good(d, u)
  {
    EmptyWithin(u);
    c.(session := c.session + {e}, generators := c.generators[e := Empty()],
       flags := c.flags[e := Refresh(c.flags[e], m.metadata(e).requiredUse).0])
  }

  /** Starting `e` regenerates it, and one of its atoms puts a requirement on `x` that schedules a value. */
  ghost predicate AskedAtStart<N, A(!new), S(!new)>(m: Emerge<N, A, S>, u: set<N>, c: Core<N, S>, e: N, x: N)
    requires Fits(m, u) && Good(c, u) && e in u
  {
    c.flags[e].isDirty && Asked(m, u, Refreshed(m, u, c, e), e, AllOf(m.metadata(e).dependencies), x)
  }

  /** A start that returns normally leaves its ebuild clean, whatever it asks of itself, and makes another one dirty
      exactly when it puts a requirement on it that schedules a value. */
  lemma StartDirtiesIff<N, A(!new), S(!new)>(m: Emerge<N, A, S>, u: set<N>, c: Core<N, S>, e: N, x: N)
    requires Fits(m, u) && Good(c, u) && e in u && x in u && Start(m, u, c, e).1 == Returned
    ensures var d := Start(m, u, c, e).0;
      && x in d.flags && x in c.flags
      && (d.flags[x].isDirty <==> x != e && (c.flags[x].isDirty || AskedAtStart(m, u, c, e, x)))
  {
    hide Fits, ExpandAll, Asked, AllOf, Refresh, Within;
    if c.flags[e].isDirty {
      ExpandAllDirtiesIff(m, u, Refreshed(m, u, c, e), e, AllOf(m.metadata(e).dependencies), x);
    }
  }

  lemma {:induction false} ExpandKeepsDirt<N, A(!new), S(!new)>(m: Emerge<N, A, S>, u: set<N>, c: Core<N, S>, e: N,
                                                                todo: seq<(nat, Dependency<A>)>, x: N)
    requires Fits(m, u) && Good(c, u) && e in u && forall p :: p in todo ==> p.0 < 4
    requires x in u && x in c.flags && c.flags[x].isDirty
    ensures x in ExpandAll(m, u, c, e, todo).0.flags && ExpandAll(m, u, c, e, todo).0.flags[x].isDirty
    decreases |todo|
  {
    hide Fits, AllOf, RequireAll;
    if todo != [] {
      var d := todo[0].1;
      if d.Need? && m.select(e, d.atom, c.selected).0 == Some(x) { DirtStays(c.flags[x], d.uses); }
      var (c1, outcome) := ExpandOne(m, u, c, e, todo[0]);
      assert c1.flags[x].isDirty;
      if outcome == Returned { ExpandKeepsDirt(m, u, c1, e, todo[1..], x); }
    }
  }

  /** An ebuild whose regeneration raised stays dirty. */
  lemma FailedStaysDirty<N, A(!new), S(!new)>(m: Emerge<N, A, S>, u: set<N>, c: Core<N, S>, e: N)
    requires Fits(m, u) && Good(c, u) && e in u && Start(m, u, c, e).1 != Returned
    ensures var d := Start(m, u, c, e).0; e in d.session && e in d.flags && d.flags[e].isDirty
  {
    hide Fits, ExpandAll, AllOf, Refresh, Within;
    RefreshKeepsDirt(c.flags[e], m.metadata(e).requiredUse);
    ExpandKeepsDirt(m, u, Refreshed(m, u, c, e), e, AllOf(m.metadata(e).dependencies), e);
  }

  // ----- a whole session

  /** One of the starts to come puts a requirement on `x` that schedules a value. */
  ghost predicate AskedAlong<N, A(!new), S(!new)>(m: Emerge<N, A, S>, u: set<N>, c: Core<N, S>, trace: seq<N>, x: N)
    requires Fits(m, u) && Good(c, u) && forall y :: y in trace ==> y in u
    decreases |trace|
  {
    trace != [] &&
    (AskedAtStart(m, u, c, trace[0], x) || AskedAlong(m, u, Start(m, u, c, trace[0]).0, trace[1..], x))
  }

  lemma {:induction false} ReplayDirtiesIff<N, A(!new), S(!new)>(m: Emerge<N, A, S>, u: set<N>, c: Core<N, S>,
                                                                 trace: seq<N>, x: N)
    requires Fits(m, u) && Good(c, u) && (forall y :: y in trace ==> y in u) && x in u && x !in trace
    requires Replay(m, u, c, trace).1 == Returned
    ensures var d := Replay(m, u, c, trace).0;
      x in d.flags && x in c.flags && (d.flags[x].isDirty <==> c.flags[x].isDirty || AskedAlong(m, u, c, trace, x))
    decreases |trace|
  {
    hide Fits, Start, AskedAtStart, AllOf;
    if trace != [] {
      StartDirtiesIff(m, u, c, trace[0], x);
      ReplayDirtiesIff(m, u, Start(m, u, c, trace[0]).0, trace[1..], x);
    }
  }

  /** After a run that returns normally, its member at place `j` is dirty exactly when a later start asks for that. */
  lemma MemberDirtyIff<N, A(!new), S(!new)>(m: Emerge<N, A, S>, u: set<N>, c: Core<N, S>, trace: seq<N>, j: nat)
    requires Fits(m, u) && Good(c, u) && (forall y :: y in trace ==> y in u) && NoRepeats(trace) && j < |trace|
    requires Replay(m, u, c, trace).1 == Returned
    ensures forall y :: y in trace[..j + 1] || y in trace[j + 1..] ==> y in u
    ensures var d := Replay(m, u, c, trace).0;
      && trace[j] in d.flags
      && (d.flags[trace[j]].isDirty <==>
        AskedAlong(m, u, Replay(m, u, c, trace[..j + 1]).0, trace[j + 1..], trace[j]))
  {
    hide Fits, Start, AskedAlong, AllOf, Within;
    var x, before, rest := trace[j], trace[..j], trace[j + 1..];
    assert trace == before + [x] + rest && trace[..j + 1] == before + [x];
    ReplayConcat(m, u, c, before + [x], rest);
    ReplayConcat(m, u, c, before, [x]);
    var c1 := Replay(m, u, c, before).0;
    StartIsReplay(m, u, c1, x);
    StartDirtiesIff(m, u, c1, x, x);
    ReplayDirtiesIff(m, u, Start(m, u, c1, x).0, rest, x);
  }

  /** When a new session returns normally, its members are the ebuilds of a trace, and a member is dirty at the end
      exactly when a requirement that schedules a value was put on it after its own start. */
  lemma SessionDirtyIff<N, A(!new), S(!new)>(m: Emerge<N, A, S>, u: set<N>, s: Resolution<N, S>, e: N)
    returns (trace: seq<N>)
    requires Fits(m, u) && GoodResolution(s, u) && e in u && s.core.session == {}
    requires Visit(m, u, s, e).1 == Returned
    ensures (forall x :: x in trace ==> x in u) && NoRepeats(trace)
    ensures Replay(m, u, s.core, trace) == (Visit(m, u, s, e).0.core, Returned)
    ensures var t := Visit(m, u, s, e).0.core;
      && t.session == (set x | x in trace)
      && forall j :: 0 <= j < |trace| ==>
        && (forall y :: y in trace[..j + 1] || y in trace[j + 1..] ==> y in u)
        && trace[j] in t.flags
        && (t.flags[trace[j]].isDirty <==>
          AskedAlong(m, u, Replay(m, u, s.core, trace[..j + 1]).0, trace[j + 1..], trace[j]))
  {
    hide Fits, Good, Visit, Replay, AskedAlong;
    trace := VisitIsReplay(m, u, s, e);
    forall j | 0 <= j < |trace|
      ensures (forall y :: y in trace[..j + 1] || y in trace[j + 1..] ==> y in u)
      ensures trace[j] in Visit(m, u, s, e).0.core.flags
      ensures Visit(m, u, s, e).0.core.flags[trace[j]].isDirty <==>
        AskedAlong(m, u, Replay(m, u, s.core, trace[..j + 1]).0, trace[j + 1..], trace[j])
    {
      MemberDirtyIff(m, u, s.core, trace, j);
    }
  }

  // ----- sessions that ask for nothing new

  /** No atom of any ebuild asks for a flag to be on or off outright, or names a default. */
  ghost predicate AsksForNothing<N, A, S>(m: Emerge<N, A, S>, u: set<N>) {
    forall e {:trigger m.metadata(e)} :: e in u ==>
      forall p :: p in AllOf(m.metadata(e).dependencies) && p.1.Need? ==>
        forall r :: r in p.1.uses ==> r.option != Enable && r.option != Disable && r.fallback == NoDefault
  }

  lemma {:induction false} NothingAsked<N, A(!new), S(!new)>(m: Emerge<N, A, S>, u: set<N>, c: Core<N, S>, e: N,
                                                             todo: seq<(nat, Dependency<A>)>, x: N)
    requires Fits(m, u) && Good(c, u) && e in u && forall p :: p in todo ==> p.0 < 4
    requires forall p :: p in todo && p.1.Need? ==>
      forall r :: r in p.1.uses ==> r.option != Enable && r.option != Disable && r.fallback == NoDefault
    ensures !Asked(m, u, c, e, todo, x)
    decreases |todo|
  {
    hide Fits, Good, ExpandOne, AllOf;
    if todo != [] {
      assert todo[0] in todo;
      NothingAsked(m, u, ExpandOne(m, u, c, e, todo[0]).0, e, todo[1..], x);
    }
  }

  lemma {:induction false} NothingAskedAlong<N, A(!new), S(!new)>(m: Emerge<N, A, S>, u: set<N>, c: Core<N, S>,
                                                                  trace: seq<N>, x: N)
    requires Fits(m, u) && Good(c, u) && (forall y :: y in trace ==> y in u) && AsksForNothing(m, u)
    ensures !AskedAlong(m, u, c, trace, x)
    decreases |trace|
  {
    hide Fits, Good, Start, Asked, Refreshed, AllOf;
    if trace != [] {
      var e := trace[0];
      if AskedAtStart(m, u, c, e, x) {
        RefreshedIsGood(m, u, c, e);
        NothingAsked(m, u, Refreshed(m, u, c, e), e, AllOf(m.metadata(e).dependencies), x);
      }
      NothingAskedAlong(m, u, Start(m, u, c, e).0, trace[1..], x);
    }
  }

  lemma RefreshedIsGood<N, A, S>(m: Emerge<N, A, S>, u: set<N>, c: Core<N, S>, e: N)
    requires Good(c, u) && e in u
    ensures Good(Refreshed(m, u, c, e), u)
  {
  }

  /** Where no atom asks for anything outright, a session that returns normally ends with every member clean. */
  lemma SessionEndsClean<N, A(!new), S(!new)>(m: Emerge<N, A, S>, u: set<N>, s: Resolution<N, S>, e: N)
    requires Fits(m, u) && GoodResolution(s, u) && e in u && s.core.session == {} && AsksForNothing(m, u)
    requires Visit(m, u, s, e).1 == Returned
    ensures AllClean(Visit(m, u, s, e).0.core, Visit(m, u, s, e).0.core.session)
  {
    hide Fits, Good, Visit, Replay, AskedAlong, AsksForNothing;
    var t := Visit(m, u, s, e).0.core;
    var trace := SessionDirtyIff(m, u, s, e);
    forall x | x in t.session && x in t.flags ensures !t.flags[x].isDirty {
      var j :| 0 <= j < |trace| && trace[j] == x;
      NothingAskedAlong(m, u, Replay(m, u, s.core, trace[..j + 1]).0, trace[j + 1..], x);
    }
  }

  /** So resolving again, in a new session, rebuilds nothing and changes nothing. */
  lemma SecondSessionIsStable<N, A(!new), S(!new)>(m: Emerge<N, A, S>, u: set<N>, s: Resolution<N, S>, e: N)
    requires Fits(m, u) && GoodResolution(s, u) && e in u && s.core.session == {} && AsksForNothing(m, u)
    requires Visit(m, u, s, e).1 == Returned
    ensures var t := Visit(m, u, s, e).0;
      var (again, outcome) := Visit(m, u, Restarted(t), e);
      && outcome == Returned && again.core == t.core
      && forall x :: x in t.core.session ==>
        x in again.resolved && x in t.resolved && again.resolved[x] == t.resolved[x]
  {
    hide Fits, GoodResolution, Visit, AsksForNothing, AllClean;
    SessionEndsClean(m, u, s, e);
    ResolvingAgainIsStable(m, u, s, e);
  }
}
