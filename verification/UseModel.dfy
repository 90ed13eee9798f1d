/** The USE flags of a selected ebuild on values: hooks that veto changes, and a queue of changes to come. */
module UseModel {
  import opened Options
  import opened RequiredUse
  import opened UseFlags

  /** How an atom asks for a flag. */
  datatype AtomUse = Enable | Disable | EnableIfOn | DisableIfOff | Equal | Opposite

  datatype UseSelection = UseSelection(useFlag: UseFlag, flag: AtomUse, target: bool, enforcing: bool)

  datatype State = State(
    iuse: Flags,
    useflags: Flags,
    useFlagHooks: map<string, seq<UseSelection>>,
    globalFlagHooks: seq<seq<Expr>>,
    queue: seq<UseFlag>,
    isDirty: bool)

  /** How a call ends; the resolver adds the last kind. */
  datatype Outcome =
    | Returned
    | RequiredUseException(suggestion: Suggestion)
    | KeyError
    | SelectionException

  /** The flags as get_use reads them: a flag that was set hides the one of the ebuild. */
  function Current(s: State): Flags { s.iuse + s.useflags }

  function Hooks(s: State, name: string): seq<UseSelection> {
    if name in s.useFlagHooks then s.useFlagHooks[name] else []
  }

  // ----- hooks

  /** A new selection, and the value it schedules, if any. */
  function Select(use: UseFlag, flag: AtomUse): (UseSelection, Option<bool>) {
    match flag
    case Enable => (UseSelection(use, flag, true, true), Some(true))
    case Disable => (UseSelection(use, flag, false, true), Some(false))
    case DisableIfOff => (UseSelection(use, flag, use.state, !use.state), None)
    case EnableIfOn => (UseSelection(use, flag, use.state, use.state), None)
    case Equal => (UseSelection(use, flag, use.state, true), None)
    case Opposite => (UseSelection(use, flag, !use.state, true), Some(!use.state))
  }

  function RunSelection(h: UseSelection, arg: bool): Outcome {
    if h.enforcing && arg != h.target then RequiredUseException(UseSuggestion(h.useFlag.name, h.target)) else Returned
  }

  /** The first exception that the hooks raise, in order. */
  function RunSelections(hs: seq<UseSelection>, arg: bool): Outcome {
    if hs == [] then Returned
    else if RunSelection(hs[0], arg) != Returned then RunSelection(hs[0], arg)
    else RunSelections(hs[1..], arg)
  }

  function RunRequiredUse(e: seq<Expr>, flags: Flags): Outcome {
    match Hook(flags, e)
    case Accepted => Returned
    case Rejected(s) => RequiredUseException(s)
    case UnknownFlag => KeyError
  }

  function RunGlobals(es: seq<seq<Expr>>, flags: Flags): Outcome {
    if es == [] then Returned
    else if RunRequiredUse(es[0], flags) != Returned then RunRequiredUse(es[0], flags)
    else RunGlobals(es[1..], flags)
  }

  // ----- the operations

  function AddUse(s: State, name: string, value: bool): State { s.(useflags := s.useflags[name := value]) }

  function ScheduleUse(s: State, use: UseFlag): State { s.(queue := s.queue + [use], isDirty := true) }

  /** The hook stays registered, and a scheduled value stays scheduled, even when the call raises. */
  function AddUseRequirement(s: State, name: string, flag: AtomUse): (State, Outcome) {
    if name !in Current(s) then (s, KeyError)
    else
      var use := UseFlag(name, Current(s)[name]);
      var (hook, scheduled) := Select(use, flag);
      var s' := if scheduled.Some? then ScheduleUse(s, UseFlag(name, scheduled.value)) else s;
      (s'.(useFlagHooks := s'.useFlagHooks[name := Hooks(s', name) + [hook]]), RunSelection(hook, Current(s')[name]))
  }

  function AddRequiredUse(s: State, e: seq<Expr>): (State, Outcome) {
    (s.(globalFlagHooks := s.globalFlagHooks + [e]), RunRequiredUse(e, Current(s)))
  }

  /** Takes one value from the queue; only a change runs the hooks. */
  function FlushOne(s: State): (State, Outcome)
    requires s.queue != []
  {
    var use := s.queue[0];
    var t := s.(queue := s.queue[1..]);
    if use.name !in Current(s) then (t, KeyError)
    else if Current(s)[use.name] == use.state then (t, Returned)
    else
      var t' := t.(useflags := t.useflags[use.name := use.state]);
      var first := RunSelections(Hooks(t', use.name), use.state);
      (t', if first != Returned then first else RunGlobals(t'.globalFlagHooks, Current(t')))
  }

  function FlushUse(s: State): (State, Outcome)
    decreases |s.queue|
  {
    if s.queue == [] then (s, Returned)
    else
      var (t, outcome) := FlushOne(s);
      if outcome != Returned then (t, outcome) else FlushUse(t)
  }

  // ----- the invariant

  /** Every enforcing selection has its way. */
  ghost predicate TargetsHold(s: State) {
    forall name, h :: name in s.useFlagHooks && h in s.useFlagHooks[name] && h.enforcing ==>
      On(Current(s), name, h.target)
  }

  ghost predicate ExpressionsHold(s: State) {
    forall e :: e in s.globalFlagHooks ==> Hook(Current(s), e) == Accepted
  }

  ghost predicate Inv(s: State) {
    && TargetsHold(s) && ExpressionsHold(s)
    && (forall name :: name in s.useFlagHooks ==> name in Current(s))
    && forall name, h :: name in s.useFlagHooks && h in s.useFlagHooks[name] ==> h.useFlag.name == name
  }

  /** No flag is held by two selections to different values. */
  lemma NoConflict(s: State, name: string, g: UseSelection, h: UseSelection)
    requires Inv(s) && name in s.useFlagHooks
    requires g in s.useFlagHooks[name] && h in s.useFlagHooks[name] && g.enforcing && h.enforcing
    ensures g.target == h.target
  {
    assert On(Current(s), name, g.target) && On(Current(s), name, h.target);
  }

  lemma {:induction false} SelectionsReturnIff(hs: seq<UseSelection>, arg: bool)
    ensures RunSelections(hs, arg) == Returned <==> forall h :: h in hs && h.enforcing ==> h.target == arg
  {
    if hs != [] {
      SelectionsReturnIff(hs[1..], arg);
      assert forall h :: h in hs <==> h == hs[0] || h in hs[1..];
    }
  }

  lemma {:induction false} GlobalsReturnIff(es: seq<seq<Expr>>, flags: Flags)
    ensures RunGlobals(es, flags) == Returned <==> forall e :: e in es ==> Hook(flags, e) == Accepted
  {
    hide Hook;
    if es != [] {
      GlobalsReturnIff(es[1..], flags);
      assert forall e :: e in es <==> e == es[0] || e in es[1..];
    }
  }

  // ----- one call

  /** Asking for a flag succeeds exactly when the flag is known and already as asked; asking for the opposite of
      a flag's state never does. */
  lemma RequirementReturnsIff(s: State, name: string, flag: AtomUse)
    ensures AddUseRequirement(s, name, flag).1 == Returned <==>
      name in Current(s) &&
      match flag
      case Enable => Current(s)[name]
      case Disable => !Current(s)[name]
      case Opposite => false
      case _ => true
  {
  }

  lemma RequirementKeepsInv(s: State, name: string, flag: AtomUse)
    requires Inv(s) && AddUseRequirement(s, name, flag).1 == Returned
    ensures Inv(AddUseRequirement(s, name, flag).0)
  {
    hide Hook;
    var t := AddUseRequirement(s, name, flag).0;
    forall n, h | n in t.useFlagHooks && h in t.useFlagHooks[n] && h.enforcing
      ensures On(Current(t), n, h.target)
    {
      if n in s.useFlagHooks && h in s.useFlagHooks[n] { assert On(Current(s), n, h.target); }
    }
  }

  lemma RequiredUseKeepsInv(s: State, e: seq<Expr>)
    requires Inv(s) && AddRequiredUse(s, e).1 == Returned
    ensures Inv(AddRequiredUse(s, e).0)
  {
    hide Hook;
    var t := AddRequiredUse(s, e).0;
    assert forall x :: x in t.globalFlagHooks ==> x in s.globalFlagHooks || x == e;
  }

  lemma ScheduleKeepsInv(s: State, use: UseFlag)
    requires Inv(s)
    ensures Inv(ScheduleUse(s, use))
  {
    hide Hook;
  }

  /** Making a flag known that was not changes no evaluation that had all its flags. */
  lemma {:induction false} EvaluationExtends(flags: Flags, flags': Flags, items: seq<Expr>)
    requires Evaluate(flags, items).Some? && forall k :: k in flags ==> k in flags' && flags'[k] == flags[k]
    ensures Evaluate(flags', items) == Evaluate(flags, items)
    decreases items
  {
    if items != [] {
      EvaluationExtends(flags, flags', items[..|items| - 1]);
      JudgementExtends(flags, flags', items[|items| - 1]);
    }
  }

  lemma {:induction false} JudgementExtends(flags: Flags, flags': Flags, x: Expr)
    requires Judge(flags, x).Some? && forall k :: k in flags ==> k in flags' && flags'[k] == flags[k]
    ensures Judge(flags', x) == Judge(flags, x)
    decreases x
  {
    match x
    case Literal(_, _) =>
    case Conditional(enable, name, depend) => if flags[name] == enable { EvaluationExtends(flags, flags', depend); }
    case LeastOne(items) => EvaluationExtends(flags, flags', items);
    case ExactOne(items) => EvaluationExtends(flags, flags', items);
    case MostOne(items) => EvaluationExtends(flags, flags', items);
  }

  lemma AddUseKeepsInv(s: State, name: string, value: bool)
    requires Inv(s) && name !in Current(s)
    ensures Inv(AddUse(s, name, value))
  {
    var t := AddUse(s, name, value);
    hide Evaluate;
    assert forall k :: k in Current(s) ==> k in Current(t) && Current(t)[k] == Current(s)[k];
    forall e | e in t.globalFlagHooks ensures Hook(Current(t), e) == Accepted {
      EvaluationExtends(Current(s), Current(t), e);
    }
    hide Hook;
    forall n, h | n in t.useFlagHooks && h in t.useFlagHooks[n] && h.enforcing ensures On(Current(t), n, h.target) {
      assert On(Current(s), n, h.target);
    }
  }

  // ----- flushing the queue

  lemma FlushOneKeepsInv(s: State)
    requires Inv(s) && s.queue != [] && FlushOne(s).1 == Returned
    ensures Inv(FlushOne(s).0)
  {
    hide Hook, RunSelections, RunGlobals;
    var use, t := s.queue[0], FlushOne(s).0;
    SelectionsReturnIff(Hooks(t, use.name), use.state);
    GlobalsReturnIff(t.globalFlagHooks, Current(t));
    forall n, h | n in t.useFlagHooks && h in t.useFlagHooks[n] && h.enforcing ensures On(Current(t), n, h.target) {
      assert On(Current(s), n, h.target);
    }
  }

  lemma {:induction false} FlushKeepsInv(s: State)
    requires Inv(s) && FlushUse(s).1 == Returned
    ensures Inv(FlushUse(s).0)
    decreases |s.queue|
  {
    hide Inv, FlushOne;
    if s.queue != [] {
      FlushOneKeepsInv(s);
      QueueShrinks(s);
      FlushKeepsInv(FlushOne(s).0);
    }
  }

  lemma QueueShrinks(s: State)
    requires s.queue != []
    ensures FlushOne(s).0.queue == s.queue[1..]
  {
  }

  /** The flags after the scheduled values have been set one after the other. */
  function Applied(flags: Flags, queue: seq<UseFlag>): Flags {
    if queue == [] then flags
    else Applied(flags, queue[..|queue| - 1])[queue[|queue| - 1].name := queue[|queue| - 1].state]
  }

  ghost predicate AllAccepted(es: seq<seq<Expr>>, flags: Flags) {
    forall e :: e in es ==> Hook(flags, e) == Accepted
  }

  ghost predicate AllAgree(hs: seq<UseSelection>, value: bool) {
    forall h :: h in hs && h.enforcing ==> h.target == value
  }

  /** What a flush needs: every scheduled flag is known, every scheduled value agrees with every selection that
      holds the flag, and the expressions hold after every step. */
  ghost predicate Agreeable(s: State) {
    && (forall i :: 0 <= i < |s.queue| ==>
      s.queue[i].name in Current(s) && AllAgree(Hooks(s, s.queue[i].name), s.queue[i].state))
    && (forall k :: 0 < k <= |s.queue| ==> AllAccepted(s.globalFlagHooks, Applied(Current(s), s.queue[..k])))
  }

  lemma FlushOneReturnsIff(s: State)
    requires Inv(s) && s.queue != []
    ensures var (use, t) := (s.queue[0], FlushOne(s).0);
      FlushOne(s).1 == Returned <==>
        use.name in Current(s) && AllAgree(Hooks(s, use.name), use.state)
        && AllAccepted(s.globalFlagHooks, Current(s)[use.name := use.state])
  {
    hide Hook, RunSelections, RunGlobals;
    var (use, t) := (s.queue[0], FlushOne(s).0);
    SelectionsReturnIff(Hooks(t, use.name), use.state);
    GlobalsReturnIff(t.globalFlagHooks, Current(t));
    if use.name in Current(s) {
      if Current(s)[use.name] == use.state {
        assert Current(s)[use.name := use.state] == Current(s);
      } else {
        assert Current(t) == Current(s)[use.name := use.state];
      }
    }
  }

  lemma FlushOneEffect(s: State)
    requires s.queue != [] && FlushOne(s).1 == Returned
    ensures var t := FlushOne(s).0;
      && Current(t) == Current(s)[s.queue[0].name := s.queue[0].state] && s.queue[0].name in Current(s)
      && t.queue == s.queue[1..] && t.useFlagHooks == s.useFlagHooks && t.globalFlagHooks == s.globalFlagHooks
  {
    hide Hook, RunSelections, RunGlobals;
  }

  lemma {:induction false} AppliedHead(flags: Flags, queue: seq<UseFlag>)
    requires queue != []
    ensures Applied(flags, queue) == Applied(flags[queue[0].name := queue[0].state], queue[1..])
  {
    if |queue| > 1 {
      AppliedHead(flags, queue[..|queue| - 1]);
      assert queue[..|queue| - 1][1..] == queue[1..][..|queue| - 2];
    } else {
      assert queue[..0] == [] && queue[1..] == [];
    }
  }

  lemma AgreeableSteps(s: State, t: State)
    requires s.queue != [] && s.queue[0].name in Current(s) && t.queue == s.queue[1..]
    requires Current(t) == Current(s)[s.queue[0].name := s.queue[0].state]
    requires t.useFlagHooks == s.useFlagHooks && t.globalFlagHooks == s.globalFlagHooks
    ensures Agreeable(s) <==>
      AllAgree(Hooks(s, s.queue[0].name), s.queue[0].state) && AllAccepted(s.globalFlagHooks, Current(t)) &&
        Agreeable(t)
  {
    hide AllAgree, AllAccepted, Applied, Current;
    var q := s.queue;
    forall k | 0 < k <= |q| ensures Applied(Current(s), q[..k]) == Applied(Current(t), t.queue[..k - 1]) {
      AppliedHead(Current(s), q[..k]);
      assert q[..k][1..] == t.queue[..k - 1];
    }
    NothingApplied(Current(t), t.queue);
    assert Applied(Current(s), q[..1]) == Current(t);
    if Agreeable(s) {
      forall i | 0 <= i < |t.queue|
        ensures t.queue[i].name in Current(t) && AllAgree(Hooks(t, t.queue[i].name), t.queue[i].state)
      {
        assert t.queue[i] == q[i + 1];
      }
      forall k | 0 < k <= |t.queue| ensures AllAccepted(t.globalFlagHooks, Applied(Current(t), t.queue[..k])) {
        assert Applied(Current(s), q[..k + 1]) == Applied(Current(t), t.queue[..k]);
      }
    }
    if AllAgree(Hooks(s, q[0].name), q[0].state) && AllAccepted(s.globalFlagHooks, Current(t)) && Agreeable(t) {
      forall i | 0 <= i < |q| ensures q[i].name in Current(s) && AllAgree(Hooks(s, q[i].name), q[i].state) {
        if i > 0 { assert q[i] == t.queue[i - 1]; }
      }
      forall k | 0 < k <= |q| ensures AllAccepted(s.globalFlagHooks, Applied(Current(s), q[..k])) {
        if k > 1 { assert Applied(Current(s), q[..k]) == Applied(Current(t), t.queue[..k - 1]); }
      }
    }
  }

  lemma NothingApplied(flags: Flags, queue: seq<UseFlag>)
    ensures queue[..0] == [] && Applied(flags, queue[..0]) == flags
  {
  }

  /** A flush returns normally exactly when the queue is agreeable; then the queue is empty and the flags are as
      scheduled, the last value of each flag standing. */
  lemma {:induction false} FlushReturnsIff(s: State)
    requires Inv(s)
    ensures FlushUse(s).1 == Returned <==> Agreeable(s)
    ensures FlushUse(s).1 == Returned ==>
      FlushUse(s).0.queue == [] && Current(FlushUse(s).0) == Applied(Current(s), s.queue)
    decreases |s.queue|
  {
    hide Inv, FlushOne, Current, Agreeable, AllAgree, AllAccepted, Hook;
    if s.queue == [] {
      EmptyIsAgreeable(s);
    } else {
      FlushOneReturnsIff(s);
      if FlushOne(s).1 == Returned {
        var t := FlushOne(s).0;
        FlushOneEffect(s);
        FlushOneKeepsInv(s);
        FlushReturnsIff(t);
        AgreeableSteps(s, t);
        AppliedHead(Current(s), s.queue);
      } else if Agreeable(s) {
        FirstIsAgreeable(s);
      }
    }
  }

  lemma EmptyIsAgreeable(s: State)
    requires s.queue == []
    ensures Agreeable(s)
  {
  }

  lemma FirstIsAgreeable(s: State)
    requires s.queue != [] && Agreeable(s)
    ensures var use := s.queue[0];
      use.name in Current(s) && AllAgree(Hooks(s, use.name), use.state)
      && AllAccepted(s.globalFlagHooks, Current(s)[use.name := use.state])
  {
    hide Hook;
    var q := s.queue;
    assert q[..1] == [q[0]] && [q[0]][..0] == [];
    assert Applied(Current(s), q[..1]) == Current(s)[q[0].name := q[0].state];
  }

  // ----- regeneration

  /** The flags' part of regenerate: flush the queue, then register the ebuild's expression, if it has one. */
  function Refresh(s: State, requiredUse: Option<seq<Expr>>): (State, Outcome) {
    var (t, outcome) := FlushUse(s);
    if outcome != Returned || requiredUse.None? then (t, outcome) else AddRequiredUse(t, requiredUse.value)
  }

  /** It returns normally exactly when the queue is agreeable and the expression is accepted with the flags as
      scheduled; then the invariant holds, the new expression included. */
  lemma RefreshReturnsIff(s: State, requiredUse: Option<seq<Expr>>)
    requires Inv(s)
    ensures Refresh(s, requiredUse).1 == Returned <==>
      Agreeable(s) && (requiredUse.Some? ==> Hook(Applied(Current(s), s.queue), requiredUse.value) == Accepted)
    ensures Refresh(s, requiredUse).1 == Returned ==>
      && Inv(Refresh(s, requiredUse).0)
      && Current(Refresh(s, requiredUse).0) == Applied(Current(s), s.queue)
      && (requiredUse.Some? ==> requiredUse.value in Refresh(s, requiredUse).0.globalFlagHooks)
  {
    hide Inv, Agreeable, FlushUse, Hook, Applied;
    FlushReturnsIff(s);
    if FlushUse(s).1 == Returned {
      FlushKeepsInv(s);
      if requiredUse.Some? && Refresh(s, requiredUse).1 == Returned {
        RequiredUseKeepsInv(FlushUse(s).0, requiredUse.value);
      }
    }
  }

  /** A value that was scheduled last stands after the next flush that returns normally. */
  lemma ScheduledValueStands(s: State, use: UseFlag)
    requires Inv(s) && FlushUse(ScheduleUse(s, use)).1 == Returned
    ensures On(Current(FlushUse(ScheduleUse(s, use)).0), use.name, use.state)
  {
    hide Inv, Agreeable, FlushUse, Hook;
    ScheduleKeepsInv(s, use);
    FlushReturnsIff(ScheduleUse(s, use));
    assert (s.queue + [use])[..|s.queue|] == s.queue;
  }

  // ----- runs

  datatype Call =
    | CallAddUse(name: string, value: bool)
    | CallRequirement(name: string, flag: AtomUse)
    | CallRequiredUse(e: seq<Expr>)
    | CallSchedule(use: UseFlag)
    | CallFlush

  function Do(s: State, c: Call): (State, Outcome) {
    match c
    case CallAddUse(name, value) => (AddUse(s, name, value), Returned)
    case CallRequirement(name, flag) => AddUseRequirement(s, name, flag)
    case CallRequiredUse(e) => AddRequiredUse(s, e)
    case CallSchedule(use) => (ScheduleUse(s, use), Returned)
    case CallFlush => FlushUse(s)
  }

  function Run(s: State, calls: seq<Call>): State {
    if calls == [] then s else Do(Run(s, calls[..|calls| - 1]), calls[|calls| - 1]).0
  }

  /** Every call returns normally, and a flag is only added when it is not known yet. */
  ghost predicate Smooth(s: State, calls: seq<Call>) {
    forall i :: 0 <= i < |calls| ==>
      && Do(Run(s, calls[..i]), calls[i]).1 == Returned
      && (calls[i].CallAddUse? ==> calls[i].name !in Current(Run(s, calls[..i])))
  }

  lemma InitiallyInv(iuse: Flags)
    ensures Inv(State(iuse, map[], map[], [], [], true))
  {
  }

  lemma DoKeepsInv(s: State, c: Call)
    requires Inv(s) && Do(s, c).1 == Returned && (c.CallAddUse? ==> c.name !in Current(s))
    ensures Inv(Do(s, c).0)
  {
    hide Inv, Hook, FlushUse, AddUseRequirement, AddRequiredUse, AddUse, ScheduleUse, Current;
    match c
    case CallAddUse(name, value) => AddUseKeepsInv(s, name, value);
    case CallRequirement(name, flag) => RequirementKeepsInv(s, name, flag);
    case CallRequiredUse(e) => RequiredUseKeepsInv(s, e);
    case CallSchedule(use) => ScheduleKeepsInv(s, use);
    case CallFlush => FlushKeepsInv(s);
  }

  /** Over any run of calls that all return normally, every enforcing selection has its way, every registered
      expression is accepted, and no flag is held to two values. */
  lemma {:induction false} RunKeepsInv(s: State, calls: seq<Call>)
    requires Inv(s) && Smooth(s, calls)
    ensures Inv(Run(s, calls))
  {
    hide Inv, Do, Current;
    if calls != [] {
      var init, last := calls[..|calls| - 1], calls[|calls| - 1];
      assert forall i :: 0 <= i < |init| ==> init[i] == calls[i] && init[..i] == calls[..i];
      RunKeepsInv(s, init);
      DoKeepsInv(Run(s, init), last);
    }
  }
}
