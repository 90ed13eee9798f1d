/** What a requirement on a flag vetoes from then on: which flags it holds, and with what suggestion. */
module Vetoes {
  import opened AtomRequirements
  import opened RequiredUse
  import opened UseFlags
  import opened UseModel

  /** The ways of asking that hold a flag to the state it has. */
  predicate Holds(flag: AtomUse, state: bool) {
    || flag == Enable || flag == Disable || flag == Equal
    || (flag == EnableIfOn && state) || (flag == DisableIfOff && !state)
  }

  // ----- hooks stay over runs

  lemma KeptByDo(s: State, c: Call)
    requires c.CallAddUse? ==> c.name !in Current(s)
    ensures Kept(s, Do(s, c).0)
  {
    hide Hook, FlushUse, AddUseRequirement, AddUse;
    match c
    case CallAddUse(name, value) => KeptByAddUse(s, name, value);
    case CallRequirement(name, flag) => KeptByRequirement(s, name, flag);
    case CallRequiredUse(e) =>
    case CallSchedule(use) =>
    case CallFlush => KeptByFlush(s);
  }

  lemma {:induction false} KeptByRun(s: State, calls: seq<Call>)
    requires Smooth(s, calls)
    ensures Kept(s, Run(s, calls))
  {
    hide Kept, Do, Current;
    if calls == [] {
      KeptItself(s);
    } else {
      var init, last := calls[..|calls| - 1], calls[|calls| - 1];
      assert forall i :: 0 <= i < |init| ==> init[i] == calls[i] && init[..i] == calls[..i];
      KeptByRun(s, init);
      KeptByDo(Run(s, init), last);
      KeptOn(s, Run(s, init), Run(s, calls));
    }
  }

  // ----- flags that are held

  /** A requirement that returned normally leaves a selection that holds the flag to its state. */
  lemma RequirementHolds(s: State, name: string, flag: AtomUse)
    requires AddUseRequirement(s, name, flag).1 == Returned && Holds(flag, Current(s)[name])
    ensures HeldTo(AddUseRequirement(s, name, flag).0, name, Current(s)[name])
  {
    RequirementReturnsIff(s, name, flag);
    var t := AddUseRequirement(s, name, flag).0;
    var last := Hooks(t, name)[|Hooks(t, name)| - 1];
    assert last in Hooks(t, name) && last.enforcing && last.target == Current(s)[name];
  }

  /** Whatever is called afterwards, as long as all of it returns normally: the flag keeps the state it had. */
  lemma HeldFlagStays(s: State, name: string, flag: AtomUse, calls: seq<Call>)
    requires Inv(s) && AddUseRequirement(s, name, flag).1 == Returned && Holds(flag, Current(s)[name])
    requires Smooth(AddUseRequirement(s, name, flag).0, calls)
    ensures On(Current(Run(AddUseRequirement(s, name, flag).0, calls)), name, Current(s)[name])
  {
    hide Inv, Smooth, AddUseRequirement, HeldTo, Hooks, Run, Kept;
    var t := AddUseRequirement(s, name, flag).0;
    RequirementReturnsIff(s, name, flag);
    RequirementHolds(s, name, flag);
    RequirementKeepsInv(s, name, flag);
    RunKeepsInv(t, calls);
    KeptByRun(t, calls);
    HeldStays(t, Run(t, calls), name, Current(s)[name]);
    HeldIsOn(Run(t, calls), name, Current(s)[name]);
  }

  lemma {:induction false} SelectionsVeto(hs: seq<UseSelection>, name: string, value: bool)
    requires forall h :: h in hs ==> h.useFlag.name == name && (h.enforcing ==> h.target == value)
    requires exists h :: h in hs && h.enforcing
    ensures RunSelections(hs, !value) == RequiredUseException(UseSuggestion(name, value))
  {
    assert hs[0] in hs;
    if !hs[0].enforcing {
      assert forall h :: h in hs <==> h == hs[0] || h in hs[1..];
      SelectionsVeto(hs[1..], name, value);
    }
  }

  lemma HeldFlagVetoes(s: State, name: string, value: bool)
    requires Inv(s) && HeldTo(s, name, value) && s.queue != [] && s.queue[0] == UseFlag(name, !value)
    ensures FlushUse(s).1 == RequiredUseException(UseSuggestion(name, value))
  {
    hide Hook, RunSelections;
    HeldIsOn(s, name, value);
    var hs := Hooks(s, name);
    forall h | h in hs ensures h.useFlag.name == name && (h.enforcing ==> h.target == value) {
      if h.enforcing { HeldIsOn(s, name, h.target); }
    }
    SelectionsVeto(hs, name, value);
    assert FlushOne(s).1 == RequiredUseException(UseSuggestion(name, value));
  }

  lemma OtherQueue(s: State, queue: seq<UseFlag>, name: string, value: bool)
    ensures Inv(s) ==> Inv(s.(queue := queue))
    ensures HeldTo(s, name, value) ==> HeldTo(s.(queue := queue), name, value)
  {
    hide Hook;
  }

  /** And a flush that would set the flag to its opposite raises, with this very flag and state for a suggestion. */
  lemma OppositeIsVetoed(s: State, name: string, flag: AtomUse, calls: seq<Call>, rest: seq<UseFlag>)
    requires Inv(s) && AddUseRequirement(s, name, flag).1 == Returned && Holds(flag, Current(s)[name])
    requires Smooth(AddUseRequirement(s, name, flag).0, calls)
    ensures var u := Run(AddUseRequirement(s, name, flag).0, calls);
      FlushUse(u.(queue := [UseFlag(name, !Current(s)[name])] + rest)).1 ==
        RequiredUseException(UseSuggestion(name, Current(s)[name]))
  {
    hide Inv, Smooth, AddUseRequirement, HeldTo, Hooks, Run, Kept, FlushUse;
    RequirementReturnsIff(s, name, flag);
    var t := AddUseRequirement(s, name, flag).0;
    var u, queue := Run(t, calls), [UseFlag(name, !Current(s)[name])] + rest;
    RequirementHolds(s, name, flag);
    RequirementKeepsInv(s, name, flag);
    RunKeepsInv(t, calls);
    KeptByRun(t, calls);
    HeldStays(t, u, name, Current(s)[name]);
    OtherQueue(u, queue, name, Current(s)[name]);
    HeldFlagVetoes(u.(queue := queue), name, Current(s)[name]);
  }

  // ----- flags that are not held

  /** The two states answer every change alike. */
  ghost predicate SameVetoes(s: State, t: State) {
    && t.iuse == s.iuse && t.useflags == s.useflags && t.globalFlagHooks == s.globalFlagHooks && t.queue == s.queue
    && forall name, arg :: RunSelections(Hooks(t, name), arg) == RunSelections(Hooks(s, name), arg)
  }

  lemma {:induction false} SelectionsAppend(hs: seq<UseSelection>, h: UseSelection, arg: bool)
    requires !h.enforcing
    ensures RunSelections(hs + [h], arg) == RunSelections(hs, arg)
  {
    if hs == [] {
      assert hs + [h] == [h] && [h][1..] == [];
    } else {
      assert (hs + [h])[1..] == hs[1..] + [h];
      SelectionsAppend(hs[1..], h, arg);
    }
  }

  lemma {:induction false} SameFlush(s: State, t: State)
    requires SameVetoes(s, t)
    ensures FlushUse(s).1 == FlushUse(t).1 && Current(FlushUse(s).0) == Current(FlushUse(t).0)
    decreases |s.queue|
  {
    hide FlushOne, SameVetoes;
    SameQueue(s, t);
    if s.queue != [] {
      SameStep(s, t);
      QueueShrinks(s);
      if FlushOne(s).1 == Returned {
        SameFlush(FlushOne(s).0, FlushOne(t).0);
      } else {
        SameQueue(FlushOne(s).0, FlushOne(t).0);
      }
    }
  }

  lemma SameQueue(s: State, t: State)
    requires SameVetoes(s, t)
    ensures t.queue == s.queue && Current(t) == Current(s)
  {
  }

  lemma StepKeepsHooks(s: State)
    requires s.queue != []
    ensures var s' := FlushOne(s).0;
      && s'.iuse == s.iuse && s'.globalFlagHooks == s.globalFlagHooks && s'.queue == s.queue[1..]
      && forall name :: Hooks(s', name) == Hooks(s, name)
  {
    hide RunSelections, RunGlobals;
  }

  lemma SameChange(s: State, t: State)
    requires SameVetoes(s, t) && s.queue != []
    ensures t.queue != [] && FlushOne(t).1 == FlushOne(s).1 && FlushOne(t).0.useflags == FlushOne(s).0.useflags
  {
    hide RunSelections, RunGlobals;
    var use := s.queue[0];
    assert RunSelections(Hooks(t, use.name), use.state) == RunSelections(Hooks(s, use.name), use.state);
  }

  lemma SameStep(s: State, t: State)
    requires SameVetoes(s, t) && s.queue != []
    ensures t.queue != [] && FlushOne(t).1 == FlushOne(s).1 && SameVetoes(FlushOne(s).0, FlushOne(t).0)
  {
    hide RunSelections, RunGlobals, FlushOne, Hooks;
    SameChange(s, t);
    StepKeepsHooks(s);
    StepKeepsHooks(t);
  }

  /** Asking for a flag to stay on that is off, or to stay off that is on, vetoes nothing: every flush ends as it would
      without the requirement. */
  lemma UnheldFlagVetoesNothing(s: State, name: string, flag: AtomUse, queue: seq<UseFlag>)
    requires name in Current(s)
    requires (flag == EnableIfOn && !Current(s)[name]) || (flag == DisableIfOff && Current(s)[name])
    ensures AddUseRequirement(s, name, flag).1 == Returned
    ensures var (before, after) := (s.(queue := queue), AddUseRequirement(s, name, flag).0.(queue := queue));
      FlushUse(after).1 == FlushUse(before).1 && Current(FlushUse(after).0) == Current(FlushUse(before).0)
  {
    hide RunSelections, FlushUse;
    var t := AddUseRequirement(s, name, flag).0;
    var hook := Select(UseFlag(name, Current(s)[name]), flag).0;
    forall n, arg ensures RunSelections(Hooks(t, n), arg) == RunSelections(Hooks(s, n), arg) {
      if n == name { SelectionsAppend(Hooks(s, name), hook, arg); }
    }
    SameFlush(s.(queue := queue), t.(queue := queue));
  }

  // ----- what stays when a call raises

  /** Whether or not the call raises, the selection stays behind the earlier ones, and the value it asks for stays
      scheduled; what it holds the flag to goes by the way of asking and the state of the flag. */
  lemma RequirementIsKept(s: State, name: string, flag: AtomUse)
    requires name in Current(s)
    ensures var (t, state) := (AddUseRequirement(s, name, flag).0, Current(s)[name]);
      && Hooks(t, name) == Hooks(s, name) + [UseSelection(
        UseFlag(name, state), flag,
        if flag == Enable then true else if flag == Disable then false else if flag == Opposite then !state else state,
        (flag == EnableIfOn ==> state) && (flag == DisableIfOff ==> !state))]
      && t.queue == s.queue +
        (if flag == Enable then [UseFlag(name, true)] else if flag == Disable then [UseFlag(name, false)]
         else if flag == Opposite then [UseFlag(name, !state)] else [])
      && (forall n :: n != name ==> Hooks(t, n) == Hooks(s, n))
      && Current(t) == Current(s) && t.globalFlagHooks == s.globalFlagHooks
  {
    assert s.queue + [] == s.queue;
  }

  lemma {:induction false} GlobalsAppend(es: seq<seq<Expr>>, e: seq<Expr>, flags: Flags)
    ensures RunGlobals(es + [e], flags) ==
      if RunGlobals(es, flags) != Returned then RunGlobals(es, flags) else RunRequiredUse(e, flags)
  {
    hide RunRequiredUse;
    if es == [] {
      assert es + [e] == [e] && [e][1..] == [];
    } else {
      assert (es + [e])[1..] == es[1..] + [e];
      GlobalsAppend(es[1..], e, flags);
    }
  }

  /** An expression is watched from then on, even when its registration raised: a change of a flag that was let through
      before is let through exactly when the expression is accepted afterwards, and raises its suggestion otherwise. */
  lemma RefusedExpressionIsWatched(s: State, e: seq<Expr>, use: UseFlag)
    requires use.name in Current(s) && Current(s)[use.name] != use.state
    ensures var (before, t) := (FlushUse(s.(queue := [use])).1, AddRequiredUse(s, e).0.(queue := [use]));
      FlushUse(t).1 ==
        if before != Returned then before
        else
          match Hook(Current(s)[use.name := use.state], e)
          case Accepted => Returned
          case Rejected(suggestion) => RequiredUseException(suggestion)
          case UnknownFlag => KeyError
  {
    hide Hook, RunSelections, RunGlobals;
    var before, t := s.(queue := [use]), AddRequiredUse(s, e).0.(queue := [use]);
    OneChange(before, use);
    OneChange(t, use);
    GlobalsAppend(s.globalFlagHooks, e, Current(s)[use.name := use.state]);
  }

  /** A change that is the only one in the queue. */
  lemma OneChange(s: State, use: UseFlag)
    requires s.queue == [use] && use.name in Current(s) && Current(s)[use.name] != use.state
    ensures var first := RunSelections(Hooks(s, use.name), use.state);
      FlushUse(s).1 ==
        if first != Returned then first else RunGlobals(s.globalFlagHooks, Current(s)[use.name := use.state])
  {
    hide Hook, RunSelections, RunGlobals;
    var t := FlushOne(s).0;
    assert Current(t) == Current(s)[use.name := use.state] && t.queue == [];
    assert FlushUse(t) == (t, Returned);
  }

  /** A flush takes the values one by one: a value that the flag has already passes, whatever the hooks say; any other
      is set, and stays set when a hook raises, with the values behind it still in the queue. */
  lemma FlushOneByOne(s: State, use: UseFlag, rest: seq<UseFlag>)
    requires s.queue == [use] + rest
    ensures var t := s.(queue := rest);
      var changed := t.(useflags := s.useflags[use.name := use.state]);
      var alone := FlushUse(s.(queue := [use])).1;
      FlushUse(s) ==
        if use.name !in Current(s) then (t, KeyError)
        else if Current(s)[use.name] == use.state then FlushUse(t)
        else if alone != Returned then (changed, alone)
        else FlushUse(changed)
  {
    hide FlushOne, FlushUse, Current;
    FirstOfFlush(s);
    FirstTaken(s, use, rest);
  }

  lemma FirstTaken(s: State, use: UseFlag, rest: seq<UseFlag>)
    requires s.queue == [use] + rest
    ensures var t := s.(queue := rest);
      FlushOne(s) ==
        if use.name !in Current(s) then (t, KeyError)
        else if Current(s)[use.name] == use.state then (t, Returned)
        else (t.(useflags := s.useflags[use.name := use.state]), FlushUse(s.(queue := [use])).1)
  {
    hide RunSelections, RunGlobals, FlushUse;
    assert s.queue[1..] == rest;
    if use.name in Current(s) && Current(s)[use.name] != use.state {
      OneChange(s.(queue := [use]), use);
      assert Current(FlushOne(s).0) == Current(s)[use.name := use.state];
    }
  }

  lemma FirstOfFlush(s: State)
    requires s.queue != []
    ensures FlushUse(s) == if FlushOne(s).1 != Returned then FlushOne(s) else FlushUse(FlushOne(s).0)
  {
    hide FlushOne;
  }

  // ----- which exception

  /** Of the expressions, the first one that is not accepted raises. */
  lemma {:induction false} FirstExpressionRaises(es: seq<seq<Expr>>, flags: Flags, k: nat)
    requires k < |es| && Hook(flags, es[k]) != Accepted && forall i :: 0 <= i < k ==> Hook(flags, es[i]) == Accepted
    ensures Hook(flags, es[k]) == UnknownFlag ==> RunGlobals(es, flags) == KeyError
    ensures Hook(flags, es[k]).Rejected? ==>
      RunGlobals(es, flags) == RequiredUseException(Hook(flags, es[k]).suggestion)
  {
    hide Hook;
    if k > 0 {
      assert Hook(flags, es[0]) == Accepted;
      FirstExpressionRaises(es[1..], flags, k - 1);
    }
  }
}
