/** What an atom asks of the flags of the ebuild it selects, and what that does to the ebuild's flags. */
module AtomRequirements {
  import opened Options
  import opened RequiredUse
  import opened UseFlags
  import opened UseModel

  /** What to take a flag for that the ebuild does not have. */
  datatype UseDefault = NoDefault | DefaultOn | DefaultOff

  datatype Requirement = Requirement(name: string, option: AtomUse, fallback: UseDefault)

  /** A flag that the ebuild does not have is added with the default, and then asked for as just added. */
  function RequireFlag(s: State, r: Requirement): (State, Outcome) {
    if r.name in Current(s) then AddUseRequirement(s, r.name, r.option)
    else
      match r.fallback
      case NoDefault => (s, KeyError)
      case DefaultOn => AddUseRequirement(AddUse(s, r.name, true), r.name, Enable)
      case DefaultOff => AddUseRequirement(AddUse(s, r.name, false), r.name, Disable)
  }

  function RequireAll(s: State, rs: seq<Requirement>): (State, Outcome)
    decreases |rs|
  {
    if rs == [] then (s, Returned)
    else
      var (t, outcome) := RequireFlag(s, rs[0]);
      if outcome != Returned then (t, outcome) else RequireAll(t, rs[1..])
  }

  // ----- hooks stay

  /** No hook and no flag is lost, and the ebuild's own flags stay. */
  ghost predicate Kept(s: State, t: State) {
    && t.iuse == s.iuse && Current(s).Keys <= Current(t).Keys
    && (forall name, h :: h in Hooks(s, name) ==> h in Hooks(t, name))
    && (forall e :: e in s.globalFlagHooks ==> e in t.globalFlagHooks)
  }

  lemma KeptOn(s: State, t: State, v: State)
    requires Kept(s, t) && Kept(t, v)
    ensures Kept(s, v)
  {
    hide Hooks;
  }

  lemma KeptByRequirement(s: State, name: string, flag: AtomUse)
    ensures Kept(s, AddUseRequirement(s, name, flag).0)
  {
  }

  lemma KeptByFlag(s: State, r: Requirement)
    ensures Kept(s, RequireFlag(s, r).0)
  {
    hide AddUseRequirement, Kept;
    KeptByRequirement(s, r.name, r.option);
    KeptByAddUse(s, r.name, true);
    KeptByAddUse(s, r.name, false);
    KeptByRequirement(AddUse(s, r.name, true), r.name, Enable);
    KeptByRequirement(AddUse(s, r.name, false), r.name, Disable);
    KeptItself(s);
    if r.fallback == DefaultOn {
      KeptOn(s, AddUse(s, r.name, true), AddUseRequirement(AddUse(s, r.name, true), r.name, Enable).0);
    } else {
      KeptOn(s, AddUse(s, r.name, false), AddUseRequirement(AddUse(s, r.name, false), r.name, Disable).0);
    }
  }

  lemma KeptItself(s: State)
    ensures Kept(s, s)
  {
  }

  lemma KeptByAddUse(s: State, name: string, value: bool)
    ensures Kept(s, AddUse(s, name, value))
  {
  }

  lemma {:induction false} KeptByAll(s: State, rs: seq<Requirement>)
    ensures Kept(s, RequireAll(s, rs).0)
    decreases |rs|
  {
    hide Kept, RequireFlag;
    if rs == [] {
      KeptItself(s);
    } else {
      var (t, outcome) := RequireFlag(s, rs[0]);
      KeptByFlag(s, rs[0]);
      if outcome == Returned {
        KeptByAll(t, rs[1..]);
        KeptOn(s, t, RequireAll(t, rs[1..]).0);
      }
    }
  }

  lemma {:induction false} KeptByFlush(s: State)
    ensures Kept(s, FlushUse(s).0)
    decreases |s.queue|
  {
    hide Kept, FlushOne;
    if s.queue == [] {
      KeptItself(s);
    } else {
      var (t, outcome) := FlushOne(s);
      KeptByFlushOne(s);
      QueueShrinks(s);
      if outcome == Returned {
        KeptByFlush(t);
        KeptOn(s, t, FlushUse(t).0);
      }
    }
  }

  lemma KeptByFlushOne(s: State)
    requires s.queue != []
    ensures Kept(s, FlushOne(s).0)
  {
    hide Hook, RunSelections, RunGlobals;
  }

  lemma KeptByRefresh(s: State, requiredUse: Option<seq<Expr>>)
    ensures Kept(s, Refresh(s, requiredUse).0)
  {
    hide FlushUse, Hook;
    KeptByFlush(s);
  }

  // ----- what a requirement is worth

  /** A selection holds the flag to the value. */
  ghost predicate HeldTo(s: State, name: string, value: bool) {
    exists h :: h in Hooks(s, name) && h.enforcing && h.target == value
  }

  /** A hook stands for the requirement: as the atom asks, or, for a flag that is not the ebuild's own, as its
      default says. */
  ghost predicate Noted(s: State, r: Requirement) {
    || match r.option {
         case Enable => HeldTo(s, r.name, true)
         case Disable => HeldTo(s, r.name, false)
         case Opposite => false
         case _ => Hooks(s, r.name) != []
       }
    || (r.name !in s.iuse && match r.fallback {
         case NoDefault => false
         case DefaultOn => HeldTo(s, r.name, true)
         case DefaultOff => HeldTo(s, r.name, false)
       })
  }

  predicate AsAsked(flags: Flags, name: string, option: AtomUse) {
    name in flags &&
    match option
    case Enable => flags[name]
    case Disable => !flags[name]
    case Opposite => false
    case _ => true
  }

  /** The flags are as the atom asks, or, for a flag that is not the ebuild's own, as its default says. */
  predicate Honoured(s: State, r: Requirement) {
    || AsAsked(Current(s), r.name, r.option)
    || (r.name !in s.iuse && r.fallback != NoDefault && On(Current(s), r.name, r.fallback == DefaultOn))
  }

  lemma RequirementNoted(s: State, name: string, flag: AtomUse)
    requires AddUseRequirement(s, name, flag).1 == Returned
    ensures var t := AddUseRequirement(s, name, flag).0;
      && flag != Opposite && Hooks(t, name) != []
      && (flag == Enable ==> HeldTo(t, name, true)) && (flag == Disable ==> HeldTo(t, name, false))
  {
    var use := UseFlag(name, Current(s)[name]);
    var hook, t := Select(use, flag).0, AddUseRequirement(s, name, flag).0;
    assert Hooks(t, name)[|Hooks(t, name)| - 1] == hook;
    assert hook in Hooks(t, name);
  }

  lemma FlagNoted(s: State, r: Requirement)
    requires RequireFlag(s, r).1 == Returned
    ensures Noted(RequireFlag(s, r).0, r)
  {
    hide AddUseRequirement, Hooks, HeldTo;
    if r.name in Current(s) {
      RequirementNoted(s, r.name, r.option);
    } else if r.fallback == DefaultOn {
      RequirementNoted(AddUse(s, r.name, true), r.name, Enable);
    } else {
      RequirementNoted(AddUse(s, r.name, false), r.name, Disable);
    }
    KeptByFlag(s, r);
  }

  lemma NotedStays(s: State, t: State, r: Requirement)
    requires Kept(s, t) && Noted(s, r)
    ensures Noted(t, r)
  {
    hide Hooks;
    HeldStays(s, t, r.name, true);
    HeldStays(s, t, r.name, false);
    if Hooks(s, r.name) != [] { assert Hooks(s, r.name)[0] in Hooks(t, r.name); }
  }

  lemma HeldStays(s: State, t: State, name: string, value: bool)
    requires Kept(s, t)
    ensures HeldTo(s, name, value) ==> HeldTo(t, name, value)
  {
    hide Hooks;
    if h :| h in Hooks(s, name) && h.enforcing && h.target == value { assert h in Hooks(t, name); }
  }

  lemma FlagKeepsInv(s: State, r: Requirement)
    requires Inv(s) && RequireFlag(s, r).1 == Returned
    ensures Inv(RequireFlag(s, r).0)
  {
    hide Inv, AddUseRequirement, Current;
    if r.name in Current(s) {
      RequirementKeepsInv(s, r.name, r.option);
    } else if r.fallback == DefaultOn {
      AddUseKeepsInv(s, r.name, true);
      RequirementKeepsInv(AddUse(s, r.name, true), r.name, Enable);
    } else {
      AddUseKeepsInv(s, r.name, false);
      RequirementKeepsInv(AddUse(s, r.name, false), r.name, Disable);
    }
  }

  /** Requirements that return normally keep the invariant, and a hook stands for each. */
  lemma {:induction false} RequireAllNotes(s: State, rs: seq<Requirement>)
    requires Inv(s) && RequireAll(s, rs).1 == Returned
    ensures var t := RequireAll(s, rs).0; Inv(t) && Kept(s, t) && forall r :: r in rs ==> Noted(t, r)
    decreases |rs|
  {
    hide Inv, RequireFlag, Noted, Kept;
    KeptByAll(s, rs);
    if rs != [] {
      var t, v := RequireFlag(s, rs[0]).0, RequireAll(s, rs).0;
      FlagKeepsInv(s, rs[0]);
      RequireAllNotes(t, rs[1..]);
      FlagNoted(s, rs[0]);
      NotedStays(t, v, rs[0]);
      assert forall r :: r in rs <==> r == rs[0] || r in rs[1..];
    }
  }

  /** While the invariant holds, a requirement that a hook stands for is met. */
  lemma NotedIsHonoured(s: State, r: Requirement)
    requires Inv(s) && Noted(s, r)
    ensures Honoured(s, r)
  {
    hide Current;
    HeldIsOn(s, r.name, true);
    HeldIsOn(s, r.name, false);
  }

  lemma HeldIsOn(s: State, name: string, value: bool)
    requires Inv(s)
    ensures HeldTo(s, name, value) ==> On(Current(s), name, value)
    ensures Hooks(s, name) != [] ==> name in Current(s)
  {
    hide Current;
    if h :| h in Hooks(s, name) && h.enforcing && h.target == value {
      assert name in s.useFlagHooks && h in s.useFlagHooks[name];
    }
  }

  // ----- flags whose schedule asks for nothing new

  /** Every scheduled value is the flag's value already. */
  ghost predicate Calm(s: State) {
    forall i :: 0 <= i < |s.queue| ==> On(Current(s), s.queue[i].name, s.queue[i].state)
  }

  ghost predicate Grows(flags: Flags, flags': Flags) {
    forall k :: k in flags ==> k in flags' && flags'[k] == flags[k]
  }

  /** A flush of such a schedule changes no flag and runs no hook. */
  lemma {:induction false} CalmFlush(s: State)
    requires Calm(s)
    ensures FlushUse(s) == (s.(queue := []), Returned)
    decreases |s.queue|
  {
    if s.queue != [] {
      assert On(Current(s), s.queue[0].name, s.queue[0].state);
      var t := s.(queue := s.queue[1..]);
      assert FlushOne(s) == (t, Returned);
      CalmFlush(t);
    }
  }

  lemma CalmRefresh(s: State, requiredUse: Option<seq<Expr>>)
    requires Calm(s)
    ensures var (t, outcome) := Refresh(s, requiredUse);
      && outcome == (if requiredUse.None? then Returned else RunRequiredUse(requiredUse.value, Current(s)))
      && Calm(t) && Current(t) == Current(s)
  {
    hide Hook, FlushUse;
    CalmFlush(s);
  }

  lemma CalmRequirement(s: State, name: string, flag: AtomUse)
    requires Calm(s)
    ensures AddUseRequirement(s, name, flag).1 == Returned <==> AsAsked(Current(s), name, flag)
    ensures var (t, outcome) := AddUseRequirement(s, name, flag);
      outcome == Returned ==> Calm(t) && Current(t) == Current(s)
  {
  }

  lemma CalmAddUse(s: State, name: string, value: bool)
    requires Calm(s) && name !in Current(s)
    ensures var t := AddUse(s, name, value); Calm(t) && Grows(Current(s), Current(t)) && On(Current(t), name, value)
  {
    var t := AddUse(s, name, value);
    assert forall i :: 0 <= i < |t.queue| ==> On(Current(s), t.queue[i].name, t.queue[i].state);
  }

  /** A requirement that returns normally changes no flag; it may add the one it asks for. */
  lemma CalmFlag(s: State, r: Requirement)
    requires Calm(s)
    ensures var (t, outcome) := RequireFlag(s, r);
      && (outcome == Returned ==> Calm(t) && Grows(Current(s), Current(t)))
      && (r.name in Current(s) || r.fallback == NoDefault ==>
        && (outcome == Returned <==> AsAsked(Current(s), r.name, r.option))
        && (outcome == Returned ==> Current(t) == Current(s)))
  {
    hide AddUseRequirement, AddUse, Current, Calm;
    if r.name in Current(s) {
      CalmRequirement(s, r.name, r.option);
    } else if r.fallback != NoDefault {
      var value := r.fallback == DefaultOn;
      CalmAddUse(s, r.name, value);
      CalmRequirement(AddUse(s, r.name, value), r.name, if value then Enable else Disable);
    }
  }

  lemma {:induction false} CalmAll(s: State, rs: seq<Requirement>)
    requires Calm(s)
    ensures var (t, outcome) := RequireAll(s, rs);
      && (outcome == Returned ==> Calm(t) && Grows(Current(s), Current(t)))
      && ((forall r :: r in rs ==> r.name in Current(s) || r.fallback == NoDefault) ==>
        && (outcome == Returned <==> forall r :: r in rs ==> AsAsked(Current(s), r.name, r.option))
        && (outcome == Returned ==> Current(t) == Current(s)))
    decreases |rs|
  {
    hide RequireFlag, Current, Calm, AsAsked;
    if rs != [] {
      var t := RequireFlag(s, rs[0]).0;
      CalmFlag(s, rs[0]);
      assert forall r :: r in rs <==> r == rs[0] || r in rs[1..];
      if RequireFlag(s, rs[0]).1 == Returned { CalmAll(t, rs[1..]); }
    }
  }

  // ----- what a requirement raises

  lemma RequirementRaises(s: State, name: string, flag: AtomUse)
    requires name in Current(s)
    ensures var state := Current(s)[name];
      AddUseRequirement(s, name, flag).1 ==
        if flag == Enable && !state then RequiredUseException(UseSuggestion(name, true))
        else if flag == Disable && state then RequiredUseException(UseSuggestion(name, false))
        else if flag == Opposite then RequiredUseException(UseSuggestion(name, !state))
        else Returned
  {
  }

  /** The exception of a single flag: an unknown flag without a default is a KeyError; a known one that is not as the
      atom asks raises with the flag and the value asked for. */
  lemma RequireFlagRaises(s: State, r: Requirement)
    ensures r.name !in Current(s) ==> RequireFlag(s, r).1 == if r.fallback == NoDefault then KeyError else Returned
    ensures r.name in Current(s) ==>
      var state := Current(s)[r.name];
      RequireFlag(s, r).1 ==
        if r.option == Enable && !state then RequiredUseException(UseSuggestion(r.name, true))
        else if r.option == Disable && state then RequiredUseException(UseSuggestion(r.name, false))
        else if r.option == Opposite then RequiredUseException(UseSuggestion(r.name, !state))
        else Returned
  {
    hide AddUseRequirement;
    if r.name in Current(s) {
      RequirementRaises(s, r.name, r.option);
    } else {
      RequirementRaises(AddUse(s, r.name, true), r.name, Enable);
      RequirementRaises(AddUse(s, r.name, false), r.name, Disable);
    }
  }

  /** An atom raises what the first of its flags raises that does. */
  lemma {:induction false} FirstFlagRaises(s: State, rs: seq<Requirement>, k: nat)
    requires k < |rs| && RequireAll(s, rs[..k]).1 == Returned
    requires RequireFlag(RequireAll(s, rs[..k]).0, rs[k]).1 != Returned
    ensures RequireAll(s, rs).1 == RequireFlag(RequireAll(s, rs[..k]).0, rs[k]).1
    decreases k
  {
    hide RequireFlag;
    if k > 0 {
      assert rs[..k][0] == rs[0] && rs[..k][1..] == rs[1..][..k - 1];
      FirstFlagRaises(RequireFlag(s, rs[0]).0, rs[1..], k - 1);
    } else {
      assert rs[..0] == [];
    }
  }

  // ----- dirt

  /** Requirements may make an ebuild dirty, and never clean. */
  lemma {:induction false} DirtStays(s: State, rs: seq<Requirement>)
    requires s.isDirty
    ensures RequireAll(s, rs).0.isDirty
    decreases |rs|
  {
    hide RequireFlag;
    if rs != [] {
      DirtStaysOnce(s, rs[0]);
      if RequireFlag(s, rs[0]).1 == Returned { DirtStays(RequireFlag(s, rs[0]).0, rs[1..]); }
    }
  }

  lemma DirtStaysOnce(s: State, r: Requirement)
    requires s.isDirty
    ensures RequireFlag(s, r).0.isDirty
  {
  }

  // ----- defaults

  lemma DefaultTaken(s: State, name: string, option: AtomUse, fallback: UseDefault)
    requires name !in Current(s) && fallback != NoDefault
    ensures var (t, outcome) := RequireFlag(s, Requirement(name, option, fallback));
      outcome == Returned && On(Current(t), name, fallback == DefaultOn)
  {
  }

  lemma RequirePair(s: State, r: Requirement, r': Requirement)
    requires RequireFlag(s, r).1 == Returned
    ensures RequireAll(s, [r, r']).1 == RequireFlag(RequireFlag(s, r).0, r').1
  {
    hide RequireFlag;
    var t := RequireFlag(s, r).0;
    assert [r, r'][1..] == [r'] && [r'][1..] == [];
    assert RequireAll(t, [r']).1 == RequireFlag(t, r').1;
  }

  /** A flag that the ebuild does not have gets the default of the first atom that asks for it: in one order these two
      requirements return normally, in the other they do not. */
  lemma DefaultsDependOnOrder(s: State)
    requires "a" !in Current(s)
    ensures var on, off := Requirement("a", Enable, DefaultOn), Requirement("a", Enable, DefaultOff);
      RequireAll(s, [on, off]).1 == Returned && RequireAll(s, [off, on]).1 != Returned
  {
    var on, off := Requirement("a", Enable, DefaultOn), Requirement("a", Enable, DefaultOff);
    hide AddUseRequirement, Current;
    DefaultTaken(s, "a", Enable, DefaultOn);
    DefaultTaken(s, "a", Enable, DefaultOff);
    RequirementReturnsIff(RequireFlag(s, on).0, "a", Enable);
    RequirementReturnsIff(RequireFlag(s, off).0, "a", Enable);
    RequirePair(s, on, off);
    RequirePair(s, off, on);
  }
}
