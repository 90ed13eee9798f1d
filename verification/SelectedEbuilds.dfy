/** A selected ebuild as the program keeps it: its USE flags and its dependencies are fields that methods reassign. */
module SelectedEbuilds {
  import opened Options
  import opened DependencyContainers
  import opened RequiredUse
  import opened UseFlags
  import opened UseModel
  import opened AtomRequirements

  class SelectedEbuild {
    const iuse: Flags
    var useflags: Flags
    var useFlagHooks: map<string, seq<UseSelection>>
    var globalFlagHooks: seq<seq<Expr>>
    var flags: seq<UseFlag>
    var isDirty: bool
    var generators: DependencyContainer<SelectedEbuild>
    var resolvedDeps: DependencyContainer<SelectedEbuild>

    /** The flags on values. */
    function View(): State
      reads `useflags, `useFlagHooks, `globalFlagHooks, `flags, `isDirty
    {
      State(iuse, useflags, useFlagHooks, globalFlagHooks, flags, isDirty)
    }

    constructor (iuse: Flags)
      ensures View() == State(iuse, map[], map[], [], [], true) && Inv(View())
      ensures generators == Empty() && resolvedDeps == Empty()
    {
      this.iuse := iuse;
      useflags, useFlagHooks, globalFlagHooks, flags, isDirty := map[], map[], [], [], true;
      generators, resolvedDeps := Empty(), Empty();
      new;
      InitiallyInv(iuse);
    }

    method HasUse(name: string) returns (r: bool)
      ensures r <==> name in Current(View())
    {
      r := name in useflags || name in iuse;
    }

    /** None stands for a KeyError. */
    method GetUse(name: string) returns (r: Option<bool>)
      ensures r == if name in Current(View()) then Some(Current(View())[name]) else None
    {
      if name !in useflags {
        return if name in iuse then Some(iuse[name]) else None;
      }
      return Some(useflags[name]);
    }

    method AddUse(name: string, value: bool)
      modifies `useflags
      ensures View() == UseModel.AddUse(old(View()), name, value)
    {
      useflags := useflags[name := value];
    }

    method ScheduleUse(use: UseFlag)
      modifies `flags, `isDirty
      ensures View() == UseModel.ScheduleUse(old(View()), use)
    {
      flags := flags + [use];
      isDirty := true;
    }

    /** Makes a selection; the value that it asks for is scheduled on the way. */
    method NewSelection(use: UseFlag, flag: AtomUse) returns (hook: UseSelection)
      modifies `flags, `isDirty
      ensures var (h, scheduled) := Select(use, flag);
        && hook == h
        && View() == if scheduled.Some? then UseModel.ScheduleUse(old(View()), UseFlag(use.name, scheduled.value))
                     else old(View())
    {
      var target, enforcing := use.state, false;
      match flag {
        case Enable =>
          target, enforcing := true, true;
          ScheduleUse(UseFlag(use.name, true));
        case Disable =>
          target, enforcing := false, true;
          ScheduleUse(UseFlag(use.name, false));
        case DisableIfOff => if !target { enforcing := true; }
        case EnableIfOn => if target { enforcing := true; }
        case Equal => enforcing := true;
        case Opposite =>
          target, enforcing := !target, true;
          ScheduleUse(UseFlag(use.name, target));
      }
      hook := UseSelection(use, flag, target, enforcing);
    }

    method AddUseRequirement(name: string, flag: AtomUse) returns (outcome: Outcome)
      modifies `flags, `isDirty, `useFlagHooks
      ensures (View(), outcome) == UseModel.AddUseRequirement(old(View()), name, flag)
    {
      var state := GetUse(name);
      if state.None? {
        return KeyError;
      }
      var use := UseFlag(name, state.value);
      var hook := NewSelection(use, flag);
      outcome := AddUseHook(use, hook);
    }

    method AddUseHook(use: UseFlag, hook: UseSelection) returns (outcome: Outcome)
      requires use.name in Current(View())
      modifies `useFlagHooks
      ensures View() ==
        old(View()).(useFlagHooks := old(useFlagHooks)[use.name := Hooks(old(View()), use.name) + [hook]])
      ensures outcome == RunSelection(hook, Current(old(View()))[use.name])
    {
      if use.name !in useFlagHooks {
        useFlagHooks := useFlagHooks[use.name := []];
      }
      useFlagHooks := useFlagHooks[use.name := useFlagHooks[use.name] + [hook]];
      var state := GetUse(use.name);
      outcome := RunSelection(hook, state.value);
    }

    /** One flag of an atom: it is asked for, or added with its default if the ebuild does not have it. */
    method RequireFlag(use: Requirement) returns (outcome: Outcome)
      modifies `useflags, `flags, `isDirty, `useFlagHooks
      ensures (View(), outcome) == AtomRequirements.RequireFlag(old(View()), use)
    {
      hide UseModel.AddUseRequirement, Current;
      var known := HasUse(use.name);
      if known {
        outcome := AddUseRequirement(use.name, use.option);
        return;
      }
      if use.fallback == NoDefault {
        return KeyError;
      }
      var atomFlag := if use.fallback == DefaultOn then Enable else Disable;
      AddUse(use.name, atomFlag == Enable);
      outcome := AddUseRequirement(use.name, atomFlag);
    }

    /** All flags of an atom, in order, up to the first exception. */
    method RequireAll(uses: seq<Requirement>) returns (outcome: Outcome)
      modifies `useflags, `flags, `isDirty, `useFlagHooks
      ensures (View(), outcome) == AtomRequirements.RequireAll(old(View()), uses)
    {
      hide AtomRequirements.RequireFlag;
      var i := 0;
      while i < |uses|
        invariant 0 <= i <= |uses|
        invariant AtomRequirements.RequireAll(old(View()), uses) == AtomRequirements.RequireAll(View(), uses[i..])
      {
        assert uses[i..][1..] == uses[i + 1..];
        outcome := RequireFlag(uses[i]);
        if outcome != Returned {
          return;
        }
        i := i + 1;
      }
      outcome := Returned;
    }

    /** Registers a REQUIRED_USE expression as a hook on every flag. */
    method AddRequiredUse(e: seq<Expr>) returns (outcome: Outcome)
      modifies `globalFlagHooks
      ensures (View(), outcome) == UseModel.AddRequiredUse(old(View()), e)
    {
      globalFlagHooks := globalFlagHooks + [e];
      outcome := RunExpression(e);
    }

    method RunExpression(e: seq<Expr>) returns (outcome: Outcome)
      ensures outcome == RunRequiredUse(e, Current(View()))
    {
      var result := RunHook(iuse + useflags, e);
      match result {
        case Accepted => outcome := Returned;
        case Rejected(s) => outcome := RequiredUseException(s);
        case UnknownFlag => outcome := KeyError;
      }
    }

    /** The flags' part of regenerate, which a dirty ebuild runs before it looks at its dependencies. */
    method Refresh(requiredUse: Option<seq<Expr>>) returns (outcome: Outcome)
      modifies `flags, `useflags, `globalFlagHooks
      ensures (View(), outcome) == UseModel.Refresh(old(View()), requiredUse)
    {
      hide UseModel.FlushUse, UseModel.AddRequiredUse;
      outcome := FlushUse();
      if outcome != Returned || requiredUse.None? {
        return;
      }
      outcome := AddRequiredUse(requiredUse.value);
    }

    /** Takes the scheduled values from the queue; the first exception of a hook ends the flush. */
    method FlushUse() returns (outcome: Outcome)
      modifies `flags, `useflags
      ensures (View(), outcome) == UseModel.FlushUse(old(View()))
    {
      hide FlushOne;
      while flags != []
        invariant UseModel.FlushUse(View()) == UseModel.FlushUse(old(View()))
        decreases |flags|
      {
        QueueShrinks(View());
        outcome := FlushNext();
        if outcome != Returned {
          return;
        }
      }
      outcome := Returned;
    }

    /** One round of the loop. */
    method FlushNext() returns (outcome: Outcome)
      requires flags != []
      modifies `flags, `useflags
      ensures (View(), outcome) == FlushOne(old(View()))
    {
      hide RunSelection, RunRequiredUse, Hook;
      var use := flags[0];
      flags := flags[1..];
      var state := GetUse(use.name);
      if state.None? {
        return KeyError;
      }
      if state.value != use.state {
        useflags := useflags[use.name := use.state];
        if use.name in useFlagHooks {
          var hooks := useFlagHooks[use.name];
          outcome := RunFlagHooks(hooks, use.state);
          if outcome != Returned {
            return;
          }
        }
        outcome := RunGlobalHooks();
        return;
      }
      outcome := Returned;
    }

    method RunFlagHooks(hooks: seq<UseSelection>, arg: bool) returns (outcome: Outcome)
      ensures outcome == RunSelections(hooks, arg)
    {
      var i := 0;
      while i < |hooks|
        invariant 0 <= i <= |hooks| && RunSelections(hooks, arg) == RunSelections(hooks[i..], arg)
      {
        outcome := RunSelection(hooks[i], arg);
        if outcome != Returned {
          return;
        }
        assert hooks[i..][1..] == hooks[i + 1..];
        i := i + 1;
      }
      outcome := Returned;
    }

    method RunGlobalHooks() returns (outcome: Outcome)
      ensures outcome == RunGlobals(globalFlagHooks, Current(View()))
    {
      hide RunRequiredUse;
      var i := 0;
      while i < |globalFlagHooks|
        invariant 0 <= i <= |globalFlagHooks|
        invariant RunGlobals(globalFlagHooks, Current(View())) == RunGlobals(globalFlagHooks[i..], Current(View()))
      {
        outcome := RunExpression(globalFlagHooks[i]);
        if outcome != Returned {
          return;
        }
        assert globalFlagHooks[i..][1..] == globalFlagHooks[i + 1..];
        i := i + 1;
      }
      outcome := Returned;
    }
  }
}
