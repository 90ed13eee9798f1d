/** REQUIRED_USE expressions: the recursive evaluator with its suggestions, and what it accepts.

    The evaluator takes a conditional whose guard is not met for unsatisfied. `Strict` says so outright;
    `Meaning` reads a conditional as an implication instead. */
module RequiredUse {
  import opened Options

  type Flags = map<string, bool>

  /** A literal `name` or `!name`, a conditional with such a guard, or a group. */
  datatype Expr =
    | Literal(enable: bool, name: string)
    | Conditional(enable: bool, name: string, depend: seq<Expr>)
    | LeastOne(items: seq<Expr>)
    | ExactOne(items: seq<Expr>)
    | MostOne(items: seq<Expr>)

  datatype Operator = Any | One | AtMostOne | All

  datatype Suggestion =
    | UseSuggestion(useName: string, value: bool)
    | SuggestionExpression(operator: Operator, suggestions: seq<Suggestion>)

  /** How many of the `n` expressions hold, and one suggestion for each that does not. */
  datatype Evaluation = Evaluation(suggestions: seq<Suggestion>, k: nat, n: nat)

  datatype Verdict = Holds | Fails(suggestion: Suggestion)

  // ----- the evaluator; none stands for the KeyError of an unknown flag

  function Evaluate(flags: Flags, items: seq<Expr>): Option<Evaluation>
    decreases items
  {
    if items == [] then Some(Evaluation([], 0, 0))
    else
      var last := |items| - 1;
      match (Evaluate(flags, items[..last]), Judge(flags, items[last]))
      case (Some(e), Some(Holds)) => Some(Evaluation(e.suggestions, e.k + 1, e.n + 1))
      case (Some(e), Some(Fails(s))) => Some(Evaluation(e.suggestions + [s], e.k, e.n + 1))
      case _ => None
  }

  function Judge(flags: Flags, x: Expr): Option<Verdict>
    decreases x
  {
    match x
    case Literal(enable, name) =>
      if name !in flags then None
      else if flags[name] != enable then Some(Fails(UseSuggestion(name, !flags[name])))
      else Some(Holds)
    case Conditional(enable, name, depend) =>
      if name !in flags then None
      else if flags[name] != enable then Some(Fails(UseSuggestion(name, !flags[name])))
      else
        (match Evaluate(flags, depend)
         case None => None
         case Some(e) =>
           if e.k == e.n then Some(Holds)
           else Some(Fails(SuggestionExpression(Any,
             [UseSuggestion(name, !flags[name]), SuggestionExpression(All, e.suggestions)]))))
    case LeastOne(items) =>
      (match Evaluate(flags, items)
       case None => None
       case Some(e) => Some(if e.k >= 1 then Holds else Fails(SuggestionExpression(Any, e.suggestions))))
    case ExactOne(items) =>
      (match Evaluate(flags, items)
       case None => None
       case Some(e) => Some(if e.k == 1 then Holds else Fails(SuggestionExpression(One, e.suggestions))))
    case MostOne(items) =>
      (match Evaluate(flags, items)
       case None => None
       case Some(e) => Some(if e.k <= 1 then Holds else Fails(SuggestionExpression(AtMostOne, e.suggestions))))
  }

  datatype HookResult = Accepted | Rejected(suggestion: Suggestion) | UnknownFlag

  /** The outcome of the hook: no exception, a RequiredUseException, or a KeyError. */
  function Hook(flags: Flags, items: seq<Expr>): HookResult {
    match Evaluate(flags, items)
    case None => UnknownFlag
    case Some(e) => if e.k == e.n then Accepted else Rejected(SuggestionExpression(All, e.suggestions))
  }

  // ----- the program's loop

  method EvaluateRequiredUse(flags: Flags, operator: Operator, expr: seq<Expr>)
    returns (r: Option<(Suggestion, nat, nat)>)
    ensures r == match Evaluate(flags, expr)
      case None => None
      case Some(e) => Some((SuggestionExpression(operator, e.suggestions), e.k, e.n))
    decreases expr
  {
    hide Judge;
    var n, k, suggestions := 0, 0, [];
    var i := 0;
    while i < |expr|
      invariant 0 <= i <= |expr| && Evaluate(flags, expr[..i]) == Some(Evaluation(suggestions, k, n))
    {
      assert expr[..i + 1][..i] == expr[..i];
      n := n + 1;
      var verdict := EvaluateSingle(flags, expr[i]);
      match verdict {
        case None =>
          UnknownAt(flags, expr, i);
          return None;
        case Some(Holds) => k := k + 1;
        case Some(Fails(s)) => suggestions := suggestions + [s];
      }
      i := i + 1;
    }
    assert expr[..i] == expr;
    return Some((SuggestionExpression(operator, suggestions), k, n));
  }

  /** One round of the loop: the branches over the kind of the expression. */
  method EvaluateSingle(flags: Flags, reqUse: Expr) returns (verdict: Option<Verdict>)
    ensures verdict == Judge(flags, reqUse)
    decreases reqUse
  {
    hide Evaluate;
    var child;
    match reqUse {
      case Literal(target, name) =>
        if name !in flags { return None; }
        var state := flags[name];
        return Some(if state == target then Holds else Fails(UseSuggestion(name, !state)));
      case Conditional(target, name, depend) =>
        if name !in flags { return None; }
        var state := flags[name];
        if state != target {
          return Some(Fails(UseSuggestion(name, !state)));
        }
        child := EvaluateRequiredUse(flags, All, depend);
        if child == None { return None; }
        if child.value.1 == child.value.2 {
          return Some(Holds);
        }
        return Some(Fails(SuggestionExpression(Any, [UseSuggestion(name, !state), child.value.0])));
      case LeastOne(items) =>
        child := EvaluateRequiredUse(flags, Any, items);
        if child == None { return None; }
        return Some(if child.value.1 >= 1 then Holds else Fails(child.value.0));
      case ExactOne(items) =>
        child := EvaluateRequiredUse(flags, One, items);
        if child == None { return None; }
        return Some(if child.value.1 == 1 then Holds else Fails(child.value.0));
      case MostOne(items) =>
        child := EvaluateRequiredUse(flags, AtMostOne, items);
        if child == None { return None; }
        return Some(if child.value.1 <= 1 then Holds else Fails(child.value.0));
    }
  }

  lemma {:induction false} UnknownAt(flags: Flags, items: seq<Expr>, i: nat)
    requires i < |items| && Judge(flags, items[i]) == None
    ensures Evaluate(flags, items) == None
    decreases |items|
  {
    if i < |items| - 1 { UnknownAt(flags, items[..|items| - 1], i); }
  }

  method RunHook(flags: Flags, expression: seq<Expr>) returns (r: HookResult)
    ensures r == Hook(flags, expression)
  {
    var result := EvaluateRequiredUse(flags, All, expression);
    match result {
      case None => r := UnknownFlag;
      case Some((suggestions, k, n)) => r := if k != n then Rejected(suggestions) else Accepted;
    }
  }

  // ----- what is accepted

  /** Every flag that the evaluation reaches is known. */
  predicate Defined(flags: Flags, x: Expr) {
    match x
    case Literal(_, name) => name in flags
    case Conditional(enable, name, depend) => name in flags && (flags[name] == enable ==> AllDefined(flags, depend))
    case LeastOne(items) => AllDefined(flags, items)
    case ExactOne(items) => AllDefined(flags, items)
    case MostOne(items) => AllDefined(flags, items)
  }

  predicate AllDefined(flags: Flags, items: seq<Expr>) { forall i :: 0 <= i < |items| ==> Defined(flags, items[i]) }

  predicate On(flags: Flags, name: string, enable: bool) { name in flags && flags[name] == enable }

  /** A conditional holds when its guard and its body do. */
  predicate Strict(flags: Flags, x: Expr)
    decreases x
  {
    match x
    case Literal(enable, name) => On(flags, name, enable)
    case Conditional(enable, name, depend) => On(flags, name, enable) && CountStrict(flags, depend) == |depend|
    case LeastOne(items) => CountStrict(flags, items) >= 1
    case ExactOne(items) => CountStrict(flags, items) == 1
    case MostOne(items) => CountStrict(flags, items) <= 1
  }

  function CountStrict(flags: Flags, items: seq<Expr>): (c: nat)
    ensures c <= |items|
    decreases items
  {
    if items == [] then 0
    else CountStrict(flags, items[..|items| - 1]) + if Strict(flags, items[|items| - 1]) then 1 else 0
  }

  /** A conditional is an implication: it holds when its guard is not met, or its body holds. */
  predicate Meaning(flags: Flags, x: Expr)
    decreases x
  {
    match x
    case Literal(enable, name) => On(flags, name, enable)
    case Conditional(enable, name, depend) => On(flags, name, enable) ==> CountMeaning(flags, depend) == |depend|
    case LeastOne(items) => CountMeaning(flags, items) >= 1
    case ExactOne(items) => CountMeaning(flags, items) == 1
    case MostOne(items) => CountMeaning(flags, items) <= 1
  }

  function CountMeaning(flags: Flags, items: seq<Expr>): (c: nat)
    ensures c <= |items|
    decreases items
  {
    if items == [] then 0
    else CountMeaning(flags, items[..|items| - 1]) + if Meaning(flags, items[|items| - 1]) then 1 else 0
  }

  predicate AllMean(flags: Flags, items: seq<Expr>) { CountMeaning(flags, items) == |items| }

  predicate MeansAt(flags: Flags, items: seq<Expr>, i: int) { 0 <= i < |items| && Meaning(flags, items[i]) }

  lemma {:induction false} CountByMembers(flags: Flags, items: seq<Expr>)
    ensures CountMeaning(flags, items) == |items| <==> forall i :: 0 <= i < |items| ==> MeansAt(flags, items, i)
    ensures CountMeaning(flags, items) >= 1 <==> exists i :: MeansAt(flags, items, i)
    ensures CountMeaning(flags, items) <= 1 <==>
      forall i, j :: MeansAt(flags, items, i) && MeansAt(flags, items, j) ==> i == j
    decreases |items|
  {
    hide Meaning;
    if items != [] {
      var last := |items| - 1;
      var init := items[..last];
      CountByMembers(flags, init);
      assert forall i :: i != last ==> (MeansAt(flags, items, i) <==> MeansAt(flags, init, i));
      assert MeansAt(flags, items, last) <==> Meaning(flags, items[last]);
    }
  }

  /** The reading of a literal is its state, and of a condition an implication to all of its body. */
  lemma ConditionMeans(flags: Flags, enable: bool, name: string, depend: seq<Expr>)
    ensures Meaning(flags, Literal(enable, name)) <==> name in flags && flags[name] == enable
    ensures Meaning(flags, Conditional(enable, name, depend)) <==>
      (name in flags && flags[name] == enable ==> forall i :: 0 <= i < |depend| ==> Meaning(flags, depend[i]))
  {
    CountByMembers(flags, depend);
    assert forall i :: 0 <= i < |depend| ==> (MeansAt(flags, depend, i) <==> Meaning(flags, depend[i]));
  }

  predicate SomeMember(flags: Flags, items: seq<Expr>) {
    exists i :: 0 <= i < |items| && Meaning(flags, items[i])
  }

  predicate NoTwoMembers(flags: Flags, items: seq<Expr>) {
    forall i, j :: 0 <= i < j < |items| ==> !Meaning(flags, items[i]) || !Meaning(flags, items[j])
  }

  lemma GroupMembers(flags: Flags, items: seq<Expr>)
    ensures CountMeaning(flags, items) >= 1 <==> SomeMember(flags, items)
    ensures CountMeaning(flags, items) <= 1 <==> NoTwoMembers(flags, items)
  {
    hide Meaning;
    CountByMembers(flags, items);
    assert forall i :: 0 <= i < |items| ==> (MeansAt(flags, items, i) <==> Meaning(flags, items[i]));
    if i :| MeansAt(flags, items, i) {
      assert CountMeaning(flags, items) >= 1 && Meaning(flags, items[i]);
    }
  }

  /** The reading of the groups: at least one member holds, exactly one, at most one. */
  lemma GroupsMean(flags: Flags, items: seq<Expr>)
    ensures Meaning(flags, LeastOne(items)) <==> SomeMember(flags, items)
    ensures Meaning(flags, ExactOne(items)) <==> SomeMember(flags, items) && NoTwoMembers(flags, items)
    ensures Meaning(flags, MostOne(items)) <==> NoTwoMembers(flags, items)
  {
    hide SomeMember, NoTwoMembers;
    GroupMembers(flags, items);
  }

  // ----- the evaluator counts strictly

  /** The evaluation succeeds exactly when the flags it reaches are known; then it counts the expressions that
      hold, and carries one suggestion for each of the others. */
  lemma {:induction false} EvaluateCounts(flags: Flags, items: seq<Expr>)
    ensures Evaluate(flags, items).Some? <==> AllDefined(flags, items)
    ensures AllDefined(flags, items) ==>
      var e := Evaluate(flags, items).value;
      e.n == |items| && e.k == CountStrict(flags, items) && |e.suggestions| == e.n - e.k
    decreases items
  {
    if items != [] {
      var last := |items| - 1;
      EvaluateCounts(flags, items[..last]);
      JudgeIsStrict(flags, items[last]);
      assert AllDefined(flags, items) <==> AllDefined(flags, items[..last]) && Defined(flags, items[last]);
    }
  }

  lemma {:induction false} JudgeIsStrict(flags: Flags, x: Expr)
    ensures Judge(flags, x).Some? <==> Defined(flags, x)
    ensures Defined(flags, x) ==> (Judge(flags, x) == Some(Holds) <==> Strict(flags, x))
    decreases x
  {
    match x
    case Literal(_, _) =>
    case Conditional(_, _, depend) => EvaluateCounts(flags, depend);
    case LeastOne(items) => EvaluateCounts(flags, items);
    case ExactOne(items) => EvaluateCounts(flags, items);
    case MostOne(items) => EvaluateCounts(flags, items);
  }

  /** The hook accepts exactly the expressions all of whose parts hold strictly. */
  lemma AcceptedIffStrict(flags: Flags, items: seq<Expr>)
    ensures Hook(flags, items) == UnknownFlag <==> !AllDefined(flags, items)
    ensures Hook(flags, items) == Accepted <==> AllDefined(flags, items) && CountStrict(flags, items) == |items|
  {
    EvaluateCounts(flags, items);
  }

  // ----- fragments

  predicate NoConditionals(x: Expr) {
    match x
    case Literal(_, _) => true
    case Conditional(_, _, _) => false
    case LeastOne(items) => forall i :: 0 <= i < |items| ==> NoConditionals(items[i])
    case ExactOne(items) => forall i :: 0 <= i < |items| ==> NoConditionals(items[i])
    case MostOne(items) => forall i :: 0 <= i < |items| ==> NoConditionals(items[i])
  }

  /** No conditional stands under `^^` or `??`. */
  predicate OnlyMonotone(x: Expr) {
    match x
    case Literal(_, _) => true
    case Conditional(_, _, depend) => forall i :: 0 <= i < |depend| ==> OnlyMonotone(depend[i])
    case LeastOne(items) => forall i :: 0 <= i < |items| ==> OnlyMonotone(items[i])
    case ExactOne(items) => forall i :: 0 <= i < |items| ==> NoConditionals(items[i])
    case MostOne(items) => forall i :: 0 <= i < |items| ==> NoConditionals(items[i])
  }

  /** Conditionals stand at the top and in the bodies of conditionals only, not in groups. */
  predicate OutsideGroups(x: Expr) {
    match x
    case Conditional(_, _, depend) => forall i :: 0 <= i < |depend| ==> OutsideGroups(depend[i])
    case _ => NoConditionals(x)
  }

  /** Every conditional has its guard met. */
  predicate GuardsMet(flags: Flags, x: Expr) {
    match x
    case Conditional(enable, name, body) =>
      On(flags, name, enable) && forall i :: 0 <= i < |body| ==> GuardsMet(flags, body[i])
    case _ => true
  }

  /** Every conditional, at any depth and in groups too, has its guard met. */
  predicate AllMet(flags: Flags, x: Expr) {
    match x
    case Literal(_, _) => true
    case Conditional(enable, name, depend) =>
      On(flags, name, enable) && forall i :: 0 <= i < |depend| ==> AllMet(flags, depend[i])
    case LeastOne(items) => forall i :: 0 <= i < |items| ==> AllMet(flags, items[i])
    case ExactOne(items) => forall i :: 0 <= i < |items| ==> AllMet(flags, items[i])
    case MostOne(items) => forall i :: 0 <= i < |items| ==> AllMet(flags, items[i])
  }

  /** Every conditional under `^^` or `??` has its guard met, as far as the evaluation gets. */
  predicate MetWhereCounted(flags: Flags, x: Expr) {
    match x
    case Literal(_, _) => true
    case Conditional(enable, name, depend) =>
      On(flags, name, enable) ==> forall i :: 0 <= i < |depend| ==> MetWhereCounted(flags, depend[i])
    case LeastOne(items) => forall i :: 0 <= i < |items| ==> MetWhereCounted(flags, items[i])
    case ExactOne(items) => forall i :: 0 <= i < |items| ==> AllMet(flags, items[i])
    case MostOne(items) => forall i :: 0 <= i < |items| ==> AllMet(flags, items[i])
  }

  lemma {:induction false} WithoutConditionals(flags: Flags, x: Expr)
    requires NoConditionals(x)
    ensures Strict(flags, x) <==> Meaning(flags, x)
    decreases x
  {
    match x
    case Literal(_, _) =>
    case LeastOne(items) => CountsWithoutConditionals(flags, items);
    case ExactOne(items) => CountsWithoutConditionals(flags, items);
    case MostOne(items) => CountsWithoutConditionals(flags, items);
  }

  lemma {:induction false} CountsWithoutConditionals(flags: Flags, items: seq<Expr>)
    requires forall i :: 0 <= i < |items| ==> NoConditionals(items[i])
    ensures CountStrict(flags, items) == CountMeaning(flags, items)
    decreases items
  {
    if items != [] {
      CountsWithoutConditionals(flags, items[..|items| - 1]);
      WithoutConditionals(flags, items[|items| - 1]);
    }
  }

  /** With all guards met the two readings agree. */
  lemma {:induction false} MetIsExact(flags: Flags, x: Expr)
    requires AllMet(flags, x)
    ensures Strict(flags, x) <==> Meaning(flags, x)
    decreases x
  {
    match x
    case Literal(_, _) =>
    case Conditional(_, _, depend) => MetCountsAgree(flags, depend);
    case LeastOne(items) => MetCountsAgree(flags, items);
    case ExactOne(items) => MetCountsAgree(flags, items);
    case MostOne(items) => MetCountsAgree(flags, items);
  }

  lemma {:induction false} MetCountsAgree(flags: Flags, items: seq<Expr>)
    requires forall i :: 0 <= i < |items| ==> AllMet(flags, items[i])
    ensures CountStrict(flags, items) == CountMeaning(flags, items)
    decreases items
  {
    if items != [] {
      MetCountsAgree(flags, items[..|items| - 1]);
      MetIsExact(flags, items[|items| - 1]);
    }
  }

  lemma {:induction false} StrictImpliesMeaning(flags: Flags, x: Expr)
    requires MetWhereCounted(flags, x) && Strict(flags, x)
    ensures Meaning(flags, x)
    decreases x
  {
    match x
    case Literal(_, _) =>
    case Conditional(_, _, depend) => StrictCountsLess(flags, depend);
    case LeastOne(items) => StrictCountsLess(flags, items);
    case ExactOne(items) => MetCountsAgree(flags, items);
    case MostOne(items) => MetCountsAgree(flags, items);
  }

  lemma {:induction false} StrictCountsLess(flags: Flags, items: seq<Expr>)
    requires forall i :: 0 <= i < |items| ==> MetWhereCounted(flags, items[i])
    ensures CountStrict(flags, items) <= CountMeaning(flags, items)
    decreases items
  {
    if items != [] {
      StrictCountsLess(flags, items[..|items| - 1]);
      if Strict(flags, items[|items| - 1]) { StrictImpliesMeaning(flags, items[|items| - 1]); }
    }
  }

  lemma {:induction false} NoneIsMet(flags: Flags, x: Expr)
    requires NoConditionals(x)
    ensures AllMet(flags, x)
    decreases x
  {
    match x
    case Literal(_, _) =>
    case LeastOne(items) => forall i | 0 <= i < |items| ensures AllMet(flags, items[i]) { NoneIsMet(flags, items[i]); }
    case ExactOne(items) => forall i | 0 <= i < |items| ensures AllMet(flags, items[i]) { NoneIsMet(flags, items[i]); }
    case MostOne(items) => forall i | 0 <= i < |items| ensures AllMet(flags, items[i]) { NoneIsMet(flags, items[i]); }
  }

  lemma {:induction false} MonotoneIsMet(flags: Flags, x: Expr)
    requires OnlyMonotone(x)
    ensures MetWhereCounted(flags, x)
    decreases x
  {
    match x
    case Literal(_, _) =>
    case Conditional(_, _, depend) =>
      forall i | 0 <= i < |depend| ensures MetWhereCounted(flags, depend[i]) { MonotoneIsMet(flags, depend[i]); }
    case LeastOne(items) =>
      forall i | 0 <= i < |items| ensures MetWhereCounted(flags, items[i]) { MonotoneIsMet(flags, items[i]); }
    case ExactOne(items) => forall i | 0 <= i < |items| ensures AllMet(flags, items[i]) { NoneIsMet(flags, items[i]); }
    case MostOne(items) => forall i | 0 <= i < |items| ensures AllMet(flags, items[i]) { NoneIsMet(flags, items[i]); }
  }

  lemma {:induction false} OutsideGroupsExact(flags: Flags, x: Expr)
    requires OutsideGroups(x)
    ensures Strict(flags, x) <==> Meaning(flags, x) && GuardsMet(flags, x)
    decreases x
  {
    match x
    case Conditional(_, _, body) => BodiesExact(flags, body);
    case _ => WithoutConditionals(flags, x);
  }

  lemma {:induction false} BodiesExact(flags: Flags, items: seq<Expr>)
    requires forall i :: 0 <= i < |items| ==> OutsideGroups(items[i])
    ensures CountStrict(flags, items) == |items| <==>
      CountMeaning(flags, items) == |items| && forall i :: 0 <= i < |items| ==> GuardsMet(flags, items[i])
    decreases items
  {
    if items != [] {
      BodiesExact(flags, items[..|items| - 1]);
      OutsideGroupsExact(flags, items[|items| - 1]);
    }
  }

  // ----- acceptance against the meaning

  /** Without conditionals the hook accepts exactly what is true. */
  lemma AcceptedIffTrue(flags: Flags, items: seq<Expr>)
    requires AllDefined(flags, items) && forall i :: 0 <= i < |items| ==> NoConditionals(items[i])
    ensures Hook(flags, items) == Accepted <==> AllMean(flags, items)
  {
    AcceptedIffStrict(flags, items);
    CountsWithoutConditionals(flags, items);
  }

  /** With the guard of every conditional under `^^` or `??` met, what the hook accepts is true. */
  lemma AcceptedIsTrue(flags: Flags, items: seq<Expr>)
    requires forall i :: 0 <= i < |items| ==> MetWhereCounted(flags, items[i])
    requires Hook(flags, items) == Accepted
    ensures AllMean(flags, items)
  {
    AcceptedIffStrict(flags, items);
    StrictCountsLess(flags, items);
  }

  /** With no conditional under `^^` or `??`, what the hook accepts is true for every assignment. */
  lemma AcceptedIsTrueByForm(flags: Flags, items: seq<Expr>)
    requires forall i :: 0 <= i < |items| ==> OnlyMonotone(items[i])
    requires Hook(flags, items) == Accepted
    ensures AllMean(flags, items)
  {
    forall i | 0 <= i < |items| ensures MetWhereCounted(flags, items[i]) { MonotoneIsMet(flags, items[i]); }
    AcceptedIsTrue(flags, items);
  }

  /** With all guards met, at any depth, the hook accepts exactly what is true. */
  lemma AcceptedIffTrueWhenMet(flags: Flags, items: seq<Expr>)
    requires AllDefined(flags, items) && forall i :: 0 <= i < |items| ==> AllMet(flags, items[i])
    ensures Hook(flags, items) == Accepted <==> AllMean(flags, items)
  {
    AcceptedIffStrict(flags, items);
    MetCountsAgree(flags, items);
  }

  // ----- conditionals among the members of a group

  /** A literal, a group without conditionals, or a conditional whose body has none. */
  predicate Shallow(x: Expr) {
    match x
    case Conditional(_, _, depend) => forall i :: 0 <= i < |depend| ==> NoConditionals(depend[i])
    case _ => NoConditionals(x)
  }

  predicate Unmet(flags: Flags, x: Expr) { x.Conditional? && !On(flags, x.name, x.enable) }

  function CountUnmet(flags: Flags, items: seq<Expr>): (c: nat)
    ensures c <= |items|
  {
    if items == [] then 0
    else CountUnmet(flags, items[..|items| - 1]) + if Unmet(flags, items[|items| - 1]) then 1 else 0
  }

  /** The members that are true are those that hold strictly, and those whose guard is not met. */
  lemma {:induction false} TrueMembers(flags: Flags, items: seq<Expr>)
    requires forall i :: 0 <= i < |items| ==> Shallow(items[i])
    ensures CountMeaning(flags, items) == CountStrict(flags, items) + CountUnmet(flags, items)
    decreases items
  {
    if items != [] {
      var x := items[|items| - 1];
      TrueMembers(flags, items[..|items| - 1]);
      if x.Conditional? { CountsWithoutConditionals(flags, x.depend); } else { WithoutConditionals(flags, x); }
    }
  }

  /** A group that the hook accepts: `||` is true; `^^` is true exactly when no member has its guard unmet; `??` is true
      exactly when the members that hold and those with an unmet guard are at most one together. */
  lemma AcceptedGroupIsTrueIff(flags: Flags, items: seq<Expr>)
    requires forall i :: 0 <= i < |items| ==> Shallow(items[i])
    ensures Hook(flags, [LeastOne(items)]) == Accepted ==> Meaning(flags, LeastOne(items))
    ensures Hook(flags, [ExactOne(items)]) == Accepted ==>
      (Meaning(flags, ExactOne(items)) <==> CountUnmet(flags, items) == 0)
    ensures Hook(flags, [MostOne(items)]) == Accepted ==>
      (Meaning(flags, MostOne(items)) <==> CountStrict(flags, items) + CountUnmet(flags, items) <= 1)
  {
    hide Hook;
    TrueMembers(flags, items);
    AcceptedSingle(flags, LeastOne(items));
    AcceptedSingle(flags, ExactOne(items));
    AcceptedSingle(flags, MostOne(items));
  }

  /** When the hook decides a group by its meaning, acceptance and rejection alike. */
  lemma GroupDecidedByMeaningIff(flags: Flags, items: seq<Expr>)
    requires AllDefined(flags, items) && forall i :: 0 <= i < |items| ==> Shallow(items[i])
    ensures var (k, u) := (CountStrict(flags, items), CountUnmet(flags, items));
      && ((Hook(flags, [LeastOne(items)]) == Accepted <==> Meaning(flags, LeastOne(items))) <==> k >= 1 || u == 0)
      && ((Hook(flags, [ExactOne(items)]) == Accepted <==> Meaning(flags, ExactOne(items)))
          <==> u == 0 || (k != 1 && k + u != 1))
      && ((Hook(flags, [MostOne(items)]) == Accepted <==> Meaning(flags, MostOne(items))) <==> k > 1 || k + u <= 1)
  {
    hide Hook;
    TrueMembers(flags, items);
    AcceptedSingle(flags, LeastOne(items));
    AcceptedSingle(flags, ExactOne(items));
    AcceptedSingle(flags, MostOne(items));
  }

  lemma AcceptedSingle(flags: Flags, x: Expr)
    ensures Hook(flags, [x]) == Accepted <==> Defined(flags, x) && Strict(flags, x)
  {
    AcceptedIffStrict(flags, [x]);
    assert [x][..0] == [] && CountStrict(flags, []) == 0;
    assert CountStrict(flags, [x]) == if Strict(flags, x) then 1 else 0;
    assert AllDefined(flags, [x]) <==> Defined(flags, [x][0]);
  }

  /** With conditionals outside groups only, the hook accepts exactly what is true and has all guards met. */
  lemma AcceptedIffTrueAndMet(flags: Flags, items: seq<Expr>)
    requires AllDefined(flags, items) && forall i :: 0 <= i < |items| ==> OutsideGroups(items[i])
    ensures Hook(flags, items) == Accepted <==>
      AllMean(flags, items) && forall i :: 0 <= i < |items| ==> GuardsMet(flags, items[i])
  {
    AcceptedIffStrict(flags, items);
    BodiesExact(flags, items);
  }

  /** `a? ( b )` is true with `a` off, and is rejected. */
  lemma UnmetGuardIsRejected()
    ensures var (flags, items) := (map["a" := false, "b" := false],
      [Conditional(true, "a", [Literal(true, "b")])]);
      AllMean(flags, items) && Hook(flags, items).Rejected?
  {
    var (flags, items) := (map["a" := false, "b" := false], [Conditional(true, "a", [Literal(true, "b")])]);
    assert items[..0] == [];
    assert CountMeaning(flags, []) == 0 && CountStrict(flags, []) == 0;
    AcceptedIffStrict(flags, items);
  }

  /** Under `^^` acceptance does not imply truth: with `a` off and `c` on, two members of `^^ ( a? ( b ) c )`
      are true, and it is accepted. */
  lemma UnmetGuardUnderExactOne()
    ensures var (flags, items) := (map["a" := false, "b" := false, "c" := true],
      [ExactOne([Conditional(true, "a", [Literal(true, "b")]), Literal(true, "c")])]);
      !AllMean(flags, items) && Hook(flags, items) == Accepted
  {
    var flags := map["a" := false, "b" := false, "c" := true];
    var x, y := Conditional(true, "a", [Literal(true, "b")]), Literal(true, "c");
    var items := [ExactOne([x, y])];
    AcceptedIffStrict(flags, items);
    assert [x, y][..1] == [x] && [x][..0] == [] && items[..0] == [];
    assert CountStrict(flags, [x]) == 0 && CountMeaning(flags, [x]) == 1;
    assert CountStrict(flags, [x, y]) == 1 && CountMeaning(flags, [x, y]) == 2;
  }
}
