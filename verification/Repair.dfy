/** What a suggestion is good for: among literals and `||`, following it repairs the expression. */
module Repair {
  import opened Options
  import opened RequiredUse

  /** Whether an assignment does what a suggestion says. */
  predicate Meets(flags: Flags, s: Suggestion)
    decreases s
  {
    match s
    case UseSuggestion(name, value) => On(flags, name, value)
    case SuggestionExpression(Any, ss) => CountMet(flags, ss) >= 1
    case SuggestionExpression(One, ss) => CountMet(flags, ss) == 1
    case SuggestionExpression(AtMostOne, ss) => CountMet(flags, ss) <= 1
    case SuggestionExpression(All, ss) => CountMet(flags, ss) == |ss|
  }

  function CountMet(flags: Flags, ss: seq<Suggestion>): (c: nat)
    ensures c <= |ss|
    decreases ss
  {
    if ss == [] then 0
    else CountMet(flags, ss[..|ss| - 1]) + if Meets(flags, ss[|ss| - 1]) then 1 else 0
  }

  predicate LiteralsAndOr(x: Expr) {
    match x
    case Literal(_, _) => true
    case LeastOne(items) => forall i :: 0 <= i < |items| ==> LiteralsAndOr(items[i])
    case _ => false
  }

  /** Every literal of the expression that held still holds; the guards of conditionals may change. */
  predicate Keeps(flags: Flags, flags': Flags, x: Expr) {
    match x
    case Literal(enable, name) => On(flags, name, enable) ==> On(flags', name, enable)
    case Conditional(_, _, depend) => forall i :: 0 <= i < |depend| ==> Keeps(flags, flags', depend[i])
    case LeastOne(items) => forall i :: 0 <= i < |items| ==> Keeps(flags, flags', items[i])
    case ExactOne(items) => forall i :: 0 <= i < |items| ==> Keeps(flags, flags', items[i])
    case MostOne(items) => forall i :: 0 <= i < |items| ==> Keeps(flags, flags', items[i])
  }

  /** Following the suggestions of a list repairs at least as many expressions as suggestions are met. */
  lemma {:induction false} MetRepairs(flags: Flags, flags': Flags, items: seq<Expr>)
    requires forall i :: 0 <= i < |items| ==> LiteralsAndOr(items[i]) && Keeps(flags, flags', items[i])
    requires Evaluate(flags, items).Some?
    ensures var e := Evaluate(flags, items).value;
      CountMeaning(flags', items) >= e.k + CountMet(flags', e.suggestions)
    decreases items
  {
    if items != [] {
      var last := |items| - 1;
      var before := Evaluate(flags, items[..last]).value;
      MetRepairs(flags, flags', items[..last]);
      OneRepaired(flags, flags', items[last]);
      if Judge(flags, items[last]).value.Fails? {
        assert Evaluate(flags, items).value.suggestions[..|before.suggestions|] == before.suggestions;
      }
    }
  }

  /** What held still holds, and what failed holds once its suggestion is met. */
  lemma {:induction false} OneRepaired(flags: Flags, flags': Flags, x: Expr)
    requires LiteralsAndOr(x) && Keeps(flags, flags', x) && Judge(flags, x).Some?
    ensures Judge(flags, x) == Some(Holds) ==> Meaning(flags', x)
    ensures Judge(flags, x).value.Fails? && Meets(flags', Judge(flags, x).value.suggestion) ==> Meaning(flags', x)
    decreases x
  {
    match x
    case Literal(_, _) =>
    case LeastOne(items) => MetRepairs(flags, flags', items);
  }

  lemma {:induction false} StillDefined(flags: Flags, flags': Flags, x: Expr)
    requires LiteralsAndOr(x) && Defined(flags, x) && flags.Keys <= flags'.Keys
    ensures Defined(flags', x) && NoConditionals(x)
  {
    match x
    case Literal(_, _) =>
    case LeastOne(items) =>
      forall i | 0 <= i < |items| ensures Defined(flags', items[i]) && NoConditionals(items[i]) {
        StillDefined(flags, flags', items[i]);
      }
  }

  /** An assignment that does what the suggestion says, and keeps every literal that held, is accepted. */
  lemma SuggestionRepairs(flags: Flags, flags': Flags, items: seq<Expr>)
    requires forall i :: 0 <= i < |items| ==> LiteralsAndOr(items[i]) && Keeps(flags, flags', items[i])
    requires flags.Keys <= flags'.Keys
    requires Hook(flags, items).Rejected? && Meets(flags', Hook(flags, items).suggestion)
    ensures Hook(flags', items) == Accepted
  {
    EvaluateCounts(flags, items);
    MetRepairs(flags, flags', items);
    forall i | 0 <= i < |items| ensures Defined(flags', items[i]) && NoConditionals(items[i]) {
      StillDefined(flags, flags', items[i]);
    }
    AcceptedIffTrue(flags', items);
  }

  // ----- groups of literals

  predicate IsGroup(x: Expr) { x.LeastOne? || x.ExactOne? || x.MostOne? }

  predicate AllLiterals(items: seq<Expr>) { forall i :: 0 <= i < |items| ==> items[i].Literal? }

  /** Among literals, what holds afterwards is what held and what was asked for and done. */
  lemma {:induction false} LiteralsAfterwards(flags: Flags, flags': Flags, items: seq<Expr>)
    requires AllLiterals(items) && forall i :: 0 <= i < |items| ==> Keeps(flags, flags', items[i])
    requires Evaluate(flags, items).Some?
    ensures var e := Evaluate(flags, items).value;
      CountMeaning(flags', items) == e.k + CountMet(flags', e.suggestions)
    decreases items
  {
    if items != [] {
      var last := |items| - 1;
      var before := Evaluate(flags, items[..last]).value;
      LiteralsAfterwards(flags, flags', items[..last]);
      assert items[last].Literal? && Keeps(flags, flags', items[last]);
      if Judge(flags, items[last]).value.Fails? {
        assert Evaluate(flags, items).value.suggestions[..|before.suggestions|] == before.suggestions;
      }
    }
  }

  /** A group of literals fails, and an assignment does what its suggestion says and keeps the literals that held:
      `||` is repaired always, `^^` exactly when no member held before, `??` never. */
  lemma GroupRepairedIff(flags: Flags, flags': Flags, x: Expr)
    requires IsGroup(x) && AllLiterals(x.items) && Keeps(flags, flags', x)
    requires Judge(flags, x).Some? && Judge(flags, x).value.Fails?
    requires Meets(flags', Judge(flags, x).value.suggestion)
    ensures Evaluate(flags, x.items).Some?
    ensures Meaning(flags', x) <==> x.LeastOne? || (x.ExactOne? && Evaluate(flags, x.items).value.k == 0)
  {
    EvaluateCounts(flags, x.items);
    LiteralsAfterwards(flags, flags', x.items);
    var ss := Evaluate(flags, x.items).value.suggestions;
    MetAtMost(flags', ss);
  }

  lemma MetAtMost(flags: Flags, ss: seq<Suggestion>)
    ensures Meets(flags, SuggestionExpression(Any, ss)) <==> CountMet(flags, ss) >= 1
    ensures Meets(flags, SuggestionExpression(One, ss)) <==> CountMet(flags, ss) == 1
    ensures Meets(flags, SuggestionExpression(AtMostOne, ss)) <==> CountMet(flags, ss) <= 1
  {
  }

  // ----- conditionals

  /** A conditional whose guard is not met asks for its guard; an assignment that follows is accepted exactly when the
      body is accepted under it. */
  lemma GuardRepairedIff(flags: Flags, flags': Flags, x: Expr)
    requires x.Conditional? && x.name in flags && !On(flags, x.name, x.enable)
    ensures Judge(flags, x) == Some(Fails(UseSuggestion(x.name, x.enable)))
    ensures Meets(flags', UseSuggestion(x.name, x.enable)) ==>
      (Hook(flags', [x]) == Accepted <==> Hook(flags', x.depend) == Accepted)
  {
    hide Hook, Evaluate;
    AcceptedSingle(flags', x);
    AcceptedIffStrict(flags', x.depend);
  }

  /** A conditional whose body fails offers to drop its guard instead; an assignment that does is always rejected. */
  lemma DroppedGuardIsRejected(flags: Flags, flags': Flags, x: Expr)
    requires x.Conditional? && On(flags, x.name, x.enable) && Judge(flags, x).Some? && Judge(flags, x).value.Fails?
    ensures var s := Judge(flags, x).value.suggestion;
      && s.SuggestionExpression? && s.operator == Any && s.suggestions != []
      && s.suggestions[0] == UseSuggestion(x.name, !x.enable)
      && (Meets(flags', s.suggestions[0]) ==> Meets(flags', s) && Hook(flags', [x]).Rejected?)
  {
    hide Hook, Evaluate;
    var s := Judge(flags, x).value.suggestion;
    if Meets(flags', s.suggestions[0]) {
      FirstMet(flags', s.suggestions);
      EvaluateSingleton(flags', x);
      RejectedWhenFailing(flags', x);
    }
  }

  /** A conditional whose body fails offers two ways out: to drop its guard, or what its body suggests by itself. */
  lemma TwoWaysOut(flags: Flags, x: Expr)
    requires x.Conditional? && On(flags, x.name, x.enable) && Judge(flags, x).Some? && Judge(flags, x).value.Fails?
    ensures Hook(flags, x.depend).Rejected?
    ensures Judge(flags, x).value.suggestion ==
      SuggestionExpression(Any, [UseSuggestion(x.name, !x.enable), Hook(flags, x.depend).suggestion])
  {
  }

  /** The second way is good: with a body of literals and `||`, an assignment that does what the body suggests and keeps
      the guard and the literals that held is accepted. */
  lemma SecondWayRepairs(flags: Flags, flags': Flags, x: Expr)
    requires x.Conditional? && On(flags, x.name, x.enable) && Judge(flags, x).Some? && Judge(flags, x).value.Fails?
    requires forall i :: 0 <= i < |x.depend| ==> LiteralsAndOr(x.depend[i])
    requires Keeps(flags, flags', x) && flags.Keys <= flags'.Keys && On(flags', x.name, x.enable)
    ensures var s := Judge(flags, x).value.suggestion;
      && s.SuggestionExpression? && s.operator == Any && |s.suggestions| == 2
      && (Meets(flags', s.suggestions[1]) ==> Meets(flags', s) && Hook(flags', [x]) == Accepted)
  {
    hide Hook, Evaluate;
    TwoWaysOut(flags, x);
    var s := Judge(flags, x).value.suggestion;
    if Meets(flags', s.suggestions[1]) {
      SuggestionRepairs(flags, flags', x.depend);
      AcceptedSingle(flags', x);
      AcceptedIffStrict(flags', x.depend);
      SecondMet(flags', s.suggestions);
    }
  }

  lemma SecondMet(flags: Flags, ss: seq<Suggestion>)
    requires |ss| == 2 && Meets(flags, ss[1])
    ensures CountMet(flags, ss) >= 1
  {
  }

  lemma RejectedWhenFailing(flags: Flags, x: Expr)
    requires Judge(flags, x).Some? && Judge(flags, x).value.Fails?
    ensures Hook(flags, [x]).Rejected?
  {
    hide Judge;
    EvaluateSingleton(flags, x);
  }

  lemma {:induction false} FirstMet(flags: Flags, ss: seq<Suggestion>)
    requires ss != [] && Meets(flags, ss[0])
    ensures CountMet(flags, ss) >= 1
  {
    if |ss| > 1 { FirstMet(flags, ss[..|ss| - 1]); } else { assert ss[..0] == []; }
  }

  function Together(a: Option<Evaluation>, b: Option<Evaluation>): Option<Evaluation> {
    match (a, b)
    case (Some(e), Some(f)) => Some(Evaluation(e.suggestions + f.suggestions, e.k + f.k, e.n + f.n))
    case _ => None
  }

  lemma EvaluateOneMore(flags: Flags, a: seq<Expr>, x: Expr)
    ensures Evaluate(flags, a + [x]) == Together(Evaluate(flags, a), Evaluate(flags, [x]))
  {
    hide Judge;
    assert (a + [x])[..|a|] == a;
    EvaluateSingleton(flags, x);
    if Evaluate(flags, a).Some? {
      assert Evaluate(flags, a).value.suggestions + [] == Evaluate(flags, a).value.suggestions;
    }
  }

  lemma TogetherAssociates(a: Option<Evaluation>, b: Option<Evaluation>, c: Option<Evaluation>)
    ensures Together(Together(a, b), c) == Together(a, Together(b, c))
  {
    if a.Some? && b.Some? && c.Some? {
      var (r, s, t) := (a.value.suggestions, b.value.suggestions, c.value.suggestions);
      assert r + s + t == r + (s + t);
    }
  }

  /** Evaluating two lists together adds the counts, and puts the suggestions for the second one behind those for the
      first one. */
  lemma {:induction false} EvaluateConcat(flags: Flags, a: seq<Expr>, b: seq<Expr>)
    ensures Evaluate(flags, a + b) == Together(Evaluate(flags, a), Evaluate(flags, b))
    decreases |b|
  {
    hide Evaluate, Together;
    if b == [] {
      assert a + b == a;
      TogetherNothing(flags, a);
    } else {
      var init, x := b[..|b| - 1], b[|b| - 1];
      assert b == init + [x] && a + b == a + init + [x];
      EvaluateConcat(flags, a, init);
      EvaluateOneMore(flags, a + init, x);
      EvaluateOneMore(flags, init, x);
      TogetherAssociates(Evaluate(flags, a), Evaluate(flags, init), Evaluate(flags, [x]));
    }
  }

  lemma TogetherNothing(flags: Flags, a: seq<Expr>)
    ensures Together(Evaluate(flags, a), Evaluate(flags, [])) == Evaluate(flags, a)
  {
    if Evaluate(flags, a).Some? {
      assert Evaluate(flags, a).value.suggestions + [] == Evaluate(flags, a).value.suggestions;
    }
  }

  // ----- witnesses

  lemma EvaluateSingleton(flags: Flags, x: Expr)
    ensures Evaluate(flags, [x]) ==
      match Judge(flags, x)
      case None => None
      case Some(Holds) => Some(Evaluation([], 1, 1))
      case Some(Fails(s)) => Some(Evaluation([s], 0, 1))
  {
    hide Judge;
    assert [x][..0] == [];
    match Judge(flags, x)
    case Some(Fails(s)) => assert [] + [s] == [s];
    case _ =>
  }

  lemma TwoOnEvaluate()
    ensures var (flags, items) := (map["a" := true, "b" := true], [MostOne([Literal(true, "a"), Literal(true, "b")])]);
      Evaluate(flags, items) == Some(Evaluation([SuggestionExpression(AtMostOne, [])], 0, 1))
  {
    var flags := map["a" := true, "b" := true];
    var a, b := Literal(true, "a"), Literal(true, "b");
    EvaluateSingleton(flags, a);
    EvaluateSingleton(flags, MostOne([a, b]));
    assert [a, b][..1] == [a];
    assert Evaluate(flags, [a, b]) == Some(Evaluation([], 2, 2));
  }

  lemma MetAlone(flags: Flags, s: Suggestion)
    ensures Meets(flags, SuggestionExpression(All, [s])) <==> Meets(flags, s)
    ensures Meets(flags, SuggestionExpression(AtMostOne, []))
  {
    assert [s][..0] == [] && CountMet(flags, []) == 0;
    assert CountMet(flags, [s]) == if Meets(flags, s) then 1 else 0;
  }

  /** Outside that fragment a suggestion may be met and help nothing: with `a` and `b` on, `?? ( a b )` is rejected
      with a suggestion that the very same assignment meets. */
  lemma AtMostOneSuggestsNothing()
    ensures var (flags, items) := (map["a" := true, "b" := true], [MostOne([Literal(true, "a"), Literal(true, "b")])]);
      Hook(flags, items).Rejected? && Meets(flags, Hook(flags, items).suggestion)
  {
    hide Evaluate, Meets;
    TwoOnEvaluate();
    MetAlone(map["a" := true, "b" := true], SuggestionExpression(AtMostOne, []));
  }

  lemma GuardEvaluates(a: bool)
    ensures var (flags, items) := (map["a" := a, "b" := false], [Conditional(true, "a", [Literal(true, "b")])]);
      Evaluate(flags, items) == Some(Evaluation(
        [if a then
           SuggestionExpression(Any, [UseSuggestion("a", false), SuggestionExpression(All, [UseSuggestion("b", true)])])
         else UseSuggestion("a", true)], 0, 1))
  {
    var flags, b := map["a" := a, "b" := false], Literal(true, "b");
    EvaluateSingleton(flags, b);
    EvaluateSingleton(flags, Conditional(true, "a", [b]));
  }

  /** Nor does following it help where a guard is unmet: `a? ( b )` with both off asks for `a`, and is then rejected
      because of `b`. */
  lemma GuardSuggestionIsNotEnough()
    ensures var items := [Conditional(true, "a", [Literal(true, "b")])];
      var (flags, flags') := (map["a" := false, "b" := false], map["a" := true, "b" := false]);
      Hook(flags, items).Rejected? && Meets(flags', Hook(flags, items).suggestion) && Hook(flags', items).Rejected?
  {
    hide Evaluate, Meets;
    GuardEvaluates(false);
    GuardEvaluates(true);
    var flags' := map["a" := true, "b" := false];
    MetAlone(flags', UseSuggestion("a", true));
    MetLiteral(flags', "a", true);
    assert "a"[0] != "b"[0];
    assert On(flags', "a", true);
  }

  lemma MetLiteral(flags: Flags, name: string, value: bool)
    ensures Meets(flags, UseSuggestion(name, value)) <==> On(flags, name, value)
  {
  }
}
