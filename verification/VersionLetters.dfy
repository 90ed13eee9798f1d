/** What letters do to the comparison: when a version equals itself, when swapping two versions swaps the sign, and a
    cycle of three versions. */
module VersionLetters {
  import opened Versions
  import opened VersionOrder
  import opened VersionNumbers

  predicate StarFreeText(t: string) { t != [] && t[|t| - 1] != '*' }

  predicate StarFree(v: Version) { forall i :: 0 <= i < |v.components| ==> StarFreeText(v.components[i].v) }

  /** The component ends in a letter, or in any other character behind the digits. */
  predicate Lettered(c: Component)
    requires c.v != []
  {
    c.v[|c.v| - 1] > '9'
  }

  lemma StepOnItself(c: Component, more: bool)
    requires c.v != [] && c.v[|c.v| - 1] != '*' && Readable(c, c)
    ensures Step(c, c, more, more) == if more && Lettered(c) then Decided(-1) else Undecided
  {
    hide Number;
  }

  lemma {:induction false} SelfComparisonFrom(v: Version, i: nat)
    requires StarFree(v) && AllReadable(v, v) && i <= |v.components|
    ensures CompareFrom(v, v, i) ==
      if exists k :: i <= k < |v.components| - 1 && Lettered(v.components[k]) then -1 else 0
    decreases |v.components| - i
  {
    hide Step, Readable, Lettered;
    if i < |v.components| {
      StepOnItself(v.components[i], i + 1 < |v.components|);
      SelfComparisonFrom(v, i + 1);
    }
  }

  /** A version without a star compares equal to itself exactly when no component before the last one
      ends in a letter; otherwise it compares below itself. */
  lemma EqualToItselfIff(v: Version)
    requires StarFree(v) && AllReadable(v, v)
    ensures Compare(v, v) == 0 <==> forall k :: 0 <= k < |v.components| - 1 ==> !Lettered(v.components[k])
    ensures Compare(v, v) == 0 || Compare(v, v) == -1
  {
    SelfComparisonFrom(v, 0);
  }

  // ----- swapping two versions

  /** The difference of the numbers that one step reads, in 32 bits. */
  function Difference(f: Component, s: Component): int
    requires Readable(f, s) && StarFreeText(f.v) && StarFreeText(s.v)
  {
    var (width, whole) := (Max(|f.v|, |s.v|), WholeNumbers(f.v, |f.v|, s.v, |s.v|));
    AsI32(ReadNumber(f.v, |f.v|, width, whole) - ReadNumber(s.v, |s.v|, width, whole))
  }

  /** Both orders of the arguments give the same sign: two letters with more to come, or a difference that is its own
      negative in 32 bits. */
  predicate OneWayStep(f: Component, s: Component, fMore: bool, sMore: bool)
    requires Readable(f, s) && StarFreeText(f.v) && StarFreeText(s.v)
  {
    && f.prefix == s.prefix
    && if fMore && sMore && Lettered(f) && Lettered(s) then true
       else !(sMore && Lettered(f)) && !(fMore && Lettered(s)) && Difference(f, s) == -LIMIT
  }

  lemma DifferenceSwapped(f: Component, s: Component)
    requires Readable(f, s) && StarFreeText(f.v) && StarFreeText(s.v)
    ensures Readable(s, f)
    ensures Difference(s, f) == if Difference(f, s) == -LIMIT then -LIMIT else -Difference(f, s)
  {
    hide ReadNumber;
  }

  lemma StepSwapped(f: Component, s: Component, fMore: bool, sMore: bool)
    requires Readable(f, s) && StarFreeText(f.v) && StarFreeText(s.v)
    ensures Readable(s, f)
    ensures Step(f, s, fMore, sMore).Decided? <==> Step(s, f, sMore, fMore).Decided?
    ensures OneWayStep(f, s, fMore, sMore) ==> Step(f, s, fMore, sMore).Decided?
    ensures Step(f, s, fMore, sMore).Decided? ==>
      (Sign(Step(f, s, fMore, sMore).result) == -Sign(Step(s, f, sMore, fMore).result)
      <==> !OneWayStep(f, s, fMore, sMore))
  {
    hide ReadNumber, AsI32;
    DifferenceSwapped(f, s);
    assert Difference(f, s) == AsI32(ReadNumber(f.v, |f.v|, Max(|f.v|, |s.v|), WholeNumbers(f.v, |f.v|, s.v, |s.v|))
                                     - ReadNumber(s.v, |s.v|, Max(|f.v|, |s.v|), WholeNumbers(f.v, |f.v|, s.v, |s.v|)));
  }

  /** Step `i` of the comparison. */
  function StepAt(f: Version, s: Version, i: nat): Verdict
    requires AllReadable(f, s) && i < |f.components| && i < |s.components|
  {
    Step(f.components[i], s.components[i], i + 1 < |f.components|, i + 1 < |s.components|)
  }

  predicate OneWayAt(f: Version, s: Version, i: nat)
    requires AllReadable(f, s) && StarFree(f) && StarFree(s) && i < |f.components| && i < |s.components|
  {
    OneWayStep(f.components[i], s.components[i], i + 1 < |f.components|, i + 1 < |s.components|)
  }

  predicate UndecidedBetween(f: Version, s: Version, i: nat, k: nat)
    requires AllReadable(f, s) && k <= |f.components| && k <= |s.components|
  {
    forall j :: i <= j < k ==> StepAt(f, s, j).Undecided?
  }

  /** From step `i` on, the first decision comes out the same for both orders of the arguments. */
  ghost predicate OneWayFrom(f: Version, s: Version, i: nat)
    requires AllReadable(f, s) && StarFree(f) && StarFree(s)
  {
    || (exists k :: i <= k < |f.components| && k < |s.components| && UndecidedBetween(f, s, i, k) && OneWayAt(f, s, k))
    || (i <= |f.components| == |s.components| && UndecidedBetween(f, s, i, |f.components|)
        && AsI32(f.revision - s.revision) == -LIMIT)
  }

  lemma OneWayStepwise(f: Version, s: Version, i: nat)
    requires AllReadable(f, s) && StarFree(f) && StarFree(s) && i < |f.components| && i < |s.components|
    ensures OneWayFrom(f, s, i) <==> OneWayAt(f, s, i) || (StepAt(f, s, i).Undecided? && OneWayFrom(f, s, i + 1))
  {
    hide OneWayAt, StepAt;
    if OneWayAt(f, s, i) { assert UndecidedBetween(f, s, i, i); }
    if StepAt(f, s, i).Undecided? && OneWayFrom(f, s, i + 1) {
      if k :| i < k < |f.components| && k < |s.components| && UndecidedBetween(f, s, i + 1, k) && OneWayAt(f, s, k) {
        assert UndecidedBetween(f, s, i, k);
      }
    }
    if OneWayFrom(f, s, i) && !OneWayAt(f, s, i) {
      if k :| i <= k < |f.components| && k < |s.components| && UndecidedBetween(f, s, i, k) && OneWayAt(f, s, k) {
        assert UndecidedBetween(f, s, i + 1, k);
      }
    }
  }

  lemma SwappedIsReadable(f: Version, s: Version)
    requires AllReadable(f, s) && StarFree(f) && StarFree(s)
    ensures AllReadable(s, f)
  {
    forall i | 0 <= i < |f.components| && i < |s.components| ensures Readable(s.components[i], f.components[i]) {
      StepSwapped(f.components[i], s.components[i], false, false);
    }
  }

  lemma {:induction false} SwappedFrom(f: Version, s: Version, i: nat)
    requires AllReadable(f, s) && AllReadable(s, f) && StarFree(f) && StarFree(s)
    requires i <= |f.components| && i <= |s.components|
    ensures Sign(CompareFrom(f, s, i)) == -Sign(CompareFrom(s, f, i)) <==> !OneWayFrom(f, s, i)
    decreases |f.components| - i
  {
    hide Step, OneWayStep, Readable, AsI32;
    if i < |f.components| && i < |s.components| {
      StepSwapped(f.components[i], s.components[i], i + 1 < |f.components|, i + 1 < |s.components|);
      OneWayStepwise(f, s, i);
      SwappedFrom(f, s, i + 1);
    } else {
      RevisionsSwapped(f.revision, s.revision);
    }
  }

  lemma RevisionsSwapped(a: int, b: int)
    ensures Sign(AsI32(a - b)) == -Sign(AsI32(b - a)) <==> AsI32(a - b) != -LIMIT
  {
  }

  /** For versions without a star, swapping them swaps the sign exactly when no decision comes out the same both ways:
      at the first pair that differs, two letters that both have components behind them, or numbers or revisions that
      lie 2^31 apart. */
  lemma SwapSwapsSignIff(f: Version, s: Version)
    requires AllReadable(f, s) && StarFree(f) && StarFree(s)
    ensures AllReadable(s, f)
    ensures Sign(Compare(f, s)) == -Sign(Compare(s, f)) <==> !OneWayFrom(f, s, 0)
  {
    SwappedIsReadable(f, s);
    SwappedFrom(f, s, 0);
  }

  /** The first pair with equal prefixes and two letters stands before the end of both versions. */
  ghost predicate LettersMeet(f: Version, s: Version)
    requires AllReadable(f, s) && StarFree(f) && StarFree(s)
  {
    exists k :: 0 <= k < |f.components| - 1 && k < |s.components| - 1 && UndecidedBetween(f, s, 0, k)
      && f.components[k].prefix == s.components[k].prefix && Lettered(f.components[k]) && Lettered(s.components[k])
  }

  /** No numbers and no revisions lie 2^31 apart. */
  ghost predicate NothingOverflows(f: Version, s: Version)
    requires AllReadable(f, s) && StarFree(f) && StarFree(s)
  {
    && AsI32(f.revision - s.revision) != -LIMIT
    && forall k :: 0 <= k < |f.components| && k < |s.components| ==>
      Difference(f.components[k], s.components[k]) != -LIMIT
  }

  /** Where numbers do not overflow, letters alone decide whether swapping swaps the sign. */
  lemma SwapSwapsSignUnlessLettersMeet(f: Version, s: Version)
    requires AllReadable(f, s) && StarFree(f) && StarFree(s) && NothingOverflows(f, s)
    ensures AllReadable(s, f)
    ensures Sign(Compare(f, s)) == -Sign(Compare(s, f)) <==> !LettersMeet(f, s)
  {
    hide Difference, Lettered, UndecidedBetween, Readable, AsI32;
    SwapSwapsSignIff(f, s);
    if LettersMeet(f, s) {
      var k :| 0 <= k < |f.components| - 1 && k < |s.components| - 1 && UndecidedBetween(f, s, 0, k)
        && f.components[k].prefix == s.components[k].prefix && Lettered(f.components[k]) && Lettered(s.components[k]);
      assert OneWayAt(f, s, k);
    }
  }

  /** A letter behind digits is not read. */
  lemma NumberBeforeLetter(d: string, c: char)
    requires PlainText(d) && !IsDigit(c)
    ensures Number(d + [c]) == Value(d) < 1_000_000_000
  {
    DigitsLead(d, c);
    ValueBound(d);
    Pow10Small(|d|);
    assert (d + [c])[0] == d[0] && IsDigit(d[0]);
    assert SkipBlanks(d + [c]) == d + [c];
  }

  lemma {:induction false} DigitsLead(d: string, c: char)
    requires AllDigits(d) && !IsDigit(c)
    ensures LeadingDigits(d + [c]) == d
  {
    if d != [] {
      DigitsLead(d[1..], c);
      assert (d + [c])[1..] == d[1..] + [c];
    }
  }

  lemma NumbersOfTheCycle()
    ensures Number("12") == 12 && Number("5") == 5 && Number("4") == 4 && Number("5b") == 5
  {
    hide Number;
    NumberOf("12");
    NumberOf("5");
    NumberOf("4");
    NumberBeforeLetter("5", 'b');
    assert "5" + ['b'] == "5b";
    assert Value("12") == 12 by { assert "12"[..1] == "1"; }
    assert Value("5") == 5 && Value("4") == 4;
  }

  /** 12.5b < 12.4.4 < 12.5 < 12.5b. */
  lemma LettersMakeACycle()
    ensures var (a, b, c) := (Plainly(["12", "5b"]), Plainly(["12", "4", "4"]), Plainly(["12", "5"]));
      AllReadable(a, b) && AllReadable(b, c) && AllReadable(c, a) &&
      Compare(a, b) < 0 && Compare(b, c) < 0 && Compare(c, a) < 0
  {
    NumbersOfTheCycle();
    hide Number;
    var (a, b, c) := (Plainly(["12", "5b"]), Plainly(["12", "4", "4"]), Plainly(["12", "5"]));
    assert AllReadable(a, b) && AllReadable(b, c) && AllReadable(c, a);
    assert Step(a.components[0], b.components[0], true, true) == Undecided;
    assert Step(a.components[1], b.components[1], false, true) == Decided(-1);
    assert CompareFrom(a, b, 1) == -1;
    assert Step(b.components[1], c.components[1], true, false) == Decided(-1);
    assert CompareFrom(b, c, 1) == -1;
    assert Step(c.components[1], a.components[1], false, false) == Decided(-('b' as int));
    assert CompareFrom(c, a, 1) == -('b' as int);
  }

  /** 1b_p1 is below itself. */
  lemma LetterBelowItself()
    ensures var v := Version([Component(NoPrefix, "1b"), Component(P, "1")], 0);
      AllReadable(v, v) && Compare(v, v) < 0
  {
    var v := Version([Component(NoPrefix, "1b"), Component(P, "1")], 0);
    hide Number;
    assert Lettered(v.components[0]);
    EqualToItselfIff(v);
  }
}
