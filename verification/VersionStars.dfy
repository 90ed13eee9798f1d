/** Versions with a star: the comparison ends at the star, and what stands behind it does not matter. */
module VersionStars {
  import opened Versions
  import opened VersionOrder
  import opened VersionLetters
  import opened VersionNumbers

  /** The star ends the texts and is not read with the number in front of it. */
  lemma StarIsCutOff(t: string, u: string, width: nat, whole: bool)
    requires PlainText(t) && PlainText(u) && |t| <= width && |u| <= width
    ensures var f := t + "*";
      && Lengths(f, u) == (|t|, |u|, true) && Lengths(u, f) == (|u|, |t|, true)
      && f[|t| - 1] == t[|t| - 1] <= '9' && u[|u| - 1] <= '9'
      && WholeNumbers(f, |t|, u, |u|) == WholeNumbers(t, |t|, u, |u|)
      && WholeNumbers(u, |u|, f, |t|) == WholeNumbers(u, |u|, t, |t|)
      && ReadNumber(f, |t|, width, whole) == ReadNumber(t, |t|, width, whole)
  {
    hide Number, Value;
    NumberBeforeLetter(t, '*');
    NumberOf(t);
    assert t + "*" == t + ['*'];
    assert (t + "*")[..|t|] == t && t[..|t|] == t;
    assert IsDigit(t[|t| - 1]) && IsDigit(u[|u| - 1]);
  }

  /** A step with a star on one side decides: by the ranks of the texts without it, for equal if they agree. */
  lemma StarDecides(p: Prefix, t: string, u: string, fMore: bool, sMore: bool)
    requires PlainText(t) && PlainText(u)
    ensures var (f, s) := (Component(p, t + "*"), Component(p, u));
      && Readable(f, s) && Readable(s, f)
      && Step(f, s, fMore, sMore).Decided? && Step(s, f, sMore, fMore).Decided?
      && Sign(Step(f, s, fMore, sMore).result) == Sign(Rank(t) - Rank(u))
      && Sign(Step(s, f, sMore, fMore).result) == Sign(Rank(u) - Rank(t))
  {
    hide ReadNumber, WholeNumbers, Lengths, Rank;
    StarIsReadable(t, u);
    var width := Max(|t|, |u|);
    StarIsCutOff(t, u, width, WholeNumbers(t, |t|, u, |u|));
    StarIsCutOff(t, u, width, WholeNumbers(u, |u|, t, |t|));
    NumbersFollowRanks(t, u);
    NumbersFollowRanks(u, t);
  }

  /** At place `i` the text is `t` with a star behind it; all components before are plain. */
  predicate StarredAt(v: Version, i: nat, t: string) {
    && i < |v.components| && PlainText(t) && v.components[i].v == t + "*"
    && forall x :: 0 <= x < i ==> PlainText(v.components[x].v)
  }

  /** The version up to the star, without it and without a revision. */
  function UpToStar(v: Version, i: nat, t: string): (r: Version)
    requires StarredAt(v, i, t)
    ensures Plain(r) && |r.components| == i + 1
  {
    Version(v.components[..i] + [v.components[i].(v := t)], 0)
  }

  predicate PlainAhead(v: Version, n: nat) {
    v.components != [] && forall x :: 0 <= x < n && x < |v.components| ==> PlainText(v.components[x].v)
  }

  /** At most `n` components of the version, without a revision. */
  function FirstComponents(v: Version, n: nat): (r: Version)
    requires PlainAhead(v, n) && n > 0
    ensures Plain(r)
  {
    Version(if n < |v.components| then v.components[..n] else v.components, 0)
  }

  lemma {:induction false} StarEndsFrom(f: Version, s: Version, i: nat, t: string, x: nat)
    requires StarredAt(f, i, t) && PlainAhead(s, i + 1) && AllReadable(f, s) && AllReadable(s, f)
    requires x <= i && x <= |s.components|
    ensures var (g, h) := (UpToStar(f, i, t), FirstComponents(s, i + 1));
      && x <= |h.components|
      && Sign(CompareFrom(f, s, x)) == Lexicographic(Key(g)[x..], Key(h)[x..])
      && Sign(CompareFrom(s, f, x)) == -Lexicographic(Key(g)[x..], Key(h)[x..])
    decreases i - x
  {
    hide Step, ComponentKey, Readable;
    var (g, h) := (UpToStar(f, i, t), FirstComponents(s, i + 1));
    if x < |s.components| {
      var c, d := f.components[x], s.components[x];
      CompareFromFollowsKeysTail(g, h, x);
      if x < i {
        StepFollowsKeys(c, d, x + 1 < |f.components|, x + 1 < |s.components|);
        StepFollowsKeys(d, c, x + 1 < |s.components|, x + 1 < |f.components|);
        StarEndsFrom(f, s, i, t, x + 1);
      } else {
        StarStepFollowsKeys(c.prefix, t, d, x + 1 < |f.components|, x + 1 < |s.components|);
        assert Key(g)[x + 1..] == [] && Key(h)[x + 1..] == [];
      }
    }
  }

  /** A step with a star decides as the keys do without it, and for equal where they agree. */
  lemma StarStepFollowsKeys(p: Prefix, t: string, d: Component, fMore: bool, sMore: bool)
    requires PlainText(t) && PlainText(d.v)
    ensures var (c, bare) := (Component(p, t + "*"), Component(p, t));
      && Readable(c, d) && Readable(d, c)
      && Step(c, d, fMore, sMore).Decided? && Step(d, c, sMore, fMore).Decided?
      && Sign(Step(c, d, fMore, sMore).result) == Sign(ComponentKey(bare) - ComponentKey(d))
      && Sign(Step(d, c, sMore, fMore).result) == -Sign(ComponentKey(bare) - ComponentKey(d))
  {
    hide Number, ReadNumber, Rank;
    RankBound(t);
    RankBound(d.v);
    StarDecides(p, t, d.v, fMore, sMore);
    assert d == Component(d.prefix, d.v);
    if p != d.prefix {
      var (c, bare) := (Component(p, t + "*"), Component(p, t));
      StarIsReadable(t, d.v);
    }
  }

  lemma StarIsReadable(t: string, u: string)
    requires PlainText(t) && PlainText(u)
    ensures forall p, q ::
      Readable(Component(p, t + "*"), Component(q, u)) && Readable(Component(q, u), Component(p, t + "*"))
  {
    assert u[|u| - 1] != '*';
  }

  /** Comparing a version with a star at place `i`, on either side, is comparing it up to the star with as many
      components of the other version; what stands behind, and the revisions, do not matter. */
  lemma StarEndsComparison(f: Version, s: Version, i: nat, t: string)
    requires StarredAt(f, i, t) && PlainAhead(s, i + 1) && AllReadable(f, s) && AllReadable(s, f)
    ensures var (g, h) := (UpToStar(f, i, t), FirstComponents(s, i + 1));
      && AllReadable(g, h)
      && Sign(Compare(f, s)) == Sign(Compare(g, h)) && Sign(Compare(s, f)) == -Sign(Compare(g, h))
  {
    hide AllReadable, StarredAt, PlainAhead, CompareFrom;
    var (g, h) := (UpToStar(f, i, t), FirstComponents(s, i + 1));
    StarEndsFrom(f, s, i, t, 0);
    CompareIsReferenceOrder(g, h);
    assert Key(g)[0..] == Key(g) && Key(h)[0..] == Key(h);
  }

  // ----- a star against itself

  /** Of two texts with a star only the first one loses it, so that padding reads them apart. */
  lemma StarAgainstItself(p: Prefix, t: string, fMore: bool, sMore: bool)
    requires PlainText(t)
    ensures var c := Component(p, t + "*");
      Readable(c, c) && Step(c, c, fMore, sMore) == Decided(if LeadingZero(t) then 9 * Value(t) else 0)
  {
    hide Number, Value;
    var v := t + "*";
    NumberBeforeLetter(t, '*');
    assert v == t + ['*'] && v[..|t|] == t && v[..|v|] + Zeros(0) == v;
    assert IsDigit(t[|t| - 1]);
    if t[0] == '0' {
      LeadingZeroBound(t);
      TimesTen(t);
      assert t + Zeros(1) == t + "0";
    }
  }

  lemma TimesTen(t: string)
    requires AllDigits(t) && t != [] && Value(t) < 100_000_000
    ensures AllDigits(t + "0") && Number(t + "0") == Value(t + "0") == 10 * Value(t)
  {
    hide Number;
    ValueOfTenfold(t);
    NumberIsValueIff(t + "0");
  }

  lemma LeadingZeroBound(t: string)
    requires PlainText(t) && t[0] == '0'
    ensures Value(t) < 100_000_000 && (|t| == 1 ==> Value(t) == 0)
  {
    ValueLeadingDigit(t);
    Pow10Small(|t| - 1);
  }

  /** A version with a star compares equal to itself exactly when the text in front of the star has no leading zero, or
      nothing but zeros; otherwise it is above itself. */
  lemma StarEqualToItselfIff(v: Version, i: nat, t: string)
    requires StarredAt(v, i, t) && AllReadable(v, v)
    ensures Compare(v, v) == if LeadingZero(t) then 9 * Value(t) else 0
  {
    hide Value, LeadingZero;
    StarEqualFrom(v, i, t, 0);
  }

  lemma {:induction false} StarEqualFrom(v: Version, i: nat, t: string, x: nat)
    requires StarredAt(v, i, t) && AllReadable(v, v) && x <= i
    ensures CompareFrom(v, v, x) == if LeadingZero(t) then 9 * Value(t) else 0
    decreases i - x
  {
    hide Step, Value, LeadingZero, Readable;
    var c, more := v.components[x], x + 1 < |v.components|;
    if x < i {
      StepFollowsKeys(c, c, more, more);
      StarEqualFrom(v, i, t, x + 1);
    } else {
      StarAgainstItself(c.prefix, t, more, more);
      assert c == Component(c.prefix, t + "*");
    }
  }
}
