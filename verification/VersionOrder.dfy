/** Plain versions are totally preordered by the comparison; letters and long numbers break the order. */
module VersionOrder {
  import opened Versions

  function Pow10(n: nat): (p: nat)
    ensures p > 0
  {
    if n == 0 then 1 else 10 * Pow10(n - 1)
  }

  /** Digits only, at most nine of them: the numbers fit 31 bits even after padding. */
  predicate PlainText(v: string) { 1 <= |v| <= 9 && AllDigits(v) }

  predicate Plain(v: Version) {
    && v.components != []
    && (forall i :: 0 <= i < |v.components| ==> PlainText(v.components[i].v))
    && 0 <= v.revision < 0x8000_0000
  }

  // ----- decimal numerals

  lemma {:induction false} ValueBound(s: string)
    requires AllDigits(s)
    ensures Value(s) < Pow10(|s|)
  {
    if s != [] { ValueBound(s[..|s| - 1]); }
  }

  lemma {:induction false} ValueLeadingDigit(s: string)
    requires AllDigits(s) && s != []
    ensures s[0] == '0' ==> Value(s) < Pow10(|s| - 1)
    ensures s[0] != '0' ==> Pow10(|s| - 1) <= Value(s)
  {
    var init := s[..|s| - 1];
    if init == [] {
      assert Value(init) == 0;
    } else {
      ValueLeadingDigit(init);
    }
  }

  lemma ValueOfTenfold(s: string)
    requires AllDigits(s)
    ensures AllDigits(s + "0") && Value(s + "0") == Value(s) * 10
  {
    assert (s + "0")[..|s|] == s;
  }

  lemma {:induction false} ValueShift(s: string, n: nat)
    requires AllDigits(s)
    ensures AllDigits(s + Zeros(n)) && Value(s + Zeros(n)) == Value(s) * Pow10(n)
  {
    hide Value;
    if n == 0 {
      assert s + Zeros(0) == s;
    } else {
      ValueShift(s, n - 1);
      assert s + Zeros(n) == s + Zeros(n - 1) + "0";
      ValueOfTenfold(s + Zeros(n - 1));
      Associate(Value(s), Pow10(n - 1), 10);
    }
  }

  lemma {:induction false} Pow10Sum(a: nat, b: nat)
    ensures Pow10(a + b) == Pow10(a) * Pow10(b)
  {
    if a != 0 {
      Pow10Sum(a - 1, b);
      calc {
        Pow10(a + b);
        10 * (Pow10(a - 1) * Pow10(b));
        (10 * Pow10(a - 1)) * Pow10(b);
      }
    }
  }

  lemma Pow10Small(n: nat)
    requires n <= 9
    ensures Pow10(n) <= 1_000_000_000 == Pow10(9)
    ensures n <= 8 ==> Pow10(n) <= 100_000_000
    decreases 9 - n
  {
    assert Pow10(9) == 1_000_000_000;
    if n < 9 { Pow10Small(n + 1); }
  }

  // ----- the rank of a component

  /** The text read as the fraction `0.v`, in billionths. */
  function Fraction(v: string): nat
    requires PlainText(v)
  {
    Value(v) * Pow10(9 - |v|)
  }

  predicate LeadingZero(v: string)
    requires v != []
  {
    v[0] == '0' && |v| != 1
  }

  /** Components with a leading zero, and zero itself, come first and are ordered as fractions;
      all others come after them and are ordered as integers. */
  function Rank(v: string): nat
    requires PlainText(v)
  {
    if LeadingZero(v) || v == "0" then Fraction(v) else 1_000_000_000 + Value(v)
  }

  lemma NumberOf(v: string)
    requires PlainText(v)
    ensures Number(v) == Value(v) < 1_000_000_000
  {
    AllLeading(v);
    ValueBound(v);
    Pow10Small(|v|);
    assert IsDigit(v[0]) && SkipBlanks(v) == v;
  }

  /** Padding to any common width orders two texts as their fractions are ordered. */
  lemma PaddingWidthIsIrrelevant(a: string, b: string, width: nat)
    requires PlainText(a) && PlainText(b) && |a| <= width <= 9 && |b| <= width
    ensures PlainText(a + Zeros(width - |a|)) && PlainText(b + Zeros(width - |b|))
    ensures Sign(Value(a + Zeros(width - |a|)) - Value(b + Zeros(width - |b|))) == Sign(Fraction(a) - Fraction(b))
  {
    ScaledFraction(a, width);
    ScaledFraction(b, width);
    SignOfScaled(Value(a + Zeros(width - |a|)), Value(b + Zeros(width - |b|)), Pow10(9 - width));
  }

  lemma ScaledFraction(a: string, width: nat)
    requires PlainText(a) && |a| <= width <= 9
    ensures AllDigits(a + Zeros(width - |a|))
    ensures Fraction(a) == Value(a + Zeros(width - |a|)) * Pow10(9 - width)
  {
    ValueShift(a, width - |a|);
    Pow10Sum(width - |a|, 9 - width);
    assert Pow10(9 - |a|) == Pow10(width - |a|) * Pow10(9 - width);
    Associate(Value(a), Pow10(width - |a|), Pow10(9 - width));
  }

  lemma Associate(a: nat, b: nat, c: nat)
    ensures a * (b * c) == a * b * c == a * (c * b)
  {
  }

  lemma SignOfScaled(x: int, y: int, p: nat)
    requires p > 0
    ensures Sign(x * p - y * p) == Sign(x - y)
  {
    assert x * p - y * p == (x - y) * p;
    if x > y { assert (x - y) * p > 0; } else if x < y { assert (y - x) * p > 0; }
  }

  lemma FractionBound(v: string)
    requires PlainText(v)
    ensures Fraction(v) < 1_000_000_000
    ensures v[0] == '0' ==> Fraction(v) < 100_000_000
    ensures v[0] != '0' ==> 100_000_000 <= Fraction(v)
  {
    ScaledFraction(v, 9);
    var w := v + Zeros(9 - |v|);
    assert w[0] == v[0];
    assert Pow10(0) == 1;
    ValueBound(w);
    ValueLeadingDigit(w);
    assert Pow10(9) == 1_000_000_000 && Pow10(8) == 100_000_000;
  }

  lemma PositiveWhole(v: string)
    requires PlainText(v) && !LeadingZero(v) && v != "0"
    ensures v[0] != '0' && Value(v) > 0
  {
    ValueLeadingDigit(v);
    assert v[0] == '0' ==> v == "0";
  }

  lemma RankOfWhole(v: string)
    requires PlainText(v) && !LeadingZero(v)
    ensures v[0] == '0' ==> Rank(v) == Value(v) == 0
    ensures v[0] != '0' ==> Rank(v) == 1_000_000_000 + Value(v) && Value(v) > 0
  {
    if v[0] == '0' {
      assert v == "0";
      assert Value("0") == 0;
    } else {
      PositiveWhole(v);
    }
  }

  lemma WholeNumbersFollowRanks(a: string, b: string)
    requires PlainText(a) && PlainText(b) && !LeadingZero(a) && !LeadingZero(b)
    ensures Sign(Value(a) - Value(b)) == Sign(Rank(a) - Rank(b))
  {
    hide Rank;
    RankOfWhole(a);
    RankOfWhole(b);
  }

  /** When one text has a leading zero, the ranks are ordered as the fractions are. */
  lemma FractionsFollowRanks(a: string, b: string)
    requires PlainText(a) && PlainText(b) && !WholeNumbers(a, |a|, b, |b|)
    ensures Sign(Fraction(a) - Fraction(b)) == Sign(Rank(a) - Rank(b))
  {
    FractionBound(a);
    FractionBound(b);
    if !LeadingZero(a) { RankOfWhole(a); }
    if !LeadingZero(b) { RankOfWhole(b); }
  }

  lemma NumberRead(v: string, width: nat, whole: bool)
    requires PlainText(v) && |v| <= width <= 9
    ensures PlainText(v + Zeros(width - |v|))
    ensures ReadNumber(v, |v|, width, whole) == Value(if whole then v else v + Zeros(width - |v|)) < 1_000_000_000
  {
    hide Number;
    assert v[..|v|] == v;
    NumberOf(v);
    NumberOf(v + Zeros(width - |v|));
  }

  /** The number comparison of one step, whichever of its two branches it takes, orders the ranks. */
  lemma NumbersFollowRanks(a: string, b: string)
    requires PlainText(a) && PlainText(b)
    ensures var (width, whole) := (Max(|a|, |b|), WholeNumbers(a, |a|, b, |b|));
      var x, y := ReadNumber(a, |a|, width, whole), ReadNumber(b, |b|, width, whole);
      AsI32(x - y) == x - y && Sign(x - y) == Sign(Rank(a) - Rank(b))
  {
    hide Number, ReadNumber, Rank;
    var (width, whole) := (Max(|a|, |b|), WholeNumbers(a, |a|, b, |b|));
    NumberRead(a, width, whole);
    NumberRead(b, width, whole);
    if whole {
      WholeNumbersFollowRanks(a, b);
    } else {
      PaddingWidthIsIrrelevant(a, b, width);
      FractionsFollowRanks(a, b);
    }
  }

  // ----- the reference order

  /** One integer per component: the prefix decides first, then the rank. */
  function ComponentKey(c: Component): int
    requires PlainText(c.v)
  {
    c.prefix.Ordinal() * 10_000_000_000 + Rank(c.v)
  }

  function Key(v: Version): (k: seq<int>)
    requires Plain(v)
    ensures |k| == |v.components|
  {
    seq(|v.components|, i requires 0 <= i < |v.components| => ComponentKey(v.components[i]))
  }

  /** Dictionary order, where a word comes after its proper prefixes. */
  function Lexicographic(a: seq<int>, b: seq<int>): int {
    if a == [] && b == [] then 0
    else if a == [] then -1
    else if b == [] then 1
    else if a[0] != b[0] then Sign(a[0] - b[0])
    else Lexicographic(a[1..], b[1..])
  }

  lemma RankBound(v: string)
    requires PlainText(v)
    ensures Rank(v) < 2_000_000_000
  {
    FractionBound(v);
    NumberOf(v);
  }

  lemma StepFollowsKeys(f: Component, s: Component, fMore: bool, sMore: bool)
    requires PlainText(f.v) && PlainText(s.v)
    ensures Readable(f, s)
    ensures match Step(f, s, fMore, sMore)
      case Decided(r) => r != 0 && Sign(r) == Sign(ComponentKey(f) - ComponentKey(s))
      case Undecided => ComponentKey(f) == ComponentKey(s)
  {
    hide Number, ReadNumber, Rank;
    RankBound(f.v);
    RankBound(s.v);
    assert IsDigit(f.v[|f.v| - 1]) && IsDigit(s.v[|s.v| - 1]);
    NumbersFollowRanks(f.v, s.v);
  }

  lemma PlainIsReadable(f: Version, s: Version)
    requires Plain(f) && Plain(s)
    ensures AllReadable(f, s)
  {
    forall i | 0 <= i < |f.components| && i < |s.components|
      ensures Readable(f.components[i], s.components[i])
    {
      StepFollowsKeys(f.components[i], s.components[i], false, false);
    }
  }

  lemma {:induction false} CompareFromFollowsKeys(f: Version, s: Version, i: nat)
    requires Plain(f) && Plain(s) && AllReadable(f, s)
    requires i <= |f.components| && i <= |s.components|
    ensures Sign(CompareFrom(f, s, i)) ==
      if Lexicographic(Key(f)[i..], Key(s)[i..]) != 0 then Lexicographic(Key(f)[i..], Key(s)[i..])
      else Sign(f.revision - s.revision)
    decreases |f.components| - i
  {
    if i < |f.components| && i < |s.components| {
      StepFollowsKeys(f.components[i], s.components[i], i + 1 < |f.components|, i + 1 < |s.components|);
      CompareFromFollowsKeysTail(f, s, i);
      if Step(f.components[i], s.components[i], i + 1 < |f.components|, i + 1 < |s.components|).Undecided? {
        CompareFromFollowsKeys(f, s, i + 1);
      }
    }
  }

  lemma CompareFromFollowsKeysTail(f: Version, s: Version, i: nat)
    requires Plain(f) && Plain(s)
    requires i < |f.components| && i < |s.components|
    ensures Lexicographic(Key(f)[i..], Key(s)[i..]) ==
      var (x, y) := (ComponentKey(f.components[i]), ComponentKey(s.components[i]));
      if x != y then Sign(x - y) else Lexicographic(Key(f)[i + 1..], Key(s)[i + 1..])
  {
    assert Key(f)[i..][1..] == Key(f)[i + 1..] && Key(s)[i..][1..] == Key(s)[i + 1..];
  }

  /** The comparator computes the dictionary order of the keys, then the order of the revisions. */
  lemma CompareIsReferenceOrder(f: Version, s: Version)
    requires Plain(f) && Plain(s)
    ensures AllReadable(f, s)
    ensures Sign(Compare(f, s)) ==
      if Lexicographic(Key(f), Key(s)) != 0 then Lexicographic(Key(f), Key(s)) else Sign(f.revision - s.revision)
  {
    PlainIsReadable(f, s);
    CompareFromFollowsKeys(f, s, 0);
    assert Key(f)[0..] == Key(f) && Key(s)[0..] == Key(s);
  }

  lemma {:induction false} LexicographicAntisymmetric(a: seq<int>, b: seq<int>)
    ensures Lexicographic(a, b) == -Lexicographic(b, a)
    ensures Lexicographic(a, b) == 0 <==> a == b
  {
    if a != [] && b != [] {
      LexicographicAntisymmetric(a[1..], b[1..]);
      assert a == [a[0]] + a[1..] && b == [b[0]] + b[1..];
    }
  }

  lemma {:induction false} LexicographicTransitive(a: seq<int>, b: seq<int>, c: seq<int>)
    requires Lexicographic(a, b) <= 0 && Lexicographic(b, c) <= 0
    ensures Lexicographic(a, c) <= 0
    ensures Lexicographic(a, b) < 0 || Lexicographic(b, c) < 0 ==> Lexicographic(a, c) < 0
  {
    if a != [] && b != [] && c != [] && a[0] == b[0] == c[0] {
      LexicographicTransitive(a[1..], b[1..], c[1..]);
    }
  }

  // ----- a total preorder on plain versions

  lemma CompareReflexive(v: Version)
    requires Plain(v)
    ensures AllReadable(v, v) && Compare(v, v) == 0
  {
    CompareIsReferenceOrder(v, v);
    LexicographicAntisymmetric(Key(v), Key(v));
  }

  lemma CompareAntisymmetric(f: Version, s: Version)
    requires Plain(f) && Plain(s)
    ensures AllReadable(f, s) && AllReadable(s, f)
    ensures Sign(Compare(f, s)) == -Sign(Compare(s, f))
  {
    CompareIsReferenceOrder(f, s);
    CompareIsReferenceOrder(s, f);
    LexicographicAntisymmetric(Key(f), Key(s));
  }

  lemma CompareTransitive(a: Version, b: Version, c: Version)
    requires Plain(a) && Plain(b) && Plain(c)
    requires AllReadable(a, b) && AllReadable(b, c)
    requires Compare(a, b) <= 0 && Compare(b, c) <= 0
    ensures AllReadable(a, c) && Compare(a, c) <= 0
    ensures Compare(a, b) < 0 || Compare(b, c) < 0 ==> Compare(a, c) < 0
  {
    CompareIsReferenceOrder(a, b);
    CompareIsReferenceOrder(b, c);
    CompareIsReferenceOrder(a, c);
    LexicographicTransitive(Key(a), Key(b), Key(c));
    LexicographicAntisymmetric(Key(a), Key(b));
    LexicographicAntisymmetric(Key(b), Key(c));
  }

  /** Two plain versions compare equal exactly when they differ at most in zeros that a fraction
      (or a zero) carries at its end. */
  lemma CompareEqualMeansSameKey(f: Version, s: Version)
    requires Plain(f) && Plain(s)
    ensures AllReadable(f, s)
    ensures Compare(f, s) == 0 <==> Key(f) == Key(s) && f.revision == s.revision
  {
    CompareIsReferenceOrder(f, s);
    LexicographicAntisymmetric(Key(f), Key(s));
  }

  /** A component with a leading zero lies below every component that has none, zero itself apart. */
  lemma LeadingZerosComeFirst(a: string, b: string)
    requires PlainText(a) && PlainText(b)
    requires LeadingZero(a) && !LeadingZero(b) && b != "0"
    ensures Rank(a) < Rank(b)
  {
    FractionBound(a);
  }

  // ----- prefixes

  /** From the oldest to the newest. */
  const PREFIXES: seq<Prefix> := [Alpha, Beta, Pre, Rc, NoPrefix, P]

  /** Different prefixes decide a step by their places in the list, whatever the texts are and whatever follows. */
  lemma PrefixesDecideStep(f: Component, s: Component, fMore: bool, sMore: bool, j: nat, k: nat)
    requires Readable(f, s) && j < |PREFIXES| && k < |PREFIXES|
    requires f.prefix == PREFIXES[j] && s.prefix == PREFIXES[k] && j != k
    ensures Step(f, s, fMore, sMore) == Decided(j - k)
  {
    hide ReadNumber;
  }

  /** Where all steps before place `i` are undecided, different prefixes there decide the comparison. */
  lemma {:induction false} PrefixesDecideFrom(f: Version, s: Version, from: nat, i: nat, j: nat, k: nat)
    requires AllReadable(f, s) && from <= i && i < |f.components| && i < |s.components|
    requires forall x :: from <= x < i ==> Step(f.components[x], s.components[x], true, true) == Undecided
    requires j < |PREFIXES| && k < |PREFIXES| && j != k
    requires f.components[i].prefix == PREFIXES[j] && s.components[i].prefix == PREFIXES[k]
    ensures CompareFrom(f, s, from) == j - k
    decreases i - from
  {
    hide Step;
    if from < i {
      PrefixesDecideFrom(f, s, from + 1, i, j, k);
    } else {
      PrefixesDecideStep(f.components[i], s.components[i], i + 1 < |f.components|, i + 1 < |s.components|, j, k);
    }
  }

  /** Versions whose components in front of place `i` are the same are ordered by their prefixes there, from alpha over
      beta, pre, rc and none to p, whatever the texts, the further components and the revisions are. */
  lemma OrderedByPrefixes(f: Version, s: Version, i: nat, j: nat, k: nat)
    requires AllReadable(f, s) && i < |f.components| && i < |s.components|
    requires f.components[..i] == s.components[..i] && forall x :: 0 <= x < i ==> PlainText(f.components[x].v)
    requires j < |PREFIXES| && k < |PREFIXES| && j != k
    requires f.components[i].prefix == PREFIXES[j] && s.components[i].prefix == PREFIXES[k]
    ensures Compare(f, s) == j - k
  {
    hide Step, AllReadable;
    forall x | 0 <= x < i ensures Step(f.components[x], s.components[x], true, true) == Undecided {
      assert f.components[x] == f.components[..i][x] == s.components[x];
      StepFollowsKeys(f.components[x], s.components[x], true, true);
    }
    PrefixesDecideFrom(f, s, 0, i, j, k);
  }

  /** Components with a leading zero count as decimal fractions: of two of one length the greater number is newer, and a
      zero at the end does not matter. */
  lemma LeadingZeroIsFraction(p: Prefix, t: string, u: string, fMore: bool, sMore: bool)
    requires PlainText(t) && PlainText(u) && LeadingZero(t) && LeadingZero(u)
    ensures Readable(Component(p, t), Component(p, u)) && Readable(Component(p, t), Component(p, t + "0"))
    ensures |t| == |u| ==>
      Step(Component(p, t), Component(p, u), fMore, sMore) ==
        if Value(t) == Value(u) then Undecided else Decided(Value(t) - Value(u))
    ensures Step(Component(p, t), Component(p, t + "0"), fMore, sMore) == Undecided
  {
    hide Number, Value;
    NumberOf(t);
    NumberOf(u);
    assert IsDigit(t[|t| - 1]) && IsDigit(u[|u| - 1]);
    assert t[..|t|] + Zeros(0) == t && u[..|u|] + Zeros(0) == u;
    assert (t + "0")[..|t| + 1] + Zeros(0) == t[..|t|] + Zeros(1);
  }

  /** Of two versions of which one goes on where the other ends, the longer one is newer, whatever the revisions are. */
  lemma LongerIsNewer(f: Version, s: Version)
    requires Plain(s) && f.components != [] && f.components < s.components && 0 <= f.revision < 0x8000_0000
    ensures Plain(f) && AllReadable(f, s) && AllReadable(s, f)
    ensures Compare(f, s) < 0 < Compare(s, f)
  {
    var n := |f.components|;
    assert forall i :: 0 <= i < n ==> f.components[i] == s.components[i];
    CompareIsReferenceOrder(f, s);
    CompareIsReferenceOrder(s, f);
    assert Key(f) == Key(s)[..n];
    PrefixComesFirst(Key(f), Key(s));
  }

  lemma {:induction false} PrefixComesFirst(a: seq<int>, b: seq<int>)
    requires a < b
    ensures Lexicographic(a, b) == -1 && Lexicographic(b, a) == 1
  {
    if a != [] { PrefixComesFirst(a[1..], b[1..]); }
  }
}
