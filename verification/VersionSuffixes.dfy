/** Versions with at most one letter, at the very end: where their order breaks, exactly, and why. */
module VersionSuffixes {
  import opened Versions
  import opened VersionOrder
  import opened VersionNumbers
  import opened VersionLetters

  /** The text without a letter at its end. */
  function Bare(t: string): string { if t != [] && t[|t| - 1] > '9' then t[..|t| - 1] else t }

  /** A number without a leading zero, and at most one letter behind it. */
  predicate SuffixedText(t: string) { PlainText(Bare(t)) && !LeadingZero(t) }

  /** Plain components, and a last one that may carry a letter. */
  predicate Suffixed(v: Version) {
    && v.components != []
    && (forall i :: 0 <= i < |v.components| - 1 ==> PlainText(v.components[i].v))
    && SuffixedText(v.components[|v.components| - 1].v)
    && 0 <= v.revision < LIMIT
  }

  function BareKey(c: Component): int
    requires PlainText(Bare(c.v))
  {
    ComponentKey(c.(v := Bare(c.v)))
  }

  lemma PlainIsBare(t: string)
    requires PlainText(t)
    ensures Bare(t) == t
  {
    assert IsDigit(t[|t| - 1]);
  }

  lemma AllBare(v: Version)
    requires Suffixed(v)
    ensures forall i :: 0 <= i < |v.components| ==> PlainText(Bare(v.components[i].v))
  {
    forall i | 0 <= i < |v.components| ensures PlainText(Bare(v.components[i].v)) {
      if i < |v.components| - 1 { PlainIsBare(v.components[i].v); }
    }
  }

  // ----- the reference order

  /** Stands behind a component that others follow; it is above every letter. */
  const MORE: int := 0x11_0000
  const BASE: int := 0x20_0000

  /** The letter behind component `i`, 0 for none, or the mark that more follows. */
  function Tag(v: Version, i: nat): (t: int)
    requires Suffixed(v) && i < |v.components|
    ensures 0 <= t <= MORE && (t == MORE <==> i + 1 < |v.components|)
  {
    if i + 1 < |v.components| then MORE
    else
      var text := v.components[i].v;
      Suffix(text[|text| - 1])
  }

  /** The key of component `i` without its letter decides first, and then what stands behind it. */
  function TaggedKey(v: Version, i: nat): int
    requires Suffixed(v) && i < |v.components|
  {
    AllBare(v);
    BareKey(v.components[i]) * BASE + Tag(v, i)
  }

  function SuffixedKey(v: Version): (k: seq<int>)
    requires Suffixed(v)
    ensures |k| == |v.components|
  {
    seq(|v.components|, i requires 0 <= i < |v.components| => TaggedKey(v, i))
  }

  lemma TagsDecideLast(x: int, a: int, y: int, b: int)
    requires 0 <= a < BASE && 0 <= b < BASE
    ensures Sign(x * BASE + a - (y * BASE + b)) == if x != y then Sign(x - y) else Sign(a - b)
  {
    if x > y { assert (x - y) * BASE >= BASE; } else if x < y { assert (y - x) * BASE >= BASE; }
  }

  // ----- the last step

  lemma SuffixedNumber(t: string)
    requires SuffixedText(t)
    ensures t != [] && t[|t| - 1] != '*' && Number(t) == Value(Bare(t)) < 1_000_000_000
    ensures !LeadingZero(Bare(t))
  {
    hide Number, Value;
    if Bare(t) == t {
      NumberOf(t);
      assert IsDigit(t[|t| - 1]);
    } else {
      NumberBeforeLetter(Bare(t), t[|t| - 1]);
      assert Bare(t) + [t[|t| - 1]] == t;
    }
  }

  lemma LastStepFollowsKeys(f: Component, s: Component)
    requires SuffixedText(f.v) && SuffixedText(s.v)
    ensures Readable(f, s)
    ensures var (x, y) := (BareKey(f), BareKey(s));
      var (a, b) := (Suffix(f.v[|f.v| - 1]), Suffix(s.v[|s.v| - 1]));
      match Step(f, s, false, false)
      case Decided(r) => r != 0 && Sign(r) == if x != y then Sign(x - y) else Sign(a - b)
      case Undecided => x == y && a == b
  {
    hide Number, Value, Rank;
    SuffixedNumber(f.v);
    SuffixedNumber(s.v);
    WholeNumbersFollowRanks(Bare(f.v), Bare(s.v));
    RankBound(Bare(f.v));
    RankBound(Bare(s.v));
  }

  // ----- one step

  lemma SuffixedIsReadable(f: Version, s: Version)
    requires Suffixed(f) && Suffixed(s)
    ensures AllReadable(f, s)
  {
    hide PlainText;
    forall i | 0 <= i < |f.components| && i < |s.components| ensures Readable(f.components[i], s.components[i]) {
      SuffixedFits(f, i);
      SuffixedFits(s, i);
    }
  }

  lemma SuffixedFits(v: Version, i: nat)
    requires Suffixed(v) && i < |v.components|
    ensures var t := v.components[i].v; 0 < |t| < 11 && t[|t| - 1] != '*'
  {
    AllBare(v);
    var t := v.components[i].v;
    assert PlainText(Bare(t));
    assert i < |v.components| - 1 ==> PlainText(t);
  }

  /** Drop the letter at the end. */
  function WithoutLetter(v: Version): Version
    requires Suffixed(v)
  {
    var last := |v.components| - 1;
    v.(components := v.components[last := v.components[last].(v := Bare(v.components[last].v))])
  }

  predicate EndsInLetter(v: Version)
    requires Suffixed(v)
  {
    Lettered(v.components[|v.components| - 1])
  }

  /** At `i`, the last component of `f` carries a letter, `s` goes on, and the number of `f` is the greater one: the
      letter cuts the comparison off before the numbers are read. */
  predicate CutAt(f: Version, s: Version, i: nat)
    requires Suffixed(f) && Suffixed(s) && i < |f.components| && i < |s.components|
  {
    AllBare(f);
    AllBare(s);
    && i == |f.components| - 1 && i + 1 < |s.components| && EndsInLetter(f)
    && f.components[i].prefix == s.components[i].prefix
    && BareKey(f.components[i]) > BareKey(s.components[i])
  }

  /** What stands at place `i`: plain text, or, at the end, digits and a letter. */
  lemma PlaceOf(v: Version, i: nat)
    requires Suffixed(v) && i < |v.components|
    ensures var c := v.components[i];
      var lettered := i + 1 == |v.components| && EndsInLetter(v);
      && StarFreeText(c.v) && PlainText(Bare(c.v)) && (Lettered(c) <==> lettered)
      && (!lettered ==> PlainText(c.v) && BareKey(c) == ComponentKey(c))
      && (i + 1 == |v.components| ==> Tag(v, i) == Suffix(c.v[|c.v| - 1]) && (Tag(v, i) > 0 <==> lettered))
  {
    hide Value, Rank;
    AllBare(v);
    if i < |v.components| - 1 { PlainIsBare(v.components[i].v); }
    assert IsDigit(Bare(v.components[i].v)[|Bare(v.components[i].v)| - 1]);
  }

  lemma PrefixesDecide(c: Component, d: Component)
    requires PlainText(Bare(c.v)) && PlainText(Bare(d.v)) && c.prefix != d.prefix
    ensures Sign(BareKey(c) - BareKey(d)) == Sign(c.prefix.Ordinal() - d.prefix.Ordinal())
  {
    hide Rank, Bare;
    RankBound(Bare(c.v));
    RankBound(Bare(d.v));
  }

  /** A letter with more on the other side decides at once, for whatever comes last to be the lesser one. */
  lemma LetterStops(c: Component, d: Component)
    requires Readable(c, d) && Readable(d, c) && StarFreeText(c.v) && StarFreeText(d.v) && Lettered(c) && !Lettered(d)
    ensures Step(c, d, false, true) ==
      Decided(if c.prefix == d.prefix then -1 else c.prefix.Ordinal() - d.prefix.Ordinal())
    ensures Step(d, c, true, false) ==
      Decided(if c.prefix == d.prefix then 1 else d.prefix.Ordinal() - c.prefix.Ordinal())
  {
    hide ReadNumber;
  }

  /** A step where a letter cuts the comparison off decides against the keys. */
  lemma CutStep(f: Version, s: Version, i: nat)
    requires Suffixed(f) && Suffixed(s) && AllReadable(f, s) && AllReadable(s, f)
    requires i < |f.components| && i < |s.components| && CutAt(f, s, i)
    ensures StepAt(f, s, i) == Decided(-1) && StepAt(s, f, i) == Decided(1) && TaggedKey(f, i) > TaggedKey(s, i)
  {
    hide Step, Readable, Suffixed, Bare, BareKey;
    PlaceOf(f, i);
    PlaceOf(s, i);
    TagsDecideLast(BareKey(f.components[i]), Tag(f, i), BareKey(s.components[i]), Tag(s, i));
    LetterStops(f.components[i], s.components[i]);
  }

  /** A letter that cuts nothing off decides as the keys do. */
  lemma LetterFollowsTags(f: Version, s: Version, i: nat)
    requires Suffixed(f) && Suffixed(s) && AllReadable(f, s) && AllReadable(s, f)
    requires i + 1 == |f.components| < |s.components| && EndsInLetter(f) && !CutAt(f, s, i)
    ensures var (x, y) := (StepAt(f, s, i), StepAt(s, f, i));
      && x.Decided? && Sign(x.result) == Sign(TaggedKey(f, i) - TaggedKey(s, i)) != 0
      && y.Decided? && Sign(y.result) == Sign(TaggedKey(s, i) - TaggedKey(f, i)) != 0
  {
    hide Step, Readable, Suffixed, Bare, BareKey;
    var c, d := f.components[i], s.components[i];
    PlaceOf(f, i);
    PlaceOf(s, i);
    TagsDecideLast(BareKey(c), Tag(f, i), BareKey(d), Tag(s, i));
    TagsDecideLast(BareKey(d), Tag(s, i), BareKey(c), Tag(f, i));
    LetterStops(c, d);
    if c.prefix != d.prefix { PrefixesDecide(c, d); }
  }

  /** Every step that is not cut off decides as the keys do; it leaves open only keys that agree, and ends of which one
      comes first. */
  lemma StepFollowsTags(f: Version, s: Version, i: nat)
    requires Suffixed(f) && Suffixed(s) && AllReadable(f, s) && AllReadable(s, f)
    requires i < |f.components| && i < |s.components| && !CutAt(f, s, i) && !CutAt(s, f, i)
    ensures match StepAt(f, s, i)
      case Decided(r) => r != 0 && Sign(r) == Sign(TaggedKey(f, i) - TaggedKey(s, i))
      case Undecided =>
        var (fMore, sMore) := (i + 1 < |f.components|, i + 1 < |s.components|);
        && (!fMore && sMore ==> !EndsInLetter(f)) && (!sMore && fMore ==> !EndsInLetter(s))
        && Sign(TaggedKey(f, i) - TaggedKey(s, i)) == if fMore == sMore then 0 else if fMore then 1 else -1
  {
    hide Step, Readable, Bare, BareKey, ComponentKey, CutAt;
    var c, d := f.components[i], s.components[i];
    var fMore, sMore := i + 1 < |f.components|, i + 1 < |s.components|;
    PlaceOf(f, i);
    PlaceOf(s, i);
    TagsDecideLast(BareKey(c), Tag(f, i), BareKey(d), Tag(s, i));
    if !fMore && sMore && EndsInLetter(f) {
      LetterFollowsTags(f, s, i);
    } else if !sMore && fMore && EndsInLetter(s) {
      LetterFollowsTags(s, f, i);
    } else if !fMore && !sMore {
      LastStepFollowsKeys(c, d);
    } else {
      StepFollowsKeys(c, d, fMore, sMore);
    }
  }

  // ----- the whole comparison

  predicate KeysAgree(f: Version, s: Version, i: nat, k: nat)
    requires Suffixed(f) && Suffixed(s) && k <= |f.components| && k <= |s.components|
  {
    forall j :: i <= j < k ==> TaggedKey(f, j) == TaggedKey(s, j)
  }

  /** From place `i` on, the letter of `f` cuts the comparison with `s` off. */
  predicate CutFrom(f: Version, s: Version, i: nat)
    requires Suffixed(f) && Suffixed(s)
  {
    var last := |f.components| - 1;
    i <= last && last + 1 < |s.components| && KeysAgree(f, s, i, last) && CutAt(f, s, last)
  }

  /** `f` ends in a letter where `s` goes on, all keys before agree, and the number of `f` is the greater one. */
  predicate Cut(f: Version, s: Version)
    requires Suffixed(f) && Suffixed(s)
  {
    CutFrom(f, s, 0)
  }

  lemma CutStepwise(f: Version, s: Version, i: nat)
    requires Suffixed(f) && Suffixed(s) && i < |f.components| && i < |s.components|
    ensures CutFrom(f, s, i) <==> CutAt(f, s, i) || (TaggedKey(f, i) == TaggedKey(s, i) && CutFrom(f, s, i + 1))
  {
    hide Suffixed, TaggedKey, CutAt;
    var last := |f.components| - 1;
    if CutAt(f, s, i) {
      LastPlaceOnly(f, s, i);
      assert KeysAgree(f, s, i, last);
    }
  }

  lemma LastPlaceOnly(f: Version, s: Version, i: nat)
    requires Suffixed(f) && Suffixed(s) && i < |f.components| && i < |s.components| && CutAt(f, s, i)
    ensures i == |f.components| - 1 && i + 1 < |s.components|
  {
  }

  lemma KeysFrom(f: Version, s: Version, i: nat)
    requires Suffixed(f) && Suffixed(s) && i < |f.components| && i < |s.components|
    ensures Lexicographic(SuffixedKey(f)[i..], SuffixedKey(s)[i..]) ==
      var (x, y) := (TaggedKey(f, i), TaggedKey(s, i));
      if x != y then Sign(x - y) else Lexicographic(SuffixedKey(f)[i + 1..], SuffixedKey(s)[i + 1..])
  {
    hide TaggedKey, Suffixed;
    assert SuffixedKey(f)[i..][1..] == SuffixedKey(f)[i + 1..] && SuffixedKey(s)[i..][1..] == SuffixedKey(s)[i + 1..];
  }

  /** The dictionary order of the keys from place `i` on, and then the order of the revisions. */
  function OrderFrom(f: Version, s: Version, i: nat): int
    requires Suffixed(f) && Suffixed(s) && i <= |f.components| && i <= |s.components|
  {
    var keys := Lexicographic(SuffixedKey(f)[i..], SuffixedKey(s)[i..]);
    if keys != 0 then keys else Sign(f.revision - s.revision)
  }

  lemma {:induction false} CompareFromFollowsIffNotCut(f: Version, s: Version, i: nat)
    requires Suffixed(f) && Suffixed(s) && AllReadable(f, s) && AllReadable(s, f)
    requires i <= |f.components| && i <= |s.components|
    ensures Sign(CompareFrom(f, s, i)) == OrderFrom(f, s, i) <==> !CutFrom(f, s, i) && !CutFrom(s, f, i)
    decreases |f.components| - i
  {
    hide Step, Readable, Suffixed, TaggedKey, CutAt, SuffixedKey, KeysAgree;
    if i < |f.components| && i < |s.components| {
      KeysFrom(f, s, i);
      CutStepwise(f, s, i);
      CutStepwise(s, f, i);
      if CutAt(f, s, i) {
        CutStep(f, s, i);
      } else if CutAt(s, f, i) {
        CutStep(s, f, i);
      } else {
        StepFollowsTags(f, s, i);
        CompareFromFollowsIffNotCut(f, s, i + 1);
      }
    } else {
      EndOfKeys(f, s, i);
    }
  }

  lemma EndOfKeys(f: Version, s: Version, i: nat)
    requires Suffixed(f) && Suffixed(s) && i <= |f.components| && i <= |s.components|
    requires i == |f.components| || i == |s.components|
    ensures OrderFrom(f, s, i) ==
      if i < |f.components| then 1 else if i < |s.components| then -1 else Sign(f.revision - s.revision)
    ensures !CutFrom(f, s, i) && !CutFrom(s, f, i)
    ensures AsI32(f.revision - s.revision) == f.revision - s.revision
  {
    hide TaggedKey;
    assert |SuffixedKey(f)[i..]| == |f.components| - i && |SuffixedKey(s)[i..]| == |s.components| - i;
  }

  function Order(f: Version, s: Version): int
    requires Suffixed(f) && Suffixed(s)
  {
    OrderFrom(f, s, 0)
  }

  /** The comparison is the dictionary order of the keys, and then of the revisions, exactly when neither version's
      letter cuts it off. */
  lemma OrderedIffNotCut(f: Version, s: Version)
    requires Suffixed(f) && Suffixed(s)
    ensures AllReadable(f, s)
    ensures Sign(Compare(f, s)) == Order(f, s) <==> !Cut(f, s) && !Cut(s, f)
  {
    hide Suffixed, AllReadable, OrderFrom, CutFrom;
    SuffixedIsReadable(f, s);
    SuffixedIsReadable(s, f);
    CompareFromFollowsIffNotCut(f, s, 0);
  }

  lemma OrderIsPreorder(a: Version, b: Version, c: Version)
    requires Suffixed(a) && Suffixed(b) && Suffixed(c)
    ensures Order(a, a) == 0 && Order(a, b) == -Order(b, a)
    ensures Order(a, b) <= 0 && Order(b, c) <= 0 ==>
      Order(a, c) <= 0 && (Order(a, b) < 0 || Order(b, c) < 0 ==> Order(a, c) < 0)
  {
    hide Suffixed, SuffixedKey, Lexicographic;
    var x, y, z := SuffixedKey(a), SuffixedKey(b), SuffixedKey(c);
    assert x[0..] == x && y[0..] == y && z[0..] == z;
    LexicographicAntisymmetric(x, x);
    LexicographicAntisymmetric(x, y);
    LexicographicAntisymmetric(y, z);
    if Lexicographic(x, y) <= 0 && Lexicographic(y, z) <= 0 { LexicographicTransitive(x, y, z); }
  }

  // ----- cycles

  lemma LetterDropped(v: Version)
    requires Suffixed(v)
    ensures var g := WithoutLetter(v);
      && Suffixed(g) && |g.components| == |v.components| && !EndsInLetter(g)
      && forall i :: 0 <= i < |v.components| ==>
        PlainText(Bare(v.components[i].v)) && PlainText(Bare(g.components[i].v)) &&
        BareKey(g.components[i]) == BareKey(v.components[i])
  {
    AllBare(v);
    var last := |v.components| - 1;
    var t := v.components[last].v;
    assert IsDigit(Bare(t)[|Bare(t)| - 1]);
  }

  lemma OneLengthIsNotCut(f: Version, s: Version)
    requires Suffixed(f) && Suffixed(s) && |f.components| == |s.components|
    ensures !Cut(f, s) && !Cut(s, f)
  {
    hide Suffixed, CutAt, KeysAgree;
  }

  lemma NoLetterCutsNothing(f: Version, s: Version)
    requires Suffixed(f) && Suffixed(s) && !EndsInLetter(f)
    ensures !Cut(f, s)
  {
    hide Suffixed, KeysAgree;
  }

  /** Against the shorter version without its letter, the keys say what the letter hid. */
  lemma KeysWithoutLetter(f: Version, s: Version)
    requires Suffixed(f) && Suffixed(s) && Cut(f, s) && Suffixed(WithoutLetter(f))
    ensures Order(s, WithoutLetter(f)) < 0 && Order(WithoutLetter(f), f) < 0
  {
    hide Suffixed, BareKey, Bare, Lettered;
    var g, last := WithoutLetter(f), |f.components| - 1;
    LetterDropped(f);
    AllBare(s);
    forall i | 0 <= i < last ensures TaggedKey(g, i) == TaggedKey(f, i) == TaggedKey(s, i) { }
    PlaceOf(f, last);
    PlaceOf(g, last);
    TagsDecideLast(BareKey(s.components[last]), Tag(s, last), BareKey(g.components[last]), Tag(g, last));
    TagsDecideLast(BareKey(g.components[last]), Tag(g, last), BareKey(f.components[last]), Tag(f, last));
    hide TaggedKey, Tag;
    FirstDifference(s, g, last);
    FirstDifference(g, f, last);
  }

  lemma FirstDifference(f: Version, s: Version, k: nat)
    requires Suffixed(f) && Suffixed(s) && k < |f.components| && k < |s.components|
    requires KeysAgree(f, s, 0, k) && TaggedKey(f, k) < TaggedKey(s, k)
    ensures Order(f, s) < 0
  {
    hide Suffixed, TaggedKey;
    FirstDifferenceFrom(f, s, 0, k);
  }

  lemma {:induction false} FirstDifferenceFrom(f: Version, s: Version, i: nat, k: nat)
    requires Suffixed(f) && Suffixed(s) && i <= k < |f.components| && k < |s.components|
    requires KeysAgree(f, s, i, k) && TaggedKey(f, k) < TaggedKey(s, k)
    ensures Lexicographic(SuffixedKey(f)[i..], SuffixedKey(s)[i..]) < 0
    decreases k - i
  {
    hide Suffixed, TaggedKey, SuffixedKey, Lexicographic;
    KeysFrom(f, s, i);
    if i < k { FirstDifferenceFrom(f, s, i + 1, k); }
  }

  /** Where a letter cuts the comparison off there is a cycle: f < s < g < f, where g is f without its letter. */
  lemma CutMakesACycle(f: Version, s: Version)
    requires Suffixed(f) && Suffixed(s) && Cut(f, s)
    ensures var g := WithoutLetter(f);
      && Suffixed(g) && AllReadable(f, s) && AllReadable(s, g) && AllReadable(g, f) && AllReadable(f, g)
      && Compare(f, s) < 0 && Compare(s, g) < 0 && Compare(g, f) < 0 && Compare(f, g) > 0
  {
    hide Suffixed, AllReadable, Order, EndsInLetter, Compare;
    var g := WithoutLetter(f);
    LetterDropped(f);
    KeysWithoutLetter(f, s);
    CutIsBelow(f, s);
    NoLetterCutsNothing(g, s);
    ShorterIsNotCut(f, s, g);
    OneLengthIsNotCut(f, g);
    OrderedIffNotCut(s, g);
    OrderedIffNotCut(g, f);
    OrderedIffNotCut(f, g);
    OrderIsPreorder(f, g, g);
  }

  lemma ShorterIsNotCut(f: Version, s: Version, g: Version)
    requires Suffixed(f) && Suffixed(s) && Suffixed(g) && Cut(f, s) && |g.components| == |f.components|
    ensures !Cut(s, g)
  {
    hide Suffixed, CutAt, KeysAgree;
  }

  lemma CutIsBelow(f: Version, s: Version)
    requires Suffixed(f) && Suffixed(s) && Cut(f, s)
    ensures AllReadable(f, s) && Compare(f, s) < 0
  {
    hide Suffixed;
    SuffixedIsReadable(f, s);
    SuffixedIsReadable(s, f);
    CutIsBelowFrom(f, s, 0);
  }

  lemma {:induction false} CutIsBelowFrom(f: Version, s: Version, i: nat)
    requires Suffixed(f) && Suffixed(s) && AllReadable(f, s) && AllReadable(s, f) && CutFrom(f, s, i)
    ensures CompareFrom(f, s, i) < 0
    decreases |f.components| - i
  {
    hide Step, Readable, Suffixed, TaggedKey, CutAt, KeysAgree;
    CutStepwise(f, s, i);
    if CutAt(f, s, i) {
      CutStep(f, s, i);
    } else {
      OnlyOneIsCut(f, s, i);
      StepFollowsTags(f, s, i);
      CutIsBelowFrom(f, s, i + 1);
    }
  }

  lemma OnlyOneIsCut(f: Version, s: Version, i: nat)
    requires Suffixed(f) && Suffixed(s) && CutFrom(f, s, i)
    ensures i < |f.components| && i < |s.components| && !CutAt(s, f, i)
  {
    hide Suffixed, KeysAgree;
  }

  ghost predicate AllSuffixed(u: iset<Version>) { forall v :: v in u ==> Suffixed(v) }

  /** With a version, the one without its letter belongs to the set, too. */
  ghost predicate ClosedUnderDropping(u: iset<Version>)
    requires AllSuffixed(u)
  {
    forall v :: v in u ==> WithoutLetter(v) in u
  }

  ghost predicate Below(a: Version, b: Version)
    requires Suffixed(a) && Suffixed(b)
  {
    SuffixedIsReadable(a, b);
    Compare(a, b) <= 0
  }

  ghost predicate Transitive(u: iset<Version>)
    requires AllSuffixed(u)
  {
    forall a, b, c :: a in u && b in u && c in u && Below(a, b) && Below(b, c) ==> Below(a, c)
  }

  lemma BelowAsOrdered(a: Version, b: Version)
    requires Suffixed(a) && Suffixed(b) && !Cut(a, b) && !Cut(b, a)
    ensures Below(a, b) <==> Order(a, b) <= 0
  {
    hide Suffixed, AllReadable, Order, Cut, Compare;
    OrderedIffNotCut(a, b);
  }

  /** On every set of such versions that is closed under dropping the letter, the comparison is transitive exactly when
      no letter of one member cuts off the comparison with another. */
  lemma TransitiveIffNoCuts(u: iset<Version>)
    requires AllSuffixed(u) && ClosedUnderDropping(u)
    ensures Transitive(u) <==> forall f, s :: f in u && s in u ==> !Cut(f, s)
  {
    hide Suffixed, AllReadable, Order, Cut, Compare, WithoutLetter;
    if forall f, s :: f in u && s in u ==> !Cut(f, s) {
      forall a, b, c | a in u && b in u && c in u && Below(a, b) && Below(b, c) ensures Below(a, c) {
        BelowAsOrdered(a, b);
        BelowAsOrdered(b, c);
        BelowAsOrdered(a, c);
        OrderIsPreorder(a, b, c);
      }
    }
    if f, s :| f in u && s in u && Cut(f, s) {
      CutMakesACycle(f, s);
      var g := WithoutLetter(f);
      assert Below(f, s) && Below(s, g) && !Below(f, g);
    }
  }

  /** Versions of one length are totally preordered: equal to themselves, swapping them swaps the sign, and the
      comparison is transitive, strictly so when one step is strict. */
  lemma SuffixedPreorder(a: Version, b: Version, c: Version)
    requires Suffixed(a) && Suffixed(b) && Suffixed(c)
    requires |a.components| == |b.components| == |c.components|
    ensures AllReadable(a, a) && AllReadable(a, b) && AllReadable(b, a) && AllReadable(b, c) && AllReadable(a, c)
    ensures Compare(a, a) == 0 && Sign(Compare(a, b)) == -Sign(Compare(b, a))
    ensures Compare(a, b) <= 0 && Compare(b, c) <= 0 ==>
      Compare(a, c) <= 0 && (Compare(a, b) < 0 || Compare(b, c) < 0 ==> Compare(a, c) < 0)
  {
    hide Suffixed, AllReadable, Compare, Order, Cut;
    OneLengthIsNotCut(a, a);
    OneLengthIsNotCut(a, b);
    OneLengthIsNotCut(b, c);
    OneLengthIsNotCut(a, c);
    OrderedIffNotCut(a, a);
    OrderedIffNotCut(a, b);
    OrderedIffNotCut(b, a);
    OrderedIffNotCut(b, c);
    OrderedIffNotCut(a, c);
    OrderIsPreorder(a, b, c);
  }

  lemma SameNumberRead(t: string, x: char, y: char)
    requires PlainText(t) && !LeadingZero(t) && x > '9' && y > '9'
    ensures var n := |t| + 1;
      && ReadNumber(t + [x], n, n, WholeNumbers(t + [x], n, t + [y], n)) == Value(t)
      && ReadNumber(t + [y], n, n, WholeNumbers(t, |t|, t + [y], n)) == Value(t)
      && ReadNumber(t, |t|, n, WholeNumbers(t, |t|, t + [y], n)) == Value(t)
      && AsI32(Value(t) - Value(t)) == 0
  {
    hide Number, Value;
    NumberOf(t);
    NumberBeforeLetter(t, x);
    NumberBeforeLetter(t, y);
    assert (t + [x])[..|t| + 1] + Zeros(0) == t + [x] && (t + [y])[..|t| + 1] + Zeros(0) == t + [y];
    if t[0] == '0' {
      NumberOf("00");
      assert t == "0" && t[..1] + Zeros(1) == "00";
      ZeroIsZero();
    }
  }

  lemma ZeroIsZero()
    ensures Value("0") == 0 && Value("00") == 0
  {
    assert "00"[..1] == "0";
  }

  /** Behind the same number the later letter is the newer one, and any letter is newer than none. */
  lemma LaterLetterIsNewer(p: Prefix, t: string, x: char, y: char)
    requires PlainText(t) && !LeadingZero(t) && x > '9' && y > '9'
    ensures var (none, f, s) := (Component(p, t), Component(p, t + [x]), Component(p, t + [y]));
      && Readable(f, s) && Readable(none, s) && Readable(s, none)
      && Step(f, s, false, false) == (if x == y then Undecided else Decided(x as int - y as int))
      && Step(none, s, false, false) == Decided(-(y as int)) && Step(s, none, false, false) == Decided(y as int)
  {
    hide ReadNumber, Value, WholeNumbers, AsI32;
    SameNumberRead(t, x, y);
    SameNumberRead(t, y, x);
    WholeEitherWay(t, x, y);
    assert IsDigit(t[|t| - 1]);
  }

  lemma WholeEitherWay(t: string, x: char, y: char)
    requires PlainText(t)
    ensures WholeNumbers(t + [x], |t| + 1, t + [y], |t| + 1) == WholeNumbers(t + [y], |t| + 1, t + [x], |t| + 1)
    ensures WholeNumbers(t, |t|, t + [y], |t| + 1) == WholeNumbers(t + [y], |t| + 1, t, |t|)
  {
  }
}
