/** The ebuilds of one package: inserted newest first, and searched for the newest match of an atom. */
module PackageOrder {
  import opened Options
  import opened Sequences
  import opened Versions
  import opened VersionOrder

  /** An ebuild by its key `category/name-version`, the key of its package, and its version. */
  datatype Release = Release(key: string, packageKey: string, version: Version)

  /** The bits of an atom's range; the last one belongs to `~` alone, and no code reads it. */
  datatype Range = Range(equal: bool, less: bool, greater: bool, anyRevision: bool)

  const ALL := Range(true, true, true, false)
  const E := Range(true, false, false, false)
  const L := Range(false, true, false, false)
  const G := Range(false, false, true, false)
  const REV := Range(true, false, false, true)
  const GE := Range(true, false, true, false)
  const LE := Range(true, true, false, false)

  datatype Atom = Atom(key: string, range: Range, version: Version)

  /** The sign of the comparison. */
  function Order(a: Version, b: Version): (r: int)
    ensures r == -1 || r == 0 || r == 1
  {
    if AllReadable(a, b) then Sign(Compare(a, b)) else 0
  }

  lemma OrderReflexive(a: Version)
    requires Plain(a)
    ensures Order(a, a) == 0
  {
    CompareReflexive(a);
  }

  lemma OrderAntisymmetric(a: Version, b: Version)
    requires Plain(a) && Plain(b)
    ensures Order(a, b) == -Order(b, a)
  {
    CompareAntisymmetric(a, b);
  }

  lemma OrderTransitive(a: Version, b: Version, c: Version)
    requires Plain(a) && Plain(b) && Plain(c)
    requires Order(a, b) >= 0 && Order(b, c) >= 0
    ensures Order(a, c) >= 0
    ensures Order(a, b) > 0 || Order(b, c) > 0 ==> Order(a, c) > 0
  {
    hide Compare, AllReadable, Plain;
    CompareAntisymmetric(a, b);
    CompareAntisymmetric(b, c);
    CompareAntisymmetric(a, c);
    CompareTransitive(c, b, a);
  }

  // ----- insertion

  /** The first place whose ebuild is strictly older than `v`, or the end. */
  function Position(list: seq<Release>, v: Version): (p: nat)
    ensures p <= |list|
    ensures forall i :: 0 <= i < p ==> Order(v, list[i].version) <= 0
    ensures p < |list| ==> Order(v, list[p].version) > 0
  {
    if list == [] || Order(v, list[0].version) > 0 then 0 else 1 + Position(list[1..], v)
  }

  function Inserted(list: seq<Release>, e: Release): seq<Release> {
    var p := Position(list, e.version);
    list[..p] + [e] + list[p..]
  }

  /** The list after the ebuilds `s` have been added one after the other. */
  function AddedAll(s: seq<Release>): seq<Release> {
    if s == [] then [] else Inserted(AddedAll(s[..|s| - 1]), s[|s| - 1])
  }

  predicate AllPlain(s: seq<Release>) { forall e :: e in s ==> Plain(e.version) }

  /** Newest first. */
  predicate Sorted(list: seq<Release>) {
    forall i, j :: 0 <= i < j < |list| ==> Order(list[i].version, list[j].version) >= 0
  }

  function EqualTo(v: Version): Release -> bool { (e: Release) => Order(v, e.version) == 0 }

  /** In a sorted list everything from the insertion place on is strictly older. */
  lemma RestIsOlder(list: seq<Release>, v: Version)
    requires AllPlain(list) && Sorted(list) && Plain(v)
    ensures forall i :: Position(list, v) <= i < |list| ==> Order(v, list[i].version) > 0
  {
    hide Order, Plain, Position;
    var p := Position(list, v);
    forall i | p <= i < |list| ensures Order(v, list[i].version) > 0 {
      if i > p {
        assert list[p] in list && list[i] in list;
        OrderTransitive(v, list[p].version, list[i].version);
      }
    }
  }

  lemma InsertedKeepsSorted(list: seq<Release>, e: Release)
    requires AllPlain(list) && Plain(e.version) && Sorted(list)
    ensures Sorted(Inserted(list, e)) && AllPlain(Inserted(list, e))
  {
    hide Order, Plain, Position;
    var p, r := Position(list, e.version), Inserted(list, e);
    RestIsOlder(list, e.version);
    forall i, j | 0 <= i < j < |r| ensures Order(r[i].version, r[j].version) >= 0 {
      if j == p {
        assert r[i] in list;
        OrderAntisymmetric(r[i].version, e.version);
      }
    }
  }

  /** Versions equal to `v` keep their order, and the new ebuild goes behind them. */
  lemma InsertedIsStable(list: seq<Release>, e: Release, v: Version)
    requires AllPlain(list) && Plain(e.version) && Sorted(list) && Plain(v)
    ensures Filter(EqualTo(v), Inserted(list, e)) ==
      Filter(EqualTo(v), list) + if Order(v, e.version) == 0 then [e] else []
  {
    hide Order, Plain, Position, Filter, Sorted;
    var q, p := EqualTo(v), Position(list, e.version);
    var before, rest := list[..p], list[p..];
    assert list == before + rest;
    FilterConcat(q, before + [e], rest);
    FilterAppend(q, before, e);
    FilterConcat(q, before, rest);
    if Order(v, e.version) == 0 {
      NoneEqualBehind(list, e.version, v);
      FilterNone(q, rest);
    }
  }

  lemma NoneEqualBehind(list: seq<Release>, w: Version, v: Version)
    requires AllPlain(list) && Plain(w) && Sorted(list) && Plain(v) && Order(v, w) == 0
    ensures forall x :: x in list[Position(list, w)..] ==> !EqualTo(v)(x)
  {
    hide Order, Plain, Position, Sorted;
    RestIsOlder(list, w);
    forall x | x in list[Position(list, w)..] ensures !EqualTo(v)(x) {
      OrderTransitive(v, w, x.version);
    }
  }

  lemma InsertedMembers(list: seq<Release>, e: Release)
    ensures multiset(Inserted(list, e)) == multiset(list) + multiset{e}
  {
    hide Position;
    var p := Position(list, e.version);
    assert list == list[..p] + list[p..];
  }

  lemma {:induction false} AddedAllIsPermutation(s: seq<Release>)
    ensures multiset(AddedAll(s)) == multiset(s)
  {
    hide Inserted;
    if s != [] {
      var u, e := s[..|s| - 1], s[|s| - 1];
      AddedAllIsPermutation(u);
      InsertedMembers(AddedAll(u), e);
      assert s == u + [e];
    }
  }

  /** Adding ebuilds is a stable sort, newest first: a permutation, sorted, and the ebuilds of equal
      version stay in the order of their addition. */
  lemma {:induction false} AddedAllSorts(s: seq<Release>, v: Version)
    requires AllPlain(s) && Plain(v)
    ensures multiset(AddedAll(s)) == multiset(s)
    ensures Sorted(AddedAll(s)) && AllPlain(AddedAll(s))
    ensures Filter(EqualTo(v), AddedAll(s)) == Filter(EqualTo(v), s)
  {
    hide Order, Plain, Inserted;
    AddedAllIsPermutation(s);
    if s != [] {
      var u, e := s[..|s| - 1], s[|s| - 1];
      AddedAllSorts(u, v);
      InsertedKeepsSorted(AddedAll(u), e);
      InsertedIsStable(AddedAll(u), e, v);
    }
  }

  // ----- independence of the order of addition

  ghost predicate NoneEqual(s: seq<Release>) {
    forall i, j :: 0 <= i < j < |s| ==> Order(s[i].version, s[j].version) != 0
  }

  /** No two members of a multiset with equal versions. */
  ghost predicate Distinct(m: multiset<Release>) {
    && (forall a :: a in m ==> m[a] == 1)
    && (forall a, b :: a in m && b in m && a != b ==> Order(a.version, b.version) != 0)
  }

  lemma NoneEqualIsDistinct(s: seq<Release>)
    requires AllPlain(s) && NoneEqual(s)
    ensures Distinct(multiset(s))
  {
    hide Order, Plain;
    forall a, b | a in multiset(s) && b in multiset(s) && a != b ensures Order(a.version, b.version) != 0 {
      var i :| 0 <= i < |s| && s[i] == a;
      var j :| 0 <= j < |s| && s[j] == b;
      OrderAntisymmetric(a.version, b.version);
    }
    forall a | a in multiset(s) ensures multiset(s)[a] == 1 {
      OnlyOnce(s, a);
    }
  }

  lemma OnlyOnce(s: seq<Release>, a: Release)
    requires AllPlain(s) && NoneEqual(s) && a in s
    ensures multiset(s)[a] == 1
  {
    hide Order, Plain;
    var i :| 0 <= i < |s| && s[i] == a;
    OrderReflexive(a.version);
    assert s == s[..i] + [a] + s[i + 1..];
    assert forall j :: 0 <= j < |s| && j != i ==> s[j] != a;
    assert a !in s[..i] && a !in s[i + 1..];
  }

  lemma SameNewest(a: seq<Release>, b: seq<Release>)
    requires AllPlain(a) && Sorted(a) && Sorted(b) && multiset(a) == multiset(b) && Distinct(multiset(a)) && a != []
    ensures b != [] && a[0] == b[0]
  {
    hide Order, Plain;
    assert |multiset(a)| == |multiset(b)|;
    assert a[0] in multiset(b) && b[0] in multiset(a);
    var i :| 0 <= i < |a| && a[i] == b[0];
    var j :| 0 <= j < |b| && b[j] == a[0];
    OrderAntisymmetric(a[0].version, b[0].version);
  }

  lemma WithoutFirst(a: seq<Release>)
    requires a != [] && Sorted(a)
    ensures multiset(a[1..]) == multiset(a) - multiset{a[0]} && Sorted(a[1..])
    ensures AllPlain(a) ==> AllPlain(a[1..])
    ensures Distinct(multiset(a)) ==> Distinct(multiset(a[1..]))
  {
    hide Order, Plain;
    assert a == [a[0]] + a[1..];
  }

  /** A sorted list without equal versions is determined by its members. */
  lemma {:induction false} SortedIsUnique(a: seq<Release>, b: seq<Release>)
    requires AllPlain(a) && Sorted(a) && Sorted(b) && multiset(a) == multiset(b) && Distinct(multiset(a))
    ensures a == b
  {
    hide Order, Plain, Sorted, Distinct, AllPlain;
    if a == [] {
      assert |multiset(b)| == 0;
    } else {
      SameNewest(a, b);
      WithoutFirst(a);
      WithoutFirst(b);
      SortedIsUnique(a[1..], b[1..]);
      assert a == [a[0]] + a[1..] && b == [b[0]] + b[1..];
    }
  }

  /** When no two versions compare equal, the order of addition does not matter. */
  lemma OrderOfAdditionIsIrrelevant(s: seq<Release>, t: seq<Release>)
    requires AllPlain(s) && NoneEqual(s) && multiset(s) == multiset(t)
    ensures AddedAll(s) == AddedAll(t)
  {
    hide Order, Plain;
    forall e | e in t ensures Plain(e.version) { assert e in multiset(t); assert e in s; }
    if s == [] {
      assert |multiset(t)| == 0;
    } else {
      AddedAllSorts(s, s[0].version);
      AddedAllSorts(t, s[0].version);
      NoneEqualIsDistinct(s);
      SortedIsUnique(AddedAll(s), AddedAll(t));
    }
  }

  // ----- matching

  /** Whether the range takes an ebuild that compares so with the atom's version. */
  predicate Takes(range: Range, compare: int) {
    || (compare == 0 && range.equal)
    || (compare > 0 && range.greater)
    || (compare < 0 && range.less)
  }

  /** The program's loop over the list, from `i` on: the newest ebuilds come first, and the loop gives up at
      an ebuild newer than the atom's version unless the atom also takes older ones. */
  function MatchFrom(atom: Atom, list: seq<Release>, i: nat): (r: nat)
    requires i <= |list|
    ensures i <= r <= |list|
    decreases |list| - i
  {
    if i == |list| then i
    else
      var compare := Order(list[i].version, atom.version);
      if Takes(atom.range, compare) then i
      else if compare > 0 && !atom.range.less then |list|
      else MatchFrom(atom, list, i + 1)
  }

  /** The place of the ebuild that the program picks for the atom, or the length of the list for none. */
  function MatchAtom(atom: Atom, list: seq<Release>): nat { MatchFrom(atom, list, 0) }

  /** Whether an atom takes an ebuild: here the atom's version comes first. */
  predicate AtomMatches(atom: Atom, target: Release) {
    && atom.key == target.packageKey
    && var compare := Order(atom.version, target.version);
       if compare == 0 then atom.range.equal else if compare > 0 then atom.range.less else atom.range.greater
  }

  /** The version of an atom: plain, or absent. */
  predicate PlainOrNone(v: Version) { Plain(v) || v.components == [] }

  /** An absent version is older than any other. */
  lemma NoneIsOldest(a: Version, b: Version)
    requires a.components == [] && Plain(b)
    ensures Order(a, b) == -1 && Order(b, a) == 1
  {
  }

  lemma SwappedArguments(atom: Atom, target: Release)
    requires PlainOrNone(atom.version) && Plain(target.version)
    ensures Order(atom.version, target.version) == -Order(target.version, atom.version)
  {
    if Plain(atom.version) {
      OrderAntisymmetric(atom.version, target.version);
    } else {
      NoneIsOldest(atom.version, target.version);
    }
  }

  /** `i` is the place of the newest ebuild that the atom takes, or the length when it takes none. */
  ghost predicate IsNewestMatch(atom: Atom, list: seq<Release>, i: nat) {
    && i <= |list|
    && (i < |list| ==> AtomMatches(atom, list[i]))
    && forall j :: 0 <= j < |list| && AtomMatches(atom, list[j]) ==>
      i < |list| && (i == j || i < j) && Order(list[i].version, list[j].version) >= 0
  }

  /** The loop stops too early: the newest ebuild is newer than the atom's version, the range takes
      neither newer nor older ebuilds, and some ebuild of the list has the very version. */
  ghost predicate GivesUp(atom: Atom, list: seq<Release>) {
    && !atom.range.less && !atom.range.greater
    && list != [] && Order(list[0].version, atom.version) > 0
    && exists i :: 0 <= i < |list| && AtomMatches(atom, list[i])
  }

  lemma MatchesAsTaken(atom: Atom, target: Release)
    requires PlainOrNone(atom.version) && Plain(target.version) && target.packageKey == atom.key
    ensures AtomMatches(atom, target) <==> Takes(atom.range, Order(target.version, atom.version))
  {
    hide Order, Plain;
    SwappedArguments(atom, target);
  }

  ghost predicate OfPackage(list: seq<Release>, key: string) {
    forall e :: e in list ==> e.packageKey == key
  }

  /** As long as the loop does not give up, it finds the newest match. */
  lemma {:induction false} MatchFromFinds(atom: Atom, list: seq<Release>, i: nat)
    requires AllPlain(list) && Sorted(list) && OfPackage(list, atom.key) && PlainOrNone(atom.version)
    requires i <= |list| && forall j :: 0 <= j < i ==> !AtomMatches(atom, list[j])
    requires
      || atom.range.less || atom.range.greater
      || (forall j :: 0 <= j < |list| ==> Order(list[j].version, atom.version) <= 0)
      || (forall j :: 0 <= j < |list| ==> !AtomMatches(atom, list[j]))
    ensures IsNewestMatch(atom, list, MatchFrom(atom, list, i))
    decreases |list| - i
  {
    hide Order, Plain, AtomMatches, PlainOrNone;
    if i < |list| {
      MatchesAsTaken(atom, list[i]);
      if Takes(atom.range, Order(list[i].version, atom.version)) {
        OrderReflexive(list[i].version);
      } else if Order(list[i].version, atom.version) <= 0 || atom.range.less {
        MatchFromFinds(atom, list, i + 1);
      }
    }
  }

  lemma NoneIsNewer(atom: Atom, list: seq<Release>)
    requires AllPlain(list) && Sorted(list) && PlainOrNone(atom.version)
    requires list != [] && Order(list[0].version, atom.version) <= 0
    ensures forall j :: 0 <= j < |list| ==> Order(list[j].version, atom.version) <= 0
  {
    hide Order, Plain;
    assert list[0] in list;
    if !Plain(atom.version) { NoneIsOldest(atom.version, list[0].version); }
    forall j | 0 <= j < |list| ensures Order(list[j].version, atom.version) <= 0 {
      if j > 0 {
        assert list[j] in list;
        OrderAntisymmetric(list[0].version, atom.version);
        OrderAntisymmetric(list[j].version, atom.version);
        OrderTransitive(atom.version, list[0].version, list[j].version);
      }
    }
  }

  /** The program picks the newest ebuild that the atom takes, and none exactly when the atom takes none,
      if and only if it does not give up on a newer ebuild first. */
  lemma MatchIsNewestIff(atom: Atom, list: seq<Release>)
    requires AllPlain(list) && Sorted(list) && OfPackage(list, atom.key) && PlainOrNone(atom.version)
    ensures IsNewestMatch(atom, list, MatchAtom(atom, list)) <==> !GivesUp(atom, list)
  {
    hide Order, Plain, AtomMatches, PlainOrNone;
    if !GivesUp(atom, list) {
      if list != [] && Order(list[0].version, atom.version) <= 0 { NoneIsNewer(atom, list); }
      MatchFromFinds(atom, list, 0);
    }
  }

  /** For the ranges without `=` alone the pick is always right. */
  lemma MatchIsNewest(atom: Atom, list: seq<Release>)
    requires AllPlain(list) && Sorted(list) && OfPackage(list, atom.key) && PlainOrNone(atom.version)
    requires atom.range in {ALL, G, GE, L, LE}
    ensures IsNewestMatch(atom, list, MatchAtom(atom, list))
  {
    hide Order, Plain, AtomMatches, PlainOrNone, IsNewestMatch;
    MatchIsNewestIff(atom, list);
  }

  /** `~` is documented to take every revision of a version; the program treats it as `=`. */
  lemma AnyRevisionIsEqual(atom: Atom, list: seq<Release>, i: nat)
    requires i <= |list|
    ensures MatchFrom(atom.(range := REV), list, i) == MatchFrom(atom.(range := E), list, i)
    decreases |list| - i
  {
    hide Order;
    if i < |list| { AnyRevisionIsEqual(atom, list, i + 1); }
  }

  /** What `~` is documented to take: the atom's version in any revision. */
  ghost predicate AnyRevisionOf(atom: Atom, target: Release)
    requires Plain(atom.version) && Plain(target.version)
  {
    Key(atom.version) == Key(target.version)
  }

  /** What `~` takes: the very revision only. */
  lemma AnyRevisionTakesOneIff(atom: Atom, target: Release)
    requires Plain(atom.version) && Plain(target.version) && atom.key == target.packageKey && atom.range == REV
    ensures AtomMatches(atom, target) <==>
      Key(atom.version) == Key(target.version) && atom.version.revision == target.version.revision
  {
    hide Compare, AllReadable, Plain, Key;
    CompareEqualMeansSameKey(atom.version, target.version);
  }

  /** `~` does what it is documented to do exactly for ebuilds that are of another version or of the atom's revision. */
  lemma AnyRevisionAsDocumentedIff(atom: Atom, target: Release)
    requires Plain(atom.version) && Plain(target.version) && atom.key == target.packageKey && atom.range == REV
    ensures (AtomMatches(atom, target) <==> AnyRevisionOf(atom, target)) <==>
      Key(atom.version) != Key(target.version) || atom.version.revision == target.version.revision
  {
    hide AtomMatches, Plain, Key;
    AnyRevisionTakesOneIff(atom, target);
  }

  /** `~1` does not take 1-r1. */
  lemma AnyRevisionMissesRevisionOne()
    ensures var one := Version([Component(NoPrefix, "1")], 0);
      var atom, target := Atom("c/p", REV, one), Release("c/p-1-r1", "c/p", one.(revision := 1));
      Plain(atom.version) && Plain(target.version) && AnyRevisionOf(atom, target) && !AtomMatches(atom, target)
  {
    var one := Version([Component(NoPrefix, "1")], 0);
    var atom, target := Atom("c/p", REV, one), Release("c/p-1-r1", "c/p", one.(revision := 1));
    AnyRevisionTakesOneIff(atom, target);
    assert Key(one) == Key(one.(revision := 1));
  }

  /** With 2 and 1 in the list, the atom `=1` finds nothing. */
  lemma EqualityMissesOlderVersion()
    ensures var (two, one) := (Version([Component(NoPrefix, "2")], 0), Version([Component(NoPrefix, "1")], 0));
      var list := [Release("c/p-2", "c/p", two), Release("c/p-1", "c/p", one)];
      var atom := Atom("c/p", E, one);
      AllPlain(list) && Sorted(list) && AtomMatches(atom, list[1]) && MatchAtom(atom, list) == |list|
  {
    var (two, one) := (Version([Component(NoPrefix, "2")], 0), Version([Component(NoPrefix, "1")], 0));
    assert Plain(two) && Plain(one);
    TwoAboveOne();
    OrderReflexive(one);
  }

  lemma TwoAboveOne()
    ensures Order(Version([Component(NoPrefix, "2")], 0), Version([Component(NoPrefix, "1")], 0)) == 1
  {
    hide Number;
    NumberOf("2");
    NumberOf("1");
    assert Value("2") == 2 && Value("1") == 1;
    var (two, one) := (Version([Component(NoPrefix, "2")], 0), Version([Component(NoPrefix, "1")], 0));
    assert Step(two.components[0], one.components[0], false, false) == Decided(1);
  }

  // ----- what the ranges mean

  /** How a target stands to an atom's version: by the keys of their components, and then by their revisions. */
  function Standing(target: Version, asked: Version): int
    requires Plain(target) && Plain(asked)
  {
    var o := Lexicographic(Key(target), Key(asked));
    if o != 0 then o else target.revision - asked.revision
  }

  /** An atom takes the ebuilds of its package that stand to its version as its range says. */
  lemma RangesMean(atom: Atom, target: Release)
    requires Plain(atom.version) && Plain(target.version)
    ensures atom.key != target.packageKey ==> !AtomMatches(atom, target)
    ensures atom.key == target.packageKey ==>
      var (takes, o) := (AtomMatches(atom, target), Standing(target.version, atom.version));
      && (atom.range == ALL ==> takes)
      && (atom.range == E || atom.range == REV ==> (takes <==> o == 0))
      && (atom.range == G ==> (takes <==> o > 0))
      && (atom.range == GE ==> (takes <==> o >= 0))
      && (atom.range == L ==> (takes <==> o < 0))
      && (atom.range == LE ==> (takes <==> o <= 0))
  {
    hide Compare, AllReadable, Plain, Key, Lexicographic;
    CompareIsReferenceOrder(atom.version, target.version);
    LexicographicAntisymmetric(Key(target.version), Key(atom.version));
  }

  /** An atom without a version, whose range takes everything, takes every ebuild of its package and no other. */
  lemma NoVersionTakesAll(atom: Atom, target: Release)
    requires atom.version.components == [] && atom.range == ALL && Plain(target.version)
    ensures AtomMatches(atom, target) <==> atom.key == target.packageKey
  {
    NoneIsOldest(atom.version, target.version);
  }
}
