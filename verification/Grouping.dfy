/** Loading a repository on values: it groups the ebuilds by package. */
module Grouping {
  import opened Options
  import opened Sequences
  import opened Versions
  import opened VersionOrder
  import opened AtomText
  import opened PackageOrder

  /** The ebuilds of each package, by package key. */
  type Content = map<string, seq<Release>>

  function Listed(c: Content, key: string): seq<Release> { if key in c then c[key] else [] }

  function Group(c: Content, r: Release): Content {
    c[r.packageKey := Inserted(Listed(c, r.packageKey), r)]
  }

  function GroupAll(c: Content, s: seq<Release>): Content {
    if s == [] then c else Group(GroupAll(c, s[..|s| - 1]), s[|s| - 1])
  }

  /** The ebuild of a directory entry; none when its name carries no version. */
  function EntryRelease(category: string, nameAndVersion: string): Option<Release> {
    var key := category + "/" + nameAndVersion;
    match ParseAtom(key)
    case Some(AtomParts(_, _, packageKey, Some(v))) => Some(Release(key, packageKey, Version(v.components, v.revision)))
    case _ => None
  }

  function OfKey(key: string): Release -> bool { (r: Release) => r.packageKey == key }

  /** Each package holds exactly the ebuilds with its key, added in the order of loading. */
  lemma {:induction false} LoadingGroups(s: seq<Release>, key: string)
    ensures Listed(GroupAll(map[], s), key) == AddedAll(Filter(OfKey(key), s))
    ensures key in GroupAll(map[], s) <==> exists r :: r in s && r.packageKey == key
  {
    hide Inserted;
    if s != [] {
      var u, r := s[..|s| - 1], s[|s| - 1];
      LoadingGroups(u, key);
      assert s == u + [r];
      FilterAppend(OfKey(key), u, r);
      if r.packageKey == key {
        AddedOneMore(Filter(OfKey(key), u), r);
      } else {
        assert Filter(OfKey(key), u) + [] == Filter(OfKey(key), u);
      }
    }
  }

  lemma AddedOneMore(s: seq<Release>, r: Release)
    ensures AddedAll(s + [r]) == Inserted(AddedAll(s), r)
  {
    assert (s + [r])[..|s|] == s;
  }

  lemma {:induction false} FilterMultiplicity(key: string, s: seq<Release>, r: Release)
    ensures multiset(Filter(OfKey(key), s))[r] == if r.packageKey == key then multiset(s)[r] else 0
  {
    if s != [] {
      var u, x := s[..|s| - 1], s[|s| - 1];
      FilterMultiplicity(key, u, r);
      assert s == u + [x];
      FilterAppend(OfKey(key), u, x);
    }
  }

  /** Every ebuild ends up in the one package of its key, as often as it was loaded, and in no other;
      every package is sorted newest first. */
  lemma LoadedOnce(s: seq<Release>, key: string, r: Release)
    ensures multiset(Listed(GroupAll(map[], s), key))[r] == if r.packageKey == key then multiset(s)[r] else 0
    ensures AllPlain(s) ==> Sorted(Listed(GroupAll(map[], s), key))
  {
    hide Order, Filter, AddedAll, GroupAll, Plain;
    var mine := Filter(OfKey(key), s);
    LoadingGroups(s, key);
    AddedAllIsPermutation(mine);
    FilterMultiplicity(key, s, r);
    if AllPlain(s) {
      assert AllPlain(mine);
      SortedGroup(mine);
    }
  }

  lemma ListedMembers(s: seq<Release>, key: string)
    ensures forall r :: r in Listed(GroupAll(map[], s), key) <==> r in s && r.packageKey == key
  {
    hide GroupAll, Listed;
    forall r ensures r in Listed(GroupAll(map[], s), key) <==> r in s && r.packageKey == key {
      LoadedOnce(s, key, r);
      assert r in multiset(s) <==> r in s;
    }
  }

  lemma SortedGroup(s: seq<Release>)
    requires AllPlain(s)
    ensures Sorted(AddedAll(s))
  {
    hide Order, Plain;
    if s != [] { AddedAllSorts(s, s[0].version); }
  }

  /** Printing and loading: the entry of a printed version lands in the package it was printed for. */
  lemma EntryOfPrinted(category: string, name: string, components: seq<Component>, separators: string,
                       revision: Option<nat>)
    requires Without('/', category) && PrintableVersion(components, separators, revision) &&
      components[0].prefix == NoPrefix
    ensures var entry := name + "-" + PrintVersion(components, separators, revision);
      EntryRelease(category, entry) == Some(Release(category + "/" + entry, category + "/" + name,
        Version(components, if revision.Some? then revision.value else 0)))
  {
    hide ParseAtom, PrintVersion;
    ParseUndoesPrintAtom(category, name, components, separators, revision);
  }

  /** The loader passes over hidden files and the manifest. */
  predicate Skipped(entry: string) { (entry != [] && entry[0] == '.') || entry == "Manifest.gz" }

  /** The ebuilds of a category directory; none when one of its entries carries no version. */
  function EntriesReleases(category: string, entries: seq<string>): Option<seq<Release>> {
    if entries == [] then Some([])
    else
      var last := entries[|entries| - 1];
      match EntriesReleases(category, entries[..|entries| - 1])
      case None => None
      case Some(rs) =>
        if Skipped(last) then Some(rs)
        else
          match EntryRelease(category, last)
          case None => None
          case Some(r) => Some(rs + [r])
  }

  /** Any two of the ebuilds can be compared, as far as they belong to one package. */
  ghost predicate AllComparable(s: seq<Release>) {
    forall i, j {:trigger s[i], s[j]} ::
      0 <= i < |s| && 0 <= j < |s| && i != j && s[i].packageKey == s[j].packageKey ==>
      AllReadable(s[i].version, s[j].version)
  }

  /** The program can compare the ebuild with every one of the list. */
  ghost predicate Comparable(v: Version, list: seq<Release>) {
    forall r {:trigger r in list} :: r in list ==> AllReadable(v, r.version) && AllReadable(r.version, v)
  }

  /** What a package holds can be compared with the next ebuild of its key. */
  lemma NextIsComparable(s: seq<Release>, r: Release)
    requires AllComparable(s + [r])
    ensures Comparable(r.version, Listed(GroupAll(map[], s), r.packageKey))
  {
    hide AllReadable, GroupAll, AllComparable;
    ListedMembers(s, r.packageKey);
    forall x | x in Listed(GroupAll(map[], s), r.packageKey)
      ensures AllReadable(r.version, x.version) && AllReadable(x.version, r.version)
    {
      LastIsComparable(s, r, x);
    }
  }

  lemma LastIsComparable(s: seq<Release>, r: Release, x: Release)
    requires AllComparable(s + [r]) && x in s && x.packageKey == r.packageKey
    ensures AllReadable(r.version, x.version) && AllReadable(x.version, r.version)
  {
    hide AllReadable;
    var i :| 0 <= i < |s| && s[i] == x;
    assert (s + [r])[i] == x && (s + [r])[|s|] == r;
  }

  /** Whatever has been loaded, in whatever order: a match is the newest loaded ebuild that the atom takes, and there
      is none exactly when the atom takes no loaded ebuild. */
  lemma MatchAmongLoaded(atom: Atom, s: seq<Release>)
    requires AllPlain(s) && PlainOrNone(atom.version) && atom.range in {ALL, G, GE, L, LE}
    ensures var list := Listed(GroupAll(map[], s), atom.key);
      var i := MatchAtom(atom, list);
      if i < |list| then
        list[i] in s && AtomMatches(atom, list[i]) &&
        forall r :: r in s && AtomMatches(atom, r) ==> Order(list[i].version, r.version) >= 0
      else forall r :: r in s ==> !AtomMatches(atom, r)
  {
    hide Order, Plain, AllPlain, GroupAll, PlainOrNone, MatchAtom, AtomMatches, Sorted;
    var list := Listed(GroupAll(map[], s), atom.key);
    ListedMembers(s, atom.key);
    PlainMembers(s, list);
    LoadedSorted(s, atom.key);
    MatchIsNewest(atom, list);
    forall r | r in s && AtomMatches(atom, r) ensures r in list {
      MatchHasKey(atom, r);
    }
  }

  /** In the terms of keys: among the loaded ebuilds of the atom's package that stand to its version as the range asks,
      the match is one that none of them is newer than, and there is none exactly when there are no such ebuilds. */
  lemma NewestInRange(atom: Atom, s: seq<Release>)
    requires AllPlain(s) && Plain(atom.version) && atom.range in {ALL, G, GE, L, LE}
    ensures var list := Listed(GroupAll(map[], s), atom.key);
      var i := MatchAtom(atom, list);
      if i < |list| then
        list[i] in s && InRange(atom, list[i]) &&
        forall r :: r in s && InRange(atom, r) ==> Standing(list[i].version, r.version) >= 0
      else forall r :: r in s ==> !InRange(atom, r)
  {
    hide Order, Plain, Standing, InRange, MatchAtom, AtomMatches, GroupAll;
    MatchAmongLoaded(atom, s);
    forall r | r in s ensures AtomMatches(atom, r) <==> InRange(atom, r) { TakenInRange(atom, r); }
    var list := Listed(GroupAll(map[], s), atom.key);
    var i := MatchAtom(atom, list);
    if i < |list| {
      forall r | r in s && InRange(atom, r) ensures Standing(list[i].version, r.version) >= 0 {
        OrderIsStanding(list[i].version, r.version);
      }
    }
  }

  /** The ebuild belongs to the atom's package and stands to its version as the range asks. */
  ghost predicate InRange(atom: Atom, r: Release)
    requires Plain(atom.version)
  {
    r.packageKey == atom.key && Plain(r.version) &&
    var o := Standing(r.version, atom.version);
    || atom.range == ALL
    || (o > 0 && (atom.range == G || atom.range == GE))
    || (o < 0 && (atom.range == L || atom.range == LE))
    || (o == 0 && (atom.range == GE || atom.range == LE))
  }

  lemma TakenInRange(atom: Atom, r: Release)
    requires Plain(atom.version) && Plain(r.version) && atom.range in {ALL, G, GE, L, LE}
    ensures AtomMatches(atom, r) <==> InRange(atom, r)
  {
    hide Plain, Standing, AtomMatches;
    RangesMean(atom, r);
  }

  lemma OrderIsStanding(a: Version, b: Version)
    requires Plain(a) && Plain(b)
    ensures Order(a, b) >= 0 <==> Standing(a, b) >= 0
  {
    hide Plain, Compare, Key, Lexicographic;
    CompareIsReferenceOrder(a, b);
  }

  lemma MatchHasKey(atom: Atom, r: Release)
    requires AtomMatches(atom, r)
    ensures r.packageKey == atom.key
  {
  }

  lemma PlainMembers(s: seq<Release>, t: seq<Release>)
    requires AllPlain(s) && forall r :: r in t ==> r in s
    ensures AllPlain(t)
  {
  }

  lemma LoadedSorted(s: seq<Release>, key: string)
    requires AllPlain(s)
    ensures Sorted(Listed(GroupAll(map[], s), key))
  {
    hide Sorted;
    LoadedOnce(s, key, Release("", "", Version([], 0)));
  }

  // ----- which entries count

  /** Neither hidden nor the manifest. */
  function Counts(): string -> bool { (entry: string) => !(entry != "" && entry[0] == '.') && entry != "Manifest.gz" }

  /** The ebuilds of the entries, one for each and in their order; it fails exactly when one of them has no version. */
  predicate Contributed(category: string, kept: seq<string>, loaded: Option<seq<Release>>) {
    && (loaded.Some? <==> forall i :: 0 <= i < |kept| ==> EntryRelease(category, kept[i]).Some?)
    && (loaded.Some? ==>
      && |loaded.value| == |kept|
      && forall i :: 0 <= i < |kept| ==> EntryRelease(category, kept[i]) == Some(loaded.value[i]))
  }

  lemma OneMoreContributed(category: string, kept: seq<string>, loaded: Option<seq<Release>>, last: string)
    requires Contributed(category, kept, loaded)
    ensures loaded.Some? && EntryRelease(category, last).Some? ==>
      Contributed(category, kept + [last], Some(loaded.value + [EntryRelease(category, last).value]))
    ensures loaded.None? || EntryRelease(category, last).None? ==> Contributed(category, kept + [last], None)
  {
    hide EntryRelease;
    assert forall i :: 0 <= i < |kept| ==> (kept + [last])[i] == kept[i];
    assert (kept + [last])[|kept|] == last;
  }

  /** Every entry of a category directory that is neither hidden nor the manifest contributes its ebuild, in the order
      of the entries, and the others contribute none; it fails exactly when one of those entries has no version. */
  lemma {:induction false} EntriesContribute(category: string, entries: seq<string>)
    ensures Contributed(category, Filter(Counts(), entries), EntriesReleases(category, entries))
  {
    hide EntryRelease, Filter, Contributed;
    if entries == [] {
      FilterNone(Counts(), entries);
      NothingContributed(category);
    } else {
      var init, last := entries[..|entries| - 1], entries[|entries| - 1];
      EntriesContribute(category, init);
      assert entries == init + [last];
      FilterAppend(Counts(), init, last);
      OneMoreContributed(category, Filter(Counts(), init), EntriesReleases(category, init), last);
      assert Filter(Counts(), init) + [] == Filter(Counts(), init);
    }
  }

  lemma NothingContributed(category: string)
    ensures Contributed(category, [], Some([]))
  {
  }
}
