/** Packages as the program keeps them: a list of ebuilds, linked newest first through `older`. */
module Packages {
  import opened Options
  import opened Sequences
  import opened Versions
  import opened PackageOrder

  class Ebuild {
    const release: Release
    var package: Package?
    var older: Ebuild?

    constructor (release: Release)
      ensures this.release == release && package == null && older == null
    {
      this.release, package, older := release, null, null;
    }
  }

  datatype Added = Ok | InPackageAlready | AddedTwice

  ghost function ReleaseOf(list: seq<Ebuild>): (r: seq<Release>)
    ensures |r| == |list|
    ensures forall i :: 0 <= i < |r| ==> r[i] == list[i].release
  {
    seq(|list|, i requires 0 <= i < |list| => list[i].release)
  }

  ghost function Next(list: seq<Ebuild>, i: nat): Ebuild? { if i < |list| then list[i] else null }

  /** Walking from `head` visits exactly `list`. */
  ghost predicate Chained(head: Ebuild?, list: seq<Ebuild>)
    reads (set e | e in list)`older
  {
    && head == Next(list, 0)
    && forall i {:trigger list[i].older} :: 0 <= i < |list| ==> list[i].older == Next(list, i + 1)
  }

  /** The program can compare `v` with every ebuild of the list. */
  ghost predicate ComparableWith(v: Version, list: seq<Ebuild>) {
    forall i {:trigger list[i]} :: 0 <= i < |list| ==>
      AllReadable(v, list[i].release.version) && AllReadable(list[i].release.version, v)
  }

  /** Finds the ebuilds between which a new one goes. */
  method FindPlace(ebuilds: Ebuild?, ghost list: seq<Ebuild>, ebuild: Ebuild)
    returns (twice: bool, last: Ebuild?, current: Ebuild?, ghost p: nat)
    requires Chained(ebuilds, list) && ComparableWith(ebuild.release.version, list)
    ensures twice ==> ebuild in list
    ensures !twice ==>
      && p == Position(ReleaseOf(list), ebuild.release.version) <= |list|
      && current == Next(list, p) && last == if p == 0 then null else list[p - 1]
  {
    hide AllReadable, Compare;
    last, current, p := null, ebuilds, 0;
    while current != null
      invariant 0 <= p <= |list| && current == Next(list, p)
      invariant last == if p == 0 then null else list[p - 1]
      invariant forall i :: 0 <= i < p ==> Order(ebuild.release.version, list[i].release.version) <= 0
      decreases |list| - p
    {
      assert current == list[p];
      if ebuild == current {
        return true, last, current, p;
      }
      if Compare(ebuild.release.version, current.release.version) > 0 {
        break;
      }
      last := current;
      current := current.older;
      p := p + 1;
    }
    PositionIs(ReleaseOf(list), ebuild.release.version, p);
    twice := false;
  }

  /** Links a new ebuild between its neighbours. */
  method LinkBetween(ebuilds: Ebuild?, ghost list: seq<Ebuild>, ghost p: nat, ebuild: Ebuild, last: Ebuild?,
                     current: Ebuild?)
    returns (head: Ebuild?)
    requires Chained(ebuilds, list) && NoRepeats(list) && p <= |list| && ebuild !in list
    requires current == Next(list, p) && last == if p == 0 then null else list[p - 1]
    modifies ebuild`older, (set e | e in list)`older
    ensures Chained(head, list[..p] + [ebuild] + list[p..]) && NoRepeats(list[..p] + [ebuild] + list[p..])
  {
    ghost var r := list[..p] + [ebuild] + list[p..];
    assert forall i :: 0 <= i < |r| ==> r[i] == if i < p then list[i] else if i == p then ebuild else list[i - 1];
    head := ebuilds;
    if last == null {
      head := ebuild;
      ebuild.older := current;
    } else {
      ebuild.older := current;
      last.older := ebuild;
    }
    forall i | 0 <= i < |r| ensures r[i].older == Next(r, i + 1) {
      if i < p { assert list[i] in list; } else if i > p { assert list[i - 1] in list; }
    }
  }

  class Package {
    const key: string
    var ebuilds: Ebuild?
    ghost var list: seq<Ebuild>

    ghost predicate Valid()
      reads this, list
    {
      && Chained(ebuilds, list) && NoRepeats(list)
      && forall e :: e in list ==> e.package == this
    }

    constructor (key: string)
      ensures Valid() && list == [] && this.key == key
    {
      this.key, ebuilds, list := key, null, [];
    }

    /** Links the ebuild in front of the first one that is strictly older. */
    method AddEbuild(ebuild: Ebuild) returns (result: Added)
      requires Valid() && ComparableWith(ebuild.release.version, list)
      modifies `ebuilds, `list, ebuild, (set e | e in list)`older
      ensures Valid()
      ensures result == if old(ebuild.package) != null then InPackageAlready else Ok
      ensures result != Ok ==>
        list == old(list) && ebuild.package == old(ebuild.package) && ebuild.older == old(ebuild.older)
      ensures result == Ok ==>
        var p := Position(ReleaseOf(old(list)), ebuild.release.version);
        && list == old(list)[..p] + [ebuild] + old(list)[p..]
        && ReleaseOf(list) == Inserted(ReleaseOf(old(list)), ebuild.release)
        && ebuild.package == this
    {
      hide Order, Position, AllReadable, Chained, NoRepeats, ComparableWith;
      if ebuild.package != null {
        return InPackageAlready;
      }
      var twice, last, current, p := FindPlace(ebuilds, list, ebuild);
      if twice {
        return AddedTwice;
      }
      ebuilds := LinkBetween(ebuilds, list, p, ebuild, last, current);
      ebuild.package := this;
      list := list[..p] + [ebuild] + list[p..];
      return Ok;
    }

    /** Walks the list for the newest ebuild in the atom's range. */
    method MatchAtom(atom: Atom) returns (pick: Ebuild?)
      requires Valid() && ComparableWith(atom.version, list)
      ensures var i := PackageOrder.MatchAtom(atom, ReleaseOf(list));
        pick == Next(list, i)
    {
      var current := ebuilds;
      ghost var i := 0;
      ghost var r := ReleaseOf(list);
      while current != null
        invariant 0 <= i <= |list| && current == Next(list, i)
        invariant PackageOrder.MatchAtom(atom, r) == MatchFrom(atom, r, i)
        decreases |list| - i
      {
        var compare := Compare(current.release.version, atom.version);
        if || (compare == 0 && atom.range.equal)
           || (compare > 0 && atom.range.greater)
           || (compare < 0 && atom.range.less)
        {
          return current;
        }
        assert r[i] == current.release;
        if compare > 0 && !atom.range.less {
          break;
        }
        current := current.older;
        i := i + 1;
      }
      return null;
    }
  }

  lemma {:induction false} PositionIs(list: seq<Release>, v: Version, p: nat)
    requires p <= |list| && forall i :: 0 <= i < p ==> Order(v, list[i].version) <= 0
    requires p < |list| ==> Order(v, list[p].version) > 0
    ensures Position(list, v) == p
  {
    hide Order;
    if p > 0 { PositionIs(list[1..], v, p - 1); }
  }
}
