/** Selecting from sequences, and joining the chains of a hash table. */
module Sequences {
  ghost predicate NoRepeats<T>(s: seq<T>) {
    forall i, j :: 0 <= i < j < |s| ==> s[i] != s[j]
  }

  /** The members of `s` that satisfy `p`, in order. */
  function Filter<T>(p: T -> bool, s: seq<T>): (r: seq<T>)
    ensures |r| <= |s|
    ensures forall i :: 0 <= i < |r| ==> p(r[i]) && r[i] in s
  {
    if s == [] then []
    else Filter(p, s[..|s| - 1]) + if p(s[|s| - 1]) then [s[|s| - 1]] else []
  }

  lemma FilterAppend<T>(p: T -> bool, s: seq<T>, x: T)
    ensures Filter(p, s + [x]) == Filter(p, s) + if p(x) then [x] else []
  {
    assert (s + [x])[..|s|] == s;
  }

  lemma {:induction false} FilterConcat<T>(p: T -> bool, s: seq<T>, t: seq<T>)
    ensures Filter(p, s + t) == Filter(p, s) + Filter(p, t)
  {
    if t == [] {
      assert s + t == s;
    } else {
      hide Filter;
      var u, x := t[..|t| - 1], t[|t| - 1];
      FilterConcat(p, s, u);
      FilterAppend(p, s + u, x);
      FilterAppend(p, u, x);
      assert s + t == s + u + [x] && t == u + [x];
    }
  }

  lemma {:induction false} FilterNone<T>(p: T -> bool, s: seq<T>)
    requires forall x :: x in s ==> !p(x)
    ensures Filter(p, s) == []
  {
    if s != [] { FilterNone(p, s[..|s| - 1]); }
  }

  /** A filter absorbs a weaker one. */
  lemma {:induction false} FilterFilter<T>(p: T -> bool, q: T -> bool, s: seq<T>)
    requires forall x :: x in s && p(x) ==> q(x)
    ensures Filter(p, Filter(q, s)) == Filter(p, s)
  {
    if s != [] {
      var u, x := s[..|s| - 1], s[|s| - 1];
      FilterFilter(p, q, u);
      assert s == u + [x];
      FilterAppend(q, u, x);
      if q(x) {
        FilterAppend(p, Filter(q, u), x);
      } else {
        assert Filter(q, s) == Filter(q, u);
      }
    }
  }

  lemma {:induction false} FilterKeeps<T>(p: T -> bool, s: seq<T>, x: T)
    ensures x in Filter(p, s) <==> x in s && p(x)
  {
    if s != [] {
      FilterKeeps(p, s[..|s| - 1], x);
      assert x in s <==> x in s[..|s| - 1] || x == s[|s| - 1];
    }
  }

  lemma {:induction false} FilterIsCount<T>(p: T -> bool, s: seq<T>, places: set<nat>)
    requires forall i: nat :: i in places <==> i < |s| && p(s[i])
    ensures |Filter(p, s)| == |places|
  {
    if s == [] {
      assert places == {};
    } else {
      var u, last := s[..|s| - 1], |s| - 1;
      FilterIsCount(p, u, places - {last});
    }
  }

  /** Replacing one selected member by another selected one replaces it in the selection. */
  lemma FilterUpdate<T>(p: T -> bool, s: seq<T>, i: nat, x: T) returns (j: nat)
    requires i < |s| && p(s[i]) && p(x)
    ensures j == |Filter(p, s[..i])| < |Filter(p, s)| && Filter(p, s)[j] == s[i]
    ensures Filter(p, s[i := x]) == Filter(p, s)[j := x]
  {
    hide Filter;
    var a, b := s[..i], s[i + 1..];
    j := |Filter(p, a)|;
    SplitFilter(p, a, s[i], b);
    SplitFilter(p, a, x, b);
    assert s == a + [s[i]] + b;
    assert s[i := x] == a + [x] + b;
  }

  lemma SplitFilter<T>(p: T -> bool, a: seq<T>, x: T, b: seq<T>)
    requires p(x)
    ensures Filter(p, a + [x] + b) == Filter(p, a) + [x] + Filter(p, b)
  {
    FilterConcat(p, a + [x], b);
    FilterAppend(p, a, x);
  }

  /** Replacing an unselected member by another unselected one changes nothing. */
  lemma FilterUpdateOther<T>(p: T -> bool, s: seq<T>, i: nat, x: T)
    requires i < |s| && !p(s[i]) && !p(x)
    ensures Filter(p, s[i := x]) == Filter(p, s)
  {
    var a, b := s[..i], s[i + 1..];
    assert s == a + [s[i]] + b && s[i := x] == a + [x] + b;
    FilterConcat(p, a + [s[i]], b);
    FilterConcat(p, a + [x], b);
    FilterAppend(p, a, s[i]);
    FilterAppend(p, a, x);
  }

  /** All members of all chains, chain after chain. */
  function Flatten<T>(b: seq<seq<T>>): seq<T> {
    if b == [] then [] else Flatten(b[..|b| - 1]) + b[|b| - 1]
  }

  lemma FlattenNone<T>()
    ensures Flatten<T>([]) == []
  {
  }

  lemma FlattenAppend<T>(b: seq<seq<T>>, x: seq<T>)
    ensures Flatten(b + [x]) == Flatten(b) + x
  {
    assert (b + [x])[..|b|] == b;
  }

  lemma {:induction false} FlattenConcat<T>(b: seq<seq<T>>, c: seq<seq<T>>)
    ensures Flatten(b + c) == Flatten(b) + Flatten(c)
  {
    if c == [] {
      assert b + c == b;
    } else {
      var init := c[..|c| - 1];
      FlattenConcat(b, init);
      assert (b + c)[..|b + c| - 1] == b + init;
      assert Flatten(b + c) == Flatten(b + init) + c[|c| - 1];
    }
  }

  lemma {:induction false} FlattenMember<T>(b: seq<seq<T>>, i: nat, x: T)
    requires i < |b| && x in b[i]
    ensures x in Flatten(b)
  {
    if i < |b| - 1 { FlattenMember(b[..|b| - 1], i, x); }
  }

  lemma {:induction false} MemberFlatten<T>(b: seq<seq<T>>, x: T) returns (i: nat)
    requires x in Flatten(b)
    ensures i < |b| && x in b[i]
  {
    if x in b[|b| - 1] { i := |b| - 1; } else { i := MemberFlatten(b[..|b| - 1], x); }
  }

  lemma FlattenLast<T>(b: seq<seq<T>>)
    requires b != []
    ensures multiset(Flatten(b)) == multiset(Flatten(b[..|b| - 1])) + multiset(b[|b| - 1])
    ensures |Flatten(b)| == |Flatten(b[..|b| - 1])| + |b[|b| - 1]|
  {
  }

  /** Changing one chain changes the joined chains by just that. */
  lemma {:induction false} FlattenUpdate<T>(b: seq<seq<T>>, c: nat, x: seq<T>)
    requires c < |b|
    ensures multiset(Flatten(b[c := x])) + multiset(b[c]) == multiset(Flatten(b)) + multiset(x)
    ensures |Flatten(b[c := x])| + |b[c]| == |Flatten(b)| + |x|
  {
    hide Flatten;
    var init := b[..|b| - 1];
    FlattenLast(b);
    FlattenLast(b[c := x]);
    if c < |b| - 1 {
      FlattenUpdate(init, c, x);
      assert b[c := x][..|b| - 1] == init[c := x];
      AddLast(multiset(Flatten(init[c := x])), multiset(Flatten(init)), multiset(b[c]), multiset(x),
              multiset(b[|b| - 1]));
    } else {
      assert b[c := x][..|b| - 1] == init;
    }
  }

  lemma AddLast<T>(a: multiset<T>, b: multiset<T>, c: multiset<T>, d: multiset<T>, last: multiset<T>)
    requires a + c == b + d
    ensures a + last + c == b + last + d
  {
    assert a + last + c == a + c + last && b + last + d == b + d + last;
  }

  lemma SameWithout<T>(u: seq<T>, a: seq<T>, b: seq<T>, x: T)
    requires multiset(u + [x]) == multiset(a + [x] + b)
    ensures multiset(u) == multiset(a + b)
  {
    assert multiset(u + [x]) == multiset(u) + multiset{x};
    assert multiset(a + [x] + b) == multiset(a + b) + multiset{x};
    assert multiset(u) == multiset(u + [x]) - multiset{x};
  }

  lemma CountMiddle<T>(p: T -> bool, a: seq<T>, x: T, b: seq<T>)
    ensures |Filter(p, a + [x] + b)| == |Filter(p, a + b)| + if p(x) then 1 else 0
  {
    FilterConcat(p, a + [x], b);
    FilterAppend(p, a, x);
    FilterConcat(p, a, b);
  }

  /** How many members satisfy `p` depends on the members alone, not on their order. */
  lemma {:induction false} FilterCount<T>(p: T -> bool, s: seq<T>, t: seq<T>)
    requires multiset(s) == multiset(t)
    ensures |Filter(p, s)| == |Filter(p, t)|
  {
    hide Filter;
    if s == [] {
      assert |multiset(t)| == 0;
    } else {
      var u, x := s[..|s| - 1], s[|s| - 1];
      assert s == u + [x];
      assert x in multiset(t);
      var i :| 0 <= i < |t| && t[i] == x;
      var a, b := t[..i], t[i + 1..];
      assert t == a + [x] + b;
      SameWithout(u, a, b, x);
      FilterCount(p, u, a + b);
      CountMiddle(p, a, x, b);
      CountMiddle(p, u, x, []);
      assert u + [x] + [] == s && u + [] == u;
    }
  }

  /** Changing one chain changes the count of members that satisfy `p` by just that. */
  lemma {:induction false} FlattenUpdateCount<T>(p: T -> bool, b: seq<seq<T>>, c: nat, x: seq<T>)
    requires c < |b|
    ensures |Filter(p, Flatten(b[c := x]))| + |Filter(p, b[c])| == |Filter(p, Flatten(b))| + |Filter(p, x)|
  {
    var init, last := b[..|b| - 1], b[|b| - 1];
    FilterConcat(p, Flatten(init), last);
    if c < |b| - 1 {
      FlattenUpdateCount(p, init, c, x);
      assert b[c := x][..|b| - 1] == init[c := x];
      FilterConcat(p, Flatten(init[c := x]), last);
    } else {
      assert b[c := x][..|b| - 1] == init;
      FilterConcat(p, Flatten(init), x);
    }
  }

  lemma {:induction false} FlattenEmpty<T>(b: seq<seq<T>>)
    requires forall i :: 0 <= i < |b| ==> b[i] == []
    ensures Flatten(b) == []
  {
    if b != [] { FlattenEmpty(b[..|b| - 1]); }
  }

  /** If only chain `c` has members that satisfy `p`, it has all of them. */
  lemma {:induction false} FilterFlatten<T>(p: T -> bool, b: seq<seq<T>>, c: nat)
    requires c < |b|
    requires forall i, x :: 0 <= i < |b| && i != c && x in b[i] ==> !p(x)
    ensures Filter(p, Flatten(b)) == Filter(p, b[c])
  {
    var init, last := b[..|b| - 1], b[|b| - 1];
    FilterConcat(p, Flatten(init), last);
    if c < |b| - 1 {
      FilterFlatten(p, init, c);
      FilterNone(p, last);
    } else {
      forall x | x in Flatten(init) ensures !p(x) {
        var i := MemberFlatten(init, x);
        assert x in b[i];
      }
      FilterNone(p, Flatten(init));
    }
  }
}
