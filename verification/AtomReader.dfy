/** The parsers as the program runs them: they cut a copied, NUL-terminated text in place. */
module AtomReader {
  import opened Options
  import opened Versions
  import opened AtomText

  /** The C string that starts at `from` is `s`. */
  ghost predicate Holds(a: array<char>, from: nat, s: string)
    reads a
  {
    && from + |s| < a.Length
    && a[from..from + |s|] == s
    && a[from + |s|] == NUL
    && Without(NUL, s)
  }

  method StrDup(s: string) returns (a: array<char>)
    requires Without(NUL, s)
    ensures fresh(a) && a.Length == |s| + 1 && Holds(a, 0, s)
  {
    a := new char[|s| + 1](i requires 0 <= i => if i < |s| then s[i] else NUL);
    assert a[0..|s|] == s;
  }

  lemma {:induction false} FirstAt(p: char -> bool, s: string, k: nat)
    requires k <= |s| && forall i :: 0 <= i < k ==> !p(s[i])
    requires k < |s| ==> p(s[k])
    ensures First(p, s) == k
  {
    if k > 0 { FirstAt(p, s[1..], k - 1); }
  }

  /** The text of the C string at `from`. */
  method Text(a: array<char>, from: nat, ghost s: string) returns (t: string)
    requires Holds(a, from, s)
    ensures t == s
  {
    assert forall j :: from <= j < from + |s| ==> a[j] == s[j - from];
    var i := from;
    while a[i] != NUL
      invariant from <= i <= from + |s|
      decreases from + |s| - i
    {
      i := i + 1;
    }
    t := a[from..i];
  }

  /** strpbrk and strchr: the first place of the string whose character satisfies `p`, or -1. */
  method Find(p: char -> bool, a: array<char>, from: nat, ghost s: string) returns (place: int)
    requires Holds(a, from, s)
    ensures place == if First(p, s) == |s| then -1 else from + First(p, s)
  {
    assert forall j :: from <= j < from + |s| ==> a[j] == s[j - from];
    var i := from;
    while a[i] != NUL && !p(a[i])
      invariant from <= i <= from + |s|
      invariant forall j :: 0 <= j < i - from ==> !p(s[j])
      decreases from + |s| - i
    {
      i := i + 1;
    }
    assert i == from + |s| || a[i] != NUL;
    FirstAt(p, s, i - from);
    place := if a[i] == NUL then -1 else i;
  }

  /** strrchr: the last place of `c` in the string, or -1. */
  method FindLast(c: char, a: array<char>, from: nat, ghost s: string) returns (place: int)
    requires Holds(a, from, s)
    ensures place == if LastOf(c, s) < 0 then -1 else from + LastOf(c, s)
  {
    hide LastOf;
    assert forall j :: from <= j < from + |s| ==> a[j] == s[j - from];
    var i := from;
    place := -1;
    while a[i] != NUL
      invariant from <= i <= from + |s|
      invariant place == -1 || from <= place < i
      invariant place >= 0 ==> s[place - from] == c
      invariant forall j :: (if place < 0 then 0 else place - from + 1) <= j < i - from ==> s[j] != c
      decreases from + |s| - i
    {
      if a[i] == c { place := i; }
      i := i + 1;
    }
  }

  /** Cutting at `k` leaves two strings in the buffer. */
  method Cut(a: array<char>, from: nat, k: nat, ghost s: string)
    requires Holds(a, from, s) && k < |s|
    modifies a
    ensures Holds(a, from, s[..k]) && Holds(a, from + k + 1, s[k + 1..])
    ensures forall i :: 0 <= i < a.Length && i != from + k ==> a[i] == old(a[i])
  {
    assert forall i :: 0 <= i < |s| ==> a[from + i] == s[i];
    a[from + k] := NUL;
    assert a[from..from + k] == s[..k];
    assert a[from + k + 1..from + |s|] == s[k + 1..];
  }

  /** The component that starts at `from`, if its prefix is known. */
  method ReadPiece(a: array<char>, from: nat, ghost piece: string) returns (known: bool, c: Component)
    requires Holds(a, from, piece)
    ensures var n := PrefixLength(piece);
      known == PrefixOfLength(n).0 && c == Component(PrefixOfLength(n).1, piece[n..])
  {
    var start := Find(IsDigit, a, from, piece);
    var n := 0;
    if start == -1 {
      start := from;
    } else {
      n := start - from;
    }
    assert a[start..from + |piece|] == piece[n..];
    var v := Text(a, start, piece[n..]);
    var (k, prefix) := PrefixOfLength(n);
    return k, Component(prefix, v);
  }

  /** How the components read so far and the text still to read make up the whole. */
  ghost predicate Remaining(whole: (seq<Component>, bool), components: seq<Component>, rest: string) {
    whole == (components + ParsePieces(rest).0, ParsePieces(rest).1)
  }

  lemma StartReading(s: string)
    ensures Remaining(ParsePieces(s), [], s)
  {
    hide ParsePieces;
    assert [] + ParsePieces(s).0 == ParsePieces(s).0;
  }

  lemma ReadOneMore(whole: (seq<Component>, bool), components: seq<Component>, rest: string, k: nat, n: nat)
    requires Remaining(whole, components, rest)
    requires k == First(IsSeparator, rest) && n == PrefixLength(rest[..k])
    ensures var (known, prefix) := PrefixOfLength(n);
      var c := Component(prefix, rest[..k][n..]);
      if !known then whole == (components, false)
      else if k == |rest| then whole == (components + [c], true)
      else Remaining(whole, components + [c], rest[k + 1..])
  {
    hide First, PrefixLength, PrefixOfLength, ParsePieces;
    FirstPiece(rest, k, n);
    var (known, prefix) := PrefixOfLength(n);
    var c := Component(prefix, rest[..k][n..]);
    if !known {
      assert components + [] == components;
    } else if k < |rest| {
      var more := ParsePieces(rest[k + 1..]).0;
      assert components + [c] + more == components + ([c] + more);
    }
  }

  /** The loop that cuts the text into components. */
  method ReadPieces(a: array<char>, ghost s: string) returns (components: seq<Component>, valid: bool)
    requires Holds(a, 0, s)
    modifies a
    ensures (components, valid) == ParsePieces(s)
  {
    hide First, PrefixLength, PrefixOfLength, ParsePieces, Remaining;
    var from := 0;
    ghost var rest := s;
    components := [];
    StartReading(s);
    while true
      invariant Holds(a, from, rest)
      invariant Remaining(ParsePieces(s), components, rest)
      decreases |rest|
    {
      var cut := Find(IsSeparator, a, from, rest);
      ghost var k := First(IsSeparator, rest);
      if cut >= 0 {
        Cut(a, from, cut - from, rest);
      } else {
        assert rest[..k] == rest;
      }
      var known, c := ReadPiece(a, from, rest[..k]);
      ReadOneMore(ParsePieces(s), components, rest, k, PrefixLength(rest[..k]));
      if !known {
        return components, false;
      }
      components := components + [c];
      if cut < 0 {
        return components, true;
      }
      from := cut + 1;
      rest := rest[k + 1..];
    }
  }

  lemma CharAt(a: array<char>, from: nat, s: string, k: nat)
    requires Holds(a, from, s) && k <= |s|
    ensures from + k < a.Length && a[from + k] == At(s, k)
  {
    assert k < |s| ==> a[from..from + |s|][k] == s[k];
  }

  lemma HoldsMoves(a: array<char>, from: nat, s: string, k: nat)
    requires Holds(a, from, s) && k <= |s|
    ensures Holds(a, from + k, s[k..])
  {
    assert a[from + k..from + |s|] == s[k..];
  }

  /** Reads and cuts off the revision behind the last dash, if it is one. */
  method CutRevision(a: array<char>, dash: int, ghost input: string) returns (revision: int, ghost s: string)
    requires Holds(a, 0, input) && dash == LastOf('-', input)
    modifies a
    ensures Holds(a, 0, s)
    ensures if dash >= 0 && At(input, dash + 1) == 'r' then s == input[..dash] && revision == Number(input[dash + 2..])
      else s == input && revision == 0
  {
    hide Number, LastOf, Holds;
    revision, s := 0, input;
    if dash >= 0 {
      CharAt(a, 0, input, dash + 1);
      if a[dash + 1] == 'r' {
        HoldsMoves(a, 0, input, dash + 2);
        var digits := Text(a, dash + 2, input[dash + 2..]);
        revision := Number(digits);
        Cut(a, 0, dash, input);
        s := input[..dash];
      }
    }
  }

  method ReadVersion(input: string) returns (r: ParsedVersion)
    requires Without(NUL, input)
    ensures r == ParseVersion(input)
  {
    hide Number, LastOf, ParsePieces, Holds;
    var a := StrDup(input);
    var dash := FindLast('-', a, 0, input);
    var revision;
    ghost var s;
    revision, s := CutRevision(a, dash, input);
    var components, valid := ReadPieces(a, s);
    return ParsedVersion(components, revision, valid);
  }

  /** Looks for the dash in front of `version-rN`, hiding the revision meanwhile; the buffer is
      restored. */
  method FindSecondDash(a: array<char>, from: nat, last: nat, ghost ident: string) returns (dash: int)
    requires Holds(a, from, ident) && from <= last < from + |ident| && a[last] == '-'
    modifies a
    ensures a[..] == old(a[..])
    ensures var second := LastOf('-', ident[..last - from]);
      dash == if second >= 0 && IsDigit(At(ident[..last - from], second + 1)) then from + second else -1
  {
    hide LastOf;
    ghost var before := a[..];
    Cut(a, from, last - from, ident);
    dash := FindLast('-', a, from, ident[..last - from]);
    if dash >= 0 {
      assert a[dash + 1] == At(ident[..last - from], dash + 1 - from);
      if !IsDigit(a[dash + 1]) { dash := -1; }
    }
    a[last] := '-';
    assert a[..] == before;
  }

  /** The place of the dash in front of the version, or -1. */
  method FindVersion(a: array<char>, from: nat, ghost ident: string) returns (dash: int)
    requires Holds(a, from, ident)
    modifies a
    ensures a[..] == old(a[..])
    ensures dash == if VersionDash(ident) < 0 then -1 else from + VersionDash(ident)
  {
    hide LastOf;
    dash := -1;
    var last := FindLast('-', a, from, ident);
    if last >= 0 {
      assert a[last] == '-' && a[last + 1] == At(ident, last + 1 - from);
      assert a[last + 1] != NUL ==> a[last + 2] == At(ident, last + 2 - from);
      if IsDigit(a[last + 1]) { dash := last; }
      if a[last + 1] == 'r' && IsDigit(a[last + 2]) {
        dash := FindSecondDash(a, from, last, ident);
      }
    }
  }

  method ReadAtom(input: string) returns (r: Option<AtomParts>)
    requires Without(NUL, input)
    ensures r == ParseAtom(input)
  {
    hide First, LastOf, VersionDash, ParseVersion;
    var a := StrDup(input);
    var slash := Find(IsSlash, a, 0, input);
    if slash == -1 {
      return None;
    }
    Cut(a, 0, slash, input);
    ghost var ident := input[slash + 1..];
    var from := slash + 1;
    var category := Text(a, 0, input[..slash]);
    r := ReadIdent(a, from, ident, category);
  }

  /** Reads the name and the version behind the category. */
  method ReadIdent(a: array<char>, from: nat, ghost ident: string, category: string) returns (r: Option<AtomParts>)
    requires Holds(a, from, ident)
    modifies a
    ensures var dash := VersionDash(ident);
      r == if dash < 0 then Some(AtomParts(category, ident, category + "/" + ident, None))
           else
             var name := ident[..dash];
             Some(AtomParts(category, name, category + "/" + name, Some(ParseVersion(ident[dash + 1..]))))
  {
    hide First, LastOf, VersionDash, ParseVersion;
    var dash := FindVersion(a, from, ident);
    if dash == -1 {
      var name := Text(a, from, ident);
      return Some(AtomParts(category, name, category + "/" + name, None));
    }
    HoldsMoves(a, from, ident, dash + 1 - from);
    var text := Text(a, dash + 1, ident[dash + 1 - from..]);
    var version := ReadVersion(text);
    Cut(a, from, dash - from, ident);
    var name := Text(a, from, ident[..dash - from]);
    return Some(AtomParts(category, name, category + "/" + name, Some(version)));
  }
}
