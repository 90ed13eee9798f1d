/** Reading versions and atoms from text (atom_version_init, atom_init), and printing them back. */
module AtomText {
  import opened Options
  import opened Versions

  const NUL: char := 0 as char

  predicate IsSeparator(c: char) { c == '.' || c == '_' || c == '-' }

  predicate IsSlash(c: char) { c == '/' }

  predicate NoSeparator(s: string) { forall i :: 0 <= i < |s| ==> !IsSeparator(s[i]) }

  predicate Without(c: char, s: string) { forall i :: 0 <= i < |s| ==> s[i] != c }

  /** Reading one place past the end finds the terminator. */
  function At(s: string, i: nat): char { if i < |s| then s[i] else NUL }

  function First(p: char -> bool, s: string): (r: nat)
    ensures r <= |s|
    ensures forall i :: 0 <= i < r ==> !p(s[i])
    ensures r < |s| ==> p(s[r])
  {
    if s == [] || p(s[0]) then 0 else 1 + First(p, s[1..])
  }

  /** The last place of `c` in `s`, or -1. */
  function LastOf(c: char, s: string): (r: int)
    ensures -1 <= r < |s|
    ensures r >= 0 ==> s[r] == c
    ensures forall i :: r < i < |s| ==> s[i] != c
  {
    if s == [] then -1
    else if s[|s| - 1] == c then |s| - 1
    else LastOf(c, s[..|s| - 1])
  }

  // ----- what the version parser computes

  datatype ParsedVersion = ParsedVersion(components: seq<Component>, revision: int, valid: bool)

  /** Prefixes are recognised by their length alone. */
  function PrefixOfLength(n: nat): (r: (bool, Prefix)) {
    if n == 5 then (true, Alpha)
    else if n == 4 then (true, Beta)
    else if n == 3 then (true, Pre)
    else if n == 2 then (true, Rc)
    else if n == 0 then (true, NoPrefix)
    else if n == 1 then (true, P)
    else (false, NoPrefix)
  }

  /** Where the component proper starts: at its first digit, or at once if it has none. */
  function PrefixLength(piece: string): (n: nat)
    ensures n <= |piece|
  {
    var d := First(IsDigit, piece);
    if d == |piece| then 0 else d
  }

  function ParsePieces(s: string): (r: (seq<Component>, bool))
    decreases |s|
  {
    var cut := First(IsSeparator, s);
    var piece := s[..cut];
    var n := PrefixLength(piece);
    var (known, prefix) := PrefixOfLength(n);
    if !known then ([], false)
    else if cut == |s| then ([Component(prefix, piece[n..])], true)
    else
      var (rest, valid) := ParsePieces(s[cut + 1..]);
      ([Component(prefix, piece[n..])] + rest, valid)
  }

  function ParseVersion(input: string): ParsedVersion {
    var dash := LastOf('-', input);
    if dash >= 0 && At(input, dash + 1) == 'r' then
      var (components, valid) := ParsePieces(input[..dash]);
      ParsedVersion(components, Number(input[dash + 2..]), valid)
    else
      var (components, valid) := ParsePieces(input);
      ParsedVersion(components, 0, valid)
  }

  datatype AtomParts = AtomParts(category: string, name: string, key: string, version: Option<ParsedVersion>)

  /** Where the version starts in `name[-version]`: the place of the dash in front of it. */
  function VersionDash(ident: string): (r: int)
    ensures -1 <= r < |ident|
  {
    var last := LastOf('-', ident);
    if last < 0 then -1
    else if At(ident, last + 1) == 'r' && IsDigit(At(ident, last + 2)) then
      var second := LastOf('-', ident[..last]);
      if second >= 0 && IsDigit(At(ident[..last], second + 1)) then second else -1
    else if IsDigit(At(ident, last + 1)) then last
    else -1
  }

  function ParseAtom(input: string): Option<AtomParts> {
    var slash := First(IsSlash, input);
    if slash == |input| then None
    else
      var category, ident := input[..slash], input[slash + 1..];
      var dash := VersionDash(ident);
      if dash < 0 then Some(AtomParts(category, ident, category + "/" + ident, None))
      else
        var name := ident[..dash];
        Some(AtomParts(category, name, category + "/" + name, Some(ParseVersion(ident[dash + 1..]))))
  }

  // ----- printing

  function PrefixName(p: Prefix): string {
    match p
    case Alpha => "alpha"
    case Beta => "beta"
    case Pre => "pre"
    case Rc => "rc"
    case NoPrefix => ""
    case P => "p"
  }

  function Decimal(n: nat): (s: string)
    ensures s != [] && AllDigits(s)
  {
    var digit := [('0' as int + n % 10) as char];
    if n < 10 then digit else Decimal(n / 10) + digit
  }

  predicate Printable(c: Component) {
    c.v != [] && IsDigit(c.v[0]) && NoSeparator(c.v)
  }

  /** The components behind the first one; each is led in by its own separator, `.` or `_`. */
  function PrintRest(components: seq<Component>, separators: string): string
    requires |separators| == |components|
  {
    if components == [] then []
    else [separators[0]] + PrintPiece(components[0]) + PrintRest(components[1..], separators[1..])
  }

  function PrintPiece(c: Component): string { PrefixName(c.prefix) + c.v }

  function PrintComponents(components: seq<Component>, separators: string): string
    requires components != [] && |separators| == |components| - 1
  {
    PrintPiece(components[0]) + PrintRest(components[1..], separators)
  }

  function PrintRevision(revision: Option<nat>): string {
    match revision
    case None => []
    case Some(r) => "-r" + Decimal(r)
  }

  /** A revision is printed only when there is one. */
  function PrintVersion(components: seq<Component>, separators: string, revision: Option<nat>): string
    requires components != [] && |separators| == |components| - 1
  {
    PrintComponents(components, separators) + PrintRevision(revision)
  }

  ghost predicate PrintableVersion(components: seq<Component>, separators: string, revision: Option<nat>) {
    && components != [] && |separators| == |components| - 1
    && (forall i :: 0 <= i < |components| ==> Printable(components[i]))
    && (forall i :: 0 <= i < |separators| ==> separators[i] == '.' || separators[i] == '_')
    && (revision.Some? ==> revision.value < 0x8000_0000)
  }

  // ----- parsing undoes printing

  lemma {:induction false} FirstIs(p: char -> bool, s: string, t: string)
    requires forall i :: 0 <= i < |s| ==> !p(s[i])
    requires t != [] ==> p(t[0])
    ensures First(p, s + t) == |s|
  {
    if s == [] {
      assert s + t == t;
    } else {
      FirstIs(p, s[1..], t);
      assert (s + t)[1..] == s[1..] + t;
    }
  }

  lemma {:induction false} LastIs(c: char, s: string, t: string)
    requires Without(c, t)
    ensures LastOf(c, s + [c] + t) == |s|
  {
    if t != [] {
      LastIs(c, s, t[..|t| - 1]);
      assert (s + [c] + t)[..|s| + |t|] == s + [c] + t[..|t| - 1];
    }
  }

  lemma PieceParses(c: Component)
    requires Printable(c)
    ensures NoSeparator(PrintPiece(c))
    ensures PrefixLength(PrintPiece(c)) == |PrefixName(c.prefix)|
    ensures PrefixOfLength(|PrefixName(c.prefix)|) == (true, c.prefix)
    ensures PrintPiece(c)[|PrefixName(c.prefix)|..] == c.v
  {
    hide First;
    FirstIs(IsDigit, PrefixName(c.prefix), c.v);
    var name := PrefixName(c.prefix);
    assert forall i :: 0 <= i < |name| ==> 'a' <= name[i] <= 'z';
  }

  lemma LastPieceParses(c: Component)
    requires Printable(c)
    ensures ParsePieces(PrintPiece(c)) == ([c], true)
  {
    var s := PrintPiece(c);
    PieceParses(c);
    assert s + [] == s;
    FirstIs(IsSeparator, s, []);
    assert s[..|s|] == s;
  }

  lemma FirstPiece(rest: string, k: nat, n: nat)
    requires k == First(IsSeparator, rest) && n == PrefixLength(rest[..k])
    ensures var (known, prefix) := PrefixOfLength(n);
      var c := Component(prefix, rest[..k][n..]);
      ParsePieces(rest) ==
        if !known then ([], false)
        else if k == |rest| then ([c], true)
        else ([c] + ParsePieces(rest[k + 1..]).0, ParsePieces(rest[k + 1..]).1)
  {
    hide First, PrefixLength, PrefixOfLength;
  }

  lemma PieceThenRestParses(c: Component, separator: char, rest: string)
    requires Printable(c) && IsSeparator(separator)
    ensures ParsePieces(PrintPiece(c) + ([separator] + rest)) == ([c] + ParsePieces(rest).0, ParsePieces(rest).1)
  {
    var s := PrintPiece(c) + ([separator] + rest);
    var cut := |PrintPiece(c)|;
    PieceParses(c);
    hide First, PrintPiece, PrefixLength, PrefixOfLength, ParsePieces;
    FirstIs(IsSeparator, PrintPiece(c), [separator] + rest);
    assert s[..cut] == PrintPiece(c) && s[cut + 1..] == rest;
    FirstPiece(s, cut, PrefixLength(PrintPiece(c)));
  }

  lemma {:induction false} PiecesParse(components: seq<Component>, separators: string)
    requires PrintableVersion(components, separators, None)
    ensures ParsePieces(PrintComponents(components, separators)) == (components, true)
    decreases |components|
  {
    hide ParsePieces, PrintPiece;
    var c := components[0];
    if |components| == 1 {
      LastPieceParses(c);
      assert PrintRest(components[1..], separators) == [];
      assert PrintComponents(components, separators) == PrintPiece(c) && components == [c];
    } else {
      var rest := PrintComponents(components[1..], separators[1..]);
      PiecesParse(components[1..], separators[1..]);
      PieceThenRestParses(c, separators[0], rest);
      assert components[1..][1..] == components[2..];
      PrintComponentsCons(components, separators);
      assert components == [c] + components[1..];
    }
  }

  lemma PrintComponentsCons(components: seq<Component>, separators: string)
    requires |components| > 1 && |separators| == |components| - 1
    ensures PrintComponents(components, separators) ==
      PrintPiece(components[0]) + ([separators[0]] + PrintComponents(components[1..], separators[1..]))
  {
    var tail := components[1..];
    assert PrintRest(tail, separators) == [separators[0]] + PrintPiece(tail[0]) + PrintRest(tail[1..], separators[1..]);
  }

  lemma {:induction false} RestHasNoDash(components: seq<Component>, separators: string)
    requires |separators| == |components|
    requires forall i :: 0 <= i < |components| ==> Printable(components[i])
    requires forall i :: 0 <= i < |separators| ==> separators[i] != '-'
    ensures Without('-', PrintRest(components, separators))
  {
    if components != [] {
      PieceParses(components[0]);
      RestHasNoDash(components[1..], separators[1..]);
    }
  }

  lemma ComponentsHaveNoDash(components: seq<Component>, separators: string)
    requires PrintableVersion(components, separators, None)
    ensures Without('-', PrintComponents(components, separators))
  {
    PieceParses(components[0]);
    RestHasNoDash(components[1..], separators);
  }

  lemma {:induction false} DecimalValue(n: nat)
    ensures Value(Decimal(n)) == n
  {
    var digit := [('0' as int + n % 10) as char];
    if n < 10 {
      assert Decimal(n)[..0] == [];
    } else {
      DecimalValue(n / 10);
      assert (Decimal(n / 10) + digit)[..|Decimal(n / 10)|] == Decimal(n / 10);
    }
  }

  lemma RevisionParses(r: nat)
    requires r < 0x8000_0000
    ensures Number(Decimal(r)) == r
    ensures Without('-', "r" + Decimal(r))
  {
    DecimalValue(r);
    AllLeading(Decimal(r));
    assert IsDigit(Decimal(r)[0]);
  }

  lemma WithoutRevision(body: string)
    requires Without('-', body)
    ensures ParseVersion(body) == ParsedVersion(ParsePieces(body).0, 0, ParsePieces(body).1)
  {
    assert LastOf('-', body) == -1;
  }

  lemma WithRevision(body: string, r: nat)
    requires r < 0x8000_0000
    ensures ParseVersion(body + "-r" + Decimal(r)) == ParsedVersion(ParsePieces(body).0, r, ParsePieces(body).1)
  {
    hide LastOf, Decimal, ParsePieces, Number;
    var s := body + "-r" + Decimal(r);
    RevisionParses(r);
    LastIs('-', body, "r" + Decimal(r));
    assert s == body + ['-'] + ("r" + Decimal(r));
    assert s[|body| + 2..] == Decimal(r) && s[..|body|] == body;
  }

  /** Parsing a printed version recovers its components, their prefixes, and its revision. */
  lemma ParseUndoesPrintVersion(components: seq<Component>, separators: string, revision: Option<nat>)
    requires PrintableVersion(components, separators, revision)
    ensures ParseVersion(PrintVersion(components, separators, revision)) ==
      ParsedVersion(components, if revision.Some? then revision.value else 0, true)
  {
    var body := PrintComponents(components, separators);
    PiecesParse(components, separators);
    ComponentsHaveNoDash(components, separators);
    match revision
    case None =>
      assert PrintVersion(components, separators, revision) == body;
      WithoutRevision(body);
    case Some(r) =>
      assert PrintVersion(components, separators, revision) == body + "-r" + Decimal(r);
      WithRevision(body, r);
  }

  lemma DashWithoutRevision(name: string, body: string)
    requires body != [] && IsDigit(body[0]) && Without('-', body)
    ensures VersionDash(name + "-" + body) == |name|
  {
    LastIs('-', name, body);
    assert At(name + "-" + body, |name| + 1) == body[0];
  }

  lemma SecondDash(front: string, tail: string)
    requires |tail| >= 2 && tail[0] == 'r' && IsDigit(tail[1]) && Without('-', tail)
    ensures VersionDash(front + "-" + tail) ==
      var second := LastOf('-', front);
      if second >= 0 && IsDigit(At(front, second + 1)) then second else -1
  {
    LastIs('-', front, tail);
    hide LastOf;
    var ident := front + "-" + tail;
    assert ident[..|front|] == front;
    assert ident[|front| + 1] == tail[0] && ident[|front| + 2] == tail[1];
  }

  lemma DashWithRevision(name: string, body: string, r: nat)
    requires body != [] && IsDigit(body[0]) && Without('-', body)
    requires r < 0x8000_0000
    ensures VersionDash(name + "-" + body + ("-r" + Decimal(r))) == |name|
  {
    var front, tail := name + "-" + body, "r" + Decimal(r);
    RevisionParses(r);
    hide LastOf, Decimal, VersionDash;
    assert front + ("-r" + Decimal(r)) == front + "-" + tail;
    SecondDash(front, tail);
    LastIs('-', name, body);
    assert front[|name| + 1] == body[0];
  }

  lemma SlashFound(category: string, ident: string)
    requires Without('/', category)
    ensures First(IsSlash, category + "/" + ident) == |category|
  {
    assert category + "/" + ident == category + ("/" + ident);
    FirstIs(IsSlash, category, "/" + ident);
  }

  lemma AtomSplits(category: string, name: string, version: string)
    requires Without('/', category)
    requires VersionDash(name + "-" + version) == |name|
    ensures ParseAtom(category + "/" + (name + "-" + version)) ==
      Some(AtomParts(category, name, category + "/" + name, Some(ParseVersion(version))))
  {
    var ident := name + "-" + version;
    var input := category + "/" + ident;
    SlashFound(category, ident);
    assert input[..|category|] == category && input[|category| + 1..] == ident;
    assert ident[..|name|] == name && ident[|name| + 1..] == version;
  }

  lemma DashBeforeVersion(name: string, components: seq<Component>, separators: string, revision: Option<nat>)
    requires PrintableVersion(components, separators, revision)
    requires components[0].prefix == NoPrefix
    ensures VersionDash(name + "-" + PrintVersion(components, separators, revision)) == |name|
  {
    var body := PrintComponents(components, separators);
    ComponentsHaveNoDash(components, separators);
    assert body[0] == components[0].v[0];
    hide VersionDash, PrintComponents, Decimal;
    match revision
    case None =>
      assert name + "-" + (body + PrintRevision(None)) == name + "-" + body;
      DashWithoutRevision(name, body);
    case Some(r) =>
      assert name + "-" + (body + PrintRevision(Some(r))) == name + "-" + body + ("-r" + Decimal(r));
      DashWithRevision(name, body, r);
  }

  /** Splitting `category/name-version[-rN]` recovers every part. The category has no slash and the
      first component no prefix; the name is arbitrary, dashes included. */
  lemma ParseUndoesPrintAtom(category: string, name: string, components: seq<Component>, separators: string,
                             revision: Option<nat>)
    requires Without('/', category)
    requires PrintableVersion(components, separators, revision)
    requires components[0].prefix == NoPrefix
    ensures ParseAtom(category + "/" + (name + "-" + PrintVersion(components, separators, revision))) ==
      Some(AtomParts(category, name, category + "/" + name,
                     Some(ParsedVersion(components, if revision.Some? then revision.value else 0, true))))
  {
    hide VersionDash, ParseAtom, ParseVersion, PrintVersion;
    ParseUndoesPrintVersion(components, separators, revision);
    DashBeforeVersion(name, components, separators, revision);
    AtomSplits(category, name, PrintVersion(components, separators, revision));
  }

  // ----- atoms without a version, and the names of prefixes

  /** Where a version starts: at a dash in front of a digit behind which no dash stands, but for one in front of `r` and
      a digit. */
  lemma VersionDashIff(ident: string, d: nat)
    requires d < |ident|
    ensures VersionDash(ident) == d <==>
      && ident[d] == '-' && IsDigit(At(ident, d + 1))
      && ((forall i :: d < i < |ident| ==> ident[i] != '-')
        || exists e: nat ::
          && d < e < |ident| && ident[e] == '-' && At(ident, e + 1) == 'r' && IsDigit(At(ident, e + 2))
          && forall i :: d < i < |ident| && i != e ==> ident[i] != '-')
  {
    hide LastOf;
    var last := LastOf('-', ident);
    if last >= 0 {
      var second := LastOf('-', ident[..last]);
      assert forall i :: second < i < last ==> ident[i] == ident[..last][i];
      assert second >= 0 ==> ident[second] == '-';
    }
  }

  /** What stands behind the last dash is the revision if it starts with `r`. */
  lemma RevisionIsCutOff(text: string, revision: string)
    requires Without('-', revision)
    ensures ParseVersion(text + "-r" + revision) ==
      ParsedVersion(ParsePieces(text).0, Number(revision), ParsePieces(text).1)
  {
    hide LastOf, ParsePieces, Number;
    var s := text + "-r" + revision;
    assert s[|text|] == '-' && s[|text| + 1] == 'r' && s[..|text|] == text && s[|text| + 2..] == revision;
    assert forall i :: |text| + 2 <= i < |s| ==> s[i] == revision[i - |text| - 2];
    assert LastOf('-', s) == |text|;
  }

  lemma NoDashBeforeDigit(ident: string)
    requires forall i :: 0 <= i < |ident| && ident[i] == '-' ==> !IsDigit(At(ident, i + 1))
    ensures VersionDash(ident) == -1
  {
    hide LastOf;
    var last := LastOf('-', ident);
    if last >= 0 {
      var second := LastOf('-', ident[..last]);
      if second >= 0 { assert ident[..last][second] == ident[second]; }
    }
  }

  /** Without a dash in front of a digit, `category/name` splits into its two parts and has no version. */
  lemma NameWithoutVersion(category: string, name: string)
    requires Without('/', category)
    requires forall i :: 0 <= i < |name| - 1 && name[i] == '-' ==> !IsDigit(name[i + 1])
    ensures ParseAtom(category + "/" + name) == Some(AtomParts(category, name, category + "/" + name, None))
  {
    hide VersionDash;
    SlashFound(category, name);
    var input := category + "/" + name;
    assert input[..|category|] == category && input[|category| + 1..] == name;
    NoDashBeforeDigit(name);
  }

  /** A text without a slash is no atom. */
  lemma NoSlashNoAtom(input: string)
    requires Without('/', input)
    ensures ParseAtom(input) == None
  {
  }

  /** The six prefixes by their names, in front of a text that starts with a digit and has no separator. */
  lemma PrefixesByName(v: string)
    requires v != [] && IsDigit(v[0]) && NoSeparator(v)
    ensures ParsePieces("alpha" + v) == ([Component(Alpha, v)], true)
    ensures ParsePieces("beta" + v) == ([Component(Beta, v)], true)
    ensures ParsePieces("pre" + v) == ([Component(Pre, v)], true)
    ensures ParsePieces("rc" + v) == ([Component(Rc, v)], true)
    ensures ParsePieces("p" + v) == ([Component(P, v)], true)
    ensures ParsePieces(v) == ([Component(NoPrefix, v)], true)
  {
    hide ParsePieces;
    LettersThenDigits("alpha", v);
    LettersThenDigits("beta", v);
    LettersThenDigits("pre", v);
    LettersThenDigits("rc", v);
    LettersThenDigits("p", v);
    LettersThenDigits("", v);
    assert "" + v == v;
  }

  /** A piece is read by the length of what stands in front of its first digit; more than five characters there end the
      parsing. */
  lemma LettersThenDigits(name: string, v: string)
    requires v != [] && IsDigit(v[0]) && NoSeparator(name + v) && forall i :: 0 <= i < |name| ==> !IsDigit(name[i])
    ensures ParsePieces(name + v) ==
      if |name| > 5 then ([], false)
      else
        ([Component(
          match |name| case 0 => NoPrefix case 1 => P case 2 => Rc case 3 => Pre case 4 => Beta case _ => Alpha,
          v)], true)
  {
    hide First;
    var s := name + v;
    FirstIs(IsDigit, name, v);
    assert s + [] == s;
    FirstIs(IsSeparator, s, []);
    assert s[..|s|] == s && s[|name|..] == v;
  }

  /** A piece without a digit is a component without a prefix. */
  lemma NoDigitNoPrefix(t: string)
    requires NoSeparator(t) && forall i :: 0 <= i < |t| ==> !IsDigit(t[i])
    ensures ParsePieces(t) == ([Component(NoPrefix, t)], true)
  {
    hide First, ParsePieces;
    assert t + [] == t;
    FirstIs(IsDigit, t, []);
    FirstIs(IsSeparator, t, []);
    assert t[..|t|] == t && t[0..] == t;
    FirstPiece(t, |t|, 0);
  }

  /** Dots, underscores and dashes separate pieces; a piece with an unknown prefix ends the parsing, and what was read
      before it stays. */
  lemma PiecesAreSeparated(piece: string, separator: char, rest: string)
    requires NoSeparator(piece) && (separator == '.' || separator == '_' || separator == '-')
    ensures var ((first, known), (more, valid)) := (ParsePieces(piece), ParsePieces(rest));
      ParsePieces(piece + [separator] + rest) == if known then (first + more, valid) else ([], false)
  {
    hide PrefixLength, PrefixOfLength, First;
    var s := piece + [separator] + rest;
    assert s == piece + ([separator] + rest) && piece + [] == piece;
    FirstIs(IsSeparator, piece, [separator] + rest);
    FirstIs(IsSeparator, piece, []);
    assert s[..|piece|] == piece && s[|piece| + 1..] == rest && piece[..|piece|] == piece;
    FirstPiece(s, |piece|, PrefixLength(piece));
    FirstPiece(piece, |piece|, PrefixLength(piece));
  }
}
