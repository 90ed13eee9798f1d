/** Package versions and their comparison (atom_version_compare).

    `Compare` is the comparison as the program computes it: component by component, with prefixes,
    a trailing `*`, trailing letters, and a switch between integers and zero-padded fractions.
    `Key` and `Lexicographic` are an independent reference: a plain version is ranked by a list of
    integers, and those lists are ordered as words in a dictionary. */
module Versions {

  datatype Prefix = Alpha | Beta | Pre | Rc | NoPrefix | P {
    function Ordinal(): nat {
      match this
      case Alpha => 0
      case Beta => 1
      case Pre => 2
      case Rc => 3
      case NoPrefix => 4
      case P => 5
    }
  }

  datatype Component = Component(prefix: Prefix, v: string)

  /** A version without components stands for the null version of an atom that names no version. */
  datatype Version = Version(components: seq<Component>, revision: int)

  const LONG_MAX: int := 0x7FFF_FFFF_FFFF_FFFF

  predicate IsDigit(c: char) { '0' <= c <= '9' }

  predicate AllDigits(s: string) { forall i :: 0 <= i < |s| ==> IsDigit(s[i]) }

  function Value(s: string): nat
    requires AllDigits(s)
  {
    if s == [] then 0 else Value(s[..|s| - 1]) * 10 + (s[|s| - 1] - '0') as nat
  }

  /** The longest prefix of `s` that consists of digits. */
  function LeadingDigits(s: string): (r: string)
    ensures AllDigits(r) && r <= s
    ensures |r| < |s| ==> !IsDigit(s[|r|])
  {
    if s == [] || !IsDigit(s[0]) then [] else [s[0]] + LeadingDigits(s[1..])
  }

  lemma {:induction false} AllLeading(s: string)
    requires AllDigits(s)
    ensures LeadingDigits(s) == s
  {
    if s != [] { AllLeading(s[1..]); }
  }

  predicate IsBlank(c: char) { c == ' ' || 9 as char <= c <= 13 as char }

  function SkipBlanks(s: string): (r: string)
    ensures |r| <= |s|
  {
    if s == [] || !IsBlank(s[0]) then s else SkipBlanks(s[1..])
  }

  /** C's strtol in base 10: blanks, a sign, digits, and a result clamped to a 64-bit long. */
  function Strtol(s: string): int {
    var t := SkipBlanks(s);
    if t != [] && t[0] == '-' then Clamp(-(Value(LeadingDigits(t[1..])) as int))
    else if t != [] && t[0] == '+' then Clamp(Value(LeadingDigits(t[1..])))
    else Clamp(Value(LeadingDigits(t)))
  }

  /** strtol's result kept in a 32-bit integer. */
  function Number(s: string): (r: int)
    ensures -0x8000_0000 <= r < 0x8000_0000
  {
    AsI32(Strtol(s))
  }

  function Clamp(n: int): int {
    if n > LONG_MAX then LONG_MAX else if n < -LONG_MAX - 1 then -LONG_MAX - 1 else n
  }

  /** Conversion to a signed 32-bit integer, which drops the upper bits. */
  function AsI32(x: int): (r: int)
    ensures -0x8000_0000 <= r < 0x8000_0000
    ensures -0x8000_0000 <= x < 0x8000_0000 ==> r == x
  {
    (x + 0x8000_0000) % 0x1_0000_0000 - 0x8000_0000
  }

  function Zeros(n: nat): (s: string)
    ensures |s| == n && AllDigits(s)
  {
    seq(n, _ => '0')
  }

  /** What the comparator looks at once a trailing `*` is dropped: on the first text if it has one,
      otherwise on the second. */
  function Lengths(f: string, s: string): (r: (nat, nat, bool))
    requires f != [] && s != []
    ensures r.0 <= |f| && r.1 <= |s|
  {
    if f[|f| - 1] == '*' then (|f| - 1, |s|, true)
    else if s[|s| - 1] == '*' then (|f|, |s| - 1, true)
    else (|f|, |s|, false)
  }

  predicate WholeNumbers(f: string, fl: nat, s: string, sl: nat)
    requires 0 < fl <= |f| && 0 < sl <= |s|
  {
    (f[0] != '0' || fl == 1) && (s[0] != '0' || sl == 1)
  }

  function Max(a: nat, b: nat): nat { if a > b then a else b }

  /** The texts the comparator can read: neither is empty or a lone `*`, and padding fits its buffers. */
  predicate Readable(f: Component, s: Component) {
    && f.v != [] && s.v != []
    && var (fl, sl, _) := Lengths(f.v, s.v);
    && 0 < fl && 0 < sl
    && (WholeNumbers(f.v, fl, s.v, sl) || Max(fl, sl) < 128)
  }

  predicate AllReadable(f: Version, s: Version) {
    && (f.components != [] || s.components != [])
    && forall i :: 0 <= i < |f.components| && i < |s.components| ==> Readable(f.components[i], s.components[i])
  }

  /** The number one step reads from a text: the text itself, or its first `n` characters followed
      by zeros up to the common width. */
  function ReadNumber(text: string, n: nat, width: nat, whole: bool): int
    requires n <= |text| && n <= width
  {
    if whole then Number(text) else Number(text[..n] + Zeros(width - n))
  }

  function Suffix(c: char): int { if c > '9' then c as int else 0 }

  datatype Verdict = Decided(result: int) | Undecided

  /** One step of the comparison; `fMore` and `sMore` tell whether components follow. */
  function Step(f: Component, s: Component, fMore: bool, sMore: bool): Verdict
    requires Readable(f, s)
  {
    if f.prefix != s.prefix then Decided(f.prefix.Ordinal() - s.prefix.Ordinal())
    else
      var (fl, sl, star) := Lengths(f.v, s.v);
      var fLast, sLast := f.v[fl - 1], s.v[sl - 1];
      if sMore && fLast > '9' then Decided(-1)
      else if fMore && sLast > '9' then Decided(1)
      else
        var (width, whole) := (Max(fl, sl), WholeNumbers(f.v, fl, s.v, sl));
        var a, b := ReadNumber(f.v, fl, width, whole), ReadNumber(s.v, sl, width, whole);
        if AsI32(a - b) != 0 then Decided(AsI32(a - b))
        else if star then Decided(0)
        else if Suffix(fLast) != Suffix(sLast) then Decided(Suffix(fLast) - Suffix(sLast))
        else Undecided
  }

  function CompareFrom(f: Version, s: Version, i: nat): int
    requires AllReadable(f, s)
    decreases |f.components| - i
  {
    if i < |f.components| && i < |s.components| then
      match Step(f.components[i], s.components[i], i + 1 < |f.components|, i + 1 < |s.components|)
      case Decided(r) => r
      case Undecided => CompareFrom(f, s, i + 1)
    else if i < |f.components| then 1
    else if i < |s.components| then -1
    else AsI32(f.revision - s.revision)
  }

  function Compare(f: Version, s: Version): int
    requires AllReadable(f, s)
  {
    CompareFrom(f, s, 0)
  }

  function Sign(x: int): int { if x < 0 then -1 else if x > 0 then 1 else 0 }

  // ----- the comparison loop over its two text buffers

  method CopyPadded(buffer: array<char>, text: string, width: nat)
    requires |text| <= width < buffer.Length
    modifies buffer
    ensures buffer[..width] == text + Zeros(width - |text|)
    ensures buffer[width] == 0 as char
  {
    buffer[width] := 0 as char;
    var i := 0;
    while i < |text|
      invariant i <= |text|
      invariant buffer[width] == 0 as char
      invariant buffer[..i] == text[..i]
    {
      buffer[i] := text[i];
      i := i + 1;
    }
    while i < width
      invariant |text| <= i <= width
      invariant buffer[width] == 0 as char
      invariant buffer[..i] == text + Zeros(i - |text|)
    {
      buffer[i] := '0';
      i := i + 1;
    }
  }

  /** Reads both numbers, through the buffers when one text has a leading zero. */
  method ReadNumbers(scf: string, fl: nat, scs: string, sl: nat, r1: array<char>, r2: array<char>)
    returns (a: int, b: int)
    requires 0 < fl <= |scf| && 0 < sl <= |scs|
    requires WholeNumbers(scf, fl, scs, sl) || Max(fl, sl) < 128
    requires r1 != r2 && r1.Length == r2.Length == 128
    modifies r1, r2
    ensures a == ReadNumber(scf, fl, Max(fl, sl), WholeNumbers(scf, fl, scs, sl))
    ensures b == ReadNumber(scs, sl, Max(fl, sl), WholeNumbers(scf, fl, scs, sl))
  {
    hide Number;
    if (scf[0] != '0' || fl == 1) && (scs[0] != '0' || sl == 1) {
      a, b := Number(scf), Number(scs);
    } else {
      var width := if fl > sl then fl else sl;
      CopyPadded(r1, scf[..fl], width);
      CopyPadded(r2, scs[..sl], width);
      a, b := Number(r1[..width]), Number(r2[..width]);
    }
  }

  /** One round of the program's loop. */
  method CompareStep(f: Component, s: Component, fMore: bool, sMore: bool, r1: array<char>, r2: array<char>)
    returns (verdict: Verdict)
    requires Readable(f, s)
    requires r1 != r2 && r1.Length == r2.Length == 128
    modifies r1, r2
    ensures verdict == Step(f, s, fMore, sMore)
  {
    hide ReadNumber, Number;
    if f.prefix != s.prefix {
      return Decided(f.prefix.Ordinal() - s.prefix.Ordinal());
    }
    var scf, scs := f.v, s.v;
    var fl, sl, star := |scf|, |scs|, false;
    if scf[fl - 1] == '*' {
      star, fl := true, fl - 1;
    } else if scs[sl - 1] == '*' {
      star, sl := true, sl - 1;
    }
    if sMore && scf[fl - 1] > '9' {
      return Decided(-1);
    }
    if fMore && scs[sl - 1] > '9' {
      return Decided(1);
    }
    var a, b := ReadNumbers(scf, fl, scs, sl, r1, r2);
    var cmp := AsI32(a - b);
    if cmp != 0 {
      return Decided(cmp);
    }
    if star {
      return Decided(0);
    }
    var suffixes := Suffix(scf[fl - 1]) - Suffix(scs[sl - 1]);
    if suffixes != 0 {
      return Decided(suffixes);
    }
    return Undecided;
  }

  /** The program's loop. Its two buffers survive from call to call, so their old contents are
      arbitrary; the result does not depend on them. */
  method VersionCompare(first: Version, second: Version, r1: array<char>, r2: array<char>) returns (result: int)
    requires AllReadable(first, second)
    requires r1 != r2 && r1.Length == r2.Length == 128
    modifies r1, r2
    ensures result == Compare(first, second)
  {
    hide Step, AsI32;
    var cf, cs := first.components, second.components;
    var i := 0;
    while i < |cf| && i < |cs|
      invariant 0 <= i <= |cf| && i <= |cs|
      invariant Compare(first, second) == CompareFrom(first, second, i)
    {
      var verdict := CompareStep(cf[i], cs[i], i + 1 < |cf|, i + 1 < |cs|, r1, r2);
      if verdict.Decided? {
        return verdict.result;
      }
      i := i + 1;
    }
    if i < |cf| {
      return 1;
    }
    if i < |cs| {
      return -1;
    }
    return AsI32(first.revision - second.revision);
  }
}
