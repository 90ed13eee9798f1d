/** Numbers too long for the comparator's 32 bits: which whole numbers it orders correctly. */
module VersionNumbers {
  import opened Versions
  import opened VersionOrder

  const LIMIT: int := 0x8000_0000

  /** Digits without a leading zero: what the comparator reads as a whole number. */
  predicate WholeText(v: string) { AllDigits(v) && v != [] && !LeadingZero(v) }

  function Plainly(texts: seq<string>): Version {
    Version(seq(|texts|, i requires 0 <= i < |texts| => Component(NoPrefix, texts[i])), 0)
  }

  lemma NumberOfDigits(v: string)
    requires AllDigits(v) && v != []
    ensures Number(v) == AsI32(Clamp(Value(v)))
  {
    AllLeading(v);
    assert IsDigit(v[0]) && SkipBlanks(v) == v;
  }

  /** A text of digits is read as its value exactly when that is below 2^31. */
  lemma NumberIsValueIff(v: string)
    requires AllDigits(v) && v != []
    ensures Number(v) == Value(v) <==> Value(v) < LIMIT
  {
    hide Number, Value;
    NumberOfDigits(v);
  }

  lemma WholeTextsAreReadable(a: string, b: string)
    requires WholeText(a) && WholeText(b)
    ensures AllReadable(Plainly([a]), Plainly([b]))
    ensures Compare(Plainly([a]), Plainly([b])) == AsI32(Number(a) - Number(b))
  {
    hide Number, Value;
    assert IsDigit(a[|a| - 1]) && IsDigit(b[|b| - 1]);
    var f, s := Plainly([a]), Plainly([b]);
    assert CompareFrom(f, s, 1) == 0;
  }

  /** How two versions of a single whole number compare. */
  ghost function CompareWhole(a: string, b: string): int
    requires WholeText(a) && WholeText(b)
  {
    WholeTextsAreReadable(a, b);
    Compare(Plainly([a]), Plainly([b]))
  }

  ghost predicate OrderedAgainst(a: string, b: string)
    requires WholeText(a) && WholeText(b)
  {
    Sign(CompareWhole(a, b)) == Sign(Value(a) - Value(b))
  }

  lemma SmallNumbersAreOrdered(a: string, b: string)
    requires WholeText(a) && WholeText(b) && Value(a) < LIMIT && Value(b) < LIMIT
    ensures OrderedAgainst(a, b)
  {
    hide Number, Value;
    WholeTextsAreReadable(a, b);
    NumberIsValueIff(a);
    NumberIsValueIff(b);
  }

  /** A number from 2^31 on fails to compare above the largest 32-bit number, or above zero. */
  lemma LargeNumbersAreNot(a: string)
    requires WholeText(a) && Value(a) >= LIMIT
    ensures WholeText("2147483647") && Value("2147483647") == LIMIT - 1 && WholeText("0") && Value("0") == 0
    ensures !OrderedAgainst(a, "2147483647") || !OrderedAgainst(a, "0")
  {
    Extremes();
    hide Number, Value;
    WholeTextsAreReadable(a, "2147483647");
    WholeTextsAreReadable(a, "0");
    NumberIsValueIff("2147483647");
    NumberIsValueIff("0");
  }

  lemma OneMoreDigit(s: string, c: char)
    requires AllDigits(s) && IsDigit(c)
    ensures AllDigits(s + [c]) && Value(s + [c]) == Value(s) * 10 + (c - '0') as nat
  {
    assert (s + [c])[..|s|] == s;
  }

  lemma ValueOfTwo()
    ensures Value("2") == 2 && Value("0") == 0
  {
  }

  lemma Extremes()
    ensures WholeText("2147483647") && Value("2147483647") == LIMIT - 1
    ensures WholeText("0") && Value("0") == 0
  {
    hide Value;
    ValueOfTwo();
    OneMoreDigit("2", '1');
    assert "2" + ['1'] == "21";
    OneMoreDigit("21", '4');
    assert "21" + ['4'] == "214";
    OneMoreDigit("214", '7');
    assert "214" + ['7'] == "2147";
    OneMoreDigit("2147", '4');
    assert "2147" + ['4'] == "21474";
    OneMoreDigit("21474", '8');
    assert "21474" + ['8'] == "214748";
    OneMoreDigit("214748", '3');
    assert "214748" + ['3'] == "2147483";
    OneMoreDigit("2147483", '6');
    assert "2147483" + ['6'] == "21474836";
    OneMoreDigit("21474836", '4');
    assert "21474836" + ['4'] == "214748364";
    OneMoreDigit("214748364", '7');
    assert "214748364" + ['7'] == "2147483647";
  }

  /** A whole number is ordered correctly against every whole number below 2^31 exactly when it is below 2^31
      itself. */
  lemma OrderedIffBelowLimit(a: string)
    requires WholeText(a)
    ensures (forall b :: WholeText(b) && Value(b) < LIMIT ==> OrderedAgainst(a, b)) <==> Value(a) < LIMIT
  {
    hide Number, Value, OrderedAgainst;
    if Value(a) < LIMIT {
      forall b | WholeText(b) && Value(b) < LIMIT ensures OrderedAgainst(a, b) {
        SmallNumbersAreOrdered(a, b);
      }
    } else {
      LargeNumbersAreNot(a);
    }
  }

  /** 3000000000 is below 1. */
  lemma LongNumberBelowOne()
    ensures WholeText("3000000000") && WholeText("1") && CompareWhole("3000000000", "1") < 0
  {
    ThreeBillion();
    hide Number, Value;
    WholeTextsAreReadable("3000000000", "1");
    NumberOfDigits("3000000000");
    NumberOf("1");
  }

  lemma ThreeBillion()
    ensures Value("3000000000") == 3_000_000_000 && Value("1") == 1
  {
    ValueShift("3", 9);
    assert Pow10(9) == 1_000_000_000;
    assert Value("3") == 3 && Value("1") == 1;
    assert "3" + Zeros(9) == "3000000000";
  }

  /** A text of digits is read modulo 2^32, as a signed number, up to the largest 64-bit number, and as -1 beyond. */
  lemma NumberWraps(v: string)
    requires AllDigits(v) && v != []
    ensures Number(v) ==
      if Value(v) > 0x7FFF_FFFF_FFFF_FFFF then -1
      else if Value(v) % 0x1_0000_0000 < 0x8000_0000 then Value(v) % 0x1_0000_0000
      else Value(v) % 0x1_0000_0000 - 0x1_0000_0000
  {
    hide Number, Value;
    NumberOfDigits(v);
  }

  // ----- what is read in front of a number and behind it

  lemma {:induction false} BlanksAreSkipped(blanks: string, s: string)
    requires forall i :: 0 <= i < |blanks| ==> blanks[i] == ' ' || 9 <= blanks[i] as int <= 13
    requires s != [] && s[0] != ' ' && !(9 <= s[0] as int <= 13)
    ensures SkipBlanks(blanks + s) == s
  {
    if blanks == [] {
      assert blanks + s == s;
    } else {
      assert (blanks + s)[1..] == blanks[1..] + s;
      BlanksAreSkipped(blanks[1..], s);
    }
  }

  lemma {:induction false} DigitsEnd(d: string, rest: string)
    requires AllDigits(d) && (rest != [] ==> !('0' <= rest[0] <= '9'))
    ensures LeadingDigits(d + rest) == d
  {
    if d == [] {
      assert d + rest == rest;
    } else {
      assert (d + rest)[1..] == d[1..] + rest;
      DigitsEnd(d[1..], rest);
    }
  }

  /** Blanks in front of a number are passed over and one sign is taken; what stands behind its digits is not read, and
      a number beyond 64 bits is read as the largest or the smallest one. */
  lemma NumberInText(blanks: string, d: string, rest: string)
    requires forall i :: 0 <= i < |blanks| ==> blanks[i] == ' ' || 9 <= blanks[i] as int <= 13
    requires d != [] && AllDigits(d) && (rest != [] ==> !('0' <= rest[0] <= '9'))
    ensures Strtol(blanks + (d + rest)) == Strtol(blanks + ("+" + d + rest)) ==
      if Value(d) > 0x7FFF_FFFF_FFFF_FFFF then 0x7FFF_FFFF_FFFF_FFFF else Value(d)
    ensures Strtol(blanks + ("-" + d + rest)) ==
      if Value(d) > 0x8000_0000_0000_0000 then -0x8000_0000_0000_0000 else -(Value(d) as int)
  {
    hide Strtol, Value;
    NumberAlone(d, rest);
    assert IsDigit(d[0]);
    BlanksDoNotMatter(blanks, d + rest);
    BlanksDoNotMatter(blanks, "+" + d + rest);
    BlanksDoNotMatter(blanks, "-" + d + rest);
  }

  lemma BlanksDoNotMatter(blanks: string, s: string)
    requires forall i :: 0 <= i < |blanks| ==> blanks[i] == ' ' || 9 <= blanks[i] as int <= 13
    requires s != [] && s[0] != ' ' && !(9 <= s[0] as int <= 13)
    ensures Strtol(blanks + s) == Strtol(s)
  {
    hide Value, LeadingDigits;
    BlanksAreSkipped(blanks, s);
  }

  lemma NumberAlone(d: string, rest: string)
    requires d != [] && AllDigits(d) && (rest != [] ==> !('0' <= rest[0] <= '9'))
    ensures Strtol(d + rest) == Strtol("+" + d + rest) ==
      if Value(d) > 0x7FFF_FFFF_FFFF_FFFF then 0x7FFF_FFFF_FFFF_FFFF else Value(d)
    ensures Strtol("-" + d + rest) ==
      if Value(d) > 0x8000_0000_0000_0000 then -0x8000_0000_0000_0000 else -(Value(d) as int)
  {
    hide Strtol, Value, LeadingDigits;
    UnsignedNumber(d, rest);
    SignedNumber("+" + d + rest, d, rest);
    SignedNumber("-" + d + rest, d, rest);
  }

  lemma UnsignedNumber(d: string, rest: string)
    requires d != [] && AllDigits(d) && (rest != [] ==> !('0' <= rest[0] <= '9'))
    ensures Strtol(d + rest) == Clamp(Value(d))
  {
    hide Value, LeadingDigits, Clamp;
    DigitsEnd(d, rest);
    assert (d + rest)[0] == d[0] && IsDigit(d[0]);
  }

  lemma SignedNumber(s: string, d: string, rest: string)
    requires d != [] && AllDigits(d) && (rest != [] ==> !('0' <= rest[0] <= '9'))
    requires s != [] && s[1..] == d + rest && (s[0] == '+' || s[0] == '-')
    ensures Strtol(s) == Clamp(if s[0] == '+' then Value(d) else -(Value(d) as int))
  {
    hide Value, LeadingDigits, Clamp;
    DigitsEnd(d, rest);
  }
}
