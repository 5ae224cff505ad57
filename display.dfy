/** Formatting of an operand for the two display lines (`_displayNumLocal`).
    The operand is split on ".": the text before the first "." is read the way
    `parseFloat` reads it and shown with en-US thousands grouping and no fraction
    digits; the text between the first and the second "." is appended verbatim. */
module Display {

  predicate IsDigit(c: char) { '0' <= c <= '9' }

  predicate IsDigits(s: string) { forall i :: 0 <= i < |s| ==> IsDigit(s[i]) }

  function DigitValue(c: char): (v: nat)
    requires IsDigit(c)
    ensures v < 10
  {
    c as int - '0' as int
  }

  function DigitChar(v: nat): (c: char)
    requires v < 10
    ensures IsDigit(c) && DigitValue(c) == v
  {
    (v + '0' as int) as char
  }

  lemma DigitCharOfValue(c: char)
    requires IsDigit(c)
    ensures DigitChar(DigitValue(c)) == c
  {
  }

  /** The number a digit string denotes (the empty string denotes 0). */
  function Value(d: string): nat
    requires IsDigits(d)
  {
    if d == [] then 0 else 10 * Value(d[..|d| - 1]) + DigitValue(d[|d| - 1])
  }

  /** The shortest decimal numeral of n, as a number is printed. */
  function NatToString(n: nat): (s: string)
    ensures IsDigits(s) && |s| >= 1
    ensures Value(s) == n
    ensures n > 0 ==> s[0] != '0'
    ensures n == 0 ==> s == "0"
  {
    if n < 10 then [DigitChar(n)]
    else
      var p := NatToString(n / 10);
      var s := p + [DigitChar(n % 10)];
      assert s[..|s| - 1] == p;
      s
  }

  /** A digit string without its redundant leading zeros (one digit always stays). */
  function StripLeadingZeros(d: string): (r: string)
    requires IsDigits(d)
    ensures IsDigits(r) && (d != [] ==> r != [])
  {
    if |d| > 1 && d[0] == '0' then StripLeadingZeros(d[1..]) else d
  }

  lemma {:induction false} ValueAfterLeadingZero(r: string)
    requires IsDigits(r)
    ensures IsDigits("0" + r) && Value("0" + r) == Value(r)
    decreases |r|
  {
    if r != [] {
      var p := r[..|r| - 1];
      ValueAfterLeadingZero(p);
      assert ("0" + r)[..|"0" + r| - 1] == "0" + p;
    }
  }

  lemma {:induction false} LeadingDigitPositive(d: string)
    requires IsDigits(d) && d != [] && d[0] != '0'
    ensures Value(d) > 0
    decreases |d|
  {
    if |d| > 1 {
      LeadingDigitPositive(d[..|d| - 1]);
    }
  }

  /** A numeral without leading zeros is the one NatToString prints for its value. */
  lemma {:induction false} NumeralUnique(d: string)
    requires IsDigits(d) && d != [] && (|d| == 1 || d[0] != '0')
    ensures NatToString(Value(d)) == d
    decreases |d|
  {
    var c := d[|d| - 1];
    DigitCharOfValue(c);
    if |d| > 1 {
      var p := d[..|d| - 1];
      LeadingDigitPositive(p);
      NumeralUnique(p);
      assert Value(d) / 10 == Value(p) && Value(d) % 10 == DigitValue(c);
      assert d == p + [c];
    }
  }

  /** Reading a digit string as a number and printing it again drops exactly the
      leading zeros: "0012" becomes "12", "000" becomes "0". */
  lemma {:induction false} CanonicalNumeral(d: string)
    requires IsDigits(d) && d != []
    ensures NatToString(Value(d)) == StripLeadingZeros(d)
    decreases |d|
  {
    if |d| > 1 && d[0] == '0' {
      ValueAfterLeadingZero(d[1..]);
      assert "0" + d[1..] == d;
      CanonicalNumeral(d[1..]);
    } else {
      NumeralUnique(d);
    }
  }

  /** en-US grouping: a "," before every block of three digits counted from the
      right. One comma is added per full block after the first, the first
      character is kept, and nothing but commas is added. */
  function Group(d: string): (g: string)
    ensures d != [] ==> |g| == |d| + (|d| - 1) / 3 && g[0] == d[0]
    ensures '.' in g ==> '.' in d
    decreases |d|
  {
    if |d| <= 3 then d else Group(d[..|d| - 3]) + "," + d[|d| - 3..]
  }

  /** Commas stand exactly at every fourth position counted from the right end,
      and every other character is a digit. */
  predicate WellGrouped(g: string)
  {
    && |g| % 4 != 0
    && (forall i :: 0 <= i < |g| ==> (g[i] == ',' <==> (|g| - i) % 4 == 0))
    && (forall i :: 0 <= i < |g| && g[i] != ',' ==> IsDigit(g[i]))
  }

  /** The text with its grouping commas removed. */
  function Ungroup(g: string): string
  {
    if g == [] then [] else Ungroup(g[..|g| - 1]) + (if g[|g| - 1] == ',' then [] else [g[|g| - 1]])
  }

  lemma {:induction false} UngroupAppend(a: string, b: string)
    ensures Ungroup(a + b) == Ungroup(a) + Ungroup(b)
    decreases |b|
  {
    if b != [] {
      var b' := b[..|b| - 1];
      assert (a + b)[..|a + b| - 1] == a + b';
      UngroupAppend(a, b');
    } else {
      assert a + b == a;
    }
  }

  lemma {:induction false} UngroupDigits(d: string)
    requires IsDigits(d)
    ensures Ungroup(d) == d
    decreases |d|
  {
    if d != [] {
      UngroupDigits(d[..|d| - 1]);
      assert d == d[..|d| - 1] + [d[|d| - 1]];
    }
  }

  lemma ShiftByFour(n: int, i: int)
    ensures (n + 4 - i) % 4 == (n - i) % 4
  {
  }

  /** Prefixing three more digits with a "," keeps the layout. */
  lemma WellGroupedExtend(gp: string, t: string)
    requires WellGrouped(gp) && IsDigits(t) && |t| == 3
    ensures WellGrouped(gp + "," + t)
  {
    var g := gp + "," + t;
    ShiftByFour(|gp|, 0);
    forall i | 0 <= i < |g|
      ensures (g[i] == ',' <==> (|g| - i) % 4 == 0)
      ensures g[i] != ',' ==> IsDigit(g[i])
    {
      if i < |gp| {
        assert g[i] == gp[i];
        ShiftByFour(|gp|, i);
      } else if i > |gp| {
        assert g[i] == t[i - |gp| - 1];
      }
    }
  }

  lemma {:induction false} GroupWellGrouped(d: string)
    requires IsDigits(d) && d != []
    ensures WellGrouped(Group(d))
    decreases |d|
  {
    if |d| > 3 {
      GroupWellGrouped(d[..|d| - 3]);
      WellGroupedExtend(Group(d[..|d| - 3]), d[|d| - 3..]);
    }
  }

  /** Removing the commas gives back the digits that were grouped. */
  lemma {:induction false} GroupRoundTrip(d: string)
    requires IsDigits(d)
    ensures Ungroup(Group(d)) == d
    decreases |d|
  {
    if |d| <= 3 {
      UngroupDigits(d);
    } else {
      var p := d[..|d| - 3];
      var t := d[|d| - 3..];
      GroupRoundTrip(p);
      UngroupAppend(Group(p) + ",", t);
      UngroupAppend(Group(p), ",");
      UngroupDigits(t);
      assert Ungroup(",") == [];
      assert d == p + t;
    }
  }

  /** The longest prefix of s made of digits. */
  function LeadingDigits(s: string): (d: string)
    ensures IsDigits(d) && d <= s
    ensures d == s || !IsDigit(s[|d|])
  {
    if s != [] && IsDigit(s[0]) then [s[0]] + LeadingDigits(s[1..]) else []
  }

  const Infinity: string := "Infinity"
  const InfinitySign: string := "\U{221E}"

  /** The integer part as `parseFloat` reads it and `toLocaleString("en-US",
      {maximumFractionDigits: 0})` shows it: an optional sign, then "Infinity"
      or a run of digits; anything after that is ignored. The digits are shown as
      the number they denote is printed, without leading zeros (the same text as
      NatToString(Value(d)), by IntegerDisplayOfDigits). No digits reads as NaN,
      which is shown as the empty string. */
  function IntegerDisplay(part: string): string
  {
    var signed := part != [] && (part[0] == '-' || part[0] == '+');
    var body := if signed then part[1..] else part;
    var sign := if part != [] && part[0] == '-' then "-" else "";
    if Infinity <= body then sign + InfinitySign
    else
      var d := LeadingDigits(body);
      if d == [] then "" else sign + Group(StripLeadingZeros(d))
  }

  /** The text of s up to its first ".", or all of s when it has none. */
  function UpToDot(s: string): (r: string)
    ensures r <= s && '.' !in r
    ensures r == s || s[|r|] == '.'
  {
    if s == [] || s[0] == '.' then [] else [s[0]] + UpToDot(s[1..])
  }

  /** `_displayNumLocal`: `split(".")` keeps the part before the first "." as the
      integer part and the part between the first and the second "." as the
      decimal part, which is present (possibly empty) exactly when s holds a ".". */
  function DisplayNumLocal(s: string): string
  {
    var integerPart := UpToDot(s);
    var integerDisplay := IntegerDisplay(integerPart);
    if '.' in s then integerDisplay + "." + UpToDot(s[|integerPart| + 1..])
    else integerDisplay
  }

  lemma {:induction false} UpToDotOfSplit(a: string, b: string)
    requires '.' !in a
    ensures UpToDot(a + "." + b) == a
    decreases |a|
  {
    if a != [] {
      assert (a + "." + b)[1..] == a[1..] + "." + b;
      UpToDotOfSplit(a[1..], b);
    } else {
      assert (a + "." + b)[0] == '.';
    }
  }

  lemma {:induction false} UpToDotNoDot(s: string)
    requires '.' !in s
    ensures UpToDot(s) == s
  {
  }

  /** Without a ".", only the integer display is shown. */
  lemma DisplayWithoutDot(s: string)
    requires '.' !in s
    ensures DisplayNumLocal(s) == IntegerDisplay(s)
  {
    UpToDotNoDot(s);
  }

  /** With a ".", the integer display of the text before it, the ".", and the text
      after it up to any further "." copied unchanged (an empty suffix included). */
  lemma DisplayWithDot(a: string, b: string)
    requires '.' !in a
    ensures DisplayNumLocal(a + "." + b) == IntegerDisplay(a) + "." + UpToDot(b)
  {
    var s := a + "." + b;
    UpToDotOfSplit(a, b);
    assert s[|a| + 1..] == b;
    assert s[|a|] == '.';
  }

  lemma {:induction false} LeadingDigitsOfDigits(d: string)
    requires IsDigits(d)
    ensures LeadingDigits(d) == d
    decreases |d|
  {
    if d != [] {
      LeadingDigitsOfDigits(d[1..]);
      assert d == [d[0]] + d[1..];
    }
  }

  lemma NotInfinity(d: string)
    requires IsDigits(d) && d != []
    ensures !(Infinity <= d)
  {
    assert IsDigit(d[0]);
    assert Infinity[0] == 'I';
  }

  /** A digit string is read as the number it denotes, and that number is
      printed, grouped: its digits without leading zeros. */
  lemma IntegerDisplayOfDigits(d: string)
    requires IsDigits(d) && d != []
    ensures IntegerDisplay(d) == Group(NatToString(Value(d)))
    ensures IntegerDisplay(d) == Group(StripLeadingZeros(d))
  {
    assert IsDigit(d[0]);
    NotInfinity(d);
    LeadingDigitsOfDigits(d);
    CanonicalNumeral(d);
  }

  /** A leading "-" is kept in front of the grouped digits. */
  lemma IntegerDisplayOfNegative(d: string)
    requires IsDigits(d) && d != []
    ensures IntegerDisplay("-" + d) == "-" + Group(StripLeadingZeros(d))
  {
    var part := "-" + d;
    assert part[0] == '-' && part[1..] == d;
    NotInfinity(d);
    LeadingDigitsOfDigits(d);
    CanonicalNumeral(d);
  }

  /** The integer display of a digit string is laid out in groups of three and
      dropping its commas gives a numeral of the same value. */
  lemma IntegerDisplayKeepsValue(d: string)
    requires IsDigits(d) && d != []
    ensures WellGrouped(IntegerDisplay(d))
    ensures IsDigits(Ungroup(IntegerDisplay(d))) && Value(Ungroup(IntegerDisplay(d))) == Value(d)
  {
    IntegerDisplayOfDigits(d);
    CanonicalNumeral(d);
    GroupWellGrouped(NatToString(Value(d)));
    GroupRoundTrip(NatToString(Value(d)));
  }

  /** An integer part with no digit ("" or a lone "-") reads as NaN and shows as "". */
  lemma IntegerDisplayNaN(part: string)
    requires part == "" || part == "-"
    ensures IntegerDisplay(part) == ""
  {
    if part == "-" {
      assert part[1..] == [];
    }
  }

  /** The sign ("-" or nothing) an operand starts with, and its integer display. */
  function SignText(negative: bool): string { if negative then "-" else "" }

  function ShownInteger(negative: bool, whole: string): string
    requires IsDigits(whole)
  {
    if whole == [] then "" else SignText(negative) + Group(StripLeadingZeros(whole))
  }

  lemma IntegerDisplayOfOperand(negative: bool, whole: string)
    requires IsDigits(whole)
    ensures IntegerDisplay(SignText(negative) + whole) == ShownInteger(negative, whole)
  {
    if whole == [] {
      assert SignText(negative) + whole == SignText(negative);
      IntegerDisplayNaN(SignText(negative));
    } else if negative {
      IntegerDisplayOfNegative(whole);
    } else {
      assert SignText(negative) + whole == whole;
      IntegerDisplayOfDigits(whole);
    }
  }

  lemma NoDotInOperand(negative: bool, whole: string)
    requires IsDigits(whole)
    ensures '.' !in SignText(negative) + whole
  {
    var t := SignText(negative) + whole;
    forall i | 0 <= i < |t| ensures t[i] != '.' {
      if i >= |SignText(negative)| { assert t[i] == whole[i - |SignText(negative)|]; }
    }
  }

  /** An operand as typed (an optional "-" and digits) is shown as its integer
      display alone. */
  lemma DisplayOfWhole(negative: bool, whole: string)
    requires IsDigits(whole)
    ensures DisplayNumLocal(SignText(negative) + whole) == ShownInteger(negative, whole)
  {
    NoDotInOperand(negative, whole);
    DisplayWithoutDot(SignText(negative) + whole);
    IntegerDisplayOfOperand(negative, whole);
  }

  /** An operand with a "." and a digit suffix is shown as its grouped integer
      part, the "." and the suffix unchanged: "1234.5" is "1,234.5", "12." is "12.". */
  lemma DisplayOfDecimal(negative: bool, whole: string, fraction: string)
    requires IsDigits(whole) && IsDigits(fraction)
    ensures DisplayNumLocal(SignText(negative) + whole + "." + fraction)
         == ShownInteger(negative, whole) + "." + fraction
  {
    assert '.' !in fraction by {
      forall i | 0 <= i < |fraction| ensures fraction[i] != '.' { assert IsDigit(fraction[i]); }
    }
    NoDotInOperand(negative, whole);
    DisplayWithDot(SignText(negative) + whole, fraction);
    UpToDotNoDot(fraction);
    IntegerDisplayOfOperand(negative, whole);
  }

  // Worked examples. Each literal fact is its own small lemma, so that no proof
  // has to evaluate the formatting of a literal in one go.

  lemma GroupOfFour()
    ensures Group("1234") == "1,234"
  {
  }

  lemma GroupOfSeven()
    ensures Group("1234567") == "1,234,567"
  {
    GroupOfFour();
  }

  // StrippedExamples, ShownExamples and SpelledExamples model nothing: they
  // evaluate the pieces of the examples below one at a time so that each
  // example proof stays small.

  lemma StrippedExamples()
    ensures StripLeadingZeros("1234") == "1234"
    ensures StripLeadingZeros("12") == "12"
    ensures StripLeadingZeros("0012") == "12"
  {
  }

  lemma ShownExamples()
    ensures ShownInteger(false, "1234") == "1,234"
    ensures ShownInteger(false, "12") == "12"
    ensures ShownInteger(true, "1234") == "-1,234"
    ensures ShownInteger(false, "0012") == "12"
  {
    StrippedExamples();
    GroupOfFour();
  }

  lemma SpelledExamples()
    ensures SignText(false) + "1234" + "." + "5" == "1234.5"
    ensures SignText(false) + "12" + "." + "" == "12."
    ensures SignText(true) + "1234" == "-1234"
    ensures SignText(false) + "0012" == "0012"
    ensures "1,234" + "." + "5" == "1,234.5"
    ensures "12" + "." + "" == "12."
  {
  }

  lemma ExampleGroupedDecimal()
    ensures DisplayNumLocal("1234.5") == "1,234.5"
  {
    DisplayOfDecimal(false, "1234", "5");
    ShownExamples();
    SpelledExamples();
  }

  lemma ExampleTrailingDot()
    ensures DisplayNumLocal("12.") == "12."
  {
    DisplayOfDecimal(false, "12", "");
    ShownExamples();
    SpelledExamples();
  }

  lemma ExampleNegative()
    ensures DisplayNumLocal("-1234") == "-1,234"
  {
    DisplayOfWhole(true, "1234");
    ShownExamples();
    SpelledExamples();
  }

  lemma ExampleLeadingZeros()
    ensures DisplayNumLocal("0012") == "12"
  {
    DisplayOfWhole(false, "0012");
    ShownExamples();
    SpelledExamples();
  }

  lemma ExampleNaN()
    ensures DisplayNumLocal("-") == "" && DisplayNumLocal("") == ""
  {
    DisplayOfWhole(true, "");
    DisplayOfWhole(false, "");
    assert SignText(true) + "" == "-";
  }

  /** `toString` of an infinite answer is "Infinity" or "-Infinity"; `parseFloat`
      reads them back and they are shown as "∞" and "-∞". */
  lemma DisplayOfInfinity()
    ensures DisplayNumLocal(Infinity) == InfinitySign
    ensures DisplayNumLocal("-" + Infinity) == "-" + InfinitySign
  {
    var neg := "-" + Infinity;
    assert '.' !in Infinity by {
      forall i | 0 <= i < |Infinity| ensures Infinity[i] != '.' {
        assert Infinity[i] in {'I', 'n', 'f', 'i', 't', 'y'};
      }
    }
    assert '.' !in neg by {
      forall i | 0 <= i < |neg| ensures neg[i] != '.' {
        if i > 0 { assert neg[i] == Infinity[i - 1]; }
      }
    }
    DisplayWithoutDot(Infinity);
    DisplayWithoutDot(neg);
    assert Infinity[0] == 'I';
    assert neg[0] == '-' && neg[1..] == Infinity;
  }
}
