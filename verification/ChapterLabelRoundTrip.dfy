/** What the printed label of a chapter still says: the number parses back, and keys tell chapters apart. */
module ChapterLabelRoundTrip {
  import opened Wrappers
  import opened Text
  import opened ChapterLabels
  import opened Doubles

  predicate Numeral(whole: string, fraction: string) {
    whole != [] && AllDigits(whole) && AllDigits(fraction)
  }

  // ---- parsing the printed number --------------------------------------------------------

  lemma {:induction false} DigitRunOf(s: string, t: string)
    requires AllDigits(s) && (t == [] || !IsDigit(t[0]))
    ensures DigitRun(s + t) == |s|
  {
    if s == [] {
      assert s + t == t;
    } else {
      assert (s + t)[1..] == s[1..] + t;
      DigitRunOf(s[1..], t);
    }
  }

  lemma ValueGrows(s: string, c: char)
    requires AllDigits(s) && IsDigit(c)
    ensures AllDigits(s + [c]) && Value(s + [c]) == Value(s) * 10 + DigitValue(c)
  {
    assert (s + [c])[..|s|] == s;
  }

  lemma SplitHundredths(h: nat)
    ensures h / 10 == h / 100 * 10 + h / 10 % 10 && h == h / 10 * 10 + h % 10
  {
  }

  /** Two more digits behind the whole part. */
  lemma ValueOfHundredths(h: nat)
    ensures var (whole, tens, units) := (Digits(h / 100), DigitChar(h / 10 % 10), DigitChar(h % 10));
            && AllDigits(whole + [tens]) && Value(whole + [tens]) == h / 10
            && AllDigits(whole + [tens, units]) && Value(whole + [tens, units]) == h
  {
    var (whole, tens, units) := (Digits(h / 100), DigitChar(h / 10 % 10), DigitChar(h % 10));
    ValueOfDigits(h / 100);
    SplitHundredths(h);
    ValueGrows(whole, tens);
    ValueGrows(whole + [tens], units);
    assert whole + [tens, units] == whole + [tens] + [units];
  }

  function Exactly(h: nat): real { h as real / 100.0 }

  /** What the printed digits stand for. */
  lemma PrintedValue(h: nat)
    ensures Numeral(Digits(h / 100), Fraction(h))
    ensures Scale(Value(Digits(h / 100) + Fraction(h)) as real, -|Fraction(h)|) == Exactly(h)
  {
    if h % 100 == 0 {
      ValueOfDigits(h / 100);
      assert Digits(h / 100) + [] == Digits(h / 100);
      PowersOfTen(h / 100);
    } else {
      ValueOfHundredths(h);
      PowersOfTen(h / 10);
      PowersOfTen(h);
    }
  }

  lemma PowersOfTen(h: nat)
    ensures Scale(h as real, 0) == Exactly(h * 100)
    ensures Scale(h as real, -1) == Exactly(h * 10)
    ensures Scale(h as real, -2) == Exactly(h)
  {
    var tenth := h as real / 10.0;
    assert Scale(tenth, -1) == Scale(tenth / 10.0, 0);
  }

  lemma WholeParses(whole: string)
    requires Numeral(whole, [])
    ensures ParseNumber(whole) == Some(Scale(Value(whole + []) as real, 0))
  {
    DigitRunOf(whole, []);
    assert whole + [] == whole && whole[..|whole|] == whole && whole[|whole|..] == [];
  }

  lemma SplitDecimal(whole: string, fraction: string)
    requires Numeral(whole, fraction) && fraction != []
    ensures var s := Decimal(whole, fraction);
            DigitRun(s) == |whole| && s[..|whole|] == whole && s[|whole|..] == "." + fraction
  {
    DigitRunOf(whole, "." + fraction);
    assert whole + "." + fraction == whole + ("." + fraction);
  }

  lemma SplitFraction(fraction: string)
    requires AllDigits(fraction)
    ensures ("." + fraction)[1..] == fraction && DigitRun(fraction) == |fraction|
    ensures fraction[..|fraction|] == fraction && fraction[|fraction|..] == []
  {
    DigitRunOf(fraction, []);
    assert fraction + [] == fraction;
  }

  lemma NumeralParses(whole: string, fraction: string)
    requires Numeral(whole, fraction)
    ensures ParseNumber(Decimal(whole, fraction))
            == Some(Scale(Value(whole + fraction) as real, -|fraction|))
  {
    if fraction == [] {
      WholeParses(whole);
    } else {
      SplitDecimal(whole, fraction);
      SplitFraction(fraction);
    }
  }

  lemma NumeralIsNoWord(s: string)
    requires s != [] && IsDigit(s[0])
    ensures ParseFloat(s) == if ParseNumber(s).None? then None else Some(Nearest(ParseNumber(s).value))
  {
    assert IsDigit(Lower(s)[0]);
  }

  lemma PrintedParses(h: nat)
    ensures ParseNumber(FormatHundredths(h)) == Some(Exactly(h))
    ensures ParseFloat(FormatHundredths(h)) == Some(Nearest(Exactly(h)))
  {
    PrintedValue(h);
    var whole, fraction := Digits(h / 100), Fraction(h);
    NumeralParses(whole, fraction);
    NumeralIsNoWord(Decimal(whole, fraction));
  }

  /** Printed hundredths are read as their double, and up to 5,000 it is a finite and sane one. */
  lemma ParsesBack(h: nat)
    ensures ParseFloat(FormatHundredths(h)) == Some(Nearest(Exactly(h)))
    ensures h <= 500000 ==> Nearest(Exactly(h)) == Finite(OfHundredths(h)) && IsSaneNumber(Finite(OfHundredths(h)))
  {
    PrintedParses(h);
    if h <= 500000 { SaneHundredths(h); }
  }

  lemma {:induction false} ScaledGrows(x: real, e: nat)
    requires x >= 0.0
    ensures Scaled(x, e) >= x
    decreases e
  {
    if e > 0 { ScaledGrows(2.0 * x, e - 1); }
  }

  /** A decimal up to 5,000 is read as a sane double. */
  lemma SaneIsReadSane(v: real)
    requires 0.0 <= v <= SANE_MAX_CHAPTER
    ensures Nearest(v) == Finite(Double(v)) && IsSaneNumber(Nearest(v))
  {
    DyadicIsDouble(5000, 0);
    DyadicIsDouble(0, 0);
    DoubleIsMonotone(v, 5000.0);
    DoubleIsMonotone(0.0, v);
    ScaledGrows(8192.0, 1011);
    ScaledSum(1.0, 13, 1011);
  }

  lemma SaneHundredths(h: nat)
    requires h <= 500000
    ensures Nearest(Exactly(h)) == Finite(OfHundredths(h)) && IsSaneNumber(Finite(OfHundredths(h)))
  {
    SaneIsReadSane(Exactly(h));
  }

  lemma {:induction false} ScaledSum(x: real, d: nat, e: nat)
    ensures Scaled(x, d + e) == Scaled(Scaled(x, d), e)
    decreases d
  {
    if d > 0 { ScaledSum(2.0 * x, d - 1, e); }
  }

  // ---- numbers nobody prints ----------------------------------------------------------------

  /** A sign, if any, and digits. */
  predicate ExponentText(sign: string, digits: string) {
    (sign == "" || sign == "+" || sign == "-") && digits != [] && AllDigits(digits)
  }

  lemma ExponentIs(mark: char, sign: string, digits: string)
    requires (mark == 'e' || mark == 'E') && ExponentText(sign, digits)
    ensures Exponent([mark] + sign + digits) == Some(if sign == "-" then -(Value(digits) as int) else Value(digits))
  {
    var s := [mark] + sign + digits;
    if sign == "" {
      assert s[1..] == digits && s[1] == digits[0];
    } else {
      assert s[1] == sign[0] && s[2..] == digits;
    }
  }

  lemma DigitsEnd(before: string, after: string)
    requires AllDigits(before) && after != [] && !IsDigit(after[0])
    ensures DigitRun(before + after) == |before| && (before + after)[..|before|] == before && (before + after)[|before|..] == after
  {
    DigitRunOf(before, after);
  }

  lemma WholeWithExponent(whole: string, e: string)
    requires Numeral(whole, []) && e != [] && !IsDigit(e[0]) && e[0] != '.' && Exponent(e).Some?
    ensures ParseNumber(whole + e) == Some(Scale(Value(whole + []) as real, Exponent(e).value))
  {
    DigitsEnd(whole, e);
    assert e[0..] == e && whole + [] == whole;
  }

  lemma DecimalWithExponent(whole: string, fraction: string, e: string)
    requires Numeral(whole, fraction) && fraction != [] && e != [] && !IsDigit(e[0]) && Exponent(e).Some?
    ensures ParseNumber(whole + ("." + (fraction + e)))
         == Some(Scale(Value(whole + fraction) as real, Exponent(e).value - |fraction|))
  {
    var rest := "." + (fraction + e);
    DigitsEnd(whole, rest);
    DigitsEnd(fraction, e);
    assert rest[0] == '.' && rest[1..] == fraction + e;
  }

  lemma DecimalJoins(whole: string, fraction: string, e: string)
    requires fraction != []
    ensures Decimal(whole, fraction) + e == whole + ("." + (fraction + e))
  {
    assert "." + fraction + e == "." + (fraction + e);
  }

  /** A numeral with an exponent behind it stands for that number times that power of ten. */
  lemma ExponentParses(whole: string, fraction: string, e: string)
    requires Numeral(whole, fraction) && e != [] && (e[0] == 'e' || e[0] == 'E') && Exponent(e).Some?
    ensures ParseNumber(Decimal(whole, fraction) + e)
         == Some(Scale(Value(whole + fraction) as real, Exponent(e).value - |fraction|))
  {
    if fraction == [] {
      WholeWithExponent(whole, e);
    } else {
      DecimalJoins(whole, fraction, e);
      DecimalWithExponent(whole, fraction, e);
    }
  }

  lemma {:induction false} ScaleIsLinear(m: real, e: int)
    ensures Scale(10.0 * m, e) == 10.0 * Scale(m, e)
    decreases if e < 0 then -e else e
  {
    if e > 0 { ScaleIsLinear(m * 10.0, e - 1); } else if e < 0 { ScaleIsLinear(m / 10.0, e + 1); }
  }

  /** Scaling by no power of ten changes nothing, and by one more it is ten times as much. */
  lemma ScaleIs(m: real, e: int)
    ensures Scale(m, 0) == m && Scale(m, e + 1) == 10.0 * Scale(m, e)
  {
    if e >= 0 {
      ScaleIsLinear(m, e);
    } else {
      ScaleIsLinear(m / 10.0, e + 1);
    }
  }

  /** The words for infinity and for no number, in any case. */
  predicate NotFiniteWord(word: string) { Lower(word) == "inf" || Lower(word) == "infinity" || Lower(word) == "nan" }

  /** A sign before a number is taken. */
  lemma SignIsTaken(s: string, v: real)
    requires s != [] && IsDigit(s[0]) && ParseNumber(s) == Some(v)
    ensures ParseFloat("-" + s) == Some(Nearest(-v)) && ParseFloat("+" + s) == Some(Nearest(v)) == ParseFloat(s)
  {
    assert ("-" + s)[1..] == s && ("+" + s)[1..] == s;
    assert IsDigit(Lower(s)[0]);
  }

  /** Infinities and what is no number are read as not finite, with a sign or without. */
  lemma WordsAreNotFinite(sign: string, word: string)
    requires sign == "" || sign == "-" || sign == "+"
    requires word != [] && word[0] != '-' && word[0] != '+' && NotFiniteWord(word)
    ensures ParseFloat(sign + word) == Some(NonFinite)
  {
    if sign == "" { assert sign + word == word; } else { assert (sign + word)[1..] == word && (sign + word)[0] == sign[0]; }
  }

  /** The characters a number is written with. */
  predicate NumberChar(c: char) { IsDigit(c) || c == '.' || c == 'e' || c == 'E' || c == '+' || c == '-' }

  predicate Written(s: string) { forall i | 0 <= i < |s| :: NumberChar(s[i]) }

  lemma WrittenJoins(a: string, b: string)
    requires Written(a) && Written(b)
    ensures Written(a + b)
  {
  }

  lemma ExponentIsWritten(s: string)
    requires Exponent(s).Some?
    ensures Written(s)
  {
    if s != [] {
      var signed := |s| > 1 && (s[1] == '-' || s[1] == '+');
      var n := if signed then 2 else 1;
      assert s == s[..n] + s[n..];
      WrittenJoins(s[..n], s[n..]);
    }
  }

  function WholePart(s: string): string { s[..DigitRun(s)] }

  function Dot(s: string): string {
    var rest := s[DigitRun(s)..];
    if rest != [] && rest[0] == '.' then "." else ""
  }

  function Tail(s: string): string { s[DigitRun(s) + |Dot(s)|..] }

  function Places(s: string): string { if Dot(s) == "" then [] else Tail(s)[..DigitRun(Tail(s))] }

  /** Text falls into digits, a dot, digits and what is behind them, each of which may be missing. */
  lemma TextParts(s: string)
    ensures s == WholePart(s) + (Dot(s) + Tail(s)) && Tail(s) == Places(s) + Tail(s)[|Places(s)|..]
    ensures AllDigits(WholePart(s)) && AllDigits(Places(s))
  {
  }

  /** It is a number exactly when there are digits and the rest is an exponent. */
  lemma NumberIffParts(s: string)
    ensures ParseNumber(s).Some? <==> WholePart(s) + Places(s) != [] && Exponent(Tail(s)[|Places(s)|..]).Some?
  {
    var n := DigitRun(s);
    assert s[..n] == WholePart(s) && |s[..n]| == n;
    if Dot(s) == "." { assert s[n..][1..] == Tail(s); } else { assert s[n..] == Tail(s); }
  }

  /** So it holds nothing but digits, a dot, an exponent's mark and its sign. */
  lemma NumbersAreWritten(s: string)
    requires ParseNumber(s).Some?
    ensures Written(s)
  {
    TextParts(s);
    NumberIffParts(s);
    var exponent := Tail(s)[|Places(s)|..];
    ExponentIsWritten(exponent);
    WrittenJoins(Places(s), exponent);
    WrittenJoins(Dot(s), Tail(s));
    WrittenJoins(WholePart(s), Dot(s) + Tail(s));
  }

  /** Lower case changes the 26 capital letters, each to its small one, and nothing else. */
  lemma LowerCharIs(c: char, i: nat)
    requires i < 26
    ensures LowerChar(('A' as int + i) as char) as int == 'a' as int + i
    ensures c < 'A' || 'Z' < c ==> LowerChar(c) == c
  {
  }

  // ---- the printed number inside a name ----------------------------------------------------

  predicate DigitFree(s: string) { forall i | 0 <= i < |s| :: !IsDigit(s[i]) }

  /** What follows a printed number does not read as more of it. */
  predicate Stops(isWhole: bool, suffix: string) {
    && (suffix != [] ==> !IsDigit(suffix[0]))
    && (isWhole && |suffix| > 1 && suffix[0] == '.' ==> !IsDigit(suffix[1]))
  }

  lemma {:induction false} NumberEndOverDigits(s: string, end: nat, seenDot: bool, k: nat)
    requires end + k <= |s| && AllDigits(s[end..end + k])
    ensures NumberEnd(s, end, seenDot) == NumberEnd(s, end + k, seenDot)
    decreases k
  {
    if k > 0 {
      assert IsDigit(s[end..end + k][0]);
      assert s[end + 1..end + k] == s[end..end + k][1..];
      NumberEndOverDigits(s, end + 1, seenDot, k - 1);
    }
  }

  lemma {:induction false} FirstDigitAt(s: string, k: nat)
    requires k < |s| && DigitFree(s[..k]) && IsDigit(s[k])
    ensures FirstDigit(s) == k
  {
    if k > 0 {
      assert !IsDigit(s[..k][0]);
      assert s[1..][..k - 1] == s[..k][1..];
      FirstDigitAt(s[1..], k - 1);
    }
  }

  /** The scan ends at `k` when nothing there continues the number. */
  predicate EndsAt(s: string, k: nat, seenDot: bool) {
    k <= |s| && NumberEnd(s, k, seenDot) == k
  }

  lemma SuffixEnds(before: string, suffix: string, seenDot: bool)
    requires Stops(!seenDot, suffix)
    ensures EndsAt(before + suffix, |before|, seenDot)
  {
    var s := before + suffix;
    assert suffix != [] ==> s[|before|] == suffix[0];
    assert |suffix| > 1 ==> s[|before| + 1] == suffix[1];
  }

  /** Digits are scanned through. */
  lemma ScanDigits(before: string, digits: string, after: string, seenDot: bool)
    requires AllDigits(digits)
    ensures NumberEnd(before + digits + after, |before|, seenDot)
            == NumberEnd(before + digits + after, |before + digits|, seenDot)
  {
    var s := before + digits + after;
    assert s[|before|..|before| + |digits|] == digits;
    NumberEndOverDigits(s, |before|, seenDot, |digits|);
  }

  /** Where the scan of a numeral stops. */
  lemma ScanStops(prefix: string, whole: string, fraction: string, suffix: string)
    requires Numeral(whole, fraction) && Stops(fraction == [], suffix)
    ensures var s := prefix + Decimal(whole, fraction) + suffix;
            NumberEnd(s, |prefix|, false) == |prefix| + |Decimal(whole, fraction)|
  {
    if fraction == [] {
      ScanDigits(prefix, whole, suffix, false);
      SuffixEnds(prefix + whole, suffix, false);
    } else {
      ScanFraction(prefix, whole, fraction, suffix);
    }
  }

  /** A dot before a digit continues a number that has none yet. */
  lemma ScanDot(before: string, fraction: string, suffix: string)
    requires AllDigits(fraction) && fraction != []
    ensures var s := before + "." + fraction + suffix;
            NumberEnd(s, |before|, false) == NumberEnd(s, |before| + 1, true)
  {
    var s := before + "." + fraction + suffix;
    assert s[|before|] == '.' && s[|before| + 1] == fraction[0];
  }

  lemma Regroup(prefix: string, whole: string, fraction: string, suffix: string)
    requires fraction != []
    ensures var s, behind := prefix + Decimal(whole, fraction) + suffix, prefix + whole;
            && s == behind + ("." + fraction + suffix)
            && s == behind + "." + fraction + suffix
  {
  }

  lemma ScanFraction(prefix: string, whole: string, fraction: string, suffix: string)
    requires Numeral(whole, fraction) && fraction != [] && Stops(false, suffix)
    ensures NumberEnd(prefix + Decimal(whole, fraction) + suffix, |prefix|, false)
            == |prefix| + |Decimal(whole, fraction)|
  {
    Regroup(prefix, whole, fraction, suffix);
    ScanDigits(prefix, whole, "." + fraction + suffix, false);
    ScanDot(prefix + whole, fraction, suffix);
    ScanRest(prefix + whole + ".", fraction, suffix);
  }

  lemma ScanRest(dotted: string, fraction: string, suffix: string)
    requires AllDigits(fraction) && Stops(false, suffix)
    ensures NumberEnd(dotted + fraction + suffix, |dotted|, true) == |dotted + fraction|
  {
    ScanDigits(dotted, fraction, suffix, true);
    SuffixEnds(dotted + fraction, suffix, true);
  }

  /** A numeral is the first number of any text that leads up to it without a digit. */
  lemma FoundInText(prefix: string, whole: string, fraction: string, suffix: string)
    requires DigitFree(prefix) && Numeral(whole, fraction) && Stops(fraction == [], suffix)
    ensures NumberIn(prefix + Decimal(whole, fraction) + suffix) == ParseFloat(Decimal(whole, fraction))
  {
    var s, text := prefix + Decimal(whole, fraction) + suffix, Decimal(whole, fraction);
    assert s[..|prefix|] == prefix && s[|prefix|] == whole[0];
    FirstDigitAt(s, |prefix|);
    ScanStops(prefix, whole, fraction, suffix);
    assert s[|prefix|..|prefix| + |text|] == text;
  }

  // ---- the volume in front of it -----------------------------------------------------------

  predicate Separators(s: string) { forall i | 0 <= i < |s| :: IsSeparator(s[i]) }

  /** A prefix that would turn the number behind it into a volume's number. */
  predicate NamesVolume(prefix: string) {
    var p := Lower(TrimStart(prefix));
    exists t | t in TOKENS :: StartsWith(p, t) && Separators(p[|t|..])
  }

  lemma {:induction false} TrimStartBefore(prefix: string, rest: string)
    requires rest != [] && !IsSpace(rest[0])
    ensures TrimStart(prefix + rest) == TrimStart(prefix) + rest
  {
    if prefix == [] {
      assert prefix + rest == rest;
    } else {
      assert (prefix + rest)[1..] == prefix[1..] + rest;
      if IsSpace(prefix[0]) { TrimStartBefore(prefix[1..], rest); }
    }
  }

  lemma {:induction false} TrimStartDigitFree(s: string)
    requires DigitFree(s)
    ensures DigitFree(TrimStart(s))
  {
    if s != [] { TrimStartDigitFree(s[1..]); }
  }

  lemma {:induction false} TrimSeparatorsOf(seps: string, rest: string)
    requires Separators(seps) && (rest != [] ==> !IsSeparator(rest[0]))
    ensures TrimSeparators(seps + rest) == rest
  {
    if seps == [] {
      assert seps + rest == rest;
    } else {
      assert (seps + rest)[1..] == seps[1..] + rest;
      TrimSeparatorsOf(seps[1..], rest);
    }
  }

  lemma {:induction false} TrimNumberOf(number: string, rest: string)
    requires forall i | 0 <= i < |number| :: IsDigit(number[i]) || number[i] == '.'
    requires rest != [] ==> !IsDigit(rest[0]) && rest[0] != '.'
    ensures TrimNumber(number + rest) == rest
  {
    if number == [] {
      assert number + rest == rest;
    } else {
      assert (number + rest)[1..] == number[1..] + rest;
      TrimNumberOf(number[1..], rest);
    }
  }

  lemma {:induction false} LowerAppend(a: string, b: string)
    ensures Lower(a + b) == Lower(a) + Lower(b)
  {
    assert |Lower(a + b)| == |a| + |b|;
  }

  /** A prefix that names no volume is left alone. */
  lemma NoVolumeTaken(p: string, rest: string, t: string)
    requires DigitFree(p) && rest != [] && IsDigit(rest[0]) && DigitFree(t)
    requires !(StartsWith(Lower(p), t) && Separators(Lower(p)[|t|..]))
    ensures AfterVolume(p + rest, t).None?
  {
    LowerAppend(p, rest);
    var lower := Lower(p + rest);
    if StartsWith(lower, t) {
      assert forall i | 0 <= i < |t| :: lower[i] == t[i] by { assert lower[..|t|] == t; }
      assert |p| < |lower| && IsDigit(lower[|p|]);
      assert lower[..|t|] == Lower(p)[..|t|];
      var after := Lower(p)[|t|..];
      assert lower[|t|..] == after + Lower(rest);
      assert forall i | 0 <= i < |after| :: after[i] == LowerChar(p[i + |t|]);
      SeparatorsEnd(after, Lower(rest));
    }
  }

  /** Behind separators and then something else there is no digit to be found by skipping separators. */
  lemma {:induction false} SeparatorsEnd(after: string, rest: string)
    requires DigitFree(after) && !Separators(after)
    ensures TrimSeparators(after + rest) != [] && !IsDigit(TrimSeparators(after + rest)[0])
  {
    if IsSeparator(after[0]) {
      assert (after + rest)[1..] == after[1..] + rest;
      SeparatorsEnd(after[1..], rest);
    }
  }

  /**
   * A numeral in a name, behind words that hold no digit and name no volume, is what the name
   * is read as.
   */
  lemma EmbeddedNumberIsRead(prefix: string, whole: string, fraction: string, suffix: string)
    requires DigitFree(prefix) && !NamesVolume(prefix)
    requires Numeral(whole, fraction) && Stops(fraction == [], suffix)
    ensures NumberIn(StripVolumePrefix(prefix + Decimal(whole, fraction) + suffix)) == ParseFloat(Decimal(whole, fraction))
  {
    var rest, p := Decimal(whole, fraction) + suffix, TrimStart(prefix);
    assert rest[0] == whole[0];
    Reassociate(prefix, Decimal(whole, fraction), suffix);
    Reassociate(p, Decimal(whole, fraction), suffix);
    NothingStripped(prefix, rest);
    TrimStartDigitFree(prefix);
    FoundInText(p, whole, fraction, suffix);
  }

  lemma Reassociate(a: string, b: string, c: string)
    ensures a + b + c == a + (b + c)
  {
  }

  lemma TokensHoldNoDigit(t: string)
    requires t in TOKENS
    ensures DigitFree(t)
  {
  }

  lemma {:induction false} NothingStripped(prefix: string, rest: string)
    requires DigitFree(prefix) && !NamesVolume(prefix) && rest != [] && IsDigit(rest[0])
    ensures StripVolumePrefix(prefix + rest) == TrimStart(prefix) + rest
  {
    TrimStartBefore(prefix, rest);
    TrimStartDigitFree(prefix);
    forall t | t in TOKENS
      ensures AfterVolume(TrimStart(prefix) + rest, t).None?
    {
      TokensHoldNoDigit(t);
      NoVolumeTaken(TrimStart(prefix), rest, t);
    }
    NoToken(TrimStart(prefix) + rest, TOKENS);
  }

  lemma {:induction false} NoToken(trimmed: string, tokens: seq<string>)
    requires forall t | t in tokens :: AfterVolume(trimmed, t).None?
    ensures FirstVolume(trimmed, tokens).None?
  {
    if tokens != [] {
      assert tokens[0] in tokens;
      NoToken(trimmed, tokens[1..]);
    }
  }

  predicate DigitsAndDots(s: string) { forall i | 0 <= i < |s| :: IsDigit(s[i]) || s[i] == '.' }

  lemma LowerParts(token: string, seps: string, number: string)
    ensures Lower(token + (seps + number)) == Lower(token) + (Lower(seps) + Lower(number))
  {
    LowerAppend(token, seps + number);
    LowerAppend(seps, number);
  }

  /** What comes out behind one token, its separators and the volume's number. */
  lemma VolumeTaken(t: string, token: string, seps: string, volume: string, rest: string)
    requires Lower(token) == t && Separators(seps)
    requires volume != [] && IsDigit(volume[0]) && DigitsAndDots(volume)
    requires rest != [] ==> !IsDigit(rest[0]) && rest[0] != '.'
    ensures AfterVolume(token + seps + volume + rest, t) == Some(rest)
  {
    var number := volume + rest;
    assert token + seps + volume + rest == token + seps + number == token + (seps + number);
    LowerParts(token, seps, number);
    SeparatorsLower(seps);
    assert Lower(number)[0] == number[0];
    TrimSeparatorsOf(Lower(seps), Lower(number));
    TrimNumberOf(volume, rest);
    TakenBehind(token + seps, t, Lower(seps) + Lower(number), number);
  }

  lemma TakenBehind(head: string, t: string, low: string, number: string)
    requires Lower(head + number) == t + low && TrimSeparators(low) == Lower(number)
    requires number != [] && IsDigit(Lower(number)[0])
    ensures AfterVolume(head + number, t) == Some(TrimNumber(number))
  {
    var trimmed := head + number;
    var lower := Lower(trimmed);
    assert lower[..|t|] == t;
    assert lower[|t|..] == low;
    assert StartsWith(lower, t);
    assert trimmed[|trimmed| - |number|..] == number;
  }

  lemma SeparatorsLower(seps: string)
    requires Separators(seps)
    ensures Separators(Lower(seps))
  {
    forall i | 0 <= i < |seps| ensures IsSeparator(Lower(seps)[i]) { assert IsSeparator(seps[i]); }
  }

  lemma TokenOrder(trimmed: string)
    ensures FirstVolume(trimmed, TOKENS) ==
            if AfterVolume(trimmed, "volume").Some? then AfterVolume(trimmed, "volume")
            else if AfterVolume(trimmed, "vol.").Some? then AfterVolume(trimmed, "vol.")
            else if AfterVolume(trimmed, "vol").Some? then AfterVolume(trimmed, "vol")
            else AfterVolume(trimmed, "v.")
  {
    var (a, b, c) := (TOKENS[1..], TOKENS[1..][1..], TOKENS[1..][1..][1..]);
    assert a == ["vol.", "vol", "v."] && b == ["vol", "v."] && c == ["v."] && c[1..] == [];
    assert FirstVolume(trimmed, c[1..]).None?;
    assert FirstVolume(trimmed, c) == AfterVolume(trimmed, "v.");
    assert FirstVolume(trimmed, b) == if AfterVolume(trimmed, "vol").Some? then AfterVolume(trimmed, "vol") else FirstVolume(trimmed, c);
  }

  /** A name whose text differs from the token somewhere does not carry that token. */
  lemma OtherToken(trimmed: string, t: string, i: nat)
    requires i < |t| && i < |trimmed| && LowerChar(trimmed[i]) != t[i]
    ensures AfterVolume(trimmed, t).None?
  {
    assert Lower(trimmed)[i] != t[i];
  }

  lemma TokenLetter(token: string, rest: string, i: nat)
    requires i < |token|
    ensures LowerChar((token + rest)[i]) == Lower(token)[i]
  {
  }

  /** No earlier token takes the name in another way. */
  lemma EarlierTokens(token: string, tail: string)
    requires Lower(token) in TOKENS
    ensures var name := token + tail;
            && (Lower(token) != "volume" ==> AfterVolume(name, "volume").None? || Lower(token) == "vol")
            && (Lower(token) == "v." ==> AfterVolume(name, "vol.").None? && AfterVolume(name, "vol").None?)
  {
    var t := Lower(token);
    if t == "vol." {
      TokenLetter(token, tail, 3);
      OtherToken(token + tail, "volume", 3);
    } else if t == "v." {
      TokenLetter(token, tail, 1);
      OtherToken(token + tail, "volume", 1);
      OtherToken(token + tail, "vol.", 1);
      OtherToken(token + tail, "vol", 1);
    }
  }

  /** Behind a bare `vol` the longer tokens take nothing, or a dot and then the same. */
  lemma BareToken(token: string, seps: string, volume: string, rest: string)
    requires Lower(token) == "vol" && Separators(seps)
    requires volume != [] && IsDigit(volume[0]) && DigitsAndDots(volume)
    requires rest != [] ==> !IsDigit(rest[0]) && rest[0] != '.'
    ensures AfterVolume(token + seps + volume + rest, "volume").None?
    ensures AfterVolume(token + seps + volume + rest, "vol.") in {None, Some(rest)}
  {
    var tail := seps + volume + rest;
    var name := token + seps + volume + rest;
    assert name == token + tail;
    var c := tail[0];
    assert name[3] == c;
    assert IsSeparator(c) || IsDigit(c) by {
      assert c == if seps != [] then seps[0] else volume[0];
    }
    OtherToken(name, "volume", 3);
    if c == '.' {
      DottedToken(token, seps, volume, rest);
    } else {
      OtherToken(name, "vol.", 3);
    }
  }

  /** The token the name carries decides, if no earlier one decides otherwise. */
  lemma TokenDecides(name: string, t: string, r: string)
    requires t in TOKENS && AfterVolume(name, t) == Some(r)
    requires t == "vol." || t == "v." ==> AfterVolume(name, "volume").None?
    requires t == "v." ==> AfterVolume(name, "vol.").None? && AfterVolume(name, "vol").None?
    requires t == "vol" ==> AfterVolume(name, "volume").None? && AfterVolume(name, "vol.") in {None, Some(r)}
    ensures FirstVolume(name, TOKENS) == Some(r)
  {
    TokenOrder(name);
  }

  lemma LaterToken(token: string, seps: string, volume: string, rest: string)
    requires Lower(token) in TOKENS && Separators(seps)
    requires volume != [] && IsDigit(volume[0]) && DigitsAndDots(volume)
    requires rest != [] ==> !IsDigit(rest[0]) && rest[0] != '.'
    ensures var (t, name) := (Lower(token), token + seps + volume + rest);
            && (t == "vol." || t == "v." ==> AfterVolume(name, "volume").None?)
            && (t == "v." ==> AfterVolume(name, "vol.").None? && AfterVolume(name, "vol").None?)
            && (t == "vol" ==> AfterVolume(name, "volume").None? && AfterVolume(name, "vol.") in {None, Some(rest)})
  {
    if Lower(token) == "vol" {
      BareToken(token, seps, volume, rest);
    } else {
      assert token + seps + volume + rest == token + (seps + volume + rest);
      EarlierTokens(token, seps + volume + rest);
    }
  }

  /** A leading volume token, in any case, is dropped together with its number. */
  lemma VolumeIsDropped(token: string, seps: string, volume: string, rest: string)
    requires Lower(token) in TOKENS && Separators(seps)
    requires volume != [] && IsDigit(volume[0]) && DigitsAndDots(volume)
    requires rest != [] ==> !IsDigit(rest[0]) && rest[0] != '.'
    ensures FirstVolume(token + seps + volume + rest, TOKENS) == Some(rest)
  {
    VolumeTaken(Lower(token), token, seps, volume, rest);
    LaterToken(token, seps, volume, rest);
    TokenDecides(token + seps + volume + rest, Lower(token), rest);
  }

  /** A dot behind `vol` is read as part of the token, with the same outcome. */
  lemma DottedToken(token: string, seps: string, volume: string, rest: string)
    requires Lower(token) == "vol" && Separators(seps)
    requires volume != [] && IsDigit(volume[0]) && DigitsAndDots(volume)
    requires rest != [] ==> !IsDigit(rest[0]) && rest[0] != '.'
    requires (seps + volume + rest)[0] == '.'
    ensures AfterVolume(token + seps + volume + rest, "vol.") == Some(rest)
  {
    assert seps == "." + seps[1..];
    LowerAppend(token, ".");
    assert Lower(token + ".") == "vol.";
    assert token + seps + volume + rest == (token + ".") + seps[1..] + volume + rest;
    VolumeTaken("vol.", token + ".", seps[1..], volume, rest);
  }

  /** The number behind a volume token is the chapter's, not the volume's. */
  lemma NumberBehindVolumeIsRead(space: string, token: string, seps: string, volume: string, mid: string,
                                 whole: string, fraction: string, suffix: string)
    requires forall i | 0 <= i < |space| :: IsSpace(space[i])
    requires Lower(token) in TOKENS && Separators(seps)
    requires volume != [] && IsDigit(volume[0]) && DigitsAndDots(volume)
    requires mid != [] && mid[0] != '.' && DigitFree(mid)
    requires Numeral(whole, fraction) && Stops(fraction == [], suffix)
    ensures var name := space + token + seps + volume + mid + Decimal(whole, fraction) + suffix;
            NumberIn(StripVolumePrefix(name)) == ParseFloat(Decimal(whole, fraction))
  {
    var rest := mid + Decimal(whole, fraction) + suffix;
    SevenParts(space, token, seps, volume, mid, Decimal(whole, fraction), suffix);
    assert rest[0] == mid[0];
    StripsVolume(space, token, seps, volume, rest);
    FoundInText(mid, whole, fraction, suffix);
  }

  /** What is left of a name behind space, a volume token and its number. */
  lemma StripsVolume(space: string, token: string, seps: string, volume: string, rest: string)
    requires forall i | 0 <= i < |space| :: IsSpace(space[i])
    requires Lower(token) in TOKENS && Separators(seps)
    requires volume != [] && IsDigit(volume[0]) && DigitsAndDots(volume)
    requires rest != [] && !IsDigit(rest[0]) && rest[0] != '.'
    ensures StripVolumePrefix(space + (token + seps + volume + rest)) == rest
  {
    VolumeIsDropped(token, seps, volume, rest);
    SpaceIsDropped(space, token, seps + volume + rest);
    assert token + seps + volume + rest == token + (seps + volume + rest);
  }

  lemma SevenParts(a: string, b: string, c: string, d: string, e: string, f: string, g: string)
    ensures a + b + c + d + e + f + g == a + (b + c + d + (e + f + g))
  {
  }

  /** Space before a token is trimmed. */
  lemma SpaceIsDropped(space: string, token: string, behind: string)
    requires (forall i | 0 <= i < |space| :: IsSpace(space[i])) && Lower(token) in TOKENS
    ensures TrimStart(space + (token + behind)) == token + behind
  {
    var trimmed := token + behind;
    TokenBegins(token);
    assert trimmed[0] == token[0];
    TrimStartBefore(space, trimmed);
    AllSpace(space);
    assert [] + trimmed == trimmed;
  }

  lemma TokenBegins(token: string)
    requires Lower(token) in TOKENS
    ensures token != [] && !IsSpace(token[0])
  {
    assert |Lower(token)| > 0 && Lower(token)[0] == 'v';
    assert LowerChar(token[0]) == 'v';
  }

  lemma {:induction false} AllSpace(s: string)
    requires forall i | 0 <= i < |s| :: IsSpace(s[i])
    ensures TrimStart(s) == []
  {
    if s != [] { AllSpace(s[1..]); }
  }

  lemma RawWins(text: string, f: Float, name: Option<string>)
    requires Words(Some(text)) == Some(text) && ParseFloat(text) == Some(f) && IsSaneNumber(f)
    ensures ChapterDisplay(None, Some(text), name) == Numbered(f.v)
  {
  }

  lemma NameWins(name: string, f: Float)
    requires NumberIn(StripVolumePrefix(name)) == Some(f) && IsSaneNumber(f)
    ensures ChapterDisplay(None, None, Some(name)) == Numbered(f.v)
  {
  }

  lemma PrintedText(h: nat)
    requires h <= 500000
    ensures LabelText(Numbered(OfHundredths(h))) == FormatHundredths(h)
  {
    SaneHundredths(h);
    PrintedHundredths(OfHundredths(h));
    WholeHundredths(h);
  }

  /**
   * The printed label of every chapter number up to 5,000 is read back as that chapter from
   * the raw slot, whatever the name is.
   */
  lemma LabelReadsBack(h: nat, name: Option<string>)
    requires h <= 500000
    ensures ChapterDisplay(None, Some(LabelText(Numbered(OfHundredths(h)))), name) == Numbered(OfHundredths(h))
  {
    PrintedText(h);
    ParsesBack(h);
    PrintedValue(h);
    NumeralTight(Digits(h / 100), Fraction(h));
    RawWins(FormatHundredths(h), Finite(OfHundredths(h)), name);
  }

  /** It is read back out of a name, behind words that hold no digit and name no volume. */
  lemma LabelReadsBackFromName(prefix: string, h: nat, suffix: string)
    requires h <= 500000
    requires DigitFree(prefix) && !NamesVolume(prefix) && Stops(h % 100 == 0, suffix)
    ensures var name := prefix + LabelText(Numbered(OfHundredths(h))) + suffix;
            ChapterDisplay(None, None, Some(name)) == Numbered(OfHundredths(h))
  {
    PrintedText(h);
    ParsesBack(h);
    PrintedValue(h);
    EmbeddedNumberIsRead(prefix, Digits(h / 100), Fraction(h), suffix);
    NameWins(prefix + FormatHundredths(h) + suffix, Finite(OfHundredths(h)));
  }

  /** It is read back behind a volume and its number. */
  lemma LabelReadsBackBehindVolume(space: string, token: string, seps: string, volume: string, mid: string,
                                   h: nat, suffix: string)
    requires h <= 500000
    requires forall i | 0 <= i < |space| :: IsSpace(space[i])
    requires Lower(token) in TOKENS && Separators(seps)
    requires volume != [] && IsDigit(volume[0]) && DigitsAndDots(volume)
    requires mid != [] && mid[0] != '.' && DigitFree(mid) && Stops(h % 100 == 0, suffix)
    ensures var name := space + token + seps + volume + mid + LabelText(Numbered(OfHundredths(h))) + suffix;
            ChapterDisplay(None, None, Some(name)) == Numbered(OfHundredths(h))
  {
    PrintedText(h);
    ParsesBack(h);
    PrintedValue(h);
    NumberBehindVolumeIsRead(space, token, seps, volume, mid, Digits(h / 100), Fraction(h), suffix);
    NameWins(space + token + seps + volume + mid + FormatHundredths(h) + suffix, Finite(OfHundredths(h)));
  }

  lemma NumeralTight(whole: string, fraction: string)
    requires Numeral(whole, fraction)
    ensures Trim(Decimal(whole, fraction)) == Decimal(whole, fraction) != ""
  {
    var s := Decimal(whole, fraction);
    var last := s[|s| - 1];
    assert s[0] == whole[0] && (last == whole[|whole| - 1] || (fraction != [] && last == fraction[|fraction| - 1]));
    TrimTight(s);
  }

  // ---- grouping ------------------------------------------------------------------------------

  /** The number or identity a label is grouped by. */
  datatype Group = OfNumber(hundredths: int) | OfIdentity(identity: string)

  function GroupOf(l: Label, identity: string): Group {
    match l
    case Numbered(n) => OfNumber(Round(Times100(n)))
    case Unnumbered(_) => OfIdentity(identity)
  }

  /** Keys agree exactly for equal hundredths or equal identity, and never across the two kinds. */
  lemma KeysAgree(a: Label, idA: string, b: Label, idB: string)
    ensures Key(a, idA) == Key(b, idB) <==> GroupOf(a, idA) == GroupOf(b, idB)
  {
    if a.Numbered? && b.Numbered? {
      if Key(a, idA) == Key(b, idB) { IntTextInjective(Round(Times100(a.n)), Round(Times100(b.n))); }
    } else if a.Numbered? {
      assert Key(a, idA)[0] != 'x' && Key(b, idB)[0] == 'x';
    } else if b.Numbered? {
      assert Key(b, idB)[0] != 'x' && Key(a, idA)[0] == 'x';
    } else {
      assert Key(a, idA)[2..] == idA && Key(b, idB)[2..] == idB;
    }
  }

  /** A difference that rounds to next to nothing is next to nothing. */
  lemma NextToNone(off: real)
    requires -EPSILON < Double(off) < EPSILON
    ensures -EPSILON < off < EPSILON
  {
    EpsilonIsDouble();
    if off >= EPSILON { DoubleIsMonotone(EPSILON, off); }
    if -off >= EPSILON { DoubleIsMonotone(EPSILON, -off); }
  }

  lemma EpsilonIsDouble()
    ensures Double(EPSILON) == EPSILON
  {
    Powers();
    ScaledIs(1.0, 52);
    assert Unscaled(1 as real, 52) == EPSILON;
    DyadicIsDouble(1, 52);
  }

  /** A number prints as its rounded hundredths: halves to even, as two decimals do. */
  lemma PrintedHundredths(n: real)
    requires n >= 0.0
    ensures RoundHalfEven(n * 100.0) >= 0 && FormatNumber(n) == FormatHundredths(RoundHalfEven(n * 100.0))
  {
    var whole := Round(n);
    if -EPSILON < Double(n - whole as real) < EPSILON {
      NextToNone(n - whole as real);
      NextToInteger(n * 100.0, whole * 100);
      assert whole * 100 / 100 == whole && Fraction(whole * 100) == [];
    }
  }

  lemma NextToInteger(x: real, i: int)
    requires -0.5 < x - i as real < 0.5
    ensures RoundHalfEven(x) == i == Round(x)
  {
    assert x.Floor == if x < i as real then i - 1 else i;
  }

  /** The product of a sane number is within 2^-35 of the exact one. */
  const PRODUCT_ERROR := 1.0 / 34359738368.0

  lemma ProductError(n: real)
    requires 0.0 <= n <= SANE_MAX_CHAPTER + 1.0
    ensures -PRODUCT_ERROR <= Times100(n) - n * 100.0 <= PRODUCT_ERROR
  {
    Powers();
    DoubleErrorIs(n * 100.0, 34, 17179869184.0);
  }

  /** The double of a number of hundredths is so near that neither it nor its product is close to a half. */
  lemma HundredthsError(h: nat)
    requires h <= 500000
    ensures -0.1 < OfHundredths(h) * 100.0 - h as real < 0.1
  {
    Powers();
    DoubleErrorIs(Exactly(h), 40, 1099511627776.0);
  }

  /** The double that stands for a number of hundredths rounds to it in both ways. */
  lemma WholeHundredths(h: nat)
    requires h <= 500000
    ensures Round(Times100(OfHundredths(h))) == h == RoundHalfEven(OfHundredths(h) * 100.0)
  {
    var n := OfHundredths(h);
    SaneHundredths(h);
    HundredthsError(h);
    ProductError(n);
    NextToInteger(n * 100.0, h);
    NextToInteger(Times100(n), h);
  }

  /** A number halfway between two hundredths of which the lower is even. */
  predicate EvenTie(n: real) { n * 100.0 - (n * 100.0).Floor as real == 0.5 && (n * 100.0).Floor % 2 == 0 }

  /** A number below the half of two hundredths whose product is rounded up to that half. */
  predicate RaisedToTie(n: real) { n * 100.0 < Times100(n) == Times100(n).Floor as real + 0.5 }

  /** How many hundredths below its key a number prints. */
  function Shift(n: real): int { if EvenTie(n) || RaisedToTie(n) then 1 else 0 }

  /** A number whose hundredths have a fraction: every one up to 45 million million. */
  predicate HasHundredths(n: real) { n >= 0.0 && n * 100.0 < TWO52 }

  /** Rounding the product crosses no half: it ends between the same two halves, or on one of them. */
  lemma ProductStaysBetween(n: real)
    requires HasHundredths(n)
    ensures var (x, f, p) := (n * 100.0, (n * 100.0).Floor as real, Times100(n));
            && f <= p <= f + 1.0
            && (x <= f + 0.5 ==> p <= f + 0.5)
            && (x >= f + 0.5 ==> p >= f + 0.5)
  {
    var x := n * 100.0;
    var f: nat := x.Floor;
    assert (2 * f + 1) as real / 2.0 == f as real + 0.5;
    assert (2 * f) as real / 2.0 == f as real && (2 * f + 2) as real / 2.0 == f as real + 1.0;
    HalvesAreDoubles(2 * f);
    HalvesAreDoubles(2 * f + 1);
    DyadicIsDouble(f + 1, 0);
    DoubleIsMonotone(f as real, x);
    DoubleIsMonotone(x, f as real + 1.0);
    if x <= f as real + 0.5 { DoubleIsMonotone(x, f as real + 0.5); }
    if x >= f as real + 0.5 { DoubleIsMonotone(f as real + 0.5, x); }
  }

  /** The key's rounding of the rounded product and the printer's of the exact one differ exactly on such numbers. */
  lemma RoundingsDiffer(n: real)
    requires HasHundredths(n)
    ensures RoundHalfEven(n * 100.0) == Round(Times100(n)) - Shift(n)
  {
    ProductStaysBetween(n);
    var f := (n * 100.0).Floor;
    RoundedBetween(Times100(n), f);
    RoundedEven(n * 100.0);
  }

  lemma RoundedBetween(p: real, f: nat)
    requires f as real <= p <= f as real + 1.0
    ensures Round(p) == if p >= f as real + 0.5 then f + 1 else f
    ensures p == p.Floor as real + 0.5 <==> p == f as real + 0.5
  {
    FloorIs(p, if p < f as real + 1.0 then f else f + 1);
    FloorIs(p + 0.5, if p >= f as real + 0.5 then f + 1 else f);
  }

  lemma FloorIs(x: real, i: int)
    requires i as real <= x < i as real + 1.0
    ensures x.Floor == i
  {
  }

  lemma RoundedEven(x: real)
    ensures var f := x.Floor;
            RoundHalfEven(x) == if x > f as real + 0.5 || (x == f as real + 0.5 && f % 2 == 1) then f + 1 else f
  {
  }

  /**
   * The printed text is that of the key's hundredths exactly when the number is no tie above an even
   * hundredth and its product is not rounded up to a tie.
   */
  lemma TextIsOfKeyUnlessTie(n: real)
    requires HasHundredths(n)
    ensures Round(Times100(n)) >= 0
    ensures LabelText(Numbered(n)) == FormatHundredths(Round(Times100(n))) <==> !EvenTie(n) && !RaisedToTie(n)
  {
    PrintedHundredths(n);
    RoundingsDiffer(n);
    var (h, k) := (RoundHalfEven(n * 100.0), Round(Times100(n)));
    if FormatHundredths(h) == FormatHundredths(k) { FormatInjective(h, k); }
  }

  /** A number whose hundredths are farther from every half than a product is off. */
  predicate AwayFromHalves(n: real) {
    var x := n * 100.0;
    Distance(x, x.Floor as real + 0.5) > PRODUCT_ERROR
  }

  /** A sane number that is away from the halves, whole hundredths among them, prints the hundredths it is keyed on. */
  lemma TextIsOfKeyAwayFromHalves(n: real)
    requires IsSaneNumber(Finite(n)) && AwayFromHalves(n)
    ensures Round(Times100(n)) >= 0 && LabelText(Numbered(n)) == FormatHundredths(Round(Times100(n)))
  {
    ProductError(n);
    ProductStaysBetween(n);
    RoundedBetween(Times100(n), (n * 100.0).Floor);
    TextIsOfKeyUnlessTie(n);
  }

  lemma WholeHundredthsAreAway(h: nat)
    requires h <= 500000
    ensures IsSaneNumber(Finite(OfHundredths(h))) && AwayFromHalves(OfHundredths(h)) && Shift(OfHundredths(h)) == 0
  {
    SaneHundredths(h);
    HundredthsError(h);
    RoundingsDiffer(OfHundredths(h));
    WholeHundredths(h);
  }

  /**
   * Two numbered chapters print alike exactly when their keys agree, each counted one lower where a
   * tie or a rounded product makes it: so when neither number is such, exactly when they are one row.
   */
  lemma PrintedAlikeIffGrouped(m: real, n: real, idM: string, idN: string)
    requires HasHundredths(m) && HasHundredths(n)
    ensures LabelText(Numbered(m)) == LabelText(Numbered(n))
       <==> Round(Times100(m)) - Shift(m) == Round(Times100(n)) - Shift(n)
    ensures Shift(m) == Shift(n) ==>
              (LabelText(Numbered(m)) == LabelText(Numbered(n)) <==> Key(Numbered(m), idM) == Key(Numbered(n), idN))
    ensures Shift(m) != Shift(n) ==>
              !(LabelText(Numbered(m)) == LabelText(Numbered(n)) && Key(Numbered(m), idM) == Key(Numbered(n), idN))
  {
    PrintedHundredths(m);
    PrintedHundredths(n);
    RoundingsDiffer(m);
    RoundingsDiffer(n);
    KeysAgree(Numbered(m), idM, Numbered(n), idN);
    var (h, k) := (RoundHalfEven(m * 100.0), RoundHalfEven(n * 100.0));
    if FormatHundredths(h) == FormatHundredths(k) { FormatInjective(h, k); }
  }

  /** The doubles of whole hundredths print alike, and are one row, exactly when they are one number of hundredths. */
  lemma HundredthsPrintedAlikeIffGrouped(h: nat, k: nat, idH: string, idK: string)
    requires h <= 500000 && k <= 500000
    ensures LabelText(Numbered(OfHundredths(h))) == LabelText(Numbered(OfHundredths(k))) <==> h == k
    ensures Key(Numbered(OfHundredths(h)), idH) == Key(Numbered(OfHundredths(k)), idK) <==> h == k
  {
    WholeHundredths(h);
    WholeHundredths(k);
    WholeHundredthsAreAway(h);
    WholeHundredthsAreAway(k);
    PrintedAlikeIffGrouped(OfHundredths(h), OfHundredths(k), idH, idK);
    KeysAgree(Numbered(OfHundredths(h)), idH, Numbered(OfHundredths(k)), idK);
  }

  /** Every such number prints like the row below its own and not like its own. */
  lemma TiePrintsLikeAnotherRow(n: real, h: nat, idM: string, idN: string)
    requires IsSaneNumber(Finite(n)) && (EvenTie(n) || RaisedToTie(n)) && h == (n * 100.0).Floor
    ensures h < 500000
    ensures var below := OfHundredths(h);
            && LabelText(Numbered(n)) == LabelText(Numbered(below))
            && Key(Numbered(n), idM) != Key(Numbered(below), idN)
    ensures var above := OfHundredths(h + 1);
            && LabelText(Numbered(n)) != LabelText(Numbered(above))
            && Key(Numbered(n), idM) == Key(Numbered(above), idN)
  {
    TieIsBelow5000(n, h);
    ProductStaysBetween(n);
    RoundedBetween(Times100(n), h);
    RoundedEven(n * 100.0);
    assert Round(Times100(n)) == h + 1;
    PrintedByHundredths(n, h, idM, idN);
    PrintedByHundredths(n, h + 1, idM, idN);
  }

  lemma TieIsBelow5000(n: real, h: nat)
    requires IsSaneNumber(Finite(n)) && (EvenTie(n) || RaisedToTie(n)) && h == (n * 100.0).Floor
    ensures h < 500000
  {
    DyadicIsDouble(500000, 0);
  }

  /** A number against the row of some hundredths. */
  lemma PrintedByHundredths(n: real, h: nat, idM: string, idN: string)
    requires HasHundredths(n) && h <= 500000
    ensures LabelText(Numbered(n)) == LabelText(Numbered(OfHundredths(h))) <==> Round(Times100(n)) - Shift(n) == h
    ensures Key(Numbered(n), idM) == Key(Numbered(OfHundredths(h)), idN) <==> Round(Times100(n)) == h
  {
    WholeHundredths(h);
    WholeHundredthsAreAway(h);
    PrintedAlikeIffGrouped(n, OfHundredths(h), idM, idN);
    KeysAgree(Numbered(n), idM, Numbered(OfHundredths(h)), idN);
  }

  /** 10.125 prints like 10.12 and is grouped with 10.13. */
  lemma TieOfTenAndAnEighth(idM: string, idN: string)
    ensures Double(10.125) == 10.125 && EvenTie(10.125)
    ensures LabelText(Numbered(10.125)) == LabelText(Numbered(Double(10.12)))
    ensures Key(Numbered(10.125), idM) != Key(Numbered(Double(10.12)), idN)
    ensures Key(Numbered(10.125), idM) == Key(Numbered(Double(10.13)), idN)
  {
    assert Power(3) == 8;
    ScaledIs(81.0, 3);
    assert Unscaled(81 as real, 3) == 10.125;
    DyadicIsDouble(81, 3);
    assert (10.125 * 100.0).Floor == 1012;
    TiePrintsLikeAnotherRow(10.125, 1012, idM, idN);
  }

  /** The double that 2.675 is read as: a little less than that. */
  const READ_AS := 2.67499999999999982236431605997495353221893310546875

  lemma TwoDigits(a: char, b: char)
    requires IsDigit(a) && IsDigit(b)
    ensures AllDigits([a, b]) && Value([a, b]) == DigitValue(a) * 10 + DigitValue(b)
  {
    var one: string := [a];
    assert one[..0] == [] && one + [b] == [a, b];
    assert Value(one) == DigitValue(a);
    ValueGrows(one, b);
  }

  lemma FourDigits(a: char, b: char, c: char, d: char)
    requires IsDigit(a) && IsDigit(b) && IsDigit(c) && IsDigit(d)
    ensures AllDigits([a, b, c, d])
    ensures Value([a, b, c, d]) == DigitValue(a) * 1000 + DigitValue(b) * 100 + DigitValue(c) * 10 + DigitValue(d)
  {
    TwoDigits(a, b);
    assert [a, b] + [c] == [a, b, c] && [a, b, c] + [d] == [a, b, c, d];
    ValueGrows([a, b], c);
    ValueGrows([a, b, c], d);
  }

  lemma ThreePlaces(m: nat)
    ensures Scale(m as real, -3) == m as real / 1000.0
  {
    var (a, b) := (m as real / 10.0, m as real / 100.0);
    assert Scale(m as real, -3) == Scale(a, -2) == Scale(b, -1) == Scale(b / 10.0, 0);
  }

  lemma ThousandthsParse()
    ensures ParseFloat("2.675") == Some(Finite(Double(2.675)))
  {
    var (whole, fraction) := ("2", "675");
    assert Decimal(whole, fraction) == "2.675" && whole + fraction == "2675";
    NumeralParses(whole, fraction);
    FourDigits('2', '6', '7', '5');
    assert "2675" == ['2', '6', '7', '5'];
    ThreePlaces(2675);
    assert ParseNumber("2.675") == Some(2.675);
    NumeralIsNoWord("2.675");
    SaneIsReadSane(2.675);
  }

  lemma ReadAs()
    ensures Double(2.675) == READ_AS
  {
    Powers();
    ScaledIs(2.675, 51);
    DoubleIs(2.675, 51);
    NextToInteger(2.675 * 2251799813685248.0, 6023564501608038);
    ScaledIs(6023564501608038.0, 51);
  }

  lemma ProductOfReadAs()
    ensures Times100(READ_AS) == 267.5
  {
    Powers();
    var x := READ_AS * 100.0;
    ScaledIs(x, 44);
    DoubleIs(x, 44);
    NextToInteger(x * 17592186044416.0, 4705909766881280);
    ScaledIs(4705909766881280.0, 44);
  }

  /** 2.675 is no tie, and it prints like 2.67 and is grouped with 2.68 all the same: its product is rounded up to 267.5. */
  lemma RaisedTwoPointSixSevenFive(idM: string, idN: string)
    ensures ParseFloat("2.675") == Some(Finite(Double(2.675)))
    ensures RaisedToTie(Double(2.675)) && !EvenTie(Double(2.675))
    ensures LabelText(Numbered(Double(2.675))) == LabelText(Numbered(Double(2.67)))
    ensures Key(Numbered(Double(2.675)), idM) != Key(Numbered(Double(2.67)), idN)
    ensures Key(Numbered(Double(2.675)), idM) == Key(Numbered(Double(2.68)), idN)
  {
    ThousandthsParse();
    ReadAs();
    ProductOfReadAs();
    assert (READ_AS * 100.0).Floor == 267 && (267.5).Floor == 267;
    TiePrintsLikeAnotherRow(READ_AS, 267, idM, idN);
  }

  lemma FormatInjective(h: nat, k: nat)
    requires FormatHundredths(h) == FormatHundredths(k)
    ensures h == k
  {
    PrintedParses(h);
    PrintedParses(k);
  }

  // ---- insane numbers ------------------------------------------------------------------------

  lemma LadderShows(number: Option<Float>, raw: Option<string>, fromRaw: Option<Float>,
                    name: Option<string>, fromName: Option<Float>)
    ensures var l := Resolve(number, raw, fromRaw, name, fromName);
            match l
            case Numbered(n) => 0.0 <= n <= SANE_MAX_CHAPTER
            case Unnumbered(words) =>
              if raw.Some? && fromRaw.None? then raw == Some(words)
              else if name.Some? then name == Some(words) else words == "Oneshot"
  {
  }

  /**
   * A number shown is always a sane one, and the words shown come from the raw slot exactly
   * when it holds words that are no number; a name, in its turn, is printed as it stands.
   */
  lemma OnlySaneNumbersShown(number: Option<Float>, raw: Option<string>, name: Option<string>)
    ensures match ChapterDisplay(number, raw, name)
            case Numbered(n) => 0.0 <= n <= SANE_MAX_CHAPTER
            case Unnumbered(words) =>
              if Words(raw).Some? && ParseFloat(Words(raw).value).None? then Words(raw) == Some(words)
              else if Words(name).Some? then Words(name) == Some(words) else words == "Oneshot"
  {
    LadderShows(number,
                Words(raw), if Words(raw).Some? then ParseFloat(Words(raw).value) else None,
                Words(name), if name.Some? then NumberIn(StripVolumePrefix(name.value)) else None);
  }

  /** The source's number comes before the raw text and the raw text before the name, each where it is a sane number. */
  lemma FirstSaneNumberIsShown(number: Option<Float>, raw: Option<string>, name: Option<string>)
    ensures var (fromRaw, fromName) := (if Words(raw).Some? then ParseFloat(Words(raw).value) else None,
                                        if name.Some? then NumberIn(StripVolumePrefix(name.value)) else None);
            var l := ChapterDisplay(number, raw, name);
            && (Sane(number).Some? ==> l == Numbered(number.value.v))
            && (Sane(number).None? && Sane(fromRaw).Some? ==> l == Numbered(fromRaw.value.v))
            && (Sane(number).None? && Sane(fromRaw).None? && Sane(fromName).Some? ==> l == Numbered(fromName.value.v))
            && (Sane(number).None? && Sane(fromRaw).None? && Sane(fromName).None? ==> l.Unnumbered?)
  {
  }

  /** A label that is itself a number, although no number was found sane enough to be one. */
  predicate PrintsInsane(l: Label) {
    l.Unnumbered? && ParseFloat(l.raw).Some?
  }

  /** Whether a slot holds a number that may be shown. */
  predicate SomeSane(number: Option<Float>, raw: Option<string>, name: Option<string>) {
    || Sane(number).Some?
    || (Words(raw).Some? && Sane(ParseFloat(Words(raw).value)).Some?)
    || (name.Some? && Sane(NumberIn(StripVolumePrefix(name.value))).Some?)
  }

  /**
   * A number is printed as words exactly when no slot holds a sane one, the raw slot holds no
   * words that are not a number, and the name, trimmed, is a number.
   */
  lemma InsanePrintedIff(number: Option<Float>, raw: Option<string>, name: Option<string>)
    ensures PrintsInsane(ChapterDisplay(number, raw, name)) <==>
            && !SomeSane(number, raw, name)
            && (Words(raw).Some? ==> ParseFloat(Words(raw).value).Some?)
            && Words(name).Some? && ParseFloat(Words(name).value).Some?
  {
    GenericIsNoNumber();
    LadderPrints(number,
                 Words(raw), if Words(raw).Some? then ParseFloat(Words(raw).value) else None,
                 Words(name), if name.Some? then NumberIn(StripVolumePrefix(name.value)) else None);
  }

  lemma GenericIsNoNumber()
    ensures ParseFloat("Oneshot").None?
  {
    assert Lower("Oneshot")[0] == 'o';
    assert DigitRun("Oneshot") == 0;
  }

  /** Which words the ladder ends on. */
  lemma LadderPrints(number: Option<Float>, raw: Option<string>, fromRaw: Option<Float>,
                     name: Option<string>, fromName: Option<Float>)
    ensures var sane := Sane(number).Some? || Sane(fromRaw).Some? || Sane(fromName).Some?;
            Resolve(number, raw, fromRaw, name, fromName).Unnumbered? <==> !sane
    ensures var l := Resolve(number, raw, fromRaw, name, fromName);
            l.Unnumbered? ==>
              l.raw == if raw.Some? && fromRaw.None? then raw.value else if name.Some? then name.value else "Oneshot"
  {
  }

  lemma InsaneNameWins(name: string, f: Float)
    requires NumberIn(StripVolumePrefix(name)) == Some(f) && !IsSaneNumber(f) && Words(Some(name)) == Some(name)
    ensures ChapterDisplay(None, None, Some(name)) == Unnumbered(name)
  {
  }

  /** A number above 5,000 used as a name is printed as it stands. */
  lemma InsaneNameIsPrinted(n: nat)
    requires n > 5000
    ensures ChapterDisplay(None, None, Some(Digits(n))) == Unnumbered(Digits(n))
  {
    WholeNameIsRead(n);
    WholeNameTight(n);
    DyadicIsDouble(5001, 0);
    DoubleIsMonotone(5001.0, n as real);
    InsaneNameWins(Digits(n), Nearest(n as real));
  }

  lemma WholeNameTight(n: nat)
    ensures Words(Some(Digits(n))) == Some(Digits(n))
  {
    NumeralTight(Digits(n), []);
  }

  lemma WholeNameIsRead(n: nat)
    ensures NumberIn(StripVolumePrefix(Digits(n))) == Some(Nearest(n as real))
  {
    var h := n * 100;
    assert h / 100 == n && Fraction(h) == [] && Exactly(h) == n as real;
    PrintedValue(h);
    ParsesBack(h);
    assert "" + Digits(n) + "" == Digits(n);
    EmbeddedNumberIsRead("", Digits(n), [], "");
  }
}
