/** What a chapter is called and how it is grouped: parser, printer and key. */
module ChapterLabels {
  import opened Wrappers
  import opened Text
  import opened Doubles

  /** A double; only finite ones are compared. */
  datatype Float = Finite(v: real) | NonFinite

  datatype Label = Numbered(n: real) | Unnumbered(raw: string)

  const SANE_MAX_CHAPTER := 5000.0

  predicate IsSaneNumber(f: Float) {
    f.Finite? && 0.0 <= f.v <= SANE_MAX_CHAPTER
  }

  // ---- parsing a number ------------------------------------------------------------------

  function LowerChar(c: char): char {
    if 'A' <= c <= 'Z' then (c as int + 32) as char else c
  }

  function Lower(s: string): string {
    seq(|s|, i requires 0 <= i < |s| => LowerChar(s[i]))
  }

  /** Length of the run of digits a text begins with. */
  function DigitRun(s: string): (n: nat)
    ensures n <= |s| && AllDigits(s[..n]) && (n < |s| ==> !IsDigit(s[n]))
  {
    if s == [] || !IsDigit(s[0]) then 0
    else
      var n := 1 + DigitRun(s[1..]);
      assert s[..n] == [s[0]] + s[1..][..n - 1];
      n
  }

  /** A number times a power of ten. */
  function Scale(m: real, e: int): real
    decreases if e < 0 then -e else e
  {
    if e == 0 then m else if e > 0 then Scale(m * 10.0, e - 1) else Scale(m / 10.0, e + 1)
  }

  predicate StartsWith(s: string, p: string) { |p| <= |s| && s[..|p|] == p }

  /** The exponent part of a number: absent, or `e`, a sign and digits to the end. */
  function Exponent(s: string): Option<int> {
    if s == [] then Some(0)
    else if s[0] != 'e' && s[0] != 'E' then None
    else
      var signed := |s| > 1 && (s[1] == '-' || s[1] == '+');
      var digits := s[if signed then 2 else 1..];
      if digits == [] || !AllDigits(digits) then None
      else Some(if signed && s[1] == '-' then -(Value(digits) as int) else Value(digits))
  }

  /** An unsigned decimal number. */
  function ParseNumber(s: string): Option<real> {
    var whole := s[..DigitRun(s)];
    var rest := s[|whole|..];
    var dotted := rest != [] && rest[0] == '.';
    var tail := if dotted then rest[1..] else rest;
    var part := if dotted then tail[..DigitRun(tail)] else [];
    var exponent := Exponent(tail[|part|..]);
    if whole + part == [] || exponent.None? then None
    else
      assert AllDigits(whole + part);
      Some(Scale(Value(whole + part) as real, exponent.value - |part|))
  }

  /** The double a decimal number is read as: the nearest one, or infinity beyond the largest. */
  function Nearest(v: real): Float {
    if Overflows(v) then NonFinite else Finite(Double(v))
  }

  /** What parsing a text as a floating point number gives. */
  function ParseFloat(s: string): Option<Float> {
    var signed := s != [] && (s[0] == '-' || s[0] == '+');
    var body := if signed then s[1..] else s;
    if Lower(body) == "inf" || Lower(body) == "infinity" || Lower(body) == "nan" then Some(NonFinite)
    else
      var v := ParseNumber(body);
      if v.None? then None else Some(Nearest(if signed && s[0] == '-' then -v.value else v.value))
  }

  // ---- the number inside a name ----------------------------------------------------------

  predicate IsSeparator(c: char) { c == ' ' || c == '.' || c == '#' || c == ':' || c == '-' }

  function TrimSeparators(s: string): (r: string)
    ensures |r| <= |s| && s[|s| - |r|..] == r && (r != [] ==> !IsSeparator(r[0]))
    ensures forall i | 0 <= i < |s| - |r| :: IsSeparator(s[i])
  {
    if s != [] && IsSeparator(s[0]) then TrimSeparators(s[1..]) else s
  }

  function TrimNumber(s: string): string {
    if s != [] && (IsDigit(s[0]) || s[0] == '.') then TrimNumber(s[1..]) else s
  }

  const TOKENS: seq<string> := ["volume", "vol.", "vol", "v."]

  /** The rest of the name after one volume token and its number, if the name begins with them. */
  function AfterVolume(trimmed: string, token: string): Option<string> {
    var lower := Lower(trimmed);
    if !StartsWith(lower, token) then None
    else
      var skipped := TrimSeparators(lower[|token|..]);
      if skipped == [] || !IsDigit(skipped[0]) then None
      else Some(TrimNumber(trimmed[|trimmed| - |skipped|..]))
  }

  function FirstVolume(trimmed: string, tokens: seq<string>): Option<string> {
    if tokens == [] then None
    else if AfterVolume(trimmed, tokens[0]).Some? then AfterVolume(trimmed, tokens[0])
    else FirstVolume(trimmed, tokens[1..])
  }

  /** Drop a leading volume token and its number. */
  function StripVolumePrefix(name: string): string {
    var after := FirstVolume(TrimStart(name), TOKENS);
    if after.Some? then after.value else TrimStart(name)
  }

  function FirstDigit(s: string): (n: nat)
    ensures n <= |s| && (forall i | 0 <= i < n :: !IsDigit(s[i])) && (n < |s| ==> IsDigit(s[n]))
  {
    if s == [] || IsDigit(s[0]) then 0 else 1 + FirstDigit(s[1..])
  }

  /** Where the number that has reached `end` stops: a dot continues it once, before a digit. */
  function NumberEnd(s: string, end: nat, seenDot: bool): (n: nat)
    requires end <= |s|
    ensures end <= n <= |s|
    decreases |s| - end
  {
    if end == |s| then end
    else if IsDigit(s[end]) then NumberEnd(s, end + 1, seenDot)
    else if s[end] == '.' && !seenDot && end + 1 < |s| && IsDigit(s[end + 1]) then NumberEnd(s, end + 1, true)
    else end
  }

  function NumberIn(s: string): Option<Float> {
    var start := FirstDigit(s);
    if start == |s| then None else ParseFloat(s[start..NumberEnd(s, start, false)])
  }

  method FirstNumber(name: string) returns (r: Option<Float>)
    ensures r == NumberIn(StripVolumePrefix(name))
  {
    var cleaned := StripVolumePrefix(name);
    var start := FirstDigit(cleaned);
    if start == |cleaned| { return None; }
    var end, seenDot := start, false;
    while end < |cleaned|
      invariant start <= end <= |cleaned|
      invariant NumberEnd(cleaned, end, seenDot) == NumberEnd(cleaned, start, false)
    {
      if IsDigit(cleaned[end]) {
        end := end + 1;
      } else if cleaned[end] == '.' && !seenDot && end + 1 < |cleaned| && IsDigit(cleaned[end + 1]) {
        seenDot := true;
        end := end + 1;
      } else {
        break;
      }
    }
    r := ParseFloat(cleaned[start..end]);
  }

  // ---- the label -------------------------------------------------------------------------

  function Sane(f: Option<Float>): Option<Float> {
    if f.Some? && IsSaneNumber(f.value) then f else None
  }

  /** A slot's text once trimmed, if any is left. */
  function Words(s: Option<string>): Option<string> {
    if s.Some? && Trim(s.value) != "" then Some(Trim(s.value)) else None
  }

  /** The ladder from the source's number to a generic label. */
  function Resolve(number: Option<Float>, raw: Option<string>, fromRaw: Option<Float>,
                   name: Option<string>, fromName: Option<Float>): Label
  {
    if Sane(number).Some? then Numbered(number.value.v)
    else if Sane(fromRaw).Some? then Numbered(fromRaw.value.v)
    else if Sane(fromName).Some? then Numbered(fromName.value.v)
    else if raw.Some? && fromRaw.None? then Unnumbered(raw.value)
    else if name.Some? then Unnumbered(name.value)
    else Unnumbered("Oneshot")
  }

  function ChapterDisplay(number: Option<Float>, raw: Option<string>, name: Option<string>): Label {
    Resolve(number,
            Words(raw), if Words(raw).Some? then ParseFloat(Words(raw).value) else None,
            Words(name), if name.Some? then NumberIn(StripVolumePrefix(name.value)) else None)
  }

  // ---- printing and grouping -------------------------------------------------------------

  /** The nearest integer, halves away from zero. */
  function Round(x: real): int {
    if x >= 0.0 then (x + 0.5).Floor else -((0.5 - x).Floor)
  }

  /** A numeral with or without a fraction. */
  function Decimal(whole: string, fraction: string): string {
    if fraction == [] then whole else whole + "." + fraction
  }

  /** The hundredths of a number, without trailing zeros. */
  function Fraction(h: nat): (f: string)
    ensures AllDigits(f) && |f| <= 2 && (f == [] <==> h % 100 == 0)
  {
    if h % 100 == 0 then []
    else if h % 10 == 0 then [DigitChar(h / 10 % 10)]
    else [DigitChar(h / 10 % 10), DigitChar(h % 10)]
  }

  function FormatHundredths(h: nat): string { Decimal(Digits(h / 100), Fraction(h)) }

  /** The product a number is keyed on, itself rounded to a double. */
  function Times100(n: real): real { Double(n * 100.0) }

  const EPSILON := 1.0 / 4503599627370496.0

  /** Two decimals with halves to even, and no zeros at the end; a number next to an integer prints as that integer. */
  function FormatNumber(n: real): string {
    var whole := Round(n);
    var off := Double(n - whole as real);
    if -EPSILON < off < EPSILON then IntText(whole)
    else if n < 0.0 then "-" + FormatHundredths(RoundHalfEven(-n * 100.0))
    else FormatHundredths(RoundHalfEven(n * 100.0))
  }

  function LabelText(l: Label): string {
    match l
    case Unnumbered(raw) => raw
    case Numbered(n) => FormatNumber(n)
  }

  function Key(l: Label, identity: string): string {
    match l
    case Numbered(n) => IntText(Round(Times100(n)))
    case Unnumbered(_) => "x:" + identity
  }

  /** The double that stands for a number of hundredths. */
  function OfHundredths(h: nat): real { Double(h as real / 100.0) }
}
