/** Times as text, in the format of section 5.6 of RFC 3339: comparing the texts compares the times. */
module StampText {
  import opened Ordering
  import opened Text

  /** A UTC time, broken down; the fraction is three groups of three digits, down to nanoseconds. */
  datatype Stamp = Stamp(year: nat, month: nat, day: nat, hour: nat, minute: nat, second: nat,
                         millis: nat, micros: nat, nanos: nat)

  predicate Valid(s: Stamp) {
    && s.year < 10_000 && s.month < 100 && s.day < 100 && s.hour < 100 && s.minute < 100 && s.second < 100
    && s.millis < 1000 && s.micros < 1000 && s.nanos < 1000
  }

  /** A number in a fixed number of digits. */
  function Fixed(n: nat, width: nat): (s: string)
    ensures |s| == width && AllDigits(s)
  {
    if width == 0 then [] else Fixed(n / 10, width - 1) + [DigitChar(n % 10)]
  }

  function Power(width: nat): nat { if width == 0 then 1 else 10 * Power(width - 1) }

  const ZONE := "+00:00"

  /** The nanoseconds and the offset, or the offset alone. */
  function Nanos(nanos: nat): string { if nanos == 0 then ZONE else Fixed(nanos, 3) + ZONE }

  /** The fraction and the offset: groups that are all zero to the end are left out. */
  function Micros(micros: nat, nanos: nat): string {
    if micros == 0 && nanos == 0 then ZONE else Fixed(micros, 3) + Nanos(nanos)
  }

  function Fraction(s: Stamp): string {
    if s.millis == 0 && s.micros == 0 && s.nanos == 0 then ZONE else "." + (Fixed(s.millis, 3) + Micros(s.micros, s.nanos))
  }

  /** `hour:minute:second`, fraction, offset. */
  function Clock(s: Stamp): string {
    Fixed(s.hour, 2) + (":" + (Fixed(s.minute, 2) + (":" + (Fixed(s.second, 2) + Fraction(s)))))
  }

  /** `month-dayT` and the clock. */
  function MonthDay(s: Stamp): string { Fixed(s.month, 2) + ("-" + (Fixed(s.day, 2) + ("T" + Clock(s)))) }

  function ToRfc3339(s: Stamp): string { Fixed(s.year, 4) + ("-" + MonthDay(s)) }

  /** One time before another, by its parts from the year down. */
  predicate Before(a: seq<nat>, b: seq<nat>)
    requires |a| == |b|
  {
    a != [] && (a[0] < b[0] || (a[0] == b[0] && Before(a[1..], b[1..])))
  }

  function Finer(s: Stamp): seq<nat> { [s.millis, s.micros, s.nanos] }

  function ClockParts(s: Stamp): seq<nat> { [s.hour] + ([s.minute] + ([s.second] + Finer(s))) }

  function DayParts(s: Stamp): seq<nat> { [s.month] + ([s.day] + ClockParts(s)) }

  function Parts(s: Stamp): seq<nat> { [s.year] + DayParts(s) }

  // ---- text order, piece by piece ----------------------------------------------------------

  lemma {:induction false} LessAppend(a: string, x: string, b: string, y: string)
    requires |a| == |b|
    ensures Less(a + x, b + y) <==> Less(a, b) || (a == b && Less(x, y))
  {
    if a == [] {
      assert a + x == x && b + y == y;
    } else {
      assert (a + x)[1..] == a[1..] + x && (b + y)[1..] == b[1..] + y;
      LessAppend(a[1..], x, b[1..], y);
      assert a == [a[0]] + a[1..] && b == [b[0]] + b[1..];
    }
  }

  lemma {:induction false} FixedOrder(m: nat, n: nat, width: nat)
    requires m < Power(width) && n < Power(width)
    ensures Less(Fixed(m, width), Fixed(n, width)) <==> m < n
    ensures Fixed(m, width) == Fixed(n, width) <==> m == n
  {
    if width > 0 {
      FixedOrder(m / 10, n / 10, width - 1);
      LessAppend(Fixed(m / 10, width - 1), [DigitChar(m % 10)], Fixed(n / 10, width - 1), [DigitChar(n % 10)]);
      var (a, b) := (Fixed(m, width), Fixed(n, width));
      assert a[..width - 1] == Fixed(m / 10, width - 1) && b[..width - 1] == Fixed(n / 10, width - 1);
      assert a[width - 1] == DigitChar(m % 10) && b[width - 1] == DigitChar(n % 10);
      assert Less([DigitChar(m % 10)], [DigitChar(n % 10)]) <==> m % 10 < n % 10;
    }
  }

  /** A field and what follows it. */
  lemma FieldOrder(m: nat, x: string, n: nat, y: string, width: nat)
    requires m < Power(width) && n < Power(width)
    ensures Less(Fixed(m, width) + x, Fixed(n, width) + y) <==> m < n || (m == n && Less(x, y))
  {
    FixedOrder(m, n, width);
    LessAppend(Fixed(m, width), x, Fixed(n, width), y);
  }

  lemma SeparatorOrder(c: string, x: string, y: string)
    ensures Less(c + x, c + y) <==> Less(x, y)
  {
    LessAppend(c, x, c, y);
    LessTotal(c, c);
  }

  lemma Powers()
    ensures Power(2) == 100 && Power(3) == 1000 && Power(4) == 10_000
  {
    assert Power(0) == 1 && Power(1) == 10;
  }

  /** The offset's sign comes before every digit and before the dot. */
  lemma ZoneFirst(x: string)
    requires x != [] && (IsDigit(x[0]) || x[0] == '.')
    ensures Less(ZONE, x) && !Less(x, ZONE)
  {
    Asymmetric(ZONE, x);
  }

  lemma NanosOrder(m: nat, n: nat)
    requires m < 1000 && n < 1000
    ensures Less(Nanos(m), Nanos(n)) <==> m < n
  {
    Powers();
    LessTotal(ZONE, ZONE);
    if m == 0 && n > 0 {
      ZoneFirst(Fixed(n, 3) + ZONE);
    } else if m > 0 && n == 0 {
      ZoneFirst(Fixed(m, 3) + ZONE);
    } else if m > 0 {
      FieldOrder(m, ZONE, n, ZONE, 3);
    }
  }

  lemma PairOrder(a: nat, b: nat, c: nat, d: nat)
    ensures Before([a, b], [c, d]) <==> a < c || (a == c && b < d)
  {
    assert [a, b][1..] == [b] && [c, d][1..] == [d];
    assert Before([b], [d]) <==> b < d;
  }

  lemma MicrosOrder(a: Stamp, b: Stamp)
    requires Valid(a) && Valid(b)
    ensures Less(Micros(a.micros, a.nanos), Micros(b.micros, b.nanos)) <==> Before([a.micros, a.nanos], [b.micros, b.nanos])
  {
    var x, y := Fixed(a.micros, 3) + Nanos(a.nanos), Fixed(b.micros, 3) + Nanos(b.nanos);
    Powers();
    LessTotal(ZONE, ZONE);
    NanosOrder(a.nanos, b.nanos);
    FieldOrder(a.micros, Nanos(a.nanos), b.micros, Nanos(b.nanos), 3);
    ZoneFirst(x);
    ZoneFirst(y);
    PairOrder(a.micros, a.nanos, b.micros, b.nanos);
  }

  lemma FractionOrder(a: Stamp, b: Stamp)
    requires Valid(a) && Valid(b)
    ensures Less(Fraction(a), Fraction(b)) <==> Before(Finer(a), Finer(b))
  {
    var (x, y) := (Fixed(a.millis, 3) + Micros(a.micros, a.nanos), Fixed(b.millis, 3) + Micros(b.micros, b.nanos));
    Powers();
    LessTotal(ZONE, ZONE);
    MicrosOrder(a, b);
    FieldOrder(a.millis, Micros(a.micros, a.nanos), b.millis, Micros(b.micros, b.nanos), 3);
    SeparatorOrder(".", x, y);
    ZoneFirst("." + x);
    ZoneFirst("." + y);
    assert Finer(a)[1..] == [a.micros, a.nanos] && Finer(b)[1..] == [b.micros, b.nanos];
    PairOrder(a.micros, a.nanos, b.micros, b.nanos);
  }

  lemma BeforeCons(m: nat, p: seq<nat>, n: nat, q: seq<nat>)
    requires |p| == |q|
    ensures Before([m] + p, [n] + q) <==> m < n || (m == n && Before(p, q))
  {
    assert ([m] + p)[1..] == p && ([n] + q)[1..] == q;
  }

  /** A field, its separator and the rest agree with the parts if the rest does. */
  lemma PartOrder(m: nat, x: string, p: seq<nat>, n: nat, y: string, q: seq<nat>, width: nat, c: string)
    requires m < Power(width) && n < Power(width) && |p| == |q|
    requires Less(x, y) <==> Before(p, q)
    ensures Less(Fixed(m, width) + (c + x), Fixed(n, width) + (c + y)) <==> Before([m] + p, [n] + q)
  {
    FieldOrder(m, c + x, n, c + y, width);
    SeparatorOrder(c, x, y);
    BeforeCons(m, p, n, q);
  }

  lemma ClockOrder(a: Stamp, b: Stamp)
    requires Valid(a) && Valid(b)
    ensures Less(Clock(a), Clock(b)) <==> Before(ClockParts(a), ClockParts(b))
  {
    Powers();
    FractionOrder(a, b);
    assert "" + Fraction(a) == Fraction(a) && "" + Fraction(b) == Fraction(b);
    PartOrder(a.second, Fraction(a), Finer(a), b.second, Fraction(b), Finer(b), 2, "");
    var (x, y) := (Fixed(a.second, 2) + Fraction(a), Fixed(b.second, 2) + Fraction(b));
    PartOrder(a.minute, x, [a.second] + Finer(a), b.minute, y, [b.second] + Finer(b), 2, ":");
    PartOrder(a.hour, Fixed(a.minute, 2) + (":" + x), [a.minute] + ([a.second] + Finer(a)),
              b.hour, Fixed(b.minute, 2) + (":" + y), [b.minute] + ([b.second] + Finer(b)), 2, ":");
  }

  lemma MonthDayOrder(a: Stamp, b: Stamp)
    requires Valid(a) && Valid(b)
    ensures Less(MonthDay(a), MonthDay(b)) <==> Before(DayParts(a), DayParts(b))
  {
    Powers();
    ClockOrder(a, b);
    PartOrder(a.day, Clock(a), ClockParts(a), b.day, Clock(b), ClockParts(b), 2, "T");
    PartOrder(a.month, Fixed(a.day, 2) + ("T" + Clock(a)), [a.day] + ClockParts(a),
              b.month, Fixed(b.day, 2) + ("T" + Clock(b)), [b.day] + ClockParts(b), 2, "-");
  }

  /** Comparing two printed times as text compares the times, whatever digits their fractions keep. */
  lemma TextOrderIsTimeOrder(a: Stamp, b: Stamp)
    requires Valid(a) && Valid(b)
    ensures Less(ToRfc3339(a), ToRfc3339(b)) <==> Before(Parts(a), Parts(b))
  {
    Powers();
    MonthDayOrder(a, b);
    PartOrder(a.year, MonthDay(a), DayParts(a), b.year, MonthDay(b), DayParts(b), 4, "-");
  }
}
