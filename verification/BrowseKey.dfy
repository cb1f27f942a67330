/** The memo key of a Browse filter, and the canonical form of its genre list. */
module BrowseKey {
  import opened Wrappers
  import opened Text
  import opened Ordering
  import opened BrowseFilter

  // ---- canonical genres --------------------------------------------------------------------

  const MAX_GENRE_FILTERS := 12

  /** The names left once trimmed and the blank ones dropped. */
  function Named(genres: seq<string>): seq<string> {
    if genres == [] then []
    else
      var rest, word := Named(genres[..|genres| - 1]), Trim(genres[|genres| - 1]);
      if word == "" then rest else rest + [word]
  }

  lemma {:induction false} NamedMembers(genres: seq<string>, w: string)
    ensures w in Named(genres) <==> w != "" && exists g | g in genres :: Trim(g) == w
  {
    if genres != [] {
      var front, last := genres[..|genres| - 1], genres[|genres| - 1];
      NamedMembers(front, w);
      assert forall g :: g in genres <==> g in front || g == last by { assert genres == front + [last]; }
    }
  }

  function Canonical(genres: seq<string>): seq<string> {
    var all := Dedup(Sort(Named(genres), Less));
    if |all| > MAX_GENRE_FILTERS then all[..MAX_GENRE_FILTERS] else all
  }

  /** Trim and drop blanks in a loop, then sort, dedup and truncate the list in place. */
  method CanonicalGenres(genres: seq<string>) returns (out: seq<string>)
    ensures out == Canonical(genres)
  {
    out := [];
    for i := 0 to |genres|
      invariant out == Named(genres[..i])
    {
      assert genres[..i + 1][..i] == genres[..i];
      if Trim(genres[i]) != "" { out := out + [Trim(genres[i])]; }
    }
    assert genres[..|genres|] == genres;
    out := Sort(out, Less);
    out := Dedup(out);
    if |out| > MAX_GENRE_FILTERS { out := out[..MAX_GENRE_FILTERS]; }
  }

  /** Order, repeats and surrounding space never show. */
  lemma CanonicalDependsOnSet(a: seq<string>, b: seq<string>)
    requires forall w :: w in Named(a) <==> w in Named(b)
    ensures Canonical(a) == Canonical(b)
  {
    LessIsStrictTotal();
    SortDedupCanonical(Named(a), Named(b), Less);
  }

  /** At most twelve names, in byte order without repeats, and none of those dropped sorts before one kept. */
  lemma CanonicalKeepsTheFirst(genres: seq<string>)
    ensures |Canonical(genres)| <= MAX_GENRE_FILTERS
    ensures StrictlyOrdered(Canonical(genres), Less)
    ensures forall w :: w in Canonical(genres) ==> w in Named(genres)
    ensures forall w | w in Named(genres) && w !in Canonical(genres) ::
              |Canonical(genres)| == MAX_GENRE_FILTERS && forall k :: k in Canonical(genres) ==> Less(k, w)
  {
    LessIsStrictTotal();
    var names := Named(genres);
    var all := Dedup(Sort(names, Less));
    SortOrders(names, Less);
    SortMembers(names, Less);
    DedupStrict(Sort(names, Less), Less);
    forall w | w in names && w !in Canonical(genres)
      ensures |Canonical(genres)| == MAX_GENRE_FILTERS && forall k :: k in Canonical(genres) ==> Less(k, w)
    {
      var j :| 0 <= j < |all| && all[j] == w;
      assert j >= MAX_GENRE_FILTERS;
    }
  }

  predicate Tidy(w: string) { w != "" && Trim(w) == w }

  lemma {:induction false} TidyNamesStay(names: seq<string>)
    requires forall i | 0 <= i < |names| :: Tidy(names[i])
    ensures Named(names) == names
  {
    if names != [] {
      var front, last := names[..|names| - 1], names[|names| - 1];
      assert names == front + [last];
      forall i | 0 <= i < |front| ensures Tidy(front[i]) { assert Tidy(names[i]); }
      TidyNamesStay(front);
    }
  }

  lemma NamesAreTidy(genres: seq<string>, w: string)
    requires w in Named(genres)
    ensures Tidy(w)
  {
    NamedMembers(genres, w);
    var g :| g in genres && Trim(g) == w;
    TrimTight(Trim(g));
  }

  lemma SortedStays(c: seq<string>)
    requires StrictlyOrdered(c, Less)
    ensures Dedup(Sort(c, Less)) == c
  {
    LessIsStrictTotal();
    SortOrders(c, Less);
    forall i, j | 0 <= i < j < |c| ensures !Less(c[j], c[i]) { Asymmetric(c[i], c[j]); }
    OrderedUnique(Sort(c, Less), c, Less);
    StrictDedup(c);
  }

  /** Canonicalizing twice changes nothing. */
  lemma CanonicalIsStable(genres: seq<string>)
    ensures Canonical(Canonical(genres)) == Canonical(genres)
  {
    var c := Canonical(genres);
    CanonicalKeepsTheFirst(genres);
    forall i | 0 <= i < |c| ensures Tidy(c[i]) {
      assert c[i] in c;
      NamesAreTidy(genres, c[i]);
    }
    TidyNamesStay(c);
    SortedStays(c);
  }

  lemma {:induction false} StrictDedup(s: seq<string>)
    requires StrictlyOrdered(s, Less)
    ensures Dedup(s) == s
  {
    if |s| >= 2 {
      LessIsStrictTotal();
      assert Less(s[0], s[1]);
      StrictDedup(s[1..]);
    }
  }

  // ---- the key -------------------------------------------------------------------------------

  /** Bytes a character takes in UTF-8. */
  function Utf8Width(c: char): (n: nat)
    ensures n > 0
  {
    var n := c as int;
    if n < 0x80 then 1 else if n < 0x800 then 2 else if n < 0x10000 then 3 else 4
  }

  function Utf8Len(s: string): nat { if s == [] then 0 else Utf8Width(s[0]) + Utf8Len(s[1..]) }

  /** The bytes of a character: its bits in groups of six behind the first byte, which says how many follow. */
  function Utf8Char(c: char): seq<nat> {
    var n := c as int;
    if n < 0x80 then [n]
    else if n < 0x800 then [0xC0 + n / 64, 0x80 + n % 64]
    else if n < 0x10000 then [0xE0 + n / 4096, 0x80 + n / 64 % 64, 0x80 + n % 64]
    else [0xF0 + n / 262144, 0x80 + n / 4096 % 64, 0x80 + n / 64 % 64, 0x80 + n % 64]
  }

  function Utf8(s: string): seq<nat> { if s == [] then [] else Utf8Char(s[0]) + Utf8(s[1..]) }

  /** The length in bytes is that of the bytes. */
  lemma {:induction false} Utf8LenIs(s: string)
    ensures Utf8Len(s) == |Utf8(s)|
  {
    if s != [] { Utf8LenIs(s[1..]); }
  }

  /** Tags one after another, each behind its length in bytes. */
  function GenreKey(genres: seq<string>): string {
    if genres == [] then []
    else
      var g := genres[|genres| - 1];
      GenreKey(genres[..|genres| - 1]) + (Digits(Utf8Len(g)) + ":" + g)
  }

  function Join(words: seq<string>, sep: char): string {
    if words == [] then [] else if |words| == 1 then words[0] else words[0] + [sep] + Join(words[1..], sep)
  }

  function Flag(b: bool): string { if b then "1" else "0" }

  function OptionFlag(b: Option<bool>): string { if b.None? then "-" else Flag(b.value) }

  function OrEmpty(w: Option<string>): string { if w.Some? then w.value else "" }

  function BoundKey(v: Option<real>, show: real -> string): string { if v.Some? then show(v.value) else "" }

  /** The parts of the key that end at a bar. */
  function Fields(f: Filter, show: real -> string): seq<string> {
    [Flag(f.showNsfw), Flag(f.nsfwOnly), if f.ratings.Some? then Join(f.ratings.value, ',') else "",
     OrEmpty(f.typeWord), OrEmpty(f.statusWord), OptionFlag(f.hasChapters),
     BoundKey(f.minRating, show), BoundKey(f.maxRating, show)]
  }

  function Barred(fields: seq<string>): string {
    if fields == [] then [] else Barred(fields[..|fields| - 1]) + fields[|fields| - 1] + "|"
  }

  function CountKey(f: Filter, show: real -> string): string {
    "v3|" + Barred(Fields(f, show)) + GenreKey(f.genres)
  }

  /** Push the key together, field by field and then genre by genre. */
  method BuildCountKey(f: Filter, show: real -> string) returns (key: string)
    ensures key == CountKey(f, show)
  {
    ghost var fields := Fields(f, show);
    key := "v3|";
    key := Push(key, Flag(f.showNsfw), fields, 0);
    key := Push(key, Flag(f.nsfwOnly), fields, 1);
    key := Push(key, if f.ratings.Some? then Join(f.ratings.value, ',') else "", fields, 2);
    key := Push(key, OrEmpty(f.typeWord), fields, 3);
    key := Push(key, OrEmpty(f.statusWord), fields, 4);
    key := Push(key, OptionFlag(f.hasChapters), fields, 5);
    key := Push(key, BoundKey(f.minRating, show), fields, 6);
    key := Push(key, BoundKey(f.maxRating, show), fields, 7);
    assert fields[..8] == fields;
    key := PushGenres(key, f.genres);
  }

  /** Push the tags, each behind its length. */
  method PushGenres(key: string, genres: seq<string>) returns (longer: string)
    ensures longer == key + GenreKey(genres)
  {
    longer := key;
    for i := 0 to |genres|
      invariant longer == key + GenreKey(genres[..i])
    {
      assert genres[..i + 1][..i] == genres[..i];
      longer := longer + (Digits(Utf8Len(genres[i])) + ":" + genres[i]);
    }
    assert genres[..|genres|] == genres;
  }

  /** Push one field and its bar. */
  method Push(key: string, text: string, ghost fields: seq<string>, ghost i: nat) returns (longer: string)
    requires i < |fields| && text == fields[i] && key == "v3|" + Barred(fields[..i])
    ensures longer == "v3|" + Barred(fields[..i + 1])
  {
    assert fields[..i + 1][..i] == fields[..i];
    longer := key + text + "|";
  }

  // ---- equal keys, equal filters -----------------------------------------------------------------

  predicate Without(s: string, c: char) { forall i | 0 <= i < |s| :: s[i] != c }

  /** A text cut at its first separator. */
  lemma {:induction false} CutAt(a: string, r: string, b: string, t: string, c: char)
    requires Without(a, c) && Without(b, c) && a + [c] + r == b + [c] + t
    ensures a == b && r == t
  {
    var left, right := a + [c] + r, b + [c] + t;
    assert left[0] == (if a == [] then c else a[0]) && right[0] == if b == [] then c else b[0];
    assert left[1..] == (if a == [] then r else a[1..] + [c] + r) && right[1..] == if b == [] then t else b[1..] + [c] + t;
    if a != [] && b != [] {
      CutAt(a[1..], r, b[1..], t, c);
      assert a == [a[0]] + a[1..] && b == [b[0]] + b[1..];
    }
  }

  /** The same text, read from the front: each field and then what follows the bars. */
  function Nested(fields: seq<string>, last: string): string {
    if fields == [] then last else fields[0] + "|" + Nested(fields[1..], last)
  }

  lemma {:induction false} BarredIsNested(fields: seq<string>, last: string)
    ensures Barred(fields) + last == Nested(fields, last)
  {
    if fields != [] {
      var (front, end) := (fields[..|fields| - 1], fields[|fields| - 1]);
      BarredIsNested(front, end + "|" + last);
      assert Barred(fields) + last == Barred(front) + (end + "|" + last);
      NestedAppend(front, end, last);
      assert fields == front + [end];
    }
  }

  lemma {:induction false} NestedAppend(front: seq<string>, end: string, last: string)
    ensures Nested(front, end + "|" + last) == Nested(front + [end], last)
  {
    if front == [] {
      assert front + [end] == [end] && [end][1..] == [];
    } else {
      assert (front + [end])[1..] == front[1..] + [end];
      NestedAppend(front[1..], end, last);
    }
  }

  lemma {:induction false} NestedInjective(a: seq<string>, b: seq<string>, s: string, t: string)
    requires |a| == |b| && Nested(a, s) == Nested(b, t)
    requires (forall i | 0 <= i < |a| :: Without(a[i], '|')) && (forall i | 0 <= i < |b| :: Without(b[i], '|'))
    ensures a == b && s == t
  {
    if a != [] {
      assert Nested(a, s) == a[0] + ['|'] + Nested(a[1..], s) && Nested(b, t) == b[0] + ['|'] + Nested(b[1..], t);
      CutAt(a[0], Nested(a[1..], s), b[0], Nested(b[1..], t), '|');
      NestedInjective(a[1..], b[1..], s, t);
      assert a == [a[0]] + a[1..] && b == [b[0]] + b[1..];
    }
  }

  lemma JoinShowsSeparator(a: seq<string>, sep: char)
    requires a != [] && forall i | 0 <= i < |a| :: a[i] != "" && Without(a[i], sep)
    ensures Without(Join(a, sep), sep) <==> |a| == 1
  {
    if |a| > 1 { assert Join(a, sep)[|a[0]|] == sep; }
  }

  lemma {:induction false} JoinInjective(a: seq<string>, b: seq<string>, sep: char)
    requires forall i | 0 <= i < |a| :: a[i] != "" && Without(a[i], sep)
    requires forall i | 0 <= i < |b| :: b[i] != "" && Without(b[i], sep)
    requires Join(a, sep) == Join(b, sep)
    ensures a == b
  {
    if |a| == 0 || |b| == 0 {
    } else if |a| == 1 && |b| == 1 {
      assert a == [a[0]] && b == [b[0]];
    } else if |a| == 1 || |b| == 1 {
      JoinShowsSeparator(a, sep);
      JoinShowsSeparator(b, sep);
    } else {
      CutAt(a[0], Join(a[1..], sep), b[0], Join(b[1..], sep), sep);
      JoinInjective(a[1..], b[1..], sep);
      assert a == [a[0]] + a[1..] && b == [b[0]] + b[1..];
    }
  }

  /** Of two texts that begin the same way, equal byte lengths make the same text. */
  lemma {:induction false} Utf8Cut(a: string, r: string, b: string, t: string)
    requires a + r == b + t && Utf8Len(a) == Utf8Len(b)
    ensures a == b && r == t
  {
    if a == [] || b == [] {
      assert a == [] && b == [];
      assert a + r == r && b + t == t;
    } else {
      assert (a + r)[0] == a[0] && (b + t)[0] == b[0];
      assert (a + r)[1..] == a[1..] + r && (b + t)[1..] == b[1..] + t;
      Utf8Cut(a[1..], r, b[1..], t);
      assert a == [a[0]] + a[1..] && b == [b[0]] + b[1..];
    }
  }

  /** The genre part read from the front. */
  function GenreKeyFront(genres: seq<string>): string {
    if genres == [] then [] else Digits(Utf8Len(genres[0])) + ":" + (genres[0] + GenreKeyFront(genres[1..]))
  }

  lemma {:induction false} GenreKeyReads(genres: seq<string>)
    ensures GenreKey(genres) == GenreKeyFront(genres)
  {
    if genres != [] {
      var (front, end) := (genres[..|genres| - 1], genres[|genres| - 1]);
      GenreKeyReads(front);
      FrontAppend(front, end);
      assert genres == front + [end];
    }
  }

  lemma {:induction false} FrontAppend(front: seq<string>, end: string)
    ensures GenreKeyFront(front + [end]) == GenreKeyFront(front) + (Digits(Utf8Len(end)) + ":" + end)
  {
    if front == [] {
      assert front + [end] == [end] && [end][1..] == [];
      assert end + [] == end;
    } else {
      assert (front + [end])[1..] == front[1..] + [end];
      FrontAppend(front[1..], end);
    }
  }

  lemma {:induction false} GenreKeyInjective(a: seq<string>, b: seq<string>)
    requires GenreKeyFront(a) == GenreKeyFront(b)
    ensures a == b
  {
    if a != [] && b != [] {
      var (da, db) := (Digits(Utf8Len(a[0])), Digits(Utf8Len(b[0])));
      var (ra, rb) := (a[0] + GenreKeyFront(a[1..]), b[0] + GenreKeyFront(b[1..]));
      assert da + [':'] + ra == GenreKeyFront(a) && db + [':'] + rb == GenreKeyFront(b);
      assert Without(da, ':') && Without(db, ':');
      CutAt(da, ra, db, rb, ':');
      DigitsInjective(Utf8Len(a[0]), Utf8Len(b[0]));
      Utf8Cut(a[0], GenreKeyFront(a[1..]), b[0], GenreKeyFront(b[1..]));
      GenreKeyInjective(a[1..], b[1..]);
      assert a == [a[0]] + a[1..] && b == [b[0]] + b[1..];
    }
  }

  /** A word of the fixed vocabulary. */
  predicate Word(w: string) { w != "" && Without(w, '|') && Without(w, ',') }

  /** Filters as the resolver builds them: words of the vocabulary, a tier with at least one member, and bounds that are doubles. */
  ghost predicate Resolved(f: Filter, doubles: iset<real>) {
    && (f.minRating.Some? ==> f.minRating.value in doubles)
    && (f.maxRating.Some? ==> f.maxRating.value in doubles)
    && (f.typeWord.Some? ==> Word(f.typeWord.value))
    && (f.statusWord.Some? ==> Word(f.statusWord.value))
    && (f.ratings.Some? ==> f.ratings.value != [] && forall i | 0 <= i < |f.ratings.value| :: Word(f.ratings.value[i]))
  }

  predicate Printed(show: real -> string, x: real) { show(x) != "" && Without(show(x), '|') }

  predicate Told(show: real -> string, x: real, y: real) { show(x) == show(y) ==> x == y }

  /** Printing tells two doubles apart and uses no bar. */
  ghost predicate Faithful(show: real -> string, doubles: iset<real>) {
    && (forall x | x in doubles :: Printed(show, x))
    && (forall x, y | x in doubles && y in doubles :: Told(show, x, y))
  }

  /** The integer multiples of a unit; with a unit of two to the power of -1074 every finite double is among them. */
  ghost function Multiples(unit: real): iset<real>
    requires unit > 0.0
  {
    iset x: real | IsMultiple(x, unit)
  }

  predicate IsMultiple(x: real, unit: real)
    requires unit > 0.0
  {
    (x / unit).Floor as real * unit == x
  }

  /** A printer that writes how many units a number is. */
  function UnitPrinter(unit: real): real -> string
    requires unit > 0.0
  {
    x => IntText((x / unit).Floor)
  }

  /** There is a faithful printer of doubles. */
  lemma UnitPrinterIsFaithful(unit: real)
    requires unit > 0.0
    ensures Faithful(UnitPrinter(unit), Multiples(unit))
  {
    var show := UnitPrinter(unit);
    forall x | x in Multiples(unit) ensures Printed(show, x) {
      IntTextSign((x / unit).Floor);
      IntTextBarFree((x / unit).Floor);
    }
    forall x, y | x in Multiples(unit) && y in Multiples(unit) ensures Told(show, x, y) {
      if show(x) == show(y) { IntTextInjective((x / unit).Floor, (y / unit).Floor); }
    }
  }

  lemma IntTextBarFree(i: int)
    ensures Without(IntText(i), '|')
  {
    if i < 0 { assert IntText(i)[1..] == Digits(-i); }
  }

  lemma {:induction false} JoinWithout(words: seq<string>, c: char)
    requires c != ',' && forall i | 0 <= i < |words| :: words[i] != "" && Without(words[i], c)
    ensures Without(Join(words, ','), c) && (words != [] ==> Join(words, ',') != "")
  {
    if |words| > 1 { JoinWithout(words[1..], c); }
  }

  lemma FlagsTold(a: Option<bool>, b: Option<bool>)
    ensures Without(OptionFlag(a), '|')
    ensures OptionFlag(a) == OptionFlag(b) ==> a == b
  {
    assert OptionFlag(a)[0] == match a { case None => '-' case Some(v) => if v then '1' else '0' };
    assert OptionFlag(b)[0] == match b { case None => '-' case Some(v) => if v then '1' else '0' };
  }

  lemma BoundsTold(a: Option<real>, b: Option<real>, show: real -> string, doubles: iset<real>)
    requires Faithful(show, doubles) && (a.Some? ==> a.value in doubles) && (b.Some? ==> b.value in doubles)
    ensures Without(BoundKey(a, show), '|')
    ensures BoundKey(a, show) == BoundKey(b, show) ==> a == b
  {
    if a.Some? { assert Printed(show, a.value); }
    if b.Some? { assert Printed(show, b.value); }
    if a.Some? && b.Some? { assert Told(show, a.value, b.value); }
  }

  lemma FieldsBarFree(f: Filter, show: real -> string, doubles: iset<real>)
    requires Resolved(f, doubles) && Faithful(show, doubles)
    ensures forall i | 0 <= i < 8 :: Without(Fields(f, show)[i], '|')
  {
    if f.ratings.Some? { JoinWithout(f.ratings.value, '|'); }
    FlagsTold(Some(f.showNsfw), None);
    FlagsTold(Some(f.nsfwOnly), None);
    FlagsTold(f.hasChapters, None);
    BoundsTold(f.minRating, None, show, doubles);
    BoundsTold(f.maxRating, None, show, doubles);
    var a := Fields(f, show);
    assert Without(a[0], '|') && Without(a[1], '|') && Without(a[2], '|') && Without(a[3], '|');
    assert Without(a[4], '|') && Without(a[5], '|') && Without(a[6], '|') && Without(a[7], '|');
  }

  lemma TiersTold(f: Filter, g: Filter, show: real -> string, doubles: iset<real>)
    requires Resolved(f, doubles) && Resolved(g, doubles) && Fields(f, show)[2] == Fields(g, show)[2]
    ensures f.ratings == g.ratings
  {
    if f.ratings.Some? { JoinWithout(f.ratings.value, '|'); }
    if g.ratings.Some? { JoinWithout(g.ratings.value, '|'); }
    if f.ratings.Some? && g.ratings.Some? { JoinInjective(f.ratings.value, g.ratings.value, ','); }
  }

  /** Equal fields come from filters that differ in genres at most. */
  lemma FieldsTold(f: Filter, g: Filter, show: real -> string, doubles: iset<real>)
    requires Resolved(f, doubles) && Resolved(g, doubles) && Faithful(show, doubles) && Fields(f, show) == Fields(g, show)
    ensures f == g.(genres := f.genres)
  {
    var (a, b) := (Fields(f, show), Fields(g, show));
    assert a[0] == b[0] && a[1] == b[1] && a[2] == b[2] && a[3] == b[3];
    assert a[4] == b[4] && a[5] == b[5] && a[6] == b[6] && a[7] == b[7];
    TiersTold(f, g, show, doubles);
    FlagsTold(Some(f.showNsfw), Some(g.showNsfw));
    FlagsTold(Some(f.nsfwOnly), Some(g.nsfwOnly));
    FlagsTold(f.hasChapters, g.hasChapters);
    assert f.typeWord == g.typeWord && f.statusWord == g.statusWord;
    BoundsTold(f.minRating, g.minRating, show, doubles);
    BoundsTold(f.maxRating, g.maxRating, show, doubles);
  }

  /** Equal keys come from equal filters only, whatever characters the genres hold. */
  lemma KeyTellsFiltersApart(f: Filter, g: Filter, show: real -> string, doubles: iset<real>)
    requires Resolved(f, doubles) && Resolved(g, doubles) && Faithful(show, doubles)
    ensures CountKey(f, show) == CountKey(g, show) <==> f == g
  {
    if CountKey(f, show) == CountKey(g, show) {
      var (a, b) := (Fields(f, show), Fields(g, show));
      var (s, t) := (GenreKey(f.genres), GenreKey(g.genres));
      assert CountKey(f, show)[3..] == Barred(a) + s && CountKey(g, show)[3..] == Barred(b) + t;
      BarredIsNested(a, s);
      BarredIsNested(b, t);
      FieldsBarFree(f, show, doubles);
      FieldsBarFree(g, show, doubles);
      NestedInjective(a, b, s, t);
      GenreKeyReads(f.genres);
      GenreKeyReads(g.genres);
      GenreKeyInjective(f.genres, g.genres);
      FieldsTold(f, g, show, doubles);
    }
  }

  /** A tier with no member would share the key of no tier at all, though it admits nothing. */
  lemma EmptyTierCollides(f: Filter, t: Tables, id: string, show: real -> string)
    requires f.ratings.None? && Matches(f, t, id)
    ensures CountKey(f.(ratings := Some([])), show) == CountKey(f, show)
    ensures !Matches(f.(ratings := Some([])), t, id)
  {
    assert Fields(f.(ratings := Some([])), show) == Fields(f, show);
  }
}
