/** How alike a candidate and a work of the spine are. */
module DedupScore {
  import opened Wrappers
  import opened Ordering
  import opened Text

  datatype Candidate = Candidate(
    title: string,
    altTitles: seq<string>,
    description: Option<string>,
    author: Option<string>,
    year: Option<int>,
    coverPhash: Option<string>,
    externalIds: seq<(string, string)>)

  /** What the spine holds of one work to compare with. */
  datatype MatchData = MatchData(
    description: Option<string>,
    author: Option<string>,
    year: Option<int>,
    coverPhash: Option<string>,
    aliases: seq<string>)

  /** The text measures the ladder rests on. */
  datatype Measures = Measures(
    normalize: string -> string,
    lower: string -> string,
    alphanumeric: char -> bool,
    titleSimilarity: (string, string) -> real,
    descriptionSimilarity: (string, string) -> real)

  /** Similarities lie between nothing and identity, and the same title twice is identity. */
  ghost predicate Sensible(m: Measures) {
    && (forall a, b :: 0.0 <= m.titleSimilarity(a, b) <= 1.0)
    && (forall a :: a != "" ==> m.titleSimilarity(a, a) == 1.0)
    && (forall a, b :: 0.0 <= m.descriptionSimilarity(a, b) <= 1.0)
  }

  function Max(a: real, b: real): real { if a < b then b else a }

  // ---- cover hashes ----------------------------------------------------------------------

  function HexDigit(c: char): Option<nat> {
    if '0' <= c <= '9' then Some(c as int - '0' as int)
    else if 'a' <= c <= 'f' then Some(c as int - 'a' as int + 10)
    else if 'A' <= c <= 'F' then Some(c as int - 'A' as int + 10)
    else None
  }

  predicate Hex(s: string) { |s| % 2 == 0 && forall i | 0 <= i < |s| :: HexDigit(s[i]).Some? }

  /** The hexadecimal digits and their values, small or capital, and no other character. */
  lemma HexDigitIs(c: char, d: nat)
    ensures HexDigit(c) == Some(d) <==> d < 16 && (c == "0123456789abcdef"[d] || c == "0123456789ABCDEF"[d])
  {
    if HexDigit(c).Some? {
      var v := HexDigit(c).value;
      assert v < 16;
    }
  }

  /** Hexadecimal text is pairs of such digits. */
  lemma HexIs(s: string)
    ensures Hex(s) <==> |s| / 2 * 2 == |s| && forall i | 0 <= i < |s| :: s[i] in "0123456789abcdefABCDEF"
  {
    forall i | 0 <= i < |s| ensures HexDigit(s[i]).Some? <==> s[i] in "0123456789abcdefABCDEF" { DigitsAre(s[i]); }
  }

  lemma DigitsAre(c: char)
    ensures HexDigit(c).Some? <==> c in "0123456789abcdefABCDEF"
  {
    var all := "0123456789abcdefABCDEF";
    if HexDigit(c).Some? {
      var d := HexDigit(c).value;
      HexDigitIs(c, d);
      assert all[d] == c || all[if d < 10 then d else d + 6] == c;
    }
  }

  function Nibble(d: nat): (r: seq<bool>)
    ensures |r| == 4
  {
    [d / 8 % 2 == 1, d / 4 % 2 == 1, d / 2 % 2 == 1, d % 2 == 1]
  }

  /** The bits of a hexadecimal text. */
  function Bits(s: string): (r: seq<bool>)
    requires forall i | 0 <= i < |s| :: HexDigit(s[i]).Some?
    ensures |r| == 4 * |s|
  {
    if s == [] then [] else Nibble(HexDigit(s[0]).value) + Bits(s[1..])
  }

  function Ones(bits: seq<bool>): (n: nat)
    ensures n <= |bits|
  {
    if bits == [] then 0 else (if bits[0] then 1 else 0) + Ones(bits[1..])
  }

  function Differing(a: seq<bool>, b: seq<bool>): (n: nat)
    requires |a| == |b|
    ensures n <= |a|
  {
    if a == [] then 0 else (if a[0] != b[0] then 1 else 0) + Differing(a[1..], b[1..])
  }

  /** A 64-bit hash whose bits are neither nearly all clear nor nearly all set. */
  predicate IsDiscriminativePhash(hex: string) {
    Hex(hex) && |hex| == 16 && 12 <= Ones(Bits(hex)) <= 52
  }

  function PhashSimilarity(a: Option<string>, b: Option<string>): (r: Option<real>)
    ensures r.Some? ==> 0.0 <= r.value <= 1.0
  {
    if a.None? || b.None? || !Hex(a.value) || !Hex(b.value) || |a.value| == 0 || |a.value| != |b.value| then None
    else
      var (far, all) := (Differing(Bits(a.value), Bits(b.value)), |Bits(a.value)|);
      FractionBounds(far as real, all as real);
      Some(1.0 - far as real / all as real)
  }

  lemma FractionBounds(a: real, b: real)
    requires 0.0 <= a <= b && b > 0.0
    ensures 0.0 <= a / b <= 1.0
  {
  }

  lemma {:induction false} DifferingSymmetric(a: seq<bool>, b: seq<bool>)
    requires |a| == |b|
    ensures Differing(a, b) == Differing(b, a)
    ensures Differing(a, b) == 0 <==> a == b
  {
    if a != [] {
      DifferingSymmetric(a[1..], b[1..]);
      assert a == [a[0]] + a[1..] && b == [b[0]] + b[1..];
    }
  }

  function DifferAt(a: seq<bool>, b: seq<bool>): set<nat>
    requires |a| == |b|
  {
    set i: nat | i < |a| && a[i] != b[i]
  }

  lemma {:induction false} DifferingJoins(a: seq<bool>, b: seq<bool>, x: bool, y: bool)
    requires |a| == |b|
    ensures Differing(a + [x], b + [y]) == Differing(a, b) + if x != y then 1 else 0
  {
    if a != [] {
      assert (a + [x])[1..] == a[1..] + [x] && (b + [y])[1..] == b[1..] + [y];
      DifferingJoins(a[1..], b[1..], x, y);
    }
  }

  lemma DifferAtGrows(a: seq<bool>, b: seq<bool>, n: nat)
    requires |a| == |b| == n + 1
    ensures |DifferAt(a, b)| == |DifferAt(a[..n], b[..n])| + if a[n] != b[n] then 1 else 0
  {
    assert DifferAt(a, b) == DifferAt(a[..n], b[..n]) + if a[n] != b[n] then {n} else {};
  }

  lemma {:induction false} DifferingCounts(a: seq<bool>, b: seq<bool>)
    requires |a| == |b|
    ensures Differing(a, b) == |DifferAt(a, b)|
  {
    if a != [] {
      var n := |a| - 1;
      DifferingCounts(a[..n], b[..n]);
      DifferingJoins(a[..n], b[..n], a[n], b[n]);
      assert a == a[..n] + [a[n]] && b == b[..n] + [b[n]];
      DifferAtGrows(a, b, n);
    }
  }

  /** Hexadecimal texts of one length are as alike as the share of their bits that agree; no other two compare. */
  lemma PhashSimilarityIs(a: string, b: string)
    ensures PhashSimilarity(Some(a), Some(b)).Some? <==> Hex(a) && Hex(b) && |a| == |b| > 0
    ensures Hex(a) && Hex(b) && |a| == |b| > 0 ==>
              PhashSimilarity(Some(a), Some(b)).value == 1.0 - |DifferAt(Bits(a), Bits(b))| as real / (4 * |a|) as real
  {
    if Hex(a) && Hex(b) && |a| == |b| > 0 { DifferingCounts(Bits(a), Bits(b)); }
  }

  lemma {:induction false} OnesJoins(bits: seq<bool>, x: bool)
    ensures Ones(bits + [x]) == Ones(bits) + if x then 1 else 0
  {
    if bits != [] {
      assert (bits + [x])[1..] == bits[1..] + [x];
      OnesJoins(bits[1..], x);
    }
  }

  function SetAt(bits: seq<bool>): set<nat> { set i: nat | i < |bits| && bits[i] }

  lemma {:induction false} OnesCounts(bits: seq<bool>)
    ensures Ones(bits) == |SetAt(bits)|
  {
    if bits != [] {
      var n := |bits| - 1;
      OnesCounts(bits[..n]);
      OnesJoins(bits[..n], bits[n]);
      assert bits == bits[..n] + [bits[n]];
      assert SetAt(bits) == SetAt(bits[..n]) + if bits[n] then {n} else {};
    }
  }

  /** Each digit stands for its four bits, the most significant first. */
  lemma {:induction false} BitsOfDigit(s: string, i: nat)
    requires (forall k | 0 <= k < |s| :: HexDigit(s[k]).Some?) && i < |s|
    ensures var (d, b) := (HexDigit(s[i]).value, Bits(s)[4 * i..4 * i + 4]);
            d == (if b[0] then 8 else 0) + (if b[1] then 4 else 0) + (if b[2] then 2 else 0) + (if b[3] then 1 else 0)
  {
    var rest := Bits(s[1..]);
    assert Bits(s) == Nibble(HexDigit(s[0]).value) + rest;
    if i > 0 {
      BitsOfDigit(s[1..], i - 1);
      assert Bits(s)[4 * i..4 * i + 4] == rest[4 * (i - 1)..4 * (i - 1) + 4];
    } else {
      var d := HexDigit(s[0]).value;
      assert Bits(s)[0..4] == Nibble(d);
      NibbleIs(d);
    }
  }

  lemma NibbleIs(d: nat)
    requires d < 16
    ensures var b := Nibble(d);
            d == (if b[0] then 8 else 0) + (if b[1] then 4 else 0) + (if b[2] then 2 else 0) + (if b[3] then 1 else 0)
  {
  }

  /** A hash tells covers apart when from 12 to 52 of its 64 bits are set. */
  lemma DiscriminativeIs(hex: string)
    ensures IsDiscriminativePhash(hex) <==> Hex(hex) && |hex| == 16 && 12 <= |SetAt(Bits(hex))| <= 52
  {
    if Hex(hex) { OnesCounts(Bits(hex)); }
  }

  // ---- authors ---------------------------------------------------------------------------

  /** The pieces of a text between the characters that are not wanted, blank ones dropped. */
  function Pieces(s: string, current: string, keep: char -> bool): seq<string> {
    if s == [] then (if current == [] then [] else [current])
    else if keep(s[0]) then Pieces(s[1..], current + [s[0]], keep)
    else (if current == [] then [] else [current]) + Pieces(s[1..], [], keep)
  }

  /** A stretch of wanted characters that neither side continues. */
  ghost predicate IsPiece(s: string, i: nat, j: nat, keep: char -> bool) {
    && i < j <= |s| && (forall k | i <= k < j :: keep(s[k]))
    && (i > 0 ==> !keep(s[i - 1])) && (j < |s| ==> !keep(s[j]))
  }

  /** Of the pieces that begin before the end of one, none but it begins where it does or later. */
  lemma OnePiece(s: string, from: nat, to: nat, keep: char -> bool, a: nat, b: nat)
    requires IsPiece(s, from, to, keep) && IsPiece(s, a, b, keep) && from <= a <= to
    ensures a == from && b == to
  {
  }

  lemma {:induction false} PiecesFrom(s: string, from: nat, i: nat, keep: char -> bool, w: string)
    requires from <= i <= |s| && (forall k | from <= k < i :: keep(s[k])) && (from > 0 ==> !keep(s[from - 1]))
    ensures w in Pieces(s[i..], s[from..i], keep) <==> exists a: nat, b: nat :: from <= a && IsPiece(s, a, b, keep) && s[a..b] == w
    decreases |s| - i
  {
    if i < |s| && keep(s[i]) {
      assert s[i..][1..] == s[i + 1..] && s[from..i] + [s[i]] == s[from..i + 1];
      PiecesFrom(s, from, i + 1, keep, w);
    } else {
      if i < |s| {
        assert s[i..][1..] == s[i + 1..] && s[i + 1..i + 1] == [];
        PiecesFrom(s, i + 1, i + 1, keep, w);
      }
      if from < i {
        assert IsPiece(s, from, i, keep);
        forall a, b | from <= a <= i && IsPiece(s, a, b, keep) ensures a == from && b == i { OnePiece(s, from, i, keep, a, b); }
      }
    }
  }

  /** The pieces are exactly the stretches of wanted characters, each as long as it goes. */
  lemma PiecesAre(s: string, keep: char -> bool, w: string)
    ensures w in Pieces(s, [], keep) <==> exists a: nat, b: nat :: IsPiece(s, a, b, keep) && s[a..b] == w
  {
    assert s[0..] == s && s[0..0] == [];
    PiecesFrom(s, 0, 0, keep, w);
  }

  function AuthorTokens(name: string, m: Measures): seq<string> { Pieces(m.lower(name), [], m.alphanumeric) }

  function AuthorKey(name: string, m: Measures): seq<string> { Sort(AuthorTokens(name, m), Less) }

  predicate AuthorMatches(a: Option<string>, b: Option<string>, m: Measures) {
    a.Some? && b.Some? && AuthorKey(a.value, m) != [] && AuthorKey(a.value, m) == AuthorKey(b.value, m)
  }

  predicate YearClose(a: Option<int>, b: Option<int>) {
    a.Some? && b.Some? && -1 <= a.value - b.value <= 1
  }

  /** Two author names match exactly when they hold the same words as often, in whatever order. */
  lemma AuthorsMatchAsBags(a: string, b: string, m: Measures)
    ensures AuthorMatches(Some(a), Some(b), m) <==>
            multiset(AuthorTokens(a, m)) == multiset(AuthorTokens(b, m)) && AuthorTokens(a, m) != []
  {
    var s, t := AuthorTokens(a, m), AuthorTokens(b, m);
    LessIsStrictTotal();
    SortOrders(s, Less);
    SortOrders(t, Less);
    if multiset(s) == multiset(t) { OrderedUnique(Sort(s, Less), Sort(t, Less), Less); }
  }

  // ---- title tokens ------------------------------------------------------------------------

  predicate Solid(c: char) { !IsSpace(c) }

  function Words(title: string): seq<string> { Pieces(title, [], Solid) }

  /** The words of the titles that are long enough to tell works apart. */
  function LongWords(titles: seq<string>): seq<string> {
    if titles == [] then []
    else Long(Words(titles[0])) + LongWords(titles[1..])
  }

  function Long(words: seq<string>): seq<string> {
    if words == [] then [] else (if |words[0]| >= 3 then [words[0]] else []) + Long(words[1..])
  }

  lemma {:induction false} LongAre(words: seq<string>, w: string)
    ensures w in Long(words) <==> w in words && |w| >= 3
  {
    if words != [] {
      LongAre(words[1..], w);
      assert words == [words[0]] + words[1..];
    }
  }

  /** The words of at least three characters, a word being a stretch of the title between spaces. */
  lemma {:induction false} LongWordsAre(titles: seq<string>, w: string)
    ensures w in LongWords(titles)
       <==> |w| >= 3 && exists t | t in titles :: w in Words(t)
  {
    if titles != [] {
      LongWordsAre(titles[1..], w);
      LongAre(Words(titles[0]), w);
      assert titles == [titles[0]] + titles[1..];
    }
  }

  predicate LongerFirst(a: string, b: string) { |a| > |b| || (|a| == |b| && Less(a, b)) }

  function TopTokens(titles: seq<string>, n: nat): seq<string> {
    var all := Dedup(Sort(LongWords(titles), LongerFirst));
    if n < |all| then all[..n] else all
  }

  lemma LongerFirstIsStrictTotal()
    ensures StrictTotal(LongerFirst)
  {
    LessIsStrictTotal();
    forall x, y ensures x == y || LongerFirst(x, y) || LongerFirst(y, x) { assert x == y || Less(x, y) || Less(y, x); }
    forall x, y, z | LongerFirst(x, y) && LongerFirst(y, z) ensures LongerFirst(x, z) {
      if |x| == |y| == |z| { assert Less(x, y) && Less(y, z); }
    }
    forall x ensures !LongerFirst(x, x) { assert !Less(x, x); }
  }

  /** The tokens blocked on are distinct long words, and the longest there are. */
  lemma TopTokensAreLongest(titles: seq<string>, n: nat)
    ensures var top := TopTokens(titles, n);
            && |top| <= n
            && StrictlyOrdered(top, LongerFirst)
            && (forall w :: w in top ==> w in LongWords(titles))
            && (forall w | w in LongWords(titles) && w !in top :: |top| == n && forall t :: t in top ==> LongerFirst(t, w))
  {
    LongerFirstIsStrictTotal();
    var words := LongWords(titles);
    SortOrders(words, LongerFirst);
    SortMembers(words, LongerFirst);
    DedupStrict(Sort(words, LongerFirst), LongerFirst);
    var all, top := Dedup(Sort(words, LongerFirst)), TopTokens(titles, n);
    forall w | w in words && w !in top
      ensures |top| == n && forall t :: t in top ==> LongerFirst(t, w)
    {
      var j :| 0 <= j < |all| && all[j] == w;
      assert j >= n;
    }
  }

  // ---- the score -----------------------------------------------------------------------------

  const MID := 0.6
  const HIGH := 0.85
  const PHASH_CORROBORATION := 0.9

  datatype Scored = Scored(score: real, phashSimilarity: Option<real>)

  /** The strongest likeness between one title and a list of aliases. */
  function BestAlias(title: string, aliases: seq<string>, m: Measures): (r: real)
    ensures r >= 0.0
  {
    if aliases == [] then 0.0 else Max(BestAlias(title, aliases[1..], m), m.titleSimilarity(title, aliases[0]))
  }

  function TitleScore(titles: seq<string>, aliases: seq<string>, m: Measures): (r: real)
    ensures r >= 0.0
  {
    if titles == [] then 0.0 else Max(TitleScore(titles[1..], aliases, m), BestAlias(titles[0], aliases, m))
  }

  function Corroboration(cand: Candidate, md: MatchData, m: Measures): (r: real)
    ensures r >= 0.0
  {
    var text := if cand.description.Some? && md.description.Some?
                then Max(0.0, m.descriptionSimilarity(cand.description.value, md.description.value)) else 0.0;
    var cover := PhashSimilarity(cand.coverPhash, md.coverPhash);
    if cover.Some? then Max(text, cover.value) else text
  }

  function ScoreCandidate(cand: Candidate, titles: seq<string>, md: MatchData, m: Measures): Scored {
    var base := 0.6 * TitleScore(titles, md.aliases, m) + 0.4 * Corroboration(cand, md, m);
    var author := if AuthorMatches(cand.author, md.author, m) then base + 0.05 else base;
    var year := if YearClose(cand.year, md.year) then author + 0.03 else author;
    Scored(if year > 1.0 then 1.0 else year, PhashSimilarity(cand.coverPhash, md.coverPhash))
  }

  lemma {:induction false} BestAliasBounds(title: string, aliases: seq<string>, m: Measures)
    requires Sensible(m)
    ensures BestAlias(title, aliases, m) <= 1.0
    ensures title in aliases && title != "" ==> BestAlias(title, aliases, m) == 1.0
  {
    if aliases != [] {
      BestAliasBounds(title, aliases[1..], m);
      assert m.titleSimilarity(title, aliases[0]) <= 1.0;
      assert aliases == [aliases[0]] + aliases[1..];
      if title == aliases[0] && title != "" { assert m.titleSimilarity(title, title) == 1.0; }
    }
  }

  lemma {:induction false} TitleScoreBounds(titles: seq<string>, aliases: seq<string>, m: Measures)
    requires Sensible(m)
    ensures TitleScore(titles, aliases, m) <= 1.0
    ensures (exists t | t in titles :: t in aliases && t != "") ==> TitleScore(titles, aliases, m) == 1.0
  {
    if titles != [] {
      TitleScoreBounds(titles[1..], aliases, m);
      BestAliasBounds(titles[0], aliases, m);
      assert titles == [titles[0]] + titles[1..];
    }
  }

  lemma {:induction false} BestAliasIs(title: string, aliases: seq<string>, m: Measures)
    ensures forall a | a in aliases :: m.titleSimilarity(title, a) <= BestAlias(title, aliases, m)
    ensures BestAlias(title, aliases, m) == 0.0 || exists a | a in aliases :: m.titleSimilarity(title, a) == BestAlias(title, aliases, m)
  {
    if aliases != [] {
      BestAliasIs(title, aliases[1..], m);
      assert aliases == [aliases[0]] + aliases[1..];
    }
  }

  /** The title likeness is the greatest of all pairs of a title and an alias, or nothing. */
  lemma {:induction false} TitleScoreIs(titles: seq<string>, aliases: seq<string>, m: Measures)
    ensures forall t, a | t in titles && a in aliases :: m.titleSimilarity(t, a) <= TitleScore(titles, aliases, m)
    ensures TitleScore(titles, aliases, m) == 0.0
         || exists t, a | t in titles && a in aliases :: m.titleSimilarity(t, a) == TitleScore(titles, aliases, m)
  {
    if titles != [] {
      TitleScoreIs(titles[1..], aliases, m);
      BestAliasIs(titles[0], aliases, m);
      assert titles == [titles[0]] + titles[1..];
    }
  }

  /** What corroborates the titles: the description or the cover, whichever is more alike, or nothing. */
  lemma CorroborationIs(cand: Candidate, md: MatchData, m: Measures)
    requires Sensible(m)
    ensures var c := Corroboration(cand, md, m);
            var cover := PhashSimilarity(cand.coverPhash, md.coverPhash);
            var text := if cand.description.Some? && md.description.Some?
                        then Some(m.descriptionSimilarity(cand.description.value, md.description.value)) else None;
            && (cover.Some? ==> c >= cover.value) && (text.Some? ==> c >= text.value)
            && (c == 0.0 || Some(c) == cover || Some(c) == text)
  {
  }

  /**
   * A score is three fifths of the title likeness and two fifths of what corroborates it, with 0.05 for the same
   * author and 0.03 for years at most one apart, cut at one.
   */
  lemma ScoreIs(cand: Candidate, titles: seq<string>, md: MatchData, m: Measures, title: real, corroboration: real)
    requires title == TitleScore(titles, md.aliases, m) && corroboration == Corroboration(cand, md, m)
    ensures var boost := (if AuthorMatches(cand.author, md.author, m) then 0.05 else 0.0)
                         + if cand.year.Some? && md.year.Some? && (cand.year == md.year
                              || cand.year.value == md.year.value + 1 || md.year.value == cand.year.value + 1)
                           then 0.03 else 0.0;
            var s := ScoreCandidate(cand, titles, md, m);
            && s.score <= 1.0 && s.score <= 0.6 * title + 0.4 * corroboration + boost
            && (s.score == 1.0 || s.score == 0.6 * title + 0.4 * corroboration + boost)
            && s.phashSimilarity == PhashSimilarity(cand.coverPhash, md.coverPhash)
  {
  }

  /** A score lies between nothing and one, and a shared title alone reaches the review band. */
  lemma ScoreBounds(cand: Candidate, titles: seq<string>, md: MatchData, m: Measures)
    requires Sensible(m)
    ensures 0.0 <= ScoreCandidate(cand, titles, md, m).score <= 1.0
    ensures (exists t | t in titles :: t in md.aliases && t != "") ==> ScoreCandidate(cand, titles, md, m).score >= MID
  {
    TitleScoreBounds(titles, md.aliases, m);
  }

  /** Title alone, with no description, cover, author or year in common, never passes the review band. */
  lemma TitleAloneStaysBelowHigh(cand: Candidate, titles: seq<string>, md: MatchData, m: Measures)
    requires Sensible(m)
    requires cand.description.None? || md.description.None?
    requires cand.coverPhash.None? || md.coverPhash.None?
    ensures ScoreCandidate(cand, titles, md, m).score <= MID + 0.08 < HIGH
  {
    TitleScoreBounds(titles, md.aliases, m);
  }
}
