/** Compiling a Browse filter into clauses with positional binds. */
module BrowseFilter {
  import opened Wrappers

  /** The columns Browse filters and orders by. */
  datatype Row = Row(
    comicType: Option<string>,
    status: Option<string>,
    contentRating: Option<string>,
    chapters: int,
    released: Option<int>,
    nsfw: bool)

  /** What a request reads: the catalogue rows, each work's tags, and the average review of each rated work. */
  datatype Tables = Tables(
    rows: map<string, Row>,
    stored: seq<string>,
    tags: map<string, set<string>>,
    rated: map<string, real>)

  datatype Filter = Filter(
    showNsfw: bool,
    typeWord: Option<string>,
    statusWord: Option<string>,
    ratings: Option<seq<string>>,
    nsfwOnly: bool,
    genres: seq<string>,
    hasChapters: Option<bool>,
    minRating: Option<real>,
    maxRating: Option<real>)

  function TagsOf(t: Tables, id: string): set<string> { if id in t.tags then t.tags[id] else {} }

  /** A work's average review; unrated counts as zero. */
  function Average(t: Tables, id: string): real { if id in t.rated then t.rated[id] else 0.0 }

  predicate Shown(f: Filter, row: Row) { (row.nsfw ==> f.showNsfw) && (f.nsfwOnly ==> row.nsfw) }

  predicate WordsMatch(f: Filter, row: Row) {
    && (f.typeWord.Some? ==> row.comicType == f.typeWord)
    && (f.statusWord.Some? ==> row.status == f.statusWord)
  }

  predicate TierAdmits(f: Filter, row: Row) {
    f.ratings.Some? ==> row.contentRating.Some? && row.contentRating.value in f.ratings.value
  }

  predicate ChaptersMatch(f: Filter, row: Row) {
    && (f.hasChapters == Some(true) ==> row.chapters > 0)
    && (f.hasChapters == Some(false) ==> row.chapters == 0)
  }

  predicate AnyGenre(f: Filter, tags: set<string>) { f.genres != [] ==> exists g | g in f.genres :: g in tags }

  predicate WithinBounds(f: Filter, average: real) {
    && (f.minRating.Some? ==> average >= f.minRating.value)
    && (f.maxRating.Some? ==> average <= f.maxRating.value)
  }

  /** The rows a filter asks for. */
  predicate Matches(f: Filter, t: Tables, id: string) {
    && id in t.rows
    && Shown(f, t.rows[id])
    && WordsMatch(f, t.rows[id])
    && TierAdmits(f, t.rows[id])
    && ChaptersMatch(f, t.rows[id])
    && AnyGenre(f, TagsOf(t, id))
    && WithinBounds(f, Average(t, id))
  }

  // ---- the statement language ------------------------------------------------------------

  datatype Bind = Text(text: string) | Real(bound: real) | Int(count: int)

  /** One conjunct of a WHERE, with its placeholders in place of values. */
  datatype Clause =
    | SafeOnly
    | AdultOnly
    | TypeIs
    | StatusIs
    | RatingIs
    | RatingIn(n: nat)
    | SomeChapters
    | NoChapters
    | TaggedIn(n: nat)
    | AverageAtLeast
    | AverageAtMost
    | Unrated
    | IdIn(n: nat)
    | IdNotIn(n: nat)

  function Holes(c: Clause): nat {
    match c
    case SafeOnly => 0
    case AdultOnly => 0
    case SomeChapters => 0
    case NoChapters => 0
    case Unrated => 0
    case RatingIn(n) => n
    case TaggedIn(n) => n
    case IdIn(n) => n
    case IdNotIn(n) => n
    case _ => 1
  }

  predicate NeedsReviews(c: Clause) { c.AverageAtLeast? || c.AverageAtMost? || c.Unrated? }

  predicate AllText(args: seq<Bind>) { forall i | 0 <= i < |args| :: args[i].Text? }

  /**
   * Whether one clause holds of a row, given what its placeholders received; nothing when a
   * placeholder received a bind of another kind, or the review aggregate it names is not there.
   */
  function Holds(c: Clause, args: seq<Bind>, cte: bool, t: Tables, id: string): Option<bool>
    requires |args| == Holes(c) && id in t.rows
  {
    var row := t.rows[id];
    if NeedsReviews(c) && !cte then None
    else match c
      case SafeOnly => Some(!row.nsfw)
      case AdultOnly => Some(row.nsfw)
      case SomeChapters => Some(row.chapters > 0)
      case NoChapters => Some(row.chapters == 0)
      case Unrated => Some(id !in t.rated)
      case AverageAtLeast => if args[0].Real? then Some(Average(t, id) >= args[0].bound) else None
      case AverageAtMost => if args[0].Real? then Some(Average(t, id) <= args[0].bound) else None
      case TypeIs => if args[0].Text? then Some(row.comicType == Some(args[0].text)) else None
      case StatusIs => if args[0].Text? then Some(row.status == Some(args[0].text)) else None
      case RatingIs => if args[0].Text? then Some(row.contentRating == Some(args[0].text)) else None
      case RatingIn(_) =>
        if AllText(args) then Some(row.contentRating.Some? && Text(row.contentRating.value) in args) else None
      case TaggedIn(_) =>
        if AllText(args) then Some(exists g | g in TagsOf(t, id) :: Text(g) in args) else None
      case IdIn(_) => if AllText(args) then Some(Text(id) in args) else None
      case IdNotIn(_) => if AllText(args) then Some(Text(id) !in args) else None
  }

  /** The clauses joined by AND, each taking its binds from the left; what is left over is for the rest of the statement. */
  function Evaluate(parts: seq<Clause>, binds: seq<Bind>, cte: bool, t: Tables, id: string): Option<(bool, seq<Bind>)>
    requires id in t.rows
  {
    if parts == [] then Some((true, binds))
    else
      var k := Holes(parts[0]);
      if |binds| < k then None
      else
        var here := Holds(parts[0], binds[..k], cte, t, id);
        var rest := Evaluate(parts[1..], binds[k..], cte, t, id);
        if here.None? || rest.None? then None else Some((here.value && rest.value.0, rest.value.1))
  }

  /** These clauses use up exactly these binds, and then say `b`. */
  ghost predicate Means(parts: seq<Clause>, binds: seq<Bind>, cte: bool, t: Tables, id: string, b: bool)
    requires id in t.rows
  {
    forall rest {:trigger Evaluate(parts, binds + rest, cte, t, id)} ::
      Evaluate(parts, binds + rest, cte, t, id) == Some((b, rest))
  }

  // ---- the compiler ----------------------------------------------------------------------

  function Gate(f: Filter): seq<Clause> {
    (if f.showNsfw then [] else [SafeOnly]) + (if f.nsfwOnly then [AdultOnly] else [])
  }

  function Words(f: Filter): seq<Clause> {
    (if f.typeWord.Some? then [TypeIs] else []) + (if f.statusWord.Some? then [StatusIs] else [])
  }

  function Tiers(f: Filter): seq<Clause> {
    if f.ratings.None? then [] else if |f.ratings.value| == 1 then [RatingIs] else [RatingIn(|f.ratings.value|)]
  }

  function Chapters(f: Filter): seq<Clause> {
    match f.hasChapters
    case Some(true) => [SomeChapters]
    case Some(false) => [NoChapters]
    case None => []
  }

  function Genres(f: Filter): seq<Clause> { if f.genres == [] then [] else [TaggedIn(|f.genres|)] }

  function Bounds(f: Filter): seq<Clause> {
    (if f.minRating.Some? then [AverageAtLeast] else []) + (if f.maxRating.Some? then [AverageAtMost] else [])
  }

  function Texts(words: seq<string>): (r: seq<Bind>)
    ensures |r| == |words| && forall i | 0 <= i < |r| :: r[i] == Text(words[i])
  {
    if words == [] then [] else [Text(words[0])] + Texts(words[1..])
  }

  function OfWord(w: Option<string>): seq<Bind> { if w.Some? then [Text(w.value)] else [] }

  function OfBound(v: Option<real>): seq<Bind> { if v.Some? then [Real(v.value)] else [] }

  function OfTiers(f: Filter): seq<Bind> { if f.ratings.Some? then Texts(f.ratings.value) else [] }

  /** The clauses in the order they are pushed. */
  function Parts(f: Filter): seq<Clause> {
    Gate(f) + Words(f) + Tiers(f) + Chapters(f) + Genres(f) + Bounds(f)
  }

  /** The binds in the order they are pushed. */
  function Binds(f: Filter): seq<Bind> {
    OfWord(f.typeWord) + OfWord(f.statusWord) + OfTiers(f) + Texts(f.genres) + OfBound(f.minRating) + OfBound(f.maxRating)
  }

  predicate UsesReviews(f: Filter) { f.minRating.Some? || f.maxRating.Some? }

  /** Push clauses and binds onto their two buffers, one decision at a time. */
  method BuildWhere(f: Filter) returns (parts: seq<Clause>, binds: seq<Bind>, usesRated: bool)
    ensures parts == Parts(f) && binds == Binds(f) && usesRated == UsesReviews(f)
  {
    parts := PushVocabulary(f);
    binds := PushWords(f);
    ghost var vocabulary, words := parts, binds;
    if f.genres != [] {
      parts := parts + [TaggedIn(|f.genres|)];
      binds := PushTexts(binds, f.genres);
    }
    assert parts == vocabulary + Genres(f) && binds == words + Texts(f.genres);
    parts, binds, usesRated := PushBounds(f, parts, binds);
  }

  /** Push the binds of the fixed vocabulary. */
  method PushWords(f: Filter) returns (binds: seq<Bind>)
    ensures binds == OfWord(f.typeWord) + OfWord(f.statusWord) + OfTiers(f)
  {
    binds := [];
    if f.typeWord.Some? { binds := binds + [Text(f.typeWord.value)]; }
    assert binds == OfWord(f.typeWord);
    ghost var first := binds;
    if f.statusWord.Some? { binds := binds + [Text(f.statusWord.value)]; }
    assert binds == first + OfWord(f.statusWord);
    if f.ratings.Some? { binds := PushTexts(binds, f.ratings.value); }
  }

  /** Push the clauses over the fixed vocabulary. */
  method PushVocabulary(f: Filter) returns (parts: seq<Clause>)
    ensures parts == Gate(f) + Words(f) + Tiers(f) + Chapters(f)
  {
    parts := [];
    if !f.showNsfw { parts := parts + [SafeOnly]; }
    if f.nsfwOnly { parts := parts + [AdultOnly]; }
    ghost var gate := parts;
    assert gate == Gate(f);
    if f.typeWord.Some? { parts := parts + [TypeIs]; }
    if f.statusWord.Some? { parts := parts + [StatusIs]; }
    ghost var words := parts;
    assert words == gate + Words(f);
    if f.ratings.Some? {
      if |f.ratings.value| == 1 {
        parts := parts + [RatingIs];
      } else {
        parts := parts + [RatingIn(|f.ratings.value|)];
      }
    }
    ghost var tiers := parts;
    assert tiers == words + Tiers(f);
    if f.hasChapters == Some(true) {
      parts := parts + [SomeChapters];
    } else if f.hasChapters == Some(false) {
      parts := parts + [NoChapters];
    }
    assert parts == tiers + Chapters(f);
  }

  /** Push one clause and one bind for each bound that is there. */
  method PushBounds(f: Filter, p: seq<Clause>, b: seq<Bind>) returns (parts: seq<Clause>, binds: seq<Bind>, usesRated: bool)
    ensures parts == p + Bounds(f) && binds == b + OfBound(f.minRating) + OfBound(f.maxRating)
    ensures usesRated == UsesReviews(f)
  {
    parts, binds, usesRated := p, b, false;
    if f.minRating.Some? {
      usesRated, parts, binds := true, parts + [AverageAtLeast], binds + [Real(f.minRating.value)];
    }
    if f.maxRating.Some? {
      usesRated, parts, binds := true, parts + [AverageAtMost], binds + [Real(f.maxRating.value)];
    }
  }

  method PushTexts(binds: seq<Bind>, words: seq<string>) returns (r: seq<Bind>)
    ensures r == binds + Texts(words)
  {
    r := binds;
    for i := 0 to |words|
      invariant r == binds + Texts(words[..i])
    {
      r := r + [Text(words[i])];
      assert Texts(words[..i + 1]) == Texts(words[..i]) + [Text(words[i])];
    }
    assert words[..|words|] == words;
  }

  // ---- what the compiled statement means ---------------------------------------------------

  lemma {:induction false} EvaluateAppend(p: seq<Clause>, q: seq<Clause>, binds: seq<Bind>, cte: bool, t: Tables, id: string)
    requires id in t.rows
    ensures var first := Evaluate(p, binds, cte, t, id);
            Evaluate(p + q, binds, cte, t, id) ==
            if first.None? then None
            else
              var second := Evaluate(q, first.value.1, cte, t, id);
              if second.None? then None else Some((first.value.0 && second.value.0, second.value.1))
  {
    if p == [] {
      assert p + q == q;
    } else {
      assert (p + q)[1..] == p[1..] + q;
      var k := Holes(p[0]);
      if k <= |binds| { EvaluateAppend(p[1..], q, binds[k..], cte, t, id); }
    }
  }

  lemma MeansAppend(p: seq<Clause>, a: seq<Bind>, x: bool, q: seq<Clause>, b: seq<Bind>, y: bool,
                    cte: bool, t: Tables, id: string)
    requires id in t.rows && Means(p, a, cte, t, id, x) && Means(q, b, cte, t, id, y)
    ensures Means(p + q, a + b, cte, t, id, x && y)
  {
    forall rest
      ensures Evaluate(p + q, a + b + rest, cte, t, id) == Some((x && y, rest))
    {
      BothEvaluate(p, a, x, q, b, y, rest, cte, t, id);
    }
  }

  lemma BothEvaluate(p: seq<Clause>, a: seq<Bind>, x: bool, q: seq<Clause>, b: seq<Bind>, y: bool, rest: seq<Bind>,
                     cte: bool, t: Tables, id: string)
    requires id in t.rows && Means(p, a, cte, t, id, x) && Means(q, b, cte, t, id, y)
    ensures Evaluate(p + q, a + b + rest, cte, t, id) == Some((x && y, rest))
  {
    assert Evaluate(p, a + (b + rest), cte, t, id) == Some((x, b + rest));
    assert Evaluate(q, b + rest, cte, t, id) == Some((y, rest));
    EvaluateAppend(p, q, a + (b + rest), cte, t, id);
    assert a + b + rest == a + (b + rest);
  }

  lemma NoClause(cte: bool, t: Tables, id: string)
    requires id in t.rows
    ensures Means([], [], cte, t, id, true)
  {
    forall rest: seq<Bind> ensures Evaluate([], [] + rest, cte, t, id) == Some((true, rest)) {
      assert [] + rest == rest;
    }
  }

  lemma OneClause(c: Clause, args: seq<Bind>, cte: bool, t: Tables, id: string, b: bool)
    requires id in t.rows && |args| == Holes(c) && Holds(c, args, cte, t, id) == Some(b)
    ensures Means([c], args, cte, t, id, b)
  {
    forall rest ensures Evaluate([c], args + rest, cte, t, id) == Some((b, rest)) {
      assert (args + rest)[..|args|] == args && (args + rest)[|args|..] == rest;
      assert [c][1..] == [];
      assert Evaluate([], rest, cte, t, id) == Some((true, rest));
    }
  }

  lemma GateMeans(f: Filter, cte: bool, t: Tables, id: string)
    requires id in t.rows
    ensures Means(Gate(f), [], cte, t, id, Shown(f, t.rows[id]))
  {
    NoClause(cte, t, id);
    OneClause(SafeOnly, [], cte, t, id, !t.rows[id].nsfw);
    OneClause(AdultOnly, [], cte, t, id, t.rows[id].nsfw);
    var a, b := if f.showNsfw then [] else [SafeOnly], if f.nsfwOnly then [AdultOnly] else [];
    MeansAppend(a, [], t.rows[id].nsfw ==> f.showNsfw, b, [], f.nsfwOnly ==> t.rows[id].nsfw, cte, t, id);
    var none: seq<Bind> := [];
    assert none + none == none;
  }

  lemma WordsMean(f: Filter, cte: bool, t: Tables, id: string)
    requires id in t.rows
    ensures Means(Words(f), OfWord(f.typeWord) + OfWord(f.statusWord), cte, t, id, WordsMatch(f, t.rows[id]))
  {
    NoClause(cte, t, id);
    if f.typeWord.Some? { OneClause(TypeIs, OfWord(f.typeWord), cte, t, id, t.rows[id].comicType == f.typeWord); }
    if f.statusWord.Some? { OneClause(StatusIs, OfWord(f.statusWord), cte, t, id, t.rows[id].status == f.statusWord); }
    var a, b := if f.typeWord.Some? then [TypeIs] else [], if f.statusWord.Some? then [StatusIs] else [];
    MeansAppend(a, OfWord(f.typeWord), f.typeWord.Some? ==> t.rows[id].comicType == f.typeWord,
                b, OfWord(f.statusWord), f.statusWord.Some? ==> t.rows[id].status == f.statusWord, cte, t, id);
  }

  lemma TextsMember(words: seq<string>, w: string)
    ensures Text(w) in Texts(words) <==> w in words
  {
    if Text(w) in Texts(words) {
      var i :| 0 <= i < |words| && Texts(words)[i] == Text(w);
      assert words[i] == w;
    }
    if w in words {
      var i :| 0 <= i < |words| && words[i] == w;
      assert Texts(words)[i] == Text(w);
    }
  }

  lemma TiersMean(f: Filter, cte: bool, t: Tables, id: string)
    requires id in t.rows
    ensures Means(Tiers(f), OfTiers(f), cte, t, id, TierAdmits(f, t.rows[id]))
  {
    var r := t.rows[id].contentRating;
    NoClause(cte, t, id);
    if f.ratings.Some? {
      var words := f.ratings.value;
      if r.Some? { TextsMember(words, r.value); }
      var b := r.Some? && r.value in words;
      if |words| == 1 {
        assert b <==> r == Some(words[0]);
        OneClause(RatingIs, Texts(words), cte, t, id, b);
      } else {
        OneClause(RatingIn(|words|), Texts(words), cte, t, id, b);
      }
    }
  }

  lemma ChaptersMean(f: Filter, cte: bool, t: Tables, id: string)
    requires id in t.rows
    ensures Means(Chapters(f), [], cte, t, id, ChaptersMatch(f, t.rows[id]))
  {
    NoClause(cte, t, id);
    OneClause(SomeChapters, [], cte, t, id, t.rows[id].chapters > 0);
    OneClause(NoChapters, [], cte, t, id, t.rows[id].chapters == 0);
  }

  lemma GenresMean(f: Filter, cte: bool, t: Tables, id: string)
    requires id in t.rows
    ensures Means(Genres(f), Texts(f.genres), cte, t, id, AnyGenre(f, TagsOf(t, id)))
  {
    NoClause(cte, t, id);
    if f.genres != [] {
      var args := Texts(f.genres);
      forall g ensures Text(g) in args <==> g in f.genres { TextsMember(f.genres, g); }
      OneClause(TaggedIn(|f.genres|), args, cte, t, id, AnyGenre(f, TagsOf(t, id)));
    }
  }

  lemma BoundsMean(f: Filter, cte: bool, t: Tables, id: string)
    requires id in t.rows && (UsesReviews(f) ==> cte)
    ensures Means(Bounds(f), OfBound(f.minRating) + OfBound(f.maxRating), cte, t, id, WithinBounds(f, Average(t, id)))
  {
    NoClause(cte, t, id);
    if f.minRating.Some? {
      OneClause(AverageAtLeast, OfBound(f.minRating), cte, t, id, Average(t, id) >= f.minRating.value);
    }
    if f.maxRating.Some? {
      OneClause(AverageAtMost, OfBound(f.maxRating), cte, t, id, Average(t, id) <= f.maxRating.value);
    }
    var a, b := if f.minRating.Some? then [AverageAtLeast] else [], if f.maxRating.Some? then [AverageAtMost] else [];
    MeansAppend(a, OfBound(f.minRating), f.minRating.Some? ==> Average(t, id) >= f.minRating.value,
                b, OfBound(f.maxRating), f.maxRating.Some? ==> Average(t, id) <= f.maxRating.value, cte, t, id);
  }

  /**
   * Every placeholder receives the bind meant for it: the compiled clauses use up exactly the
   * binds pushed with them and hold of exactly the rows the filter asks for, provided the
   * review aggregate is there whenever the compiler says so.
   */
  lemma CompiledMeansMatches(f: Filter, cte: bool, t: Tables, id: string)
    requires id in t.rows && (UsesReviews(f) ==> cte)
    ensures Means(Parts(f), Binds(f), cte, t, id, Matches(f, t, id))
  {
    var row := t.rows[id];
    GateMeans(f, cte, t, id);
    WordsMean(f, cte, t, id);
    TiersMean(f, cte, t, id);
    ChaptersMean(f, cte, t, id);
    GenresMean(f, cte, t, id);
    BoundsMean(f, cte, t, id);
    BindsRegroup(f);
    SixParts(Gate(f), [], Shown(f, row), Words(f), OfWord(f.typeWord) + OfWord(f.statusWord), WordsMatch(f, row),
             Tiers(f), OfTiers(f), TierAdmits(f, row), Chapters(f), [], ChaptersMatch(f, row),
             Genres(f), Texts(f.genres), AnyGenre(f, TagsOf(t, id)),
             Bounds(f), OfBound(f.minRating) + OfBound(f.maxRating), WithinBounds(f, Average(t, id)), cte, t, id);
  }

  lemma BindsRegroup(f: Filter)
    ensures [] + (OfWord(f.typeWord) + OfWord(f.statusWord)) + OfTiers(f) + [] + Texts(f.genres)
            + (OfBound(f.minRating) + OfBound(f.maxRating)) == Binds(f)
  {
  }

  lemma SixParts(p1: seq<Clause>, b1: seq<Bind>, x1: bool, p2: seq<Clause>, b2: seq<Bind>, x2: bool,
                 p3: seq<Clause>, b3: seq<Bind>, x3: bool, p4: seq<Clause>, b4: seq<Bind>, x4: bool,
                 p5: seq<Clause>, b5: seq<Bind>, x5: bool, p6: seq<Clause>, b6: seq<Bind>, x6: bool,
                 cte: bool, t: Tables, id: string)
    requires id in t.rows
    requires Means(p1, b1, cte, t, id, x1) && Means(p2, b2, cte, t, id, x2) && Means(p3, b3, cte, t, id, x3)
    requires Means(p4, b4, cte, t, id, x4) && Means(p5, b5, cte, t, id, x5) && Means(p6, b6, cte, t, id, x6)
    ensures Means(p1 + p2 + p3 + p4 + p5 + p6, b1 + b2 + b3 + b4 + b5 + b6, cte, t, id, x1 && x2 && x3 && x4 && x5 && x6)
  {
    MeansAppend(p1, b1, x1, p2, b2, x2, cte, t, id);
    MeansAppend(p1 + p2, b1 + b2, x1 && x2, p3, b3, x3, cte, t, id);
    MeansAppend(p1 + p2 + p3, b1 + b2 + b3, x1 && x2 && x3, p4, b4, x4, cte, t, id);
    MeansAppend(p1 + p2 + p3 + p4, b1 + b2 + b3 + b4, x1 && x2 && x3 && x4, p5, b5, x5, cte, t, id);
    MeansAppend(p1 + p2 + p3 + p4 + p5, b1 + b2 + b3 + b4 + b5, x1 && x2 && x3 && x4 && x5, p6, b6, x6, cte, t, id);
  }

  /** The same with the trending list appended, as a selection or as an exclusion. */
  lemma CompiledWithIds(f: Filter, among: bool, ids: seq<string>, cte: bool, t: Tables, id: string)
    requires id in t.rows && (UsesReviews(f) ==> cte)
    ensures Means(Parts(f) + [if among then IdIn(|ids|) else IdNotIn(|ids|)], Binds(f) + Texts(ids), cte, t, id,
                  Matches(f, t, id) && (id in ids <==> among))
  {
    CompiledMeansMatches(f, cte, t, id);
    if among { IdInMeans(ids, cte, t, id); } else { IdNotInMeans(ids, cte, t, id); }
    var c := if among then IdIn(|ids|) else IdNotIn(|ids|);
    MeansAppend(Parts(f), Binds(f), Matches(f, t, id), [c], Texts(ids), id in ids <==> among, cte, t, id);
  }

  lemma {:induction false} IdClauseHolds(ids: seq<string>, cte: bool, t: Tables, id: string)
    requires id in t.rows
    ensures Holds(IdIn(|ids|), Texts(ids), cte, t, id) == Some(id in ids)
    ensures Holds(IdNotIn(|ids|), Texts(ids), cte, t, id) == Some(id !in ids)
  {
    var args := Texts(ids);
    TextsMember(ids, id);
    assert AllText(args);
    assert (Text(id) in args) == (id in ids);
  }

  lemma {:induction false} IdInMeans(ids: seq<string>, cte: bool, t: Tables, id: string)
    requires id in t.rows
    ensures Means([IdIn(|ids|)], Texts(ids), cte, t, id, id in ids)
  {
    IdClauseHolds(ids, cte, t, id);
    OneClause(IdIn(|ids|), Texts(ids), cte, t, id, id in ids);
  }

  lemma {:induction false} IdNotInMeans(ids: seq<string>, cte: bool, t: Tables, id: string)
    requires id in t.rows
    ensures Means([IdNotIn(|ids|)], Texts(ids), cte, t, id, id !in ids)
  {
    IdClauseHolds(ids, cte, t, id);
    OneClause(IdNotIn(|ids|), Texts(ids), cte, t, id, id !in ids);
  }

  /** The same with the complement of the rated works appended. */
  lemma CompiledUnrated(f: Filter, t: Tables, id: string)
    requires id in t.rows
    ensures Means(Parts(f) + [Unrated], Binds(f), true, t, id, Matches(f, t, id) && id !in t.rated)
  {
    CompiledMeansMatches(f, true, t, id);
    OneClause(Unrated, [], true, t, id, id !in t.rated);
    MeansAppend(Parts(f), Binds(f), Matches(f, t, id), [Unrated], [], id !in t.rated, true, t, id);
    assert Binds(f) + [] == Binds(f);
  }
}
