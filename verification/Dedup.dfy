/** The dedup ladder: which work of the spine a candidate is, if any. */
module DedupLadder {
  import opened Wrappers
  import Ordering
  import opened DedupScore

  type WorkId = string

  /** What the ladder looks things up in. `block` answers the token lookup, already cut to its limit. */
  datatype Spine = Spine(
    external: map<(string, string), WorkId>,
    aliases: map<WorkId, set<string>>,
    matchData: map<WorkId, MatchData>,
    block: string -> set<WorkId>,
    splits: set<(WorkId, WorkId)>)

  /** The match data of a work lists the aliases the alias index holds for it. */
  ghost predicate Consistent(s: Spine) {
    forall w, t | w in s.matchData && w in s.aliases && t in s.aliases[w] :: t in s.matchData[w].aliases
  }

  /** Which rung a verdict came from. */
  datatype How = ExternalId | TitleExact | Fuzzy

  datatype Decision =
    | AutoMerge(work: WorkId, score: real, how: How)
    | Review(work: WorkId, score: real, how: How)
    | New

  const FUZZY_BLOCK_TOKENS := 3
  const EXACT_MERGE_MIN_TITLE_CHARS := 5

  function FindWorksByAlias(s: Spine, title: string): set<WorkId> {
    if title == "" then {} else set w | w in s.aliases && title in s.aliases[w]
  }

  predicate IsSplitPair(s: Spine, one: WorkId, other: WorkId) {
    (if Ordering.Less(one, other) then (one, other) else (other, one)) in s.splits
  }

  // ---- the rungs ---------------------------------------------------------------------------

  /** The first external id that names a work other than the excluded one. */
  function ExternalHit(ids: seq<(string, string)>, s: Spine, exclude: Option<WorkId>): Option<WorkId> {
    if ids == [] then None
    else if ids[0].0 != "" && ids[0].1 != "" && ids[0] in s.external && Some(s.external[ids[0]]) != exclude
    then Some(s.external[ids[0]])
    else ExternalHit(ids[1..], s, exclude)
  }

  function Normalized(titles: seq<string>, m: Measures): seq<string> {
    if titles == [] then []
    else (if m.normalize(titles[0]) != "" then [m.normalize(titles[0])] else []) + Normalized(titles[1..], m)
  }

  function NormTitles(cand: Candidate, m: Measures): seq<string> {
    Ordering.Dedup(Ordering.Sort(Normalized([cand.title] + cand.altTitles, m), Ordering.Less))
  }

  function Without(ids: set<WorkId>, exclude: Option<WorkId>): set<WorkId> {
    if exclude.Some? then ids - {exclude.value} else ids
  }

  /** Every work some key answers to. */
  function Union(keys: seq<string>, answers: string -> set<WorkId>): set<WorkId> {
    if keys == [] then {} else Union(keys[..|keys| - 1], answers) + answers(keys[|keys| - 1])
  }

  function ByAlias(s: Spine): string -> set<WorkId> { t => FindWorksByAlias(s, t) }

  /** The works other than the excluded one that carry one of the titles. */
  function ExactMatches(titles: seq<string>, s: Spine, exclude: Option<WorkId>): set<WorkId> {
    Without(Union(titles, ByAlias(s)), exclude)
  }

  /** The works other than the excluded one that share a word. */
  function FuzzyMatches(tokens: seq<string>, s: Spine, exclude: Option<WorkId>): set<WorkId> {
    Without(Union(tokens, s.block), exclude)
  }

  lemma {:induction false} UnionMembers(keys: seq<string>, answers: string -> set<WorkId>, w: WorkId)
    ensures w in Union(keys, answers) <==> exists t | t in keys :: w in answers(t)
  {
    if keys != [] {
      UnionMembers(keys[..|keys| - 1], answers, w);
      assert keys == keys[..|keys| - 1] + [keys[|keys| - 1]];
    }
  }

  function Candidates(titles: seq<string>, s: Spine, exclude: Option<WorkId>): set<WorkId> {
    if ExactMatches(titles, s, exclude) != {} then ExactMatches(titles, s, exclude)
    else FuzzyMatches(TopTokens(titles, FUZZY_BLOCK_TOKENS), s, exclude)
  }

  /** A title of some length whose matches include a work other than the excluded one. */
  predicate LongHit(titles: seq<string>, s: Spine, exclude: Option<WorkId>) {
    exists t | t in titles :: |t| >= EXACT_MERGE_MIN_TITLE_CHARS && Without(FindWorksByAlias(s, t), exclude) != {}
  }

  // ---- the best candidate --------------------------------------------------------------------

  /** Scores of the candidates whose match data could be loaded. */
  function Scores(ids: set<WorkId>, cand: Candidate, titles: seq<string>, s: Spine, m: Measures): map<WorkId, Scored> {
    map w | w in ids && w in s.matchData :: ScoreCandidate(cand, titles, s.matchData[w], m)
  }

  predicate Better(scores: map<WorkId, Scored>, a: WorkId, b: WorkId)
    requires a in scores && b in scores
  {
    scores[a].score > scores[b].score || (scores[a].score == scores[b].score && Ordering.Less(a, b))
  }

  /** The highest score, the lowest id among equals. */
  ghost predicate IsBest(scores: map<WorkId, Scored>, w: WorkId) {
    w in scores && forall v | v in scores && v != w :: Better(scores, w, v)
  }

  lemma BestIsUnique(scores: map<WorkId, Scored>, a: WorkId, b: WorkId)
    requires IsBest(scores, a) && IsBest(scores, b)
    ensures a == b
  {
    if a != b && Ordering.Less(a, b) { Ordering.Asymmetric(a, b); }
  }

  lemma {:induction false} BestExists(scores: map<WorkId, Scored>)
    requires scores != map[]
    ensures exists w :: IsBest(scores, w)
    decreases |scores|
  {
    var w :| w in scores;
    var rest := scores - {w};
    assert rest.Keys == scores.Keys - {w};
    assert forall u | u in scores && u != w :: u in rest && rest[u] == scores[u];
    if rest == map[] {
      assert forall u | u in scores :: u == w;
      assert IsBest(scores, w);
    } else {
      BestExists(rest);
      var v :| IsBest(rest, v);
      forall u | u in scores && u != v && u != w ensures Better(scores, v, u) { assert Better(rest, v, u); }
      BetterOfTwo(scores, v, w);
    }
  }

  lemma BetterOfTwo(scores: map<WorkId, Scored>, v: WorkId, w: WorkId)
    requires w in scores && v in scores && v != w
    requires forall u | u in scores && u != v && u != w :: Better(scores, v, u)
    ensures IsBest(scores, if Better(scores, w, v) then w else v)
  {
    Ordering.LessIsStrictTotal();
    if Better(scores, w, v) {
      forall u | u in scores && u != w ensures Better(scores, w, u) {
        if u != v { assert Better(scores, v, u); }
      }
    }
  }

  // ---- the verdict -----------------------------------------------------------------------------

  predicate CoverCorroborates(cand: Candidate, scored: Scored) {
    && scored.phashSimilarity.Some? && scored.phashSimilarity.value >= PHASH_CORROBORATION
    && cand.coverPhash.Some? && IsDiscriminativePhash(cand.coverPhash.value)
  }

  function Decide(cand: Candidate, work: WorkId, scored: Scored, exactHit: bool, identified: bool): Decision {
    var how := if exactHit then TitleExact else Fuzzy;
    if identified || (scored.score >= HIGH && CoverCorroborates(cand, scored)) then AutoMerge(work, scored.score, how)
    else if scored.score >= MID then Review(work, scored.score, how)
    else New
  }

  /** One title of some length, and one work that all the titles together match. */
  predicate Identified(titles: seq<string>, s: Spine, exclude: Option<WorkId>) {
    |ExactMatches(titles, s, exclude)| == 1 && LongHit(titles, s, exclude)
  }

  /** The verdict, with no order in which anything is looked at. */
  ghost function Verdict(cand: Candidate, s: Spine, exclude: Option<WorkId>, m: Measures): Decision {
    var hit := ExternalHit(cand.externalIds, s, exclude);
    var titles := NormTitles(cand, m);
    var scores := Scores(Candidates(titles, s, exclude), cand, titles, s, m);
    if hit.Some? then AutoMerge(hit.value, 1.0, ExternalId)
    else if scores == map[] then New
    else
      BestExists(scores);
      var work :| IsBest(scores, work);
      if exclude.Some? && IsSplitPair(s, exclude.value, work) then New
      else
        Decide(cand, work, scores[work], ExactMatches(titles, s, exclude) != {}, Identified(titles, s, exclude))
  }

  /** Walk the external ids until one names another work. */
  method ExternalRung(ids: seq<(string, string)>, s: Spine, exclude: Option<WorkId>) returns (hit: Option<WorkId>)
    ensures hit == ExternalHit(ids, s, exclude)
  {
    for i := 0 to |ids|
      invariant ExternalHit(ids, s, exclude) == ExternalHit(ids[i..], s, exclude)
    {
      assert ids[i..][1..] == ids[i + 1..];
      var (provider, ext) := ids[i];
      if provider == "" || ext == "" { continue; }
      if (provider, ext) in s.external {
        var work := s.external[(provider, ext)];
        if Some(work) == exclude { continue; }
        return Some(work);
      }
    }
    hit := None;
  }

  /** Look every title up, and remember whether another work answered and to which titles. */
  method ExactRung(titles: seq<string>, s: Spine, exclude: Option<WorkId>)
    returns (ids: set<WorkId>, exactHit: bool, longHit: bool)
    ensures ids == ExactMatches(titles, s, exclude)
    ensures exactHit == (ids != {}) && longHit == LongHit(titles, s, exclude)
  {
    ids, exactHit := {}, false;
    var hits: seq<string> := [];
    for i := 0 to |titles|
      invariant ids == Union(titles[..i], ByAlias(s))
      invariant exactHit == (Without(ids, exclude) != {})
      invariant forall t :: t in hits <==> t in titles[..i] && Without(FindWorksByAlias(s, t), exclude) != {}
    {
      assert titles[..i + 1] == titles[..i] + [titles[i]] && titles[..i + 1][..i] == titles[..i];
      var found := FindWorksByAlias(s, titles[i]);
      if Without(found, exclude) != {} {
        exactHit, hits := true, hits + [titles[i]];
      }
      ids := ids + found;
    }
    assert titles[..|titles|] == titles;
    ids := Without(ids, exclude);
    if exclude.Some? && ids == {} { exactHit := false; }
    longHit := exists t | t in hits :: |t| >= EXACT_MERGE_MIN_TITLE_CHARS;
  }

  method FuzzyRung(titles: seq<string>, s: Spine, exclude: Option<WorkId>) returns (ids: set<WorkId>)
    ensures ids == FuzzyMatches(TopTokens(titles, FUZZY_BLOCK_TOKENS), s, exclude)
  {
    ids := {};
    var tokens := TopTokens(titles, FUZZY_BLOCK_TOKENS);
    for i := 0 to |tokens|
      invariant ids == Union(tokens[..i], s.block)
    {
      assert tokens[..i + 1][..i] == tokens[..i];
      ids := ids + s.block(tokens[i]);
    }
    assert tokens[..|tokens|] == tokens;
    ids := Without(ids, exclude);
  }

  /** Keep a running best over the candidates, in whatever order they come. */
  method BestOf(ids: set<WorkId>, cand: Candidate, titles: seq<string>, s: Spine, m: Measures)
    returns (best: Option<(Scored, WorkId)>)
    ensures var scores := Scores(ids, cand, titles, s, m);
            if scores == map[] then best.None?
            else best.Some? && IsBest(scores, best.value.1) && best.value.0 == scores[best.value.1]
  {
    best := None;
    var rest, seen := ids, {};
    ghost var scores := Scores(ids, cand, titles, s, m);
    while rest != {}
      invariant seen !! rest && seen + rest == ids
      invariant best.None? ==> forall v | v in seen :: v !in s.matchData
      invariant best.Some? ==> best.value.1 in scores && best.value.1 in seen && best.value.0 == scores[best.value.1]
      invariant best.Some? ==> forall v | v in seen && v in scores && v != best.value.1 :: Better(scores, best.value.1, v)
      decreases rest
    {
      var wid :| wid in rest;
      if wid in s.matchData {
        var scored := ScoreCandidate(cand, titles, s.matchData[wid], m);
        var replace := best.None? || scored.score > best.value.0.score
                       || (scored.score == best.value.0.score && Ordering.Less(wid, best.value.1));
        if best.Some? { StaysBest(scores, seen, best.value.1, wid); }
        if replace { best := Some((scored, wid)); }
      }
      rest, seen := rest - {wid}, seen + {wid};
    }
  }

  /** The better of the best so far and a newcomer is the best of them all. */
  lemma StaysBest(scores: map<WorkId, Scored>, seen: set<WorkId>, b: WorkId, w: WorkId)
    requires b in scores && w in scores && w !in seen && b in seen
    requires forall v | v in seen && v in scores && v != b :: Better(scores, b, v)
    ensures if Better(scores, w, b) then forall v | v in seen && v in scores :: Better(scores, w, v) else Better(scores, b, w)
  {
    Ordering.LessIsStrictTotal();
    if Better(scores, w, b) {
      forall v | v in seen && v in scores ensures Better(scores, w, v) {
        if v != b { assert Better(scores, b, v); }
      }
    }
  }

  /** Climb the ladder. */
  method ResolveEx(cand: Candidate, s: Spine, exclude: Option<WorkId>, m: Measures) returns (d: Decision)
    ensures d == Verdict(cand, s, exclude, m)
  {
    var hit := ExternalRung(cand.externalIds, s, exclude);
    if hit.Some? { return AutoMerge(hit.value, 1.0, ExternalId); }
    var titles := NormTitles(cand, m);
    if titles == [] {
      NoTitles(s, exclude, cand, m);
      return New;
    }
    var ids, exactHit, longHit := ExactRung(titles, s, exclude);
    var exactCandidates := |ids|;
    if ids == {} { ids := FuzzyRung(titles, s, exclude); }
    if ids == {} { return New; }
    var best := BestOf(ids, cand, titles, s, m);
    if best.None? { return New; }
    var (scored, work) := best.value;
    BestIsTheBest(Scores(ids, cand, titles, s, m), work);
    if exclude.Some? && IsSplitPair(s, exclude.value, work) { return New; }
    d := Decide(cand, work, scored, exactHit, exactHit && exactCandidates == 1 && longHit);
  }

  lemma BestIsTheBest(scores: map<WorkId, Scored>, work: WorkId)
    requires IsBest(scores, work)
    ensures forall w | IsBest(scores, w) :: w == work
  {
    forall w | IsBest(scores, w) ensures w == work { BestIsUnique(scores, w, work); }
  }

  lemma NoTitles(s: Spine, exclude: Option<WorkId>, cand: Candidate, m: Measures)
    ensures TopTokens([], FUZZY_BLOCK_TOKENS) == [] && Candidates([], s, exclude) == {}
    ensures Scores({}, cand, [], s, m) == map[]
  {
  }

  // ---- what a verdict promises -----------------------------------------------------------------

  /** No verdict names the excluded work. */
  lemma NeverTheExcluded(cand: Candidate, s: Spine, exclude: WorkId, m: Measures)
    ensures var d := Verdict(cand, s, Some(exclude), m); d.New? || d.work != exclude
  {
    ExternalIsAnother(cand.externalIds, s, Some(exclude));
  }

  lemma {:induction false} ExternalIsAnother(ids: seq<(string, string)>, s: Spine, exclude: Option<WorkId>)
    ensures var hit := ExternalHit(ids, s, exclude);
            hit.Some? ==> hit != exclude && exists k | k in ids :: k in s.external && s.external[k] == hit.value
  {
    if ids != [] {
      ExternalIsAnother(ids[1..], s, exclude);
      assert ids == [ids[0]] + ids[1..];
    }
  }

  /** The score is in the high band, and a discriminative cover agrees almost bit for bit. */
  predicate MergedByCover(d: Decision, cand: Candidate, s: Spine)
    requires d.AutoMerge?
  {
    && d.score >= HIGH
    && cand.coverPhash.Some? && IsDiscriminativePhash(cand.coverPhash.value)
    && d.work in s.matchData
    && var p := PhashSimilarity(cand.coverPhash, s.matchData[d.work].coverPhash);
       p.Some? && p.value >= PHASH_CORROBORATION
  }

  /**
   * A fuzzy merge always rests on the cover, and without one titles merge only when they identify the work: one of
   * at least five characters matches it, and all of them together match nothing else.
   */
  lemma TitleMergeNeedsIdentity(cand: Candidate, s: Spine, exclude: Option<WorkId>, m: Measures)
    requires ExternalHit(cand.externalIds, s, exclude).None?
    ensures var d := Verdict(cand, s, exclude, m);
            d.AutoMerge? && !MergedByCover(d, cand, s) ==>
              && d.how == TitleExact
              && ExactMatches(NormTitles(cand, m), s, exclude) == {d.work}
              && LongTitleOf(NormTitles(cand, m), s, d.work)
  {
    var titles := NormTitles(cand, m);
    var d := Verdict(cand, s, exclude, m);
    if d.AutoMerge? && !MergedByCover(d, cand, s) {
      var exact := ExactMatches(titles, s, exclude);
      assert Identified(titles, s, exclude);
      assert d.work in exact;
      Singleton(exact, d.work);
      var t :| t in titles && |t| >= EXACT_MERGE_MIN_TITLE_CHARS && Without(FindWorksByAlias(s, t), exclude) != {};
      var w :| w in Without(FindWorksByAlias(s, t), exclude);
      UnionMembers(titles, ByAlias(s), w);
      assert w in ByAlias(s)(t) && w in exact;
    }
  }

  /** A title of some length is an alias of the work. */
  predicate LongTitleOf(titles: seq<string>, s: Spine, work: WorkId) {
    exists t | t in titles :: |t| >= EXACT_MERGE_MIN_TITLE_CHARS && work in FindWorksByAlias(s, t)
  }

  lemma Singleton(s: set<WorkId>, x: WorkId)
    requires |s| == 1 && x in s
    ensures s == {x}
  {
    assert |s - {x}| == 0;
  }

  /** Titles that identify one loaded, unsplit work always merge. */
  lemma IdentityMerges(cand: Candidate, s: Spine, exclude: Option<WorkId>, m: Measures, work: WorkId)
    requires ExternalHit(cand.externalIds, s, exclude).None?
    requires ExactMatches(NormTitles(cand, m), s, exclude) == {work} && LongHit(NormTitles(cand, m), s, exclude)
    requires work in s.matchData && (exclude.Some? ==> !IsSplitPair(s, exclude.value, work))
    ensures var d := Verdict(cand, s, exclude, m); d.AutoMerge? && d.work == work && d.how == TitleExact
  {
    var titles := NormTitles(cand, m);
    var scores := Scores(Candidates(titles, s, exclude), cand, titles, s, m);
    assert work in scores;
  }

  lemma {:induction false} NormalizedAre(titles: seq<string>, m: Measures, t: string)
    ensures t in Normalized(titles, m) <==> t != "" && exists x | x in titles :: m.normalize(x) == t
  {
    if titles != [] {
      NormalizedAre(titles[1..], m, t);
      assert titles == [titles[0]] + titles[1..];
    }
  }

  /** The titles looked up: every title and alternative title, normalized, blank ones dropped, each once and in order. */
  lemma NormTitlesAre(cand: Candidate, m: Measures, t: string)
    ensures t in NormTitles(cand, m) <==> t != "" && exists x | x == cand.title || x in cand.altTitles :: m.normalize(x) == t
    ensures Ordering.StrictlyOrdered(NormTitles(cand, m), Ordering.Less)
  {
    var all := Normalized([cand.title] + cand.altTitles, m);
    NormalizedAre([cand.title] + cand.altTitles, m, t);
    Ordering.LessIsStrictTotal();
    Ordering.SortMembers(all, Ordering.Less);
    Ordering.SortOrders(all, Ordering.Less);
    Ordering.DedupStrict(Ordering.Sort(all, Ordering.Less), Ordering.Less);
  }

  lemma NormTitlesAreNotEmpty(cand: Candidate, m: Measures, t: string)
    requires t in NormTitles(cand, m)
    ensures t != ""
  {
    var all := Normalized([cand.title] + cand.altTitles, m);
    Ordering.LessIsStrictTotal();
    Ordering.SortMembers(all, Ordering.Less);
    Ordering.SortOrders(all, Ordering.Less);
    Ordering.DedupStrict(Ordering.Sort(all, Ordering.Less), Ordering.Less);
    NormalizedNotEmpty([cand.title] + cand.altTitles, m, t);
  }

  lemma {:induction false} NormalizedNotEmpty(titles: seq<string>, m: Measures, t: string)
    requires t in Normalized(titles, m)
    ensures t != ""
  {
    if t in Normalized(titles[1..], m) { NormalizedNotEmpty(titles[1..], m, t); }
  }

  /** A work that shares a title scores in the review band at least. */
  lemma SharedTitleScores(cand: Candidate, s: Spine, exclude: Option<WorkId>, m: Measures, w: WorkId)
    requires Sensible(m) && Consistent(s)
    requires w in ExactMatches(NormTitles(cand, m), s, exclude) && w in s.matchData
    ensures ScoreCandidate(cand, NormTitles(cand, m), s.matchData[w], m).score >= MID
  {
    var titles := NormTitles(cand, m);
    UnionMembers(titles, ByAlias(s), w);
    var t :| t in titles && w in ByAlias(s)(t);
    NormTitlesAreNotEmpty(cand, m, t);
    ScoreBounds(cand, titles, s.matchData[w], m);
  }

  /** With the best candidate known, the verdict is the split guard's or the bands'. */
  lemma VerdictOf(cand: Candidate, s: Spine, exclude: Option<WorkId>, m: Measures, scores: map<WorkId, Scored>, best: WorkId)
    requires ExternalHit(cand.externalIds, s, exclude).None?
    requires scores == Scores(Candidates(NormTitles(cand, m), s, exclude), cand, NormTitles(cand, m), s, m)
    requires IsBest(scores, best) && !(exclude.Some? && IsSplitPair(s, exclude.value, best))
    ensures Verdict(cand, s, exclude, m)
            == Decide(cand, best, scores[best], ExactMatches(NormTitles(cand, m), s, exclude) != {},
                      Identified(NormTitles(cand, m), s, exclude))
  {
    BestIsTheBest(scores, best);
  }

  /** A discriminative cover of the candidate agrees with that of the work in nine bits of ten at least. */
  predicate CoverAgrees(cand: Candidate, s: Spine, work: WorkId) {
    && cand.coverPhash.Some? && IsDiscriminativePhash(cand.coverPhash.value) && work in s.matchData
    && var p := PhashSimilarity(cand.coverPhash, s.matchData[work].coverPhash);
       p.Some? && p.value >= 0.9
  }

  /** The titles identify the work: no other one carries any of them, and one of at least five characters is its own. */
  predicate TitlesIdentify(titles: seq<string>, s: Spine, exclude: Option<WorkId>, work: WorkId) {
    && (forall w, t | w in s.aliases && t in titles && t in s.aliases[w] && Some(w) != exclude :: w == work)
    && work in s.aliases && Some(work) != exclude
    && exists t | t in titles :: |t| >= 5 && t in s.aliases[work]
  }

  lemma MatchesAre(titles: seq<string>, s: Spine, exclude: Option<WorkId>, w: WorkId)
    requires "" !in titles
    ensures w in ExactMatches(titles, s, exclude)
       <==> w in s.aliases && Some(w) != exclude && exists t | t in titles :: t in s.aliases[w]
  {
    UnionMembers(titles, ByAlias(s), w);
  }

  /** Which titles hit, once the work is the only match. */
  lemma LongHitOfOne(titles: seq<string>, s: Spine, exclude: Option<WorkId>, work: WorkId)
    requires "" !in titles && ExactMatches(titles, s, exclude) == {work}
    ensures work in s.aliases && Some(work) != exclude
    ensures LongHit(titles, s, exclude) <==> exists t | t in titles :: |t| >= 5 && t in s.aliases[work]
  {
    MatchesAre(titles, s, exclude, work);
    forall t | t in titles
      ensures Without(FindWorksByAlias(s, t), exclude) != {} <==> t in s.aliases[work]
    {
      HitsOf(titles, s, exclude, work, t);
    }
  }

  lemma HitsOf(titles: seq<string>, s: Spine, exclude: Option<WorkId>, work: WorkId, t: string)
    requires "" !in titles && ExactMatches(titles, s, exclude) == {work} && t in titles
    requires work in s.aliases && Some(work) != exclude
    ensures Without(FindWorksByAlias(s, t), exclude) != {} <==> t in s.aliases[work]
  {
    var hits := Without(FindWorksByAlias(s, t), exclude);
    if w :| w in hits {
      MatchesAre(titles, s, exclude, w);
      assert w in ExactMatches(titles, s, exclude);
    }
    if t in s.aliases[work] { assert work in hits; }
  }

  lemma OnlyMatch(titles: seq<string>, s: Spine, exclude: Option<WorkId>, work: WorkId)
    requires "" !in titles && work in s.aliases && Some(work) != exclude && exists t | t in titles :: t in s.aliases[work]
    ensures ExactMatches(titles, s, exclude) == {work}
       <==> forall w, t | w in s.aliases && t in titles && t in s.aliases[w] && Some(w) != exclude :: w == work
  {
    var exact := ExactMatches(titles, s, exclude);
    MatchesAre(titles, s, exclude, work);
    forall w ensures w in exact <==> w in s.aliases && Some(w) != exclude && exists t | t in titles :: t in s.aliases[w] {
      MatchesAre(titles, s, exclude, w);
    }
    if exact != {work} {
      var w :| w in exact && w != work;
    }
  }

  lemma IdentifiedMeans(titles: seq<string>, s: Spine, exclude: Option<WorkId>, work: WorkId)
    requires "" !in titles
    ensures Identified(titles, s, exclude) && work in ExactMatches(titles, s, exclude) <==> TitlesIdentify(titles, s, exclude, work)
  {
    MatchesAre(titles, s, exclude, work);
    if Identified(titles, s, exclude) && work in ExactMatches(titles, s, exclude) {
      Singleton(ExactMatches(titles, s, exclude), work);
      LongHitOfOne(titles, s, exclude, work);
      OnlyMatch(titles, s, exclude, work);
    }
    if TitlesIdentify(titles, s, exclude, work) {
      OnlyMatch(titles, s, exclude, work);
      LongHitOfOne(titles, s, exclude, work);
    }
  }

  lemma NoBlankTitle(cand: Candidate, m: Measures)
    ensures "" !in NormTitles(cand, m)
  {
    if "" in NormTitles(cand, m) { NormTitlesAreNotEmpty(cand, m, ""); }
  }

  /**
   * Without an external hit, and unless its pair was split, the best loaded candidate is merged exactly when the
   * titles identify it, or it scores 0.85 and a discriminative cover agrees; otherwise it is reviewed exactly when it
   * scores 0.6, and the candidate is new when it does not. Exact and fuzzy candidates differ in the label only.
   */
  lemma BandsDecide(cand: Candidate, s: Spine, exclude: Option<WorkId>, m: Measures, scores: map<WorkId, Scored>, best: WorkId)
    requires ExternalHit(cand.externalIds, s, exclude).None?
    requires scores == Scores(Candidates(NormTitles(cand, m), s, exclude), cand, NormTitles(cand, m), s, m)
    requires IsBest(scores, best) && !(exclude.Some? && IsSplitPair(s, exclude.value, best))
    ensures var d := Verdict(cand, s, exclude, m);
            var merges := TitlesIdentify(NormTitles(cand, m), s, exclude, best)
                          || (scores[best].score >= 0.85 && CoverAgrees(cand, s, best));
            && (d.AutoMerge? <==> merges)
            && (d.Review? <==> !merges && scores[best].score >= 0.6)
            && (d.New? <==> !merges && scores[best].score < 0.6)
            && (!d.New? ==> d.work == best && d.score == scores[best].score)
            && (!d.New? ==> (d.how == TitleExact <==> ExactMatches(NormTitles(cand, m), s, exclude) != {}))
            && (!d.New? ==> d.how != ExternalId)
  {
    var titles := NormTitles(cand, m);
    VerdictOf(cand, s, exclude, m, scores, best);
    NoBlankTitle(cand, m);
    IdentifiedMeans(titles, s, exclude, best);
    if Identified(titles, s, exclude) {
      assert best in ExactMatches(titles, s, exclude);
    }
  }

  /** An external id counts when it is whole and names a work other than the excluded one. */
  predicate Counts(id: (string, string), s: Spine, exclude: Option<WorkId>) {
    id.0 != "" && id.1 != "" && id in s.external && Some(s.external[id]) != exclude
  }

  /** The external rung answers with the work of the first id that counts, and with nothing exactly when none does. */
  lemma {:induction false} ExternalHitIs(ids: seq<(string, string)>, s: Spine, exclude: Option<WorkId>)
    ensures ExternalHit(ids, s, exclude).None? <==> forall k | 0 <= k < |ids| :: !Counts(ids[k], s, exclude)
    ensures forall k | 0 <= k < |ids| && Counts(ids[k], s, exclude) && (forall j | 0 <= j < k :: !Counts(ids[j], s, exclude)) ::
              ExternalHit(ids, s, exclude) == Some(s.external[ids[k]])
  {
    if ids != [] && !Counts(ids[0], s, exclude) {
      var rest := ids[1..];
      ExternalHitIs(rest, s, exclude);
      forall k | 0 <= k < |rest| ensures rest[k] == ids[k + 1] {}
      forall k | 0 < k < |ids| ensures ids[k] == rest[k - 1] {}
    }
  }

  /** A work other than the excluded one carries one of the titles. */
  predicate Carries(titles: seq<string>, s: Spine, exclude: Option<WorkId>, w: WorkId) {
    w in s.aliases && Some(w) != exclude && exists t | t in titles :: t in s.aliases[w]
  }

  /** The works carrying a title if any other than the excluded one does, else those one of the three tokens answers to. */
  lemma CandidatesAre(titles: seq<string>, s: Spine, exclude: Option<WorkId>, w: WorkId)
    requires "" !in titles
    ensures w in Candidates(titles, s, exclude) <==>
              if exists v :: Carries(titles, s, exclude, v) then Carries(titles, s, exclude, w)
              else Some(w) != exclude && exists k | k in TopTokens(titles, 3) :: w in s.block(k)
  {
    forall v ensures v in ExactMatches(titles, s, exclude) <==> Carries(titles, s, exclude, v) {
      MatchesAre(titles, s, exclude, v);
    }
    UnionMembers(TopTokens(titles, 3), s.block, w);
  }

  /** Before the bands: an external hit merges at once, and with nothing loaded, or the best pair split, the candidate is new. */
  lemma VerdictBeforeBands(cand: Candidate, s: Spine, exclude: Option<WorkId>, m: Measures)
    ensures var hit := ExternalHit(cand.externalIds, s, exclude);
            var scores := Scores(Candidates(NormTitles(cand, m), s, exclude), cand, NormTitles(cand, m), s, m);
            var d := Verdict(cand, s, exclude, m);
            && (hit.Some? ==> d == AutoMerge(hit.value, 1.0, ExternalId))
            && (hit.None? && scores == map[] ==> d.New?)
            && (hit.None? && exclude.Some? && (exists best :: IsBest(scores, best) && IsSplitPair(s, exclude.value, best)) ==> d.New?)
  {
    var scores := Scores(Candidates(NormTitles(cand, m), s, exclude), cand, NormTitles(cand, m), s, m);
    if best :| IsBest(scores, best) { BestIsTheBest(scores, best); }
  }

  /** A pair is split when the table of rulings holds it, the lesser id first. */
  lemma SplitPairIs(s: Spine, lesser: WorkId, greater: WorkId)
    requires Ordering.Less(lesser, greater)
    ensures IsSplitPair(s, lesser, greater) == IsSplitPair(s, greater, lesser) == ((lesser, greater) in s.splits)
  {
    Ordering.Asymmetric(lesser, greater);
  }

  /** An exact hit on a work whose data loads, when the best such pair was never split, is merged or reviewed, never new. */
  lemma ExactHitIsNeverNew(cand: Candidate, s: Spine, exclude: Option<WorkId>, m: Measures, best: WorkId)
    requires Sensible(m) && Consistent(s)
    requires var titles := NormTitles(cand, m);
             IsBest(Scores(ExactMatches(titles, s, exclude), cand, titles, s, m), best)
    requires exclude.Some? ==> !IsSplitPair(s, exclude.value, best)
    ensures !Verdict(cand, s, exclude, m).New?
  {
    if ExternalHit(cand.externalIds, s, exclude).None? {
      var titles := NormTitles(cand, m);
      var scores := Scores(ExactMatches(titles, s, exclude), cand, titles, s, m);
      assert best in ExactMatches(titles, s, exclude);
      SharedTitleScores(cand, s, exclude, m, best);
      VerdictOf(cand, s, exclude, m, scores, best);
    }
  }

  /** The split guard stands behind the external rung: an external id merges even a pair an admin has split. */
  lemma ExternalIgnoresSplits(cand: Candidate, s: Spine, exclude: Option<WorkId>, m: Measures, splits: set<(WorkId, WorkId)>)
    requires ExternalHit(cand.externalIds, s, exclude).Some?
    ensures Verdict(cand, s.(splits := splits), exclude, m)
            == AutoMerge(ExternalHit(cand.externalIds, s, exclude).value, 1.0, ExternalId)
  {
    SameExternal(cand.externalIds, s, splits, exclude);
  }

  lemma {:induction false} SameExternal(ids: seq<(string, string)>, s: Spine, splits: set<(WorkId, WorkId)>, exclude: Option<WorkId>)
    ensures ExternalHit(ids, s.(splits := splits), exclude) == ExternalHit(ids, s, exclude)
  {
    if ids != [] { SameExternal(ids[1..], s, splits, exclude); }
  }

  /** The ruling on a split pair is symmetric, and with it the title and fuzzy rungs never reunite one. */
  lemma SplitPairsStayApart(cand: Candidate, s: Spine, exclude: WorkId, m: Measures)
    requires ExternalHit(cand.externalIds, s, Some(exclude)).None?
    ensures var d := Verdict(cand, s, Some(exclude), m);
            d.New? || (!IsSplitPair(s, exclude, d.work) && !IsSplitPair(s, d.work, exclude))
  {
    NeverTheExcluded(cand, s, exclude, m);
    Ordering.LessIsStrictTotal();
    var d := Verdict(cand, s, Some(exclude), m);
    if !d.New? {
      if Ordering.Less(exclude, d.work) {
        Ordering.Asymmetric(exclude, d.work);
      } else {
        assert Ordering.Less(d.work, exclude);
      }
    }
  }
}
