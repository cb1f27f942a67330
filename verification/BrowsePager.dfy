/** Browse pages: four sorts, two of them in two phases, cut out of one ordered list. */
module BrowsePager {
  import opened Wrappers
  import opened Ordering
  import opened BrowseFilter

  datatype BrowseSort = Newest | Chapters | Rating | Trending

  datatype BrowseQuery = BrowseQuery(filter: Filter, sort: BrowseSort, page: int)

  const PAGE_SIZE := 30

  /** Every work id has one row, and the table holds each id once. */
  ghost predicate Valid(t: Tables) {
    && (forall id :: id in t.stored <==> id in t.rows)
    && Distinct(t.stored)
  }

  ghost predicate Distinct(s: seq<string>) { forall i, j | 0 <= i < j < |s| :: s[i] != s[j] }

  // ---- orders ----------------------------------------------------------------------------

  predicate Higher(a: Option<real>, b: Option<real>) { a.Some? && (b.None? || a.value > b.value) }

  /** The larger key first, no key last, ties by id descending. */
  predicate ByKey(key: string -> Option<real>, a: string, b: string) {
    Higher(key(a), key(b)) || (key(a) == key(b) && Less(b, a))
  }

  function Released(t: Tables): string -> Option<real> {
    id => if id in t.rows && t.rows[id].released.Some? then Some(t.rows[id].released.value as real) else None
  }

  function ChapterCount(t: Tables): string -> Option<real> {
    id => if id in t.rows then Some(t.rows[id].chapters as real) else None
  }

  function AverageScore(t: Tables): string -> Option<real> {
    id => if id in t.rated then Some(t.rated[id]) else None
  }

  function IndexOf(ranked: seq<string>, id: string): (k: nat)
    ensures k <= |ranked| && (k < |ranked| ==> ranked[k] == id)
    ensures id !in ranked[..k]
    ensures k == |ranked| <==> id !in ranked
  {
    if ranked == [] || ranked[0] == id then 0 else 1 + IndexOf(ranked[1..], id)
  }

  /** The views' ranking: the most viewed first, the rest without a key. */
  function ViewRank(ranked: seq<string>): string -> Option<real> {
    id => if id in ranked then Some(-(IndexOf(ranked, id) as real)) else None
  }

  type Order = (string, string) -> bool

  function Keyed(key: string -> Option<real>): Order { (a, b) => ByKey(key, a, b) }

  /** What holds `prefix` comes first, in its own order; the rest follows in another. */
  function TwoPhase(prefix: Test, first: Order, second: Order): Order {
    (a, b) => if prefix(a) then !prefix(b) || first(a, b) else !prefix(b) && second(a, b)
  }

  function Rated(t: Tables): Test { id => id in t.rated }

  /** The order a sort promises. */
  function Promised(sort: BrowseSort, t: Tables, ranked: seq<string>): Order {
    match sort
    case Newest => Keyed(Released(t))
    case Chapters => Keyed(ChapterCount(t))
    case Rating => TwoPhase(Rated(t), Keyed(AverageScore(t)), Keyed(Released(t)))
    case Trending => TwoPhase(In(ranked), Keyed(ViewRank(ranked)), Keyed(Released(t)))
  }

  lemma KeyedIsStrictTotal(key: string -> Option<real>)
    ensures StrictTotal(Keyed(key))
  {
    LessIsStrictTotal();
    var lt := Keyed(key);
    forall x ensures !lt(x, x) { assert !Less(x, x); }
    forall x, y ensures x == y || lt(x, y) || lt(y, x) { assert x == y || Less(x, y) || Less(y, x); }
    forall x, y, z | lt(x, y) && lt(y, z) ensures lt(x, z) {
      if key(x) == key(y) == key(z) { assert Less(y, x) && Less(z, y); }
    }
  }

  lemma TwoPhaseIsStrictTotal(prefix: Test, first: Order, second: Order)
    requires StrictTotal(first) && StrictTotal(second)
    ensures StrictTotal(TwoPhase(prefix, first, second))
  {
    var lt := TwoPhase(prefix, first, second);
    forall x ensures !lt(x, x) {}
    forall x, y ensures x == y || lt(x, y) || lt(y, x) {}
    forall x, y, z | lt(x, y) && lt(y, z) ensures lt(x, z) {}
  }

  lemma PromisedIsStrictTotal(sort: BrowseSort, t: Tables, ranked: seq<string>)
    ensures StrictTotal(Promised(sort, t, ranked))
  {
    KeyedIsStrictTotal(Released(t));
    KeyedIsStrictTotal(ChapterCount(t));
    KeyedIsStrictTotal(AverageScore(t));
    KeyedIsStrictTotal(ViewRank(ranked));
    TwoPhaseIsStrictTotal(Rated(t), Keyed(AverageScore(t)), Keyed(Released(t)));
    TwoPhaseIsStrictTotal(In(ranked), Keyed(ViewRank(ranked)), Keyed(Released(t)));
  }

  // ---- statements ------------------------------------------------------------------------

  type Test = string -> bool

  function Not(p: Test): Test { id => !p(id) }

  function Both(p: Test, q: Test): Test { id => p(id) && q(id) }

  function In(ids: seq<string>): Test { id => id in ids }

  function Asked(f: Filter, t: Tables): Test { id => Matches(f, t, id) }

  function Keep(ids: seq<string>, p: Test): (r: seq<string>)
    ensures forall id :: id in r <==> id in ids && p(id)
  {
    if ids == [] then []
    else if p(ids[0]) then [ids[0]] + Keep(ids[1..], p)
    else Keep(ids[1..], p)
  }

  /** LIMIT and OFFSET over a list: an offset below zero is zero, a limit below zero is none. */
  function Window(s: seq<string>, limit: int, offset: int): seq<string> {
    var from := if offset < 0 then 0 else if offset > |s| then |s| else offset;
    if limit < 0 || from + limit > |s| then s[from..] else s[from..from + limit]
  }

  /** The rows a WHERE keeps, when `left` is what its placeholders leave over. */
  function Kept(t: Tables, cte: bool, parts: seq<Clause>, binds: seq<Bind>, left: seq<Bind>): string -> bool {
    id => id in t.rows && Evaluate(parts, binds, cte, t, id) == Some((true, left))
  }

  /** A page statement's LIMIT and OFFSET take the last two binds, its WHERE the others. */
  function FetchPage(t: Tables, cte: bool, parts: seq<Clause>, binds: seq<Bind>, order: Order, limit: int, offset: int): seq<string> {
    var all := binds + [Int(limit), Int(offset)];
    Window(Sort(Keep(t.stored, Kept(t, cte, parts, all, [Int(limit), Int(offset)])), order), limit, offset)
  }

  function Count(t: Tables, cte: bool, parts: seq<Clause>, binds: seq<Bind>): nat {
    |Keep(t.stored, Kept(t, cte, parts, binds, []))|
  }

  /** A statement joined to the review aggregate sees only rated rows. */
  function JoinRated(t: Tables): Tables { t.(stored := Keep(t.stored, Rated(t))) }

  function SplitTwoPhase(prefixLen: int, offset: int, pageSize: int): (int, int, int) {
    var left := prefixLen - offset;
    var takePrefix := if left < 0 then 0 else if left > pageSize then pageSize else left;
    (takePrefix, pageSize - takePrefix, if offset > prefixLen then offset - prefixLen else 0)
  }

  function RatingPage(t: Tables, parts: seq<Clause>, binds: seq<Bind>, pageSize: int, offset: int): seq<string> {
    var (takeRated, takeRest, restOffset) := SplitTwoPhase(Count(JoinRated(t), true, parts, binds), offset, pageSize);
    var rated := if takeRated > 0
                 then FetchPage(JoinRated(t), true, parts, binds, Keyed(AverageScore(t)), takeRated, offset)
                 else [];
    if takeRest > 0
    then rated + FetchPage(t, true, parts + [Unrated], binds, Keyed(Released(t)), takeRest, restOffset)
    else rated
  }

  function TrendingPage(t: Tables, parts: seq<Clause>, binds: seq<Bind>, cte: bool, ranked: seq<string>, pageSize: int, offset: int): seq<string> {
    if ranked == [] then FetchPage(t, cte, parts, binds, Keyed(Released(t)), pageSize, offset)
    else
      var matched := Keep(t.stored, Kept(t, cte, parts + [IdIn(|ranked|)], binds + Texts(ranked), []));
      var prefix := Keep(ranked, In(matched));
      var (takePrefix, takeRest, restOffset) := SplitTwoPhase(|prefix|, offset, pageSize);
      var rows := Window(prefix, takePrefix, offset);
      if takeRest > 0
      then rows + FetchPage(t, cte, parts + [IdNotIn(|ranked|)], binds + Texts(ranked), Keyed(Released(t)), takeRest, restOffset)
      else rows
  }

  /** Where a page begins; a page below the first is the first. */
  function OffsetOf(page: int): nat { ((if page < 1 then 1 else page) - 1) * PAGE_SIZE }

  function ServePage(t: Tables, q: BrowseQuery, ranked: seq<string>, parts: seq<Clause>, binds: seq<Bind>, cte: bool, offset: int): seq<string> {
    match q.sort
    case Newest => FetchPage(t, cte, parts, binds, Keyed(Released(t)), PAGE_SIZE, offset)
    case Chapters => FetchPage(t, cte, parts, binds, Keyed(ChapterCount(t)), PAGE_SIZE, offset)
    case Rating => RatingPage(t, parts, binds, PAGE_SIZE, offset)
    case Trending => TrendingPage(t, parts, binds, cte, ranked, PAGE_SIZE, offset)
  }

  /** The total and the page of one request, given the ranking the views supply. */
  function BrowseCatalogue(t: Tables, q: BrowseQuery, ranked: seq<string>): (nat, seq<string>) {
    var (parts, binds, cte) := (Parts(q.filter), Binds(q.filter), UsesReviews(q.filter));
    (Count(t, cte, parts, binds), ServePage(t, q, ranked, parts, binds, cte, OffsetOf(q.page)))
  }

  // ---- the one list ------------------------------------------------------------------------

  function Matching(t: Tables, f: Filter): seq<string> { Keep(t.stored, Asked(f, t)) }

  /** Every row the filter asks for, in the order the sort promises. */
  function Listing(t: Tables, q: BrowseQuery, ranked: seq<string>): seq<string> {
    Sort(Matching(t, q.filter), Promised(q.sort, t, ranked))
  }

  lemma {:induction false} KeepAgrees(ids: seq<string>, p: Test, q: Test)
    requires forall id | id in ids :: p(id) == q(id)
    ensures Keep(ids, p) == Keep(ids, q)
  {
    if ids != [] {
      assert ids[0] in ids;
      KeepAgrees(ids[1..], p, q);
    }
  }

  lemma {:induction false} KeepTwice(ids: seq<string>, p: Test, q: Test)
    ensures Keep(Keep(ids, p), q) == Keep(ids, Both(p, q))
  {
    if ids != [] { KeepTwice(ids[1..], p, q); }
  }

  lemma {:induction false} KeepSplits(ids: seq<string>, p: Test)
    ensures multiset(Keep(ids, p)) + multiset(Keep(ids, Not(p))) == multiset(ids)
    ensures |Keep(ids, p)| + |Keep(ids, Not(p))| == |ids|
  {
    if ids != [] {
      assert ids == [ids[0]] + ids[1..];
      KeepSplits(ids[1..], p);
    }
  }

  lemma {:induction false} KeepDistinct(ids: seq<string>, p: Test)
    requires Distinct(ids)
    ensures Distinct(Keep(ids, p))
  {
    if ids != [] {
      KeepDistinct(ids[1..], p);
      assert forall j | 0 <= j < |ids| - 1 :: ids[1..][j] != ids[0];
      assert ids[0] !in Keep(ids[1..], p);
    }
  }

  /** A list sorted in two phases is one list sorted by the combined order. */
  lemma PhasesJoin(ids: seq<string>, prefix: Test, first: Order, second: Order)
    requires StrictTotal(first) && StrictTotal(second)
    ensures Sort(Keep(ids, prefix), first) + Sort(Keep(ids, Not(prefix)), second)
            == Sort(ids, TwoPhase(prefix, first, second))
  {
    var (a, b) := (Keep(ids, prefix), Keep(ids, Not(prefix)));
    var lt := TwoPhase(prefix, first, second);
    TwoPhaseIsStrictTotal(prefix, first, second);
    SortOrders(a, first);
    SortOrders(b, second);
    SortMembers(a, first);
    SortMembers(b, second);
    SortOrders(ids, lt);
    KeepSplits(ids, prefix);
    JoinedOrder(Sort(a, first), Sort(b, second), prefix, first, second);
    OrderedUnique(Sort(a, first) + Sort(b, second), Sort(ids, lt), lt);
  }

  lemma JoinedOrder(a: seq<string>, b: seq<string>, prefix: Test, first: Order, second: Order)
    requires Ordered(a, first) && Ordered(b, second)
    requires (forall id | id in a :: prefix(id)) && (forall id | id in b :: !prefix(id))
    ensures Ordered(a + b, TwoPhase(prefix, first, second))
  {
    var (r, lt) := (a + b, TwoPhase(prefix, first, second));
    forall i, j | 0 <= i < j < |r|
      ensures !lt(r[j], r[i])
    {
      if j < |a| {
        assert r[i] in a && r[j] in a && !first(a[j], a[i]);
      } else if i >= |a| {
        assert r[i] in b && r[j] in b && !second(b[j - |a|], b[i - |a|]);
      } else {
        assert r[i] in a && r[j] in b;
      }
    }
  }

  lemma WindowBehind(a: seq<string>, b: seq<string>, offset: nat, pageSize: nat)
    requires offset >= |a|
    ensures Window(a + b, pageSize, offset) == Window(b, pageSize, offset - |a|)
  {
    var s, rest := a + b, offset - |a|;
    if offset < |s| {
      assert s[offset..] == b[rest..];
      if offset + pageSize <= |s| { assert s[offset..offset + pageSize] == b[rest..rest + pageSize]; }
    }
  }

  lemma WindowBefore(a: seq<string>, b: seq<string>, offset: nat, pageSize: nat)
    requires offset + pageSize <= |a|
    ensures Window(a + b, pageSize, offset) == Window(a, pageSize, offset) == a[offset..offset + pageSize]
  {
  }

  lemma WindowAcross(a: seq<string>, b: seq<string>, offset: nat, pageSize: nat)
    requires offset < |a| < offset + pageSize
    ensures Window(a + b, pageSize, offset) == Window(a, |a| - offset, offset) + Window(b, offset + pageSize - |a|, 0)
  {
    var s := a + b;
    assert s[offset..] == a[offset..] + b;
    if offset + pageSize <= |s| { assert s[offset..offset + pageSize] == a[offset..] + b[..offset + pageSize - |a|]; }
  }

  /** A page of two lists, taken as the split says, is the page of their concatenation. */
  lemma SplitLands(a: seq<string>, b: seq<string>, offset: nat, pageSize: nat)
    ensures var (takePrefix, takeRest, restOffset) := SplitTwoPhase(|a|, offset, pageSize);
            && 0 <= takePrefix && 0 <= takeRest && 0 <= restOffset
            && (if takePrefix > 0 then Window(a, takePrefix, offset) else [])
               + (if takeRest > 0 then Window(b, takeRest, restOffset) else [])
               == Window(a + b, pageSize, offset)
            && (takePrefix == 0 ==> Window(a, takePrefix, offset) == [])
  {
    if offset >= |a| {
      WindowBehind(a, b, offset, pageSize);
    } else if offset + pageSize <= |a| {
      WindowBefore(a, b, offset, pageSize);
    } else {
      WindowAcross(a, b, offset, pageSize);
    }
  }

  // ---- statements fetch what the filter asks for ---------------------------------------------

  /** A statement whose clauses mean `p` of every row fetches a window of the rows with `p`. */
  lemma Fetches(t: Tables, cte: bool, parts: seq<Clause>, binds: seq<Bind>, order: Order, limit: int, offset: int, p: Test)
    requires forall id | id in t.stored :: id in t.rows && Means(parts, binds, cte, t, id, p(id))
    ensures FetchPage(t, cte, parts, binds, order, limit, offset) == Window(Sort(Keep(t.stored, p), order), limit, offset)
  {
    var left := [Int(limit), Int(offset)];
    forall id | id in t.stored
      ensures Kept(t, cte, parts, binds + left, left)(id) == p(id)
    {
      assert Evaluate(parts, binds + left, cte, t, id) == Some((p(id), left));
    }
    KeepAgrees(t.stored, Kept(t, cte, parts, binds + left, left), p);
  }

  lemma Selects(t: Tables, cte: bool, parts: seq<Clause>, binds: seq<Bind>, p: Test)
    requires forall id | id in t.stored :: id in t.rows && Means(parts, binds, cte, t, id, p(id))
    ensures Keep(t.stored, Kept(t, cte, parts, binds, [])) == Keep(t.stored, p)
  {
    forall id | id in t.stored
      ensures Kept(t, cte, parts, binds, [])(id) == p(id)
    {
      assert Evaluate(parts, binds + [], cte, t, id) == Some((p(id), []));
      assert binds + [] == binds;
    }
    KeepAgrees(t.stored, Kept(t, cte, parts, binds, []), p);
  }

  lemma PlainPage(t: Tables, f: Filter, cte: bool, order: Order, limit: int, offset: int)
    requires Valid(t) && (UsesReviews(f) ==> cte)
    ensures FetchPage(t, cte, Parts(f), Binds(f), order, limit, offset) == Window(Sort(Matching(t, f), order), limit, offset)
  {
    forall id | id in t.stored
      ensures id in t.rows && Means(Parts(f), Binds(f), cte, t, id, Matches(f, t, id))
    {
      CompiledMeansMatches(f, cte, t, id);
    }
    Fetches(t, cte, Parts(f), Binds(f), order, limit, offset, Asked(f, t));
  }

  // ---- the rating sort -----------------------------------------------------------------------

  /** Joining first and filtering then finds the rated part of the matching rows. */
  lemma JoinedRows(t: Tables, f: Filter)
    ensures Keep(JoinRated(t).stored, Asked(f, t)) == Keep(Matching(t, f), Rated(t))
  {
    KeepTwice(t.stored, Rated(t), Asked(f, t));
    KeepTwice(t.stored, Asked(f, t), Rated(t));
    KeepAgrees(t.stored, Both(Rated(t), Asked(f, t)), Both(Asked(f, t), Rated(t)));
  }

  lemma JoinedMeans(t: Tables, f: Filter, id: string)
    requires id in t.rows
    ensures Means(Parts(f), Binds(f), true, JoinRated(t), id, Matches(f, t, id))
  {
    CompiledMeansMatches(f, true, JoinRated(t), id);
    assert Matches(f, JoinRated(t), id) == Matches(f, t, id);
  }

  lemma RatedPrefix(t: Tables, f: Filter, limit: int, offset: int)
    requires Valid(t)
    ensures Count(JoinRated(t), true, Parts(f), Binds(f)) == |Keep(Matching(t, f), Rated(t))|
    ensures FetchPage(JoinRated(t), true, Parts(f), Binds(f), Keyed(AverageScore(t)), limit, offset)
            == Window(Sort(Keep(Matching(t, f), Rated(t)), Keyed(AverageScore(t))), limit, offset)
  {
    JoinedRows(t, f);
    forall id | id in JoinRated(t).stored
      ensures id in t.rows && Means(Parts(f), Binds(f), true, JoinRated(t), id, Matches(f, t, id))
    {
      JoinedMeans(t, f, id);
    }
    Selects(JoinRated(t), true, Parts(f), Binds(f), Asked(f, t));
    Fetches(JoinRated(t), true, Parts(f), Binds(f), Keyed(AverageScore(t)), limit, offset, Asked(f, t));
  }

  lemma UnratedRest(t: Tables, f: Filter, limit: int, offset: int)
    requires Valid(t)
    ensures FetchPage(t, true, Parts(f) + [Unrated], Binds(f), Keyed(Released(t)), limit, offset)
            == Window(Sort(Keep(Matching(t, f), Not(Rated(t))), Keyed(Released(t))), limit, offset)
  {
    var p := Both(Asked(f, t), Not(Rated(t)));
    forall id | id in t.stored
      ensures id in t.rows && Means(Parts(f) + [Unrated], Binds(f), true, t, id, p(id))
    {
      CompiledUnrated(f, t, id);
    }
    Fetches(t, true, Parts(f) + [Unrated], Binds(f), Keyed(Released(t)), limit, offset, p);
    KeepTwice(t.stored, Asked(f, t), Not(Rated(t)));
  }

  lemma RatingPageIs(t: Tables, f: Filter, pageSize: nat, offset: nat)
    requires Valid(t)
    ensures RatingPage(t, Parts(f), Binds(f), pageSize, offset)
            == Window(Sort(Matching(t, f), Promised(Rating, t, [])), pageSize, offset)
  {
    var m := Matching(t, f);
    var first, second := Keyed(AverageScore(t)), Keyed(Released(t));
    var a, b := Sort(Keep(m, Rated(t)), first), Sort(Keep(m, Not(Rated(t))), second);
    KeyedIsStrictTotal(AverageScore(t));
    KeyedIsStrictTotal(Released(t));
    SortOrders(Keep(m, Rated(t)), first);
    PhasesJoin(m, Rated(t), first, second);
    var (takeRated, takeRest, restOffset) := SplitTwoPhase(|a|, offset, pageSize);
    RatedPrefix(t, f, takeRated, offset);
    UnratedRest(t, f, takeRest, restOffset);
    SplitLands(a, b, offset, pageSize);
  }

  // ---- the trending sort ---------------------------------------------------------------------

  lemma {:induction false} KeepOrdered(ranked: seq<string>, p: Test, lt: Order)
    requires StrictlyOrdered(ranked, lt)
    ensures StrictlyOrdered(Keep(ranked, p), lt)
  {
    if ranked != [] {
      KeepOrdered(ranked[1..], p, lt);
      forall id | id in Keep(ranked[1..], p) ensures lt(ranked[0], id) {
        var j :| 0 <= j < |ranked| - 1 && ranked[1..][j] == id;
        assert lt(ranked[0], ranked[j + 1]);
      }
    }
  }

  lemma {:induction false} IndexOfAt(ranked: seq<string>, i: nat)
    requires Distinct(ranked) && i < |ranked|
    ensures IndexOf(ranked, ranked[i]) == i
  {
    if i > 0 {
      assert ranked[0] != ranked[i] == ranked[1..][i - 1];
      IndexOfAt(ranked[1..], i - 1);
    }
  }

  /** The ranking is in the order of its own view ranks. */
  lemma RankingOrdered(ranked: seq<string>)
    requires Distinct(ranked)
    ensures StrictlyOrdered(ranked, Keyed(ViewRank(ranked)))
  {
    forall i, j | 0 <= i < j < |ranked|
      ensures Keyed(ViewRank(ranked))(ranked[i], ranked[j])
    {
      IndexOfAt(ranked, i);
      IndexOfAt(ranked, j);
    }
  }

  /** Walking the ranking and keeping what matched sorts what matched by view rank. */
  lemma RankedPrefix(ranked: seq<string>, m: seq<string>)
    requires Distinct(ranked) && Distinct(m)
    ensures Keep(ranked, In(m)) == Sort(Keep(m, In(ranked)), Keyed(ViewRank(ranked)))
  {
    var lt := Keyed(ViewRank(ranked));
    KeyedIsStrictTotal(ViewRank(ranked));
    RankingOrdered(ranked);
    KeepOrdered(ranked, In(m), lt);
    KeepDistinct(m, In(ranked));
    SortStrict(Keep(m, In(ranked)), lt);
    SortMembers(Keep(m, In(ranked)), lt);
    StrictUnique(Keep(ranked, In(m)), Sort(Keep(m, In(ranked)), lt), lt);
  }

  lemma RankedMatch(t: Tables, f: Filter, cte: bool, ranked: seq<string>)
    requires Valid(t) && (UsesReviews(f) ==> cte) && Distinct(ranked)
    ensures var matched := Keep(t.stored, Kept(t, cte, Parts(f) + [IdIn(|ranked|)], Binds(f) + Texts(ranked), []));
            Keep(ranked, In(matched))
            == Sort(Keep(Matching(t, f), In(ranked)), Keyed(ViewRank(ranked)))
  {
    var p, m := Both(Asked(f, t), In(ranked)), Matching(t, f);
    forall id | id in t.stored
      ensures id in t.rows && Means(Parts(f) + [IdIn(|ranked|)], Binds(f) + Texts(ranked), cte, t, id, p(id))
    {
      CompiledWithIds(f, true, ranked, cte, t, id);
    }
    Selects(t, cte, Parts(f) + [IdIn(|ranked|)], Binds(f) + Texts(ranked), p);
    KeepAgrees(ranked, In(Keep(t.stored, p)), In(m));
    KeepDistinct(t.stored, Asked(f, t));
    RankedPrefix(ranked, m);
  }

  lemma UnrankedRest(t: Tables, f: Filter, cte: bool, ranked: seq<string>, limit: int, offset: int)
    requires Valid(t) && (UsesReviews(f) ==> cte)
    ensures FetchPage(t, cte, Parts(f) + [IdNotIn(|ranked|)], Binds(f) + Texts(ranked), Keyed(Released(t)), limit, offset)
            == Window(Sort(Keep(Matching(t, f), Not(In(ranked))), Keyed(Released(t))), limit, offset)
  {
    var p := Both(Asked(f, t), Not(In(ranked)));
    forall id | id in t.stored
      ensures id in t.rows && Means(Parts(f) + [IdNotIn(|ranked|)], Binds(f) + Texts(ranked), cte, t, id, p(id))
    {
      CompiledWithIds(f, false, ranked, cte, t, id);
    }
    Fetches(t, cte, Parts(f) + [IdNotIn(|ranked|)], Binds(f) + Texts(ranked), Keyed(Released(t)), limit, offset, p);
    KeepTwice(t.stored, Asked(f, t), Not(In(ranked)));
  }

  lemma RankedPageIs(t: Tables, f: Filter, cte: bool, ranked: seq<string>, pageSize: nat, offset: nat)
    requires Valid(t) && (UsesReviews(f) ==> cte) && Distinct(ranked) && ranked != []
    ensures TrendingPage(t, Parts(f), Binds(f), cte, ranked, pageSize, offset)
            == Window(Sort(Keep(Matching(t, f), In(ranked)), Keyed(ViewRank(ranked)))
                      + Sort(Keep(Matching(t, f), Not(In(ranked))), Keyed(Released(t))), pageSize, offset)
  {
    var a := Sort(Keep(Matching(t, f), In(ranked)), Keyed(ViewRank(ranked)));
    var b := Sort(Keep(Matching(t, f), Not(In(ranked))), Keyed(Released(t)));
    RankedMatch(t, f, cte, ranked);
    var (takePrefix, takeRest, restOffset) := SplitTwoPhase(|a|, offset, pageSize);
    UnrankedRest(t, f, cte, ranked, takeRest, restOffset);
    SplitLands(a, b, offset, pageSize);
  }

  lemma TrendingPageIs(t: Tables, f: Filter, cte: bool, ranked: seq<string>, pageSize: nat, offset: nat)
    requires Valid(t) && (UsesReviews(f) ==> cte) && Distinct(ranked)
    ensures TrendingPage(t, Parts(f), Binds(f), cte, ranked, pageSize, offset)
            == Window(Sort(Keep(Matching(t, f), In(ranked)), Keyed(ViewRank(ranked)))
                      + Sort(Keep(Matching(t, f), Not(In(ranked))), Keyed(Released(t))), pageSize, offset)
  {
    if ranked == [] {
      NothingRanked(ranked, Matching(t, f), Keyed(ViewRank(ranked)), Keyed(Released(t)));
      PlainPage(t, f, cte, Keyed(Released(t)), pageSize, offset);
    } else {
      RankedPageIs(t, f, cte, ranked, pageSize, offset);
    }
  }

  lemma TrendingListing(t: Tables, f: Filter, ranked: seq<string>)
    ensures Sort(Keep(Matching(t, f), In(ranked)), Keyed(ViewRank(ranked)))
            + Sort(Keep(Matching(t, f), Not(In(ranked))), Keyed(Released(t)))
            == Sort(Matching(t, f), Promised(Trending, t, ranked))
  {
    KeyedIsStrictTotal(ViewRank(ranked));
    KeyedIsStrictTotal(Released(t));
    PhasesJoin(Matching(t, f), In(ranked), Keyed(ViewRank(ranked)), Keyed(Released(t)));
  }

  /** With no ranking the sort is newest first over everything. */
  lemma NothingRanked(ranked: seq<string>, m: seq<string>, first: Order, second: Order)
    requires ranked == []
    ensures Sort(Keep(m, In(ranked)), first) + Sort(Keep(m, Not(In(ranked))), second) == Sort(m, second)
  {
    KeepAgrees(m, Not(In(ranked)), id => true);
    KeepAll(m);
    KeepAgrees(m, In(ranked), id => false);
    KeepNone(m);
  }

  lemma {:induction false} KeepNone(ids: seq<string>)
    ensures Keep(ids, id => false) == []
  {
    if ids != [] { KeepNone(ids[1..]); }
  }

  lemma {:induction false} KeepAll(ids: seq<string>)
    ensures Keep(ids, id => true) == ids
  {
    if ids != [] { KeepAll(ids[1..]); }
  }

  // ---- pages and totals ------------------------------------------------------------------------

  /** The total counts the listing. */
  lemma TotalIsLength(t: Tables, q: BrowseQuery, ranked: seq<string>)
    requires Valid(t)
    ensures Count(t, UsesReviews(q.filter), Parts(q.filter), Binds(q.filter)) == |Listing(t, q, ranked)|
  {
    var f := q.filter;
    forall id | id in t.stored
      ensures id in t.rows && Means(Parts(f), Binds(f), UsesReviews(f), t, id, Matches(f, t, id))
    {
      CompiledMeansMatches(f, UsesReviews(f), t, id);
    }
    Selects(t, UsesReviews(f), Parts(f), Binds(f), Asked(f, t));
    PromisedIsStrictTotal(q.sort, t, ranked);
    SortOrders(Matching(t, f), Promised(q.sort, t, ranked));
  }

  lemma PlainRows(t: Tables, q: BrowseQuery, ranked: seq<string>)
    requires Valid(t) && Distinct(ranked) && (q.sort == Newest || q.sort == Chapters)
    ensures BrowseCatalogue(t, q, ranked).1 == Window(Listing(t, q, ranked), PAGE_SIZE, OffsetOf(q.page))
  {
    PlainPage(t, q.filter, UsesReviews(q.filter), Promised(q.sort, t, ranked), PAGE_SIZE, OffsetOf(q.page));
  }

  lemma RatingRows(t: Tables, q: BrowseQuery, ranked: seq<string>)
    requires Valid(t) && Distinct(ranked) && q.sort == Rating
    ensures BrowseCatalogue(t, q, ranked).1 == Window(Listing(t, q, ranked), PAGE_SIZE, OffsetOf(q.page))
  {
    RatingPageIs(t, q.filter, PAGE_SIZE, OffsetOf(q.page));
  }

  lemma TrendingServed(t: Tables, q: BrowseQuery, ranked: seq<string>)
    requires q.sort == Trending
    ensures BrowseCatalogue(t, q, ranked).1
            == TrendingPage(t, Parts(q.filter), Binds(q.filter), UsesReviews(q.filter), ranked, PAGE_SIZE, OffsetOf(q.page))
  {
  }

  lemma TrendingSlice(t: Tables, f: Filter, cte: bool, ranked: seq<string>, pageSize: nat, offset: nat, all: seq<string>)
    requires Valid(t) && (UsesReviews(f) ==> cte) && Distinct(ranked)
    requires all == Sort(Matching(t, f), Promised(Trending, t, ranked))
    ensures TrendingPage(t, Parts(f), Binds(f), cte, ranked, pageSize, offset) == Window(all, pageSize, offset)
  {
    TrendingListing(t, f, ranked);
    TrendingPageIs(t, f, cte, ranked, pageSize, offset);
  }

  lemma TrendingRows(t: Tables, q: BrowseQuery, ranked: seq<string>)
    requires Valid(t) && Distinct(ranked) && q.sort == Trending
    ensures BrowseCatalogue(t, q, ranked).1 == Window(Listing(t, q, ranked), PAGE_SIZE, OffsetOf(q.page))
  {
    TrendingServed(t, q, ranked);
    TrendingSlice(t, q.filter, UsesReviews(q.filter), ranked, PAGE_SIZE, OffsetOf(q.page), Listing(t, q, ranked));
  }

  /** The page served is a slice of the listing, and the total is the listing's length. */
  lemma PageIsSlice(t: Tables, q: BrowseQuery, ranked: seq<string>)
    requires Valid(t) && Distinct(ranked)
    ensures BrowseCatalogue(t, q, ranked).0 == |Listing(t, q, ranked)|
    ensures BrowseCatalogue(t, q, ranked).1 == Window(Listing(t, q, ranked), PAGE_SIZE, OffsetOf(q.page))
  {
    TotalIsLength(t, q, ranked);
    match q.sort
    case Newest => PlainRows(t, q, ranked);
    case Chapters => PlainRows(t, q, ranked);
    case Rating => RatingRows(t, q, ranked);
    case Trending => TrendingRows(t, q, ranked);
  }

  /** The listing holds each matching row exactly once, in the promised order, whatever order the table stores them in. */
  lemma ListingIsPromised(t: Tables, q: BrowseQuery, ranked: seq<string>)
    requires Valid(t)
    ensures var all := Listing(t, q, ranked);
            && StrictlyOrdered(all, Promised(q.sort, t, ranked))
            && Distinct(all)
            && (forall id :: id in all <==> Matches(q.filter, t, id))
  {
    PromisedIsStrictTotal(q.sort, t, ranked);
    KeepDistinct(t.stored, Asked(q.filter, t));
    SortStrict(Matching(t, q.filter), Promised(q.sort, t, ranked));
    SortMembers(Matching(t, q.filter), Promised(q.sort, t, ranked));
  }

  function PageNumbered(t: Tables, q: BrowseQuery, ranked: seq<string>): nat -> seq<string> {
    n => BrowseCatalogue(t, q.(page := n), ranked).1
  }

  /** The first pages, one after another. */
  function Pages(page: nat -> seq<string>, n: nat): seq<string> {
    if n == 0 then [] else Pages(page, n - 1) + page(n)
  }

  lemma {:induction false} WindowsJoin(all: seq<string>, page: nat -> seq<string>, n: nat)
    requires forall k | 1 <= k <= n :: page(k) == Window(all, PAGE_SIZE, OffsetOf(k))
    ensures Pages(page, n) == if n * PAGE_SIZE < |all| then all[..n * PAGE_SIZE] else all
  {
    if n > 0 {
      WindowsJoin(all, page, n - 1);
      OneMoreWindow(all, OffsetOf(n));
    }
  }

  lemma OneMoreWindow(all: seq<string>, from: nat)
    ensures (if from < |all| then all[..from] else all) + Window(all, PAGE_SIZE, from)
            == if from + PAGE_SIZE < |all| then all[..from + PAGE_SIZE] else all
  {
    if from < |all| {
      assert all == all[..from] + all[from..];
      if from + PAGE_SIZE < |all| { assert all[..from + PAGE_SIZE] == all[..from] + all[from..from + PAGE_SIZE]; }
    }
  }

  lemma PagesAreSlices(t: Tables, q: BrowseQuery, ranked: seq<string>)
    requires Valid(t) && Distinct(ranked)
    ensures forall k: nat :: PageNumbered(t, q, ranked)(k) == Window(Listing(t, q, ranked), PAGE_SIZE, OffsetOf(k))
  {
    forall k: nat
      ensures PageNumbered(t, q, ranked)(k) == Window(Listing(t, q, ranked), PAGE_SIZE, OffsetOf(k))
    {
      PageIsSlice(t, q.(page := k), ranked);
    }
  }

  /** Reading pages 1 to the last gives the whole listing. */
  lemma PagesAreTheListing(t: Tables, q: BrowseQuery, ranked: seq<string>)
    requires Valid(t) && Distinct(ranked)
    ensures var total := BrowseCatalogue(t, q, ranked).0;
            Pages(PageNumbered(t, q, ranked), (total + PAGE_SIZE - 1) / PAGE_SIZE) == Listing(t, q, ranked)
  {
    var all := Listing(t, q, ranked);
    PageIsSlice(t, q, ranked);
    PagesAreSlices(t, q, ranked);
    var n := (|all| + PAGE_SIZE - 1) / PAGE_SIZE;
    WindowsJoin(all, PageNumbered(t, q, ranked), n);
    assert n * PAGE_SIZE >= |all|;
  }

  /** The listing depends on which rows there are, not on the order the table stores them in. */
  lemma StorageOrderIsInvisible(t: Tables, u: Tables, q: BrowseQuery, ranked: seq<string>)
    requires Valid(t) && Valid(u) && u == t.(stored := u.stored)
    ensures Listing(t, q, ranked) == Listing(u, q, ranked)
  {
    ListingIsPromised(t, q, ranked);
    ListingIsPromised(u, q, ranked);
    PromisedIsStrictTotal(q.sort, t, ranked);
    SameOrder(t, u, q.sort, ranked);
    forall id ensures Matches(q.filter, t, id) == Matches(q.filter, u, id) {}
    StrictUnique(Listing(t, q, ranked), Listing(u, q, ranked), Promised(q.sort, t, ranked));
  }

  lemma SameOrder(t: Tables, u: Tables, sort: BrowseSort, ranked: seq<string>)
    requires u == t.(stored := u.stored)
    ensures forall a, b :: Promised(sort, t, ranked)(a, b) == Promised(sort, u, ranked)(a, b)
  {
  }

  // ---- the trending ranking ----------------------------------------------------------------------

  predicate IsWorkId(key: string) { |key| >= 2 && key[..2] == "w_" }

  /** The work a view key names: itself, or the work a numeric source key resolves to. */
  function WorkOf(key: string, sources: map<string, string>): Option<string> {
    if IsWorkId(key) then Some(key) else if key in sources then Some(sources[key]) else None
  }

  /** The works named by a ranking of view keys, repeats included. */
  function WorksNamed(keys: seq<string>, sources: map<string, string>): seq<string> {
    if keys == [] then []
    else
      var last := WorkOf(keys[|keys| - 1], sources);
      WorksNamed(keys[..|keys| - 1], sources) + if last.Some? then [last.value] else []
  }

  /** A key that begins with `w_` names itself, any other the work its source belongs to, if there is one. */
  lemma WorkOfIs(key: string, sources: map<string, string>, rest: string)
    ensures WorkOf("w_" + rest, sources) == Some("w_" + rest)
    ensures |key| < 2 || key[0] != 'w' || key[1] != '_' ==>
              WorkOf(key, sources) == if key in sources then Some(sources[key]) else None
  {
    assert ("w_" + rest)[..2] == "w_";
    if IsWorkId(key) { assert key[..2][0] == 'w' && key[..2][1] == '_'; }
  }

  /** The works are named in the order of the keys. */
  lemma {:induction false} NamedInOrder(keys: seq<string>, more: seq<string>, sources: map<string, string>)
    ensures WorksNamed(keys + more, sources) == WorksNamed(keys, sources) + WorksNamed(more, sources)
  {
    if more == [] {
      assert keys + more == keys;
    } else {
      var n := |more| - 1;
      NamedInOrder(keys, more[..n], sources);
      assert (keys + more)[..|keys| + n] == keys + more[..n];
    }
  }

  /** Every named work once, in the order of first mention. */
  ghost predicate FirstMentions(out: seq<string>, named: seq<string>) {
    && Distinct(out)
    && (forall id :: id in out <==> id in named)
    && (forall i, j | 0 <= i < j < |out| :: IndexOf(named, out[i]) < IndexOf(named, out[j]))
  }

  lemma {:induction false} IndexOfStays(named: seq<string>, more: seq<string>, id: string)
    ensures IndexOf(named + more, id) == if id in named then IndexOf(named, id) else |named| + IndexOf(more, id)
  {
    if named == [] {
      assert named + more == more;
    } else {
      assert (named + more)[1..] == named[1..] + more;
      IndexOfStays(named[1..], more, id);
    }
  }

  /** A list's mentions stay where they are when one more follows. */
  lemma MentionStays(named: seq<string>, id: string, x: string)
    ensures IndexOf(named + [id], x) == if x in named then IndexOf(named, x) else if x == id then |named| else |named| + 1
  {
    IndexOfStays(named, [id], x);
    assert IndexOf([id], x) == if x == id then 0 else 1;
  }

  lemma OrderStays(out: seq<string>, named: seq<string>, id: string, i: nat, j: nat)
    requires FirstMentions(out, named) && i < j < |out|
    ensures IndexOf(named + [id], out[i]) < IndexOf(named + [id], out[j])
  {
    assert out[i] in out && out[j] in out;
    MentionStays(named, id, out[i]);
    MentionStays(named, id, out[j]);
  }

  lemma OneMoreMention(out: seq<string>, named: seq<string>, id: string)
    requires FirstMentions(out, named)
    ensures FirstMentions(if id in named then out else out + [id], named + [id])
  {
    var all := if id in named then out else out + [id];
    forall i, j | 0 <= i < j < |all|
      ensures IndexOf(named + [id], all[i]) < IndexOf(named + [id], all[j])
    {
      if j < |out| {
        OrderStays(out, named, id, i, j);
      } else {
        assert all[i] in out;
        MentionStays(named, id, all[i]);
        MentionStays(named, id, id);
      }
    }
    forall x ensures x in all <==> x in named + [id] {}
  }

  lemma NextMention(keys: seq<string>, sources: map<string, string>, i: nat, out: seq<string>)
    requires i < |keys| && FirstMentions(out, WorksNamed(keys[..i], sources))
    ensures var wid := WorkOf(keys[i], sources);
            FirstMentions(if wid.Some? && wid.value !in out then out + [wid.value] else out, WorksNamed(keys[..i + 1], sources))
  {
    var named, wid := WorksNamed(keys[..i], sources), WorkOf(keys[i], sources);
    assert keys[..i + 1][..i] == keys[..i];
    if wid.Some? { OneMoreMention(out, named, wid.value); } else { assert named + [] == named; }
  }

  /** The view ranking as works, without repeats. */
  method TrendingWorkIds(keys: seq<string>, sources: map<string, string>) returns (out: seq<string>)
    ensures FirstMentions(out, WorksNamed(keys, sources))
  {
    out := [];
    var seen: set<string> := {};
    for i := 0 to |keys|
      invariant FirstMentions(out, WorksNamed(keys[..i], sources))
      invariant forall id :: id in seen <==> id in out
    {
      var wid := WorkOf(keys[i], sources);
      NextMention(keys, sources, i, out);
      if wid.Some? && wid.value !in seen {
        seen := seen + {wid.value};
        out := out + [wid.value];
      }
    }
    assert keys[..|keys|] == keys;
  }
}
