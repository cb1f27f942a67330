/** What a reader sees of each sort: the listing row by row, on the fields of the rows themselves. */
module BrowseListing {
  import opened Wrappers
  import opened Ordering
  import opened BrowseFilter
  import opened BrowsePager

  /** One of two listed rows may come first when newer ones do: undated rows last, and of one date the greater id first. */
  predicate NewerFirst(t: Tables, a: string, b: string)
    requires a in t.rows && b in t.rows
  {
    var (x, y) := (t.rows[a].released, t.rows[b].released);
    && (y.Some? ==> x.Some? && x.value >= y.value)
    && (x == y ==> Less(b, a))
  }

  lemma ByReleaseIsNewerFirst(t: Tables, a: string, b: string)
    requires a in t.rows && b in t.rows && ByKey(Released(t), a, b)
    ensures NewerFirst(t, a, b)
  {
  }

  /** Any two listed rows stand in the promised order, and they are rows of the table. */
  lemma ListedInOrder(t: Tables, q: BrowseQuery, ranked: seq<string>, i: nat, j: nat)
    requires Valid(t) && i < j < |Listing(t, q, ranked)|
    ensures var all := Listing(t, q, ranked);
            all[i] in t.rows && all[j] in t.rows && Promised(q.sort, t, ranked)(all[i], all[j])
  {
    ListingIsPromised(t, q, ranked);
    var all := Listing(t, q, ranked);
    assert all[i] in all && all[j] in all;
  }

  /** Newest: dates never rise, undated rows come last, and of one date the greater id comes first. */
  lemma NewestReads(t: Tables, q: BrowseQuery, ranked: seq<string>, i: nat, j: nat)
    requires Valid(t) && q.sort == Newest && i < j < |Listing(t, q, ranked)|
    ensures var all := Listing(t, q, ranked); all[i] in t.rows && all[j] in t.rows && NewerFirst(t, all[i], all[j])
  {
    ListedInOrder(t, q, ranked, i, j);
    ByReleaseIsNewerFirst(t, Listing(t, q, ranked)[i], Listing(t, q, ranked)[j]);
  }

  /** Chapters: the count never rises, and of one count the greater id comes first. */
  lemma ChaptersReads(t: Tables, q: BrowseQuery, ranked: seq<string>, i: nat, j: nat)
    requires Valid(t) && q.sort == Chapters && i < j < |Listing(t, q, ranked)|
    ensures var (a, b) := (Listing(t, q, ranked)[i], Listing(t, q, ranked)[j]);
            && a in t.rows && b in t.rows
            && t.rows[a].chapters >= t.rows[b].chapters
            && (t.rows[a].chapters == t.rows[b].chapters ==> Less(b, a))
  {
    ListedInOrder(t, q, ranked, i, j);
  }

  /** Rating: rated rows first, the best average first and of one average the greater id; then the unrated, newest first. */
  lemma RatingReads(t: Tables, q: BrowseQuery, ranked: seq<string>, i: nat, j: nat)
    requires Valid(t) && q.sort == Rating && i < j < |Listing(t, q, ranked)|
    ensures var (a, b) := (Listing(t, q, ranked)[i], Listing(t, q, ranked)[j]);
            && a in t.rows && b in t.rows
            && (b in t.rated ==> a in t.rated && t.rated[a] >= t.rated[b] && (t.rated[a] == t.rated[b] ==> Less(b, a)))
            && (a !in t.rated && b !in t.rated ==> NewerFirst(t, a, b))
  {
    ListedInOrder(t, q, ranked, i, j);
    var (a, b) := (Listing(t, q, ranked)[i], Listing(t, q, ranked)[j]);
    if a !in t.rated && b !in t.rated { ByReleaseIsNewerFirst(t, a, b); }
  }

  /** Trending: the ranked rows first, in the order of the ranking; then the others, newest first. */
  lemma TrendingReads(t: Tables, q: BrowseQuery, ranked: seq<string>, i: nat, j: nat)
    requires Valid(t) && q.sort == Trending && i < j < |Listing(t, q, ranked)|
    ensures var (a, b) := (Listing(t, q, ranked)[i], Listing(t, q, ranked)[j]);
            && a in t.rows && b in t.rows
            && (b in ranked ==> a in ranked && Ranks(ranked, a, b))
            && (a !in ranked && b !in ranked ==> NewerFirst(t, a, b))
  {
    ListedInOrder(t, q, ranked, i, j);
    var (a, b) := (Listing(t, q, ranked)[i], Listing(t, q, ranked)[j]);
    if a !in ranked && b !in ranked { ByReleaseIsNewerFirst(t, a, b); }
    if b in ranked {
      ListingIsPromised(t, q, ranked);
      assert a != b;
      FirstMentioned(ranked, a, b);
    }
  }

  /** One id is named in the ranking before another is. */
  predicate Ranks(ranked: seq<string>, a: string, b: string) {
    exists m | 0 <= m < |ranked| && ranked[m] == a :: b !in ranked[..m]
  }

  lemma FirstMentioned(ranked: seq<string>, a: string, b: string)
    requires a in ranked && b in ranked && a != b && ByKey(ViewRank(ranked), a, b)
    ensures Ranks(ranked, a, b)
  {
    var (m, n) := (IndexOf(ranked, a), IndexOf(ranked, b));
    assert ViewRank(ranked)(a) == Some(-(m as real)) && ViewRank(ranked)(b) == Some(-(n as real));
    assert m < n;
    assert ranked[..n][..m] == ranked[..m] && ranked[m] == a;
  }

  lemma SlicesOfThirty(all: seq<string>, page: int)
    ensures Window(all, PAGE_SIZE, OffsetOf(page)) == Thirty(all, page)
  {
  }

  lemma PageIsWindow(t: Tables, q: BrowseQuery, ranked: seq<string>)
    requires Valid(t) && Distinct(ranked)
    ensures BrowseCatalogue(t, q, ranked).0 == |Listing(t, q, ranked)|
    ensures BrowseCatalogue(t, q, ranked).1 == Window(Listing(t, q, ranked), PAGE_SIZE, OffsetOf(q.page))
  {
    PageIsSlice(t, q, ranked);
  }

  /** Thirty rows from the place of a page in a list. */
  function Thirty(all: seq<string>, page: int): seq<string> {
    var k := if page < 1 then 1 else page;
    var (from, to) := (30 * (k - 1), 30 * k);
    if |all| <= from then [] else all[from..if to <= |all| then to else |all|]
  }

  /** A page is thirty rows of the listing, the first of them for a page below one, and the total is the listing's length. */
  lemma PageReads(t: Tables, q: BrowseQuery, ranked: seq<string>)
    requires Valid(t) && Distinct(ranked)
    ensures BrowseCatalogue(t, q, ranked).0 == |Listing(t, q, ranked)|
    ensures BrowseCatalogue(t, q, ranked).1 == Thirty(Listing(t, q, ranked), q.page)
  {
    PageIsWindow(t, q, ranked);
    SlicesOfThirty(Listing(t, q, ranked), q.page);
  }

  /** A work without reviews counts as rated zero: a lower bound above zero leaves it out, an upper one never does. */
  lemma UnratedIsZero(f: Filter, t: Tables, id: string)
    ensures Matches(f, t, id) ==>
              var average := if id in t.rated then t.rated[id] else 0.0;
              (f.minRating.Some? ==> average >= f.minRating.value) && (f.maxRating.Some? ==> average <= f.maxRating.value)
    ensures id in t.rows && id !in t.rated && f.minRating.None? && (f.maxRating.Some? ==> f.maxRating.value >= 0.0) ==>
              Matches(f, t, id) == Matches(f.(maxRating := None), t, id)
  {
  }
}
