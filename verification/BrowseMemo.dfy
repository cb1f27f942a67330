/** The memo of Browse totals. */
module BrowseMemo {
  import opened Wrappers
  import opened BrowseFilter
  import opened BrowsePager
  import opened BrowseKey
  import opened Memo

  // ---- the memo in use -----------------------------------------------------------------------

  function Exact(t: Tables, f: Filter): nat { Count(t, UsesReviews(f), Parts(f), Binds(f)) }

  /** Whatever the memo would answer for a filter is that filter's exact count. */
  ghost predicate Truthful(m: Entries, t: Tables, show: real -> string, doubles: iset<real>) {
    forall f: Filter | Resolved(f, doubles) && CountKey(f, show) in m :: m[CountKey(f, show)].total == Exact(t, f)
  }

  predicate Foreign(key: string) { |key| < 3 || key[..3] != "v3|" }

  lemma KeysHaveThePrefix(f: Filter, show: real -> string)
    ensures !Foreign(CountKey(f, show))
  {
    assert CountKey(f, show) == "v3|" + (Barred(Fields(f, show)) + GenreKey(f.genres));
  }

  class CountMemo {
    var entries: Entries

    constructor ()
      ensures entries == map[]
    {
      entries := map[];
    }

    method Lookup(key: string, now: nat, ttl: nat) returns (total: Option<nat>)
      ensures total == Cached(entries, key, now, ttl)
    {
      if key in entries && Live(entries[key], now, ttl) { return Some(entries[key].total); }
      total := None;
    }

    method Store(key: string, total: nat, now: nat, ttl: nat)
      modifies this
      ensures entries == Stored(old(entries), key, total, now, ttl)
    {
      if |entries| >= COUNT_CACHE_CAP {
        entries := Retained(entries, now, ttl);
        if |entries| >= COUNT_CACHE_CAP { entries := map[]; }
      }
      entries := entries[key := Entry(total, now)];
    }

    method Clear()
      modifies this
      ensures entries == map[]
    {
      entries := map[];
    }

    /** The total of one request: the memo's answer, or the count, stored for the next one. */
    method Total(f: Filter, t: Tables, now: nat, show: real -> string, ghost doubles: iset<real>) returns (total: nat)
      requires Resolved(f, doubles) && Faithful(show, doubles)
      requires Truthful(entries, t, show, doubles) && |entries| <= COUNT_CACHE_CAP
      modifies this
      ensures total == Exact(t, f)
      ensures Truthful(entries, t, show, doubles) && |entries| <= COUNT_CACHE_CAP
      ensures entries == if Cached(old(entries), CountKey(f, show), now, COUNT_TTL).Some? then old(entries)
                         else Stored(old(entries), CountKey(f, show), total, now, COUNT_TTL)
    {
      var key := BuildCountKey(f, show);
      var cached := Lookup(key, now, COUNT_TTL);
      if cached.Some? {
        total := cached.value;
      } else {
        total := Count(t, UsesReviews(f), Parts(f), Binds(f));
        StoreIsBounded(entries, key, total, now, COUNT_TTL);
        StoreIsTruthful(entries, f, t, now, show, doubles);
        Store(key, total, now, COUNT_TTL);
      }
    }
  }

  lemma StoreIsTruthful(m: Entries, f: Filter, t: Tables, now: nat, show: real -> string, doubles: iset<real>)
    requires Resolved(f, doubles) && Faithful(show, doubles) && Truthful(m, t, show, doubles)
    ensures Truthful(Stored(m, CountKey(f, show), Exact(t, f), now, COUNT_TTL), t, show, doubles)
  {
    var after := Stored(m, CountKey(f, show), Exact(t, f), now, COUNT_TTL);
    forall g: Filter | Resolved(g, doubles) && CountKey(g, show) in after
      ensures after[CountKey(g, show)].total == Exact(t, g)
    {
      KeyTellsFiltersApart(f, g, show, doubles);
    }
  }

  // ---- runs ------------------------------------------------------------------------------------

  /** Browse requests: their memo key, and their exact count. */
  function BrowseRequests(show: real -> string): Requests<Filter, Tables> {
    Requests(f => CountKey(f, show), (t, f) => Exact(t, f))
  }

  ghost function Filters(doubles: iset<real>): iset<Filter> { iset f: Filter | Resolved(f, doubles) }

  /** The keys of the other feed. */
  ghost function OtherKeys(): iset<string> { iset k: string | Foreign(k) }

  lemma BrowseKeysTell(show: real -> string, doubles: iset<real>)
    requires Faithful(show, doubles)
    ensures KeysTell(BrowseRequests(show), Filters(doubles), OtherKeys())
  {
    var m := BrowseRequests(show);
    forall f, g | f in Filters(doubles) && g in Filters(doubles) ensures m.keyOf(f) == m.keyOf(g) ==> f == g {
      KeyTellsFiltersApart(f, g, show, doubles);
    }
    forall f | f in Filters(doubles) ensures m.keyOf(f) !in OtherKeys() { KeysHaveThePrefix(f, show); }
  }

  /**
   * Over any run in which every change of the table was followed by a clear and no count from before
   * the change was stored after it, the total served for any filter is the exact count.
   */
  lemma MemoStaysExact(t: Tables, events: seq<Event<Filter, Tables>>, f: Filter, show: real -> string, doubles: iset<real>)
    requires Faithful(show, doubles) && Resolved(f, doubles)
    requires forall e | e in events :: Allowed(e, Filters(doubles), OtherKeys())
    requires Settled(BrowseRequests(show), t, events)
    ensures var z := After(BrowseRequests(show), Empty(t), events);
            Served(BrowseRequests(show), z, f) == BrowseRequests(show).exact(Current(z), f)
  {
    BrowseKeysTell(show, doubles);
    SettledIsExact(BrowseRequests(show), t, events, f, Filters(doubles), OtherKeys());
  }

  /** Over any run at all, it is exact if and only if no live entry is stale, or its count has not changed since. */
  lemma MemoExactIff(t: Tables, events: seq<Event<Filter, Tables>>, f: Filter, show: real -> string, doubles: iset<real>)
    requires Faithful(show, doubles) && Resolved(f, doubles)
    requires forall e | e in events :: Allowed(e, Filters(doubles), OtherKeys())
    ensures var m := BrowseRequests(show);
            var z := After(m, Empty(t), events);
            && |z.entries| <= COUNT_CACHE_CAP
            && (Served(m, z, f) == m.exact(Current(z), f)
                <==> !Stale(m, z, f) || m.exact(z.versions[z.dated[m.keyOf(f)]], f) == m.exact(Current(z), f))
  {
    BrowseKeysTell(show, doubles);
    ServedExactIffNotStale(BrowseRequests(show), t, events, f, Filters(doubles), OtherKeys());
  }
}
