/** View counting: an all-time total and hourly buckets per series, old buckets pruned. */
module Views {
  import opened Ordering

  const BUCKET_RETENTION_HOURS: int := 24 * 7

  /** One chapter open, under its normalised series key. */
  datatype View = View(key: string, hour: int)

  datatype Counters = Counters(total: map<string, nat>, bucket: map<(string, int), nat>)

  datatype ViewCounts = ViewCounts(total: nat, last7d: nat, last24h: nat)

  const NO_VIEWS := Counters(map[], map[])

  function Total(c: Counters, key: string): nat {
    if key in c.total then c.total[key] else 0
  }

  function Bucket(c: Counters, key: string, hour: int): nat {
    if (key, hour) in c.bucket then c.bucket[(key, hour)] else 0
  }

  function Recorded(c: Counters, key: string, hour: int): Counters {
    Counters(c.total[key := Total(c, key) + 1], c.bucket[(key, hour) := Bucket(c, key, hour) + 1])
  }

  function Pruned(c: Counters, now: int): Counters {
    Counters(c.total, map k | k in c.bucket && k.1 > now - BUCKET_RETENTION_HOURS :: c.bucket[k])
  }

  /** Pruning keeps every total and exactly the buckets of the last 168 hours, each as it was. */
  lemma PrunedAre(c: Counters, now: int, key: string, hour: int)
    ensures Pruned(c, now).total == c.total
    ensures (key, hour) in Pruned(c, now).bucket <==> (key, hour) in c.bucket && hour > now - 168
    ensures Bucket(Pruned(c, now), key, hour) == if hour > now - 168 then Bucket(c, key, hour) else 0
  {
  }

  /** The bucket sum over hours after `since` up to `now`. */
  function WindowSum(c: Counters, key: string, since: int, now: int): nat
    decreases now - since
  {
    if now <= since then 0 else WindowSum(c, key, since, now - 1) + Bucket(c, key, now)
  }

  function CountsAt(c: Counters, key: string, now: int): ViewCounts {
    ViewCounts(Total(c, key), WindowSum(c, key, now - BUCKET_RETENTION_HOURS, now), WindowSum(c, key, now - 24, now))
  }

  class ViewStore {
    var total: map<string, nat>
    var bucket: map<(string, int), nat>

    constructor ()
      ensures State() == NO_VIEWS
    {
      total, bucket := map[], map[];
    }

    ghost function State(): Counters
      reads this
    {
      Counters(total, bucket)
    }

    method Record(key: string, hour: int)
      modifies this
      ensures State() == Recorded(old(State()), key, hour)
    {
      total := total[key := (if key in total then total[key] else 0) + 1];
      bucket := bucket[(key, hour) := (if (key, hour) in bucket then bucket[(key, hour)] else 0) + 1];
    }

    method PruneBuckets(now: int) returns (deleted: nat)
      modifies this`bucket
      ensures State() == Pruned(old(State()), now)
      ensures deleted == |old(bucket)| - |bucket|
    {
      var cutoff := now - BUCKET_RETENTION_HOURS;
      var kept := map k | k in bucket && k.1 > cutoff :: bucket[k];
      assert kept.Keys <= bucket.Keys;
      CardinalityLe(kept.Keys, bucket.Keys);
      assert |kept| == |kept.Keys| && |bucket| == |bucket.Keys|;
      deleted := |bucket| - |kept|;
      bucket := kept;
    }

    method CountsFor(key: string, now: int) returns (c: ViewCounts)
      ensures c == CountsAt(State(), key, now)
    {
      var last7d, last24h := 0, 0;
      var hour := now - BUCKET_RETENTION_HOURS;
      while hour < now
        invariant now - BUCKET_RETENTION_HOURS <= hour <= now
        invariant last7d == WindowSum(State(), key, now - BUCKET_RETENTION_HOURS, hour)
        invariant last24h == WindowSum(State(), key, now - 24, hour)
      {
        hour := hour + 1;
        var views := if (key, hour) in bucket then bucket[(key, hour)] else 0;
        last7d := last7d + views;
        if hour > now - 24 {
          last24h := last24h + views;
        }
      }
      c := ViewCounts(if key in total then total[key] else 0, last7d, last24h);
    }

    /** Sum the buckets of the last 24 hours series by series, sort, and keep the first so many. */
    method TrendingKeys(now: int, limit: nat) returns (r: seq<(string, nat)>)
      requires Sensible(State(), now)
      ensures var s := State(); IsRanking(r, key => WindowSum(s, key, now - 24, now), limit)
    {
      ghost var s := State();
      ghost var views := key => WindowSum(s, key, now - 24, now);
      var keys := set k | k in bucket && k.1 > now - 24 :: k.0;
      assert keys == KeysSince(s, now - 24);
      ViewedKeys(s, now - 24, now);
      var rest, rows := keys, [];
      while rest != {}
        invariant rest <= keys
        invariant Grouped(rows, keys - rest, views)
        decreases rest
      {
        var key :| key in rest;
        var c := CountsFor(key, now);
        OneMoreGroup(rows, keys - rest, views, key);
        rows, rest := rows + [(key, c.last24h)], rest - {key};
        assert keys - rest == keys - (rest + {key}) + {key};
      }
      assert keys - rest == keys;
      r := Sort(rows, MoreViewed);
      RankingOf(rows, r, keys, views, limit);
      r := r[..if limit < |r| then limit else |r|];
    }
  }

  /** Every bucket counts something, and none lies ahead. */
  ghost predicate Sensible(c: Counters, now: int) { forall k | k in c.bucket :: c.bucket[k] > 0 && k.1 <= now }

  /** More views first, of equal ones the lesser key. */
  predicate MoreViewed(a: (string, nat), b: (string, nat)) { a.1 > b.1 || (a.1 == b.1 && Less(a.0, b.0)) }

  lemma MoreViewedIsStrictTotal()
    ensures StrictTotal(MoreViewed)
  {
    LessIsStrictTotal();
    forall x ensures !MoreViewed(x, x) { assert !Less(x.0, x.0); }
    forall x, y ensures x == y || MoreViewed(x, y) || MoreViewed(y, x) { assert x.0 == y.0 || Less(x.0, y.0) || Less(y.0, x.0); }
    forall x, y, z | MoreViewed(x, y) && MoreViewed(y, z) ensures MoreViewed(x, z) {
      if x.1 == y.1 == z.1 { assert Less(x.0, y.0) && Less(y.0, z.0); }
    }
  }

  lemma {:induction false} WindowHasBucket(c: Counters, key: string, since: int, now: int)
    ensures WindowSum(c, key, since, now) > 0 ==> exists hour :: since < hour <= now && Bucket(c, key, hour) > 0
    ensures forall hour | since < hour <= now :: Bucket(c, key, hour) <= WindowSum(c, key, since, now)
    decreases now - since
  {
    if since < now { WindowHasBucket(c, key, since, now - 1); }
  }

  function KeysSince(c: Counters, since: int): set<string> { set k | k in c.bucket && k.1 > since :: k.0 }

  /** The series with a bucket since then are those with a view since then. */
  lemma ViewedKeys(c: Counters, since: int, now: int)
    requires Sensible(c, now)
    ensures forall key :: key in KeysSince(c, since) <==> WindowSum(c, key, since, now) > 0
  {
    forall key ensures key in KeysSince(c, since) <==> WindowSum(c, key, since, now) > 0 {
      WindowHasBucket(c, key, since, now);
      if k :| k in c.bucket && k.1 > since && k.0 == key {
        assert Bucket(c, key, k.1) > 0;
      }
      if hour :| since < hour <= now && Bucket(c, key, hour) > 0 {
        assert (key, hour) in c.bucket;
      }
    }
  }

  /** One row for each of these series, with its views. */
  ghost predicate Grouped(rows: seq<(string, nat)>, keys: set<string>, views: string -> nat) {
    && (forall i | 0 <= i < |rows| :: rows[i].0 in keys && rows[i].1 == views(rows[i].0))
    && (forall key | key in keys :: (key, views(key)) in rows)
    && NoRepeats(rows)
  }

  lemma OneMoreGroup(rows: seq<(string, nat)>, keys: set<string>, views: string -> nat, key: string)
    requires Grouped(rows, keys, views) && key !in keys
    ensures Grouped(rows + [(key, views(key))], keys + {key}, views)
  {
  }

  lemma SortedGroups(rows: seq<(string, nat)>, keys: set<string>, views: string -> nat)
    requires Grouped(rows, keys, views)
    ensures var sorted := Sort(rows, MoreViewed); Grouped(sorted, keys, views) && StrictlyOrdered(sorted, MoreViewed)
  {
    MoreViewedIsStrictTotal();
    SortMembers(rows, MoreViewed);
    SortStrict(rows, MoreViewed);
    var sorted := Sort(rows, MoreViewed);
    forall i | 0 <= i < |sorted| ensures sorted[i].0 in keys && sorted[i].1 == views(sorted[i].0) {
      assert sorted[i] in sorted && sorted[i] in rows;
    }
  }

  /** What a cut leaves out comes after all that it keeps. */
  lemma CutOff(sorted: seq<(string, nat)>, n: nat, x: (string, nat))
    requires StrictlyOrdered(sorted, MoreViewed) && n <= |sorted| && x in sorted && x !in sorted[..n]
    ensures n < |sorted| && (n > 0 ==> MoreViewed(sorted[n - 1], x))
  {
    assert sorted == sorted[..n] + sorted[n..];
    var j :| 0 <= j < |sorted| - n && sorted[n..][j] == x;
    assert sorted[n + j] == x;
  }

  lemma KeptInOrder(sorted: seq<(string, nat)>, n: nat, keys: set<string>, views: string -> nat)
    requires Grouped(sorted, keys, views) && StrictlyOrdered(sorted, MoreViewed) && n <= |sorted|
    requires forall key :: key in keys <==> views(key) > 0
    ensures forall i | 0 <= i < n :: sorted[..n][i].1 == views(sorted[..n][i].0) > 0
    ensures forall i, j | 0 <= i < j < n :: MoreViewed(sorted[..n][i], sorted[..n][j])
  {
  }

  lemma LeftOut(sorted: seq<(string, nat)>, n: nat, keys: set<string>, views: string -> nat, limit: nat, key: string)
    requires Grouped(sorted, keys, views) && StrictlyOrdered(sorted, MoreViewed) && key in keys
    requires n <= |sorted| && (n == limit || n == |sorted| < limit) && (key, views(key)) !in sorted[..n]
    ensures ComesTooLate(sorted[..n], limit, (key, views(key)))
  {
    CutOff(sorted, n, (key, views(key)));
  }

  lemma RankingOfSorted(sorted: seq<(string, nat)>, n: nat, keys: set<string>, views: string -> nat, limit: nat)
    requires Grouped(sorted, keys, views) && StrictlyOrdered(sorted, MoreViewed)
    requires n <= |sorted| && (n == limit || n == |sorted| < limit)
    requires forall key :: key in keys <==> views(key) > 0
    ensures IsRanking(sorted[..n], views, limit)
  {
    KeptInOrder(sorted, n, keys, views);
    forall key | views(key) > 0 && (key, views(key)) !in sorted[..n]
      ensures ComesTooLate(sorted[..n], limit, (key, views(key)))
    {
      LeftOut(sorted, n, keys, views, limit, key);
    }
  }

  lemma RankingOf(rows: seq<(string, nat)>, sorted: seq<(string, nat)>, keys: set<string>, views: string -> nat, limit: nat)
    requires Grouped(rows, keys, views) && sorted == Sort(rows, MoreViewed)
    requires forall key :: key in keys <==> views(key) > 0
    ensures IsRanking(sorted[..if limit < |sorted| then limit else |sorted|], views, limit)
  {
    SortedGroups(rows, keys, views);
    RankingOfSorted(sorted, if limit < |sorted| then limit else |sorted|, keys, views, limit);
  }

  lemma CardinalityLe<T>(a: set<T>, b: set<T>)
    requires a <= b
    ensures |a| <= |b|
  {
    assert b == a + (b - a);
  }

  // ---- against the full log --------------------------------------------------------------

  datatype Op = Open(view: View) | Prune(now: int)

  function HourOf(op: Op): int {
    match op
    case Open(view) => view.hour
    case Prune(now) => now
  }

  function Run(ops: seq<Op>): Counters {
    if ops == [] then NO_VIEWS
    else
      var before := Run(ops[..|ops| - 1]);
      match ops[|ops| - 1]
      case Open(view) => Recorded(before, view.key, view.hour)
      case Prune(now) => Pruned(before, now)
  }

  /** Every view ever recorded, pruned or not, satisfying the window. */
  function Logged(ops: seq<Op>, key: string, since: int, now: int): nat {
    if ops == [] then 0
    else
      var last := ops[|ops| - 1];
      Logged(ops[..|ops| - 1], key, since, now)
      + if last.Open? && last.view.key == key && since < last.view.hour <= now then 1 else 0
  }

  function EverLogged(ops: seq<Op>, key: string): nat {
    if ops == [] then 0
    else
      var last := ops[|ops| - 1];
      EverLogged(ops[..|ops| - 1], key) + if last.Open? && last.view.key == key then 1 else 0
  }

  /** Operations happen in the order of their hours. */
  ghost predicate InOrder(ops: seq<Op>) {
    forall i, j | 0 <= i < j < |ops| :: HourOf(ops[i]) <= HourOf(ops[j])
  }

  /** Totals are exact, and so is every bucket a window can still reach. */
  lemma {:induction false} BucketsExact(ops: seq<Op>, key: string, hour: int)
    requires InOrder(ops)
    requires ops != [] ==> HourOf(ops[|ops| - 1]) - BUCKET_RETENTION_HOURS < hour
    ensures Total(Run(ops), key) == EverLogged(ops, key)
    ensures Bucket(Run(ops), key, hour) == Logged(ops, key, hour - 1, hour)
  {
    if ops != [] {
      BucketsExact(ops[..|ops| - 1], key, hour);
    }
  }

  lemma {:induction false} LoggedSplits(ops: seq<Op>, key: string, since: int, now: int)
    requires since < now
    ensures Logged(ops, key, since, now) == Logged(ops, key, since, now - 1) + Logged(ops, key, now - 1, now)
  {
    if ops != [] {
      LoggedSplits(ops[..|ops| - 1], key, since, now);
    }
  }

  lemma {:induction false} LoggedEmpty(ops: seq<Op>, key: string, since: int, now: int)
    requires now <= since
    ensures Logged(ops, key, since, now) == 0
  {
    if ops != [] {
      LoggedEmpty(ops[..|ops| - 1], key, since, now);
    }
  }

  lemma {:induction false} WindowExact(ops: seq<Op>, key: string, since: int, now: int)
    requires InOrder(ops)
    requires ops != [] ==> HourOf(ops[|ops| - 1]) - BUCKET_RETENTION_HOURS <= since
    ensures WindowSum(Run(ops), key, since, now) == Logged(ops, key, since, now)
    decreases now - since
  {
    if now <= since {
      LoggedEmpty(ops, key, since, now);
    } else {
      WindowExact(ops, key, since, now - 1);
      BucketsExact(ops, key, now);
      LoggedSplits(ops, key, since, now);
    }
  }

  lemma {:induction false} LoggedMonotone(ops: seq<Op>, key: string, since: int, since': int, now: int)
    requires since <= since'
    ensures Logged(ops, key, since', now) <= Logged(ops, key, since, now) <= EverLogged(ops, key)
  {
    if ops != [] {
      LoggedMonotone(ops[..|ops| - 1], key, since, since', now);
    }
  }

  /** After any interleaving of views and prunes the three counts are those of the complete log. */
  lemma CountsMatchTheLog(ops: seq<Op>, key: string, now: int)
    requires InOrder(ops) && (ops != [] ==> HourOf(ops[|ops| - 1]) <= now)
    ensures CountsAt(Run(ops), key, now)
         == ViewCounts(EverLogged(ops, key), Logged(ops, key, now - 168, now),
                       Logged(ops, key, now - 24, now))
    ensures var c := CountsAt(Run(ops), key, now); c.last24h <= c.last7d <= c.total
  {
    BucketsExact(ops, key, now + 1);
    WindowExact(ops, key, now - BUCKET_RETENTION_HOURS, now);
    WindowExact(ops, key, now - 24, now);
    LoggedMonotone(ops, key, now - BUCKET_RETENTION_HOURS, now - 24, now);
  }

  // ---- trending --------------------------------------------------------------------------

  /** The list is full, and what is left out comes after its last. */
  predicate ComesTooLate(r: seq<(string, nat)>, limit: nat, x: (string, nat)) {
    |r| == limit && (limit > 0 ==> MoreViewed(r[limit - 1], x))
  }

  /** The most viewed keys of a window, most viewed first, ties by key, at most `limit`. */
  ghost predicate IsRanking(r: seq<(string, nat)>, views: string -> nat, limit: nat) {
    && |r| <= limit
    && (forall i | 0 <= i < |r| :: r[i].1 == views(r[i].0) > 0)
    && (forall i, j | 0 <= i < j < |r| :: MoreViewed(r[i], r[j]))
    && (forall key | views(key) > 0 && (key, views(key)) !in r :: ComesTooLate(r, limit, (key, views(key))))
  }

  /** In every run every bucket counts something and lies at or before the last operation. */
  lemma {:induction false} RunIsSensible(ops: seq<Op>, now: int)
    requires InOrder(ops) && (ops != [] ==> HourOf(ops[|ops| - 1]) <= now)
    ensures Sensible(Run(ops), now)
  {
    if ops != [] { RunIsSensible(ops[..|ops| - 1], now); }
  }

  /** A trending list read off the pruned buckets is the trending list of the complete log. */
  lemma TrendingMatchesTheLog(ops: seq<Op>, now: int, r: seq<(string, nat)>, limit: nat)
    requires InOrder(ops) && (ops != [] ==> HourOf(ops[|ops| - 1]) <= now)
    ensures IsRanking(r, key => WindowSum(Run(ops), key, now - 24, now), limit)
       <==> IsRanking(r, key => Logged(ops, key, now - 24, now), limit)
  {
    var f := key => WindowSum(Run(ops), key, now - 24, now);
    var g := key => Logged(ops, key, now - 24, now);
    forall key ensures f(key) == g(key) { WindowExact(ops, key, now - 24, now); }
  }
}
