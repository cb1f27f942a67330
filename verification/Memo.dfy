/** A bounded memo of counts, and its runs: what it answers when counting, storing and clearing interleave. */
module Memo {
  import opened Wrappers

  const COUNT_CACHE_CAP := 2048
  const COUNT_TTL := 60_000

  /** A memoized total and the millisecond it was stored. */
  datatype Entry = Entry(total: nat, at: nat)

  type Entries = map<string, Entry>

  predicate Live(e: Entry, now: nat, ttl: nat) { now - e.at < ttl }

  function Cached(m: Entries, key: string, now: nat, ttl: nat): Option<nat> {
    if key in m && Live(m[key], now, ttl) then Some(m[key].total) else None
  }

  function Retained(m: Entries, now: nat, ttl: nat): Entries {
    map k | k in m && Live(m[k], now, ttl) :: m[k]
  }

  /** Room for one more: the expired go first, and everything if that frees nothing. */
  function Evicted(m: Entries, now: nat, ttl: nat): Entries {
    if |m| < COUNT_CACHE_CAP then m
    else
      var kept := Retained(m, now, ttl);
      if |kept| < COUNT_CACHE_CAP then kept else map[]
  }

  function Stored(m: Entries, key: string, total: nat, now: nat, ttl: nat): Entries {
    Evicted(m, now, ttl)[key := Entry(total, now)]
  }

  lemma OneMoreEntry(m: Entries, key: string, e: Entry)
    ensures |m[key := e]| <= |m| + 1
  {
    assert m[key := e].Keys == m.Keys + {key};
  }

  /** The memo never outgrows its cap. */
  lemma StoreIsBounded(m: Entries, key: string, total: nat, now: nat, ttl: nat)
    requires |m| <= COUNT_CACHE_CAP
    ensures |Stored(m, key, total, now, ttl)| <= 2048
  {
    OneMoreEntry(Evicted(m, now, ttl), key, Entry(total, now));
  }

  /** What is stored is served for a minute and no longer. */
  lemma StoredIsServed(m: Entries, key: string, total: nat, now: nat, later: nat)
    ensures Cached(Stored(m, key, total, now, COUNT_TTL), key, later, COUNT_TTL)
         == if later < now + 60_000 then Some(total) else None
  {
  }

  /** Everything stored is still live. */
  predicate AllLive(m: Entries, now: nat, ttl: nat) { forall k | k in m :: Live(m[k], now, ttl) }

  lemma RetainedCount(m: Entries, now: nat, ttl: nat)
    ensures |Retained(m, now, ttl)| <= |m|
    ensures |Retained(m, now, ttl)| == |m| <==> AllLive(m, now, ttl)
  {
    var kept := Retained(m, now, ttl);
    assert kept.Keys <= m.Keys;
    Subset(kept.Keys, m.Keys);
    if AllLive(m, now, ttl) { assert kept.Keys == m.Keys; }
  }

  lemma Subset(a: set<string>, b: set<string>)
    requires a <= b
    ensures |a| <= |b| && (|a| == |b| ==> a == b)
  {
    var rest := b - a;
    assert b == a + rest;
    assert |b| == |a| + |rest|;
  }

  /** A store discards a live entry of another key exactly when the memo is full of live entries. */
  lemma LiveEntriesAreKept(m: Entries, key: string, total: nat, now: nat, ttl: nat, other: string)
    requires |m| <= COUNT_CACHE_CAP
    requires other in m && other != key && Live(m[other], now, ttl)
    ensures other !in Stored(m, key, total, now, ttl) <==> |m| == 2048 && AllLive(m, now, ttl)
    ensures other in Stored(m, key, total, now, ttl) ==> Stored(m, key, total, now, ttl)[other] == m[other]
  {
    RetainedCount(m, now, ttl);
  }

  // ---- runs ------------------------------------------------------------------------------------

  /** What is memoized: the key of a request, and its exact count on a table. */
  datatype Requests<!F, !T> = Requests(keyOf: F -> string, exact: (T, F) -> nat)

  /** Keys tell these requests apart, and none is a key of the other feed. */
  ghost predicate KeysTell<F(!new), T(!new)>(m: Requests<F, T>, valid: iset<F>, foreign: iset<string>) {
    && (forall f, g | f in valid && g in valid :: m.keyOf(f) == m.keyOf(g) ==> f == g)
    && (forall f | f in valid :: m.keyOf(f) !in foreign)
  }

  /** A count a request has taken and not stored yet, and the version of the table it was taken on. */
  datatype Counted<F> = Counted(request: F, total: nat, version: nat)

  /**
   * What happens to the memo: a request misses and counts, a request stores its count, the other
   * feed stores one of its own, time passes, the table changes, the memo is cleared.
   */
  datatype Event<F, T> =
    | TakeCount(task: nat, request: F)
    | StoreTaken(task: nat)
    | OtherStore(key: string, total: nat)
    | Pass(millis: nat)
    | Change(table: T)
    | Clear

  /** `versions` are the tables there have been, the current one last; `dated` says on which each entry was counted. */
  datatype State<F, T> = State(entries: Entries, now: nat, versions: seq<T>, inFlight: map<nat, Counted<F>>, dated: map<string, nat>)

  ghost predicate Allowed<F(!new), T(!new)>(e: Event<F, T>, valid: iset<F>, foreign: iset<string>) {
    (e.TakeCount? ==> e.request in valid) && (e.OtherStore? ==> e.key in foreign)
  }

  function Current<F, T>(s: State<F, T>): T
    requires s.versions != []
  {
    s.versions[|s.versions| - 1]
  }

  function Answer<F, T>(m: Requests<F, T>, s: State<F, T>, f: F): Option<nat> {
    Cached(s.entries, m.keyOf(f), s.now, COUNT_TTL)
  }

  /** The total a request is answered with. */
  function Served<F, T>(m: Requests<F, T>, s: State<F, T>, f: F): nat
    requires s.versions != []
  {
    if Answer(m, s, f).Some? then Answer(m, s, f).value else m.exact(Current(s), f)
  }

  function StoreCount<F, T>(m: Requests<F, T>, s: State<F, T>, task: nat): State<F, T>
    requires task in s.inFlight
  {
    var c := s.inFlight[task];
    var key := m.keyOf(c.request);
    State(Stored(s.entries, key, c.total, s.now, COUNT_TTL), s.now, s.versions, s.inFlight - {task}, s.dated[key := c.version])
  }

  function Step<F, T>(m: Requests<F, T>, s: State<F, T>, e: Event<F, T>): (z: State<F, T>)
    requires s.versions != []
    ensures z.versions != []
  {
    match e
    case TakeCount(task, f) =>
      if Answer(m, s, f).Some? then s
      else s.(inFlight := s.inFlight[task := Counted(f, m.exact(Current(s), f), |s.versions| - 1)])
    case StoreTaken(task) => if task in s.inFlight then StoreCount(m, s, task) else s
    case OtherStore(key, total) => s.(entries := Stored(s.entries, key, total, s.now, COUNT_TTL))
    case Pass(millis) => s.(now := s.now + millis)
    case Change(table) => s.(versions := s.versions + [table])
    case Clear => s.(entries := map[])
  }

  function After<F, T>(m: Requests<F, T>, s: State<F, T>, events: seq<Event<F, T>>): (z: State<F, T>)
    requires s.versions != []
    ensures z.versions != []
  {
    if events == [] then s else Step(m, After(m, s, events[..|events| - 1]), events[|events| - 1])
  }

  function Empty<F, T>(t: T): State<F, T> { State(map[], 0, [t], map[], map[]) }

  ghost predicate CountSound<F(!new), T(!new)>(m: Requests<F, T>, s: State<F, T>, c: Counted<F>, valid: iset<F>) {
    c.request in valid && c.version < |s.versions| && c.total == m.exact(s.versions[c.version], c.request)
  }

  ghost predicate EntryDated<F(!new), T(!new)>(m: Requests<F, T>, s: State<F, T>, f: F) {
    var key := m.keyOf(f);
    key in s.entries ==>
      key in s.dated && s.dated[key] < |s.versions| && s.entries[key].total == m.exact(s.versions[s.dated[key]], f)
  }

  /** Every entry that answers for a request holds its count on the version it is dated, and so does every count in flight. */
  ghost predicate Dated<F(!new), T(!new)>(m: Requests<F, T>, s: State<F, T>, valid: iset<F>) {
    && s.versions != [] && |s.entries| <= COUNT_CACHE_CAP
    && (forall f | f in valid :: EntryDated(m, s, f))
    && (forall task | task in s.inFlight :: CountSound(m, s, s.inFlight[task], valid))
  }

  lemma StoreKeepsDated<F(!new), T(!new)>(m: Requests<F, T>, s: State<F, T>, task: nat, valid: iset<F>, foreign: iset<string>)
    requires Dated(m, s, valid) && KeysTell(m, valid, foreign) && task in s.inFlight
    ensures Dated(m, StoreCount(m, s, task), valid)
  {
    var z, c := StoreCount(m, s, task), s.inFlight[task];
    assert CountSound(m, s, c, valid);
    StoreIsBounded(s.entries, m.keyOf(c.request), c.total, s.now, COUNT_TTL);
    forall f | f in valid ensures EntryDated(m, z, f) { assert EntryDated(m, s, f); }
    forall other | other in z.inFlight ensures CountSound(m, z, z.inFlight[other], valid) {
      assert CountSound(m, s, s.inFlight[other], valid);
    }
  }

  lemma StepKeepsDated<F(!new), T(!new)>(m: Requests<F, T>, s: State<F, T>, e: Event<F, T>, valid: iset<F>, foreign: iset<string>)
    requires Dated(m, s, valid) && KeysTell(m, valid, foreign) && Allowed(e, valid, foreign)
    ensures Dated(m, Step(m, s, e), valid)
  {
    var z := Step(m, s, e);
    if e.StoreTaken? && e.task in s.inFlight {
      StoreKeepsDated(m, s, e.task, valid, foreign);
    } else {
      if e.OtherStore? { StoreIsBounded(s.entries, e.key, e.total, s.now, COUNT_TTL); }
      forall f | f in valid ensures EntryDated(m, z, f) { assert EntryDated(m, s, f); }
      forall other | other in z.inFlight ensures CountSound(m, z, z.inFlight[other], valid) {
        assert other in s.inFlight ==> CountSound(m, s, s.inFlight[other], valid);
      }
    }
  }

  /**
   * In every run of counts, stores, foreign stores, time, table changes and clears, in any order, the
   * memo is within its cap and each of its answers is the exact count on the version it is dated.
   */
  lemma {:induction false} RunKeepsDated<F(!new), T(!new)>(m: Requests<F, T>, t: T, events: seq<Event<F, T>>,
                                                          valid: iset<F>, foreign: iset<string>)
    requires KeysTell(m, valid, foreign) && forall e | e in events :: Allowed(e, valid, foreign)
    ensures Dated(m, After(m, Empty(t), events), valid)
  {
    if events != [] {
      var e := events[|events| - 1];
      RunKeepsDated(m, t, events[..|events| - 1], valid, foreign);
      assert e in events;
      StepKeepsDated(m, After(m, Empty(t), events[..|events| - 1]), e, valid, foreign);
    }
  }

  /** A live entry answers for the request, and it was counted before the last change of the table. */
  predicate Stale<F, T>(m: Requests<F, T>, s: State<F, T>, f: F) {
    Answer(m, s, f).Some? && m.keyOf(f) in s.dated && s.dated[m.keyOf(f)] + 1 < |s.versions|
  }

  /**
   * In every run the total served for a request is exact if and only if no live entry answers with a
   * count from before the last change, or the changes since left that count as it was.
   */
  lemma ServedExactIffNotStale<F(!new), T(!new)>(m: Requests<F, T>, t: T, events: seq<Event<F, T>>, f: F,
                                                valid: iset<F>, foreign: iset<string>)
    requires KeysTell(m, valid, foreign) && f in valid && forall e | e in events :: Allowed(e, valid, foreign)
    ensures var z := After(m, Empty(t), events);
            && |z.entries| <= COUNT_CACHE_CAP
            && (Stale(m, z, f) ==> m.keyOf(f) in z.dated && z.dated[m.keyOf(f)] < |z.versions|)
            && (Served(m, z, f) == m.exact(Current(z), f)
                <==> !Stale(m, z, f) || m.exact(z.versions[z.dated[m.keyOf(f)]], f) == m.exact(Current(z), f))
  {
    RunKeepsDated(m, t, events, valid, foreign);
    ExactIffNotStale(m, After(m, Empty(t), events), f, valid);
  }

  lemma ExactIffNotStale<F(!new), T(!new)>(m: Requests<F, T>, s: State<F, T>, f: F, valid: iset<F>)
    requires Dated(m, s, valid) && f in valid
    ensures Stale(m, s, f) ==> m.keyOf(f) in s.dated && s.dated[m.keyOf(f)] < |s.versions|
    ensures Served(m, s, f) == m.exact(Current(s), f)
       <==> !Stale(m, s, f) || m.exact(s.versions[s.dated[m.keyOf(f)]], f) == m.exact(Current(s), f)
  {
    assert EntryDated(m, s, f);
  }

  /** The last change was followed by a clear, and no store since then was of a count from before that change. */
  ghost predicate Settled<F(!new), T(!new)>(m: Requests<F, T>, t: T, events: seq<Event<F, T>>) {
    events == []
    || var (before, e) := (events[..|events| - 1], events[|events| - 1]);
       !e.Change?
       && (e.Clear?
           || (Settled(m, t, before)
               && (e.StoreTaken? ==> StoresCurrent(After(m, Empty(t), before), e.task))))
  }

  predicate StoresCurrent<F, T>(s: State<F, T>, task: nat) {
    task in s.inFlight ==> s.inFlight[task].version + 1 == |s.versions|
  }

  ghost predicate EntryCurrent<F(!new), T(!new)>(m: Requests<F, T>, s: State<F, T>, f: F) {
    m.keyOf(f) in s.entries ==> m.keyOf(f) in s.dated && s.dated[m.keyOf(f)] + 1 == |s.versions|
  }

  /** All entries that answer for requests were counted on the current version. */
  ghost predicate AllCurrent<F(!new), T(!new)>(m: Requests<F, T>, s: State<F, T>, valid: iset<F>) {
    forall f | f in valid :: EntryCurrent(m, s, f)
  }

  lemma StepStaysCurrent<F(!new), T(!new)>(m: Requests<F, T>, s: State<F, T>, e: Event<F, T>, valid: iset<F>, foreign: iset<string>)
    requires Dated(m, s, valid) && AllCurrent(m, s, valid) && KeysTell(m, valid, foreign) && Allowed(e, valid, foreign)
    requires !e.Change? && (e.StoreTaken? ==> StoresCurrent(s, e.task))
    ensures AllCurrent(m, Step(m, s, e), valid)
  {
    var z := Step(m, s, e);
    if e.StoreTaken? && e.task in s.inFlight { assert CountSound(m, s, s.inFlight[e.task], valid); }
    forall f | f in valid ensures EntryCurrent(m, z, f) { assert EntryCurrent(m, s, f); }
  }

  lemma {:induction false} SettledIsCurrent<F(!new), T(!new)>(m: Requests<F, T>, t: T, events: seq<Event<F, T>>,
                                                             valid: iset<F>, foreign: iset<string>)
    requires KeysTell(m, valid, foreign) && (forall e | e in events :: Allowed(e, valid, foreign)) && Settled(m, t, events)
    ensures AllCurrent(m, After(m, Empty(t), events), valid)
  {
    if events != [] {
      var (before, e) := (events[..|events| - 1], events[|events| - 1]);
      assert e in events;
      if !e.Clear? {
        SettledIsCurrent(m, t, before, valid, foreign);
        RunKeepsDated(m, t, before, valid, foreign);
        StepStaysCurrent(m, After(m, Empty(t), before), e, valid, foreign);
      }
    }
  }

  lemma SettledStep<F(!new), T(!new)>(m: Requests<F, T>, t: T, events: seq<Event<F, T>>, e: Event<F, T>)
    requires Settled(m, t, events) && !e.Change?
    requires e.StoreTaken? ==> StoresCurrent(After(m, Empty(t), events), e.task)
    ensures Settled(m, t, events + [e])
  {
    assert (events + [e])[..|events|] == events;
  }

  /** A request that misses, counts and stores at once keeps a settled run settled. */
  lemma MissKeepsSettled<F(!new), T(!new)>(m: Requests<F, T>, t: T, events: seq<Event<F, T>>, task: nat, f: F)
    requires Settled(m, t, events) && Answer(m, After(m, Empty(t), events), f).None?
    ensures Settled(m, t, events + [TakeCount(task, f)])
    ensures Settled(m, t, events + [TakeCount(task, f)] + [StoreTaken(task)])
  {
    var taken := events + [TakeCount(task, f)];
    SettledStep(m, t, events, TakeCount(task, f));
    assert taken[..|events|] == events;
    assert After(m, Empty(t), taken) == Step(m, After(m, Empty(t), events), TakeCount(task, f));
    SettledStep(m, t, taken, StoreTaken(task));
  }

  /** In every settled run the total served for any request is the exact count. */
  lemma SettledIsExact<F(!new), T(!new)>(m: Requests<F, T>, t: T, events: seq<Event<F, T>>, f: F,
                                        valid: iset<F>, foreign: iset<string>)
    requires KeysTell(m, valid, foreign) && f in valid
    requires (forall e | e in events :: Allowed(e, valid, foreign)) && Settled(m, t, events)
    ensures var z := After(m, Empty(t), events); Served(m, z, f) == m.exact(Current(z), f)
  {
    SettledIsCurrent(m, t, events, valid, foreign);
    ServedExactIffNotStale(m, t, events, f, valid, foreign);
    assert EntryCurrent(m, After(m, Empty(t), events), f);
  }

  /** A count taken before a change and stored after the clear that follows it. */
  function LateStore<F, T>(f: F, t: T, wait: nat): seq<Event<F, T>> {
    [TakeCount(0, f), Change(t), Clear, StoreTaken(0), Pass(wait)]
  }

  /**
   * Counting and storing are two steps: after such a run the old table's count is served for as
   * long as it lives, and it is exact only by coincidence.
   */
  lemma LateStoreIsStale<F(!new), T(!new)>(m: Requests<F, T>, before: T, f: F, t: T, wait: nat)
    requires wait < COUNT_TTL
    ensures var z := After(m, Empty(before), LateStore(f, t, wait));
            && Served(m, z, f) == m.exact(before, f) && Current(z) == t && Stale(m, z, f)
            && (Served(m, z, f) == m.exact(Current(z), f) <==> m.exact(before, f) == m.exact(t, f))
  {
    var key, total := m.keyOf(f), m.exact(before, f);
    var s0: State<F, T> := Empty(before);
    var es: seq<Event<F, T>> := LateStore(f, t, wait);
    var s1 := s0.(inFlight := map[0 := Counted(f, total, 0)]);
    var s2 := s1.(versions := [before, t]);
    var s4 := State(map[key := Entry(total, 0)], 0, [before, t], map[], map[key := 0]);
    assert StoreCount(m, s2, 0) == s4;
    AfterNext(m, s0, es, 0);
    assert After(m, s0, es[..1]) == s1;
    AfterNext(m, s0, es, 1);
    assert After(m, s0, es[..2]) == s2;
    AfterNext(m, s0, es, 2);
    assert After(m, s0, es[..3]) == s2;
    AfterNext(m, s0, es, 3);
    assert After(m, s0, es[..4]) == s4;
    AfterNext(m, s0, es, 4);
    assert es[..5] == es;
    LateAnswer(m, s4, f, wait);
  }

  lemma LateAnswer<F(!new), T(!new)>(m: Requests<F, T>, s: State<F, T>, f: F, wait: nat)
    requires wait < COUNT_TTL && s.now == 0 && |s.versions| == 2 && m.keyOf(f) in s.entries && m.keyOf(f) in s.dated
    requires s.entries[m.keyOf(f)] == Entry(m.exact(s.versions[0], f), 0) && s.dated[m.keyOf(f)] == 0
    ensures var z := s.(now := wait); Served(m, z, f) == m.exact(s.versions[0], f) && Stale(m, z, f)
  {
  }

  lemma AfterNext<F, T>(m: Requests<F, T>, s: State<F, T>, events: seq<Event<F, T>>, i: nat)
    requires s.versions != [] && i < |events|
    ensures After(m, s, events[..i + 1]) == Step(m, After(m, s, events[..i]), events[i])
  {
    assert events[..i + 1][..i] == events[..i];
  }
}
