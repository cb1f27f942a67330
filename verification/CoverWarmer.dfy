/** The rotating window of the cover warmer, and why no series waits for ever. */
module CoverWarmer {
  import opened Wrappers

  /** A cursor that stands above every id. */
  const WARM_CURSOR_START := 0x7FFF_FFFF_FFFF_FFFF

  /** The thumbnailed series, newest id first, all of them below the start. */
  ghost predicate Series(series: seq<int>) {
    && (forall i, j | 0 <= i < j < |series| :: series[i] > series[j])
    && (forall i | 0 <= i < |series| :: series[i] < WARM_CURSOR_START)
  }

  /** The ids below the cursor with no blob yet. */
  function Uncached(series: seq<int>, cached: set<int>, before: int): seq<int> {
    if series == [] then []
    else if series[0] < before && series[0] !in cached then [series[0]] + Uncached(series[1..], cached, before)
    else Uncached(series[1..], cached, before)
  }

  function Candidates(series: seq<int>, cached: set<int>, limit: int, before: int): seq<int> {
    var all := Uncached(series, cached, before);
    var n := if limit < 0 then 0 else limit;
    if n < |all| then all[..n] else all
  }

  /** The ids one tick takes up: those below the cursor, or from the top again when there are none. */
  function Batch(series: seq<int>, cached: set<int>, limit: int, cursor: int): seq<int> {
    var ids := Candidates(series, cached, limit, cursor);
    if ids == [] && cursor != WARM_CURSOR_START then Candidates(series, cached, limit, WARM_CURSOR_START) else ids
  }

  /** Where the next tick starts: below this one's lowest id, or at the top after a short batch. */
  function NextCursor(ids: seq<int>, limit: int): int {
    if ids != [] && |ids| >= limit then ids[|ids| - 1] else WARM_CURSOR_START
  }

  /** What becomes of an id: its cover is stored, something fails, or a shutdown is seen before it is begun. */
  datatype Fate = Saved | Failed | Dropped

  /** How many of these ids come to that. */
  function Tally(ids: seq<int>, fate: int -> Fate, f: Fate): nat {
    if ids == [] then 0 else Tally(ids[..|ids| - 1], fate, f) + if fate(ids[|ids| - 1]) == f then 1 else 0
  }

  /** A shutdown's ids are the only ones that appear in no count. */
  lemma {:induction false} TalliesAddUp(ids: seq<int>, fate: int -> Fate)
    ensures Tally(ids, fate, Saved) + Tally(ids, fate, Failed) == |ids| - Tally(ids, fate, Dropped)
    ensures Tally(ids, fate, Saved) + Tally(ids, fate, Failed) == |ids| <==> forall id | id in ids :: fate(id) != Dropped
  {
    if ids != [] {
      var n := |ids| - 1;
      TalliesAddUp(ids[..n], fate);
      var (front, last) := (ids[..n], ids[n]);
      assert ids == front + [last];
      assert (forall id | id in ids :: fate(id) != Dropped)
        <==> (forall id | id in front :: fate(id) != Dropped) && fate(last) != Dropped;
    }
  }

  // ---- the warmer ------------------------------------------------------------------------

  class Warmer {
    var cursor: int
    var cached: set<int>

    constructor ()
      ensures cursor == WARM_CURSOR_START && cached == {}
    {
      cursor, cached := WARM_CURSOR_START, {};
    }

    /** One tick: move the cursor first, then try each id; `loads` says which candidate queries answer, `fate` what each id comes to. */
    method WarmSuwayomiCovers(series: seq<int>, limit: int, loads: seq<bool>, fate: int -> Fate) returns (saved: nat, failed: nat)
      requires |loads| == 2
      modifies this
      ensures var ids := Batch(series, old(cached), limit, old(cursor));
              var reload := Candidates(series, old(cached), limit, old(cursor)) == [] && old(cursor) != WARM_CURSOR_START;
              if loads[0] && (reload ==> loads[1])
              then cursor == NextCursor(ids, limit)
                   && cached == old(cached) + (set id | id in ids && fate(id) == Saved)
                   && saved == Tally(ids, fate, Saved) && failed == Tally(ids, fate, Failed)
              else cursor == old(cursor) && cached == old(cached) && saved == failed == 0
    {
      saved, failed := 0, 0;
      var start := cursor;
      if !loads[0] { return; }
      var ids := Candidates(series, cached, limit, start);
      if ids == [] && start != WARM_CURSOR_START {
        if !loads[1] { return; }
        ids := Candidates(series, cached, limit, WARM_CURSOR_START);
      }
      cursor := NextCursor(ids, limit);
      saved, failed := TryEach(ids, fate);
    }

    /** Try each id; those whose cover is stored are cached from then on. */
    method TryEach(ids: seq<int>, fate: int -> Fate) returns (saved: nat, failed: nat)
      modifies this`cached
      ensures cached == old(cached) + set id | id in ids && fate(id) == Saved
      ensures saved == Tally(ids, fate, Saved) && failed == Tally(ids, fate, Failed)
    {
      saved, failed := 0, 0;
      for i := 0 to |ids|
        invariant cached == old(cached) + set id | id in ids[..i] && fate(id) == Saved
        invariant saved == Tally(ids[..i], fate, Saved) && failed == Tally(ids[..i], fate, Failed)
      {
        assert ids[..i + 1] == ids[..i] + [ids[i]] && ids[..i + 1][..i] == ids[..i];
        match fate(ids[i])
        case Saved => cached, saved := cached + {ids[i]}, saved + 1;
        case Failed => failed := failed + 1;
        case Dropped =>
      }
      assert ids[..|ids|] == ids;
    }
  }

  // ---- fairness ----------------------------------------------------------------------------

  lemma {:induction false} UncachedMembers(series: seq<int>, cached: set<int>, before: int, id: int)
    ensures id in Uncached(series, cached, before) <==> id in series && id < before && id !in cached
  {
    if series != [] {
      UncachedMembers(series[1..], cached, before, id);
      assert series == [series[0]] + series[1..];
    }
  }

  /** The first so many of them, none for a limit below one. */
  lemma CandidatesAre(series: seq<int>, cached: set<int>, limit: int, before: int)
    ensures var (all, ids) := (Uncached(series, cached, before), Candidates(series, cached, limit, before));
            ids <= all && |ids| == if limit <= 0 then 0 else if limit < |all| then limit else |all|
  {
  }

  lemma {:induction false} UncachedDescends(series: seq<int>, cached: set<int>, before: int)
    requires Series(series)
    ensures Series(Uncached(series, cached, before))
  {
    if series != [] {
      var rest := Uncached(series[1..], cached, before);
      assert Series(series[1..]);
      UncachedDescends(series[1..], cached, before);
      forall i | 0 <= i < |rest| ensures rest[i] < series[0] {
        UncachedMembers(series[1..], cached, before, rest[i]);
        var j :| 0 <= j < |series| - 1 && series[1..][j] == rest[i];
        assert series[0] > series[j + 1];
      }
    }
  }

  /** The ids of a list, as a set. */
  function Ids(ids: seq<int>): set<int> { set id | id in ids }

  lemma {:induction false} DescendingCount(ids: seq<int>)
    requires Series(ids)
    ensures |Ids(ids)| == |ids|
  {
    if ids != [] {
      assert Series(ids[1..]);
      DescendingCount(ids[1..]);
      assert Ids(ids) == {ids[0]} + Ids(ids[1..]) by { assert ids == [ids[0]] + ids[1..]; }
      assert ids[0] !in ids[1..];
    }
  }

  /** The series strictly between a floor and the cursor. */
  function Between(series: seq<int>, floor: int, cursor: int): set<int> {
    set id | id in series && floor < id < cursor
  }

  lemma SubsetCount(a: set<int>, b: set<int>)
    requires a <= b
    ensures |a| <= |b| && |b - a| == |b| - |a|
  {
    assert b == a + (b - a);
  }

  lemma BatchDescends(series: seq<int>, cached: set<int>, limit: int, cursor: int)
    requires Series(series) && limit >= 1
    ensures var ids := Candidates(series, cached, limit, cursor);
            Series(ids) && |ids| <= limit && forall id | id in ids :: id in series && id < cursor
  {
    UncachedDescends(series, cached, cursor);
    var ids := Candidates(series, cached, limit, cursor);
    forall id | id in ids ensures id in series && id < cursor { UncachedMembers(series, cached, cursor, id); }
  }

  /** What a full batch above the floor takes is gone from between the floor and the next cursor. */
  lemma FullBatchDescends(series: seq<int>, ids: seq<int>, limit: int, cursor: int, floor: int)
    requires Series(ids) && |ids| == limit >= 1
    requires forall id | id in ids :: id in series && floor < id < cursor
    ensures var next := NextCursor(ids, limit);
            && floor < next < cursor
            && |Between(series, floor, next)| + limit <= |Between(series, floor, cursor)|
  {
    var next := ids[|ids| - 1];
    DescendingCount(ids);
    assert next in ids;
    forall id | id in ids ensures id >= next {
      var i :| 0 <= i < |ids| && ids[i] == id;
    }
    SubsetCount(Ids(ids), Between(series, floor, cursor));
    SubsetCount(Between(series, floor, next), Between(series, floor, cursor) - Ids(ids));
  }

  /** With the series waiting below the cursor, a tick either takes it up or is full of ids above it. */
  lemma TakenOrFull(series: seq<int>, cached: set<int>, limit: int, cursor: int, x: int)
    requires Series(series) && limit >= 1 && x in series && x < cursor && x !in cached
    ensures var ids := Candidates(series, cached, limit, cursor);
            ids != [] && (x in ids || (|ids| == limit && forall id | id in ids :: id > x))
  {
    var all, ids := Uncached(series, cached, cursor), Candidates(series, cached, limit, cursor);
    UncachedDescends(series, cached, cursor);
    UncachedMembers(series, cached, cursor, x);
    var k :| 0 <= k < |all| && all[k] == x;
    if k < |ids| {
      assert ids[k] == x;
    } else {
      forall id | id in ids ensures id > x {
        var i :| 0 <= i < |ids| && ids[i] == id;
        assert all[i] > all[k];
      }
    }
  }

  /** The cursor after some ticks, `caches` saying what is cached when each begins. */
  function CursorAfter(series: seq<int>, caches: seq<set<int>>, limit: int, cursor: int): int {
    if caches == [] then cursor
    else CursorAfter(series, caches[1..], limit, NextCursor(Batch(series, caches[0], limit, cursor), limit))
  }

  /** One of the ticks takes the series up. */
  predicate Attempted(series: seq<int>, caches: seq<set<int>>, limit: int, cursor: int, x: int) {
    exists i | 0 <= i < |caches| :: x in Batch(series, caches[i], limit, CursorAfter(series, caches[..i], limit, cursor))
  }

  predicate Stays(caches: seq<set<int>>, x: int) { forall i | 0 <= i < |caches| :: x !in caches[i] }

  /** How many ids so many full batches take. */
  function Room(ticks: nat, limit: nat): nat { if ticks == 0 then 0 else Room(ticks - 1, limit) + limit }

  lemma {:induction false} MoreRoom(a: nat, b: nat, limit: nat)
    requires a <= b
    ensures Room(a, limit) <= Room(b, limit)
  {
    if a < b { MoreRoom(a, b - 1, limit); }
  }

  lemma Now(series: seq<int>, caches: seq<set<int>>, limit: int, cursor: int, x: int)
    requires caches != [] && x in Batch(series, caches[0], limit, cursor)
    ensures Attempted(series, caches, limit, cursor, x)
  {
    assert caches[..0] == [];
    assert CursorAfter(series, caches[..0], limit, cursor) == cursor;
  }

  lemma Later(series: seq<int>, caches: seq<set<int>>, limit: int, cursor: int, x: int)
    requires caches != []
    requires Attempted(series, caches[1..], limit, NextCursor(Batch(series, caches[0], limit, cursor), limit), x)
    ensures Attempted(series, caches, limit, cursor, x)
  {
    var rest, next := caches[1..], NextCursor(Batch(series, caches[0], limit, cursor), limit);
    var i :| 0 <= i < |rest| && x in Batch(series, rest[i], limit, CursorAfter(series, rest[..i], limit, next));
    assert caches[..i + 1][1..] == rest[..i] && caches[..i + 1][0] == caches[0] && caches[i + 1] == rest[i];
    assert CursorAfter(series, caches[..i + 1], limit, cursor) == CursorAfter(series, rest[..i], limit, next);
  }

  /** Below the cursor, the series is taken up within one descent. */
  lemma {:induction false} ReachedBelow(series: seq<int>, caches: seq<set<int>>, limit: nat, cursor: int, x: int)
    requires Series(series) && limit >= 1 && x in series && x < cursor && Stays(caches, x)
    requires |Between(series, x, cursor)| < Room(|caches|, limit)
    ensures Attempted(series, caches, limit, cursor, x)
    decreases |caches|
  {
    var ids := Candidates(series, caches[0], limit, cursor);
    TakenOrFull(series, caches[0], limit, cursor, x);
    if x in ids {
      Now(series, caches, limit, cursor, x);
    } else {
      BatchDescends(series, caches[0], limit, cursor);
      FullBatchDescends(series, ids, limit, cursor, x);
      ReachedBelow(series, caches[1..], limit, NextCursor(ids, limit), x);
      Later(series, caches, limit, cursor, x);
    }
  }

  /** Above the cursor, `down` ticks wrap around at the latest and `again` ticks more take the series up. */
  lemma {:induction false} ReachedAbove(series: seq<int>, caches: seq<set<int>>, limit: nat, cursor: int, x: int,
                                        floor: int, down: nat, again: nat)
    requires Series(series) && limit >= 1 && x in series && cursor <= x && Stays(caches, x)
    requires forall id | id in series :: floor < id
    requires |caches| >= down + again
    requires |Between(series, floor, cursor)| < Room(down, limit)
    requires |Between(series, x, WARM_CURSOR_START)| < Room(again, limit)
    ensures Attempted(series, caches, limit, cursor, x)
    decreases |caches|
  {
    BelowStart(series, x);
    var below := Candidates(series, caches[0], limit, cursor);
    MoreRoom(again, |caches| - 1, limit);
    if below == [] {
      WrapsNow(series, caches, limit, cursor, x);
    } else {
      assert Batch(series, caches[0], limit, cursor) == below;
      BatchDescends(series, caches[0], limit, cursor);
      if |below| >= limit {
        FullBatchDescends(series, below, limit, cursor, floor);
        ReachedAbove(series, caches[1..], limit, NextCursor(below, limit), x, floor, down - 1, again);
      } else {
        ReachedBelow(series, caches[1..], limit, WARM_CURSOR_START, x);
      }
      Later(series, caches, limit, cursor, x);
    }
  }

  lemma BelowStart(series: seq<int>, x: int)
    requires Series(series) && x in series
    ensures x < WARM_CURSOR_START
  {
  }

  /** A tick that finds nothing below its cursor does what a tick from the top does. */
  lemma WrapsNow(series: seq<int>, caches: seq<set<int>>, limit: nat, cursor: int, x: int)
    requires Series(series) && limit >= 1 && x in series && cursor <= x && Stays(caches, x) && caches != []
    requires Candidates(series, caches[0], limit, cursor) == []
    requires |Between(series, x, WARM_CURSOR_START)| < Room(|caches| - 1, limit)
    ensures Attempted(series, caches, limit, cursor, x)
  {
    BelowStart(series, x);
    var ids := Candidates(series, caches[0], limit, WARM_CURSOR_START);
    assert Batch(series, caches[0], limit, cursor) == ids;
    TakenOrFull(series, caches[0], limit, WARM_CURSOR_START, x);
    if x in ids {
      Now(series, caches, limit, cursor, x);
    } else {
      BatchDescends(series, caches[0], limit, WARM_CURSOR_START);
      FullBatchDescends(series, ids, limit, WARM_CURSOR_START, x);
      ReachedBelow(series, caches[1..], limit, NextCursor(ids, limit), x);
      Later(series, caches, limit, cursor, x);
    }
  }

  function CeilDiv(n: nat, limit: nat): nat
    requires limit >= 1
  {
    (n + limit - 1) / limit
  }

  lemma {:induction false} RoomIsProduct(ticks: nat, limit: nat)
    ensures Room(ticks, limit) == ticks * limit
  {
    if ticks > 0 {
      RoomIsProduct(ticks - 1, limit);
      assert ticks * limit == (ticks - 1) * limit + limit;
    }
  }

  lemma RoomForAll(n: nat, limit: nat)
    requires limit >= 1
    ensures n <= Room(CeilDiv(n, limit), limit)
  {
    var q, m := CeilDiv(n, limit), n + limit - 1;
    RoomIsProduct(q, limit);
    assert m == q * limit + m % limit;
  }

  /** Leaving one series out, the others between two bounds are fewer than all. */
  lemma OneLess(series: seq<int>, x: int, floor: int, cursor: int)
    requires Series(series) && x in series && (x <= floor || cursor <= x)
    ensures |Between(series, floor, cursor)| < |series|
  {
    DescendingCount(series);
    SubsetCount(Between(series, floor, cursor), Ids(series) - {x});
  }

  /**
   * Whatever succeeds, fails or is cached meanwhile, a series that stays uncached is taken up
   * within two rotations of ticks that load their candidates, wherever the cursor stands.
   */
  lemma LoadedTicksAttempt(series: seq<int>, caches: seq<set<int>>, limit: nat, cursor: int, x: int)
    requires Series(series) && limit >= 1 && x in series && Stays(caches, x)
    requires |caches| >= 2 * CeilDiv(|series|, limit)
    ensures Attempted(series, caches, limit, cursor, x)
  {
    var k, floor := CeilDiv(|series|, limit), series[|series| - 1] - 1;
    RoomForAll(|series|, limit);
    if x < cursor {
      OneLess(series, x, x, cursor);
      MoreRoom(k, |caches|, limit);
      ReachedBelow(series, caches, limit, cursor, x);
    } else {
      OneLess(series, x, floor, cursor);
      OneLess(series, x, x, WARM_CURSOR_START);
      LowestIsLast(series);
      ReachedAbove(series, caches, limit, cursor, x, floor, k, k);
    }
  }

  // ---- ticks that cannot load ----------------------------------------------------------------

  /** A tick finds these ids cached, or cannot load its candidates and leaves everything as it was. */
  type Tick = Option<set<int>>

  function Loaded(ticks: seq<Tick>): seq<set<int>> {
    if ticks == [] then [] else (if ticks[0].Some? then [ticks[0].value] else []) + Loaded(ticks[1..])
  }

  function CursorOver(series: seq<int>, ticks: seq<Tick>, limit: int, cursor: int): int {
    if ticks == [] then cursor
    else CursorOver(series, ticks[1..], limit,
                    if ticks[0].Some? then NextCursor(Batch(series, ticks[0].value, limit, cursor), limit) else cursor)
  }

  predicate AttemptedOver(series: seq<int>, ticks: seq<Tick>, limit: int, cursor: int, x: int) {
    exists i | 0 <= i < |ticks| ::
      ticks[i].Some? && x in Batch(series, ticks[i].value, limit, CursorOver(series, ticks[..i], limit, cursor))
  }

  lemma LaterOver(series: seq<int>, ticks: seq<Tick>, limit: int, cursor: int, x: int)
    requires ticks != []
    requires AttemptedOver(series, ticks[1..], limit,
                           if ticks[0].Some? then NextCursor(Batch(series, ticks[0].value, limit, cursor), limit) else cursor, x)
    ensures AttemptedOver(series, ticks, limit, cursor, x)
  {
    var rest := ticks[1..];
    var next := if ticks[0].Some? then NextCursor(Batch(series, ticks[0].value, limit, cursor), limit) else cursor;
    var i :| 0 <= i < |rest| && rest[i].Some?
             && x in Batch(series, rest[i].value, limit, CursorOver(series, rest[..i], limit, next));
    assert ticks[..i + 1][1..] == rest[..i] && ticks[i + 1] == rest[i];
    assert CursorOver(series, ticks[..i + 1], limit, cursor) == CursorOver(series, rest[..i], limit, next);
  }

  /** What the first of some loaded ticks does not take up, the others do. */
  lemma NowOrLater(series: seq<int>, caches: seq<set<int>>, limit: int, cursor: int, x: int)
    requires caches != [] && Attempted(series, caches, limit, cursor, x)
    ensures var ids := Batch(series, caches[0], limit, cursor);
            x in ids || Attempted(series, caches[1..], limit, NextCursor(ids, limit), x)
  {
    var i :| 0 <= i < |caches| && x in Batch(series, caches[i], limit, CursorAfter(series, caches[..i], limit, cursor));
    if i > 0 {
      assert caches[1..][i - 1] == caches[i] && caches[..i][1..] == caches[1..][..i - 1] && caches[..i][0] == caches[0];
    }
  }

  /** Ticks that cannot load change nothing about the others. */
  lemma {:induction false} FailedLoadsOnlyWait(series: seq<int>, ticks: seq<Tick>, limit: int, cursor: int, x: int)
    requires Attempted(series, Loaded(ticks), limit, cursor, x)
    ensures AttemptedOver(series, ticks, limit, cursor, x)
  {
    if ticks[0].None? {
      FailedLoadsOnlyWait(series, ticks[1..], limit, cursor, x);
      LaterOver(series, ticks, limit, cursor, x);
    } else {
      var ids := Batch(series, ticks[0].value, limit, cursor);
      assert Loaded(ticks)[1..] == Loaded(ticks[1..]);
      NowOrLater(series, Loaded(ticks), limit, cursor, x);
      if x in ids {
        assert ticks[..0] == [] && CursorOver(series, ticks[..0], limit, cursor) == cursor;
      } else {
        FailedLoadsOnlyWait(series, ticks[1..], limit, NextCursor(ids, limit), x);
        LaterOver(series, ticks, limit, cursor, x);
      }
    }
  }

  lemma {:induction false} LoadedStays(ticks: seq<Tick>, x: int)
    requires forall i | 0 <= i < |ticks| :: ticks[i].Some? ==> x !in ticks[i].value
    ensures Stays(Loaded(ticks), x)
  {
    if ticks != [] { LoadedStays(ticks[1..], x); }
  }

  /**
   * Whatever succeeds, fails or is cached meanwhile, and whichever ticks cannot load their candidates,
   * a series that stays uncached is taken up once enough ticks for two rotations have loaded.
   */
  lemma EverySeriesIsAttempted(series: seq<int>, ticks: seq<Tick>, limit: nat, cursor: int, x: int)
    requires Series(series) && limit >= 1 && x in series
    requires forall i | 0 <= i < |ticks| :: ticks[i].Some? ==> x !in ticks[i].value
    requires |Loaded(ticks)| >= 2 * CeilDiv(|series|, limit)
    ensures AttemptedOver(series, ticks, limit, cursor, x)
  {
    LoadedStays(ticks, x);
    LoadedTicksAttempt(series, Loaded(ticks), limit, cursor, x);
    FailedLoadsOnlyWait(series, ticks, limit, cursor, x);
  }

  lemma LowestIsLast(series: seq<int>)
    requires Series(series) && series != []
    ensures forall id | id in series :: series[|series| - 1] - 1 < id
  {
    forall id | id in series ensures series[|series| - 1] <= id {
      var i :| 0 <= i < |series| && series[i] == id;
      assert i < |series| - 1 ==> series[i] > series[|series| - 1];
    }
  }
}
