/** LATEST-diff discovery: which series of a source's newest-first listing moved, and the poll that
    wakes them before it stores the new order. */
module Discovery {
  import opened Wrappers

  const SNAPSHOT_WINDOW: nat := 40

  /** The rank a snapshot gives an id; when an id is listed twice the later place counts. */
  function RankIn(s: seq<int>, id: int): (r: Option<nat>)
    ensures r.Some? <==> id in s
    ensures r.Some? ==> r.value < |s| && s[r.value] == id
  {
    if s == [] then None
    else if s[|s| - 1] == id then Some(|s| - 1)
    else RankIn(s[..|s| - 1], id)
  }

  /** Whether the entry at `rank` of the new listing entered within the old depth or moved up. */
  predicate Flags(prev: seq<int>, id: int, rank: nat) {
    match RankIn(prev, id)
    case None => rank < |prev|
    case Some(was) => rank < was
  }

  function MovedUpOrEntered(prev: seq<int>, curr: seq<int>): seq<int> {
    if curr == [] then []
    else
      var n := |curr| - 1;
      MovedUpOrEntered(prev, curr[..n]) + if Flags(prev, curr[n], n) then [curr[n]] else []
  }

  lemma {:induction false} FlaggedStands(prev: seq<int>, curr: seq<int>, id: int) returns (rank: nat)
    requires id in MovedUpOrEntered(prev, curr)
    ensures rank < |curr| && curr[rank] == id && Flags(prev, id, rank)
  {
    var n := |curr| - 1;
    if id in MovedUpOrEntered(prev, curr[..n]) {
      rank := FlaggedStands(prev, curr[..n], id);
    } else {
      rank := n;
    }
  }

  lemma {:induction false} StandingFlagged(prev: seq<int>, curr: seq<int>, rank: nat)
    requires rank < |curr| && Flags(prev, curr[rank], rank)
    ensures curr[rank] in MovedUpOrEntered(prev, curr)
  {
    var n := |curr| - 1;
    if rank < n { StandingFlagged(prev, curr[..n], rank); }
  }

  /** The diff lists exactly the ids that stand at a rank it flags. */
  lemma FlaggedIffFlags(prev: seq<int>, curr: seq<int>, id: int)
    ensures id in MovedUpOrEntered(prev, curr)
       <==> exists rank :: 0 <= rank < |curr| && curr[rank] == id && Flags(prev, id, rank)
  {
    if id in MovedUpOrEntered(prev, curr) {
      var rank := FlaggedStands(prev, curr, id);
    }
    if rank :| 0 <= rank < |curr| && curr[rank] == id && Flags(prev, id, rank) {
      StandingFlagged(prev, curr, rank);
    }
  }

  ghost predicate Distinct(s: seq<int>) {
    forall i, j | 0 <= i < j < |s| :: s[i] != s[j]
  }

  /** The listing without the moved series, in its own order. */
  function Without(list: seq<int>, moved: seq<int>): seq<int> {
    if list == [] then []
    else
      var n := |list| - 1;
      Without(list[..n], moved) + if list[n] in moved then [] else [list[n]]
  }

  /** The listing after the moved series, old or new, went to the front in some order. */
  function Moved(list: seq<int>, moved: seq<int>): seq<int> {
    moved + Without(list, moved)
  }

  /** How many moved series stand in a stretch of the old listing. */
  function MovedAmong(list: seq<int>, moved: seq<int>): nat {
    if list == [] then 0
    else MovedAmong(list[..|list| - 1], moved) + if list[|list| - 1] in moved then 1 else 0
  }

  lemma {:induction false} MovedAmongBound(list: seq<int>, moved: seq<int>)
    requires Distinct(list)
    ensures MovedAmong(list, moved) <= |moved|
  {
    if list != [] {
      var n := |list| - 1;
      if list[n] in moved {
        var k :| 0 <= k < |moved| && moved[k] == list[n];
        var rest := moved[..k] + moved[k + 1..];
        MovedAmongBound(list[..n], rest);
        SameAmong(list[..n], moved, k);
      } else {
        MovedAmongBound(list[..n], moved);
      }
    }
  }

  /** A moved series that is not in the list does not count in it. */
  lemma {:induction false} SameAmong(list: seq<int>, moved: seq<int>, k: nat)
    requires k < |moved| && moved[k] !in list
    ensures MovedAmong(list, moved) == MovedAmong(list, moved[..k] + moved[k + 1..])
  {
    if list != [] {
      var n := |list| - 1;
      var x := list[n];
      var rest := moved[..k] + moved[k + 1..];
      SameAmong(list[..n], moved, k);
      assert moved == moved[..k] + [moved[k]] + moved[k + 1..];
      assert x != moved[k];
      assert x in moved <==> x in rest;
    }
  }

  /** Counting: an unmoved series has every unmoved series before it still before it. */
  lemma {:induction false} WithoutRank(list: seq<int>, moved: seq<int>, was: nat)
    requires was < |list| && list[was] !in moved
    ensures var r := was - MovedAmong(list[..was], moved);
            0 <= r < |Without(list, moved)| && Without(list, moved)[r] == list[was]
  {
    var n := |list| - 1;
    WithoutLength(list, moved);
    WithoutLength(list[..n], moved);
    if was == n {
      assert list[..was] == list[..n];
    } else {
      WithoutRank(list[..n], moved, was);
      assert list[..n][..was] == list[..was];
    }
  }

  lemma {:induction false} WithoutLength(list: seq<int>, moved: seq<int>)
    ensures |Without(list, moved)| + MovedAmong(list, moved) == |list|
    ensures forall x :: x in Without(list, moved) <==> x in list && x !in moved
  {
    if list != [] {
      var n := |list| - 1;
      WithoutLength(list[..n], moved);
      assert list == list[..n] + [list[n]];
    }
  }

  lemma {:induction false} WithoutDistinct(list: seq<int>, moved: seq<int>)
    requires Distinct(list)
    ensures Distinct(Without(list, moved))
  {
    if list != [] {
      var n := |list| - 1;
      WithoutDistinct(list[..n], moved);
      WithoutLength(list[..n], moved);
    }
  }

  lemma MovedDistinct(list: seq<int>, moved: seq<int>)
    requires Distinct(list) && Distinct(moved)
    ensures Distinct(Moved(list, moved))
  {
    WithoutDistinct(list, moved);
    WithoutLength(list, moved);
    var (m, w) := (moved, Without(list, moved));
    forall i, j | 0 <= i < j < |m + w|
      ensures (m + w)[i] != (m + w)[j]
    {
      if i < |m| <= j {
        assert (m + w)[j] in w;
      }
    }
  }

  lemma RankOfDistinct(s: seq<int>, i: nat)
    requires Distinct(s) && i < |s|
    ensures RankIn(s, s[i]) == Some(i)
  {
  }

  /** An unmoved series never ranks better than it did. */
  lemma UnmovedSinks(list: seq<int>, moved: seq<int>, rank: nat)
    requires Distinct(list) && Distinct(moved) && rank < |Moved(list, moved)| && Moved(list, moved)[rank] !in moved
    ensures exists was :: 0 <= was <= rank && was < |list| && list[was] == Moved(list, moved)[rank]
  {
    var next := Moved(list, moved);
    var id := next[rank];
    assert id in Without(list, moved);
    WithoutLength(list, moved);
    var was :| 0 <= was < |list| && list[was] == id;
    WithoutRank(list, moved, was);
    MovedAmongBound(list[..was], moved);
    MovedDistinct(list, moved);
    var r := was - MovedAmong(list[..was], moved);
    assert next[|moved| + r] == id;
    assert |moved| + r == rank;
  }

  /** So at no two page depths is it flagged. */
  lemma UnmovedNotFlagged(list: seq<int>, moved: seq<int>, p: nat, rank: nat)
    requires Distinct(list) && Distinct(moved) && p <= |list|
    requires rank < |Moved(list, moved)| && Moved(list, moved)[rank] !in moved
    ensures !Flags(list[..p], Moved(list, moved)[rank], rank)
  {
    UnmovedSinks(list, moved, rank);
    var was: nat :| was <= rank && was < |list| && list[was] == Moved(list, moved)[rank];
    if was < p {
      RankOfDistinct(list[..p], was);
    }
  }

  /** The entry ranks better than the snapshot saw it, or entered within the snapshot's depth. */
  ghost predicate Improved(prev: seq<int>, curr: seq<int>, id: int) {
    exists rank ::
      && 0 <= rank < |curr| && curr[rank] == id
      && (if id in prev then exists was :: rank < was < |prev| && prev[was] == id else rank < |prev|)
  }

  /** Whatever the two page depths, the diff flags exactly the moved series that improved. */
  lemma DiffFlagsMovers(list: seq<int>, moved: seq<int>, p: nat, c: nat, id: int)
    requires Distinct(list) && Distinct(moved) && p <= |list| && c <= |Moved(list, moved)|
    ensures id in MovedUpOrEntered(list[..p], Moved(list, moved)[..c])
       <==> id in moved && Improved(list[..p], Moved(list, moved)[..c], id)
  {
    var (prev, curr) := (list[..p], Moved(list, moved)[..c]);
    FlaggedIffFlags(prev, curr, id);
    forall rank: nat | rank < |curr| && curr[rank] == id
      ensures id !in moved ==> !Flags(prev, id, rank)
      ensures Flags(prev, id, rank)
         <==> if id in prev then exists was :: rank < was < |prev| && prev[was] == id else rank < |prev|
    {
      if id !in moved { UnmovedNotFlagged(list, moved, p, rank); }
      if was: nat :| was < |prev| && prev[was] == id { RankOfDistinct(prev, was); }
    }
  }

  // ---- the poll --------------------------------------------------------------------------

  /** What a poll meets: the page, whether the snapshot read and write succeed, which wake-up
      updates succeed, and after how many wake-ups, if any, the poll is dropped. */
  datatype Poll = Poll(page: Option<seq<int>>, readOk: bool, wakes: int -> bool, droppedAfter: Option<nat>, stored: bool)

  /** The source's stored order, and two histories: wake-ups attempted and wake-ups that took. */
  datatype Source = Source(snapshot: Option<seq<int>>, attempted: set<int>, woken: set<int>)

  function Window(page: seq<int>): seq<int> {
    if |page| <= SNAPSHOT_WINDOW then page else page[..SNAPSHOT_WINDOW]
  }

  function Attempt(s: Source, ids: seq<int>, wakes: int -> bool): Source {
    if ids == [] then s
    else
      var n := |ids| - 1;
      var before := Attempt(s, ids[..n], wakes);
      Source(before.snapshot, before.attempted + {ids[n]},
             if wakes(ids[n]) then before.woken + {ids[n]} else before.woken)
  }

  /** How many of these wake-ups take. */
  function Taken(ids: seq<int>, wakes: int -> bool): nat {
    if ids == [] then 0 else Taken(ids[..|ids| - 1], wakes) + if wakes(ids[|ids| - 1]) then 1 else 0
  }

  function TakenAt(ids: seq<int>, wakes: int -> bool): set<nat> { set i: nat | i < |ids| && wakes(ids[i]) }

  /** Each attempt whose update takes counts once. */
  lemma {:induction false} TakenIs(ids: seq<int>, wakes: int -> bool)
    ensures Taken(ids, wakes) == |TakenAt(ids, wakes)|
  {
    if ids == [] {
      assert TakenAt(ids, wakes) == {};
    } else {
      var n := |ids| - 1;
      TakenIs(ids[..n], wakes);
      assert TakenAt(ids, wakes) == TakenAt(ids[..n], wakes) + if wakes(ids[n]) then {n} else {};
    }
  }

  /** The wake-ups one poll gets to: none without something to compare, and those before it is dropped. */
  function Woken(s: Source, e: Poll): seq<int> {
    if e.page.None? || e.page.value == [] || !e.readOk || s.snapshot.None? then []
    else
      var flagged := MovedUpOrEntered(s.snapshot.value, Window(e.page.value));
      flagged[..if e.droppedAfter.Some? && e.droppedAfter.value <= |flagged| then e.droppedAfter.value else |flagged|]
  }

  /** One poll, trigger first and snapshot second, cut off wherever it is dropped. */
  function Polled(s: Source, e: Poll): Source {
    if e.page.None? || e.page.value == [] || !e.readOk then s
    else
      var curr := Window(e.page.value);
      if s.snapshot.None? then
        if e.droppedAfter.Some? || !e.stored then s else s.(snapshot := Some(curr))
      else
        var flagged := MovedUpOrEntered(s.snapshot.value, curr);
        if e.droppedAfter.Some? then
          Attempt(s, flagged[..if e.droppedAfter.value <= |flagged| then e.droppedAfter.value else |flagged|], e.wakes)
        else
          var after := Attempt(s, flagged, e.wakes);
          if e.stored then after.(snapshot := Some(curr)) else after
  }

  function Polls(s: Source, es: seq<Poll>): Source {
    if es == [] then s else Polled(Polls(s, es[..|es| - 1]), es[|es| - 1])
  }

  lemma {:induction false} AttemptReaches(s: Source, ids: seq<int>, wakes: int -> bool)
    ensures var r := Attempt(s, ids, wakes);
            && r.snapshot == s.snapshot && s.attempted <= r.attempted && s.woken <= r.woken
            && (forall id | id in ids :: id in r.attempted && (wakes(id) ==> id in r.woken))
  {
    if ids != [] {
      var n := |ids| - 1;
      AttemptReaches(s, ids[..n], wakes);
      assert ids == ids[..n] + [ids[n]];
    }
  }

  /** Whatever is dropped where, a poll that replaces a snapshot has attempted to wake every series
      the replacement shows as moved, and has woken each one whose update succeeded. */
  lemma SnapshotAfterTriggers(s: Source, es: seq<Poll>, k: nat)
    requires k < |es|
    ensures var (before, after, e) := (Polls(s, es[..k]), Polls(s, es[..k + 1]), es[k]);
            before.snapshot.Some? && after.snapshot != before.snapshot ==>
              && after.snapshot.Some?
              && forall id | id in MovedUpOrEntered(before.snapshot.value, after.snapshot.value) ::
                   id in after.attempted && (e.wakes(id) ==> id in after.woken)
  {
    assert es[..k + 1][..k] == es[..k];
    var before := Polls(s, es[..k]);
    if before.snapshot.Some? && es[k].page.Some? {
      var flagged := MovedUpOrEntered(before.snapshot.value, Window(es[k].page.value));
      AttemptReaches(before, flagged, es[k].wakes);
      if es[k].droppedAfter.Some? {
        AttemptReaches(before, flagged[..if es[k].droppedAfter.value <= |flagged| then es[k].droppedAfter.value
                                         else |flagged|], es[k].wakes);
      }
    }
  }

  /** A poll that is dropped or whose write fails leaves the snapshot, so the next poll of the same
      page flags the same movers again. */
  lemma InterruptedPollRepeats(s: Source, e: Poll, again: Poll)
    requires e.droppedAfter.Some? || !e.stored
    requires again.page == e.page && again.readOk && again.droppedAfter.None? && forall id :: again.wakes(id)
    requires s.snapshot.Some? && e.page.Some? && e.page.value != [] && e.readOk
    ensures Polled(s, e).snapshot == s.snapshot
    ensures forall id | id in MovedUpOrEntered(s.snapshot.value, Window(e.page.value)) ::
              id in Polled(Polled(s, e), again).woken
  {
    var flagged := MovedUpOrEntered(s.snapshot.value, Window(e.page.value));
    if e.droppedAfter.Some? {
      AttemptReaches(s, flagged[..if e.droppedAfter.value <= |flagged| then e.droppedAfter.value else |flagged|],
                     e.wakes);
    } else {
      AttemptReaches(s, flagged, e.wakes);
    }
    AttemptReaches(Polled(s, e), flagged, again.wakes);
  }

  lemma {:induction false} AttemptIs(s: Source, ids: seq<int>, wakes: int -> bool)
    ensures Attempt(s, ids, wakes)
         == Source(s.snapshot, s.attempted + (set id | id in ids), s.woken + (set id | id in ids && wakes(id)))
  {
    if ids != [] {
      var n := |ids| - 1;
      AttemptIs(s, ids[..n], wakes);
      assert ids == ids[..n] + [ids[n]];
      assert (set id | id in ids) == (set id | id in ids[..n]) + {ids[n]};
      assert (set id | id in ids && wakes(id)) == (set id | id in ids[..n] && wakes(id)) + (if wakes(ids[n]) then {ids[n]} else {});
    }
  }

  /**
   * All that a poll does: it attempts flagged ids only, in the order of the page until it is dropped, wakes those whose
   * update takes, and replaces the snapshot by the first forty of the page exactly when it read both, was not
   * dropped and the write lands. A first poll has nothing to compare and attempts nobody.
   */
  lemma PollIs(s: Source, e: Poll)
    ensures var r := Polled(s, e);
            var ids := Woken(s, e);
            && r.attempted == s.attempted + (set id | id in ids)
            && r.woken == s.woken + (set id | id in ids && e.wakes(id))
            && (s.snapshot.None? ==> ids == [])
            && (s.snapshot.Some? && e.page.Some? ==>
                  ids <= MovedUpOrEntered(s.snapshot.value, if |e.page.value| <= 40 then e.page.value else e.page.value[..40]))
            && (e.droppedAfter.Some? ==> |ids| <= e.droppedAfter.value)
            && r.snapshot == if e.page.Some? && e.page.value != [] && e.readOk && e.droppedAfter.None? && e.stored
                             then Some(if |e.page.value| <= 40 then e.page.value else e.page.value[..40]) else s.snapshot
  {
    AttemptIs(s, Woken(s, e), e.wakes);
    if e.page.Some? && e.page.value != [] && e.readOk && s.snapshot.Some? {
      var flagged := MovedUpOrEntered(s.snapshot.value, Window(e.page.value));
      assert flagged[..|flagged|] == flagged;
    }
  }

  /** A poll that reads, is not dropped and stores what it read. */
  predicate Completes(e: Poll) {
    e.page.Some? && e.page.value != [] && e.readOk && e.droppedAfter.None? && e.stored
  }

  /** Comparing an order with itself flags nothing exactly when no id is listed twice. */
  lemma StandingOrderFlagsNothing(s: seq<int>)
    ensures MovedUpOrEntered(s, s) == [] <==> Distinct(s)
  {
    if Distinct(s) {
      NothingMovedNothingFlagged(s);
    } else {
      var i, j :| 0 <= i < j < |s| && s[i] == s[j];
      LaterRankCounts(s, j);
      StandingFlagged(s, s, i);
    }
  }

  lemma {:induction false} LaterRankCounts(s: seq<int>, j: nat)
    requires j < |s|
    ensures RankIn(s, s[j]).Some? && RankIn(s, s[j]).value >= j
  {
    if s[|s| - 1] != s[j] { LaterRankCounts(s[..|s| - 1], j); }
  }

  /** A poll that completes wakes a flagged series exactly when its update takes, unless it was awake before. */
  lemma WokenIffUpdateTakes(s: Source, e: Poll, id: int)
    requires Completes(e) && s.snapshot.Some? && id !in s.woken
    requires id in MovedUpOrEntered(s.snapshot.value, Window(e.page.value))
    ensures id in Polled(s, e).woken <==> e.wakes(id)
  {
    AttemptReaches(s, MovedUpOrEntered(s.snapshot.value, Window(e.page.value)), e.wakes);
    if !e.wakes(id) { AttemptWakesOnlyTaken(s, MovedUpOrEntered(s.snapshot.value, Window(e.page.value)), e.wakes, id); }
  }

  lemma {:induction false} AttemptWakesOnlyTaken(s: Source, ids: seq<int>, wakes: int -> bool, id: int)
    requires id !in s.woken && !wakes(id)
    ensures id !in Attempt(s, ids, wakes).woken
  {
    if ids != [] { AttemptWakesOnlyTaken(s, ids[..|ids| - 1], wakes, id); }
  }

  /** Polls that see the order already stored, or see nothing, wake nobody, however they end. */
  lemma {:induction false} StandingOrderWakesNobody(s: Source, es: seq<Poll>)
    requires s.snapshot.Some? && Distinct(s.snapshot.value)
    requires forall e | e in es :: e.page.Some? ==> Window(e.page.value) == s.snapshot.value
    ensures Polls(s, es) == s
  {
    if es != [] {
      var e := es[|es| - 1];
      assert e in es;
      StandingOrderWakesNobody(s, es[..|es| - 1]);
      NothingMovedNothingFlagged(s.snapshot.value);
      var none: seq<int> := [];
      assert none[..0] == none;
    }
  }

  /**
   * The update that wakes a series may fail without failing the poll. Then the new order is stored
   * all the same, and over any run of polls that see that order the series is awake exactly when
   * that one update took.
   */
  lemma FailedWakeIsForgotten(s: Source, e: Poll, es: seq<Poll>, id: int)
    requires Completes(e) && s.snapshot.Some? && id !in s.woken && Distinct(Window(e.page.value))
    requires id in MovedUpOrEntered(s.snapshot.value, Window(e.page.value))
    requires forall later | later in es :: later.page.Some? ==> Window(later.page.value) == Window(e.page.value)
    ensures id in Polls(Polled(s, e), es).woken <==> e.wakes(id)
    ensures Polls(Polled(s, e), es).snapshot == Some(Window(e.page.value))
  {
    WokenIffUpdateTakes(s, e, id);
    StandingOrderWakesNobody(Polled(s, e), es);
  }

  /** A listing of two whose second moves up while its update fails: it is flagged once and never again. */
  lemma SecondOfTwoIsForgotten(e: Poll, es: seq<Poll>)
    requires Completes(e) && e.page == Some([2, 1]) && !e.wakes(2)
    requires forall later | later in es :: later.page == Some([2, 1])
    ensures 2 !in Polls(Polled(Source(Some([1, 2]), {}, {}), e), es).woken
  {
    SwapFlagsSecond();
    FailedWakeIsForgotten(Source(Some([1, 2]), {}, {}), e, es, 2);
  }

  lemma SwapFlagsSecond()
    ensures MovedUpOrEntered([1, 2], [2, 1]) == [2]
  {
    RankOfDistinct([1, 2], 0);
    RankOfDistinct([1, 2], 1);
    assert [2, 1][..1] == [2] && [2][..0] == [];
    assert MovedUpOrEntered([1, 2], []) == [];
    assert MovedUpOrEntered([1, 2], [2]) == [2];
  }

  lemma NothingMovedNothingFlagged(s: seq<int>)
    requires Distinct(s)
    ensures MovedUpOrEntered(s, s) == []
  {
    assert s[..|s|] == s;
    PrefixNotFlagged(s, s, |s|);
  }

  lemma {:induction false} PrefixNotFlagged(s: seq<int>, curr: seq<int>, n: nat)
    requires Distinct(s) && n <= |s| && curr == s[..n]
    ensures MovedUpOrEntered(s, curr) == []
  {
    if n != 0 {
      assert curr[..n - 1] == s[..n - 1];
      PrefixNotFlagged(s, curr[..n - 1], n - 1);
      RankOfDistinct(s, n - 1);
    }
  }

  /** The stored rows the program updates as it polls. */
  class Snapshots {
    var snapshot: Option<seq<int>>
    ghost var attempted: set<int>
    ghost var woken: set<int>

    constructor ()
      ensures State() == Source(None, {}, {})
    {
      snapshot, attempted, woken := None, {}, {};
    }

    ghost function State(): Source
      reads this
    {
      Source(snapshot, attempted, woken)
    }

    /** Wake the given series one update at a time; a failed update is skipped, not retried. */
    method TriggerDueNow(ids: seq<int>, wakes: int -> bool) returns (count: nat)
      modifies this`attempted, this`woken
      ensures State() == Attempt(old(State()), ids, wakes) && count == Taken(ids, wakes)
    {
      count := 0;
      for i := 0 to |ids|
        invariant State() == Attempt(old(State()), ids[..i], wakes) && count == Taken(ids[..i], wakes)
      {
        assert ids[..i + 1][..i] == ids[..i];
        attempted := attempted + {ids[i]};
        if wakes(ids[i]) {
          woken := woken + {ids[i]};
          count := count + 1;
        }
      }
      assert ids[..|ids|] == ids;
    }

    method PollSource(e: Poll) returns (flagged: seq<int>, triggered: nat)
      modifies this
      ensures State() == Polled(old(State()), e)
      ensures triggered == Taken(Woken(old(State()), e), e.wakes)
      ensures e.droppedAfter.None? ==> flagged == Woken(old(State()), e)
    {
      flagged, triggered := [], 0;
      if e.page.None? || e.page.value == [] || !e.readOk { return; }
      var curr := Window(e.page.value);
      if snapshot.None? {
        if e.droppedAfter.None? && e.stored { snapshot := Some(curr); }
        return;
      }
      flagged := MovedUpOrEntered(snapshot.value, curr);
      if e.droppedAfter.Some? {
        triggered := TriggerDueNow(
          flagged[..if e.droppedAfter.value <= |flagged| then e.droppedAfter.value else |flagged|], e.wakes);
        return;
      }
      assert flagged[..|flagged|] == flagged;
      triggered := TriggerDueNow(flagged, e.wakes);
      if e.stored { snapshot := Some(curr); }
    }
  }
}
