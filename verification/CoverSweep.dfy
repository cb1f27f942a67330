/** One sweep of the cover store, and what repeated sweeps come to. */
module CoverSweep {
  import opened Wrappers
  import opened Ordering

  /** A stored blob's key and the time it was last written. */
  datatype Row = Row(id: string, updatedAt: int)

  const SCAN_BATCH := 500
  const DELETE_BUDGET := 1000
  const MIN_WORKS := 10_000
  const RATIO_SAMPLE := 2_000
  const MAX_ORPHAN_PCT := 25

  /** The table is keyed by id and read in key order; ids are never empty. */
  ghost predicate Table(rows: seq<Row>) {
    && (forall i, j | 0 <= i < j < |rows| :: Less(rows[i].id, rows[j].id))
    && (forall i | 0 <= i < |rows| :: rows[i].id != "")
  }

  predicate Aged(r: Row, works: set<string>, cutoff: int) { r.id !in works && r.updatedAt < cutoff }

  function Missing(ids: seq<Row>, works: set<string>): seq<string> {
    if ids == [] then []
    else if ids[0].id in works then Missing(ids[1..], works)
    else [ids[0].id] + Missing(ids[1..], works)
  }

  /** What a delete of these ids leaves. */
  function Without(rows: seq<Row>, orphans: seq<string>, cutoff: int): seq<Row> {
    if rows == [] then []
    else if rows[0].id in orphans && rows[0].updatedAt < cutoff then Without(rows[1..], orphans, cutoff)
    else [rows[0]] + Without(rows[1..], orphans, cutoff)
  }

  /** The rows that are no aged orphans. */
  function Purged(rows: seq<Row>, works: set<string>, cutoff: int): (r: seq<Row>)
    ensures |r| <= |rows|
  {
    if rows == [] then []
    else if Aged(rows[0], works, cutoff) then Purged(rows[1..], works, cutoff)
    else [rows[0]] + Purged(rows[1..], works, cutoff)
  }

  function Backlog(rows: seq<Row>, works: set<string>, cutoff: int): nat { |rows| - |Purged(rows, works, cutoff)| }

  function Take(rows: seq<Row>, n: nat): seq<Row> { if n < |rows| then rows[..n] else rows }

  /** What is left once one batch has been dealt with; a batch without orphans deletes nothing. */
  function LeftBy(rows: seq<Row>, ids: seq<Row>, works: set<string>, cutoff: int): seq<Row> {
    if Missing(ids, works) == [] then rows else Without(rows, Missing(ids, works), cutoff)
  }

  function Behind(rows: seq<Row>, cursor: string): seq<Row> {
    if rows == [] then []
    else if Less(cursor, rows[0].id) then [rows[0]] + Behind(rows[1..], cursor)
    else Behind(rows[1..], cursor)
  }

  predicate OrphanRateSane(orphans: nat, sampled: nat) {
    sampled == 0 || orphans * 100 <= sampled * MAX_ORPHAN_PCT
  }

  /** The floor on works and the sampled orphan rate both allow the sweep to delete. */
  predicate MaySweep(rows: seq<Row>, works: set<string>) {
    |works| >= MIN_WORKS
    && OrphanRateSane(|Missing(Take(rows, RATIO_SAMPLE), works)|, |Take(rows, RATIO_SAMPLE)|)
  }

  /**
   * How many of these rows a sweep gets to look at, batch by batch, when it has deleted
   * `deleted` already; `stop` says at which batch a shutdown is seen or a query fails.
   */
  function Visited(rows: seq<Row>, deleted: nat, batch: nat, stop: nat -> bool, works: set<string>, cutoff: int): (n: nat)
    ensures n <= |rows|
    decreases |rows|
  {
    if stop(batch) || rows == [] then 0
    else
      var ids := Take(rows, SCAN_BATCH);
      var total := deleted + Backlog(ids, works, cutoff);
      if Missing(ids, works) != [] && total >= DELETE_BUDGET then |ids|
      else |ids| + Visited(rows[|ids|..], total, batch + 1, stop, works, cutoff)
  }

  /** The batch at which such a sweep is stopped, if it is. */
  function StoppedAt(rows: seq<Row>, deleted: nat, batch: nat, stop: nat -> bool, works: set<string>, cutoff: int): Option<nat>
    decreases |rows|
  {
    if stop(batch) then Some(batch)
    else if rows == [] then None
    else
      var ids := Take(rows, SCAN_BATCH);
      var total := deleted + Backlog(ids, works, cutoff);
      if Missing(ids, works) != [] && total >= DELETE_BUDGET then None
      else StoppedAt(rows[|ids|..], total, batch + 1, stop, works, cutoff)
  }

  /** What a batch comes to: it is dealt with, a shutdown is seen before it, or one of its queries fails. */
  datatype Look = Goes | ShutDown | Errs

  function Halts(look: nat -> Look): nat -> bool { (b: nat) => look(b) != Goes }

  /** A sweep ends in an error when a batch does. */
  predicate Fails(rows: seq<Row>, look: nat -> Look, works: set<string>, cutoff: int) {
    var at := StoppedAt(rows, 0, 0, Halts(look), works, cutoff);
    at.Some? && look(at.value) == Errs
  }

  /** One of the queries that a sweep makes fails. */
  predicate QueriesFail(rows: seq<Row>, works: set<string>, cutoff: int, counted: bool, sampled: bool, look: nat -> Look) {
    || !counted
    || (|works| >= MIN_WORKS && !sampled)
    || (MaySweep(rows, works) && Fails(rows, look, works, cutoff))
  }

  /** What one sweep leaves. */
  function Swept(rows: seq<Row>, stop: nat -> bool, works: set<string>, cutoff: int): seq<Row> {
    if !MaySweep(rows, works) then rows
    else
      var n := Visited(rows, 0, 0, stop, works, cutoff);
      Purged(rows[..n], works, cutoff) + rows[n..]
  }

  // ---- the sweep -----------------------------------------------------------------------------

  class CoverStore {
    var rows: seq<Row>

    /** Delete the named rows that are older than the cutoff. */
    method Delete(orphans: seq<string>, cutoff: int) returns (affected: nat)
      modifies this
      ensures rows == Without(old(rows), orphans, cutoff)
      ensures affected == |old(rows)| - |rows|
    {
      WithoutShrinks(rows, orphans, cutoff);
      var before := |rows|;
      rows := Without(rows, orphans, cutoff);
      affected := before - |rows|;
    }

    method SampledOrphans(sample: seq<Row>, works: set<string>) returns (orphans: nat)
      ensures orphans == |Missing(sample, works)|
    {
      orphans := 0;
      var at := 0;
      while at < |sample|
        invariant at <= |sample| && orphans == |Missing(sample[..at], works)|
      {
        var next := if at + SCAN_BATCH < |sample| then at + SCAN_BATCH else |sample|;
        MissingJoins(sample[..at], sample[at..next], works);
        assert sample[..at] + sample[at..next] == sample[..next];
        orphans := orphans + |Missing(sample[at..next], works)|;
        at := next;
      }
      assert sample[..|sample|] == sample;
    }

    /** `counted` and `sampled` say whether the queries before the first batch answer; the result is none after an error. */
    method SweepWorkCoverBlobs(works: set<string>, cutoff: int, counted: bool, sampled: bool, look: nat -> Look)
      returns (result: Option<nat>)
      requires Table(rows)
      modifies this
      ensures Table(rows)
      ensures rows == if counted && sampled then Swept(old(rows), Halts(look), works, cutoff) else old(rows)
      ensures result.Some? ==> result.value == |old(rows)| - |rows|
      ensures result.None? <==> QueriesFail(old(rows), works, cutoff, counted, sampled, look)
    {
      if !counted { return None; }
      if |works| < MIN_WORKS { return Some(0); }
      if !sampled { return None; }
      var sample := Take(rows, RATIO_SAMPLE);
      var sampleOrphans := SampledOrphans(sample, works);
      if !OrphanRateSane(sampleOrphans, |sample|) { return Some(0); }
      result := Drain(works, cutoff, look);
      SweptTable(old(rows), Halts(look), works, cutoff);
    }

    /** Read one batch behind the cursor, delete its aged orphans, and say where to go on, if at all. */
    method SweepBatch(cursor: string, works: set<string>, cutoff: int, deleted: nat, ghost batch: nat,
                      ghost all: seq<Row>, ghost done: nat, ghost end: End, ghost stop: nat -> bool)
      returns (next: string, total: nat, more: bool, ghost upTo: nat)
      requires Table(all) && Between(all, done, rows, cursor, deleted, batch, end, stop, works, cutoff)
      requires !stop(batch)
      modifies this
      ensures !more ==> Drained(all, rows, end.visits, works, cutoff) && total == |all| - |rows| && end.stopped.None?
      ensures more ==> done < upTo <= |all|
      ensures more ==> Between(all, upTo, rows, next, total, batch + 1, end, stop, works, cutoff)
    {
      next, total, more, upTo := cursor, deleted, false, done;
      var ids := Take(Behind(rows, cursor), SCAN_BATCH);
      if ids == [] {
        DrainEnds(all, done, deleted, batch, end, stop, works, cutoff);
        return;
      }
      next, upTo := ids[|ids| - 1].id, done + |ids|;
      NextBatch(all, done, rows, cursor, ids, works, cutoff);
      var orphans := Missing(ids, works);
      if orphans != [] {
        var affected := Delete(orphans, cutoff);
        total := deleted + affected;
      }
      DrainStep(all, done, deleted, batch, end, ids, orphans, total, stop, works, cutoff);
      more := !(orphans != [] && total >= DELETE_BUDGET);
    }

    /** Page through the table by key, deleting each batch's orphans, until the end, the budget, a shutdown or an error. */
    method Drain(works: set<string>, cutoff: int, look: nat -> Look) returns (result: Option<nat>)
      requires Table(rows)
      modifies this
      ensures Drained(old(rows), rows, Visited(old(rows), 0, 0, Halts(look), works, cutoff), works, cutoff)
      ensures result.Some? ==> result.value == |old(rows)| - |rows|
      ensures result.None? <==> Fails(old(rows), look, works, cutoff)
    {
      var deleted, cursor, batch, more := 0, "", 0, true;
      ghost var stop := Halts(look);
      ghost var all, done, end := rows, 0, EndOf(rows, 0, 0, stop, works, cutoff);
      Beginning(all, works, cutoff);
      assert all[0..] == all;
      while more && look(batch) == Goes
        invariant more ==> Between(all, done, rows, cursor, deleted, batch, end, stop, works, cutoff)
        invariant !more ==> Drained(all, rows, end.visits, works, cutoff) && deleted == |all| - |rows| && end.stopped.None?
        decreases more, |all| - done
      {
        cursor, deleted, more, done := SweepBatch(cursor, works, cutoff, deleted, batch, all, done, end, stop);
        batch := batch + 1;
      }
      if more { DrainEnds(all, done, deleted, batch, end, stop, works, cutoff); }
      result := if more && look(batch) == Errs then None else Some(deleted);
    }
  }

  /** How many rows a sweep will have visited, and where it will have been stopped. */
  datatype End = End(visits: nat, stopped: Option<nat>)

  function EndOf(rows: seq<Row>, deleted: nat, batch: nat, stop: nat -> bool, works: set<string>, cutoff: int): End {
    End(Visited(rows, deleted, batch, stop, works, cutoff), StoppedAt(rows, deleted, batch, stop, works, cutoff))
  }

  ghost predicate Between(all: seq<Row>, done: nat, rows: seq<Row>, cursor: string, deleted: nat, batch: nat, end: End,
                          stop: nat -> bool, works: set<string>, cutoff: int)
  {
    && At(all, done, rows, cursor, works, cutoff) && deleted == |all| - |rows|
    && Progress(all, done, deleted, batch, end, stop, works, cutoff)
  }

  /** Of the rows there were, the first `n` have lost their aged orphans. */
  ghost predicate Drained(all: seq<Row>, rows: seq<Row>, n: nat, works: set<string>, cutoff: int) {
    n <= |all| && rows == Purged(all[..n], works, cutoff) + all[n..]
  }

  // ---- why the batches add up ------------------------------------------------------------------

  /** The first `done` of the rows there were have been purged, and the cursor stands behind them. */
  ghost predicate At(all: seq<Row>, done: nat, rows: seq<Row>, cursor: string, works: set<string>, cutoff: int) {
    && done <= |all|
    && rows == Purged(all[..done], works, cutoff) + all[done..]
    && Behind(rows, cursor) == all[done..]
  }

  /** Where a sweep that will end so stands between two batches. */
  ghost predicate Progress(all: seq<Row>, done: nat, deleted: nat, batch: nat, end: End,
                           stop: nat -> bool, works: set<string>, cutoff: int)
  {
    && done <= |all|
    && var rest := EndOf(all[done..], deleted, batch, stop, works, cutoff);
       end == End(done + rest.visits, rest.stopped)
  }

  lemma DrainStep(all: seq<Row>, done: nat, deleted: nat, batch: nat, end: End,
                  ids: seq<Row>, orphans: seq<string>, total: nat, stop: nat -> bool, works: set<string>, cutoff: int)
    requires Progress(all, done, deleted, batch, end, stop, works, cutoff) && !stop(batch)
    requires done < |all| && ids == Take(all[done..], SCAN_BATCH)
    requires orphans == Missing(ids, works) && total == deleted + Backlog(ids, works, cutoff)
    ensures if orphans != [] && total >= DELETE_BUDGET then end == End(done + |ids|, None)
            else Progress(all, done + |ids|, total, batch + 1, end, stop, works, cutoff)
  {
    NextVisit(all[done..], deleted, batch, stop, works, cutoff);
    assert all[done..][|ids|..] == all[done + |ids|..];
  }

  lemma DrainEnds(all: seq<Row>, done: nat, deleted: nat, batch: nat, end: End,
                  stop: nat -> bool, works: set<string>, cutoff: int)
    requires Progress(all, done, deleted, batch, end, stop, works, cutoff)
    requires stop(batch) || done == |all|
    ensures end == End(done, if stop(batch) then Some(batch) else None)
  {
  }

  lemma {:induction false} MissingMembers(ids: seq<Row>, works: set<string>, id: string)
    ensures id in Missing(ids, works) <==> id !in works && exists x :: x in ids && x.id == id
  {
    if ids != [] {
      MissingMembers(ids[1..], works, id);
      assert ids == [ids[0]] + ids[1..];
    }
  }

  lemma {:induction false} PurgedMembers(rows: seq<Row>, works: set<string>, cutoff: int, x: Row)
    ensures x in Purged(rows, works, cutoff) <==> x in rows && !Aged(x, works, cutoff)
  {
    if rows != [] {
      PurgedMembers(rows[1..], works, cutoff, x);
      assert rows == [rows[0]] + rows[1..];
    }
  }

  lemma {:induction false} MissingJoins(a: seq<Row>, b: seq<Row>, works: set<string>)
    ensures Missing(a + b, works) == Missing(a, works) + Missing(b, works)
  {
    if a == [] {
      assert a + b == b;
    } else {
      assert (a + b)[1..] == a[1..] + b;
      MissingJoins(a[1..], b, works);
    }
  }

  lemma {:induction false} WithoutShrinks(rows: seq<Row>, orphans: seq<string>, cutoff: int)
    ensures |Without(rows, orphans, cutoff)| <= |rows|
  {
    if rows != [] { WithoutShrinks(rows[1..], orphans, cutoff); }
  }

  lemma {:induction false} WithoutJoins(a: seq<Row>, b: seq<Row>, orphans: seq<string>, cutoff: int)
    ensures Without(a + b, orphans, cutoff) == Without(a, orphans, cutoff) + Without(b, orphans, cutoff)
  {
    if a == [] {
      assert a + b == b;
    } else {
      assert (a + b)[1..] == a[1..] + b;
      WithoutJoins(a[1..], b, orphans, cutoff);
    }
  }

  lemma {:induction false} WithoutNone(rows: seq<Row>, orphans: seq<string>, cutoff: int)
    requires forall x | x in rows :: x.id !in orphans
    ensures Without(rows, orphans, cutoff) == rows
  {
    if rows != [] {
      assert rows[0] in rows;
      WithoutNone(rows[1..], orphans, cutoff);
    }
  }

  lemma {:induction false} WithoutMissing(ids: seq<Row>, orphans: seq<string>, works: set<string>, cutoff: int)
    requires forall x | x in ids :: x.id in orphans <==> x.id !in works
    ensures Without(ids, orphans, cutoff) == Purged(ids, works, cutoff)
  {
    if ids != [] {
      assert ids[0] in ids;
      WithoutMissing(ids[1..], orphans, works, cutoff);
    }
  }

  lemma {:induction false} PurgedJoins(a: seq<Row>, b: seq<Row>, works: set<string>, cutoff: int)
    ensures Purged(a + b, works, cutoff) == Purged(a, works, cutoff) + Purged(b, works, cutoff)
  {
    if a == [] {
      assert a + b == b;
    } else {
      assert (a + b)[1..] == a[1..] + b;
      PurgedJoins(a[1..], b, works, cutoff);
    }
  }

  lemma {:induction false} BehindJoins(a: seq<Row>, b: seq<Row>, cursor: string)
    ensures Behind(a + b, cursor) == Behind(a, cursor) + Behind(b, cursor)
  {
    if a == [] {
      assert a + b == b;
    } else {
      assert (a + b)[1..] == a[1..] + b;
      BehindJoins(a[1..], b, cursor);
    }
  }

  lemma {:induction false} BehindNone(rows: seq<Row>, cursor: string)
    requires forall x | x in rows :: !Less(cursor, x.id)
    ensures Behind(rows, cursor) == []
  {
    if rows != [] {
      assert rows[0] in rows;
      BehindNone(rows[1..], cursor);
    }
  }

  lemma {:induction false} BehindAll(rows: seq<Row>, cursor: string)
    requires forall x | x in rows :: Less(cursor, x.id)
    ensures Behind(rows, cursor) == rows
  {
    if rows != [] {
      assert rows[0] in rows;
      BehindAll(rows[1..], cursor);
    }
  }

  lemma Beginning(all: seq<Row>, works: set<string>, cutoff: int)
    requires Table(all)
    ensures At(all, 0, all, "", works, cutoff)
  {
    BehindAll(all, "");
    assert all[..0] == [] && all[0..] == all && [] + all == all;
  }

  /** Rows of earlier and later stretches differ in their ids. */
  lemma StretchesDiffer(all: seq<Row>, done: nat, end: nat, x: Row, y: Row)
    requires Table(all) && done < end <= |all|
    requires (x in all[..done] || x in all[end..]) && y in all[done..end]
    ensures x.id != y.id
  {
    var j :| done <= j < end && all[j] == y;
    LessTotal(x.id, x.id);
    if x in all[..done] {
      var i :| 0 <= i < done && all[i] == x;
      assert Less(all[i].id, all[j].id);
    } else {
      var i :| end <= i < |all| && all[i] == x;
      assert Less(all[j].id, all[i].id);
    }
  }

  /** The last id of a stretch is a cursor between it and what follows. */
  lemma CursorBetween(all: seq<Row>, end: nat, x: Row)
    requires Table(all) && 0 < end <= |all|
    ensures x in all[..end] ==> !Less(all[end - 1].id, x.id)
    ensures x in all[end..] ==> Less(all[end - 1].id, x.id)
  {
    if x in all[..end] {
      var i :| 0 <= i < end && all[i] == x;
      if i < end - 1 { Asymmetric(x.id, all[end - 1].id); } else { LessTotal(x.id, x.id); }
    }
  }

  lemma PurgedGrows(all: seq<Row>, done: nat, end: nat, works: set<string>, cutoff: int)
    requires done <= end <= |all|
    ensures Purged(all[..end], works, cutoff) == Purged(all[..done], works, cutoff) + Purged(all[done..end], works, cutoff)
  {
    assert all[..end] == all[..done] + all[done..end];
    PurgedJoins(all[..done], all[done..end], works, cutoff);
  }

  lemma BatchDeleted(all: seq<Row>, done: nat, end: nat, works: set<string>, cutoff: int)
    requires Table(all) && done < end <= |all|
    ensures var front, ids, rest := Purged(all[..done], works, cutoff), all[done..end], all[end..];
            Without(front + (ids + rest), Missing(ids, works), cutoff) == front + (Purged(ids, works, cutoff) + rest)
  {
    forall x, y | x in Purged(all[..done], works, cutoff) && y in all[done..end] ensures x.id != y.id {
      PurgedMembers(all[..done], works, cutoff, x);
      StretchesDiffer(all, done, end, x, y);
    }
    forall x, y | x in all[end..] && y in all[done..end] ensures x.id != y.id { StretchesDiffer(all, done, end, x, y); }
    OneBatch(Purged(all[..done], works, cutoff), all[done..end], all[end..], Missing(all[done..end], works), works, cutoff);
  }

  /** Deleting one batch's orphans purges that batch and nothing else. */
  lemma NextRows(all: seq<Row>, done: nat, end: nat, works: set<string>, cutoff: int)
    requires Table(all) && done < end <= |all|
    ensures Without(Purged(all[..done], works, cutoff) + all[done..], Missing(all[done..end], works), cutoff)
            == Purged(all[..end], works, cutoff) + all[end..]
    ensures Purged(all[..end], works, cutoff) == Purged(all[..done], works, cutoff) + Purged(all[done..end], works, cutoff)
  {
    BatchDeleted(all, done, end, works, cutoff);
    PurgedGrows(all, done, end, works, cutoff);
    assert all[done..] == all[done..end] + all[end..];
  }

  /** The next batch begins behind this one. */
  lemma NextCursor(all: seq<Row>, end: nat, works: set<string>, cutoff: int)
    requires Table(all) && 0 < end <= |all|
    ensures Behind(Purged(all[..end], works, cutoff) + all[end..], all[end - 1].id) == all[end..]
  {
    forall x | x in Purged(all[..end], works, cutoff) ensures !Less(all[end - 1].id, x.id) {
      PurgedMembers(all[..end], works, cutoff, x);
      CursorBetween(all, end, x);
    }
    forall x | x in all[end..] ensures Less(all[end - 1].id, x.id) { CursorBetween(all, end, x); }
    BehindNone(Purged(all[..end], works, cutoff), all[end - 1].id);
    BehindAll(all[end..], all[end - 1].id);
    BehindJoins(Purged(all[..end], works, cutoff), all[end..], all[end - 1].id);
  }

  lemma NextBatch(all: seq<Row>, done: nat, rows: seq<Row>, cursor: string, ids: seq<Row>, works: set<string>, cutoff: int)
    requires Table(all) && At(all, done, rows, cursor, works, cutoff)
    requires ids == Take(Behind(rows, cursor), SCAN_BATCH) && ids != []
    ensures done < |all| && ids == Take(all[done..], SCAN_BATCH)
    ensures At(all, done + |ids|, LeftBy(rows, ids, works, cutoff), ids[|ids| - 1].id, works, cutoff)
    ensures |rows| - |LeftBy(rows, ids, works, cutoff)| == Backlog(ids, works, cutoff)
  {
    var end := done + |ids|;
    assert ids == all[done..end] && ids[|ids| - 1] == all[end - 1];
    NextRows(all, done, end, works, cutoff);
    NextCursor(all, end, works, cutoff);
    if Missing(ids, works) == [] { WithoutNone(rows, [], cutoff); }
  }

  /** How the visits go on after a batch that does not reach the budget. */
  lemma NextVisit(rest: seq<Row>, deleted: nat, batch: nat, stop: nat -> bool, works: set<string>, cutoff: int)
    requires rest != [] && !stop(batch)
    ensures var ids := Take(rest, SCAN_BATCH);
            var total := deleted + Backlog(ids, works, cutoff);
            var next := EndOf(rest[|ids|..], total, batch + 1, stop, works, cutoff);
            EndOf(rest, deleted, batch, stop, works, cutoff) ==
            if Missing(ids, works) != [] && total >= DELETE_BUDGET then End(|ids|, None)
            else End(|ids| + next.visits, next.stopped)
  {
  }

  lemma OneBatch(front: seq<Row>, ids: seq<Row>, rest: seq<Row>, orphans: seq<string>, works: set<string>, cutoff: int)
    requires orphans == Missing(ids, works)
    requires forall x, y | x in front && y in ids :: x.id != y.id
    requires forall x, y | x in rest && y in ids :: x.id != y.id
    ensures Without(front + (ids + rest), orphans, cutoff) == front + (Purged(ids, works, cutoff) + rest)
  {
    WithoutJoins(front, ids + rest, orphans, cutoff);
    WithoutJoins(ids, rest, orphans, cutoff);
    forall x | x in front ensures x.id !in orphans { MissingMembers(ids, works, x.id); }
    forall x | x in rest ensures x.id !in orphans { MissingMembers(ids, works, x.id); }
    WithoutNone(front, orphans, cutoff);
    WithoutNone(rest, orphans, cutoff);
    forall x | x in ids ensures x.id in orphans <==> x.id !in works { MissingMembers(ids, works, x.id); }
    WithoutMissing(ids, orphans, works, cutoff);
  }

  lemma {:induction false} PurgedTable(rows: seq<Row>, works: set<string>, cutoff: int)
    requires Table(rows)
    ensures Table(Purged(rows, works, cutoff))
  {
    if rows != [] {
      assert Table(rows[1..]);
      PurgedTable(rows[1..], works, cutoff);
      forall x | x in Purged(rows[1..], works, cutoff) ensures Less(rows[0].id, x.id) && x.id != "" {
        PurgedMembers(rows[1..], works, cutoff, x);
        var i :| 0 <= i < |rows| - 1 && rows[1..][i] == x;
        assert rows[i + 1] == x;
      }
    }
  }

  lemma SweptTable(rows: seq<Row>, stop: nat -> bool, works: set<string>, cutoff: int)
    requires Table(rows)
    ensures Table(Swept(rows, stop, works, cutoff))
  {
    if MaySweep(rows, works) {
      var n := Visited(rows, 0, 0, stop, works, cutoff);
      var front := Purged(rows[..n], works, cutoff);
      assert Table(rows[..n]) && Table(rows[n..]);
      PurgedTable(rows[..n], works, cutoff);
      forall x, y | x in front && y in rows[n..] ensures Less(x.id, y.id) {
        PurgedMembers(rows[..n], works, cutoff, x);
        var i, j :| 0 <= i < n && rows[i] == x && n <= j < |rows| && rows[j] == y;
      }
      var z := front + rows[n..];
      forall i, j | 0 <= i < j < |z| ensures Less(z[i].id, z[j].id) {
        if i < |front| && j >= |front| { assert z[i] in front && z[j] in rows[n..]; }
      }
    }
  }

  /** Where a sweep is stopped nothing stopped it before, and one that is not visits what it would if nothing ever did. */
  lemma {:induction false} StoppedIs(rows: seq<Row>, deleted: nat, batch: nat, stop: nat -> bool, never: nat -> bool,
                                     works: set<string>, cutoff: int)
    requires forall b :: !never(b)
    ensures var at := StoppedAt(rows, deleted, batch, stop, works, cutoff);
            && (at.Some? ==> batch <= at.value && stop(at.value) && forall b | batch <= b < at.value :: !stop(b))
            && (at.None? ==> Visited(rows, deleted, batch, stop, works, cutoff) == Visited(rows, deleted, batch, never, works, cutoff))
    decreases |rows|
  {
    if !stop(batch) && rows != [] {
      var ids := Take(rows, SCAN_BATCH);
      StoppedIs(rows[|ids|..], deleted + Backlog(ids, works, cutoff), batch + 1, stop, never, works, cutoff);
    }
  }

  /** An error is answered only for a failing query: of the first two, or of a batch before which no other failed and no shutdown came. */
  lemma ErrorsAreQueries(rows: seq<Row>, works: set<string>, cutoff: int, counted: bool, sampled: bool, look: nat -> Look)
    requires QueriesFail(rows, works, cutoff, counted, sampled, look)
    ensures !counted || !sampled || exists b: nat :: look(b) == Errs && forall j: nat | j < b :: look(j) == Goes
    ensures |works| < 10000 ==> !counted
  {
    if counted && sampled {
      var never := (b: nat) => false;
      StoppedIs(rows, 0, 0, Halts(look), never, works, cutoff);
      var b := StoppedAt(rows, 0, 0, Halts(look), works, cutoff).value;
      assert look(b) == Errs;
      forall j: nat | j < b ensures look(j) == Goes { assert !Halts(look)(j); }
    }
  }

  /** A first batch whose query fails is answered with an error by a sweep that is let through. */
  lemma FirstBatchErrs(rows: seq<Row>, works: set<string>, cutoff: int, look: nat -> Look)
    requires MaySweep(rows, works)
    ensures look(0) == Errs ==> QueriesFail(rows, works, cutoff, true, true, look) && Swept(rows, Halts(look), works, cutoff) == rows
    ensures look(0) == ShutDown ==> !QueriesFail(rows, works, cutoff, true, true, look)
    ensures QueriesFail(rows, works, cutoff, false, true, look) && QueriesFail(rows, works, cutoff, true, false, look)
  {
    assert rows[..0] == [] && rows[0..] == rows;
  }

  // ---- what one sweep and many sweeps come to ------------------------------------------------------

  /** A sweep deletes fewer than 1,500 rows, aged orphans only, and adds none. */
  lemma SweepDeletesAgedOrphansOnly(rows: seq<Row>, stop: nat -> bool, works: set<string>, cutoff: int, r: Row)
    ensures var left := Swept(rows, stop, works, cutoff);
            && |rows| - |left| < 1500
            && (r in left ==> r in rows)
            && (r in rows && r !in left ==> Aged(r, works, cutoff))
  {
    if MaySweep(rows, works) {
      var n := Visited(rows, 0, 0, stop, works, cutoff);
      assert rows == rows[..n] + rows[n..];
      BudgetHolds(rows, 0, 0, stop, works, cutoff);
      PurgedMembers(rows[..n], works, cutoff, r);
    }
  }

  /** What the visited rows lose stays within the budget and one batch. */
  lemma {:induction false} BudgetHolds(rows: seq<Row>, deleted: nat, batch: nat, stop: nat -> bool, works: set<string>, cutoff: int)
    requires deleted < DELETE_BUDGET
    ensures var n := Visited(rows, deleted, batch, stop, works, cutoff);
            deleted + Backlog(rows[..n], works, cutoff) < DELETE_BUDGET + SCAN_BATCH
    ensures var n := Visited(rows, deleted, batch, stop, works, cutoff);
            (forall b :: !stop(b)) && deleted + Backlog(rows[..n], works, cutoff) < DELETE_BUDGET ==> n == |rows|
    decreases |rows|
  {
    if !stop(batch) && rows != [] {
      var ids := Take(rows, SCAN_BATCH);
      var total := deleted + Backlog(ids, works, cutoff);
      var n := Visited(rows, deleted, batch, stop, works, cutoff);
      NothingMissing(ids, works, cutoff);
      if Missing(ids, works) != [] && total >= DELETE_BUDGET {
        assert rows[..n] == ids;
      } else {
        var m := Visited(rows[|ids|..], total, batch + 1, stop, works, cutoff);
        assert rows[..n] == ids + rows[|ids|..][..m];
        PurgedJoins(ids, rows[|ids|..][..m], works, cutoff);
        BudgetHolds(rows[|ids|..], total, batch + 1, stop, works, cutoff);
      }
    } else {
      assert rows[..0] == [];
    }
  }

  lemma {:induction false} NothingMissing(ids: seq<Row>, works: set<string>, cutoff: int)
    ensures Missing(ids, works) == [] ==> Backlog(ids, works, cutoff) == 0
  {
    if ids != [] { NothingMissing(ids[1..], works, cutoff); }
  }

  /** Whatever stops a sweep, the backlog shrinks by the rows that went. */
  lemma SweepLowersBacklog(rows: seq<Row>, stop: nat -> bool, works: set<string>, cutoff: int)
    ensures var left := Swept(rows, stop, works, cutoff);
            Backlog(left, works, cutoff) == Backlog(rows, works, cutoff) - (|rows| - |left|)
    ensures |Swept(rows, stop, works, cutoff)| <= |rows|
  {
    if MaySweep(rows, works) {
      var n := Visited(rows, 0, 0, stop, works, cutoff);
      var front := Purged(rows[..n], works, cutoff);
      assert rows == rows[..n] + rows[n..];
      PurgedJoins(rows[..n], rows[n..], works, cutoff);
      PurgedJoins(front, rows[n..], works, cutoff);
      PurgedTwice(rows[..n], works, cutoff);
    }
  }

  /** A sweep that is let through and not stopped either deletes a whole budget or leaves no aged orphan at all. */
  lemma SweepDeletesABudgetOrAll(rows: seq<Row>, stop: nat -> bool, works: set<string>, cutoff: int)
    requires MaySweep(rows, works) && forall b :: !stop(b)
    ensures var left := Swept(rows, stop, works, cutoff);
            && Backlog(left, works, cutoff) == Backlog(rows, works, cutoff) - (|rows| - |left|)
            && (|rows| - |left| >= DELETE_BUDGET || forall r | r in left :: !Aged(r, works, cutoff))
  {
    var n := Visited(rows, 0, 0, stop, works, cutoff);
    BudgetHolds(rows, 0, 0, stop, works, cutoff);
    SweepLowersBacklog(rows, stop, works, cutoff);
    var front := Purged(rows[..n], works, cutoff);
    assert rows == rows[..n] + rows[n..];
    if n == |rows| {
      forall r | r in front + rows[n..] ensures !Aged(r, works, cutoff) { PurgedMembers(rows[..n], works, cutoff, r); }
    }
  }

  lemma {:induction false} FewerVisits(rows: seq<Row>, deleted: nat, batch: nat, stop: nat -> bool, later: nat -> bool,
                                       works: set<string>, cutoff: int)
    requires forall b :: later(b) ==> stop(b)
    ensures Visited(rows, deleted, batch, stop, works, cutoff) <= Visited(rows, deleted, batch, later, works, cutoff)
    decreases |rows|
  {
    if !stop(batch) && rows != [] {
      var ids := Take(rows, SCAN_BATCH);
      FewerVisits(rows[|ids|..], deleted + Backlog(ids, works, cutoff), batch + 1, stop, later, works, cutoff);
    }
  }

  /** A shutdown or a failing query only shortens the prefix that is purged: what it spares is all it changes. */
  lemma StopsOnlyShorten(rows: seq<Row>, stop: nat -> bool, later: nat -> bool, works: set<string>, cutoff: int)
    requires forall b :: later(b) ==> stop(b)
    ensures Visited(rows, 0, 0, stop, works, cutoff) <= Visited(rows, 0, 0, later, works, cutoff)
    ensures forall r | r in Swept(rows, later, works, cutoff) :: r in Swept(rows, stop, works, cutoff)
    ensures forall r | r in Swept(rows, stop, works, cutoff) && r !in Swept(rows, later, works, cutoff) :: Aged(r, works, cutoff)
  {
    FewerVisits(rows, 0, 0, stop, later, works, cutoff);
    if MaySweep(rows, works) {
      var (m, n) := (Visited(rows, 0, 0, stop, works, cutoff), Visited(rows, 0, 0, later, works, cutoff));
      PurgedGrows(rows, m, n, works, cutoff);
      assert rows[m..] == rows[m..n] + rows[n..];
      forall r ensures r in Purged(rows[m..n], works, cutoff) <==> r in rows[m..n] && !Aged(r, works, cutoff) {
        PurgedMembers(rows[m..n], works, cutoff, r);
      }
    }
  }

  /** Positions among the first so many rows whose id is that of no work. */
  function OrphansAmong(rows: seq<Row>, n: nat, works: set<string>): set<nat> {
    set i: nat | i < n && i < |rows| && rows[i].id !in works
  }

  lemma OrphansGrow(rows: seq<Row>, n: nat, works: set<string>)
    requires |rows| == n + 1
    ensures |OrphansAmong(rows, n + 1, works)| == |OrphansAmong(rows[..n], n, works)| + if rows[n].id in works then 0 else 1
  {
    assert OrphansAmong(rows, n + 1, works) == OrphansAmong(rows[..n], n, works) + if rows[n].id in works then {} else {n};
  }

  lemma {:induction false} MissingCounts(rows: seq<Row>, works: set<string>)
    ensures |Missing(rows, works)| == |OrphansAmong(rows, |rows|, works)|
  {
    if rows == [] {
      assert OrphansAmong([], 0, works) == {};
    } else {
      var n := |rows| - 1;
      MissingCounts(rows[..n], works);
      MissingJoins(rows[..n], [rows[n]], works);
      assert rows == rows[..n] + [rows[n]];
      OrphansGrow(rows, n, works);
    }
  }

  /** The guards in numbers: at least 10,000 works, and no more than a quarter of the first 2,000 rows without a work. */
  lemma GuardsAre(rows: seq<Row>, works: set<string>)
    ensures var sampled := if |rows| < 2000 then |rows| else 2000;
            MaySweep(rows, works) <==> |works| >= 10000 && 4 * |OrphansAmong(rows, 2000, works)| <= sampled
  {
    var sample := Take(rows, RATIO_SAMPLE);
    MissingCounts(sample, works);
    assert OrphansAmong(sample, |sample|, works) == OrphansAmong(rows, 2000, works);
  }

  /** With too few works, or more than a quarter of the first 2,000 rows without one, nothing is deleted. */
  lemma WrongDatabaseIsSpared(rows: seq<Row>, stop: nat -> bool, works: set<string>, cutoff: int)
    requires |works| < 10000 || 4 * |OrphansAmong(rows, 2000, works)| > if |rows| < 2000 then |rows| else 2000
    ensures Swept(rows, stop, works, cutoff) == rows
  {
    GuardsAre(rows, works);
  }

  /** Otherwise a sweep that nothing stops deletes 1,000 rows or leaves no aged orphan. */
  lemma PlausibleDatabaseIsSwept(rows: seq<Row>, stop: nat -> bool, works: set<string>, cutoff: int)
    requires |works| >= 10000 && 4 * |OrphansAmong(rows, 2000, works)| <= if |rows| < 2000 then |rows| else 2000
    requires forall b :: !stop(b)
    ensures var left := Swept(rows, stop, works, cutoff);
            |rows| - |left| >= 1000 || forall r | r in left :: r.id in works || r.updatedAt >= cutoff
  {
    GuardsAre(rows, works);
    SweepDeletesABudgetOrAll(rows, stop, works, cutoff);
  }

  lemma {:induction false} PurgedTwice(rows: seq<Row>, works: set<string>, cutoff: int)
    ensures Purged(Purged(rows, works, cutoff), works, cutoff) == Purged(rows, works, cutoff)
  {
    if rows != [] { PurgedTwice(rows[1..], works, cutoff); }
  }

  /** Stopped from some batch on, or never. */
  function Stopping(cut: Option<nat>): nat -> bool { (b: nat) => cut.Some? && cut.value <= b }

  /** What sweeps leave, each cut short somewhere or not at all. */
  function SweptOver(rows: seq<Row>, cuts: seq<Option<nat>>, works: set<string>, cutoff: int): seq<Row> {
    if cuts == [] then rows
    else
      var n := |cuts| - 1;
      Swept(SweptOver(rows, cuts[..n], works, cutoff), Stopping(cuts[n]), works, cutoff)
  }

  function Uncut(cuts: seq<Option<nat>>): nat {
    if cuts == [] then 0 else Uncut(cuts[..|cuts| - 1]) + if cuts[|cuts| - 1].None? then 1 else 0
  }

  /** The guards let through every sweep that is not cut short. */
  predicate LetThrough(rows: seq<Row>, cuts: seq<Option<nat>>, works: set<string>, cutoff: int) {
    cuts == []
    || var n := |cuts| - 1;
       LetThrough(rows, cuts[..n], works, cutoff)
       && (cuts[n].None? ==> MaySweep(SweptOver(rows, cuts[..n], works, cutoff), works))
  }

  /**
   * Sweeps that pass the guards drain any backlog, by a budget each until it is gone, whatever shutdowns
   * and errors cut others short in between.
   */
  lemma {:induction false} SweepsDrain(rows: seq<Row>, cuts: seq<Option<nat>>, works: set<string>, cutoff: int)
    requires LetThrough(rows, cuts, works, cutoff)
    ensures var left := Backlog(SweptOver(rows, cuts, works, cutoff), works, cutoff);
            left == 0 || left + Uncut(cuts) * DELETE_BUDGET <= Backlog(rows, works, cutoff)
  {
    if cuts != [] {
      var n := |cuts| - 1;
      SweepsDrain(rows, cuts[..n], works, cutoff);
      var before := SweptOver(rows, cuts[..n], works, cutoff);
      SweepLowersBacklog(before, Stopping(cuts[n]), works, cutoff);
      if cuts[n].None? {
        SweepDeletesABudgetOrAll(before, Stopping(cuts[n]), works, cutoff);
        NoneAged(SweptOver(rows, cuts, works, cutoff), works, cutoff);
      }
    }
  }

  lemma {:induction false} NoneAged(rows: seq<Row>, works: set<string>, cutoff: int)
    ensures Backlog(rows, works, cutoff) == 0 <==> forall r | r in rows :: !Aged(r, works, cutoff)
  {
    if rows != [] {
      NoneAged(rows[1..], works, cutoff);
      assert rows == [rows[0]] + rows[1..];
    }
  }
}
