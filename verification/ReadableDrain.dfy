/** The cursorless drain that gives every mirrored MangaDex chapter a release clock. Its work-list
    is the table itself: the MangaDex rows whose clock is still null. */
module ReadableDrain {
  import opened Wrappers
  import opened Text

  const READABLE_BACKFILL_BATCH: nat := 100

  datatype Chapter = Chapter(externalId: string, mangadex: bool, published: Option<string>, created: string,
                             readable: Option<string>, url: Option<string>)

  /** Chapters by row id. */
  type Table = map<nat, Chapter>

  /** What upstream says about one chapter. */
  datatype Attrs = Attrs(readableAt: Option<string>, publishAt: Option<string>, externalUrl: Option<string>)

  datatype Answer = Answer(id: string, attrs: Attrs)

  datatype Resolved = Resolved(readable: string, url: Option<string>, answered: bool)

  datatype Fill = Fill(filled: nat, fromUpstream: nat, external: nat, unanswered: nat)

  /** A text that says something once trimmed. */
  function Present(v: Option<string>): (r: Option<string>)
    ensures r.Some? <==> v.Some? && Trim(v.value) != ""
  {
    if v.Some? && Trim(v.value) != "" then Some(Trim(v.value)) else None
  }

  /** The record kept for an id when several came back: the last. */
  function Find(upstream: seq<Answer>, id: string): Option<Attrs> {
    if upstream == [] then None
    else if upstream[|upstream| - 1].id == id then Some(upstream[|upstream| - 1].attrs)
    else Find(upstream[..|upstream| - 1], id)
  }

  /** A record is found exactly when one of that id came back, wherever it stands, and of several the last. */
  lemma {:induction false} FindIs(upstream: seq<Answer>, id: string)
    ensures Find(upstream, id).Some? <==> exists k :: 0 <= k < |upstream| && upstream[k].id == id
    ensures forall k | 0 <= k < |upstream| && upstream[k].id == id && (forall j | k < j < |upstream| :: upstream[j].id != id) ::
              Find(upstream, id) == Some(upstream[k].attrs)
  {
    if upstream != [] && upstream[|upstream| - 1].id != id {
      var front := upstream[..|upstream| - 1];
      FindIs(front, id);
      forall k | 0 <= k < |upstream| && upstream[k].id == id && (forall j | k < j < |upstream| :: upstream[j].id != id)
        ensures Find(upstream, id) == Some(upstream[k].attrs)
      {
        assert front[k].id == id && forall j | k < j < |front| :: front[j].id != id;
      }
      if k :| 0 <= k < |upstream| && upstream[k].id == id { assert front[k].id == id; }
    }
  }

  function ResolveReadableAt(row: Chapter, upstream: Option<Attrs>): Resolved {
    var fromReadable := if upstream.Some? then Present(upstream.value.readableAt) else None;
    var fromPublish := if upstream.Some? then Present(upstream.value.publishAt) else None;
    Resolved(
      if fromReadable.Some? then fromReadable.value
      else if fromPublish.Some? then fromPublish.value
      else if Present(row.published).Some? then Present(row.published).value
      else row.created,
      if upstream.Some? then Present(upstream.value.externalUrl) else None,
      upstream.Some?)
  }

  /** The rows still waiting for a clock. */
  function WorkList(t: Table): set<nat> {
    set id | id in t && t[id].mangadex && t[id].readable.None?
  }

  /** A batch the work-list query may return: distinct waiting rows, as many as fit. */
  ghost predicate IsBatch(t: Table, batch: seq<nat>) {
    && (forall i | 0 <= i < |batch| :: batch[i] in WorkList(t))
    && (forall i, j | 0 <= i < j < |batch| :: batch[i] != batch[j])
    && |batch| <= READABLE_BACKFILL_BATCH
    && (|batch| < READABLE_BACKFILL_BATCH ==> forall id | id in WorkList(t) :: id in batch)
  }

  function Written(row: Chapter, upstream: seq<Answer>): Chapter {
    var r := ResolveReadableAt(row, Find(upstream, row.externalId));
    if r.answered then row.(readable := Some(r.readable), url := r.url) else row.(readable := Some(r.readable))
  }

  /** The table after a batch: its rows resolved, every other row as it was. */
  function AfterBatch(t: Table, batch: seq<nat>, upstream: seq<Answer>): Table {
    map id | id in t :: if id in batch then Written(t[id], upstream) else t[id]
  }

  /** The clock a reader sees. */
  function EffectiveClock(row: Chapter): string {
    if row.readable.Some? then row.readable.value
    else if row.published.Some? then row.published.value
    else row.created
  }

  /** What one row adds to the batch's counters. */
  function Counted(fill: Fill, found: Option<Attrs>): Fill {
    if found.None? then fill.(filled := fill.filled + 1, unanswered := fill.unanswered + 1)
    else
      Fill(fill.filled + 1,
           fill.fromUpstream + (if found.value.readableAt.Some? then 1 else 0),
           fill.external + (if Present(found.value.externalUrl).Some? then 1 else 0),
           fill.unanswered)
  }

  /** Every row of the batch is in the table. */
  ghost predicate Known(t: Table, batch: seq<nat>) { forall id | id in batch :: id in t }

  lemma BatchIsKnown(t: Table, batch: seq<nat>)
    requires IsBatch(t, batch)
    ensures Known(t, batch)
  {
    assert forall id | id in batch :: id in WorkList(t);
  }

  function FillOf(t: Table, batch: seq<nat>, upstream: seq<Answer>): Fill
    requires Known(t, batch)
  {
    if batch == [] then Fill(0, 0, 0, 0)
    else
      var n := |batch| - 1;
      Counted(FillOf(t, batch[..n], upstream), Find(upstream, t[batch[n]].externalId))
  }

  /** One more row of the batch written into a table that has the rows before it. */
  lemma OneMoreRow(t0: Table, batch: seq<nat>, i: nat, upstream: seq<Answer>, t: Table, fill: Fill)
    requires IsBatch(t0, batch) && i < |batch| && Known(t0, batch)
    requires t == AfterBatch(t0, batch[..i], upstream) && fill == FillOf(t0, batch[..i], upstream)
    ensures batch[i] in t
    ensures AfterBatch(t0, batch[..i + 1], upstream) == t[batch[i] := Written(t[batch[i]], upstream)]
    ensures FillOf(t0, batch[..i + 1], upstream) == Counted(fill, Find(upstream, t[batch[i]].externalId))
  {
    assert batch[i] in batch && batch[i] !in batch[..i];
    assert batch[..i + 1] == batch[..i] + [batch[i]] && batch[..i + 1][..i] == batch[..i];
    assert t[batch[i]] == t0[batch[i]];
  }

  method UpdateChapter(row0: Chapter, upstream: seq<Answer>, fill0: Fill) returns (row: Chapter, fill: Fill)
    ensures row == Written(row0, upstream) && fill == Counted(fill0, Find(upstream, row0.externalId))
  {
    row, fill := row0, fill0;
    var found := Find(upstream, row.externalId);
    var r := ResolveReadableAt(row, found);
    if r.answered {
      row := row.(readable := Some(r.readable), url := r.url);
      if found.value.readableAt.Some? {
        fill := fill.(fromUpstream := fill.fromUpstream + 1);
      }
      if r.url.Some? {
        fill := fill.(external := fill.external + 1);
      }
    } else {
      row := row.(readable := Some(r.readable));
      fill := fill.(unanswered := fill.unanswered + 1);
    }
    fill := fill.(filled := fill.filled + 1);
  }

  /** Write one row of the batch into a table that has the rows before it. */
  method WriteRow(ghost t0: Table, batch: seq<nat>, i: nat, upstream: seq<Answer>, t: Table, fill: Fill)
    returns (after: Table, counted: Fill)
    requires IsBatch(t0, batch) && i < |batch| && Known(t0, batch)
    requires (t, fill) == SoFar(t0, batch, i, upstream)
    ensures (after, counted) == SoFar(t0, batch, i + 1, upstream)
  {
    OneMoreRow(t0, batch, i, upstream, t, fill);
    var row;
    row, counted := UpdateChapter(t[batch[i]], upstream, fill);
    after := t[batch[i] := row];
  }

  /** The table and the counters once the first `i` rows of the batch are written. */
  ghost function SoFar(t: Table, batch: seq<nat>, i: nat, upstream: seq<Answer>): (Table, Fill)
    requires Known(t, batch) && i <= |batch|
  {
    (AfterBatch(t, batch[..i], upstream), FillOf(t, batch[..i], upstream))
  }

  lemma AllSoFar(t: Table, batch: seq<nat>, upstream: seq<Answer>)
    requires Known(t, batch)
    ensures SoFar(t, batch, 0, upstream) == (t, Fill(0, 0, 0, 0))
    ensures SoFar(t, batch, |batch|, upstream) == (AfterBatch(t, batch, upstream), FillOf(t, batch, upstream))
  {
    assert batch[..|batch|] == batch && batch[..0] == [];
    assert AfterBatch(t, [], upstream) == t;
  }

  method WriteReadableBackfill(t0: Table, batch: seq<nat>, upstream: seq<Answer>) returns (t: Table, fill: Fill)
    requires IsBatch(t0, batch)
    ensures Known(t0, batch) && (t, fill) == (AfterBatch(t0, batch, upstream), FillOf(t0, batch, upstream))
  {
    BatchIsKnown(t0, batch);
    AllSoFar(t0, batch, upstream);
    t, fill := t0, Fill(0, 0, 0, 0);
    for i := 0 to |batch|
      invariant (t, fill) == SoFar(t0, batch, i, upstream)
    {
      t, fill := WriteRow(t0, batch, i, upstream, t, fill);
    }
  }

  /** The rows of a batch for which what upstream answered has a property. */
  function Rows(t: Table, batch: seq<nat>, upstream: seq<Answer>, p: Option<Attrs> -> bool): set<nat> {
    set id | id in batch && id in t && p(Find(upstream, t[id].externalId))
  }

  predicate Supplied(found: Option<Attrs>) { found.Some? && found.value.readableAt.Some? }

  predicate Dated(found: Option<Attrs>) { found.Some? && Present(found.value.readableAt).Some? }

  predicate Linked(found: Option<Attrs>) { found.Some? && Present(found.value.externalUrl).Some? }

  predicate Unanswered(found: Option<Attrs>) { found.None? }

  ghost predicate Distinct(batch: seq<nat>) { forall i, j | 0 <= i < j < |batch| :: batch[i] != batch[j] }

  lemma RowsGrow(t: Table, batch: seq<nat>, upstream: seq<Answer>, p: Option<Attrs> -> bool)
    requires batch != [] && Distinct(batch) && Known(t, batch)
    ensures var (front, last) := (batch[..|batch| - 1], batch[|batch| - 1]);
            |Rows(t, batch, upstream, p)|
            == |Rows(t, front, upstream, p)| + if p(Find(upstream, t[last].externalId)) then 1 else 0
  {
    var (front, last) := (batch[..|batch| - 1], batch[|batch| - 1]);
    assert batch == front + [last] && last !in front;
    var more := if p(Find(upstream, t[last].externalId)) then {last} else {};
    assert Rows(t, batch, upstream, p) == Rows(t, front, upstream, p) + more;
    assert last !in Rows(t, front, upstream, p);
  }

  /** Each counter is the number of the batch's rows it speaks of. */
  lemma {:induction false} FillCounts(t: Table, batch: seq<nat>, upstream: seq<Answer>)
    requires Distinct(batch) && Known(t, batch)
    ensures var f := FillOf(t, batch, upstream);
            && f.filled == |batch|
            && f.fromUpstream == |Rows(t, batch, upstream, Supplied)|
            && f.external == |Rows(t, batch, upstream, Linked)|
            && f.unanswered == |Rows(t, batch, upstream, Unanswered)|
  {
    if batch == [] {
      assert Rows(t, [], upstream, Supplied) == Rows(t, [], upstream, Linked) == Rows(t, [], upstream, Unanswered) == {};
    } else {
      FillCounts(t, batch[..|batch| - 1], upstream);
      RowsGrow(t, batch, upstream, Supplied);
      RowsGrow(t, batch, upstream, Linked);
      RowsGrow(t, batch, upstream, Unanswered);
    }
  }

  /** An answered row whose readable date is there and blank. */
  ghost predicate BlankAnswer(t: Table, upstream: seq<Answer>, id: nat)
    requires id in t
  {
    var found := Find(upstream, t[id].externalId);
    Supplied(found) && !Dated(found)
  }

  lemma SubsetsByCount(a: set<nat>, b: set<nat>)
    requires a <= b
    ensures |a| <= |b| && (|a| == |b| <==> a == b)
  {
    assert b == a + (b - a);
  }

  lemma DatedAmongSupplied(t: Table, batch: seq<nat>, upstream: seq<Answer>)
    requires Known(t, batch)
    ensures Rows(t, batch, upstream, Dated) <= Rows(t, batch, upstream, Supplied)
    ensures Rows(t, batch, upstream, Dated) == Rows(t, batch, upstream, Supplied)
       <==> forall id | id in batch :: !BlankAnswer(t, upstream, id)
  {
    var dated, supplied := Rows(t, batch, upstream, Dated), Rows(t, batch, upstream, Supplied);
    forall id | id in batch ensures BlankAnswer(t, upstream, id) <==> id in supplied && id !in dated {}
  }

  /**
   * The rows said to be dated by upstream are as many as those given upstream's readable date
   * exactly when no row was answered with a blank one; otherwise they are more.
   */
  lemma BlankDateCountsAsSupplied(t: Table, batch: seq<nat>, upstream: seq<Answer>)
    requires Distinct(batch) && Known(t, batch)
    ensures FillOf(t, batch, upstream).fromUpstream >= |Rows(t, batch, upstream, Dated)|
    ensures FillOf(t, batch, upstream).fromUpstream == |Rows(t, batch, upstream, Dated)|
       <==> forall id | id in batch :: !BlankAnswer(t, upstream, id)
  {
    FillCounts(t, batch, upstream);
    DatedAmongSupplied(t, batch, upstream);
    SubsetsByCount(Rows(t, batch, upstream, Dated), Rows(t, batch, upstream, Supplied));
  }

  /** The rows counted on the right are those that are given upstream's readable date. */
  lemma DatedRowsGetTheDate(t: Table, batch: seq<nat>, upstream: seq<Answer>, id: nat)
    requires id in batch && id in t
    ensures id in Rows(t, batch, upstream, Dated) ==>
              AfterBatch(t, batch, upstream)[id].readable == Present(Find(upstream, t[id].externalId).value.readableAt)
  {
  }

  /** One row answered with a blank date is counted as dated by upstream and given its own. */
  lemma BlankDateOfOneRow()
    ensures var row := Chapter("c", true, Some("d"), "e", None, None);
            var upstream := [Answer("c", Attrs(Some(""), None, None))];
            && FillOf(map[0 := row], [0], upstream).fromUpstream == 1
            && AfterBatch(map[0 := row], [0], upstream)[0].readable == Some("d")
  {
    var upstream := [Answer("c", Attrs(Some(""), None, None))];
    assert [0][..0] == [] && Find(upstream, "c") == Some(Attrs(Some(""), None, None));
    TrimTight("d");
  }

  function Ids(batch: seq<nat>): set<nat> {
    if batch == [] then {} else Ids(batch[..|batch| - 1]) + {batch[|batch| - 1]}
  }

  lemma {:induction false} IdsMembers(batch: seq<nat>)
    ensures forall id :: id in Ids(batch) <==> id in batch
    ensures (forall i, j | 0 <= i < j < |batch| :: batch[i] != batch[j]) ==> |Ids(batch)| == |batch|
  {
    if batch != [] {
      var n := |batch| - 1;
      IdsMembers(batch[..n]);
      assert batch == batch[..n] + [batch[n]];
      if forall i, j | 0 <= i < j < |batch| :: batch[i] != batch[j] {
        assert batch[n] !in batch[..n];
      }
    }
  }

  lemma BatchRows(t: Table, batch: seq<nat>, upstream: seq<Answer>, id: nat)
    requires IsBatch(t, batch)
    ensures id in WorkList(AfterBatch(t, batch, upstream)) <==> id in WorkList(t) && id !in batch
  {
  }

  lemma Remaining(before: set<nat>, rows: set<nat>)
    requires rows <= before
    ensures |before - rows| == |before| - |rows|
  {
  }

  /** A batch takes exactly its rows off the work-list, whatever upstream answered. */
  lemma BatchLeavesWorkList(t: Table, batch: seq<nat>, upstream: seq<Answer>)
    requires IsBatch(t, batch)
    ensures WorkList(AfterBatch(t, batch, upstream)) == WorkList(t) - Ids(batch)
    ensures |WorkList(AfterBatch(t, batch, upstream))| == |WorkList(t)| - |batch|
  {
    IdsMembers(batch);
    forall id
      ensures id in WorkList(AfterBatch(t, batch, upstream)) <==> id in WorkList(t) - Ids(batch)
    {
      BatchRows(t, batch, upstream, id);
    }
    forall id | id in Ids(batch)
      ensures id in WorkList(t)
    {
      var i :| 0 <= i < |batch| && batch[i] == id;
    }
    Remaining(WorkList(t), Ids(batch));
  }

  /** What a batch leaves alone: other rows, rows of other sources, and the URL of every row
      upstream said nothing about. */
  lemma BatchFrame(t: Table, batch: seq<nat>, upstream: seq<Answer>, id: nat)
    requires IsBatch(t, batch) && id in t
    ensures var t' := AfterBatch(t, batch, upstream);
            && t'.Keys == t.Keys
            && (id !in batch || !t[id].mangadex ==> t'[id] == t[id])
            && (Find(upstream, t[id].externalId).None? ==> t'[id].url == t[id].url)
            && (t[id].readable.Some? ==> t'[id] == t[id])
  {
  }

  /** For a row upstream said nothing about, the clock a reader sees changes exactly when its
      stored date is padded with space, or is blank and not the creation date. */
  lemma UnansweredClock(t: Table, batch: seq<nat>, upstream: seq<Answer>, id: nat)
    requires IsBatch(t, batch) && id in batch && Find(upstream, t[id].externalId).None?
    ensures EffectiveClock(AfterBatch(t, batch, upstream)[id]) == EffectiveClock(t[id])
       <==> || t[id].published.None?
            || (Trim(t[id].published.value) != "" && Trim(t[id].published.value) == t[id].published.value)
            || (Trim(t[id].published.value) == "" && t[id].published.value == t[id].created)
  {
    assert batch[0] in WorkList(t);
  }

  /** An answer with a usable date gives the row that date: the readable one before the published. */
  lemma AnsweredClock(t: Table, batch: seq<nat>, upstream: seq<Answer>, id: nat)
    requires IsBatch(t, batch) && id in batch && Find(upstream, t[id].externalId).Some?
    ensures var a := Find(upstream, t[id].externalId).value;
            var row := AfterBatch(t, batch, upstream)[id];
            && (Present(a.readableAt).Some? ==> row.readable == Present(a.readableAt))
            && (Present(a.readableAt).None? && Present(a.publishAt).Some? ==> row.readable == Present(a.publishAt))
            && row.url == Present(a.externalUrl)
  {
  }

  /** A pass over the work-list: upstream fails and nothing is written, or a batch is. */
  datatype Pass = FetchFailed | Batch(rows: seq<nat>, upstream: seq<Answer>)

  ghost predicate Allowed(t: Table, passes: seq<Pass>) {
    passes == []
    || (Allowed(t, passes[..|passes| - 1])
        && (passes[|passes| - 1].Batch? ==>
              IsBatch(Drained(t, passes[..|passes| - 1]), passes[|passes| - 1].rows)))
  }

  function Drained(t: Table, passes: seq<Pass>): Table {
    if passes == [] then t
    else
      var before := Drained(t, passes[..|passes| - 1]);
      match passes[|passes| - 1]
      case FetchFailed => before
      case Batch(rows, upstream) => AfterBatch(before, rows, upstream)
  }

  function Batches(passes: seq<Pass>): nat {
    if passes == [] then 0
    else Batches(passes[..|passes| - 1]) + if passes[|passes| - 1].Batch? then 1 else 0
  }

  /** Every batch that is written takes a hundred rows off the list or empties it, so the drain ends
      after one batch per hundred waiting rows, and failed fetches lose nothing. */
  lemma {:induction false} DrainTerminates(t: Table, passes: seq<Pass>)
    requires Allowed(t, passes)
    ensures |WorkList(Drained(t, passes))| + 100 * Batches(passes) <= |WorkList(t)|
            || WorkList(Drained(t, passes)) == {}
    ensures 100 * Batches(passes) >= |WorkList(t)| ==> WorkList(Drained(t, passes)) == {}
  {
    if passes != [] {
      var before := passes[..|passes| - 1];
      DrainTerminates(t, before);
      var mid := Drained(t, before);
      var last := passes[|passes| - 1];
      if last.Batch? {
        BatchLeavesWorkList(mid, last.rows, last.upstream);
        if |last.rows| < READABLE_BACKFILL_BATCH {
          assert forall id | id in WorkList(mid) :: id in last.rows;
        }
      }
    }
  }
}
