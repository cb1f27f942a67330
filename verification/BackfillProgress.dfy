/** What a pass does bring: what each record and page come to, and that a good world ends in the marker. */
module BackfillProgress {
  import opened Wrappers
  import opened Upstream
  import opened Backfill
  import opened BackfillSafety
  import opened BackfillPasses
  import opened BackfillTermination
  import opened BackfillAnswers

  // ---- one page --------------------------------------------------------------------------

  /** The record parsed, its presence check answered, and its write, if it needed one, landed. */
  predicate Upserts(f: Fate) { f.Parsed? && f.done.readOk && f.done.writeOk }

  /** After a page the spine has what it had and the records whose check and write succeeded. */
  lemma {:induction false} PageIngests(page: seq<Record>, fates: seq<Fate>, t: Tally, id: nat)
    requires |page| == |fates|
    ensures id in TakePage(page, fates, t).spine
       <==> id in t.spine || exists i :: 0 <= i < |page| && page[i].id == id && Upserts(fates[i])
  {
    if page != [] {
      var n := |page| - 1;
      PageIngests(page[..n], fates[..n], t, id);
      if i :| 0 <= i < n && page[..n][i].id == id && Upserts(fates[..n][i]) { assert page[i].id == id && Upserts(fates[i]); }
      if i :| 0 <= i < |page| && page[i].id == id && Upserts(fates[i]) {
        if i < n { assert page[..n][i].id == id && Upserts(fates[..n][i]); }
      }
    }
  }

  /** What is there already when the loop comes to record `i`. */
  function Before(page: seq<Record>, fates: seq<Fate>, t: Tally, i: nat): set<nat>
    requires i <= |page| == |fates|
  {
    TakePage(page[..i], fates[..i], t).spine
  }

  /** The records that fail: the check did, or a write did that was tried. */
  predicate FailsAt(page: seq<Record>, fates: seq<Fate>, t: Tally, i: nat)
    requires i < |page| == |fates|
  {
    && fates[i].Parsed?
    && var (done, present) := (fates[i].done, page[i].id in Before(page, fates, t, i));
       !done.readOk || (!done.writeOk && (present ==> done.hasTags))
  }

  predicate TagsAt(page: seq<Record>, fates: seq<Fate>, t: Tally, i: nat)
    requires i < |page| == |fates|
  {
    Upserts(fates[i]) && fates[i].done.hasTags && page[i].id in Before(page, fates, t, i)
  }

  predicate IngestsAt(page: seq<Record>, fates: seq<Fate>, t: Tally, i: nat)
    requires i < |page| == |fates|
  {
    Upserts(fates[i]) && page[i].id !in Before(page, fates, t, i)
  }

  function Failing(page: seq<Record>, fates: seq<Fate>, t: Tally): set<nat>
    requires |page| == |fates|
  {
    set i: nat | i < |page| && FailsAt(page, fates, t, i)
  }

  function Tagging(page: seq<Record>, fates: seq<Fate>, t: Tally): set<nat>
    requires |page| == |fates|
  {
    set i: nat | i < |page| && TagsAt(page, fates, t, i)
  }

  function Ingesting(page: seq<Record>, fates: seq<Fate>, t: Tally): set<nat>
    requires |page| == |fates|
  {
    set i: nat | i < |page| && IngestsAt(page, fates, t, i)
  }

  /** What was there before a record does not depend on those behind it. */
  lemma SameBefore(page: seq<Record>, fates: seq<Fate>, t: Tally, n: nat, i: nat)
    requires |page| == |fates| == n + 1 && i < n
    ensures Before(page[..n], fates[..n], t, i) == Before(page, fates, t, i)
  {
    assert page[..n][..i] == page[..i] && fates[..n][..i] == fates[..i];
  }

  lemma Grown(small: set<nat>, large: set<nat>, n: nat, more: bool)
    requires n !in small && large == small + if more then {n} else {}
    ensures |large| == |small| + if more then 1 else 0
  {
  }

  lemma OneMoreRecord(page: seq<Record>, fates: seq<Fate>, t: Tally, n: nat)
    requires |page| == |fates| == n + 1
    ensures Failing(page, fates, t) == Failing(page[..n], fates[..n], t) + if FailsAt(page, fates, t, n) then {n} else {}
    ensures Tagging(page, fates, t) == Tagging(page[..n], fates[..n], t) + if TagsAt(page, fates, t, n) then {n} else {}
    ensures Ingesting(page, fates, t) == Ingesting(page[..n], fates[..n], t) + if IngestsAt(page, fates, t, n) then {n} else {}
    ensures n !in Failing(page[..n], fates[..n], t) && n !in Tagging(page[..n], fates[..n], t) && n !in Ingesting(page[..n], fates[..n], t)
  {
    forall i: nat | i < n ensures Before(page[..n], fates[..n], t, i) == Before(page, fates, t, i) { SameBefore(page, fates, t, n, i); }
  }

  lemma OneMoreCounts(page: seq<Record>, fates: seq<Fate>, t: Tally, n: nat)
    requires |page| == |fates| == n + 1
    ensures |Failing(page, fates, t)| == |Failing(page[..n], fates[..n], t)| + if FailsAt(page, fates, t, n) then 1 else 0
    ensures |Tagging(page, fates, t)| == |Tagging(page[..n], fates[..n], t)| + if TagsAt(page, fates, t, n) then 1 else 0
    ensures |Ingesting(page, fates, t)| == |Ingesting(page[..n], fates[..n], t)| + if IngestsAt(page, fates, t, n) then 1 else 0
  {
    OneMoreRecord(page, fates, t, n);
    Grown(Failing(page[..n], fates[..n], t), Failing(page, fates, t), n, FailsAt(page, fates, t, n));
    Grown(Tagging(page[..n], fates[..n], t), Tagging(page, fates, t), n, TagsAt(page, fates, t, n));
    Grown(Ingesting(page[..n], fates[..n], t), Ingesting(page, fates, t), n, IngestsAt(page, fates, t, n));
  }

  /** Each counter counts its records: every parsed one is scanned, and then present, ingested, refreshed or failed. */
  lemma {:induction false} PageCountersAre(page: seq<Record>, fates: seq<Fate>, t: Tally)
    requires |page| == |fates|
    ensures var out := TakePage(page, fates, t).out;
            && out.ingested == t.out.ingested + |Ingesting(page, fates, t)|
            && out.tagged == t.out.tagged + |Tagging(page, fates, t)|
            && out.failed == t.out.failed + |Failing(page, fates, t)|
            && out.truncated == t.out.truncated && out.complete == t.out.complete
  {
    if page != [] {
      var n := |page| - 1;
      PageCountersAre(page[..n], fates[..n], t);
      OneMoreCounts(page, fates, t, n);
      assert TakePage(page, fates, t) == TakeRecord(page[n], fates[n], TakePage(page[..n], fates[..n], t));
    }
  }

  /** The last stamp of a page is that of its last parsed record that shows one. */
  lemma {:induction false} PageStampIs(page: seq<Record>, fates: seq<Fate>, t: Tally, i: nat)
    requires |page| == |fates| && i < |page| && fates[i].Parsed? && !fates[i].shows.Absent?
    requires forall j | i < j < |page| :: fates[j].Unparsed? || fates[j].shows.Absent?
    ensures TakePage(page, fates, t).last == if fates[i].shows.Shown? then At(page[i].second) else Unreadable
  {
    var n := |page| - 1;
    if i < n { PageStampIs(page[..n], fates[..n], t, i); }
  }

  /** A page's checkpoint: the stored cursor is the last stamp's second exactly when the write lands and the stamp reads. */
  lemma PageCheckpoints(p: Pass, page: seq<Record>, fates: seq<Fate>, saved: bool)
    requires |page| == |fates|
    ensures var r := AfterPage(p, page, fates, saved);
            r.store.cursor == if saved && r.last.At? then Some(r.last.second) else p.store.cursor
  {
  }

  /** A window's end that opens another checkpoints where that one starts, exactly when the write lands. */
  lemma CloseCheckpoints(p: Pass, t: Turn)
    requires p.last.At?
    ensures var r := CloseWindow(p, t);
            var next := if p.since == Some(p.last.second) then p.last.second + 1 else p.last.second;
            && r.since == Some(next) && r.offset == 0 && r.last.Missing? && r.empties == r.errs == 0
            && r.store.cursor == (if t.slideSaved then Some(next) else p.store.cursor)
            && (r.status.Finished? <==> t.slideSpent) && (r.status.Walking? <==> !t.slideSpent)
  {
  }

  // ---- a good world ------------------------------------------------------------------------

  /** A page comes, everything on it parses, shows its time and is read and written, and the budget holds. */
  predicate Good(t: Turn) {
    && t.reply.Page? && t.reply.fates != [] && !t.spent && !t.slideSpent
    && forall f | f in t.reply.fates :: Upserts(f) && f.shows.Shown?
  }

  predicate AllGood(turns: seq<Turn>) { forall t | t in turns :: Good(t) }

  /** A walk that has lost nothing and ends at the end of upstream only. */
  ghost predicate Thriving(up: seq<Record>, p: Pass) {
    && Pos(up, p) <= |up| && p.errs == p.empties == 0
    && p.out.failed == p.out.truncated == p.out.dropped == 0
    && (p.status.Walking? ==> p.offset < WINDOW_OFFSET_CAP)
    && !p.status.Aborted? && (p.status.Finished? ==> p.out.complete)
  }

  lemma {:induction false} GoodPage(page: seq<Record>, fates: seq<Fate>, t: Tally)
    requires |page| == |fates| && forall f | f in fates :: Upserts(f) && f.shows.Shown?
    ensures var r := TakePage(page, fates, t);
            && r.out.failed == t.out.failed && r.out.truncated == t.out.truncated && r.out.dropped == t.out.dropped
            && (page != [] ==> r.last.At?)
  {
    if page != [] {
      var n := |page| - 1;
      assert fates[n] in fates;
      GoodPage(page[..n], fates[..n], t);
    }
  }

  lemma GoodStep(up: seq<Record>, p: Pass, t: Turn)
    requires Thriving(up, p) && Good(t)
    ensures Thriving(up, Step(up, p, t))
  {
    if p.status.Walking? {
      var page := Served(up, p.since, p.offset, |t.reply.fates|);
      var fates := t.reply.fates[..|page|];
      assert forall f | f in fates :: f in t.reply.fates;
      if page != [] {
        GoodPage(page, fates, Tally(p.store.spine, p.last, p.out.(dropped := p.out.dropped + Drops(fates))));
        GoodTaken(up, AfterPage(p, page, fates, t.saved), t);
        PageStepIs(up, p, t, page);
      }
    }
  }

  lemma GoodTaken(up: seq<Record>, r: Pass, t: Turn)
    requires Thriving(up, r.(offset := 0)) && r.status.Walking? && Pos(up, r) <= |up|
    requires r.last.At? && !t.spent && !t.slideSpent
    ensures Thriving(up, PageTaken(r, |up| - Start(up, r.since), t))
  {
    if r.offset < |up| - Start(up, r.since) && r.offset >= WINDOW_OFFSET_CAP { CloseCheckpoints(r, t); }
  }

  lemma {:induction false} GoodRun(up: seq<Record>, p: Pass, turns: seq<Turn>)
    requires Thriving(up, p) && AllGood(turns)
    ensures Thriving(up, Run(up, p, turns))
  {
    if turns != [] {
      GoodRun(up, p, turns[..|turns| - 1]);
      assert turns[|turns| - 1] in turns;
      GoodStep(up, Run(up, p, turns[..|turns| - 1]), turns[|turns| - 1]);
    }
  }

  /**
   * In a good world a pass that is let in comes to the end of upstream within a bound known at its start,
   * says stop, and sets the marker.
   */
  lemma GoodPassLatches(up: seq<Record>, store: Store, cursorRead: bool, env: nat -> Turn) returns (n: nat)
    requires Sorted(up) && !store.marked && forall k :: Good(env(k))
    ensures n <= Requests(up, Begin(store, cursorRead))
    ensures var (after, answer) := RunPass(up, store, Event(true, true, true, cursorRead, Script(env, 0, n), true, true, true));
            answer.Stop? && after.marked
  {
    var p := Begin(store, cursorRead);
    n := PassEnds(up, p, env, 0);
    var turns := Script(env, 0, n);
    forall t | t in turns ensures Good(t) { var i :| 0 <= i < |turns| && turns[i] == t; assert turns[i] == env(0 + i); }
    GoodRun(up, p, turns);
  }
}
