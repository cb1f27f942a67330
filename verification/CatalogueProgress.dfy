/** What a catalogue sweep does bring: what each page comes to, what is checkpointed, and that a good world latches the seed. */
module CatalogueProgress {
  import opened Wrappers
  import opened Upstream
  import opened CatalogueSweep
  import opened CatalogueSync
  import opened CatalogueCycles

  // ---- one page --------------------------------------------------------------------------

  function Landing(fates: seq<Fate>, lands: bool): set<nat> { set i: nat | i < |fates| && fates[i].Parsed? && fates[i].done == lands }

  lemma LandingGrows(fates: seq<Fate>, lands: bool)
    requires fates != []
    ensures var (n, f) := (|fates| - 1, fates[|fates| - 1]);
            |Landing(fates, lands)| == |Landing(fates[..n], lands)| + if f.Parsed? && f.done == lands then 1 else 0
  {
    var (n, f) := (|fates| - 1, fates[|fates| - 1]);
    assert Landing(fates, lands) == Landing(fates[..n], lands) + if f.Parsed? && f.done == lands then {n} else {};
  }

  /** A page upserts exactly the parsed records whose write lands, and counts those and the failed ones. */
  lemma {:induction false} PageUpserts(page: seq<Record>, fates: seq<Fate>, t: Tally, id: nat)
    requires |page| == |fates|
    ensures var r := TakePage(page, fates, t);
            && r.out.upserted == t.out.upserted + |Landing(fates, true)|
            && r.out.failed == t.out.failed + |Landing(fates, false)|
            && r.out.dropped == t.out.dropped
            && (id in r.spine <==> id in t.spine || exists i :: i in Landing(fates, true) && page[i].id == id)
  {
    if page == [] {
      assert Landing(fates, true) == {} == Landing(fates, false);
    } else {
      var n := |page| - 1;
      PageUpserts(page[..n], fates[..n], t, id);
      LandingGrows(fates, true);
      LandingGrows(fates, false);
      forall i | i in Landing(fates, true) && i < n ensures i in Landing(fates[..n], true) && page[..n][i] == page[i] {}
      forall i | i in Landing(fates[..n], true) ensures i in Landing(fates, true) && page[..n][i] == page[i] {}
    }
  }

  /** The last stamp of a page is that of its last parsed record that shows one, written or not. */
  lemma {:induction false} PageStampIs(page: seq<Record>, fates: seq<Fate>, t: Tally, i: nat)
    requires |page| == |fates| && i < |page| && fates[i].Parsed? && !fates[i].shows.Absent?
    requires forall j | i < j < |page| :: fates[j].Unparsed? || fates[j].shows.Absent?
    ensures TakePage(page, fates, t).last == if fates[i].shows.Shown? then At(page[i].second) else Unreadable
  {
    var n := |page| - 1;
    if i < n { PageStampIs(page[..n], fates[..n], t, i); }
  }

  /** While seeding, a page's checkpoint stores its last second exactly when the write lands and the stamp reads; else the row stays. */
  lemma PageCheckpoints(p: Sweep, page: seq<Record>, fates: seq<Fate>, seeding: bool, saved: bool)
    requires |page| == |fates|
    ensures var r := AfterPage(p, page, fates, seeding, saved);
            r.row == if seeding && saved && r.last.At? then Some(r.last.second) else p.row
  {
  }

  /** And so does a window's end, with the second where the next one opens. */
  lemma CloseCheckpoints(p: Sweep, seeding: bool, slideSaved: bool)
    requires p.last.At?
    ensures var r := CloseWindow(p, seeding, slideSaved);
            var next := if p.since == Some(p.last.second) then p.last.second + 1 else p.last.second;
            && r.since == Some(next) && r.offset == 0 && r.last.Missing? && r.empties == 0 && r.status.Walking?
            && r.row == if seeding && slideSaved then Some(next) else p.row
  {
  }

  /** What a seeding cycle leaves: its walk's spine, and the latch exactly when the walk ended, lost nothing, and the write lands. */
  lemma SeedCycleLeaves(created: seq<Record>, updated: seq<Record>, job: Job, c: Cycle)
    requires !job.seedDone
    ensures var (p, after) := (SeedWalk(created, job, c.turns), OneCycle(created, updated, job, c));
            && after.spine == p.spine
            && (after.seedDone <==> p.status.Ended? && p.out.dropped == 0 && p.out.failed == 0 && c.lands)
            && after.row == if after.seedDone then Some(c.runStart) else p.row
  {
  }

  // ---- a good world ------------------------------------------------------------------------

  /** A page comes, and everything on it parses, shows its time and is written. */
  predicate Good(t: Turn) {
    t.Page? && t.fates != [] && forall f | f in t.fates :: f == Parsed(Shown, true)
  }

  /** A sweep that has lost nothing and ends at the end of upstream only. */
  ghost predicate Thriving(up: seq<Record>, p: Sweep) {
    && Pos(up, p) <= |up| && p.empties == 0 && p.out.failed == p.out.dropped == 0
    && (p.status.Walking? ==> p.offset < WINDOW_OFFSET_CAP)
    && !p.status.Aborted? && (p.status.Ended? ==> p.status.how.Exhausted?)
  }

  lemma {:induction false} GoodPage(page: seq<Record>, fates: seq<Fate>, t: Tally)
    requires |page| == |fates| && forall f | f in fates :: f == Parsed(Shown, true)
    ensures var r := TakePage(page, fates, t);
            r.out.failed == t.out.failed && r.out.dropped == t.out.dropped && (page != [] ==> r.last.At?)
  {
    if page != [] {
      var n := |page| - 1;
      assert fates[n] in fates && forall f | f in fates[..n] :: f in fates;
      GoodPage(page[..n], fates[..n], t);
    }
  }

  lemma GoodTaken(up: seq<Record>, r: Sweep, seeding: bool, slideSaved: bool)
    requires Thriving(up, r.(offset := 0)) && r.status.Walking? && Pos(up, r) <= |up| && r.last.At?
    ensures Thriving(up, PageTaken(r, |up| - Start(up, r.since), seeding, slideSaved))
  {
    if r.offset < |up| - Start(up, r.since) && r.offset >= WINDOW_OFFSET_CAP { CloseCheckpoints(r, seeding, slideSaved); }
  }

  lemma GoodStep(up: seq<Record>, p: Sweep, seeding: bool, t: Turn)
    requires Thriving(up, p) && Good(t)
    ensures Thriving(up, Step(up, p, seeding, t))
  {
    if p.status.Walking? {
      var page := Served(up, p.since, p.offset, |t.fates|);
      var fates := t.fates[..|page|];
      assert forall f | f in fates :: f in t.fates;
      if page != [] {
        GoodPage(page, fates, Tally(p.spine, p.last, p.out.(dropped := p.out.dropped + Drops(fates))));
        GoodTaken(up, AfterPage(p, page, fates, seeding, t.saved), seeding, t.slideSaved);
        PageStepIs(up, p, seeding, t, page);
      }
    }
  }

  lemma {:induction false} GoodRun(up: seq<Record>, p: Sweep, seeding: bool, turns: seq<Turn>)
    requires Thriving(up, p) && forall t | t in turns :: Good(t)
    ensures Thriving(up, Run(up, p, seeding, turns))
  {
    if turns != [] {
      GoodRun(up, p, seeding, turns[..|turns| - 1]);
      assert turns[|turns| - 1] in turns;
      GoodStep(up, Run(up, p, seeding, turns[..|turns| - 1]), seeding, turns[|turns| - 1]);
    }
  }

  /** In a good world a seed comes to the end of upstream within a bound known at its start, and the cycle latches it. */
  lemma GoodSeedLatches(created: seq<Record>, updated: seq<Record>, job: Job, runStart: nat, env: nat -> Turn) returns (n: nat)
    requires Sorted(created) && !job.seedDone && forall k :: Good(env(k))
    ensures n <= Requests(created, Begin(job.spine, job.row))
    ensures var after := OneCycle(created, updated, job, Cycle(Script(env, n), runStart, true));
            after.seedDone && after.row == Some(runStart)
            && SeedWalk(created, job, Script(env, n)).status == Ended(Exhausted)
  {
    var p := Begin(job.spine, job.row);
    assert Script(env, 0) == [];
    n := SweepEnds(created, job.spine, job.row, true, env, 0);
    GoodScript(env, n);
    GoodRun(created, p, true, Script(env, n));
  }

  lemma GoodScript(env: nat -> Turn, n: nat)
    requires forall k :: Good(env(k))
    ensures forall t | t in Script(env, n) :: Good(t)
  {
    forall t | t in Script(env, n) ensures Good(t) { var i :| 0 <= i < n && Script(env, n)[i] == t; }
  }

  /** So does a cycle after the seed: it upserts every change from the stored second on, up to the cap, and moves on. */
  lemma GoodRoundMoves(created: seq<Record>, updated: seq<Record>, job: Job, runStart: nat, env: nat -> Turn) returns (n: nat)
    requires Sorted(updated) && job.seedDone && forall k :: Good(env(k))
    ensures n <= Requests(updated, Begin(job.spine, job.row))
    ensures var after := OneCycle(created, updated, job, Cycle(Script(env, n), runStart, true));
            && after.row == Some(runStart)
            && AllLanded(updated, after.spine, Start(updated, job.row), |updated|)
  {
    var p := Begin(job.spine, job.row);
    assert Script(env, 0) == [];
    n := SweepEnds(updated, job.spine, job.row, false, env, 0);
    GoodScript(env, n);
    GoodRun(updated, p, false, Script(env, n));
    RunSound(updated, job.spine, job.row, false, Script(env, n));
  }
}
