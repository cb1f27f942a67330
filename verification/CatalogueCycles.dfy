/** Any sequence of seed cycles, stops and errors included: when a latched seed has everything. */
module CatalogueCycles {
  import opened Wrappers
  import opened Upstream
  import opened CatalogueSweep

  // ---- what a sweep is handed ------------------------------------------------------------

  /** The records one turn hands over, parsed or not. */
  function HandedAt(up: seq<Record>, p: Sweep, t: Turn): set<nat>
    requires Pos(up, p) <= |up|
  {
    if p.status.Walking? && t.Page? then IdsOf(Served(up, p.since, p.offset, |t.fates|)) else {}
  }

  function Handed(up: seq<Record>, p: Sweep, turns: seq<Turn>): set<nat>
    requires Pos(up, p) <= |up|
  {
    if turns == [] then {}
    else
      var before := turns[..|turns| - 1];
      Handed(up, p, before) + HandedAt(up, Run(up, p, true, before), turns[|turns| - 1])
  }

  /** Everything the seed walked, and everything before the stored row, was handed over or lies past the cap of its second. */
  ghost predicate Walked(up: seq<Record>, p: Sweep, handed: set<nat>) {
    && Pos(up, p) <= |up|
    && (p.status.Walking? ==> p.offset < WINDOW_OFFSET_CAP)
    && (p.status.Ended? ==> (Pos(up, p) == |up| <==> p.status.how.Exhausted?))
    && LastSeen(up, p.since, p.last, Pos(up, p))
    && AllLanded(up, handed, 0, Pos(up, p))
    && AllLanded(up, handed, 0, Start(up, p.row))
  }

  lemma LandedGrows(up: seq<Record>, a: set<nat>, b: set<nat>, n: nat)
    requires a <= b && n <= |up| && AllLanded(up, a, 0, n)
    ensures AllLanded(up, b, 0, n)
  {
    forall i | 0 <= i < n ensures Landed(up, b, i) { assert Landed(up, a, i); }
  }

  /** A page taken extends both prefixes. */
  lemma PageWalked(up: seq<Record>, p: Sweep, page: seq<Record>, fates: seq<Fate>, saved: bool, handed: set<nat>)
    requires Sorted(up) && Walked(up, p, handed) && p.status.Walking? && |page| == |fates| <= PAGE_LIMIT
    requires Pos(up, p) + |page| <= |up| && forall i | 0 <= i < |page| :: page[i] == up[Pos(up, p) + i]
    ensures var r := AfterPage(p, page, fates, true, saved);
            && r.since == p.since && Pos(up, r) == Pos(up, p) + |page| && r.status.Walking?
            && LastSeen(up, r.since, r.last, Pos(up, r))
            && AllLanded(up, handed + IdsOf(page), 0, Pos(up, r))
            && AllLanded(up, handed + IdsOf(page), 0, Start(up, r.row))
  {
    var r, more := AfterPage(p, page, fates, true, saved), handed + IdsOf(page);
    PageLands(page, fates, Tally(p.spine, p.last, p.out.(dropped := p.out.dropped + Drops(fates))));
    if r.last.At? && r.last != p.last {
      var i: nat :| i < |page| && r.last == At(page[i].second);
      assert up[Pos(up, p) + i].second == r.last.second;
    }
    LandedGrows(up, handed, more, Pos(up, p));
    LandedGrows(up, handed, more, Start(up, p.row));
    forall i | Pos(up, p) <= i < Pos(up, r) ensures Landed(up, more, i) {
      assert up[i] == page[i - Pos(up, p)];
    }
    if r.last.At? { LastSeenBounds(up, r.since, r.last, Pos(up, r)); }
  }

  lemma CloseWalked(up: seq<Record>, r: Sweep, slideSaved: bool, handed: set<nat>)
    requires Sorted(up) && r.status.Walking? && Pos(up, r) < |up| && WINDOW_OFFSET_CAP <= r.offset
    requires LastSeen(up, r.since, r.last, Pos(up, r))
    requires AllLanded(up, handed, 0, Pos(up, r)) && AllLanded(up, handed, 0, Start(up, r.row))
    ensures Walked(up, CloseWindow(r, true, slideSaved), handed)
  {
    if r.last.At? { NextWindowLanded(up, 0, r.since, r.offset, r.last, handed); }
  }

  lemma TakenWalked(up: seq<Record>, r: Sweep, slideSaved: bool, handed: set<nat>)
    requires Sorted(up) && r.status.Walking? && Pos(up, r) <= |up| && LastSeen(up, r.since, r.last, Pos(up, r))
    requires AllLanded(up, handed, 0, Pos(up, r)) && AllLanded(up, handed, 0, Start(up, r.row))
    ensures Walked(up, PageTaken(r, |up| - Start(up, r.since), true, slideSaved), handed)
  {
    if Pos(up, r) < |up| && r.offset >= WINDOW_OFFSET_CAP { CloseWalked(up, r, slideSaved, handed); }
  }

  lemma PageStepWalked(up: seq<Record>, p: Sweep, t: Turn, handed: set<nat>, page: seq<Record>)
    requires Sorted(up) && Walked(up, p, handed) && p.status.Walking? && t.Page?
    requires page == Served(up, p.since, p.offset, |t.fates|) != []
    ensures Walked(up, Step(up, p, true, t), handed + HandedAt(up, p, t))
  {
    var fates := t.fates[..|page|];
    PageWalked(up, p, page, fates, t.saved, handed);
    TakenWalked(up, AfterPage(p, page, fates, true, t.saved), t.slideSaved, handed + IdsOf(page));
  }

  /** A turn that hands nothing over stays where it is, or ends the sweep there. */
  lemma NoPageWalked(up: seq<Record>, p: Sweep, t: Turn, handed: set<nat>)
    requires Sorted(up) && Walked(up, p, handed)
    requires p.status.Walking? && t.Page? ==> Served(up, p.since, p.offset, |t.fates|) == []
    ensures Walked(up, Step(up, p, true, t), handed)
  {
  }

  lemma StepWalked(up: seq<Record>, p: Sweep, t: Turn, handed: set<nat>)
    requires Sorted(up) && Walked(up, p, handed)
    ensures Walked(up, Step(up, p, true, t), handed + HandedAt(up, p, t))
  {
    if p.status.Walking? && t.Page? && Served(up, p.since, p.offset, |t.fates|) != [] {
      PageStepWalked(up, p, t, handed, Served(up, p.since, p.offset, |t.fates|));
    } else {
      NoPageWalked(up, p, t, handed);
      assert HandedAt(up, p, t) == {};
      assert handed + {} == handed;
    }
  }

  lemma {:induction false} RunWalked(up: seq<Record>, p: Sweep, turns: seq<Turn>, handed: set<nat>)
    requires Sorted(up) && Walked(up, p, handed)
    ensures Walked(up, Run(up, p, true, turns), handed + Handed(up, p, turns))
  {
    if turns == [] {
      assert handed + {} == handed;
    } else {
      var before, t := turns[..|turns| - 1], turns[|turns| - 1];
      RunWalked(up, p, before, handed);
      StepWalked(up, Run(up, p, true, before), t, handed + Handed(up, p, before));
      assert handed + Handed(up, p, before) + HandedAt(up, Run(up, p, true, before), t) == handed + Handed(up, p, turns);
    }
  }

  // ---- what a sweep brings ---------------------------------------------------------------

  lemma {:induction false} PageBrings(page: seq<Record>, fates: seq<Fate>, t: Tally)
    requires |page| == |fates|
    ensures var r := TakePage(page, fates, t); t.spine <= r.spine <= t.spine + IdsOf(page)
  {
    if page != [] { PageBrings(page[..|page| - 1], fates[..|page| - 1], t); }
  }

  /** A turn brings nothing it was not handed, and all of it unless it counts a loss. */
  lemma StepBrings(up: seq<Record>, p: Sweep, seeding: bool, t: Turn)
    requires Pos(up, p) <= |up|
    ensures var q := Step(up, p, seeding, t);
            && p.spine <= q.spine <= p.spine + HandedAt(up, p, t)
            && (SeedMayLatch(q.out) ==> SeedMayLatch(p.out) && HandedAt(up, p, t) <= q.spine)
  {
    if p.status.Walking? && t.Page? && Served(up, p.since, p.offset, |t.fates|) != [] {
      var page := Served(up, p.since, p.offset, |t.fates|);
      var fates := t.fates[..|page|];
      var tally := Tally(p.spine, p.last, p.out.(dropped := p.out.dropped + Drops(fates)));
      PageBrings(page, fates, tally);
      PageLands(page, fates, tally);
      if SeedMayLatch(TakePage(page, fates, tally).out) {
        forall r | r in page ensures r.id in TakePage(page, fates, tally).spine {
          var i :| 0 <= i < |page| && page[i] == r;
        }
      }
    }
  }

  lemma {:induction false} RunBrings(up: seq<Record>, p: Sweep, turns: seq<Turn>)
    requires Pos(up, p) <= |up|
    ensures var q := Run(up, p, true, turns);
            && p.spine <= q.spine <= p.spine + Handed(up, p, turns)
            && (SeedMayLatch(q.out) ==> SeedMayLatch(p.out) && Handed(up, p, turns) <= q.spine)
  {
    if turns != [] {
      RunBrings(up, p, turns[..|turns| - 1]);
      StepBrings(up, Run(up, p, true, turns[..|turns| - 1]), true, turns[|turns| - 1]);
    }
  }

  lemma TurnHandsUpstream(up: seq<Record>, p: Sweep, t: Turn)
    requires Pos(up, p) <= |up|
    ensures HandedAt(up, p, t) <= IdsOf(up)
  {
    if t.Page? {
      var page := Served(up, p.since, p.offset, |t.fates|);
      forall r | r in page ensures r.id in IdsOf(up) {
        var i :| 0 <= i < |page| && page[i] == r;
        assert up[Pos(up, p) + i] == r;
      }
    }
  }

  lemma {:induction false} RunHandsUpstream(up: seq<Record>, p: Sweep, turns: seq<Turn>)
    requires Pos(up, p) <= |up|
    ensures Handed(up, p, turns) <= IdsOf(up)
  {
    if turns != [] {
      RunHandsUpstream(up, p, turns[..|turns| - 1]);
      TurnHandsUpstream(up, Run(up, p, true, turns[..|turns| - 1]), turns[|turns| - 1]);
    }
  }

  lemma {:induction false} IncrementalKeeps(up: seq<Record>, p: Sweep, turns: seq<Turn>)
    requires Pos(up, p) <= |up|
    ensures p.spine <= Run(up, p, false, turns).spine
  {
    if turns != [] {
      IncrementalKeeps(up, p, turns[..|turns| - 1]);
      StepBrings(up, Run(up, p, false, turns[..|turns| - 1]), false, turns[|turns| - 1]);
    }
  }

  // ---- cycles ----------------------------------------------------------------------------

  /** One cycle: its turns, its starting second, and whether its closing write lands. */
  datatype Cycle = Cycle(turns: seq<Turn>, runStart: nat, lands: bool)

  const FRESH := Job({}, None, false)

  function OneCycle(created: seq<Record>, updated: seq<Record>, job: Job, c: Cycle): Job {
    RunCycle(created, updated, job, c.turns, c.runStart, c.lands)
  }

  /** The job after some cycles, each of which may end, err or die with its process. */
  function Cycles(created: seq<Record>, updated: seq<Record>, cs: seq<Cycle>): Job {
    if cs == [] then FRESH else OneCycle(created, updated, Cycles(created, updated, cs[..|cs| - 1]), cs[|cs| - 1])
  }

  function HandedIn(created: seq<Record>, job: Job, c: Cycle): set<nat> {
    if job.seedDone then {} else Handed(created, Begin(job.spine, job.row), c.turns)
  }

  /** The records any seeding cycle was handed. */
  function EverHanded(created: seq<Record>, updated: seq<Record>, cs: seq<Cycle>): set<nat> {
    if cs == [] then {}
    else EverHanded(created, updated, cs[..|cs| - 1])
         + HandedIn(created, Cycles(created, updated, cs[..|cs| - 1]), cs[|cs| - 1])
  }

  /** The cycle that latched the seed had exhausted upstream: it believed no empty page and did not get stuck. */
  ghost predicate LatchedExhausted(created: seq<Record>, updated: seq<Record>, cs: seq<Cycle>) {
    cs == []
    || (LatchedExhausted(created, updated, cs[..|cs| - 1])
        && var (job, c) := (Cycles(created, updated, cs[..|cs| - 1]), cs[|cs| - 1]);
           !job.seedDone && OneCycle(created, updated, job, c).seedDone ==>
             SeedWalk(created, job, c.turns).status == Ended(Exhausted))
  }

  /** What the stored row means between cycles. */
  ghost predicate JobCovered(created: seq<Record>, job: Job, handed: set<nat>) {
    AllLanded(created, handed, 0, if job.seedDone then |created| else Start(created, job.row))
  }

  lemma CycleCovers(created: seq<Record>, updated: seq<Record>, job: Job, c: Cycle, handed: set<nat>)
    requires Sorted(created) && JobCovered(created, job, handed)
    requires !job.seedDone && OneCycle(created, updated, job, c).seedDone ==>
               SeedWalk(created, job, c.turns).status == Ended(Exhausted)
    ensures JobCovered(created, OneCycle(created, updated, job, c), handed + HandedIn(created, job, c))
  {
    if job.seedDone {
      assert handed + {} == handed;
    } else {
      RunWalked(created, Begin(job.spine, job.row), c.turns, handed);
    }
  }

  /**
   * Over any cycles, losses, errors and stops included: everything before the stored row was handed
   * over or lies past offset 9,900 of its second, and once the seed latched at the end of upstream,
   * everything.
   */
  lemma {:induction false} CyclesCover(created: seq<Record>, updated: seq<Record>, cs: seq<Cycle>)
    requires Sorted(created) && LatchedExhausted(created, updated, cs)
    ensures JobCovered(created, Cycles(created, updated, cs), EverHanded(created, updated, cs))
  {
    if cs != [] {
      CyclesCover(created, updated, cs[..|cs| - 1]);
      CycleCovers(created, updated, Cycles(created, updated, cs[..|cs| - 1]), cs[|cs| - 1],
                  EverHanded(created, updated, cs[..|cs| - 1]));
    }
  }

  /** No seeding cycle dropped a record or failed to write one. */
  ghost predicate Lossless(created: seq<Record>, updated: seq<Record>, cs: seq<Cycle>) {
    cs == []
    || (Lossless(created, updated, cs[..|cs| - 1])
        && var (job, c) := (Cycles(created, updated, cs[..|cs| - 1]), cs[|cs| - 1]);
           !job.seedDone ==> SeedMayLatch(SeedWalk(created, job, c.turns).out))
  }

  lemma CycleBrings(created: seq<Record>, updated: seq<Record>, job: Job, c: Cycle)
    ensures job.spine <= OneCycle(created, updated, job, c).spine
    ensures (!job.seedDone ==> SeedMayLatch(SeedWalk(created, job, c.turns).out)) ==>
              HandedIn(created, job, c) <= OneCycle(created, updated, job, c).spine
    ensures HandedIn(created, job, c) <= IdsOf(created)
  {
    if job.seedDone {
      IncrementalKeeps(updated, Begin(job.spine, job.row), c.turns);
    } else {
      RunBrings(created, Begin(job.spine, job.row), c.turns);
      RunHandsUpstream(created, Begin(job.spine, job.row), c.turns);
    }
  }

  lemma {:induction false} CyclesBring(created: seq<Record>, updated: seq<Record>, cs: seq<Cycle>)
    ensures EverHanded(created, updated, cs) <= IdsOf(created)
    ensures Lossless(created, updated, cs) ==> EverHanded(created, updated, cs) <= Cycles(created, updated, cs).spine
  {
    if cs != [] {
      CyclesBring(created, updated, cs[..|cs| - 1]);
      CycleBrings(created, updated, Cycles(created, updated, cs[..|cs| - 1]), cs[|cs| - 1]);
    }
  }

  /**
   * With no crowded second, a seed latched at the end of upstream after any cycles has every record
   * if and only if every record the cycles were handed landed at least once.
   */
  lemma SeedCompleteIffHandedLanded(created: seq<Record>, updated: seq<Record>, cs: seq<Cycle>)
    requires Sorted(created) && NoCrowdedSecond(created) && LatchedExhausted(created, updated, cs)
    requires Cycles(created, updated, cs).seedDone
    ensures (forall x | x in created :: x.id in Cycles(created, updated, cs).spine)
       <==> EverHanded(created, updated, cs) <= Cycles(created, updated, cs).spine
  {
    var spine, handed := Cycles(created, updated, cs).spine, EverHanded(created, updated, cs);
    CyclesCover(created, updated, cs);
    CyclesBring(created, updated, cs);
    forall i | 0 <= i < |created| ensures created[i].id in handed {
      assert Landed(created, handed, i);
      LandedIsThere(created, handed, i);
    }
    if handed <= spine { forall x | x in created ensures x.id in spine { assert x.id in handed; } }
  }

  /**
   * So after any lossless cycles everything before the stored row has landed, up to the cap of each
   * second, and a seed latched at the end of upstream has everything.
   */
  lemma LosslessCyclesLand(created: seq<Record>, updated: seq<Record>, cs: seq<Cycle>)
    requires Sorted(created) && LatchedExhausted(created, updated, cs) && Lossless(created, updated, cs)
    ensures var job := Cycles(created, updated, cs);
            && AllLanded(created, job.spine, 0, if job.seedDone then |created| else Start(created, job.row))
            && (job.seedDone && NoCrowdedSecond(created) ==> forall x | x in created :: x.id in job.spine)
  {
    var job := Cycles(created, updated, cs);
    CyclesCover(created, updated, cs);
    CyclesBring(created, updated, cs);
    LandedGrows(created, EverHanded(created, updated, cs), job.spine,
                if job.seedDone then |created| else Start(created, job.row));
    if job.seedDone && NoCrowdedSecond(created) { SeedCompleteIffHandedLanded(created, updated, cs); }
  }

  // ---- a seed that gets stuck --------------------------------------------------------------

  /** A full page of records that land and whose timestamps do not read. */
  function GarbledPage(): Turn { Page(Garbled100(), true, true) }

  function Garbled100(): seq<Fate> { seq(PAGE_LIMIT, i => Parsed(Garbled, true)) }

  lemma {:induction false} TakeGarbled(page: seq<Record>, fates: seq<Fate>, t: Tally)
    requires |page| == |fates| && forall f | f in fates :: f == Parsed(Garbled, true)
    ensures var r := TakePage(page, fates, t);
            && r.spine == t.spine + IdsOf(page) && r.last == (if page == [] then t.last else Unreadable)
            && r.out.dropped == t.out.dropped && r.out.failed == t.out.failed
    ensures Drops(fates) == 0
  {
    if page != [] {
      var n := |page| - 1;
      assert page == page[..n] + [page[n]] && fates == fates[..n] + [fates[n]];
      assert forall f | f in fates[..n] :: f in fates;
      TakeGarbled(page[..n], fates[..n], t);
      assert IdsOf(page) == IdsOf(page[..n]) + {page[n].id};
      assert fates[n] in fates;
    }
  }

  /** A walk from the beginning that has read no timestamp and lost nothing. */
  ghost predicate Blind(up: seq<Record>, p: Sweep, offset: nat) {
    && offset <= |up| && p.since == None && p.offset == offset && !p.last.At? && SeedMayLatch(p.out)
    && p.spine == IdsOf(up[..offset]) && p.row == None
  }

  lemma GarbledTaken(up: seq<Record>, p: Sweep, offset: nat, page: seq<Record>)
    requires p.status.Walking? && Blind(up, p, offset) && |page| == PAGE_LIMIT && offset + PAGE_LIMIT <= WINDOW_OFFSET_CAP < |up|
    requires page == up[offset..offset + PAGE_LIMIT]
    ensures var r := AfterPage(p, page, Garbled100(), true, true);
            Blind(up, r, offset + PAGE_LIMIT) && r.status.Walking?
  {
    TakeGarbled(page, Garbled100(), Tally(p.spine, p.last, p.out.(dropped := p.out.dropped + Drops(Garbled100()))));
    TakeGarbled(page, Garbled100(), Tally(p.spine, p.last, p.out));
    assert up[..offset + PAGE_LIMIT] == up[..offset] + page;
    assert IdsOf(up[..offset + PAGE_LIMIT]) == IdsOf(up[..offset]) + IdsOf(page);
  }

  lemma GarbledStep(up: seq<Record>, p: Sweep, offset: nat)
    requires p.status.Walking? && Blind(up, p, offset) && offset + PAGE_LIMIT <= WINDOW_OFFSET_CAP < |up|
    ensures var q := Step(up, p, true, GarbledPage());
            && Blind(up, q, offset + PAGE_LIMIT)
            && q.status == if offset + PAGE_LIMIT < WINDOW_OFFSET_CAP then Walking else Ended(Stuck)
  {
    var page := up[offset..offset + PAGE_LIMIT];
    assert Served(up, None, offset, PAGE_LIMIT) == page && Garbled100()[..PAGE_LIMIT] == Garbled100();
    var r := AfterPage(p, page, Garbled100(), true, true);
    GarbledTaken(up, p, offset, page);
    assert Step(up, p, true, GarbledPage()) == PageTaken(r, |up|, true, true);
  }

  function GarbledTurns(k: nat): seq<Turn> { seq(k, i => GarbledPage()) }

  lemma OneMoreGarbled(up: seq<Record>, p: Sweep, k: nat)
    requires k > 0 && Pos(up, p) <= |up|
    ensures Run(up, p, true, GarbledTurns(k)) == Step(up, Run(up, p, true, GarbledTurns(k - 1)), true, GarbledPage())
  {
    assert GarbledTurns(k)[..k - 1] == GarbledTurns(k - 1) && GarbledTurns(k)[k - 1] == GarbledPage();
  }

  lemma {:induction false} GarbledRun(up: seq<Record>, k: nat)
    requires PAGE_LIMIT * k <= WINDOW_OFFSET_CAP < |up|
    ensures var p := Run(up, Begin({}, None), true, GarbledTurns(k));
            && Blind(up, p, PAGE_LIMIT * k)
            && p.status == if PAGE_LIMIT * k < WINDOW_OFFSET_CAP then Walking else Ended(Stuck)
  {
    if k == 0 {
      assert up[..0] == [];
    } else {
      GarbledRun(up, k - 1);
      OneMoreGarbled(up, Begin({}, None), k);
      GarbledStep(up, Run(up, Begin({}, None), true, GarbledTurns(k - 1)), PAGE_LIMIT * (k - 1));
    }
  }

  /** A first window of unreadable timestamps ends the sweep, and the seed latches with the rest of upstream missing. */
  lemma StuckSeedLatches(created: seq<Record>, updated: seq<Record>, runStart: nat)
    requires WINDOW_OFFSET_CAP < |created|
    ensures Cycles(created, updated, [Cycle(GarbledTurns(99), runStart, true)])
            == Job(IdsOf(created[..WINDOW_OFFSET_CAP]), Some(runStart), true)
  {
    var c := Cycle(GarbledTurns(99), runStart, true);
    GarbledRun(created, 99);
    assert [c][..0] == [] && Cycles(created, updated, []) == FRESH;
  }
}
