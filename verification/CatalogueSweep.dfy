/** The catalogue sweep and the rule by which its first full seed is declared done. */
module CatalogueSweep {
  import opened Wrappers
  import opened Upstream

  /** A parsed record is upserted, which may fail. */
  type Fate = RecordFate<bool>

  /** One request and whether the checkpoints after the page and after the window land. */
  datatype Turn = Page(fates: seq<Fate>, saved: bool, slideSaved: bool) | PageError

  datatype Outcome = Outcome(upserted: nat, dropped: nat, failed: nat)

  const NOTHING := Outcome(0, 0, 0)

  /** How a sweep ended without an error: upstream exhausted, an empty page believed after retries,
      or a window that could not move. */
  datatype Ending = Exhausted | GaveUp | Stuck

  datatype Status = Walking | Ended(how: Ending) | Aborted

  /** `row` is the job's stored cursor. */
  datatype Sweep = Sweep(spine: set<nat>, row: Option<nat>, since: Option<nat>, offset: nat, last: Stamp,
                         empties: nat, out: Outcome, status: Status)

  datatype Tally = Tally(spine: set<nat>, last: Stamp, out: Outcome)

  function TakeRecord(r: Record, f: Fate, t: Tally): Tally {
    match f
    case Unparsed => t
    case Parsed(shows, writeOk) =>
      var last := StampOf(r, shows, t.last);
      if writeOk then Tally(t.spine + {r.id}, last, t.out.(upserted := t.out.upserted + 1))
      else Tally(t.spine, last, t.out.(failed := t.out.failed + 1))
  }

  function TakePage(page: seq<Record>, fates: seq<Fate>, t: Tally): Tally
    requires |page| == |fates|
  {
    if page == [] then t
    else
      var n := |page| - 1;
      TakeRecord(page[n], fates[n], TakePage(page[..n], fates[..n], t))
  }

  /** Progress is stored only while seeding; the incremental cursor is written once, at cycle end. */
  function Checkpoint(row: Option<nat>, s: Option<nat>, seeding: bool, saved: bool): Option<nat> {
    if seeding && saved && s.Some? then s else row
  }

  function CloseWindow(p: Sweep, seeding: bool, slideSaved: bool): (r: Sweep)
    ensures r.spine == p.spine && r.out == p.out
  {
    var next := NextWindow(p.since, p.last);
    if next.None? then p.(empties := 0, status := Ended(Stuck))
    else Sweep(p.spine, Checkpoint(p.row, next, seeding, slideSaved), next, 0, Missing, 0, p.out, Walking)
  }

  function AfterPage(p: Sweep, page: seq<Record>, fates: seq<Fate>, seeding: bool, saved: bool): Sweep
    requires |page| == |fates|
  {
    var out := p.out.(dropped := p.out.dropped + Drops(fates));
    var tally := TakePage(page, fates, Tally(p.spine, p.last, out));
    Sweep(tally.spine, Checkpoint(p.row, ToSince(tally.last), seeding, saved),
          p.since, NextOffset(p.offset, |page|), tally.last, 0, tally.out, Walking)
  }

  function PageTaken(r: Sweep, total: nat, seeding: bool, slideSaved: bool): Sweep {
    if r.offset >= total then r.(status := Ended(Exhausted))
    else if r.offset >= WINDOW_OFFSET_CAP then CloseWindow(r, seeding, slideSaved)
    else r
  }

  function Step(up: seq<Record>, p: Sweep, seeding: bool, t: Turn): (r: Sweep)
    requires Start(up, p.since) + p.offset <= |up|
    ensures Start(up, r.since) + r.offset <= |up|
  {
    if !p.status.Walking? then p
    else
      match t
      case PageError => p.(status := Aborted)
      case Page(fates, saved, slideSaved) =>
        var page := Served(up, p.since, p.offset, |fates|);
        var total := |up| - Start(up, p.since);
        match ClassifyPage(|page|, p.offset, total)
        case EndWindow => p.(status := Ended(Exhausted))
        case RetryEmpty =>
          if p.empties < EMPTY_PAGE_RETRIES then p.(empties := p.empties + 1)
          else p.(status := Ended(GaveUp))
        case Process =>
          PageTaken(AfterPage(p, page, fates[..|page|], seeding, saved), total, seeding, slideSaved)
  }

  function Begin(spine: set<nat>, row: Option<nat>): Sweep {
    Sweep(spine, row, row, 0, Missing, 0, NOTHING, Walking)
  }

  function Run(up: seq<Record>, p: Sweep, seeding: bool, turns: seq<Turn>): (r: Sweep)
    requires Start(up, p.since) + p.offset <= |up|
    ensures Start(up, r.since) + r.offset <= |up|
  {
    if turns == [] then p
    else Step(up, Run(up, p, seeding, turns[..|turns| - 1]), seeding, turns[|turns| - 1])
  }

  // ---- what a sweep keeps --------------------------------------------------------------

  function Pos(up: seq<Record>, p: Sweep): nat {
    Start(up, p.since) + p.offset
  }

  /** A seed may be declared done only if it landed all it fetched. */
  predicate SeedMayLatch(o: Outcome) {
    o.dropped == 0 && o.failed == 0
  }

  /** Record `i` was upserted, or lies past the window cap of its own second. */
  ghost predicate Landed(up: seq<Record>, spine: set<nat>, i: nat)
    requires i < |up|
  {
    up[i].id in spine || FirstAt(up, up[i].second) + WINDOW_OFFSET_CAP <= i
  }

  ghost predicate AllLanded(up: seq<Record>, spine: set<nat>, from: nat, n: nat)
    requires n <= |up|
  {
    forall i | from <= i < n :: Landed(up, spine, i)
  }

  ghost predicate Sound(up: seq<Record>, from: nat, p: Sweep) {
    && from <= Pos(up, p) <= |up|
    && (p.status.Walking? ==> p.offset < WINDOW_OFFSET_CAP)
    && (p.status.Ended? ==> (Pos(up, p) == |up| <==> p.status.how.Exhausted?))
    && LastSeen(up, p.since, p.last, Pos(up, p))
    && (SeedMayLatch(p.out) ==> AllLanded(up, p.spine, from, Pos(up, p)))
  }

  lemma {:induction false} PageLands(page: seq<Record>, fates: seq<Fate>, t: Tally)
    requires |page| == |fates|
    ensures var r := TakePage(page, fates, t);
            && t.spine <= r.spine
            && (SeedMayLatch(r.out) ==> SeedMayLatch(t.out))
            && (SeedMayLatch(r.out) && Drops(fates) == 0 ==> forall i | 0 <= i < |page| :: page[i].id in r.spine)
            && (r.last == t.last || r.last == Unreadable || exists i | 0 <= i < |page| :: r.last == At(page[i].second))
  {
    if page != [] {
      var n := |page| - 1;
      var before := TakePage(page[..n], fates[..n], t);
      PageLands(page[..n], fates[..n], t);
      if SeedMayLatch(TakePage(page, fates, t).out) && Drops(fates) == 0 {
        assert fates[n] in fates;
        forall i | 0 <= i < n
          ensures page[i].id in before.spine
        {
          assert page[..n][i] == page[i];
        }
      }
      if i: nat :| i < n && before.last == At(page[..n][i].second) {
        assert before.last == At(page[i].second);
      }
    }
  }

  /** Stepping over a second after a full window leaves only records past the cap of that second. */
  lemma TailLanded(up: seq<Record>, spine: set<nat>, s: nat, offset: nat)
    requires Sorted(up) && WINDOW_OFFSET_CAP <= offset
    ensures AllLanded(up, spine, FirstAt(up, s) + offset, FirstAt(up, s + 1))
  {
    forall i | FirstAt(up, s) + offset <= i < FirstAt(up, s + 1)
      ensures Landed(up, spine, i)
    {
      AfterFirstAt(up, s, i);
    }
  }

  /** What lies before the next window is landed or past the cap. */
  lemma NextWindowLanded(up: seq<Record>, from: nat, since: Option<nat>, offset: nat, last: Stamp, spine: set<nat>)
    requires Sorted(up) && from <= Start(up, since) && Start(up, since) + offset <= |up|
    requires WINDOW_OFFSET_CAP <= offset && last.At? && LastSeen(up, since, last, Start(up, since) + offset)
    ensures from <= Start(up, NextWindow(since, last))
    ensures AllLanded(up, spine, from, Start(up, since) + offset)
        ==> AllLanded(up, spine, from, Start(up, NextWindow(since, last)))
  {
    LastSeenBounds(up, since, last, Start(up, since) + offset);
    NextWindowAdvances(up, since, last);
    if StepsOver(since, last) { TailLanded(up, spine, last.second, offset); }
  }

  lemma CloseWindowSound(up: seq<Record>, from: nat, p: Sweep, seeding: bool, slideSaved: bool)
    requires Sorted(up) && p.status.Walking? && from <= Start(up, p.since)
    requires Pos(up, p) < |up| && WINDOW_OFFSET_CAP <= p.offset && LastSeen(up, p.since, p.last, Pos(up, p))
    requires SeedMayLatch(p.out) ==> AllLanded(up, p.spine, from, Pos(up, p))
    ensures var r := CloseWindow(p, seeding, slideSaved); Sound(up, from, r) && from <= Start(up, r.since)
  {
    if p.last.At? {
      NextWindowLanded(up, from, p.since, p.offset, p.last, p.spine);
    }
  }

  lemma PageTakenSound(up: seq<Record>, from: nat, r: Sweep, seeding: bool, slideSaved: bool)
    requires Sorted(up) && r.status.Walking? && from <= Start(up, r.since)
    requires Pos(up, r) <= |up| && LastSeen(up, r.since, r.last, Pos(up, r))
    requires SeedMayLatch(r.out) ==> AllLanded(up, r.spine, from, Pos(up, r))
    ensures var q := PageTaken(r, |up| - Start(up, r.since), seeding, slideSaved);
            Sound(up, from, q) && from <= Start(up, q.since)
  {
    if Pos(up, r) < |up| && r.offset >= WINDOW_OFFSET_CAP {
      CloseWindowSound(up, from, r, seeding, slideSaved);
    }
  }

  lemma PageSound(up: seq<Record>, from: nat, p: Sweep, page: seq<Record>, fates: seq<Fate>, seeding: bool, saved: bool)
    requires Sorted(up) && Sound(up, from, p) && p.status.Walking? && |page| == |fates| <= PAGE_LIMIT
    requires Pos(up, p) + |page| <= |up| && forall i | 0 <= i < |page| :: page[i] == up[Pos(up, p) + i]
    ensures var r := AfterPage(p, page, fates, seeding, saved);
            && Pos(up, r) == Pos(up, p) + |page| && r.offset == p.offset + |page|
            && LastSeen(up, r.since, r.last, Pos(up, r))
            && (SeedMayLatch(r.out) ==> AllLanded(up, r.spine, from, Pos(up, r)))
  {
    var r := AfterPage(p, page, fates, seeding, saved);
    PageLands(page, fates, Tally(p.spine, p.last, p.out.(dropped := p.out.dropped + Drops(fates))));
    if r.last.At? && r.last != p.last {
      var i: nat :| i < |page| && r.last == At(page[i].second);
      assert up[Pos(up, p) + i].second == r.last.second;
    }
    if SeedMayLatch(r.out) {
      forall i | from <= i < Pos(up, r)
        ensures Landed(up, r.spine, i)
      {
        if i < Pos(up, p) {
          assert Landed(up, p.spine, i);
        } else {
          assert up[i] == page[i - Pos(up, p)];
        }
      }
    }
  }

  lemma PageStepIs(up: seq<Record>, p: Sweep, seeding: bool, t: Turn, page: seq<Record>)
    requires Pos(up, p) <= |up| && p.status.Walking? && t.Page?
    requires page == Served(up, p.since, p.offset, |t.fates|) != []
    ensures Step(up, p, seeding, t)
         == PageTaken(AfterPage(p, page, t.fates[..|page|], seeding, t.saved), |up| - Start(up, p.since), seeding, t.slideSaved)
  {
  }

  /** A page taken whole, whatever ends its window. */
  lemma PageTurnSound(up: seq<Record>, from: nat, p: Sweep, page: seq<Record>, fates: seq<Fate>, seeding: bool,
                      saved: bool, slideSaved: bool)
    requires Sorted(up) && Sound(up, from, p) && from <= Start(up, p.since) && p.status.Walking?
    requires |page| == |fates| <= PAGE_LIMIT && Pos(up, p) + |page| <= |up|
    requires forall i | 0 <= i < |page| :: page[i] == up[Pos(up, p) + i]
    ensures var q := PageTaken(AfterPage(p, page, fates, seeding, saved), |up| - Start(up, p.since), seeding, slideSaved);
            Sound(up, from, q) && from <= Start(up, q.since)
  {
    PageSound(up, from, p, page, fates, seeding, saved);
    PageTakenSound(up, from, AfterPage(p, page, fates, seeding, saved), seeding, slideSaved);
  }

  lemma PageStepSound(up: seq<Record>, from: nat, p: Sweep, seeding: bool, t: Turn)
    requires Sorted(up) && Sound(up, from, p) && from <= Start(up, p.since) && p.status.Walking?
    requires t.Page? && Served(up, p.since, p.offset, |t.fates|) != []
    ensures Sound(up, from, Step(up, p, seeding, t)) && from <= Start(up, Step(up, p, seeding, t).since)
  {
    var page := Served(up, p.since, p.offset, |t.fates|);
    PageStepIs(up, p, seeding, t, page);
    PageTurnSound(up, from, p, page, t.fates[..|page|], seeding, t.saved, t.slideSaved);
  }

  lemma StepSound(up: seq<Record>, from: nat, p: Sweep, seeding: bool, t: Turn)
    requires Sorted(up) && Sound(up, from, p) && from <= Start(up, p.since)
    ensures Sound(up, from, Step(up, p, seeding, t)) && from <= Start(up, Step(up, p, seeding, t).since)
  {
    if p.status.Walking? && t.Page? && Served(up, p.since, p.offset, |t.fates|) != [] {
      PageStepSound(up, from, p, seeding, t);
    }
  }

  lemma {:induction false} RunSound(up: seq<Record>, spine: set<nat>, row: Option<nat>, seeding: bool, turns: seq<Turn>)
    requires Sorted(up)
    ensures var p := Run(up, Begin(spine, row), seeding, turns);
            Sound(up, Start(up, row), p) && Start(up, p.since) >= Start(up, row)
  {
    if turns != [] {
      RunSound(up, spine, row, seeding, turns[..|turns| - 1]);
      StepSound(up, Start(up, row), Run(up, Begin(spine, row), seeding, turns[..|turns| - 1]), seeding,
                turns[|turns| - 1]);
    }
  }

  // ---- the seed ------------------------------------------------------------------------

  /** The job's row: the stored cursor and whether its first full seed is declared done. */
  datatype Job = Job(spine: set<nat>, row: Option<nat>, seedDone: bool)

  /** The catalogue half of a cycle. `created` and `updated` are the catalogue ordered by the two
      timestamps; `runStart` is the cycle's starting second; `lands` is the closing write. */
  function RunCycle(created: seq<Record>, updated: seq<Record>, job: Job, turns: seq<Turn>,
                    runStart: nat, lands: bool): Job
  {
    var p := Run(if job.seedDone then updated else created, Begin(job.spine, job.row), !job.seedDone, turns);
    if !p.status.Ended? || !lands then Job(p.spine, p.row, job.seedDone)
    else if job.seedDone then Job(p.spine, Some(runStart), true)
    else if SeedMayLatch(p.out) then Job(p.spine, Some(runStart), true)
    else Job(p.spine, p.row, false)
  }

  function SeedWalk(created: seq<Record>, job: Job, turns: seq<Turn>): Sweep {
    Run(created, Begin(job.spine, job.row), true, turns)
  }

  /** A seed that latches without having believed an empty page or got stuck upserted every record
      from its starting cursor on, but for those past offset 9,900 within one second. */
  lemma LatchedSeedLandedAll(created: seq<Record>, updated: seq<Record>, job: Job, turns: seq<Turn>, runStart: nat, lands: bool)
    requires Sorted(created) && !job.seedDone && RunCycle(created, updated, job, turns, runStart, lands).seedDone
    ensures var p := SeedWalk(created, job, turns);
            && p.status.Ended? && SeedMayLatch(p.out)
            && (p.status.how.Exhausted? <==> Pos(created, p) == |created|)
            && (p.status.how.Exhausted? ==>
                  AllLanded(created, RunCycle(created, updated, job, turns, runStart, lands).spine,
                            Start(created, job.row), |created|))
  {
    RunSound(created, job.spine, job.row, true, turns);
  }

  /** Where no second is crowded, what has landed up to the cap is there. */
  lemma LandedIsThere(up: seq<Record>, spine: set<nat>, i: nat)
    requires Sorted(up) && NoCrowdedSecond(up) && i < |up| && Landed(up, spine, i)
    ensures up[i].id in spine
  {
    var s := up[i].second;
    assert FirstAt(up, s + 1) <= FirstAt(up, s) + WINDOW_OFFSET_CAP;
    if FirstAt(up, s) + WINDOW_OFFSET_CAP <= i {
      AfterFirstAt(up, s + 1, i);
      assert false;
    }
  }

  /** With at most 9,900 records to a second, a seed begun from nothing that latches that way has
      every upstream record. */
  lemma LatchedSeedIsComplete(created: seq<Record>, updated: seq<Record>, turns: seq<Turn>, runStart: nat, lands: bool)
    requires Sorted(created) && NoCrowdedSecond(created)
    requires SeedWalk(created, Job({}, None, false), turns).status == Ended(Exhausted)
    ensures var job := RunCycle(created, updated, Job({}, None, false), turns, runStart, lands);
            job.seedDone ==> forall x | x in created :: x.id in job.spine
  {
    var job := RunCycle(created, updated, Job({}, None, false), turns, runStart, lands);
    if job.seedDone {
      LatchedSeedLandedAll(created, updated, Job({}, None, false), turns, runStart, lands);
      forall i | 0 <= i < |created|
        ensures created[i].id in job.spine
      {
        assert Landed(created, job.spine, i);
        LandedIsThere(created, job.spine, i);
      }
    }
  }
}
