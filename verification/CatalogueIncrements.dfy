/** Cycles after the seed is done: each walks what changed upstream since the stored second. */
module CatalogueIncrements {
  import opened Wrappers
  import opened Upstream
  import opened CatalogueSweep
  import opened CatalogueCycles

  // ---- one cycle ---------------------------------------------------------------------------

  /** The walk of a cycle after the seed, seen from an empty spine: what is in it at the end was upserted by this walk. */
  function ChangesWalk(updated: seq<Record>, row: Option<nat>, turns: seq<Turn>): Sweep {
    Run(updated, Begin({}, row), false, turns)
  }

  lemma {:induction false} PageFromNothing(page: seq<Record>, fates: seq<Fate>, s: set<nat>, t: Tally)
    requires |page| == |fates|
    ensures TakePage(page, fates, t.(spine := s + t.spine))
         == TakePage(page, fates, t).(spine := s + TakePage(page, fates, t).spine)
  {
    if page != [] {
      var n := |page| - 1;
      PageFromNothing(page[..n], fates[..n], s, t);
      var mid := TakePage(page[..n], fates[..n], t).spine;
      assert s + mid + {page[n].id} == s + (mid + {page[n].id});
    }
  }

  function Under(s: set<nat>, p: Sweep): Sweep { p.(spine := s + p.spine) }

  lemma AfterPageFromNothing(p: Sweep, page: seq<Record>, fates: seq<Fate>, s: set<nat>, saved: bool)
    requires |page| == |fates|
    ensures AfterPage(Under(s, p), page, fates, false, saved) == Under(s, AfterPage(p, page, fates, false, saved))
  {
    PageFromNothing(page, fates, s, Tally(p.spine, p.last, p.out.(dropped := p.out.dropped + Drops(fates))));
  }

  lemma TakenFromNothing(r: Sweep, total: nat, s: set<nat>, slideSaved: bool)
    ensures PageTaken(Under(s, r), total, false, slideSaved) == Under(s, PageTaken(r, total, false, slideSaved))
  {
  }

  /** What is in the spine already changes nothing about a turn. */
  lemma StepFromNothing(up: seq<Record>, p: Sweep, s: set<nat>, t: Turn)
    requires Pos(up, p) <= |up|
    ensures Step(up, Under(s, p), false, t) == Under(s, Step(up, p, false, t))
  {
    if p.status.Walking? && t.Page? && Served(up, p.since, p.offset, |t.fates|) != [] {
      var page := Served(up, p.since, p.offset, |t.fates|);
      AfterPageFromNothing(p, page, t.fates[..|page|], s, t.saved);
      TakenFromNothing(AfterPage(p, page, t.fates[..|page|], false, t.saved), |up| - Start(up, p.since), s, t.slideSaved);
      PageStepIs(up, p, false, t, page);
      PageStepIs(up, Under(s, p), false, t, page);
    }
  }

  lemma {:induction false} RunFromNothing(up: seq<Record>, p: Sweep, s: set<nat>, turns: seq<Turn>)
    requires Pos(up, p) <= |up|
    ensures Run(up, Under(s, p), false, turns) == Under(s, Run(up, p, false, turns))
  {
    if turns != [] {
      RunFromNothing(up, p, s, turns[..|turns| - 1]);
      StepFromNothing(up, Run(up, p, false, turns[..|turns| - 1]), s, turns[|turns| - 1]);
    }
  }

  lemma RowStaysAtStep(up: seq<Record>, p: Sweep, t: Turn)
    requires Pos(up, p) <= |up|
    ensures Step(up, p, false, t).row == p.row
  {
  }

  /** The stored row is not touched by the walk. */
  lemma {:induction false} RowStays(up: seq<Record>, p: Sweep, turns: seq<Turn>)
    requires Pos(up, p) <= |up|
    ensures Run(up, p, false, turns).row == p.row
  {
    if turns != [] {
      RowStays(up, p, turns[..|turns| - 1]);
      RowStaysAtStep(up, Run(up, p, false, turns[..|turns| - 1]), turns[|turns| - 1]);
    }
  }

  /**
   * A cycle after the seed: it adds what its walk over the changes upserted, and it moves the stored row,
   * to its own starting second, exactly when the walk ended and the closing write lands. A walk that
   * exhausted the changes and lost none has upserted every one from the stored second on, up to the cap.
   */
  lemma ChangesLand(created: seq<Record>, updated: seq<Record>, job: Job, c: Cycle)
    requires Sorted(updated) && job.seedDone
    ensures var (p, after) := (ChangesWalk(updated, job.row, c.turns), OneCycle(created, updated, job, c));
            && after.seedDone && after.spine == job.spine + p.spine
            && after.row == (if p.status.Ended? && c.lands then Some(c.runStart) else job.row)
            && (p.status == Ended(Exhausted) && p.out.dropped == 0 && p.out.failed == 0 ==>
                  AllLanded(updated, p.spine, Start(updated, job.row), |updated|))
  {
    var p := ChangesWalk(updated, job.row, c.turns);
    RunFromNothing(updated, Begin({}, job.row), job.spine, c.turns);
    assert Under(job.spine, Begin({}, job.row)) == Begin(job.spine, job.row);
    RowStays(updated, Begin({}, job.row), c.turns);
    RunSound(updated, {}, job.row, false, c.turns);
  }

  // ---- many cycles -------------------------------------------------------------------------

  /** A cycle and the changes that upstream lists while it runs. */
  datatype Round = Round(updated: seq<Record>, cycle: Cycle)

  function Rounds(created: seq<Record>, job: Job, rounds: seq<Round>): Job {
    if rounds == [] then job
    else
      var n := |rounds| - 1;
      OneCycle(created, rounds[n].updated, Rounds(created, job, rounds[..n]), rounds[n].cycle)
  }

  /** The walk of one of the rounds. */
  function WalkOf(created: seq<Record>, job: Job, rounds: seq<Round>, n: nat): Sweep
    requires n < |rounds|
  {
    ChangesWalk(rounds[n].updated, Rounds(created, job, rounds[..n]).row, rounds[n].cycle.turns)
  }

  /** The changes that the rounds have upserted, each at the second it was made; a listing names a work once. */
  function Upserted(created: seq<Record>, job: Job, rounds: seq<Round>): set<Record> {
    if rounds == [] then {}
    else
      var n := |rounds| - 1;
      Upserted(created, job, rounds[..n])
        + set x | x in rounds[n].updated && x.id in WalkOf(created, job, rounds, n).spine
  }

  /** The round ended its walk and stored its starting second. */
  predicate Moves(created: seq<Record>, job: Job, rounds: seq<Round>, n: nat)
    requires n < |rounds|
  {
    WalkOf(created, job, rounds, n).status.Ended? && rounds[n].cycle.lands
  }

  /** Every round that moved the stored row had walked to the end of the changes and lost none of them. */
  predicate MovesAreClean(created: seq<Record>, job: Job, rounds: seq<Round>) {
    rounds == []
    || var n := |rounds| - 1;
       && MovesAreClean(created, job, rounds[..n])
       && (Moves(created, job, rounds, n) ==>
             var p := WalkOf(created, job, rounds, n); p.status == Ended(Exhausted) && p.out.dropped == 0 && p.out.failed == 0)
  }

  /** What is listed now as changed before some round started was listed to that round. */
  ghost predicate NotBackdated(rounds: seq<Round>, now: seq<Record>) {
    forall n, x | 0 <= n < |rounds| && x in now && x.second < rounds[n].cycle.runStart :: x in rounds[n].updated
  }

  /** Each round meets an ordered listing without a crowded second that backdates nothing. */
  ghost predicate Honest(rounds: seq<Round>) {
    rounds == []
    || var n := |rounds| - 1;
       && Honest(rounds[..n])
       && Sorted(rounds[n].updated) && NoCrowdedSecond(rounds[n].updated) && NotBackdated(rounds[..n], rounds[n].updated)
  }

  /** The changes of a listing between two seconds are among those upserted. */
  ghost predicate Caught(now: seq<Record>, from: nat, to: nat, upserted: set<Record>) {
    forall x | x in now && from <= x.second < to :: x in upserted
  }

  /** The round that last moved the row, if one did. */
  function LastMove(created: seq<Record>, job: Job, rounds: seq<Round>): (m: Option<nat>)
    ensures m.Some? ==> m.value < |rounds|
  {
    if rounds == [] then None
    else if Moves(created, job, rounds, |rounds| - 1) then Some(|rounds| - 1)
    else LastMove(created, job, rounds[..|rounds| - 1])
  }

  /** After the latch nothing but a round that ends and whose write lands moves the stored row, and it moves it to its start. */
  lemma {:induction false} RowIsLastMove(created: seq<Record>, job: Job, rounds: seq<Round>)
    requires job.seedDone && Honest(rounds)
    ensures Rounds(created, job, rounds).seedDone
    ensures Rounds(created, job, rounds).row
         == var m := LastMove(created, job, rounds); if m.Some? then Some(rounds[m.value].cycle.runStart) else job.row
  {
    if rounds != [] {
      var n := |rounds| - 1;
      RowIsLastMove(created, job, rounds[..n]);
      ChangesLand(created, rounds[n].updated, Rounds(created, job, rounds[..n]), rounds[n].cycle);
    }
  }

  /** What one clean round from a second on upserts. */
  lemma RoundCatches(created: seq<Record>, job: Job, rounds: seq<Round>, n: nat, x: Record)
    requires job.seedDone && Honest(rounds) && n == |rounds| - 1
    requires var p := WalkOf(created, job, rounds, n); p.status == Ended(Exhausted) && p.out.dropped == 0 && p.out.failed == 0
    requires var row := Rounds(created, job, rounds[..n]).row; row.Some? && row.value <= x.second
    requires x in rounds[n].updated
    ensures x in Upserted(created, job, rounds)
  {
    var (up, before) := (rounds[n].updated, Rounds(created, job, rounds[..n]));
    RowIsLastMove(created, job, rounds[..n]);
    ChangesLand(created, up, before, rounds[n].cycle);
    var i :| 0 <= i < |up| && up[i] == x;
    assert Landed(up, WalkOf(created, job, rounds, n).spine, i);
    LandedIsThere(up, WalkOf(created, job, rounds, n).spine, i);
  }

  /** At the round that last moved the row, every change listed to it from the first second on to the row was upserted. */
  lemma {:induction false} LastMoveCatches(created: seq<Record>, job: Job, rounds: seq<Round>, from: nat)
    requires job.seedDone && job.row == Some(from) && Honest(rounds) && MovesAreClean(created, job, rounds)
    ensures var m := LastMove(created, job, rounds);
            m.Some? ==> Caught(rounds[m.value].updated, from, rounds[m.value].cycle.runStart, Upserted(created, job, rounds))
  {
    if rounds != [] {
      var n := |rounds| - 1;
      var front := rounds[..n];
      LastMoveCatches(created, job, front, from);
      RowIsLastMove(created, job, front);
      if Moves(created, job, rounds, n) {
        forall x | x in rounds[n].updated && from <= x.second < rounds[n].cycle.runStart
          ensures x in Upserted(created, job, rounds)
        {
          CaughtNowOrBefore(created, job, rounds, from, n, x);
        }
      }
    }
  }

  lemma CaughtNowOrBefore(created: seq<Record>, job: Job, rounds: seq<Round>, from: nat, n: nat, x: Record)
    requires job.seedDone && job.row == Some(from) && Honest(rounds) && MovesAreClean(created, job, rounds) && n == |rounds| - 1
    requires Moves(created, job, rounds, n) && x in rounds[n].updated && from <= x.second
    requires var m := LastMove(created, job, rounds[..n]);
             m.Some? ==> Caught(rounds[m.value].updated, from, rounds[m.value].cycle.runStart, Upserted(created, job, rounds[..n]))
    ensures x in Upserted(created, job, rounds)
  {
    var front := rounds[..n];
    RowIsLastMove(created, job, front);
    var row := Rounds(created, job, front).row.value;
    if row <= x.second {
      RoundCatches(created, job, rounds, n, x);
    } else {
      var m := LastMove(created, job, front).value;
      assert front[m] == rounds[m] && x in front[m].updated;
    }
  }

  /**
   * After the latch, over any rounds, errors, stops and unlanded writes included: if every round that
   * moved the row was clean and no listing backdates a change, every change listed now between the row
   * the latch left and the row stored now has been upserted. What a round did not get to is listed
   * again to the next one, since the row stays.
   */
  lemma ChangesAreCaught(created: seq<Record>, job: Job, rounds: seq<Round>, from: nat, now: seq<Record>)
    requires job.seedDone && job.row == Some(from) && Honest(rounds) && MovesAreClean(created, job, rounds)
    requires NotBackdated(rounds, now)
    ensures var r := Rounds(created, job, rounds);
            r.row.Some? && Caught(now, from, r.row.value, Upserted(created, job, rounds))
  {
    LastMoveCatches(created, job, rounds, from);
    RowIsLastMove(created, job, rounds);
    var m := LastMove(created, job, rounds);
    if m.Some? { assert rounds[m.value] in rounds; }
  }

  /** And the spine has what it had and the works whose changes were upserted. */
  lemma {:induction false} RoundsBring(created: seq<Record>, job: Job, rounds: seq<Round>)
    requires job.seedDone && Honest(rounds)
    ensures forall x | x in Upserted(created, job, rounds) :: x.id in Rounds(created, job, rounds).spine
    ensures job.spine <= Rounds(created, job, rounds).spine
  {
    if rounds != [] {
      var n := |rounds| - 1;
      RoundsBring(created, job, rounds[..n]);
      RowIsLastMove(created, job, rounds[..n]);
      ChangesLand(created, rounds[n].updated, Rounds(created, job, rounds[..n]), rounds[n].cycle);
    }
  }

  /** One change, one good cycle: it is fetched although it was created long before, and the row moves on. */
  lemma ChangeIsFetched()
    ensures OneCycle([Record(1, 3)], [Record(1, 10)], Job({}, Some(9), true), Cycle([Page([Parsed(Shown, true)], true, true)], 20, true))
         == Job({1}, Some(20), true)
  {
    var up, t := [Record(1, 10)], Page([Parsed(Shown, true)], true, true);
    var p := Begin({}, Some(9));
    assert [t][..0] == [] && Run(up, p, false, []) == p;
    assert FirstAt(up, 9) == 0 && Served(up, Some(9), 0, 1) == up;
    assert t.fates[..1] == t.fates && t.fates[..0] == [] && up[..0] == [];
    assert Drops(t.fates) == 0;
    assert TakePage(up, t.fates, Tally({}, Missing, NOTHING)) == Tally({1}, At(10), Outcome(1, 0, 0));
  }
}
