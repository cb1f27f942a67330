/** The catalogue sweep as the program runs it, how long it can run, and what it can still lose. */
module CatalogueSync {
  import opened Wrappers
  import opened Upstream
  import opened CatalogueSweep

  datatype PageEnd = NextPage | WindowFull | SweepEnd(how: Ending)

  class Mirror {
    var spine: set<nat>
    var row: Option<nat>
    var seedDone: bool

    constructor ()
      ensures Rows() == Job({}, None, false)
    {
      spine, row, seedDone := {}, None, false;
    }

    ghost function Rows(): Job
      reads this
    {
      Job(spine, row, seedDone)
    }

    method TakeMangas(page: seq<Record>, fates: seq<Fate>, last0: Stamp, out0: Outcome)
      returns (last: Stamp, out: Outcome)
      requires |page| == |fates|
      modifies this`spine
      ensures TakePage(page, fates, Tally(old(spine), last0, out0)) == Tally(spine, last, out)
    {
      last, out := last0, out0;
      ghost var start := Tally(spine, last0, out0);
      for i := 0 to |page|
        invariant TakePage(page[..i], fates[..i], start) == Tally(spine, last, out)
      {
        assert page[..i + 1][..i] == page[..i] && fates[..i + 1][..i] == fates[..i];
        if fates[i].Parsed? {
          if fates[i].done {
            spine := spine + {page[i].id};
            out := out.(upserted := out.upserted + 1);
          } else {
            out := out.(failed := out.failed + 1);
          }
          last := StampOf(page[i], fates[i].shows, last);
        }
      }
      assert page[..|page|] == page && fates[..|page|] == fates;
    }

    method SetSeedProgress(s: Option<nat>, seeding: bool, lands: bool)
      modifies this`row
      ensures row == Checkpoint(old(row), s, seeding, lands)
    {
      if seeding && lands && s.Some? {
        row := s;
      }
    }

    method TakeReply(up: seq<Record>, since: Option<nat>, seeding: bool, t: Turn, offset0: nat, last0: Stamp,
                     empties0: nat, out0: Outcome)
      returns (next: PageEnd, offset: nat, last: Stamp, empties: nat, out: Outcome)
      requires Start(up, since) + offset0 <= |up| && t.Page?
      modifies this`spine, this`row
      ensures Start(up, since) + offset <= |up|
      ensures var q := Step(up, Sweep(old(spine), old(row), since, offset0, last0, empties0, out0, Walking), seeding, t);
              match next
              case NextPage => q == Sweep(spine, row, since, offset, last, empties, out, Walking)
              case SweepEnd(how) => q == Sweep(spine, row, since, offset, last, empties, out, Ended(how))
              case WindowFull => q == CloseWindow(Sweep(spine, row, since, offset, last, 0, out, Walking),
                                                  seeding, t.slideSaved)
    {
      offset, last, empties, out := offset0, last0, empties0, out0;
      var page := Served(up, since, offset, |t.fates|);
      var fates := t.fates[..|page|];
      var total := |up| - Start(up, since);
      match ClassifyPage(|page|, offset, total)
      case EndWindow => next := SweepEnd(Exhausted);
      case RetryEmpty =>
        if empties < EMPTY_PAGE_RETRIES {
          empties := empties + 1;
          next := NextPage;
        } else {
          next := SweepEnd(GaveUp);
        }
      case Process =>
        empties := 0;
        out := out.(dropped := out.dropped + Drops(fates));
        last, out := TakeMangas(page, fates, last, out);
        offset := NextOffset(offset, |page|);
        SetSeedProgress(ToSince(last), seeding, t.saved);
        next := if offset >= total then SweepEnd(Exhausted)
                else if offset >= WINDOW_OFFSET_CAP then WindowFull
                else NextPage;
    }

    /** One whole sweep. It returns `Walking` when the script, and so the process, ended first. */
    method SyncCatalogue(up: seq<Record>, seeding: bool, turns: seq<Turn>)
      returns (out: Outcome, status: Status)
      modifies this`spine, this`row
      ensures var p := Run(up, Begin(old(spine), old(row)), seeding, turns);
              spine == p.spine && row == p.row && out == p.out && status == p.status
    {
      ghost var start := Begin(spine, row);
      var since := row;
      out := NOTHING;
      var k := 0;
      var offset, last, empties := 0, Missing, 0;
      assert turns[..0] == [];
      while k < |turns|
        invariant k <= |turns|
        invariant Run(up, start, seeding, turns[..k]) == Sweep(spine, row, since, offset, last, empties, out, Walking)
      {
        var t := turns[k];
        assert turns[..k + 1][..k] == turns[..k];
        k := k + 1;
        if t.PageError? {
          RunStays(up, start, seeding, turns, k);
          return out, Aborted;
        }
        var next;
        next, offset, last, empties, out := TakeReply(up, since, seeding, t, offset, last, empties, out);
        if next.SweepEnd? {
          RunStays(up, start, seeding, turns, k);
          return out, Ended(next.how);
        }
        if next.WindowFull? {
          var window := ToSince(last);
          if window.None? || window == since {
            window := ToSinceNextSecond(last);
            if window.None? || window == since {
              RunStays(up, start, seeding, turns, k);
              return out, Ended(Stuck);
            }
          }
          since := window;
          offset, last, empties := 0, Missing, 0;
          SetSeedProgress(since, seeding, t.slideSaved);
        }
      }
      assert turns[..k] == turns;
      status := Walking;
    }

    method RunOneCycle(created: seq<Record>, updated: seq<Record>, turns: seq<Turn>, runStart: nat, lands: bool)
      modifies this
      ensures Rows() == RunCycle(created, updated, old(Rows()), turns, runStart, lands)
    {
      var out, status := SyncCatalogue(if seedDone then updated else created, !seedDone, turns);
      if status.Ended? && lands {
        if seedDone {
          row := Some(runStart);
        } else if SeedMayLatch(out) {
          row, seedDone := Some(runStart), true;
        }
      }
    }
  }

  lemma {:induction false} RunStays(up: seq<Record>, p: Sweep, seeding: bool, turns: seq<Turn>, k: nat)
    requires Pos(up, p) <= |up| && k <= |turns|
    requires !Run(up, p, seeding, turns[..k]).status.Walking?
    ensures Run(up, p, seeding, turns) == Run(up, p, seeding, turns[..k])
  {
    if k == |turns| {
      assert turns[..k] == turns;
    } else {
      assert turns[..|turns| - 1][..k] == turns[..k];
      RunStays(up, p, seeding, turns[..|turns| - 1], k);
    }
  }

  // ---- a sweep ends --------------------------------------------------------------------

  function Requests(up: seq<Record>, p: Sweep): nat
    requires Pos(up, p) <= |up| && p.empties <= EMPTY_PAGE_RETRIES
  {
    if !p.status.Walking? then 0
    else Weigh(SecondsLeft(up, p.since), |up| - Pos(up, p), |up| + 1) * 4 + (EMPTY_PAGE_RETRIES - p.empties) + 1
  }

  lemma StepIsFewer(up: seq<Record>, from: nat, p: Sweep, seeding: bool, t: Turn)
    requires Sorted(up) && Sound(up, from, p) && from <= Start(up, p.since) && p.status.Walking?
    requires p.empties <= EMPTY_PAGE_RETRIES
    ensures var q := Step(up, p, seeding, t);
            q.empties <= EMPTY_PAGE_RETRIES && Requests(up, q) < Requests(up, p)
  {
    if t.Page? && Served(up, p.since, p.offset, |t.fates|) != [] {
      var page := Served(up, p.since, p.offset, |t.fates|);
      PageSound(up, from, p, page, t.fates[..|page|], seeding, t.saved);
      var r := AfterPage(p, page, t.fates[..|page|], seeding, t.saved);
      if r.last.At? { LastSeenBounds(up, r.since, r.last, Pos(up, r)); }
      PageTakenIsFewer(up, p, r, seeding, t.slideSaved);
    }
  }

  lemma PageTakenIsFewer(up: seq<Record>, p: Sweep, r: Sweep, seeding: bool, slideSaved: bool)
    requires Pos(up, p) < Pos(up, r) <= |up| && p.since == r.since && p.status.Walking? && r.status.Walking?
    requires p.empties <= EMPTY_PAGE_RETRIES && r.empties == 0
    requires r.last.At? ==> r.last.second <= up[|up| - 1].second && (r.since.Some? ==> r.since.value <= r.last.second)
    ensures var q := PageTaken(r, |up| - Start(up, r.since), seeding, slideSaved);
            && Pos(up, q) <= |up| && q.empties <= EMPTY_PAGE_RETRIES && Requests(up, q) < Requests(up, p)
  {
    var q := PageTaken(r, |up| - Start(up, r.since), seeding, slideSaved);
    WeighLess(SecondsLeft(up, q.since), |up| - Pos(up, q), SecondsLeft(up, p.since), |up| - Pos(up, p), |up| + 1);
  }

  function Script(env: nat -> Turn, n: nat): seq<Turn> {
    seq(n, i requires 0 <= i => env(i))
  }

  lemma ScriptGrows(env: nat -> Turn, k: nat)
    ensures |Script(env, k + 1)| == k + 1 && Script(env, k + 1)[..k] == Script(env, k) && Script(env, k + 1)[k] == env(k)
  {
  }

  /** One more turn of a sweep that still walks leaves fewer requests. */
  lemma {:induction false} NextTurnIsFewer(up: seq<Record>, spine: set<nat>, row: Option<nat>, seeding: bool, env: nat -> Turn, k: nat)
    requires Sorted(up)
    requires var p := Run(up, Begin(spine, row), seeding, Script(env, k)); p.status.Walking? && p.empties <= EMPTY_PAGE_RETRIES
    ensures var p := Run(up, Begin(spine, row), seeding, Script(env, k));
            var q := Run(up, Begin(spine, row), seeding, Script(env, k + 1));
            q.empties <= EMPTY_PAGE_RETRIES && Requests(up, q) < Requests(up, p)
  {
    RunSound(up, spine, row, seeding, Script(env, k));
    StepIsFewer(up, Start(up, row), Run(up, Begin(spine, row), seeding, Script(env, k)), seeding, env(k));
    ScriptGrows(env, k);
  }

  /** Whatever upstream and the database do, a sweep ends within a bound known when it starts. */
  lemma {:induction false} SweepEnds(up: seq<Record>, spine: set<nat>, row: Option<nat>, seeding: bool,
                                     env: nat -> Turn, k: nat) returns (n: nat)
    requires Sorted(up) && Run(up, Begin(spine, row), seeding, Script(env, k)).empties <= EMPTY_PAGE_RETRIES
    ensures n <= k + Requests(up, Run(up, Begin(spine, row), seeding, Script(env, k)))
    ensures !Run(up, Begin(spine, row), seeding, Script(env, n)).status.Walking?
    decreases Requests(up, Run(up, Begin(spine, row), seeding, Script(env, k)))
  {
    n := k;
    if Run(up, Begin(spine, row), seeding, Script(env, k)).status.Walking? {
      NextTurnIsFewer(up, spine, row, seeding, env, k);
      n := SweepEnds(up, spine, row, seeding, env, k + 1);
    }
  }

  // ---- what a latched seed can still have lost -------------------------------------------

  const ONE := [Record(1, 1)]
  const EMPTY := Page([], true, true)

  /** Four empty pages in a row are believed: the seed latches having landed nothing. */
  lemma EmptyPagesLatchOverALoss()
    ensures RunCycle(ONE, ONE, Job({}, None, false), [EMPTY, EMPTY, EMPTY, EMPTY], 9, true) == Job({}, Some(9), true)
  {
    var p := Begin({}, None);
    var four := [EMPTY, EMPTY, EMPTY, EMPTY];
    assert four[..3] == [EMPTY, EMPTY, EMPTY] && four[..3][..2] == [EMPTY, EMPTY];
    assert [EMPTY, EMPTY][..1] == [EMPTY] && [EMPTY][..0] == [];
    assert Run(ONE, p, true, []) == p;
    assert Run(ONE, p, true, [EMPTY]) == p.(empties := 1);
    assert Run(ONE, p, true, [EMPTY, EMPTY]) == p.(empties := 2);
    assert Run(ONE, p, true, [EMPTY, EMPTY, EMPTY]) == p.(empties := 3);
  }

  const TWO := [Record(1, 1), Record(2, 2)]

  /** A seed that drops a record does not latch, but it resumes past the drop, so the next one does. */
  lemma WithheldSeedResumesPastTheDrop()
    ensures var first := RunCycle(TWO, TWO, Job({}, None, false), [Page([Unparsed, Parsed(Shown, true)], true, true)], 9, true);
            && !first.seedDone
            && RunCycle(TWO, TWO, first, [Page([Parsed(Shown, true)], true, true)], 9, true) == Job({2}, Some(9), true)
  {
    DropAndCheckpoint();
    ResumeAndLatch();
  }

  lemma DropAndCheckpoint()
    ensures RunCycle(TWO, TWO, Job({}, None, false), [Page([Unparsed, Parsed(Shown, true)], true, true)], 9, true)
         == Job({2}, Some(2), false)
  {
    var fates := [Unparsed, Parsed(Shown, true)];
    var t := Page(fates, true, true);
    var start := Tally({}, Missing, Outcome(0, 1, 0));
    assert [t][..0] == [] && Run(TWO, Begin({}, None), true, []) == Begin({}, None);
    assert Served(TWO, None, 0, 2) == TWO && fates[..2] == fates;
    assert TWO[..1] == [TWO[0]] && fates[..1] == [Unparsed] && [TWO[0]][..0] == [] && fates[..1][..0] == [];
    assert Drops(fates[..1]) == 1 && Drops(fates) == 1;
    assert TakePage([TWO[0]], [Unparsed], start) == start;
    assert TakePage(TWO, fates, start) == Tally({2}, At(2), Outcome(1, 1, 0));
    assert AfterPage(Begin({}, None), TWO, fates, true, true)
        == Sweep({2}, Some(2), None, 2, At(2), 0, Outcome(1, 1, 0), Walking);
  }

  lemma ResumeAndLatch()
    ensures RunCycle(TWO, TWO, Job({2}, Some(2), false), [Page([Parsed(Shown, true)], true, true)], 9, true)
         == Job({2}, Some(9), true)
  {
    var fates := [Parsed(Shown, true)];
    var t := Page(fates, true, true);
    var page := [TWO[1]];
    assert [t][..0] == [] && Run(TWO, Begin({2}, Some(2)), true, []) == Begin({2}, Some(2));
    assert TWO[1..] == page && FirstAt(TWO, 2) == 1 && Served(TWO, Some(2), 0, 1) == page;
    assert fates[..1] == fates && fates[..0] == [] && page[..0] == [] && Drops(fates) == 0;
    assert TakePage(page, fates, Tally({2}, Missing, NOTHING)) == Tally({2}, At(2), Outcome(1, 0, 0));
    assert AfterPage(Begin({2}, Some(2)), page, fates, true, true)
        == Sweep({2}, Some(2), Some(2), 1, At(2), 0, Outcome(1, 0, 0), Walking);
  }
}
