/** The backfill as the program runs it: nested loops over windows, pages and records that update
    the database as they go, proved equal to the machine of module Backfill. */
module BackfillSync {
  import opened Wrappers
  import opened Upstream
  import opened Backfill
  import opened BackfillSafety
  import opened BackfillAnswers
  import BackfillPasses

  const BACKFILL_IDLE_PASSES: nat := 3
  const BACKFILL_MAX_PASSES: nat := 24

  /** How a window ends: the walk is over, the window is cut short of that, a page failed for good,
      or the process died inside it. */
  datatype WindowEnd = Done | Cut | Erred | Died

  /** What follows a page: another page of this window, nothing more upstream, or the window's end. */
  datatype PageEnd = NextPage | LastPage | WindowCut

  /** What becomes of a page, and the pass right before the window is closed, if it is. */
  function Taken(up: seq<Record>, p: Pass, t: Turn): (PageEnd, Pass)
    requires Pos(up, p) <= |up| && t.reply.Page?
  {
    var page := Served(up, p.since, p.offset, |t.reply.fates|);
    var fates := t.reply.fates[..|page|];
    var total := |up| - Start(up, p.since);
    var q := p.(errs := 0, out := p.out.(dropped := p.out.dropped + Drops(fates)));
    match ClassifyPage(|page|, p.offset, total)
    case EndWindow => (LastPage, q)
    case RetryEmpty =>
      if p.empties < EMPTY_PAGE_RETRIES then (NextPage, q.(empties := q.empties + 1))
      else (WindowCut, q.(out := q.out.(truncated := q.out.truncated + 1)))
    case Process =>
      var r := AfterPage(p, page, fates, t.saved);
      (if r.offset >= total then LastPage
       else if r.offset >= WINDOW_OFFSET_CAP || t.spent then WindowCut
       else NextPage, r)
  }

  function Closed(end: PageEnd, r: Pass, t: Turn): Pass {
    match end
    case NextPage => r
    case LastPage => r.(out := r.out.(complete := true), status := Finished)
    case WindowCut => CloseWindow(r, t)
  }

  /** The machine after a turn that ended the window in this way, or did not end it. */
  function Ended(end: Option<WindowEnd>, r: Pass, t: Turn): Pass {
    match end
    case Some(Done) => r.(out := r.out.(complete := true), status := Finished)
    case Some(Cut) => CloseWindow(r, t)
    case Some(Erred) => r.(status := Aborted)
    case _ => r
  }

  /** Closing a window forgets how many retries were left in it. */
  lemma CutForgetsRetries(r: Pass, t: Turn)
    ensures CloseWindow(r, t) == CloseWindow(r.(empties := 0, errs := 0), t)
  {
  }

  /** The machine's step is what becomes of the page, and then the window's end. */
  lemma StepTakes(up: seq<Record>, p: Pass, t: Turn)
    requires Pos(up, p) <= |up| && p.status.Walking? && t.reply.Page?
    ensures Step(up, p, t) == Closed(Taken(up, p, t).0, Taken(up, p, t).1, t)
  {
  }

  class Catalogue {
    var spine: set<nat>
    var cursor: Option<nat>
    var marked: bool
    ghost var stepped: map<nat, nat>

    constructor ()
      ensures Rows() == BackfillPasses.UNSTARTED
    {
      spine, cursor, marked, stepped := {}, None, false, map[];
    }

    ghost function Rows(): Store
      reads this
    {
      Store(spine, cursor, marked, stepped)
    }

    /** One page's records, in order: presence check, then tag top-up or upsert. */
    method TakeMangas(page: seq<Record>, fates: seq<Fate>, last0: Stamp, out0: Outcome)
      returns (last: Stamp, out: Outcome)
      requires |page| == |fates|
      modifies this`spine
      ensures TakePage(page, fates, Tally(old(spine), last0, out0)) == Tally(spine, last, out)
    {
      last, out := last0, out0;
      ghost var start := Tally(spine, last0, out0);
      for i := 0 to |page|
        invariant TakePage(page[..i], fates[..i], start) == Tally(spine, last, out)
      {
        assert page[..i + 1][..i] == page[..i] && fates[..i + 1][..i] == fates[..i];
        if fates[i].Parsed? {
          out := out.(scanned := out.scanned + 1);
          last := StampOf(page[i], fates[i].shows, last);
          if !fates[i].done.readOk {
            out := out.(failed := out.failed + 1);
          } else if page[i].id in spine {
            if fates[i].done.hasTags {
              if fates[i].done.writeOk {
                out := out.(tagged := out.tagged + 1);
              } else {
                out := out.(failed := out.failed + 1);
              }
            }
          } else if fates[i].done.writeOk {
            spine := spine + {page[i].id};
            out := out.(ingested := out.ingested + 1);
          } else {
            out := out.(failed := out.failed + 1);
          }
        }
      }
      assert page[..|page|] == page && fates[..|page|] == fates;
    }

    method SetSeedProgress(s: Option<nat>, lands: bool)
      modifies this`cursor
      ensures Rows() == Checkpoint(old(Rows()), s, lands)
    {
      if lands && s.Some? {
        cursor := s;
      }
    }

    /** A page with records on it: take them, checkpoint, advance. */
    method TakeRecords(page: seq<Record>, fates: seq<Fate>, total: nat, t: Turn, ghost p: Pass,
                       offset0: nat, last0: Stamp, out0: Outcome)
      returns (next: PageEnd, offset: nat, last: Stamp, out: Outcome)
      requires |page| == |fates| && p.store == Rows() && p.offset == offset0 && p.last == last0
      requires out0 == p.out.(dropped := p.out.dropped + Drops(fates))
      modifies this`spine, this`cursor
      ensures AfterPage(p, page, fates, t.saved) == Pass(Rows(), p.since, offset, last, 0, 0, out, Walking)
      ensures next == if offset >= total then LastPage
                      else if offset >= WINDOW_OFFSET_CAP || t.spent then WindowCut
                      else NextPage
    {
      last, out := TakeMangas(page, fates, last0, out0);
      SetSeedProgress(ToSince(last), t.saved);
      offset := NextOffset(offset0, |page|);
      next := if offset >= total then LastPage
              else if offset >= WINDOW_OFFSET_CAP || t.spent then WindowCut
              else NextPage;
    }

    /** What the page loop does with one page it was handed. */
    method TakeReply(up: seq<Record>, since: Option<nat>, t: Turn, offset0: nat, last0: Stamp,
                     empties0: nat, ghost errs0: nat, out0: Outcome)
      returns (next: PageEnd, offset: nat, last: Stamp, empties: nat, out: Outcome)
      requires Start(up, since) + offset0 <= |up| && t.reply.Page?
      modifies this`spine, this`cursor
      ensures Taken(up, Pass(old(Rows()), since, offset0, last0, empties0, errs0, out0, Walking), t)
           == (next, Pass(Rows(), since, offset, last, empties, 0, out, Walking))
    {
      offset, last, empties := offset0, last0, empties0;
      var page := Served(up, since, offset, |t.reply.fates|);
      var fates := t.reply.fates[..|page|];
      var total := |up| - Start(up, since);
      out := out0.(dropped := out0.dropped + Drops(fates));
      match ClassifyPage(|page|, offset, total)
      case EndWindow => next := LastPage;
      case RetryEmpty =>
        if empties < EMPTY_PAGE_RETRIES {
          empties := empties + 1;
          next := NextPage;
        } else {
          out := out.(truncated := out.truncated + 1);
          next := WindowCut;
        }
      case Process =>
        empties := 0;
        ghost var p := Pass(Rows(), since, offset, last, empties0, errs0, out0, Walking);
        next, offset, last, out := TakeRecords(page, fates, total, t, p, offset, last, out);
    }

    /** One request of a window and what the loop does with its outcome. */
    method TakeTurn(up: seq<Record>, since: Option<nat>, t: Turn, offset0: nat, last0: Stamp,
                    empties0: nat, errs0: nat, out0: Outcome)
      returns (end: Option<WindowEnd>, offset: nat, last: Stamp, empties: nat, errs: nat, out: Outcome)
      requires Start(up, since) + offset0 <= |up|
      modifies this`spine, this`cursor
      ensures Start(up, since) + offset <= |up|
      ensures var p := Pass(old(Rows()), since, offset0, last0, empties0, errs0, out0, Walking);
              var q := Pass(Rows(), since, offset, last, empties, errs, out, Walking);
              end != Some(Died) && Step(up, p, t) == Ended(end, q, t)
    {
      offset, last, empties, errs, out := offset0, last0, empties0, errs0, out0;
      match t.reply
      case Fatal => end := Some(Erred);
      case Tolerable =>
        if errs >= PAGE_ERROR_RETRIES { return Some(Cut), offset, last, empties, errs, out; }
        end, errs := None, errs + 1;
      case Page(_) =>
        ghost var p := Pass(Rows(), since, offset, last, empties, errs, out, Walking);
        StepTakes(up, p, t);
        var next;
        next, offset, last, empties, out := TakeReply(up, since, t, offset, last, empties, errs, out);
        errs := 0;
        end := match next case NextPage => None case LastPage => Some(Done) case WindowCut => Some(Cut);
    }

    /** The same turn as the next one of a script: the run goes on by what the turn does. */
    method NextTurn(up: seq<Record>, since: Option<nat>, turns: seq<Turn>, k: nat, offset0: nat, last0: Stamp,
                    empties0: nat, errs0: nat, out0: Outcome, ghost start: Pass, ghost r0: Pass)
      returns (end: Option<WindowEnd>, offset: nat, last: Stamp, empties: nat, errs: nat, out: Outcome, ghost r: Pass)
      requires Pos(up, start) <= |up| && k < |turns|
      requires r0 == Pass(Rows(), since, offset0, last0, empties0, errs0, out0, Walking)
      requires Run(up, start, turns[..k]) == r0
      modifies this`spine, this`cursor
      ensures Start(up, since) + offset <= |up| && end != Some(Died)
      ensures r == Pass(Rows(), since, offset, last, empties, errs, out, Walking)
      ensures Run(up, start, turns[..k + 1]) == Ended(end, r, turns[k])
    {
      assert turns[..k + 1][..k] == turns[..k];
      end, offset, last, empties, errs, out := TakeTurn(up, since, turns[k], offset0, last0, empties0, errs0, out0);
      r := Pass(Rows(), since, offset, last, empties, errs, out, Walking);
    }

    /** One window: pages until the catalogue is done, the window is cut, the script ends or a page
        fails for good. `t` is the turn it ended on. */
    method WalkWindow(up: seq<Record>, since: Option<nat>, out0: Outcome, turns: seq<Turn>, k0: nat,
                      ghost start: Pass)
      returns (end: WindowEnd, k: nat, t: Turn, offset: nat, last: Stamp, out: Outcome, ghost r: Pass)
      requires Pos(up, start) <= |up| && k0 < |turns|
      requires Run(up, start, turns[..k0]) == Pass(Rows(), since, 0, Missing, 0, 0, out0, Walking)
      modifies this`spine, this`cursor
      ensures k0 <= k <= |turns| && (end.Died? ==> k == |turns|)
      ensures Run(up, start, turns[..k]) == Ended(Some(end), r, t)
      ensures r == Pass(Rows(), since, offset, last, r.empties, r.errs, out, Walking)
      ensures Start(up, since) + offset <= |up|
    {
      offset, last, out, k, t := 0, Missing, out0, k0, turns[k0];
      var empties, errs := 0, 0;
      r := Pass(Rows(), since, 0, Missing, 0, 0, out0, Walking);
      while k < |turns|
        invariant k0 <= k <= |turns|
        invariant r == Pass(Rows(), since, offset, last, empties, errs, out, Walking)
        invariant Run(up, start, turns[..k]) == r
      {
        t := turns[k];
        var over;
        over, offset, last, empties, errs, out, r :=
          NextTurn(up, since, turns, k, offset, last, empties, errs, out, start, r);
        k := k + 1;
        if over.Some? { return over.value, k, t, offset, last, out, r; }
      }
      end := Died;
    }

    /** One bounded pass. It returns `Walking` when the script, and so the process, ended mid-pass. */
    method BackfillMissingCatalogue(up: seq<Record>, cursorRead: bool, turns: seq<Turn>)
      returns (out: Outcome, status: Status)
      modifies this
      ensures var p := Run(up, Begin(old(Rows()), cursorRead), turns);
              Rows() == p.store && out == p.out && status == p.status
    {
      ghost var start := Begin(Rows(), cursorRead);
      if cursor.None? { stepped := map[]; }
      var since := if cursorRead then cursor else None;
      out := NOTHING;
      var k := 0;
      assert turns[..0] == [];
      while k < |turns|
        invariant k <= |turns|
        invariant Run(up, start, turns[..k]) == Pass(Rows(), since, 0, Missing, 0, 0, out, Walking)
      {
        var end, t, offset, last;
        ghost var r;
        end, k, t, offset, last, out, r := WalkWindow(up, since, out, turns, k, start);
        CutForgetsRetries(r, t);
        if end.Died? {
          assert turns[..k] == turns;
          return out, Walking;
        }
        if !end.Cut? {
          RunStays(up, start, turns, k);
          if end.Done? { out := out.(complete := true); }
          return out, if end.Done? then Finished else Aborted;
        }
        var next := ToSince(last);
        if next.None? || next == since {
          next := ToSinceNextSecond(last);
          if next.None? || next == since {
            RunStays(up, start, turns, k);
            return out, Finished;
          }
          stepped := NoteStep(stepped, last.second, offset);
        }
        since := next;
        SetSeedProgress(since, t.slideSaved);
        if t.slideSpent {
          RunStays(up, start, turns, k);
          return out, Finished;
        }
      }
      assert turns[..k] == turns;
      status := Walking;
    }

    /** One scheduled pass and what is done with its outcome. */
    method RunBackfillPass(up: seq<Record>, ev: BackfillPasses.Event) returns (r: BackfillPasses.Result)
      modifies this
      ensures (Rows(), r) == BackfillPasses.RunPass(up, old(Rows()), ev)
    {
      if !ev.flagRead { return BackfillPasses.Retry(0); }
      if marked || !ev.seeded { return BackfillPasses.Stop; }
      if !ev.lockFree { return BackfillPasses.Retry(0); }
      var out, status := BackfillMissingCatalogue(up, ev.cursorRead, ev.turns);
      if status.Walking? || !ev.survived { return BackfillPasses.Died; }
      if status.Aborted? { return BackfillPasses.Retry(0); }
      if out.IsCleanCompletion() {
        if ev.latched { marked := true; }
        return BackfillPasses.Stop;
      }
      if out.IsDirty() && ev.rewound { cursor := None; }
      return BackfillPasses.Retry(out.scanned);
    }

    /** The schedule of one process: passes until one says stop, three make no progress, the
        ceiling is reached or the process dies. What it leaves is what that many passes leave. */
    method SpawnBackfill(up: seq<Record>, evs: seq<BackfillPasses.Event>) returns (ran: nat)
      modifies this
      ensures ran <= |evs| && ran <= 24
      ensures Rows() == BackfillPasses.Passes(up, old(Rows()), evs[..ran])
      ensures ran > 0 ==> GoesOn(up, old(Rows()), evs, ran - 1)
      ensures ran < |evs| && ran < 24 ==> ran > 0 && EndsAfter(up, old(Rows()), evs, ran)
      ensures AllProductive(up, old(Rows()), evs) ==> ran == if |evs| < 24 then |evs| else 24
    {
      ProductiveNeverEnds(up, Rows(), evs);
      ran := 0;
      var idle := 0;
      while ran < |evs| && ran < BACKFILL_MAX_PASSES
        invariant ran <= |evs| && ran <= BACKFILL_MAX_PASSES
        invariant Rows() == BackfillPasses.Passes(up, old(Rows()), evs[..ran])
        invariant GoesOn(up, old(Rows()), evs, ran)
        invariant idle == Idle(up, old(Rows()), evs, ran)
      {
        assert evs[..ran + 1][..ran] == evs[..ran];
        var r := RunBackfillPass(up, evs[ran]);
        ran := ran + 1;
        NextEnd(up, old(Rows()), evs, ran);
        if r.Stop? || r.Died? { return; }
        if r.scanned == 0 {
          idle := idle + 1;
          if idle >= BACKFILL_IDLE_PASSES { return; }
        } else {
          idle := 0;
        }
      }
    }
  }

  /** What the pass after the first `k` of them says. */
  function ResultOf(up: seq<Record>, store: Store, evs: seq<BackfillPasses.Event>, k: nat): BackfillPasses.Result
    requires k < |evs|
  {
    BackfillPasses.RunPass(up, BackfillPasses.Passes(up, store, evs[..k]), evs[k]).1
  }

  /** How many of the first `k` passes in a row, counted from the last, walked nothing. */
  function Idle(up: seq<Record>, store: Store, evs: seq<BackfillPasses.Event>, k: nat): nat
    requires k <= |evs|
  {
    if k > 0 && ResultOf(up, store, evs, k - 1) == BackfillPasses.Retry(0) then Idle(up, store, evs, k - 1) + 1 else 0
  }

  /** Pass `k` and the two before it walked nothing. */
  predicate ThreeIdle(up: seq<Record>, store: Store, evs: seq<BackfillPasses.Event>, k: nat)
    requires k < |evs|
  {
    && k >= 2
    && ResultOf(up, store, evs, k - 2) == BackfillPasses.Retry(0)
    && ResultOf(up, store, evs, k - 1) == BackfillPasses.Retry(0)
    && ResultOf(up, store, evs, k) == BackfillPasses.Retry(0)
  }

  /** The schedule ends after `k` passes: the last one said stop or died, or the last three walked nothing. */
  predicate EndsAfter(up: seq<Record>, store: Store, evs: seq<BackfillPasses.Event>, k: nat)
    requires 1 <= k <= |evs|
  {
    !ResultOf(up, store, evs, k - 1).Retry? || ThreeIdle(up, store, evs, k - 1)
  }

  /** It ends after none of the first `k`. */
  predicate GoesOn(up: seq<Record>, store: Store, evs: seq<BackfillPasses.Event>, k: nat)
    requires k <= |evs|
  {
    forall j | 1 <= j <= k :: !EndsAfter(up, store, evs, j)
  }

  lemma IdleNext(up: seq<Record>, store: Store, evs: seq<BackfillPasses.Event>, k: nat)
    requires 1 <= k <= |evs|
    ensures Idle(up, store, evs, k)
         == if ResultOf(up, store, evs, k - 1) == BackfillPasses.Retry(0) then Idle(up, store, evs, k - 1) + 1 else 0
  {
  }

  lemma NextEnd(up: seq<Record>, store: Store, evs: seq<BackfillPasses.Event>, k: nat)
    requires 1 <= k <= |evs|
    ensures EndsAfter(up, store, evs, k)
       <==> !ResultOf(up, store, evs, k - 1).Retry? || Idle(up, store, evs, k) >= BACKFILL_IDLE_PASSES
    ensures GoesOn(up, store, evs, k) <==> GoesOn(up, store, evs, k - 1) && !EndsAfter(up, store, evs, k)
  {
    IdleNext(up, store, evs, k);
    if k >= 2 { IdleNext(up, store, evs, k - 1); }
    if k >= 3 { IdleNext(up, store, evs, k - 2); }
  }

  /** A pass that comes to the end of its walk having parsed something, short of a clean end of upstream. */
  predicate Productive(up: seq<Record>, store: Store, ev: BackfillPasses.Event) {
    && Concludes(up, store, ev) && !ConcludesClean(up, store, ev)
    && ParsedIn(up, Begin(store, ev.cursorRead), ev.turns) > 0
  }

  predicate AllProductive(up: seq<Record>, store: Store, evs: seq<BackfillPasses.Event>) {
    forall k | 0 <= k < |evs| :: Productive(up, BackfillPasses.Passes(up, store, evs[..k]), evs[k])
  }

  lemma ProductiveNeverEnds(up: seq<Record>, store: Store, evs: seq<BackfillPasses.Event>)
    ensures AllProductive(up, store, evs) ==> GoesOn(up, store, evs, |evs|)
  {
    if AllProductive(up, store, evs) {
      forall k | 1 <= k <= |evs| ensures !EndsAfter(up, store, evs, k) {
        PassAnswers(up, BackfillPasses.Passes(up, store, evs[..k - 1]), evs[k - 1]);
      }
    }
  }

  /** A pass that is over takes no further turn. */
  lemma {:induction false} RunStays(up: seq<Record>, p: Pass, turns: seq<Turn>, k: nat)
    requires Pos(up, p) <= |up| && k <= |turns|
    requires !Run(up, p, turns[..k]).status.Walking?
    ensures Run(up, p, turns) == Run(up, p, turns[..k])
  {
    if k == |turns| {
      assert turns[..k] == turns;
    } else {
      assert turns[..|turns| - 1][..k] == turns[..k];
      RunStays(up, p, turns[..|turns| - 1], k);
    }
  }
}
