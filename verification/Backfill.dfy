/** The one-shot catalogue gap backfill as a machine that takes one upstream reply at a time.
    A script of turns is everything outside the process decides: what each request returns,
    which records parse, which reads and writes fail, and when the budget runs out. A script
    that ends while the pass is still walking is a process that died there. */
module Backfill {
  import opened Wrappers
  import opened Upstream

  const PAGE_ERROR_RETRIES: nat := 2

  /** What is done with one parsed record. `readOk` is the presence check; `writeOk` the upsert
      of an absent record or the tag refresh of a present one. */
  datatype Upkeep = Upkeep(readOk: bool, hasTags: bool, writeOk: bool)

  type Fate = RecordFate<Upkeep>

  datatype Reply = Page(fates: seq<Fate>) | Tolerable | Fatal

  /** One request, plus whether each checkpoint write lands and whether the budget is then spent,
      after the page and after the window. */
  datatype Turn = Turn(reply: Reply, saved: bool, spent: bool, slideSaved: bool, slideSpent: bool)

  datatype Outcome = Outcome(scanned: nat, ingested: nat, tagged: nat, failed: nat,
                             complete: bool, truncated: nat, dropped: nat)
  {
    predicate IsCleanCompletion() {
      complete && failed == 0 && truncated == 0 && dropped == 0
    }

    predicate IsDirty() {
      failed > 0 || truncated > 0 || dropped > 0
    }
  }

  const NOTHING := Outcome(0, 0, 0, 0, false, 0, 0)

  /** The rows the backfill reads and writes, with one history variable: `stepped` maps a second
      the walk stepped over to how many of its records the window had walked by then. */
  datatype Store = Store(spine: set<nat>, cursor: Option<nat>, marked: bool, stepped: map<nat, nat>)

  datatype Status = Walking | Finished | Aborted

  datatype Pass = Pass(store: Store, since: Option<nat>, offset: nat, last: Stamp,
                       empties: nat, errs: nat, out: Outcome, status: Status)

  // ---- one page ------------------------------------------------------------------------

  datatype Tally = Tally(spine: set<nat>, last: Stamp, out: Outcome)

  function TakeRecord(r: Record, f: Fate, t: Tally): Tally {
    match f
    case Unparsed => t
    case Parsed(shows, Upkeep(readOk, hasTags, writeOk)) =>
      var out := t.out.(scanned := t.out.scanned + 1);
      var last := StampOf(r, shows, t.last);
      if !readOk then Tally(t.spine, last, out.(failed := out.failed + 1))
      else if r.id in t.spine then
        if !hasTags then Tally(t.spine, last, out)
        else if writeOk then Tally(t.spine, last, out.(tagged := out.tagged + 1))
        else Tally(t.spine, last, out.(failed := out.failed + 1))
      else if writeOk then Tally(t.spine + {r.id}, last, out.(ingested := out.ingested + 1))
      else Tally(t.spine, last, out.(failed := out.failed + 1))
  }

  function TakePage(page: seq<Record>, fates: seq<Fate>, t: Tally): Tally
    requires |page| == |fates|
  {
    if page == [] then t
    else
      var n := |page| - 1;
      TakeRecord(page[n], fates[n], TakePage(page[..n], fates[..n], t))
  }

  // ---- one turn ------------------------------------------------------------------------

  function Checkpoint(store: Store, s: Option<nat>, saved: bool): Store {
    if saved && s.Some? then store.(cursor := s) else store
  }

  function NoteStep(stepped: map<nat, nat>, s: nat, walked: nat): map<nat, nat> {
    stepped[s := if s in stepped && stepped[s] <= walked then stepped[s] else walked]
  }

  /** The steps recorded once the window of `p` has closed. */
  function StepsAfter(p: Pass): map<nat, nat> {
    if StepsOver(p.since, p.last) then NoteStep(p.store.stepped, p.last.second, p.offset) else p.store.stepped
  }

  /** The end of a window: open the next one, or finish if it cannot move or the budget is spent. */
  function CloseWindow(p: Pass, t: Turn): (r: Pass)
    ensures r.store.spine == p.store.spine && r.store.marked == p.store.marked && r.out == p.out
    ensures NextWindow(p.since, p.last).None? ==> r.status.Finished? && r.store == p.store
    ensures NextWindow(p.since, p.last).Some? ==>
              && r.since == NextWindow(p.since, p.last) && r.offset == 0
              && (r.store.cursor == p.store.cursor || r.store.cursor == r.since)
  {
    var next := NextWindow(p.since, p.last);
    if next.None? then p.(empties := 0, errs := 0, status := Finished)
    else
      var store := Store(p.store.spine, if t.slideSaved then next else p.store.cursor,
                         p.store.marked, StepsAfter(p));
      Pass(store, next, 0, Missing, 0, 0, p.out, if t.slideSpent then Finished else Walking)
  }

  /** The pass right after a page is taken, before any decision about the window's end. */
  function AfterPage(p: Pass, page: seq<Record>, fates: seq<Fate>, saved: bool): Pass
    requires |page| == |fates|
  {
    var out := p.out.(dropped := p.out.dropped + Drops(fates));
    var tally := TakePage(page, fates, Tally(p.store.spine, p.last, out));
    Pass(Checkpoint(p.store.(spine := tally.spine), ToSince(tally.last), saved),
         p.since, NextOffset(p.offset, |page|), tally.last, 0, 0, tally.out, Walking)
  }

  /** After a page: the catalogue is walked, or this window is over, or the next page follows. */
  function PageTaken(r: Pass, total: nat, t: Turn): Pass {
    if r.offset >= total then r.(out := r.out.(complete := true), status := Finished)
    else if r.offset >= WINDOW_OFFSET_CAP || t.spent then CloseWindow(r, t)
    else r
  }

  function Step(up: seq<Record>, p: Pass, t: Turn): (r: Pass)
    requires Start(up, p.since) + p.offset <= |up|
    ensures Start(up, r.since) + r.offset <= |up|
    ensures r.store.marked == p.store.marked
  {
    if !p.status.Walking? then p
    else
      match t.reply
      case Fatal => p.(status := Aborted)
      case Tolerable =>
        if p.errs < PAGE_ERROR_RETRIES then p.(errs := p.errs + 1) else CloseWindow(p, t)
      case Page(fates) =>
        var page := Served(up, p.since, p.offset, |fates|);
        var total := |up| - Start(up, p.since);
        var out := p.out.(dropped := p.out.dropped + Drops(fates[..|page|]));
        var q := p.(errs := 0, out := out);
        match ClassifyPage(|page|, p.offset, total)
        case EndWindow => q.(out := out.(complete := true), status := Finished)
        case RetryEmpty =>
          if q.empties < EMPTY_PAGE_RETRIES then q.(empties := q.empties + 1)
          else CloseWindow(q.(out := out.(truncated := out.truncated + 1)), t)
        case Process =>
          PageTaken(AfterPage(p, page, fates[..|page|], t.saved), total, t)
  }

  /** How a pass begins: from the stored cursor, or from the beginning when there is none or it
      cannot be read. With no cursor stored the walk owes nothing to earlier steps. */
  function Begin(store: Store, cursorRead: bool): Pass {
    Pass(if store.cursor.None? then store.(stepped := map[]) else store,
         if cursorRead then store.cursor else None, 0, Missing, 0, 0, NOTHING, Walking)
  }

  function Run(up: seq<Record>, p: Pass, turns: seq<Turn>): (r: Pass)
    requires Start(up, p.since) + p.offset <= |up|
    ensures Start(up, r.since) + r.offset <= |up|
    ensures r.store.marked == p.store.marked
  {
    if turns == [] then p else Step(up, Run(up, p, turns[..|turns| - 1]), turns[|turns| - 1])
  }
}
