/** What a backfill pass says of itself, and so how long the schedule of one process goes on. */
module BackfillAnswers {
  import opened Wrappers
  import opened Upstream
  import opened Backfill
  import opened BackfillSafety
  import opened BackfillPasses

  // ---- what a pass has scanned -----------------------------------------------------------

  /** The records that one turn hands over and that parse. */
  function ParsedAt(up: seq<Record>, p: Pass, t: Turn): nat
    requires Pos(up, p) <= |up|
  {
    if p.status.Walking? && t.reply.Page? then
      Parses(t.reply.fates[..|Served(up, p.since, p.offset, |t.reply.fates|)|])
    else 0
  }

  function ParsedIn(up: seq<Record>, p: Pass, turns: seq<Turn>): nat
    requires Pos(up, p) <= |up|
  {
    if turns == [] then 0
    else
      var before := turns[..|turns| - 1];
      ParsedIn(up, p, before) + ParsedAt(up, Run(up, p, before), turns[|turns| - 1])
  }

  lemma {:induction false} PageScans(page: seq<Record>, fates: seq<Fate>, t: Tally)
    requires |page| == |fates|
    ensures TakePage(page, fates, t).out.scanned == t.out.scanned + Parses(fates)
  {
    if page != [] { PageScans(page[..|page| - 1], fates[..|page| - 1], t); }
  }

  lemma TakenScans(r: Pass, total: nat, t: Turn)
    ensures PageTaken(r, total, t).out.scanned == r.out.scanned
  {
  }

  lemma StepScans(up: seq<Record>, p: Pass, t: Turn)
    requires Pos(up, p) <= |up|
    ensures Step(up, p, t).out.scanned == p.out.scanned + ParsedAt(up, p, t)
  {
    if p.status.Walking? && t.reply.Page? {
      var page := Served(up, p.since, p.offset, |t.reply.fates|);
      var fates := t.reply.fates[..|page|];
      if page != [] {
        PageScans(page, fates, Tally(p.store.spine, p.last, p.out.(dropped := p.out.dropped + Drops(fates))));
        TakenScans(AfterPage(p, page, fates, t.saved), |up| - Start(up, p.since), t);
      }
    }
  }

  /** A walk has scanned the records that it was handed and that parse. */
  lemma {:induction false} RunScans(up: seq<Record>, p: Pass, turns: seq<Turn>)
    requires Pos(up, p) <= |up|
    ensures Run(up, p, turns).out.scanned == p.out.scanned + ParsedIn(up, p, turns)
  {
    if turns != [] {
      var before := turns[..|turns| - 1];
      RunScans(up, p, before);
      StepScans(up, Run(up, p, before), turns[|turns| - 1]);
    }
  }

  // ---- what a pass answers ---------------------------------------------------------------

  /** The process outlives a pass that gets to the end of its walk. */
  predicate Concludes(up: seq<Record>, store: Store, ev: Event) {
    Walks(store, ev) && ev.survived && WalkOf(up, store, ev).status.Finished?
  }

  /** It reached the end of upstream and lost nothing on the way. */
  predicate ConcludesClean(up: seq<Record>, store: Store, ev: Event) {
    && Concludes(up, store, ev)
    && var out := WalkOf(up, store, ev).out;
       out.complete && out.failed == 0 && out.truncated == 0 && out.dropped == 0
  }

  /**
   * A pass says stop exactly when there is nothing to do: the marker is set, the seed is not done, or
   * this very walk came to the end and lost nothing. It dies exactly with its process. Otherwise it
   * asks for another pass, and says how many records a concluded walk has parsed.
   */
  lemma PassAnswers(up: seq<Record>, store: Store, ev: Event)
    ensures var answer := RunPass(up, store, ev).1;
            && (answer.Stop? <==> ev.flagRead && (store.marked || !ev.seeded || ConcludesClean(up, store, ev)))
            && (answer.Died? <==> Walks(store, ev) && (!ev.survived || WalkOf(up, store, ev).status.Walking?))
            && (answer.Retry? ==>
                  answer.scanned == if Concludes(up, store, ev)
                                    then ParsedIn(up, Begin(store, ev.cursorRead), ev.turns) else 0)
  {
    if Walks(store, ev) { RunScans(up, Begin(store, ev.cursorRead), ev.turns); }
  }

  /**
   * What it leaves: a pass that does not walk changes nothing; one that does keeps what its walk
   * stored, sets the marker exactly on a clean conclusion whose write lands, and forgets the cursor
   * exactly on a concluded walk with a loss whose rewind lands.
   */
  lemma PassLeaves(up: seq<Record>, store: Store, ev: Event)
    ensures var r := RunPass(up, store, ev).0;
            && (!Walks(store, ev) ==> r == store)
            && (Walks(store, ev) ==>
                  var walked := WalkOf(up, store, ev);
                  && r.spine == walked.store.spine && r.stepped == walked.store.stepped
                  && (r.marked <==> ConcludesClean(up, store, ev) && ev.latched)
                  && r.cursor == if Concludes(up, store, ev) && ev.rewound && Lost(walked.out)
                                 then None else walked.store.cursor)
  {
  }

  predicate Lost(out: Outcome) { out.failed != 0 || out.truncated != 0 || out.dropped != 0 }

}
