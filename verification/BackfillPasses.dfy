/** Any sequence of backfill passes, across restarts: when the permanent marker may be believed. */
module BackfillPasses {
  import opened Wrappers
  import opened Upstream
  import opened Backfill
  import opened BackfillSafety

  /** What one scheduled pass meets: the reads and the lock at its start, its turns, whether the
      process outlives it, and whether the rewind and the marker writes land. */
  datatype Event = Event(flagRead: bool, seeded: bool, lockFree: bool, cursorRead: bool, turns: seq<Turn>,
                         survived: bool, rewound: bool, latched: bool)

  datatype Result = Stop | Retry(scanned: nat) | Died

  /** Whether the event gets as far as walking the catalogue. */
  predicate Walks(store: Store, ev: Event) {
    ev.flagRead && !store.marked && ev.seeded && ev.lockFree
  }

  function WalkOf(up: seq<Record>, store: Store, ev: Event): Pass {
    Run(up, Begin(store, ev.cursorRead), ev.turns)
  }

  /** What is done with a pass once it is over. */
  function Settle(p: Pass, ev: Event): (Store, Result) {
    if p.status.Walking? || !ev.survived then (p.store, Died)
    else if p.status.Aborted? then (p.store, Retry(0))
    else if p.out.IsCleanCompletion() then (p.store.(marked := p.store.marked || ev.latched), Stop)
    else (if p.out.IsDirty() && ev.rewound then p.store.(cursor := None) else p.store, Retry(p.out.scanned))
  }

  function RunPass(up: seq<Record>, store: Store, ev: Event): (Store, Result) {
    if !ev.flagRead then (store, Retry(0))
    else if store.marked then (store, Stop)
    else if !ev.seeded then (store, Stop)
    else if !ev.lockFree then (store, Retry(0))
    else Settle(WalkOf(up, store, ev), ev)
  }

  function Passes(up: seq<Record>, store: Store, evs: seq<Event>): Store {
    if evs == [] then store
    else RunPass(up, Passes(up, store, evs[..|evs| - 1]), evs[|evs| - 1]).0
  }

  /** A dirty pass that does not end in a rewind: it errored, its process died, or the rewind failed. */
  predicate Unrewound(up: seq<Record>, store: Store, ev: Event) {
    && Walks(store, ev)
    && var p := WalkOf(up, store, ev);
       p.out.IsDirty() && !(p.status.Finished? && ev.survived && ev.rewound)
  }

  predicate AllRewound(up: seq<Record>, store: Store, evs: seq<Event>) {
    evs == []
    || (AllRewound(up, store, evs[..|evs| - 1])
        && !Unrewound(up, Passes(up, store, evs[..|evs| - 1]), evs[|evs| - 1]))
  }

  const UNSTARTED := Store({}, None, false, map[])

  lemma BeginSound(up: seq<Record>, store: Store, cursorRead: bool)
    requires Sorted(up) && StoreSound(up, store) && !store.marked
    ensures Sound(up, Begin(store, cursorRead))
  {
  }

  lemma RunPassSound(up: seq<Record>, store: Store, ev: Event)
    requires Sorted(up) && StoreSound(up, store) && !Unrewound(up, store, ev)
    ensures StoreSound(up, RunPass(up, store, ev).0)
  {
    if Walks(store, ev) {
      BeginSound(up, store, ev.cursorRead);
      RunSound(up, Begin(store, ev.cursorRead), ev.turns);
    }
  }

  /** Over any sequence of passes in which every dirty pass was rewound, everything before the
      stored cursor is accounted for, and once the marker is latched everything is. */
  lemma {:induction false} MarkerMeansAccounted(up: seq<Record>, store: Store, evs: seq<Event>)
    requires Sorted(up) && StoreSound(up, store) && AllRewound(up, store, evs)
    ensures StoreSound(up, Passes(up, store, evs))
  {
    if evs != [] {
      var before := evs[..|evs| - 1];
      MarkerMeansAccounted(up, store, before);
      RunPassSound(up, Passes(up, store, before), evs[|evs| - 1]);
    }
  }

  // ---- nothing at all is lost unless a second is left too early -----------------------------

  /** The pass right before the turn closes its window, if it does. */
  function Closing(up: seq<Record>, p: Pass, t: Turn): (c: Option<Pass>)
    requires Pos(up, p) <= |up|
    ensures c.Some? ==> Step(up, p, t) == CloseWindow(c.value, t) && Pos(up, c.value) <= |up|
    ensures c.Some? ==> c.value.store.stepped == p.store.stepped
  {
    if !p.status.Walking? || t.reply.Fatal? then None
    else if t.reply.Tolerable? then (if p.errs < PAGE_ERROR_RETRIES then None else Some(p))
    else
      var page := Served(up, p.since, p.offset, |t.reply.fates|);
      var fates := t.reply.fates[..|page|];
      var total := |up| - Start(up, p.since);
      var out := p.out.(dropped := p.out.dropped + Drops(fates));
      match ClassifyPage(|page|, p.offset, total)
      case EndWindow => None
      case RetryEmpty =>
        if p.empties < EMPTY_PAGE_RETRIES then None
        else Some(p.(errs := 0, out := out.(truncated := out.truncated + 1)))
      case Process =>
        var r := AfterPage(p, page, fates, t.saved);
        if r.offset < total && (r.offset >= WINDOW_OFFSET_CAP || t.spent) then Some(r) else None
  }

  /**
   * The turn steps over a second before its window is full, while records of that second are still
   * to come. A budget or a failing page does this only when the window is already at that second.
   */
  predicate Hasty(up: seq<Record>, p: Pass, t: Turn)
    requires Pos(up, p) <= |up|
  {
    var c := Closing(up, p, t);
    && c.Some? && StepsOver(c.value.since, c.value.last) && c.value.offset < WINDOW_OFFSET_CAP
    && Pos(up, c.value) < FirstAt(up, c.value.last.second + 1)
  }

  /** No turn of the walk is hasty. */
  ghost predicate Unhurried(up: seq<Record>, p: Pass, turns: seq<Turn>)
    requires Pos(up, p) <= |up|
  {
    turns == []
    || (Unhurried(up, p, turns[..|turns| - 1])
        && !Hasty(up, Run(up, p, turns[..|turns| - 1]), turns[|turns| - 1]))
  }

  /** Every step left a full window of its second behind it, or the whole second. */
  ghost predicate Harmless(up: seq<Record>, stepped: map<nat, nat>) {
    forall s | s in stepped :: WINDOW_OFFSET_CAP <= stepped[s] || FirstAt(up, s + 1) <= FirstAt(up, s) + stepped[s]
  }

  lemma StepHarmless(up: seq<Record>, p: Pass, t: Turn)
    requires Pos(up, p) <= |up| && !Hasty(up, p, t) && Harmless(up, p.store.stepped)
    ensures Harmless(up, Step(up, p, t).store.stepped)
  {
    var c := Closing(up, p, t);
    if c.Some? {
      CloseHarmless(up, c.value, t);
    } else {
      StepsOnlyOnClosing(up, p, t);
    }
  }

  lemma StepsOnlyOnClosing(up: seq<Record>, p: Pass, t: Turn)
    requires Pos(up, p) <= |up| && Closing(up, p, t).None?
    ensures Step(up, p, t).store.stepped == p.store.stepped
  {
  }

  lemma CloseHarmless(up: seq<Record>, c: Pass, t: Turn)
    requires Pos(up, c) <= |up| && Harmless(up, c.store.stepped)
    requires StepsOver(c.since, c.last) ==>
               c.offset >= WINDOW_OFFSET_CAP || FirstAt(up, c.last.second + 1) <= Pos(up, c)
    ensures Harmless(up, CloseWindow(c, t).store.stepped)
  {
  }

  lemma {:induction false} RunHarmless(up: seq<Record>, p: Pass, turns: seq<Turn>)
    requires Pos(up, p) <= |up| && Unhurried(up, p, turns) && Harmless(up, p.store.stepped)
    ensures Harmless(up, Run(up, p, turns).store.stepped)
  {
    if turns != [] {
      RunHarmless(up, p, turns[..|turns| - 1]);
      StepHarmless(up, Run(up, p, turns[..|turns| - 1]), turns[|turns| - 1]);
    }
  }

  /** No pass that came out clean made a hasty turn. */
  ghost predicate AllUnhurried(up: seq<Record>, store: Store, evs: seq<Event>) {
    evs == []
    || (AllUnhurried(up, store, evs[..|evs| - 1])
        && var (before, ev) := (Passes(up, store, evs[..|evs| - 1]), evs[|evs| - 1]);
           Walks(before, ev) ==>
             WalkOf(up, before, ev).out.IsDirty() || Unhurried(up, Begin(before, ev.cursorRead), ev.turns))
  }

  /** A pass without a hasty turn leaves the steps harmless. */
  lemma PassHarmless(up: seq<Record>, store: Store, ev: Event)
    requires Walks(store, ev) ==> Unhurried(up, Begin(store, ev.cursorRead), ev.turns)
    requires store.cursor.Some? || !Walks(store, ev) ==> Harmless(up, store.stepped)
    ensures Harmless(up, RunPass(up, store, ev).0.stepped)
  {
    if Walks(store, ev) { RunHarmless(up, Begin(store, ev.cursorRead), ev.turns); }
  }

  /** A dirty pass that was rewound leaves no cursor and no marker. */
  lemma DirtyLeavesNothing(up: seq<Record>, store: Store, ev: Event)
    requires Walks(store, ev) && WalkOf(up, store, ev).out.IsDirty() && !Unrewound(up, store, ev)
    ensures RunPass(up, store, ev).0.cursor.None? && !RunPass(up, store, ev).0.marked
  {
  }

  lemma {:induction false} PassesHarmless(up: seq<Record>, store: Store, evs: seq<Event>)
    requires AllRewound(up, store, evs) && AllUnhurried(up, store, evs)
    requires store.cursor.Some? || store.marked ==> Harmless(up, store.stepped)
    ensures var r := Passes(up, store, evs); r.cursor.Some? || r.marked ==> Harmless(up, r.stepped)
  {
    if evs != [] {
      var (mid, ev) := (Passes(up, store, evs[..|evs| - 1]), evs[|evs| - 1]);
      PassesHarmless(up, store, evs[..|evs| - 1]);
      if Walks(mid, ev) && WalkOf(up, mid, ev).out.IsDirty() {
        DirtyLeavesNothing(up, mid, ev);
      } else if Walks(mid, ev) {
        PassHarmless(up, mid, ev);
      }
    }
  }

  /** With harmless steps and no crowded second, whatever is accounted for is there. */
  lemma HarmlessIsThere(up: seq<Record>, spine: set<nat>, stepped: map<nat, nat>, i: nat)
    requires Sorted(up) && NoCrowdedSecond(up) && i < |up| && Harmless(up, stepped) && Accounted(up, spine, stepped, i)
    ensures up[i].id in spine
  {
    var s := up[i].second;
    assert FirstAt(up, s + 1) <= FirstAt(up, s) + WINDOW_OFFSET_CAP;
    if s in stepped && FirstAt(up, s) + stepped[s] <= i {
      AfterFirstAt(up, s + 1, i);
      assert false;
    }
  }

  /**
   * Over any passes, budget stops, page errors and resumptions included: if every dirty pass was
   * rewound, no clean one left a second hastily and no second is crowded, then a latched marker
   * means every upstream record is in the spine.
   */
  lemma MarkerMeansComplete(up: seq<Record>, evs: seq<Event>)
    requires Sorted(up) && AllRewound(up, UNSTARTED, evs) && AllUnhurried(up, UNSTARTED, evs) && NoCrowdedSecond(up)
    ensures var r := Passes(up, UNSTARTED, evs); r.marked ==> forall x | x in up :: x.id in r.spine
  {
    var r := Passes(up, UNSTARTED, evs);
    MarkerMeansAccounted(up, UNSTARTED, evs);
    PassesHarmless(up, UNSTARTED, evs);
    if r.marked {
      forall i | 0 <= i < |up|
        ensures up[i].id in r.spine
      {
        assert Accounted(up, r.spine, r.stepped, i);
        HarmlessIsThere(up, r.spine, r.stepped, i);
      }
    }
  }
}
