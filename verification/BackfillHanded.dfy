/** Which records the passes are handed at all, and so which ones a latched marker can lack. */
module BackfillHanded {
  import opened Wrappers
  import opened Upstream
  import opened Backfill
  import opened BackfillSafety
  import opened BackfillPasses

  /** The records one turn hands over, parsed or not. */
  function HandedAt(up: seq<Record>, p: Pass, t: Turn): set<nat>
    requires Pos(up, p) <= |up|
  {
    if p.status.Walking? && t.reply.Page? then IdsOf(Served(up, p.since, p.offset, |t.reply.fates|)) else {}
  }

  function Handed(up: seq<Record>, p: Pass, turns: seq<Turn>): set<nat>
    requires Pos(up, p) <= |up|
  {
    if turns == [] then {}
    else
      var before := turns[..|turns| - 1];
      Handed(up, p, before) + HandedAt(up, Run(up, p, before), turns[|turns| - 1])
  }

  /** What one pass hands over, if it gets as far as walking. */
  function HandedIn(up: seq<Record>, store: Store, ev: Event): set<nat> {
    if Walks(store, ev) then Handed(up, Begin(store, ev.cursorRead), ev.turns) else {}
  }

  /** The records any pass has handed over. */
  function EverHanded(up: seq<Record>, store: Store, evs: seq<Event>): set<nat> {
    if evs == [] then {}
    else
      var (before, ev) := (Passes(up, store, evs[..|evs| - 1]), evs[|evs| - 1]);
      EverHanded(up, store, evs[..|evs| - 1]) + HandedIn(up, before, ev)
  }

  // ---- everything walked past was handed over --------------------------------------------

  /** The store as if all that was handed over had landed. */
  function AsIf(store: Store, handed: set<nat>): Store { store.(spine := handed) }

  /** Everything walked, and everything before the cursor, was handed over or lies in a stepped-over tail. */
  ghost predicate Walked(up: seq<Record>, p: Pass, handed: set<nat>) {
    && Pos(up, p) <= |up|
    && (p.status.Walking? ==> p.offset < WINDOW_OFFSET_CAP)
    && (p.out.complete ==> p.status.Finished? && Pos(up, p) == |up|)
    && LastSeen(up, p.since, p.last, Pos(up, p))
    && Covered(up, handed, p.store.stepped, Pos(up, p))
    && StoreSound(up, AsIf(p.store, handed))
  }

  lemma CloseWalked(up: seq<Record>, c: Pass, t: Turn, handed: set<nat>)
    requires Sorted(up) && Pos(up, c) <= |up| && !c.out.complete
    requires LastSeen(up, c.since, c.last, Pos(up, c))
    requires Covered(up, handed, c.store.stepped, Pos(up, c)) && StoreSound(up, AsIf(c.store, handed))
    ensures Walked(up, CloseWindow(c, t), handed)
  {
    var bare := c.(store := AsIf(c.store, handed), out := NOTHING);
    CloseWindowSound(up, bare, t);
    SameWindow(c, t, handed);
  }

  /** Closing a window looks at neither the spine nor the counters. */
  lemma SameWindow(c: Pass, t: Turn, handed: set<nat>)
    ensures var bare := c.(store := AsIf(c.store, handed), out := NOTHING);
            CloseWindow(c, t) == CloseWindow(bare, t).(store := CloseWindow(bare, t).store.(spine := c.store.spine), out := c.out)
  {
  }

  lemma PageWalked(up: seq<Record>, p: Pass, page: seq<Record>, fates: seq<Fate>, saved: bool, handed: set<nat>)
    requires Sorted(up) && Walked(up, p, handed) && p.status.Walking? && |page| == |fates| && Follows(up, p, page)
    ensures var r := AfterPage(p, page, fates, saved);
            && Pos(up, r) == Pos(up, p) + |page| && r.since == p.since && !r.out.complete && r.status.Walking?
            && LastSeen(up, r.since, r.last, Pos(up, r))
            && Covered(up, handed + IdsOf(page), r.store.stepped, Pos(up, r))
            && StoreSound(up, AsIf(r.store, handed + IdsOf(page)))
  {
    var r, more := AfterPage(p, page, fates, saved), handed + IdsOf(page);
    PageKeepsLast(up, p, page, fates, saved);
    PageLands(page, fates, Tally(p.store.spine, p.last, p.out.(dropped := p.out.dropped + Drops(fates))));
    CoveredGrows(up, handed, p.store.stepped, more, p.store.stepped, Pos(up, p));
    forall i | Pos(up, p) <= i < Pos(up, p) + |page| ensures Accounted(up, more, p.store.stepped, i) {
      assert up[i] == page[i - Pos(up, p)];
    }
    if r.last.At? { LastSeenBounds(up, p.since, r.last, Pos(up, p) + |page|); }
    StoreGrows(up, AsIf(p.store, handed), AsIf(r.store, more));
  }

  lemma StepWalked(up: seq<Record>, p: Pass, t: Turn, handed: set<nat>)
    requires Sorted(up) && Walked(up, p, handed)
    ensures Walked(up, Step(up, p, t), handed + HandedAt(up, p, t))
  {
    if !p.status.Walking? || !t.reply.Page? {
      assert handed + {} == handed;
      if p.status.Walking? && t.reply.Tolerable? { CloseWalked(up, p, t, handed); }
    } else {
      var page := Served(up, p.since, p.offset, |t.reply.fates|);
      if page == [] {
        EmptyWalked(up, p, t, handed);
      } else {
        FullWalked(up, p, t, handed, page);
      }
    }
  }

  lemma EmptyWalked(up: seq<Record>, p: Pass, t: Turn, handed: set<nat>)
    requires Sorted(up) && Walked(up, p, handed) && p.status.Walking? && t.reply.Page?
    requires Served(up, p.since, p.offset, |t.reply.fates|) == []
    ensures Walked(up, Step(up, p, t), handed + HandedAt(up, p, t))
  {
    assert handed + IdsOf([]) == handed;
    assert t.reply.fates[..0] == [];
    var c := Closing(up, p, t);
    if c.Some? { CloseWalked(up, c.value, t, handed); }
  }

  lemma FullWalked(up: seq<Record>, p: Pass, t: Turn, handed: set<nat>, page: seq<Record>)
    requires Sorted(up) && Walked(up, p, handed) && p.status.Walking? && t.reply.Page?
    requires page == Served(up, p.since, p.offset, |t.reply.fates|) != []
    ensures Walked(up, Step(up, p, t), handed + HandedAt(up, p, t))
  {
    var fates := t.reply.fates[..|page|];
    PageWalked(up, p, page, fates, t.saved, handed);
    TakenWalked(up, AfterPage(p, page, fates, t.saved), t, handed + IdsOf(page));
  }

  lemma TakenWalked(up: seq<Record>, r: Pass, t: Turn, handed: set<nat>)
    requires Sorted(up) && Pos(up, r) <= |up| && !r.out.complete && r.status.Walking?
    requires LastSeen(up, r.since, r.last, Pos(up, r))
    requires Covered(up, handed, r.store.stepped, Pos(up, r)) && StoreSound(up, AsIf(r.store, handed))
    ensures Walked(up, PageTaken(r, |up| - Start(up, r.since), t), handed)
  {
    if r.offset < |up| - Start(up, r.since) && (r.offset >= WINDOW_OFFSET_CAP || t.spent) {
      CloseWalked(up, r, t, handed);
    }
  }

  lemma {:induction false} RunWalked(up: seq<Record>, p: Pass, turns: seq<Turn>, handed: set<nat>)
    requires Sorted(up) && Walked(up, p, handed)
    ensures Walked(up, Run(up, p, turns), handed + Handed(up, p, turns))
  {
    if turns == [] {
      assert handed + {} == handed;
    } else {
      var before, t := turns[..|turns| - 1], turns[|turns| - 1];
      RunWalked(up, p, before, handed);
      StepWalked(up, Run(up, p, before), t, handed + Handed(up, p, before));
      assert handed + Handed(up, p, before) + HandedAt(up, Run(up, p, before), t) == handed + Handed(up, p, turns);
    }
  }

  /**
   * Over any passes at all, rewound or not, clean or not: everything before the stored cursor was
   * handed over or lies in a stepped-over tail, and once the marker is latched everything.
   */
  lemma {:induction false} PassesWalk(up: seq<Record>, evs: seq<Event>)
    requires Sorted(up)
    ensures StoreSound(up, AsIf(Passes(up, UNSTARTED, evs), EverHanded(up, UNSTARTED, evs)))
  {
    if evs != [] {
      var before, ev := evs[..|evs| - 1], evs[|evs| - 1];
      PassesWalk(up, before);
      var store, handed := Passes(up, UNSTARTED, before), EverHanded(up, UNSTARTED, before);
      if Walks(store, ev) {
        RunWalked(up, Begin(store, ev.cursorRead), ev.turns, handed);
      } else {
        assert handed + {} == handed;
      }
    }
  }

  // ---- what landed -----------------------------------------------------------------------

  lemma {:induction false} PageBrings(page: seq<Record>, fates: seq<Fate>, t: Tally)
    requires |page| == |fates|
    ensures var r := TakePage(page, fates, t); t.spine <= r.spine <= t.spine + IdsOf(page)
  {
    if page != [] { PageBrings(page[..|page| - 1], fates[..|page| - 1], t); }
  }

  /** A turn brings nothing it was not handed, and all of it unless it makes the pass dirty. */
  lemma StepBrings(up: seq<Record>, p: Pass, t: Turn)
    requires Pos(up, p) <= |up|
    ensures var q := Step(up, p, t);
            && p.store.spine <= q.store.spine <= p.store.spine + HandedAt(up, p, t)
            && (p.out.IsDirty() ==> q.out.IsDirty())
            && (!q.out.IsDirty() ==> HandedAt(up, p, t) <= q.store.spine)
  {
    if p.status.Walking? && t.reply.Page? {
      var page := Served(up, p.since, p.offset, |t.reply.fates|);
      var fates := t.reply.fates[..|page|];
      var tally := Tally(p.store.spine, p.last, p.out.(dropped := p.out.dropped + Drops(fates)));
      PageBrings(page, fates, tally);
      PageLands(page, fates, tally);
      if !TakePage(page, fates, tally).out.IsDirty() {
        forall r | r in page ensures r.id in TakePage(page, fates, tally).spine {
          var i :| 0 <= i < |page| && page[i] == r;
        }
      }
    }
  }

  lemma {:induction false} RunBrings(up: seq<Record>, p: Pass, turns: seq<Turn>)
    requires Pos(up, p) <= |up|
    ensures var q := Run(up, p, turns);
            && p.store.spine <= q.store.spine <= p.store.spine + Handed(up, p, turns)
            && (p.out.IsDirty() ==> q.out.IsDirty())
            && (!q.out.IsDirty() ==> Handed(up, p, turns) <= q.store.spine)
  {
    if turns != [] {
      RunBrings(up, p, turns[..|turns| - 1]);
      StepBrings(up, Run(up, p, turns[..|turns| - 1]), turns[|turns| - 1]);
    }
  }

  /** No pass came out dirty. */
  ghost predicate AllClean(up: seq<Record>, store: Store, evs: seq<Event>) {
    evs == []
    || (AllClean(up, store, evs[..|evs| - 1])
        && var (before, ev) := (Passes(up, store, evs[..|evs| - 1]), evs[|evs| - 1]);
           Walks(before, ev) ==> !WalkOf(up, before, ev).out.IsDirty())
  }

  lemma PassBrings(up: seq<Record>, store: Store, ev: Event)
    ensures var r := RunPass(up, store, ev).0;
            && store.spine <= r.spine <= store.spine + HandedIn(up, store, ev)
            && ((Walks(store, ev) ==> !WalkOf(up, store, ev).out.IsDirty()) ==> HandedIn(up, store, ev) <= r.spine)
  {
    if Walks(store, ev) { RunBrings(up, Begin(store, ev.cursorRead), ev.turns); }
  }

  lemma {:induction false} PassesBring(up: seq<Record>, store: Store, evs: seq<Event>)
    ensures var r := Passes(up, store, evs);
            && store.spine <= r.spine <= store.spine + EverHanded(up, store, evs)
            && (AllClean(up, store, evs) ==> EverHanded(up, store, evs) <= r.spine)
  {
    if evs != [] {
      PassesBring(up, store, evs[..|evs| - 1]);
      PassBrings(up, Passes(up, store, evs[..|evs| - 1]), evs[|evs| - 1]);
    }
  }

  // ---- what a marker lacks ---------------------------------------------------------------

  /** No pass made a hasty turn. */
  ghost predicate NeverHasty(up: seq<Record>, store: Store, evs: seq<Event>) {
    evs == []
    || (NeverHasty(up, store, evs[..|evs| - 1])
        && var (before, ev) := (Passes(up, store, evs[..|evs| - 1]), evs[|evs| - 1]);
           Walks(before, ev) ==> Unhurried(up, Begin(before, ev.cursorRead), ev.turns))
  }

  lemma {:induction false} NeverHastyIsHarmless(up: seq<Record>, store: Store, evs: seq<Event>)
    requires NeverHasty(up, store, evs) && Harmless(up, store.stepped)
    ensures Harmless(up, Passes(up, store, evs).stepped)
  {
    if evs != [] {
      NeverHastyIsHarmless(up, store, evs[..|evs| - 1]);
      PassHarmless(up, Passes(up, store, evs[..|evs| - 1]), evs[|evs| - 1]);
    }
  }

  /** A marker latched with no hasty turn behind it, over no crowded second, means everything was handed over. */
  lemma MarkerMeansHanded(up: seq<Record>, evs: seq<Event>)
    requires Sorted(up) && NoCrowdedSecond(up) && NeverHasty(up, UNSTARTED, evs) && Passes(up, UNSTARTED, evs).marked
    ensures forall x | x in up :: x.id in EverHanded(up, UNSTARTED, evs)
  {
    var r, handed := Passes(up, UNSTARTED, evs), EverHanded(up, UNSTARTED, evs);
    PassesWalk(up, evs);
    NeverHastyIsHarmless(up, UNSTARTED, evs);
    forall i | 0 <= i < |up|
      ensures up[i].id in handed
    {
      assert Accounted(up, handed, r.stepped, i);
      HarmlessIsThere(up, handed, r.stepped, i);
    }
  }

  /**
   * Over passes of any kind without a hasty turn, rewound or not: a latched marker covers every
   * upstream record if and only if every record handed over landed at least once.
   */
  lemma MarkerCompleteIffHandedLanded(up: seq<Record>, evs: seq<Event>)
    requires Sorted(up) && NoCrowdedSecond(up) && NeverHasty(up, UNSTARTED, evs) && Passes(up, UNSTARTED, evs).marked
    ensures (forall x | x in up :: x.id in Passes(up, UNSTARTED, evs).spine)
       <==> EverHanded(up, UNSTARTED, evs) <= Passes(up, UNSTARTED, evs).spine
  {
    MarkerMeansHanded(up, evs);
    HandedAreUpstream(up, UNSTARTED, evs);
  }

  lemma {:induction false} HandedAreUpstream(up: seq<Record>, store: Store, evs: seq<Event>)
    ensures EverHanded(up, store, evs) <= IdsOf(up)
  {
    if evs != [] {
      var before, ev := evs[..|evs| - 1], evs[|evs| - 1];
      HandedAreUpstream(up, store, before);
      var mid := Passes(up, store, before);
      if Walks(mid, ev) { RunHandsUpstream(up, Begin(mid, ev.cursorRead), ev.turns); }
    }
  }

  lemma TurnHandsUpstream(up: seq<Record>, p: Pass, t: Turn)
    requires Pos(up, p) <= |up|
    ensures HandedAt(up, p, t) <= IdsOf(up)
  {
    if t.reply.Page? {
      var page := Served(up, p.since, p.offset, |t.reply.fates|);
      forall r | r in page ensures r.id in IdsOf(up) {
        var i :| 0 <= i < |page| && page[i] == r;
        assert up[Pos(up, p) + i] == r;
      }
    }
  }

  lemma {:induction false} RunHandsUpstream(up: seq<Record>, p: Pass, turns: seq<Turn>)
    requires Pos(up, p) <= |up|
    ensures Handed(up, p, turns) <= IdsOf(up)
  {
    if turns != [] {
      RunHandsUpstream(up, p, turns[..|turns| - 1]);
      TurnHandsUpstream(up, Run(up, p, turns[..|turns| - 1]), turns[|turns| - 1]);
    }
  }

  /**
   * Over passes that all came out clean, budget stops and page errors included: a record is missing
   * behind a latched marker if and only if no pass was ever handed it; and where no second is
   * crowded that happens only if some turn was hasty.
   */
  lemma CleanMarkerLoses(up: seq<Record>, evs: seq<Event>)
    requires Sorted(up) && AllClean(up, UNSTARTED, evs) && Passes(up, UNSTARTED, evs).marked
    ensures forall x | x in up :: x.id !in Passes(up, UNSTARTED, evs).spine <==> x.id !in EverHanded(up, UNSTARTED, evs)
    ensures NoCrowdedSecond(up) && (exists x | x in up :: x.id !in Passes(up, UNSTARTED, evs).spine) ==>
              !NeverHasty(up, UNSTARTED, evs)
  {
    PassesBring(up, UNSTARTED, evs);
    if NoCrowdedSecond(up) && NeverHasty(up, UNSTARTED, evs) { MarkerMeansHanded(up, evs); }
  }
}
