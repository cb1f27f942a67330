/** Backfill passes over a catalogue that grows at its end between them. */
module BackfillGrowth {
  import opened Wrappers
  import opened Upstream
  import opened Backfill
  import opened BackfillSafety
  import opened BackfillPasses
  import opened BackfillTermination

  /** A cursor past all of upstream stands right behind its newest second, and that second was stepped over. */
  ghost predicate NearAt(up: seq<Record>, cursor: Option<nat>, stepped: map<nat, nat>) {
    cursor.Some? && FirstAt(up, cursor.value) == |up| ==>
      && up != [] && up[|up| - 1].second + 1 == cursor.value
      && up[|up| - 1].second in stepped
      && FirstAt(up, up[|up| - 1].second) + stepped[up[|up| - 1].second] <= |up|
  }

  ghost predicate Near(up: seq<Record>, store: Store) { NearAt(up, store.cursor, store.stepped) }

  /** Behind a step over the newest second. */
  lemma StepOverNear(up: seq<Record>, s: nat, walked: nat, stepped: map<nat, nat>)
    requires Sorted(up) && FirstAt(up, s) < FirstAt(up, s) + walked <= |up| && s <= up[|up| - 1].second
    ensures NearAt(up, Some(s + 1), NoteStep(stepped, s, walked))
  {
    if FirstAt(up, s + 1) == |up| { assert up[|up| - 1].second == s; }
  }

  /** A cursor at a second that upstream has is not past all of it. */
  lemma MemberNear(up: seq<Record>, s: nat, stepped: map<nat, nat>)
    requires up != [] && s <= up[|up| - 1].second
    ensures NearAt(up, Some(s), stepped)
  {
  }

  /** A step noted later keeps what an older cursor means. */
  lemma OldNear(up: seq<Record>, cursor: Option<nat>, s: nat, walked: nat, stepped: map<nat, nat>)
    requires NearAt(up, cursor, stepped)
    ensures NearAt(up, cursor, NoteStep(stepped, s, walked))
  {
  }

  /** What closing a window stores: the next window's second, or what was stored before. */
  lemma ClosedRow(c: Pass, t: Turn)
    requires c.last.At?
    ensures var (z, s) := (CloseWindow(c, t).store, c.last.second);
            if StepsOver(c.since, c.last)
            then z.stepped == NoteStep(c.store.stepped, s, c.offset) && z.cursor in {c.store.cursor, Some(s + 1)}
            else z.stepped == c.store.stepped && z.cursor in {c.store.cursor, Some(s)}
  {
  }

  lemma CloseNear(up: seq<Record>, c: Pass, t: Turn)
    requires Sorted(up) && Pos(up, c) <= |up| && LastSeen(up, c.since, c.last, Pos(up, c)) && Near(up, c.store)
    ensures Near(up, CloseWindow(c, t).store)
  {
    if c.last.At? {
      LastSeenBounds(up, c.since, c.last, Pos(up, c));
      ClosedRow(c, t);
      ClosedNear(up, c.since, c.offset, c.last.second, c.store, CloseWindow(c, t).store);
    }
  }

  lemma ClosedNear(up: seq<Record>, since: Option<nat>, offset: nat, s: nat, a: Store, z: Store)
    requires Sorted(up) && Near(up, a) && up != [] && s <= up[|up| - 1].second
    requires if since == Some(s)
             then && FirstAt(up, s) < FirstAt(up, s) + offset <= |up|
                  && z.stepped == NoteStep(a.stepped, s, offset) && z.cursor in {a.cursor, Some(s + 1)}
             else z.stepped == a.stepped && z.cursor in {a.cursor, Some(s)}
    ensures Near(up, z)
  {
    OldNear(up, a.cursor, s, offset, a.stepped);
    MemberNear(up, s, a.stepped);
    if since == Some(s) { StepOverNear(up, s, offset, a.stepped); }
  }

  lemma TakenNear(up: seq<Record>, r: Pass, t: Turn)
    requires Sorted(up) && Pos(up, r) <= |up| && LastSeen(up, r.since, r.last, Pos(up, r)) && Near(up, r.store)
    ensures Near(up, PageTaken(r, |up| - Start(up, r.since), t).store)
  {
    if r.offset < |up| - Start(up, r.since) && (r.offset >= WINDOW_OFFSET_CAP || t.spent) { CloseNear(up, r, t); }
  }

  lemma AfterPageNear(up: seq<Record>, p: Pass, page: seq<Record>, fates: seq<Fate>, saved: bool)
    requires Sorted(up) && Tidy(up, p) && Near(up, p.store) && |page| == |fates| && Follows(up, p, page)
    ensures var r := AfterPage(p, page, fates, saved);
            && r.since == p.since && Pos(up, r) <= |up|
            && LastSeen(up, r.since, r.last, Pos(up, r)) && Near(up, r.store)
  {
    var r := AfterPage(p, page, fates, saved);
    PageKeepsLast(up, p, page, fates, saved);
    if r.last.At? {
      LastSeenBounds(up, r.since, r.last, Pos(up, p) + |page|);
      MemberNear(up, r.last.second, p.store.stepped);
    }
  }

  lemma ServedFollows(up: seq<Record>, p: Pass, n: nat)
    requires Tidy(up, p) && p.status.Walking?
    ensures Follows(up, p, Served(up, p.since, p.offset, n))
  {
  }

  lemma PageNear(up: seq<Record>, p: Pass, t: Turn, page: seq<Record>)
    requires Sorted(up) && Tidy(up, p) && Near(up, p.store) && p.status.Walking? && t.reply.Page?
    requires page == Served(up, p.since, p.offset, |t.reply.fates|) != []
    ensures Near(up, Step(up, p, t).store)
  {
    ServedFollows(up, p, |t.reply.fates|);
    AfterPageNear(up, p, page, t.reply.fates[..|page|], t.saved);
    TakenNear(up, AfterPage(p, page, t.reply.fates[..|page|], t.saved), t);
    PageStepIs(up, p, t, page);
  }

  /** A turn that hands nothing over may still close the window. */
  lemma NoPageNear(up: seq<Record>, p: Pass, t: Turn)
    requires Sorted(up) && Tidy(up, p) && Near(up, p.store)
    requires p.status.Walking? && t.reply.Page? ==> Served(up, p.since, p.offset, |t.reply.fates|) == []
    ensures Near(up, Step(up, p, t).store)
  {
    if p.status.Walking? && t.reply.Tolerable? {
      CloseNear(up, p, t);
    } else if p.status.Walking? && t.reply.Page? {
      var c := Closing(up, p, t);
      if c.Some? { CloseNear(up, c.value, t); }
    }
  }

  lemma StepNear(up: seq<Record>, p: Pass, t: Turn)
    requires Sorted(up) && Tidy(up, p) && Near(up, p.store)
    ensures Near(up, Step(up, p, t).store)
  {
    if p.status.Walking? && t.reply.Page? && Served(up, p.since, p.offset, |t.reply.fates|) != [] {
      PageNear(up, p, t, Served(up, p.since, p.offset, |t.reply.fates|));
    } else {
      NoPageNear(up, p, t);
    }
  }

  lemma {:induction false} RunNear(up: seq<Record>, store: Store, cursorRead: bool, turns: seq<Turn>)
    requires Sorted(up) && Near(up, store)
    ensures Near(up, Run(up, Begin(store, cursorRead), turns).store)
  {
    if turns != [] {
      RunNear(up, store, cursorRead, turns[..|turns| - 1]);
      RequestsStayBelowCeiling(up, store, cursorRead, turns[..|turns| - 1]);
      StepNear(up, Run(up, Begin(store, cursorRead), turns[..|turns| - 1]), turns[|turns| - 1]);
    }
  }

  // ---- growth ----------------------------------------------------------------------------

  /** New records come after all there were. */
  ghost predicate Extends(up: seq<Record>, more: seq<Record>) { up <= more && Sorted(more) }

  lemma FirstAtExtends(up: seq<Record>, more: seq<Record>, s: nat)
    requires up <= more
    ensures FirstAt(up, s) < |up| ==> FirstAt(more, s) == FirstAt(up, s)
    ensures FirstAt(up, s) == |up| ==> FirstAt(more, s) >= |up|
  {
    var a, b := FirstAt(up, s), FirstAt(more, s);
    if a < |up| { assert up[a] == more[a]; }
    if b < |up| { assert up[b] == more[b]; }
  }

  lemma OldStayAccounted(up: seq<Record>, more: seq<Record>, spine: set<nat>, stepped: map<nat, nat>, i: nat)
    requires Extends(up, more) && i < |up| && Accounted(up, spine, stepped, i)
    ensures Accounted(more, spine, stepped, i)
  {
    StartBeforeMember(up, i);
    FirstAtExtends(up, more, up[i].second);
    assert more[i] == up[i];
  }

  /** A new record before the cursor belongs to the tail of the newest second there was. */
  lemma NewAccounted(up: seq<Record>, more: seq<Record>, store: Store, j: nat)
    requires Extends(up, more) && Sorted(up) && Near(up, store) && store.cursor.Some?
    requires |up| <= j < FirstAt(more, store.cursor.value)
    ensures Accounted(more, store.spine, store.stepped, j)
  {
    FirstAtExtends(up, more, store.cursor.value);
    var newest := up[|up| - 1].second;
    assert more[|up| - 1].second <= more[j].second < newest + 1;
    StartBeforeMember(up, |up| - 1);
    FirstAtExtends(up, more, newest);
  }

  /** Growth between passes keeps what the stored cursor means. */
  lemma GrowthKeepsCursor(up: seq<Record>, more: seq<Record>, store: Store)
    requires Sorted(up) && Extends(up, more) && CursorCovered(up, store) && Near(up, store)
    ensures CursorCovered(more, store) && Near(more, store)
  {
    if store.cursor.Some? {
      var c := store.cursor.value;
      FirstAtExtends(up, more, c);
      forall i | 0 <= i < FirstAt(more, c) ensures Accounted(more, store.spine, store.stepped, i) {
        if i < |up| { OldStayAccounted(up, more, store.spine, store.stepped, i); } else { NewAccounted(up, more, store, i); }
      }
      if FirstAt(more, c) == |more| { GrowthKeepsNear(up, more, store); }
    }
  }

  lemma GrowthKeepsNear(up: seq<Record>, more: seq<Record>, store: Store)
    requires Sorted(up) && Extends(up, more) && Near(up, store) && store.cursor.Some?
    requires FirstAt(more, store.cursor.value) == |more|
    ensures Near(more, store)
  {
    FirstAtExtends(up, more, store.cursor.value);
    if |more| > 0 && FirstAt(up, store.cursor.value) == |up| {
      var newest := up[|up| - 1].second;
      assert more[|up| - 1] == up[|up| - 1];
      assert newest <= more[|more| - 1].second < newest + 1;
      StartBeforeMember(up, |up| - 1);
      FirstAtExtends(up, more, newest);
    }
  }

  /** The listing each pass meets extends the one the pass before it met. */
  ghost predicate Growing(ups: seq<seq<Record>>) {
    (forall i | 0 <= i < |ups| :: Sorted(ups[i])) && (forall i | 0 < i < |ups| :: ups[i - 1] <= ups[i])
  }

  function PassesOver(ups: seq<seq<Record>>, evs: seq<Event>): Store
    requires |ups| == |evs|
  {
    if evs == [] then UNSTARTED
    else
      var n := |evs| - 1;
      RunPass(ups[n], PassesOver(ups[..n], evs[..n]), evs[n]).0
  }

  ghost predicate AllRewoundOver(ups: seq<seq<Record>>, evs: seq<Event>)
    requires |ups| == |evs|
  {
    evs == []
    || var n := |evs| - 1;
       AllRewoundOver(ups[..n], evs[..n]) && !Unrewound(ups[n], PassesOver(ups[..n], evs[..n]), evs[n])
  }

  lemma PassOver(up: seq<Record>, store: Store, ev: Event)
    requires Sorted(up) && !store.marked && CursorCovered(up, store) && Near(up, store) && !Unrewound(up, store, ev)
    ensures StoreSound(up, RunPass(up, store, ev).0) && Near(up, RunPass(up, store, ev).0)
  {
    RunPassSound(up, store, ev);
    if Walks(store, ev) { RunNear(up, store, ev.cursorRead, ev.turns); }
  }

  /** The pass that latched the marker: it is set after that pass and was not before. */
  ghost predicate LatchedAt(ups: seq<seq<Record>>, evs: seq<Event>, k: nat)
    requires k < |ups| == |evs|
  {
    PassesOver(ups[..k + 1], evs[..k + 1]).marked && !PassesOver(ups[..k], evs[..k]).marked
  }

  /** Nothing is changed once the marker is set. */
  lemma {:induction false} MarkedStays(ups: seq<seq<Record>>, evs: seq<Event>, k: nat)
    requires k <= |ups| == |evs| && PassesOver(ups[..k], evs[..k]).marked
    ensures PassesOver(ups, evs) == PassesOver(ups[..k], evs[..k])
  {
    var n := |evs| - 1;
    if k <= n {
      assert ups[..n][..k] == ups[..k] && evs[..n][..k] == evs[..k];
      MarkedStays(ups[..n], evs[..n], k);
    } else {
      assert ups[..k] == ups && evs[..k] == evs;
    }
  }

  /** At most one pass latches the marker, and the store is as that pass left it ever after. */
  lemma LatchedOnce(ups: seq<seq<Record>>, evs: seq<Event>, j: nat, k: nat)
    requires j < |ups| == |evs| && k < |ups| && LatchedAt(ups, evs, j) && LatchedAt(ups, evs, k)
    ensures j == k && PassesOver(ups, evs) == PassesOver(ups[..k + 1], evs[..k + 1])
  {
    MarkedStays(ups, evs, k + 1);
    var (lo, hi) := if j < k then (j, k) else (k, j);
    if lo < hi {
      assert ups[..hi][..lo + 1] == ups[..lo + 1] && evs[..hi][..lo + 1] == evs[..lo + 1];
      MarkedStays(ups[..hi], evs[..hi], lo + 1);
      assert false;
    }
  }

  /** A pass latched the marker, and all of the listing it met is accounted for. */
  ghost predicate LatchedOver(ups: seq<seq<Record>>, evs: seq<Event>, k: nat)
    requires k < |ups| == |evs|
  {
    var r := PassesOver(ups, evs);
    LatchedAt(ups, evs, k) && Covered(ups[k], r.spine, r.stepped, |ups[k]|)
  }

  /** Before the marker the cursor is believed of the latest listing, and the marker of one that a pass latched it over. */
  ghost predicate SoundOver(ups: seq<seq<Record>>, evs: seq<Event>)
    requires |ups| == |evs| > 0
  {
    var r := PassesOver(ups, evs);
    && (!r.marked ==> CursorCovered(ups[|ups| - 1], r) && Near(ups[|ups| - 1], r))
    && (r.marked ==> exists k :: 0 <= k < |ups| && LatchedOver(ups, evs, k))
  }

  lemma LatchedSince(ups: seq<seq<Record>>, evs: seq<Event>, n: nat, k: nat)
    requires k < n <= |ups| == |evs| && LatchedAt(ups[..n], evs[..n], k)
    ensures LatchedAt(ups, evs, k)
  {
    assert ups[..n][..k] == ups[..k] && evs[..n][..k] == evs[..k];
    assert ups[..n][..k + 1] == ups[..k + 1] && evs[..n][..k + 1] == evs[..k + 1];
  }

  /** A pass that finds the marker set leaves all as it is. */
  lemma SoundAfterMarker(ups: seq<seq<Record>>, evs: seq<Event>, n: nat)
    requires |ups| == |evs| == n + 1 > 1 && SoundOver(ups[..n], evs[..n]) && PassesOver(ups[..n], evs[..n]).marked
    ensures SoundOver(ups, evs)
  {
    var k :| 0 <= k < n && LatchedOver(ups[..n], evs[..n], k);
    LatchedSince(ups, evs, n, k);
    MarkedStays(ups, evs, n);
    assert ups[..n][k] == ups[k];
    assert LatchedOver(ups, evs, k);
  }

  /** A pass over a store whose cursor is believed. */
  lemma SoundAfterPass(ups: seq<seq<Record>>, evs: seq<Event>, n: nat)
    requires |ups| == |evs| == n + 1 && Sorted(ups[n])
    requires var mid := PassesOver(ups[..n], evs[..n]);
             !mid.marked && CursorCovered(ups[n], mid) && Near(ups[n], mid) && !Unrewound(ups[n], mid, evs[n])
    ensures SoundOver(ups, evs)
  {
    PassOver(ups[n], PassesOver(ups[..n], evs[..n]), evs[n]);
    assert ups[..n + 1] == ups && evs[..n + 1] == evs;
    if PassesOver(ups, evs).marked { assert LatchedOver(ups, evs, n); }
  }

  lemma GrowingFront(ups: seq<seq<Record>>, n: nat)
    requires |ups| == n + 1 > 1 && Growing(ups)
    ensures Growing(ups[..n]) && Sorted(ups[n - 1]) && Sorted(ups[n]) && Extends(ups[n - 1], ups[n])
    ensures ups[..n][n - 1] == ups[n - 1]
  {
  }

  lemma SoundAfterAnother(ups: seq<seq<Record>>, evs: seq<Event>, n: nat)
    requires |ups| == |evs| == n + 1 > 1 && Growing(ups) && AllRewoundOver(ups, evs) && SoundOver(ups[..n], evs[..n])
    ensures SoundOver(ups, evs)
  {
    GrowingFront(ups, n);
    var mid := PassesOver(ups[..n], evs[..n]);
    if mid.marked {
      SoundAfterMarker(ups, evs, n);
    } else {
      GrowthKeepsCursor(ups[n - 1], ups[n], mid);
      SoundAfterPass(ups, evs, n);
    }
  }

  lemma {:induction false} PassesStaySound(ups: seq<seq<Record>>, evs: seq<Event>)
    requires |ups| == |evs| > 0 && Growing(ups) && AllRewoundOver(ups, evs)
    ensures SoundOver(ups, evs)
  {
    var n := |evs| - 1;
    if n == 0 {
      SoundAfterPass(ups, evs, 0);
    } else {
      GrowingFront(ups, n);
      PassesStaySound(ups[..n], evs[..n]);
      SoundAfterAnother(ups, evs, n);
    }
  }

  /**
   * Over passes that each meet a longer catalogue than the last, every dirty one rewound: everything
   * before the stored cursor is accounted for in the longest, and a set marker was latched by one of
   * the passes and means that all of the catalogue that very pass met is accounted for.
   */
  lemma MarkerMeansAccountedOver(ups: seq<seq<Record>>, evs: seq<Event>)
    requires |ups| == |evs| > 0 && Growing(ups) && AllRewoundOver(ups, evs)
    ensures var r := PassesOver(ups, evs);
            && (!r.marked ==> CursorCovered(ups[|ups| - 1], r) && Near(ups[|ups| - 1], r))
            && (r.marked ==> exists k :: 0 <= k < |ups| && LatchedAt(ups, evs, k))
            && (forall k | 0 <= k < |ups| && LatchedAt(ups, evs, k) :: Covered(ups[k], r.spine, r.stepped, |ups[k]|))
  {
    PassesStaySound(ups, evs);
    var r := PassesOver(ups, evs);
    forall k | 0 <= k < |ups| && LatchedAt(ups, evs, k)
      ensures Covered(ups[k], r.spine, r.stepped, |ups[k]|)
    {
      MarkedStays(ups, evs, k + 1);
      var latched :| 0 <= latched < |ups| && LatchedOver(ups, evs, latched);
      LatchedOnce(ups, evs, latched, k);
    }
  }
}
