/** What one backfill pass keeps true at every turn, whatever upstream and the database do. */
module BackfillSafety {
  import opened Wrappers
  import opened Upstream
  import opened Backfill

  // ---- what a pass keeps ---------------------------------------------------------------

  function Pos(up: seq<Record>, p: Pass): nat {
    Start(up, p.since) + p.offset
  }

  /** Record `i` is in the spine, or lies past what the walk saw of a second it stepped over. */
  ghost predicate Accounted(up: seq<Record>, spine: set<nat>, stepped: map<nat, nat>, i: nat)
    requires i < |up|
  {
    || up[i].id in spine
    || (up[i].second in stepped && FirstAt(up, up[i].second) + stepped[up[i].second] <= i)
  }

  ghost predicate Covered(up: seq<Record>, spine: set<nat>, stepped: map<nat, nat>, n: nat)
    requires n <= |up|
  {
    forall i | 0 <= i < n :: Accounted(up, spine, stepped, i)
  }

  /** Everything in front of a stored cursor is accounted for. */
  ghost predicate CursorCovered(up: seq<Record>, store: Store) {
    store.cursor.Some? ==> Covered(up, store.spine, store.stepped, FirstAt(up, store.cursor.value))
  }

  /** A latched marker means everything is accounted for. */
  ghost predicate MarkCovered(up: seq<Record>, store: Store) {
    store.marked ==> Covered(up, store.spine, store.stepped, |up|)
  }

  /** Between passes. */
  ghost predicate StoreSound(up: seq<Record>, store: Store) {
    CursorCovered(up, store) && MarkCovered(up, store)
  }

  /** During a pass: the same for the prefix walked so far, unless the pass is dirty. */
  ghost predicate Kept(up: seq<Record>, store: Store, n: nat, dirty: bool)
    requires n <= |up|
  {
    && MarkCovered(up, store)
    && (!dirty ==> Covered(up, store.spine, store.stepped, n) && CursorCovered(up, store))
  }

  ghost predicate Sound(up: seq<Record>, p: Pass) {
    && Pos(up, p) <= |up|
    && (p.status.Walking? ==> p.offset < WINDOW_OFFSET_CAP)
    && (p.out.complete ==> p.status.Finished? && Pos(up, p) == |up|)
    && LastSeen(up, p.since, p.last, Pos(up, p))
    && Kept(up, p.store, Pos(up, p), p.out.IsDirty())
  }

  /** A larger spine and steps noted no later account for whatever was accounted for before. */
  ghost predicate Grows(spine: set<nat>, stepped: map<nat, nat>, spine': set<nat>, stepped': map<nat, nat>) {
    && spine <= spine'
    && (forall s | s in stepped :: s in stepped' && stepped'[s] <= stepped[s])
  }

  lemma CoveredGrows(up: seq<Record>, spine: set<nat>, stepped: map<nat, nat>,
                     spine': set<nat>, stepped': map<nat, nat>, n: nat)
    requires n <= |up| && Grows(spine, stepped, spine', stepped') && Covered(up, spine, stepped, n)
    ensures Covered(up, spine', stepped', n)
  {
    forall i | 0 <= i < n
      ensures Accounted(up, spine', stepped', i)
    {
      assert Accounted(up, spine, stepped, i);
    }
  }

  lemma StoreGrows(up: seq<Record>, a: Store, b: Store)
    requires Grows(a.spine, a.stepped, b.spine, b.stepped) && a.marked == b.marked && MarkCovered(up, a)
    requires b.cursor == a.cursor
             || (b.cursor.Some? && Covered(up, b.spine, b.stepped, FirstAt(up, b.cursor.value)))
    ensures MarkCovered(up, b)
    ensures CursorCovered(up, a) ==> CursorCovered(up, b)
  {
    if a.marked {
      CoveredGrows(up, a.spine, a.stepped, b.spine, b.stepped, |up|);
    }
    if a.cursor.Some? && CursorCovered(up, a) {
      CoveredGrows(up, a.spine, a.stepped, b.spine, b.stepped, FirstAt(up, a.cursor.value));
    }
  }

  /** A page puts every record it hands over in the spine, or makes the outcome dirty. */
  lemma {:induction false} PageLands(page: seq<Record>, fates: seq<Fate>, t: Tally)
    requires |page| == |fates|
    ensures var r := TakePage(page, fates, t);
            && t.spine <= r.spine
            && (t.out.IsDirty() ==> r.out.IsDirty())
            && !r.out.complete == !t.out.complete
            && (r.out.IsDirty() || Drops(fates) > 0 || forall i | 0 <= i < |page| :: page[i].id in r.spine)
            && (r.last == t.last || r.last == Unreadable || exists i | 0 <= i < |page| :: r.last == At(page[i].second))
  {
    if page != [] {
      var n := |page| - 1;
      PageLands(page[..n], fates[..n], t);
      var before := TakePage(page[..n], fates[..n], t);
      var r := TakeRecord(page[n], fates[n], before);
      assert fates == fates[..n] + [fates[n]];
      if !r.out.IsDirty() && Drops(fates) == 0 {
        assert fates[n] in fates;
        forall i | 0 <= i < |page|
          ensures page[i].id in r.spine
        {
          assert i < n ==> page[..n][i] == page[i];
        }
      }
      if i: nat :| i < n && before.last == At(page[..n][i].second) {
        assert before.last == At(page[i].second);
      }
    }
  }

  /** A record past the walked prefix and before the next second is the stepped-over second's tail. */
  lemma TailAccounted(up: seq<Record>, spine: set<nat>, stepped: map<nat, nat>, s: nat, walked: nat, i: nat)
    requires Sorted(up) && i < |up| && FirstAt(up, s) + walked <= i < FirstAt(up, s + 1)
    requires s in stepped && stepped[s] <= walked
    ensures Accounted(up, spine, stepped, i)
  {
    AfterFirstAt(up, s, i);
  }

  lemma CloseWindowCovers(up: seq<Record>, p: Pass)
    requires Sorted(up) && Pos(up, p) <= |up| && p.last.At?
    requires FirstAt(up, p.last.second) <= Pos(up, p)
    requires Covered(up, p.store.spine, p.store.stepped, Pos(up, p))
    ensures Covered(up, p.store.spine, StepsAfter(p), Start(up, NextWindow(p.since, p.last)))
  {
    var s := p.last.second;
    var stepped := StepsAfter(p);
    CoveredGrows(up, p.store.spine, p.store.stepped, p.store.spine, stepped, Pos(up, p));
    if StepsOver(p.since, p.last) {
      forall i | Pos(up, p) <= i < FirstAt(up, s + 1)
        ensures Accounted(up, p.store.spine, stepped, i)
      {
        TailAccounted(up, p.store.spine, stepped, s, p.offset, i);
      }
    }
  }

  /** A window may close on any reply; all that is asked is what the walk has established. */
  lemma CloseWindowSound(up: seq<Record>, p: Pass, t: Turn)
    requires Sorted(up) && !p.out.complete && Pos(up, p) <= |up|
    requires LastSeen(up, p.since, p.last, Pos(up, p))
    requires Kept(up, p.store, Pos(up, p), p.out.IsDirty())
    ensures Sound(up, CloseWindow(p, t))
  {
    var r := CloseWindow(p, t);
    if p.last.At? {
      LastSeenBounds(up, p.since, p.last, Pos(up, p));
      if p.out.IsDirty() {
        StoreGrows(up, p.store, r.store.(cursor := p.store.cursor));
      } else {
        CloseWindowCovers(up, p);
        StoreGrows(up, p.store, r.store);
      }
    }
  }

  /** A page is the next records of the walk. */
  ghost predicate Follows(up: seq<Record>, p: Pass, page: seq<Record>) {
    && Pos(up, p) + |page| <= |up|
    && p.offset + |page| <= I64_MAX
    && forall i | 0 <= i < |page| :: page[i] == up[Pos(up, p) + i]
  }

  lemma PageKeepsLast(up: seq<Record>, p: Pass, page: seq<Record>, fates: seq<Fate>, saved: bool)
    requires Sorted(up) && |page| == |fates| && Follows(up, p, page)
    requires LastSeen(up, p.since, p.last, Pos(up, p))
    ensures LastSeen(up, p.since, AfterPage(p, page, fates, saved).last, Pos(up, p) + |page|)
  {
    var r := AfterPage(p, page, fates, saved);
    PageLands(page, fates, Tally(p.store.spine, p.last, p.out.(dropped := p.out.dropped + Drops(fates))));
    if r.last.At? && r.last != p.last {
      var i: nat :| i < |page| && r.last == At(page[i].second);
      assert up[Pos(up, p) + i].second == r.last.second;
    }
  }

  lemma PageKeeps(up: seq<Record>, p: Pass, page: seq<Record>, fates: seq<Fate>, saved: bool)
    requires Sorted(up) && |page| == |fates| && Follows(up, p, page)
    requires LastSeen(up, p.since, p.last, Pos(up, p))
    requires Kept(up, p.store, Pos(up, p), p.out.IsDirty())
    ensures var r := AfterPage(p, page, fates, saved); Kept(up, r.store, Pos(up, p) + |page|, r.out.IsDirty())
  {
    var r := AfterPage(p, page, fates, saved);
    var from := Pos(up, p);
    PageLands(page, fates, Tally(p.store.spine, p.last, p.out.(dropped := p.out.dropped + Drops(fates))));
    PageKeepsLast(up, p, page, fates, saved);
    if r.last.At? { LastSeenBounds(up, p.since, r.last, from + |page|); }
    if r.out.IsDirty() {
      StoreGrows(up, p.store, r.store.(cursor := p.store.cursor));
    } else {
      CoveredGrows(up, p.store.spine, p.store.stepped, r.store.spine, r.store.stepped, from);
      forall i | from <= i < from + |page|
        ensures Accounted(up, r.store.spine, r.store.stepped, i)
      {
        assert up[i] == page[i - from];
      }
      StoreGrows(up, p.store, r.store);
    }
  }

  lemma PageTakenSound(up: seq<Record>, r: Pass, t: Turn)
    requires Sorted(up) && !r.out.complete && r.status.Walking? && Pos(up, r) <= |up|
    requires LastSeen(up, r.since, r.last, Pos(up, r))
    requires Kept(up, r.store, Pos(up, r), r.out.IsDirty())
    ensures Sound(up, PageTaken(r, |up| - Start(up, r.since), t))
  {
    if r.offset < |up| - Start(up, r.since) && (r.offset >= WINDOW_OFFSET_CAP || t.spent) {
      CloseWindowSound(up, r, t);
    }
  }

  lemma AfterPageKeeps(up: seq<Record>, p: Pass, page: seq<Record>, fates: seq<Fate>, saved: bool)
    requires Sorted(up) && Sound(up, p) && p.status.Walking? && |page| == |fates| && Follows(up, p, page)
    ensures var r := AfterPage(p, page, fates, saved);
            && !r.out.complete && r.status.Walking? && r.since == p.since && Pos(up, r) == Pos(up, p) + |page|
            && LastSeen(up, r.since, r.last, Pos(up, r))
            && Kept(up, r.store, Pos(up, r), r.out.IsDirty())
  {
    PageKeepsLast(up, p, page, fates, saved);
    PageKeeps(up, p, page, fates, saved);
    PageLands(page, fates, Tally(p.store.spine, p.last, p.out.(dropped := p.out.dropped + Drops(fates))));
  }

  /** A turn with records on its page is that page taken. */
  lemma PageStepIs(up: seq<Record>, p: Pass, t: Turn, page: seq<Record>)
    requires Pos(up, p) <= |up| && p.status.Walking? && t.reply.Page?
    requires page == Served(up, p.since, p.offset, |t.reply.fates|) != []
    ensures Step(up, p, t) == PageTaken(AfterPage(p, page, t.reply.fates[..|page|], t.saved), |up| - Start(up, p.since), t)
  {
  }

  lemma PageStepSound(up: seq<Record>, p: Pass, t: Turn)
    requires Sorted(up) && Sound(up, p) && p.status.Walking? && t.reply.Page?
    requires Served(up, p.since, p.offset, |t.reply.fates|) != []
    ensures Sound(up, Step(up, p, t))
  {
    var page := Served(up, p.since, p.offset, |t.reply.fates|);
    var fates := t.reply.fates[..|page|];
    AfterPageKeeps(up, p, page, fates, t.saved);
    PageTakenSound(up, AfterPage(p, page, fates, t.saved), t);
  }

  lemma EmptyStepSound(up: seq<Record>, p: Pass, t: Turn)
    requires Sorted(up) && Sound(up, p) && p.status.Walking? && t.reply.Page?
    requires Served(up, p.since, p.offset, |t.reply.fates|) == []
    ensures Sound(up, Step(up, p, t))
  {
    assert t.reply.fates[..0] == [];
    var q := p.(errs := 0, out := p.out.(dropped := p.out.dropped + 0));
    if ClassifyPage(0, p.offset, |up| - Start(up, p.since)).RetryEmpty? && q.empties >= EMPTY_PAGE_RETRIES {
      CloseWindowSound(up, q.(out := q.out.(truncated := q.out.truncated + 1)), t);
    }
  }

  /** Every turn keeps the invariant. */
  lemma StepSound(up: seq<Record>, p: Pass, t: Turn)
    requires Sorted(up) && Sound(up, p)
    ensures Sound(up, Step(up, p, t))
  {
    if p.status.Walking? {
      match t.reply
      case Fatal =>
      case Tolerable => CloseWindowSound(up, p, t);
      case Page(fates) =>
        if Served(up, p.since, p.offset, |fates|) == [] {
          EmptyStepSound(up, p, t);
        } else {
          PageStepSound(up, p, t);
        }
    }
  }

  lemma {:induction false} RunSound(up: seq<Record>, p: Pass, turns: seq<Turn>)
    requires Sorted(up) && Sound(up, p)
    ensures Sound(up, Run(up, p, turns))
  {
    if turns != [] {
      RunSound(up, p, turns[..|turns| - 1]);
      StepSound(up, Run(up, p, turns[..|turns| - 1]), turns[|turns| - 1]);
    }
  }
}
