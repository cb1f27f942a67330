/** What the counters mean, and the inputs on which a latched marker does cover a lost record. */
module BackfillLimits {
  import opened Wrappers
  import opened Upstream
  import opened Backfill
  import opened BackfillSafety
  import opened BackfillPasses

  /** Every record of a page is counted once, as scanned or dropped, and each ingest is a new row. */
  lemma {:induction false} PageCounts(page: seq<Record>, fates: seq<Fate>, t: Tally)
    requires |page| == |fates|
    ensures var r := TakePage(page, fates, t);
            && r.out.scanned + Drops(fates) == t.out.scanned + |page|
            && |r.spine| + t.out.ingested == |t.spine| + r.out.ingested
            && r.out.dropped == t.out.dropped
  {
    if page != [] {
      var n := |page| - 1;
      PageCounts(page[..n], fates[..n], t);
    }
  }

  lemma PageTakenCounts(r: Pass, total: nat, t: Turn)
    ensures var q := PageTaken(r, total, t); q.store.spine == r.store.spine && q.out.ingested == r.out.ingested
  {
  }

  lemma StepCounts(up: seq<Record>, p: Pass, t: Turn)
    requires Pos(up, p) <= |up|
    ensures var q := Step(up, p, t);
            |q.store.spine| + p.out.ingested == |p.store.spine| + q.out.ingested
  {
    if p.status.Walking? && t.reply.Page? && Served(up, p.since, p.offset, |t.reply.fates|) != [] {
      var page := Served(up, p.since, p.offset, |t.reply.fates|);
      var fates := t.reply.fates[..|page|];
      PageCounts(page, fates, Tally(p.store.spine, p.last, p.out.(dropped := p.out.dropped + Drops(fates))));
      PageTakenCounts(AfterPage(p, page, fates, t.saved), |up| - Start(up, p.since), t);
    }
  }

  /** The spine grows by exactly the records a pass reports as ingested. */
  lemma {:induction false} IngestedIsGrowth(up: seq<Record>, store: Store, cursorRead: bool, turns: seq<Turn>)
    ensures var p := Run(up, Begin(store, cursorRead), turns);
            |p.store.spine| == |store.spine| + p.out.ingested
  {
    if turns != [] {
      var before := turns[..|turns| - 1];
      IngestedIsGrowth(up, store, cursorRead, before);
      StepCounts(up, Run(up, Begin(store, cursorRead), before), turns[|turns| - 1]);
    }
  }

  /** Closing a window passes over records exactly when it steps over a second it has not finished. */
  lemma {:induction false} ClosingPassesOver(up: seq<Record>, p: Pass, t: Turn)
    requires Sorted(up) && Pos(up, p) <= |up| && LastSeen(up, p.since, p.last, Pos(up, p)) && p.last.At?
    ensures Pos(up, p) < Pos(up, CloseWindow(p, t))
       <==> p.since == Some(p.last.second) && Pos(up, p) < FirstAt(up, p.last.second + 1)
  {
    LastSeenBounds(up, p.since, p.last, Pos(up, p));
  }

  // ---- a dirty pass must be rewound ----------------------------------------------------

  const LANDED := Parsed(Shown, Upkeep(true, false, true))

  function OneTurn(reply: Reply, spent: bool): Turn {
    Turn(reply, true, spent, true, spent)
  }

  function QuietEvent(turns: seq<Turn>, rewound: bool): Event {
    Event(true, true, true, true, turns, true, rewound, true)
  }

  /** A pass of one page that is not empty. */
  lemma OnePagePass(up: seq<Record>, store: Store, t: Turn, rewound: bool, page: seq<Record>, r: Pass)
    requires !store.marked && t.reply.Page? && page == Served(up, store.cursor, 0, |t.reply.fates|) != []
    requires r == AfterPage(Begin(store, true), page, t.reply.fates[..|page|], t.saved)
    ensures WalkOf(up, store, QuietEvent([t], rewound)) == PageTaken(r, |up| - Start(up, store.cursor), t)
    ensures RunPass(up, store, QuietEvent([t], rewound))
         == Settle(PageTaken(r, |up| - Start(up, store.cursor), t), QuietEvent([t], rewound))
  {
    assert [t][..0] == [] && Run(up, Begin(store, true), []) == Begin(store, true);
    assert Run(up, Begin(store, true), [t]) == Step(up, Begin(store, true), t);
  }

  lemma PassesTwo(up: seq<Record>, store: Store, a: Event, b: Event)
    ensures Passes(up, store, [a, b]) == RunPass(up, RunPass(up, store, a).0, b).0
  {
    assert [a, b][..1] == [a] && [a][..0] == [];
    assert Passes(up, store, [a]) == RunPass(up, Passes(up, store, []), a).0;
  }

  const TWO := [Record(1, 1), Record(2, 2)]
  const DROP_FIRST := OneTurn(Page([Unparsed, LANDED]), false)
  const LAND_LAST := OneTurn(Page([LANDED]), false)
  const PAST_FIRST := Store({2}, Some(2), false, map[])

  /** The first pass lands the second record, checkpoints past the first and is not rewound. */
  lemma DirtyPassMovesOn()
    ensures RunPass(TWO, UNSTARTED, QuietEvent([DROP_FIRST], false)).0 == PAST_FIRST
    ensures Unrewound(TWO, UNSTARTED, QuietEvent([DROP_FIRST], false))
  {
    var fates := [Unparsed, LANDED];
    var start := Tally({}, Missing, NOTHING.(dropped := 1));
    var out := NOTHING.(dropped := 1, scanned := 1, ingested := 1);
    assert TWO[..1] == [TWO[0]] && [TWO[0]][..0] == [] && fates[..1][..0] == [];
    assert fates[..2] == fates && fates[..1] == [Unparsed];
    assert Drops(fates[..1]) == 1 && Drops(fates) == 1;
    assert TakePage([TWO[0]], [Unparsed], start) == start;
    assert TakePage(TWO, fates, start) == Tally({2}, At(2), out);
    var r := Pass(Store({2}, Some(2), false, map[]), None, 2, At(2), 0, 0, out, Walking);
    assert AfterPage(Begin(UNSTARTED, true), TWO, fates, true) == r;
    assert Served(TWO, None, 0, 2) == TWO;
    OnePagePass(TWO, UNSTARTED, DROP_FIRST, false, TWO, r);
  }

  /** The second pass resumes there, finds nothing wrong and latches the marker. */
  lemma NextPassLatches()
    ensures RunPass(TWO, PAST_FIRST, QuietEvent([LAND_LAST], true)).0 == PAST_FIRST.(marked := true)
  {
    var page := [TWO[1]];
    assert [LANDED][..1] == [LANDED] && page[..0] == [] && [LANDED][..0] == [];
    assert Drops([LANDED]) == 0;
    assert TakePage(page, [LANDED], Tally({2}, Missing, NOTHING))
        == Tally({2}, At(2), NOTHING.(scanned := 1));
    var r := Pass(PAST_FIRST, Some(2), 1, At(2), 0, 0, NOTHING.(scanned := 1), Walking);
    assert AfterPage(Begin(PAST_FIRST, true), page, [LANDED], true) == r;
    assert TWO[1..] == page && FirstAt(TWO, 2) == 1 && Served(TWO, Some(2), 0, 1) == page;
    OnePagePass(TWO, PAST_FIRST, LAND_LAST, true, page, r);
  }

  /** Two records, the first unparseable once: if the rewind after that pass fails, the marker is
      latched over its loss although no turn gave up and no second was stepped over. */
  lemma FailedRewindLosesARecord() returns (evs: seq<Event>)
    ensures Sorted(TWO) && forall ev, t | ev in evs && t in ev.turns :: t.reply.Page? && !t.spent
    ensures var r := Passes(TWO, UNSTARTED, evs); r.marked && r.stepped == map[] && TWO[0].id !in r.spine
  {
    DirtyPassMovesOn();
    NextPassLatches();
    evs := [QuietEvent([DROP_FIRST], false), QuietEvent([LAND_LAST], true)];
    PassesTwo(TWO, UNSTARTED, evs[0], evs[1]);
  }

  // ---- a window must not be stopped inside a second ------------------------------------

  function Busy(n: nat): seq<Record> {
    seq(n, i requires 0 <= i => Record(i, 5))
  }

  function AllLand(n: nat): seq<Fate> {
    seq(n, i => LANDED)
  }

  ghost function Ids(n: nat): set<nat> {
    set r | r in Busy(n) :: r.id
  }

  lemma IdsGrow(n: nat)
    ensures Ids(n + 1) == Ids(n) + {n} && n !in Ids(n)
  {
    assert Busy(n + 1) == Busy(n) + [Record(n, 5)];
  }

  /** Landing the first `n` records of the busy second, known already or not. */
  lemma {:induction false} LandBusy(n: nat, known: set<nat>)
    requires known == {} || Ids(n) <= known
    ensures Drops(AllLand(n)) == 0
    ensures var r := TakePage(Busy(n), AllLand(n), Tally(known, Missing, NOTHING));
            && r.spine == known + Ids(n) && r.last == (if n == 0 then Missing else At(5))
            && !r.out.IsDirty() && !r.out.complete
  {
    if n != 0 {
      assert Busy(n)[..n - 1] == Busy(n - 1) && AllLand(n)[..n - 1] == AllLand(n - 1);
      IdsGrow(n - 1);
      LandBusy(n - 1, known);
    }
  }

  lemma {:induction false} BusyStarts(n: nat)
    ensures FirstAt(Busy(n), 5) == 0 && FirstAt(Busy(n), 6) == n
  {
    if n != 0 {
      assert Busy(n)[n - 1].second == 5;
    }
  }

  const CROWD := Busy(101)
  const PAGE_THEN_STOP := OneTurn(Page(AllLand(100)), true)
  const END := OneTurn(Page([]), false)

  lemma {:induction false} BusyServed(cursor: Option<nat>)
    requires cursor == None || cursor == Some(5)
    ensures AllLand(100)[..100] == AllLand(100) && Served(CROWD, cursor, 0, 100) == Busy(100)
  {
    BusyStarts(101);
  }

  lemma BusyTaken(store: Store) returns (r: Pass)
    requires store == UNSTARTED || store == Store(Ids(100), Some(5), false, map[])
    ensures r == AfterPage(Begin(store, true), Busy(100), AllLand(100), true)
    ensures r.store == Store(Ids(100), Some(5), false, map[]) && r.last == At(5) && r.offset == 100
    ensures r.status.Walking? && r.since == store.cursor && !r.out.IsDirty() && !r.out.complete
    ensures PageTaken(r, 101, PAGE_THEN_STOP) == CloseWindow(r, PAGE_THEN_STOP)
  {
    LandBusy(100, store.spine);
    assert store.spine + Ids(100) == Ids(100);
    r := AfterPage(Begin(store, true), Busy(100), AllLand(100), true);
  }

  /** The page a budget of one page allows. */
  lemma BusyPage(store: Store) returns (r: Pass)
    requires store == UNSTARTED || store == Store(Ids(100), Some(5), false, map[])
    ensures r.store == Store(Ids(100), Some(5), false, map[]) && r.last == At(5) && r.offset == 100
    ensures r.status.Walking? && r.since == store.cursor && !r.out.IsDirty() && !r.out.complete
    ensures WalkOf(CROWD, store, QuietEvent([PAGE_THEN_STOP], true)) == CloseWindow(r, PAGE_THEN_STOP)
    ensures RunPass(CROWD, store, QuietEvent([PAGE_THEN_STOP], true))
         == Settle(CloseWindow(r, PAGE_THEN_STOP), QuietEvent([PAGE_THEN_STOP], true))
  {
    BusyServed(store.cursor);
    r := BusyTaken(store);
    BusyStarts(101);
    OnePagePass(CROWD, store, PAGE_THEN_STOP, true, Busy(100), r);
  }

  /** A pass whose budget is one page: from nowhere it slides into the busy second; from the start
      of the busy second it steps over it. Either way it comes back clean. */
  lemma OnePageBudget(store: Store)
    requires store == UNSTARTED || store == Store(Ids(100), Some(5), false, map[])
    ensures RunPass(CROWD, store, QuietEvent([PAGE_THEN_STOP], true)).0
         == if store == UNSTARTED then Store(Ids(100), Some(5), false, map[])
            else Store(Ids(100), Some(6), false, map[5 := 100])
    ensures !Unrewound(CROWD, store, QuietEvent([PAGE_THEN_STOP], true))
  {
    var r := BusyPage(store);
  }

  lemma EndPass(store: Store)
    requires store == Store(Ids(100), Some(6), false, map[5 := 100])
    ensures RunPass(CROWD, store, QuietEvent([END], true)).0 == store.(marked := true)
    ensures !Unrewound(CROWD, store, QuietEvent([END], true))
  {
    BusyStarts(101);
    assert [END][..0] == [] && Run(CROWD, Begin(store, true), []) == Begin(store, true);
    assert Run(CROWD, Begin(store, true), [END]) == Step(CROWD, Begin(store, true), END);
    assert END.reply.fates == [] && Drops(END.reply.fates[..0]) == 0;
  }

  /** A second of 101 records and a budget spent after every page: the second pass steps over the
      second after its first page, and the third latches the marker without the last record. */
  lemma BudgetStopLosesARecord() returns (evs: seq<Event>)
    ensures Sorted(CROWD) && AllRewound(CROWD, UNSTARTED, evs)
    ensures var r := Passes(CROWD, UNSTARTED, evs); r.marked && CROWD[100].id !in r.spine
  {
    var a, c := QuietEvent([PAGE_THEN_STOP], true), QuietEvent([END], true);
    var s1, s2 := Store(Ids(100), Some(5), false, map[]), Store(Ids(100), Some(6), false, map[5 := 100]);
    evs := [a, a, c];
    OnePageBudget(UNSTARTED);
    OnePageBudget(s1);
    EndPass(s2);
    IdsGrow(100);
    assert evs[..2] == [a, a] && [a, a][..1] == [a] && [a][..0] == [];
    assert Passes(CROWD, UNSTARTED, []) == UNSTARTED;
    assert Passes(CROWD, UNSTARTED, [a]) == s1;
    assert Passes(CROWD, UNSTARTED, [a, a]) == s2;
    assert AllRewound(CROWD, UNSTARTED, [a]) && AllRewound(CROWD, UNSTARTED, [a, a]);
  }
}
