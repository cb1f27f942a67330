/** One window of the chapter firehose: what each chapter does to the counters and to the cursor. */
module ChapterSweep {
  import opened Wrappers
  import opened Upstream

  /** What becomes of one chapter of a page. */
  datatype Fate = Unparsed | NotEnglish | NoManga | Uncatalogued | LookupFailed | Unchanged | Stored | WriteFailed

  datatype Outcome = Outcome(upserted: nat, dropped: nat, failed: nat, skipped: nat, same: nat)

  const NOTHING := Outcome(0, 0, 0, 0, 0)

  datatype Window = Window(last: Stamp, out: Outcome)

  /** Fates the cursor moves past. */
  predicate Passes(f: Fate) {
    f.NotEnglish? || f.NoManga? || f.Unchanged? || f.Stored?
  }

  /** Fates after which the chapter is in the mirror or was never wanted there. */
  predicate Settled(f: Fate) {
    f.NotEnglish? || f.Unchanged? || f.Stored?
  }

  function Count(f: Fate, o: Outcome): Outcome {
    match f
    case Unparsed => o.(dropped := o.dropped + 1)
    case NotEnglish => o
    case NoManga => o.(dropped := o.dropped + 1)
    case Uncatalogued => o.(skipped := o.skipped + 1)
    case LookupFailed => o.(failed := o.failed + 1)
    case Unchanged => o.(same := o.same + 1)
    case Stored => o.(upserted := o.upserted + 1)
    case WriteFailed => o.(failed := o.failed + 1)
  }

  function TakeChapter(r: Record, shows: Showing, f: Fate, w: Window): Window {
    Window(if Passes(f) then StampOf(r, shows, w.last) else w.last, Count(f, w.out))
  }

  /** The chapters of a window in the order they are offered. */
  function TakeAll(rs: seq<Record>, shows: seq<Showing>, fates: seq<Fate>): Window
    requires |rs| == |shows| == |fates|
  {
    if rs == [] then Window(Missing, NOTHING)
    else
      var n := |rs| - 1;
      TakeChapter(rs[n], shows[n], fates[n], TakeAll(rs[..n], shows[..n], fates[..n]))
  }

  method SweepWindow(rs: seq<Record>, shows: seq<Showing>, fates: seq<Fate>) returns (last: Stamp, out: Outcome)
    requires |rs| == |shows| == |fates|
    ensures Window(last, out) == TakeAll(rs, shows, fates)
  {
    last, out := Missing, NOTHING;
    for i := 0 to |rs|
      invariant Window(last, out) == TakeAll(rs[..i], shows[..i], fates[..i])
    {
      assert rs[..i + 1][..i] == rs[..i] && shows[..i + 1][..i] == shows[..i] && fates[..i + 1][..i] == fates[..i];
      match fates[i] {
        case Unparsed => out := out.(dropped := out.dropped + 1);
        case NotEnglish => last := StampOf(rs[i], shows[i], last);
        case NoManga =>
          out := out.(dropped := out.dropped + 1);
          last := StampOf(rs[i], shows[i], last);
        case Uncatalogued => out := out.(skipped := out.skipped + 1);
        case LookupFailed => out := out.(failed := out.failed + 1);
        case Unchanged =>
          out := out.(same := out.same + 1);
          last := StampOf(rs[i], shows[i], last);
        case Stored =>
          out := out.(upserted := out.upserted + 1);
          last := StampOf(rs[i], shows[i], last);
        case WriteFailed => out := out.(failed := out.failed + 1);
      }
    }
    assert rs[..|rs|] == rs && shows[..|rs|] == shows && fates[..|rs|] == fates;
  }

  /** The places of the chapters that come to some of these fates. */
  function Having(fates: seq<Fate>, some: set<Fate>): set<nat> { set i: nat | i < |fates| && fates[i] in some }

  lemma HavingGrows(fates: seq<Fate>, some: set<Fate>)
    requires fates != []
    ensures |Having(fates, some)|
         == |Having(fates[..|fates| - 1], some)| + if fates[|fates| - 1] in some then 1 else 0
  {
    var n := |fates| - 1;
    assert Having(fates, some) == Having(fates[..n], some) + if fates[n] in some then {n} else {};
  }

  /** Each counter counts its chapters; a chapter that is not English is in none. */
  lemma {:induction false} CountersAre(rs: seq<Record>, shows: seq<Showing>, fates: seq<Fate>)
    requires |rs| == |shows| == |fates|
    ensures var out := TakeAll(rs, shows, fates).out;
            && out.upserted == |Having(fates, {Stored})|
            && out.same == |Having(fates, {Unchanged})|
            && out.skipped == |Having(fates, {Uncatalogued})|
            && out.dropped == |Having(fates, {Fate.Unparsed, NoManga})|
            && out.failed == |Having(fates, {LookupFailed, WriteFailed})|
  {
    if rs == [] {
      assert forall some :: Having([], some) == {};
    } else {
      CountersAre(rs[..|rs| - 1], shows[..|rs| - 1], fates[..|rs| - 1]);
      HavingGrows(fates, {Stored});
      HavingGrows(fates, {Unchanged});
      HavingGrows(fates, {Uncatalogued});
      HavingGrows(fates, {Fate.Unparsed, NoManga});
      HavingGrows(fates, {LookupFailed, WriteFailed});
    }
  }

  predicate SeedMayLatch(o: Outcome) {
    o.dropped == 0 && o.failed == 0 && o.skipped == 0
  }

  /** The seed may be declared done exactly when every chapter offered is mirrored or unwanted. */
  lemma {:induction false} LatchMeansSettled(rs: seq<Record>, shows: seq<Showing>, fates: seq<Fate>)
    requires |rs| == |shows| == |fates|
    ensures SeedMayLatch(TakeAll(rs, shows, fates).out) <==> forall i | 0 <= i < |fates| :: Settled(fates[i])
  {
    if rs != [] {
      var n := |rs| - 1;
      LatchMeansSettled(rs[..n], shows[..n], fates[..n]);
      if !SeedMayLatch(TakeAll(rs[..n], shows[..n], fates[..n]).out) {
        var i :| 0 <= i < n && !Settled(fates[..n][i]);
        assert !Settled(fates[i]);
      } else {
        assert forall i | 0 <= i < n :: fates[..n][i] == fates[i];
      }
    }
  }

  /** Position of the last chapter the cursor moved to, if any. */
  function LastPassed(fates: seq<Fate>): (r: Option<nat>)
    ensures r.Some? ==> r.value < |fates| && Passes(fates[r.value])
    ensures forall i | (if r.Some? then r.value < i else 0 <= i) && i < |fates| :: !Passes(fates[i])
  {
    if fates == [] then None
    else if Passes(fates[|fates| - 1]) then Some(|fates| - 1)
    else LastPassed(fates[..|fates| - 1])
  }

  lemma {:induction false} CursorIsLastPassed(rs: seq<Record>, shows: seq<Showing>, fates: seq<Fate>)
    requires |rs| == |shows| == |fates| && forall s | s in shows :: s.Shown?
    ensures TakeAll(rs, shows, fates).last
         == if LastPassed(fates).Some? then At(rs[LastPassed(fates).value].second) else Missing
  {
    if rs != [] {
      var n := |rs| - 1;
      assert shows == shows[..n] + [shows[n]];
      CursorIsLastPassed(rs[..n], shows[..n], fates[..n]);
    }
  }

  /** The next window opens after chapter `i`'s second. */
  ghost predicate MovedPast(rs: seq<Record>, shows: seq<Showing>, fates: seq<Fate>, i: nat)
    requires |rs| == |shows| == |fates| && i < |rs|
  {
    var since := ToSince(TakeAll(rs, shows, fates).last);
    since.Some? && rs[i].second < since.value
  }

  /** The cursor moves past a chapter that was skipped or lost exactly when some chapter of a later
      second in the same window did not hold it. */
  lemma CursorMovesPast(rs: seq<Record>, shows: seq<Showing>, fates: seq<Fate>, i: nat)
    requires |rs| == |shows| == |fates| && Sorted(rs) && forall s | s in shows :: s.Shown?
    requires i < |rs| && !Passes(fates[i])
    ensures MovedPast(rs, shows, fates, i)
       <==> exists j :: i < j < |rs| && rs[i].second < rs[j].second && Passes(fates[j])
  {
    CursorIsLastPassed(rs, shows, fates);
    var k := LastPassed(fates);
    if j :| i < j < |rs| && rs[i].second < rs[j].second && Passes(fates[j]) {
      assert j <= k.value;
    }
  }

  /** A chapter of an uncatalogued work followed by one that is stored a second later. */
  lemma SkippedChapterIsPassedOver()
    ensures MovedPast([Record(1, 1), Record(2, 2)], [Shown, Shown], [Uncatalogued, Stored], 0)
  {
    CursorMovesPast([Record(1, 1), Record(2, 2)], [Shown, Shown], [Uncatalogued, Stored], 0);
    assert Passes([Uncatalogued, Stored][1]);
  }
}
