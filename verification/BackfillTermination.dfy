/** A backfill pass ends, against every upstream and database. */
module BackfillTermination {
  import opened Wrappers
  import opened Upstream
  import opened Backfill
  import opened BackfillSafety

  /** What the bookkeeping alone keeps, whatever the store holds. */
  ghost predicate Tidy(up: seq<Record>, p: Pass) {
    && Pos(up, p) <= |up|
    && (p.status.Walking? ==> p.offset < WINDOW_OFFSET_CAP)
    && p.empties <= EMPTY_PAGE_RETRIES && p.errs <= PAGE_ERROR_RETRIES
    && LastSeen(up, p.since, p.last, Pos(up, p))
  }

  /** `q` is closer to the end than `p`: fewer seconds, else fewer records left in the window,
      else fewer empty-page retries, else fewer page-error retries. */
  ghost predicate Closer(up: seq<Record>, q: Pass, p: Pass)
    requires Pos(up, q) <= |up| && Pos(up, p) <= |up|
  {
    var (a, b) := (SecondsLeft(up, q.since), SecondsLeft(up, p.since));
    a < b || (a == b && (Pos(up, q) > Pos(up, p) || (Pos(up, q) == Pos(up, p)
    && (q.empties > p.empties || (q.empties == p.empties && q.errs > p.errs)))))
  }

  lemma CloseWindowCloser(up: seq<Record>, p: Pass, t: Turn)
    requires Sorted(up) && Pos(up, p) <= |up| && LastSeen(up, p.since, p.last, Pos(up, p))
    requires p.empties <= EMPTY_PAGE_RETRIES && p.errs <= PAGE_ERROR_RETRIES && p.status.Walking?
    ensures var r := CloseWindow(p, t);
            && Tidy(up, r.(status := Finished)) && (r.status.Walking? ==> r.offset == 0)
            && (r.status.Walking? ==> SecondsLeft(up, r.since) < SecondsLeft(up, p.since))
  {
    if p.last.At? {
      LastSeenBounds(up, p.since, p.last, Pos(up, p));
    }
  }

  lemma PageTakenCloser(up: seq<Record>, r: Pass, t: Turn)
    requires Sorted(up) && r.status.Walking? && Tidy(up, r.(status := Finished))
    ensures var q := PageTaken(r, |up| - Start(up, r.since), t);
            Tidy(up, q) && (q.status.Walking? ==> q == r || SecondsLeft(up, q.since) < SecondsLeft(up, r.since))
  {
    if r.offset < |up| - Start(up, r.since) && (r.offset >= WINDOW_OFFSET_CAP || t.spent) {
      CloseWindowCloser(up, r, t);
    }
  }

  lemma PageStepCloser(up: seq<Record>, p: Pass, t: Turn)
    requires Sorted(up) && Tidy(up, p) && p.status.Walking? && t.reply.Page?
    requires Served(up, p.since, p.offset, |t.reply.fates|) != []
    ensures var q := Step(up, p, t); Tidy(up, q) && (q.status.Walking? ==> Closer(up, q, p))
  {
    var page := Served(up, p.since, p.offset, |t.reply.fates|);
    var fates := t.reply.fates[..|page|];
    var r := AfterPage(p, page, fates, t.saved);
    PageKeepsLast(up, p, page, fates, t.saved);
    assert Pos(up, r) == Pos(up, p) + |page|;
    PageTakenCloser(up, r, t);
  }

  lemma EmptyStepCloser(up: seq<Record>, p: Pass, t: Turn)
    requires Sorted(up) && Tidy(up, p) && p.status.Walking? && t.reply.Page?
    requires Served(up, p.since, p.offset, |t.reply.fates|) == []
    ensures var q := Step(up, p, t); Tidy(up, q) && (q.status.Walking? ==> Closer(up, q, p))
  {
    var q := p.(errs := 0, out := p.out.(dropped := p.out.dropped + Drops(t.reply.fates[..0])));
    if q.empties >= EMPTY_PAGE_RETRIES {
      CloseWindowCloser(up, q.(out := q.out.(truncated := q.out.truncated + 1)), t);
    }
  }

  lemma StepCloser(up: seq<Record>, p: Pass, t: Turn)
    requires Sorted(up) && Tidy(up, p) && p.status.Walking?
    ensures var q := Step(up, p, t); Tidy(up, q) && (q.status.Walking? ==> Closer(up, q, p))
  {
    match t.reply
    case Fatal =>
    case Tolerable => if p.errs >= PAGE_ERROR_RETRIES { CloseWindowCloser(up, p, t); }
    case Page(fates) =>
      if Served(up, p.since, p.offset, |fates|) == [] {
        EmptyStepCloser(up, p, t);
      } else {
        PageStepCloser(up, p, t);
      }
  }

  /** The first `n` turns of an endless script, from turn `k` on. */
  function Script(env: nat -> Turn, k: nat, n: nat): seq<Turn> {
    seq(n, i requires 0 <= i => env(k + i))
  }

  /** An upper bound on the requests still to come. */
  function Requests(up: seq<Record>, p: Pass): nat
    requires Tidy(up, p)
  {
    if !p.status.Walking? then 0
    else Weigh(SecondsLeft(up, p.since), |up| - Pos(up, p), |up| + 1) * 12
         + (EMPTY_PAGE_RETRIES - p.empties) * 3 + (PAGE_ERROR_RETRIES - p.errs) + 1
  }

  lemma CloserIsFewer(up: seq<Record>, q: Pass, p: Pass)
    requires Tidy(up, q) && Tidy(up, p) && q.status.Walking? && p.status.Walking? && Closer(up, q, p)
    ensures Requests(up, q) < Requests(up, p)
  {
    var (a, b) := (SecondsLeft(up, q.since), SecondsLeft(up, p.since));
    if a < b || Pos(up, q) > Pos(up, p) {
      WeighLess(a, |up| - Pos(up, q), b, |up| - Pos(up, p), |up| + 1);
    }
  }

  lemma StepIsFewer(up: seq<Record>, p: Pass, t: Turn)
    requires Sorted(up) && Tidy(up, p) && p.status.Walking?
    ensures Tidy(up, Step(up, p, t)) && Requests(up, Step(up, p, t)) < Requests(up, p)
  {
    var q := Step(up, p, t);
    StepCloser(up, p, t);
    if q.status.Walking? { CloserIsFewer(up, q, p); }
  }

  /** One more turn in front of a script that ends the pass ends it too. */
  lemma OneMoreTurn(up: seq<Record>, p: Pass, env: nat -> Turn, k: nat, m: nat)
    requires Pos(up, p) <= |up|
    ensures Run(up, p, Script(env, k, m + 1)) == Run(up, Step(up, p, env(k)), Script(env, k + 1, m))
  {
    assert Script(env, k, m + 1) == [env(k)] + Script(env, k + 1, m);
    RunFrom(up, p, env(k), Script(env, k + 1, m));
  }

  /** Whatever every request returns, a bounded number of them ends the pass. */
  lemma {:induction false} PassEnds(up: seq<Record>, p: Pass, env: nat -> Turn, k: nat) returns (n: nat)
    requires Sorted(up) && Tidy(up, p)
    ensures n <= Requests(up, p) && !Run(up, p, Script(env, k, n)).status.Walking?
    decreases Requests(up, p)
  {
    n := 0;
    if p.status.Walking? {
      StepIsFewer(up, p, env(k));
      n := PassEnds(up, Step(up, p, env(k)), env, k + 1);
      OneMoreTurn(up, p, env, k, n);
      n := n + 1;
    }
  }

  /** Running a script is taking its first turn and running the rest. */
  lemma {:induction false} RunFrom(up: seq<Record>, p: Pass, t: Turn, rest: seq<Turn>)
    requires Pos(up, p) <= |up|
    ensures Run(up, p, [t] + rest) == Run(up, Step(up, p, t), rest)
  {
    if rest == [] {
      assert Run(up, p, [t]) == Step(up, Run(up, p, [t][..0]), t);
      assert [t] + rest == [t];
    } else {
      var n := |rest| - 1;
      RunFrom(up, p, t, rest[..n]);
      assert ([t] + rest)[..n + 1] == [t] + rest[..n];
      assert ([t] + rest)[n + 1] == rest[n];
    }
  }

  /** No request ever asks past upstream's ceiling of ten thousand. */
  lemma {:induction false} RequestsStayBelowCeiling(up: seq<Record>, store: Store, cursorRead: bool, turns: seq<Turn>)
    requires Sorted(up)
    ensures var p := Run(up, Begin(store, cursorRead), turns);
            Tidy(up, p) && (p.status.Walking? ==> p.offset + PAGE_LIMIT < 10_000)
  {
    if turns != [] {
      var before := turns[..|turns| - 1];
      RequestsStayBelowCeiling(up, store, cursorRead, before);
      if Run(up, Begin(store, cursorRead), before).status.Walking? {
        StepCloser(up, Run(up, Begin(store, cursorRead), before), turns[|turns| - 1]);
      }
    }
  }

  /** Whatever the store holds and the world does, a pass ends. */
  lemma EveryPassEnds(up: seq<Record>, store: Store, cursorRead: bool, env: nat -> Turn)
    requires Sorted(up)
    ensures exists n: nat :: n <= Requests(up, Begin(store, cursorRead))
                             && !Run(up, Begin(store, cursorRead), Script(env, 0, n)).status.Walking?
  {
    var n := PassEnds(up, Begin(store, cursorRead), env, 0);
  }
}
