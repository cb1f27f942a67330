/** Cover blobs and cover pointers in two databases, and everything that touches either, step by step. */
module CoverProtocol {
  import opened Wrappers

  type WorkId = string

  /** A stored cover: its version, and when it was written. */
  datatype Blob = Blob(version: nat, updatedAt: nat)

  /** One cover being stored: it has seen the work, then taken its version from the clock, then written the blob. */
  datatype Put = Fetching(work: WorkId) | Stamped(work: WorkId, version: nat) | Written(work: WorkId, version: nat)

  /** One sweep batch: ids read from the covers database, then those the main database does not know. */
  datatype Sweep = NoBatch | Read(ids: set<WorkId>, cutoff: nat) | Probed(orphans: set<WorkId>, cutoff: nat)

  datatype State = State(
    up: bool,
    now: nat,
    works: map<WorkId, Option<nat>>,
    blobs: map<WorkId, Blob>,
    minted: set<WorkId>,
    puts: map<nat, Put>,
    sweep: Sweep)

  const DAY := 24 * 3600

  datatype Action =
    | Pass(seconds: nat)
    | Create(work: WorkId)
    | Delete(work: WorkId)
    | Reclaim(work: WorkId)
    | BeginPut(task: nat, work: WorkId)
    | Stamp(task: nat)
    | WriteBlob(task: nat)
    | SetPointer(task: nat)
    | ReadBatch(ids: set<WorkId>, cutoff: nat)
    | Probe
    | DeleteOrphans
    | Crash(coversLost: bool)
    | Restart

  /** What each action waits for; ids are minted fresh, and a batch is read under a cutoff a day old. */
  predicate Enabled(s: State, a: Action) {
    match a
    case Pass(_) => true
    case Crash(_) => true
    case Restart => !s.up
    case Create(work) => s.up && work !in s.minted
    case Delete(work) => s.up && work in s.works
    case Reclaim(work) => s.up && work in s.minted && work !in s.works
    case BeginPut(task, work) => s.up && task !in s.puts && work in s.works
    case Stamp(task) => s.up && task in s.puts && s.puts[task].Fetching?
    case WriteBlob(task) => s.up && task in s.puts && s.puts[task].Stamped?
    case SetPointer(task) => s.up && task in s.puts && s.puts[task].Written?
    case ReadBatch(ids, cutoff) => s.up && ids <= s.blobs.Keys && cutoff + DAY <= s.now
    case Probe => s.up && s.sweep.Read?
    case DeleteOrphans => s.up && s.sweep.Probed?
  }

  function Apply(s: State, a: Action): State
    requires Enabled(s, a)
  {
    match a
    case Pass(seconds) => s.(now := s.now + seconds)
    case Create(work) => s.(works := s.works[work := None], minted := s.minted + {work})
    case Delete(work) => s.(works := s.works - {work})
    case Reclaim(work) => s.(blobs := s.blobs - {work})
    case BeginPut(task, work) => s.(puts := s.puts[task := Fetching(work)])
    case Stamp(task) => s.(puts := s.puts[task := Stamped(s.puts[task].work, s.now)])
    case WriteBlob(task) =>
      var put := s.puts[task];
      s.(blobs := s.blobs[put.work := Blob(put.version, put.version)], puts := s.puts[task := Written(put.work, put.version)])
    case SetPointer(task) =>
      var put := s.puts[task];
      s.(works := if put.work in s.works then s.works[put.work := Some(put.version)] else s.works, puts := s.puts - {task})
    case ReadBatch(ids, cutoff) => s.(sweep := Read(ids, cutoff))
    case Probe => s.(sweep := Probed(s.sweep.ids - s.works.Keys, s.sweep.cutoff))
    case DeleteOrphans => s.(blobs := Surviving(s.blobs, s.sweep.orphans, s.sweep.cutoff), sweep := NoBatch)
    case Crash(coversLost) =>
      s.(up := false, puts := map[], sweep := NoBatch, blobs := if coversLost then map[] else s.blobs)
    case Restart =>
      s.(up := true, works := if s.blobs == map[] then (map w | w in s.works :: None) else s.works)
  }

  /** What a batch's delete leaves: the age is looked at again inside the delete. */
  function Surviving(blobs: map<WorkId, Blob>, orphans: set<WorkId>, cutoff: nat): map<WorkId, Blob> {
    map w | w in blobs && !(w in orphans && blobs[w].updatedAt < cutoff) :: blobs[w]
  }

  // ---- what every step keeps -------------------------------------------------------------

  /** A live work's pointer is never set without its blob. */
  ghost predicate PointersHaveBlobs(s: State) {
    forall w | w in s.works && s.works[w].Some? :: w in s.blobs
  }

  ghost predicate Sound(s: State) {
    && (s.up ==> PointersHaveBlobs(s))
    && (!s.up ==> s.blobs == map[] || PointersHaveBlobs(s))
    && s.works.Keys <= s.minted
    && s.blobs.Keys <= s.minted
    && (forall t | t in s.puts :: s.puts[t].work in s.minted)
    && (forall t | t in s.puts && s.puts[t].Written? && s.puts[t].work in s.works :: s.puts[t].work in s.blobs)
    && (s.sweep.Read? ==> s.sweep.ids <= s.minted && s.sweep.cutoff + DAY <= s.now)
    && (s.sweep.Probed? ==> s.sweep.orphans <= s.minted && s.sweep.orphans !! s.works.Keys && s.sweep.cutoff + DAY <= s.now)
  }

  lemma StepKeepsSound(s: State, a: Action)
    requires Sound(s) && Enabled(s, a)
    ensures Sound(Apply(s, a))
  {
    match a
    case DeleteOrphans =>
      assert forall w | w in s.works && w in s.blobs :: w in Surviving(s.blobs, s.sweep.orphans, s.sweep.cutoff);
    case _ =>
  }

  /** A run: every action enabled where it is taken. */
  ghost predicate Runs(s: State, actions: seq<Action>)
    decreases |actions|
  {
    actions == [] || (Enabled(s, actions[0]) && Runs(Apply(s, actions[0]), actions[1..]))
  }

  function Last(s: State, actions: seq<Action>): State
    requires Runs(s, actions)
    decreases |actions|
  {
    if actions == [] then s else Last(Apply(s, actions[0]), actions[1..])
  }

  /** The server not started yet, on a main database of any age and an empty covers database. */
  predicate Fresh(s: State) {
    !s.up && s.works.Keys <= s.minted && s.blobs == map[] && s.puts == map[] && s.sweep.NoBatch?
  }

  lemma {:induction false} RunKeepsSound(s: State, actions: seq<Action>)
    requires Sound(s) && Runs(s, actions)
    ensures Sound(Last(s, actions))
    decreases |actions|
  {
    if actions != [] {
      StepKeepsSound(s, actions[0]);
      RunKeepsSound(Apply(s, actions[0]), actions[1..]);
    }
  }

  /**
   * In every interleaving of creations, deletions, cover writes, sweep batches, crashes and
   * restarts, a live work whose pointer is set has its blob whenever the server is up.
   */
  lemma PointerImpliesBlob(s: State, actions: seq<Action>, w: WorkId)
    requires Fresh(s) && Runs(s, actions)
    requires var z := Last(s, actions); z.up && w in z.works && z.works[w].Some?
    ensures w in Last(s, actions).blobs
  {
    RunKeepsSound(s, actions);
  }

  /**
   * A sweep's delete, whenever it comes, leaves the blob of every live work as it was, and
   * deletes nothing stamped within the last day.
   */
  lemma SweepSparesLiveAndYoung(s: State, actions: seq<Action>, w: WorkId)
    requires Fresh(s) && Runs(s, actions) && Enabled(Last(s, actions), DeleteOrphans)
    requires var z := Last(s, actions); w in z.blobs && (w in z.works || z.blobs[w].updatedAt + DAY >= z.now)
    ensures var z := Last(s, actions);
            var after := Apply(z, DeleteOrphans).blobs;
            w in after && after[w] == z.blobs[w]
  {
    RunKeepsSound(s, actions);
  }

  /** No id is ever live again after it was deleted. */
  lemma {:induction false} NeverReborn(s: State, actions: seq<Action>, w: WorkId)
    requires Sound(s) && Runs(s, actions) && w in s.minted && w !in s.works
    ensures w !in Last(s, actions).works
    decreases |actions|
  {
    if actions != [] {
      StepKeepsSound(s, actions[0]);
      NeverReborn(Apply(s, actions[0]), actions[1..], w);
    }
  }

  /** A restart reconciles the two databases exactly when the covers database is empty or nothing of use is missing from it. */
  lemma RestartReconciles(s: State)
    requires !s.up
    ensures PointersHaveBlobs(Apply(s, Restart)) <==> s.blobs == map[] || PointersHaveBlobs(s)
  {
    var z := Apply(s, Restart);
    if s.blobs != map[] { assert z.works == s.works; }
  }

  /** A restart brings the server up; with no cover left it clears every pointer, and else it changes neither database. */
  lemma RestartIs(s: State, w: WorkId)
    requires !s.up
    ensures var z := Apply(s, Restart);
            && z.up && z.blobs == s.blobs && z.works.Keys == s.works.Keys
            && (w in s.works ==> z.works[w] == if s.blobs == map[] then None else s.works[w])
  {
  }

  // ---- what a page is told -----------------------------------------------------------------

  /** The URL a page is given: versioned when the pointer is set, lazy when there is an anchor, else empty. */
  datatype CoverUrl = Versioned(work: WorkId, version: nat) | Lazy(work: WorkId) | NoCover

  function WorkCoverUrl(work: WorkId, cachedVersion: Option<nat>, mangadexId: Option<string>, fileName: Option<string>): CoverUrl {
    if cachedVersion.Some? then Versioned(work, cachedVersion.value)
    else if mangadexId.Some? && fileName.Some? && mangadexId.value != "" && fileName.value != "" then Lazy(work)
    else NoCover
  }

  /** A versioned URL given out for a live work always finds a blob. */
  lemma VersionedUrlIsServed(s: State, actions: seq<Action>, w: WorkId, mangadexId: Option<string>, fileName: Option<string>)
    requires Fresh(s) && Runs(s, actions) && Last(s, actions).up && w in Last(s, actions).works
    requires WorkCoverUrl(w, Last(s, actions).works[w], mangadexId, fileName).Versioned?
    ensures w in Last(s, actions).blobs
  {
    PointerImpliesBlob(s, actions, w);
  }

  /** A set pointer is given out with its version; without one the work is fetched lazily if it has a whole anchor. */
  lemma UrlIs(work: WorkId, cachedVersion: Option<nat>, mangadexId: Option<string>, fileName: Option<string>)
    ensures var url := WorkCoverUrl(work, cachedVersion, mangadexId, fileName);
            var anchored := exists id, name :: mangadexId == Some(id) && fileName == Some(name) && id != "" && name != "";
            && (forall v: nat :: cachedVersion == Some(v) <==> url == Versioned(work, v))
            && (url == Lazy(work) <==> cachedVersion.None? && anchored)
            && (url == NoCover <==> cachedVersion.None? && !anchored)
  {
  }

  // ---- what the steps come to ------------------------------------------------------------------

  /** A put that nothing interrupts stores a blob of the present version and points the work at it, and touches no other. */
  lemma PutLands(s: State, task: nat, w: WorkId)
    requires s.up && w in s.works && task in s.puts && s.puts[task] == Fetching(w)
    ensures Runs(s, [Stamp(task), WriteBlob(task), SetPointer(task)])
    ensures Last(s, [Stamp(task), WriteBlob(task), SetPointer(task)])
         == s.(works := s.works[w := Some(s.now)], blobs := s.blobs[w := Blob(s.now, s.now)], puts := s.puts - {task})
  {
    var s1 := Apply(s, Stamp(task));
    var s2 := Apply(s1, WriteBlob(task));
    assert s1.puts[task] == Stamped(w, s.now) && s2.puts[task] == Written(w, s.now);
    var none: seq<Action> := [];
    OneStep(s2, SetPointer(task), none);
    OneStep(s1, WriteBlob(task), [SetPointer(task)] + none);
    OneStep(s, Stamp(task), [WriteBlob(task)] + ([SetPointer(task)] + none));
    assert [Stamp(task), WriteBlob(task), SetPointer(task)] == [Stamp(task)] + ([WriteBlob(task)] + ([SetPointer(task)] + none));
    var z := Last(s, [Stamp(task), WriteBlob(task), SetPointer(task)]);
    assert z.puts == s.puts - {task};
  }

  /** A batch that nothing interrupts deletes exactly the blobs of it that belong to no work and are older than the cutoff. */
  lemma BatchDeletes(s: State, ids: set<WorkId>, cutoff: nat, w: WorkId)
    requires s.up && ids <= s.blobs.Keys && cutoff + 86400 <= s.now
    ensures Runs(s, [ReadBatch(ids, cutoff), Probe, DeleteOrphans])
    ensures var z := Last(s, [ReadBatch(ids, cutoff), Probe, DeleteOrphans]);
            && z == s.(blobs := z.blobs, sweep := NoBatch)
            && (w in z.blobs <==> w in s.blobs && !(w in ids && w !in s.works && s.blobs[w].updatedAt < cutoff))
            && (w in z.blobs ==> z.blobs[w] == s.blobs[w])
  {
    var s1 := Apply(s, ReadBatch(ids, cutoff));
    var s2 := Apply(s1, Probe);
    var none: seq<Action> := [];
    OneStep(s2, DeleteOrphans, none);
    OneStep(s1, Probe, [DeleteOrphans] + none);
    OneStep(s, ReadBatch(ids, cutoff), [Probe] + ([DeleteOrphans] + none));
    assert [ReadBatch(ids, cutoff), Probe, DeleteOrphans] == [ReadBatch(ids, cutoff)] + ([Probe] + ([DeleteOrphans] + none));
  }

  /** Deleting a work leaves its blob to the sweep or to a reclaim; a crash takes what was under way and never the main database. */
  lemma DeletedWorkLeavesOrphan(s: State, w: WorkId)
    requires Sound(s) && s.up && w in s.works
    ensures Enabled(s, Delete(w)) && Enabled(Apply(s, Delete(w)), Reclaim(w))
    ensures var z := Apply(s, Delete(w)); z.works == s.works - {w} && z.blobs == s.blobs
    ensures Apply(Apply(s, Delete(w)), Reclaim(w)).blobs == s.blobs - {w}
    ensures forall lost :: Apply(s, Crash(lost)).works == s.works && Apply(s, Crash(lost)).puts == map[]
  {
  }

  // ---- what the protocol does not promise ------------------------------------------------------

  /** The second of two overlapping puts writes its blob last and sets its pointer first. */
  const CROSSING := [Stamp(0), Pass(1), Stamp(1), WriteBlob(0), WriteBlob(1), SetPointer(1), SetPointer(0)]

  /** Two puts of one work that overlap can leave its pointer and its blob with different versions. */
  lemma {:induction false} VersionsMayCross(s: State, w: WorkId)
    requires s.up && w in s.works && 0 in s.puts && 1 in s.puts
    requires s.puts[0] == Fetching(w) && s.puts[1] == Fetching(w)
    ensures Runs(s, CROSSING)
    ensures var z := Last(s, CROSSING);
            w in z.works && w in z.blobs && z.works[w] == Some(s.now) && z.blobs[w].version == s.now + 1
  {
    var s1 := Apply(s, Stamp(0));
    var s2 := Apply(s1, Pass(1));
    var s3 := Apply(s2, Stamp(1));
    assert s3.puts[0] == Stamped(w, s.now) && s3.puts[1] == Stamped(w, s.now + 1);
    assert CROSSING == [Stamp(0)] + ([Pass(1)] + ([Stamp(1)] + CROSSED));
    CrossedPuts(s3, w, s.now);
    OneStep(s2, Stamp(1), CROSSED);
    OneStep(s1, Pass(1), [Stamp(1)] + CROSSED);
    OneStep(s, Stamp(0), [Pass(1)] + ([Stamp(1)] + CROSSED));
  }

  const CROSSED := [WriteBlob(0), WriteBlob(1), SetPointer(1), SetPointer(0)]

  lemma {:induction false} CrossedPuts(s: State, w: WorkId, v: nat)
    requires s.up && w in s.works && 0 in s.puts && 1 in s.puts
    requires s.puts[0] == Stamped(w, v) && s.puts[1] == Stamped(w, v + 1)
    ensures Runs(s, CROSSED)
    ensures var z := Last(s, CROSSED);
            w in z.works && w in z.blobs && z.works[w] == Some(v) && z.blobs[w].version == v + 1
  {
    var s1 := Apply(s, WriteBlob(0));
    var s2 := Apply(s1, WriteBlob(1));
    assert s2.puts[0] == Written(w, v) && s2.puts[1] == Written(w, v + 1);
    var s3 := Apply(s2, SetPointer(1));
    assert s3.puts[0] == Written(w, v) && s3.works[w] == Some(v + 1);
    var s4 := Apply(s3, SetPointer(0));
    assert s4.works[w] == Some(v) && s4.blobs[w].version == v + 1;
    var last: seq<Action> := [];
    OneStep(s3, SetPointer(0), last);
    OneStep(s2, SetPointer(1), [SetPointer(0)] + last);
    OneStep(s1, WriteBlob(1), [SetPointer(1)] + ([SetPointer(0)] + last));
    OneStep(s, WriteBlob(0), [WriteBlob(1)] + ([SetPointer(1)] + ([SetPointer(0)] + last)));
    assert CROSSED == [WriteBlob(0)] + ([WriteBlob(1)] + ([SetPointer(1)] + ([SetPointer(0)] + last)));
  }

  // ---- when versions do agree ------------------------------------------------------------------

  /** The put is past its stamp and not done. */
  predicate Storing(s: State, task: nat, w: WorkId) {
    task in s.puts && !s.puts[task].Fetching? && s.puts[task].work == w
  }

  /** No put of the work is between its stamp and its pointer. */
  ghost predicate Idle(s: State, w: WorkId) { forall task :: !Storing(s, task, w) }

  /**
   * One put of a work at a time, as under a lock of the caller's own from stamp to pointer, and no
   * crash between the blob and the pointer of one.
   */
  ghost predicate OneAtATime(s: State, a: Action) {
    && (a.Stamp? && a.task in s.puts ==> Idle(s, s.puts[a.task].work))
    && (a.Crash? ==> forall task | task in s.puts :: !s.puts[task].Written?)
  }

  ghost predicate RunsOneAtATime(s: State, actions: seq<Action>)
    decreases |actions|
  {
    actions == []
    || (Enabled(s, actions[0]) && OneAtATime(s, actions[0]) && RunsOneAtATime(Apply(s, actions[0]), actions[1..]))
  }

  /** A work's pointer, when set and its blob there, has the blob's version. */
  ghost predicate Agrees(s: State, w: WorkId) {
    w in s.works && s.works[w].Some? && w in s.blobs ==> s.works[w].value == s.blobs[w].version
  }

  ghost predicate InStep(s: State) {
    && (forall w | Idle(s, w) :: Agrees(s, w))
    && (forall t, u | t in s.puts && u in s.puts && t != u && !s.puts[t].Fetching? && !s.puts[u].Fetching? ::
          s.puts[t].work != s.puts[u].work)
    && (forall t | t in s.puts && s.puts[t].Written? && s.puts[t].work in s.blobs ::
          s.blobs[s.puts[t].work].version == s.puts[t].version)
    && (forall t | t in s.puts && s.puts[t].Stamped? :: Agrees(s, s.puts[t].work))
  }

  lemma StampKeepsInStep(s: State, task: nat)
    requires InStep(s) && Enabled(s, Stamp(task)) && OneAtATime(s, Stamp(task))
    ensures InStep(Apply(s, Stamp(task)))
  {
    var z, w := Apply(s, Stamp(task)), s.puts[task].work;
    assert Agrees(s, w);
    forall t | t in s.puts && t != task && !s.puts[t].Fetching? ensures s.puts[t].work != w { assert !Storing(s, t, w); }
    forall v | Idle(z, v) ensures Agrees(z, v) {
      assert !Storing(z, task, v);
      forall t ensures !Storing(s, t, v) { assert !Storing(z, t, v); }
      assert Idle(s, v) && Agrees(s, v);
    }
  }

  lemma WriteKeepsInStep(s: State, task: nat)
    requires InStep(s) && Enabled(s, WriteBlob(task))
    ensures InStep(Apply(s, WriteBlob(task)))
  {
    var z := Apply(s, WriteBlob(task));
    forall v | Idle(z, v) ensures Agrees(z, v) {
      assert !Storing(z, task, v);
      forall t ensures !Storing(s, t, v) { assert !Storing(z, t, v); }
      assert Idle(s, v) && Agrees(s, v);
    }
  }

  lemma PointKeepsInStep(s: State, task: nat)
    requires InStep(s) && Enabled(s, SetPointer(task))
    ensures InStep(Apply(s, SetPointer(task)))
  {
    var z := Apply(s, SetPointer(task));
    forall v | Idle(z, v) ensures Agrees(z, v) {
      if v != s.puts[task].work {
        forall t ensures !Storing(s, t, v) { assert !Storing(z, t, v); }
        assert Idle(s, v) && Agrees(s, v);
      }
    }
  }

  /** What is neither a put nor a crash touches no put, and pointers and blobs of other works or none. */
  lemma OthersKeepInStep(s: State, a: Action)
    requires InStep(s) && Sound(s) && Enabled(s, a) && !a.Stamp? && !a.WriteBlob? && !a.SetPointer? && !a.Crash?
    ensures InStep(Apply(s, a))
  {
    var z := Apply(s, a);
    forall v | Idle(z, v) ensures Agrees(z, v) {
      forall t ensures !Storing(s, t, v) { assert !Storing(z, t, v); }
      assert Idle(s, v) && Agrees(s, v);
    }
  }

  lemma CrashKeepsInStep(s: State, coversLost: bool)
    requires InStep(s) && OneAtATime(s, Crash(coversLost))
    ensures InStep(Apply(s, Crash(coversLost)))
  {
    var z := Apply(s, Crash(coversLost));
    forall v ensures Agrees(z, v) {
      if task :| Storing(s, task, v) {
        assert s.puts[task].Stamped?;
      } else {
        assert Idle(s, v);
      }
      assert Agrees(s, v);
    }
  }

  lemma {:induction false} RunKeepsInStep(s: State, actions: seq<Action>)
    requires Sound(s) && InStep(s) && RunsOneAtATime(s, actions)
    ensures Runs(s, actions) && InStep(Last(s, actions))
    decreases |actions|
  {
    if actions != [] {
      var a := actions[0];
      StepKeepsSound(s, a);
      match a {
        case Stamp(task) => StampKeepsInStep(s, task);
        case WriteBlob(task) => WriteKeepsInStep(s, task);
        case SetPointer(task) => PointKeepsInStep(s, task);
        case Crash(lost) => CrashKeepsInStep(s, lost);
        case _ => OthersKeepInStep(s, a);
      }
      RunKeepsInStep(Apply(s, a), actions[1..]);
    }
  }

  /**
   * In every run with deletions, sweeps, crashes and restarts in which the puts of a work come one at
   * a time and no crash falls between a blob and its pointer, a live work none of whose puts is under
   * way has the version of its blob in its pointer, whenever the pointer is set and the server is up.
   */
  lemma VersionsAgree(s: State, actions: seq<Action>, w: WorkId)
    requires Fresh(s) && RunsOneAtATime(s, actions)
    ensures Runs(s, actions)
    ensures var z := Last(s, actions);
            z.up && Idle(z, w) && w in z.works && z.works[w].Some? ==>
              w in z.blobs && z.works[w].value == z.blobs[w].version
  {
    RunKeepsInStep(s, actions);
    RunKeepsSound(s, actions);
  }

  /**
   * A crash that spares the covers database leaves a pointer with another version than its blob
   * exactly when it falls between that blob and its pointer and the two versions differ.
   */
  lemma CrashTears(s: State, w: WorkId)
    requires InStep(s) && w in s.works && s.works[w].Some? && w in s.blobs
    ensures Agrees(Apply(s, Crash(false)), w)
       <==> forall task | Storing(s, task, w) && s.puts[task].Written? :: s.puts[task].version == s.works[w].value
  {
    if task :| Storing(s, task, w) {
      if s.puts[task].Stamped? { assert Agrees(s, w); }
      forall u | Storing(s, u, w) ensures u == task {}
    } else {
      assert Idle(s, w);
    }
  }

  lemma OneStep(s: State, a: Action, rest: seq<Action>)
    requires Enabled(s, a) && Runs(Apply(s, a), rest)
    ensures Runs(s, [a] + rest) && Last(s, [a] + rest) == Last(Apply(s, a), rest)
  {
    assert ([a] + rest)[1..] == rest;
  }
}
