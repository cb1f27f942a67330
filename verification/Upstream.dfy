/** The upstream catalogue and the pure decisions every sweep of it makes. */
module Upstream {

  import opened Wrappers

  const PAGE_LIMIT: nat := 100
  const WINDOW_OFFSET_CAP: nat := 9900
  const EMPTY_PAGE_RETRIES: nat := 3
  const I64_MAX: nat := 0x7FFF_FFFF_FFFF_FFFF

  /** A record as upstream lists it: identity plus the second it is ordered by. */
  datatype Record = Record(id: nat, second: nat)

  /** What a parsed record shows in its timestamp field. */
  datatype Showing = Shown | Absent | Garbled

  /** The last timestamp a window has seen: none yet, one that does not parse, or a second. */
  datatype Stamp = Missing | Unreadable | At(second: nat)

  datatype PageStep = Process | EndWindow | RetryEmpty

  ghost predicate Sorted(up: seq<Record>) {
    forall i, j | 0 <= i < j < |up| :: up[i].second <= up[j].second
  }

  /** The ids of a stretch of records. */
  function IdsOf(page: seq<Record>): set<nat> { set r | r in page :: r.id }

  /** No second of the listing holds more records than one window walks. */
  ghost predicate NoCrowdedSecond(up: seq<Record>) {
    forall s: nat :: FirstAt(up, s + 1) <= FirstAt(up, s) + WINDOW_OFFSET_CAP
  }

  /** Position of the first record whose second is at or after `s`. */
  function FirstAt(up: seq<Record>, s: nat): (n: nat)
    ensures n <= |up|
    ensures forall i | 0 <= i < n :: up[i].second < s
    ensures n < |up| ==> s <= up[n].second
  {
    if up == [] || s <= up[0].second then 0 else 1 + FirstAt(up[1..], s)
  }

  /** Position the window opened by `since` starts at; no `since` lists everything. */
  function Start(up: seq<Record>, since: Option<nat>): (n: nat)
    ensures n <= |up|
  {
    match since
    case None => 0
    case Some(s) => FirstAt(up, s)
  }

  /** The slice of the window a request at `offset` returns when upstream hands over `n` records. */
  function Served(up: seq<Record>, since: Option<nat>, offset: nat, n: nat): (page: seq<Record>)
    requires Start(up, since) + offset <= |up|
    ensures |page| <= n && |page| <= PAGE_LIMIT
    ensures Start(up, since) + offset + |page| <= |up|
    ensures forall i | 0 <= i < |page| :: page[i] == up[Start(up, since) + offset + i]
    ensures n > 0 && Start(up, since) + offset < |up| ==> |page| > 0
  {
    var from := Start(up, since) + offset;
    var len := if n <= PAGE_LIMIT then n else PAGE_LIMIT;
    up[from..if from + len <= |up| then from + len else |up|]
  }

  function ClassifyPage(rawLen: nat, offset: nat, total: nat): PageStep {
    if rawLen > 0 then Process
    else if total == 0 || offset >= total then EndWindow
    else RetryEmpty
  }

  function NextOffset(offset: nat, rawLen: nat): nat {
    if offset + rawLen <= I64_MAX then offset + rawLen else I64_MAX
  }

  /** What becomes of one record of a page: it is no record, or something is done with it. */
  datatype RecordFate<Done> = Unparsed | Parsed(shows: Showing, done: Done)

  /** The records of a page that do not parse. */
  function Drops<Done>(fates: seq<RecordFate<Done>>): (n: nat)
    ensures n == 0 <==> forall f | f in fates :: !f.Unparsed?
    ensures n <= |fates|
  {
    if fates == [] then 0
    else Drops(fates[..|fates| - 1]) + if fates[|fates| - 1].Unparsed? then 1 else 0
  }

  /** And those that do. */
  function Parses<Done>(fates: seq<RecordFate<Done>>): (n: nat)
    ensures n + Drops(fates) == |fates|
  {
    if fates == [] then 0
    else Parses(fates[..|fates| - 1]) + if fates[|fates| - 1].Parsed? then 1 else 0
  }

  function StampOf(r: Record, shows: Showing, last: Stamp): Stamp {
    match shows
    case Shown => At(r.second)
    case Garbled => Unreadable
    case Absent => last
  }

  function ToSince(last: Stamp): Option<nat> {
    if last.At? then Some(last.second) else None
  }

  function ToSinceNextSecond(last: Stamp): Option<nat> {
    if last.At? then Some(last.second + 1) else None
  }

  /** The window after this one: slide to the last second seen, or step one past it when that
      would not move; `None` when neither is possible. */
  function NextWindow(since: Option<nat>, last: Stamp): Option<nat> {
    var next := ToSince(last);
    if next.None? || next == since then
      var stepped := ToSinceNextSecond(last);
      if stepped.Some? && stepped != since then stepped else None
    else next
  }

  /** True when the next window is a step over the current second rather than a slide. */
  predicate StepsOver(since: Option<nat>, last: Stamp) {
    last.At? && since == Some(last.second)
  }

  /** A larger second never starts earlier. */
  lemma FirstAtMonotone(up: seq<Record>, s: nat, t: nat)
    requires s <= t
    ensures FirstAt(up, s) <= FirstAt(up, t)
  {
  }

  /** In a sorted listing everything from the start of a window on is at or after its second. */
  lemma AfterFirstAt(up: seq<Record>, s: nat, i: nat)
    requires Sorted(up) && FirstAt(up, s) <= i < |up|
    ensures s <= up[i].second
  {
    assert up[FirstAt(up, s)].second <= up[i].second;
  }

  /** A window reaching past a record of second `s` has reached the start of `s`. */
  lemma StartBeforeMember(up: seq<Record>, i: nat)
    requires i < |up|
    ensures FirstAt(up, up[i].second) <= i
  {
  }

  /** The next window, when there is one, opens strictly later, and no earlier in the listing. */
  lemma NextWindowAdvances(up: seq<Record>, since: Option<nat>, last: Stamp)
    requires since.Some? && last.At? ==> since.value <= last.second
    ensures NextWindow(since, last).Some? <==> last.At?
    ensures last.At? && since.Some? ==> since.value < NextWindow(since, last).value
    ensures last.At? ==> Start(up, since) <= Start(up, NextWindow(since, last))
    ensures StepsOver(since, last) ==> Start(up, NextWindow(since, last)) == FirstAt(up, last.second + 1)
  {
    if last.At? && since.Some? { FirstAtMonotone(up, since.value, NextWindow(since, last).value); }
  }

  /** The last timestamp seen is that of a record this window has walked. */
  ghost predicate LastSeen(up: seq<Record>, since: Option<nat>, last: Stamp, n: nat)
    requires n <= |up|
  {
    last.At? ==> exists i :: Start(up, since) <= i < n && up[i].second == last.second
  }

  lemma {:induction false} LastSeenBounds(up: seq<Record>, since: Option<nat>, last: Stamp, n: nat)
    requires Sorted(up) && n <= |up| && LastSeen(up, since, last, n) && last.At?
    ensures FirstAt(up, last.second) < n
    ensures since.Some? ==> since.value <= last.second
    ensures last.second <= up[|up| - 1].second
  {
    var i :| Start(up, since) <= i < n && up[i].second == last.second;
    StartBeforeMember(up, i);
    if since.Some? { AfterFirstAt(up, since.value, i); }
  }

  /** Seconds the window start can still move through. */
  function SecondsLeft(up: seq<Record>, since: Option<nat>): nat {
    if up == [] then 0
    else
      var newest := up[|up| - 1].second;
      match since
      case None => newest + 2
      case Some(s) => if s <= newest then newest + 1 - s else 0
  }

  function Weigh(a: nat, b: nat, base: nat): nat {
    a * base + b
  }

  lemma WeighLess(a: nat, b: nat, a': nat, b': nat, base: nat)
    requires b < base && (a < a' || (a == a' && b < b'))
    ensures Weigh(a, b, base) < Weigh(a', b', base)
  {
    if a < a' {
      assert (a + 1) * base <= a' * base;
    }
  }
}
