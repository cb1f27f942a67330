/** Text order, and sorting and deduplicating by a strict total order. */
module Ordering {

  /** Text as the database and the standard library compare it: byte by byte, a prefix first. */
  predicate Less(a: string, b: string) {
    b != [] && (a == [] || a[0] < b[0] || (a[0] == b[0] && Less(a[1..], b[1..])))
  }

  ghost predicate StrictTotal<T(!new)>(lt: (T, T) -> bool) {
    && (forall x :: !lt(x, x))
    && (forall x, y :: x == y || lt(x, y) || lt(y, x))
    && (forall x, y, z :: lt(x, y) && lt(y, z) ==> lt(x, z))
  }

  lemma {:induction false} LessTotal(a: string, b: string)
    ensures !Less(a, a) && (a == b || Less(a, b) || Less(b, a))
  {
    if a != [] {
      LessTotal(a[1..], if b == [] then [] else b[1..]);
      if b != [] && a[0] == b[0] {
        assert a == [a[0]] + a[1..] && b == [b[0]] + b[1..];
      }
    }
  }

  lemma {:induction false} LessTransitive(a: string, b: string, c: string)
    requires Less(a, b) && Less(b, c)
    ensures Less(a, c)
  {
    if a != [] && a[0] == b[0] == c[0] {
      LessTransitive(a[1..], b[1..], c[1..]);
    }
  }

  lemma Asymmetric(a: string, b: string)
    requires Less(a, b)
    ensures !Less(b, a)
  {
    LessTotal(a, a);
    if Less(b, a) { LessTransitive(a, b, a); }
  }

  /** One text comes before another when it is a proper beginning of it, or has the lesser character where they first differ. */
  predicate ComesBefore(a: string, b: string, k: nat) {
    k <= |a| && k < |b| && a[..k] == b[..k] && (k < |a| ==> a[k] < b[k])
  }

  lemma {:induction false} LessMeans(a: string, b: string)
    ensures Less(a, b) <==> exists k: nat :: ComesBefore(a, b, k)
  {
    forall k: nat | k > 0 && ComesBefore(a, b, k) ensures a != [] && b != [] && a[0] == b[0] { FirstAgrees(a, b, k); }
    if a == [] || b == [] || a[0] != b[0] {
      assert ComesBefore(a, b, 0) <==> b != [] && (a == [] || a[0] < b[0]);
    } else {
      LessMeans(a[1..], b[1..]);
      forall k: nat ensures ComesBefore(a[1..], b[1..], k) <==> ComesBefore(a, b, k + 1) { NextBefore(a, b, k); }
      if k: nat :| ComesBefore(a, b, k) { assert k > 0 && ComesBefore(a[1..], b[1..], k - 1); }
    }
  }

  lemma FirstAgrees(a: string, b: string, k: nat)
    requires k > 0 && ComesBefore(a, b, k)
    ensures a != [] && b != [] && a[0] == b[0]
  {
    assert a[..k][0] == b[..k][0];
  }

  lemma NextBefore(a: string, b: string, k: nat)
    requires a != [] && b != [] && a[0] == b[0]
    ensures ComesBefore(a[1..], b[1..], k) <==> ComesBefore(a, b, k + 1)
  {
    if k + 1 <= |a| && k + 1 < |b| {
      assert a[..k + 1] == [a[0]] + a[1..][..k] && b[..k + 1] == [b[0]] + b[1..][..k];
    }
  }

  lemma LessIsStrictTotal()
    ensures StrictTotal(Less)
  {
    forall a, b ensures !Less(a, a) && (a == b || Less(a, b) || Less(b, a)) { LessTotal(a, b); }
    forall a, b, c | Less(a, b) && Less(b, c) ensures Less(a, c) { LessTransitive(a, b, c); }
  }

  // ---- sorting -------------------------------------------------------------------------

  function Insert<T(!new)>(x: T, s: seq<T>, lt: (T, T) -> bool): seq<T> {
    if s == [] || !lt(s[0], x) then [x] + s else [s[0]] + Insert(x, s[1..], lt)
  }

  function Sort<T(!new)>(s: seq<T>, lt: (T, T) -> bool): seq<T> {
    if s == [] then [] else Insert(s[0], Sort(s[1..], lt), lt)
  }

  /** Nothing stands before something smaller. */
  ghost predicate Ordered<T(!new)>(s: seq<T>, lt: (T, T) -> bool) {
    forall i, j | 0 <= i < j < |s| :: !lt(s[j], s[i])
  }

  ghost predicate StrictlyOrdered<T(!new)>(s: seq<T>, lt: (T, T) -> bool) {
    forall i, j | 0 <= i < j < |s| :: lt(s[i], s[j])
  }

  /** Where the new element lands: after everything smaller that leads the list. */
  lemma {:induction false} InsertPlace<T(!new)>(x: T, s: seq<T>, lt: (T, T) -> bool) returns (k: nat)
    ensures k <= |s| && Insert(x, s, lt) == s[..k] + [x] + s[k..]
    ensures (forall i | 0 <= i < k :: lt(s[i], x)) && (k < |s| ==> !lt(s[k], x))
  {
    if s == [] || !lt(s[0], x) {
      k := 0;
    } else {
      var m := InsertPlace(x, s[1..], lt);
      k := m + 1;
      assert s[..k] == [s[0]] + s[1..][..m] && s[k..] == s[1..][m..];
    }
  }

  lemma PlacedOrdered<T(!new)>(x: T, s: seq<T>, k: nat, lt: (T, T) -> bool)
    requires StrictTotal(lt) && Ordered(s, lt) && k <= |s|
    requires (forall i | 0 <= i < k :: lt(s[i], x)) && (k < |s| ==> !lt(s[k], x))
    ensures Ordered(s[..k] + [x] + s[k..], lt)
  {
    var r := s[..k] + [x] + s[k..];
    forall i, j | 0 <= i < j < |r|
      ensures !lt(r[j], r[i])
    {
      if i == k {
        assert r[j] == s[j - 1] && (j - 1 == k || !lt(s[j - 1], s[k]));
      } else if j == k {
        assert lt(s[i], x);
      } else {
        var (a, b) := (if i < k then i else i - 1, if j < k then j else j - 1);
        assert r[i] == s[a] && r[j] == s[b] && a < b;
      }
    }
  }

  lemma InsertOrders<T(!new)>(x: T, s: seq<T>, lt: (T, T) -> bool)
    requires StrictTotal(lt) && Ordered(s, lt)
    ensures Ordered(Insert(x, s, lt), lt) && multiset(Insert(x, s, lt)) == multiset(s) + multiset{x}
    ensures |Insert(x, s, lt)| == |s| + 1
  {
    var k := InsertPlace(x, s, lt);
    assert s == s[..k] + s[k..];
    PlacedOrdered(x, s, k, lt);
  }

  lemma {:induction false} SortOrders<T(!new)>(s: seq<T>, lt: (T, T) -> bool)
    requires StrictTotal(lt)
    ensures Ordered(Sort(s, lt), lt) && multiset(Sort(s, lt)) == multiset(s) && |Sort(s, lt)| == |s|
  {
    if s != [] {
      SortOrders(s[1..], lt);
      InsertOrders(s[0], Sort(s[1..], lt), lt);
      assert s == [s[0]] + s[1..];
    }
  }

  lemma SameMembers<T(!new)>(a: seq<T>, b: seq<T>, x: T)
    requires multiset(a) == multiset(b)
    ensures x in a <==> x in b
  {
    assert x in a <==> x in multiset(a);
  }

  lemma SortMembers<T(!new)>(s: seq<T>, lt: (T, T) -> bool)
    requires StrictTotal(lt)
    ensures forall x :: x in Sort(s, lt) <==> x in s
  {
    SortOrders(s, lt);
    forall x ensures x in Sort(s, lt) <==> x in s { SameMembers(Sort(s, lt), s, x); }
  }

  ghost predicate NoRepeats<T(!new)>(s: seq<T>) { forall i, j | 0 <= i < j < |s| :: s[i] != s[j] }

  lemma {:induction false} SortKeepsNoRepeats<T(!new)>(s: seq<T>, lt: (T, T) -> bool)
    requires StrictTotal(lt) && NoRepeats(s)
    ensures NoRepeats(Sort(s, lt))
  {
    if s != [] {
      var rest := Sort(s[1..], lt);
      SortKeepsNoRepeats(s[1..], lt);
      SortMembers(s[1..], lt);
      assert forall j | 0 <= j < |s| - 1 :: s[1..][j] != s[0];
      assert s[0] !in rest;
      var k := InsertPlace(s[0], rest, lt);
    }
  }

  /** Sorting a list without repeats leaves none, so it is sorted strictly. */
  lemma SortStrict<T(!new)>(s: seq<T>, lt: (T, T) -> bool)
    requires StrictTotal(lt) && NoRepeats(s)
    ensures StrictlyOrdered(Sort(s, lt), lt) && NoRepeats(Sort(s, lt))
  {
    SortKeepsNoRepeats(s, lt);
    SortOrders(s, lt);
    var r := Sort(s, lt);
    forall i, j | 0 <= i < j < |r| ensures lt(r[i], r[j]) { assert !lt(r[j], r[i]) && r[i] != r[j]; }
  }

  lemma SameHeads<T(!new)>(a: seq<T>, b: seq<T>, lt: (T, T) -> bool)
    requires StrictTotal(lt) && Ordered(a, lt) && Ordered(b, lt) && multiset(a) == multiset(b) && a != [] && b != []
    ensures a[0] == b[0]
  {
    SameMembers(a, b, a[0]);
    SameMembers(a, b, b[0]);
    var i :| 0 <= i < |b| && b[i] == a[0];
    var j :| 0 <= j < |a| && a[j] == b[0];
    assert i == 0 || !lt(b[i], b[0]);
    assert j == 0 || !lt(a[j], a[0]);
  }

  lemma SameTails<T(!new)>(a: seq<T>, b: seq<T>)
    requires multiset(a) == multiset(b) && a != [] && b != [] && a[0] == b[0]
    ensures multiset(a[1..]) == multiset(b[1..])
  {
    assert a == [a[0]] + a[1..] && b == [b[0]] + b[1..];
    assert multiset(a[1..]) == multiset(a) - multiset{a[0]};
    assert multiset(b[1..]) == multiset(b) - multiset{b[0]};
  }

  /** There is one ordered arrangement of a bag. */
  lemma {:induction false} OrderedUnique<T(!new)>(a: seq<T>, b: seq<T>, lt: (T, T) -> bool)
    requires StrictTotal(lt) && Ordered(a, lt) && Ordered(b, lt) && multiset(a) == multiset(b)
    ensures a == b
  {
    assert |a| == |multiset(a)| && |b| == |multiset(b)|;
    if a != [] {
      SameHeads(a, b, lt);
      SameTails(a, b);
      OrderedUnique(a[1..], b[1..], lt);
      assert a == [a[0]] + a[1..] && b == [b[0]] + b[1..];
    }
  }

  /** There is one strictly ordered arrangement of a set. */
  lemma {:induction false} StrictUnique<T(!new)>(a: seq<T>, b: seq<T>, lt: (T, T) -> bool)
    requires StrictTotal(lt) && StrictlyOrdered(a, lt) && StrictlyOrdered(b, lt)
    requires forall x :: x in a <==> x in b
    ensures a == b
  {
    assert b != [] ==> b[0] in a;
    if a != [] {
      assert a[0] in b && b != [] && b[0] in a;
      assert a[0] == b[0];
      forall x ensures x in a[1..] <==> x in b[1..] {
        assert x in a <==> x == a[0] || x in a[1..];
        assert x in b <==> x == b[0] || x in b[1..];
      }
      StrictUnique(a[1..], b[1..], lt);
    }
  }

  // ---- dropping repeats ----------------------------------------------------------------

  /** Drop every element equal to the one before it. */
  function Dedup<T(==)>(s: seq<T>): seq<T> {
    if |s| < 2 then s
    else if s[0] == s[1] then Dedup(s[1..])
    else [s[0]] + Dedup(s[1..])
  }

  lemma {:induction false} DedupStrict<T(!new)>(s: seq<T>, lt: (T, T) -> bool)
    requires StrictTotal(lt) && Ordered(s, lt)
    ensures StrictlyOrdered(Dedup(s), lt)
    ensures forall x :: x in Dedup(s) <==> x in s
    ensures s != [] ==> Dedup(s) != [] && Dedup(s)[0] == s[0]
  {
    if |s| >= 2 {
      var t := Dedup(s[1..]);
      DedupStrict(s[1..], lt);
      assert s == [s[0]] + s[1..];
      if s[0] != s[1] {
        var r := [s[0]] + t;
        forall i, j | 0 <= i < j < |r|
          ensures lt(r[i], r[j])
        {
          if i == 0 {
            assert !lt(s[1], s[0]) && lt(s[0], t[0]);
            assert j == 1 || lt(t[0], t[j - 1]);
          } else {
            assert lt(t[i - 1], t[j - 1]);
          }
        }
      }
    }
  }

  /** Sorting and deduplicating depends only on which elements there are. */
  lemma SortDedupCanonical<T(!new)>(a: seq<T>, b: seq<T>, lt: (T, T) -> bool)
    requires StrictTotal(lt) && forall x :: x in a <==> x in b
    ensures Dedup(Sort(a, lt)) == Dedup(Sort(b, lt))
  {
    SortMembers(a, lt);
    SortMembers(b, lt);
    SortOrders(a, lt);
    SortOrders(b, lt);
    DedupStrict(Sort(a, lt), lt);
    DedupStrict(Sort(b, lt), lt);
    StrictUnique(Dedup(Sort(a, lt)), Dedup(Sort(b, lt)), lt);
  }
}
