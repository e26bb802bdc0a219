/**
 What a whole sequence of `add_drop_list` calls leaves in the list: a capped group-by of the
 increments, keys in the order they first appeared.
 */
module GroupBy {
  import opened DropLists
  import opened Sums

  /** The three counters of an entry. */
  datatype Kind = Drop | Error | Scrambling

  function Amount(a: Add, kind: Kind): nat {
    match kind
    case Drop => a.drop
    case Error => a.error
    case Scrambling => a.scrambling
  }

  function Count(e: Entry, kind: Kind): nat {
    match kind
    case Drop => e.drop
    case Error => e.error
    case Scrambling => e.scrambling
  }

  /** The program only ever adds 0 or 1. */
  predicate UnitAdds(adds: seq<Add>) {
    forall i :: 0 <= i < |adds| ==> adds[i].drop <= 1 && adds[i].error <= 1 && adds[i].scrambling <= 1
  }

  /** The list after a sequence of calls. */
  function ListOf(adds: seq<Add>): seq<Entry> {
    if adds == [] then [] else Added(ListOf(adds[..|adds| - 1]), adds[|adds| - 1])
  }

  // ---------------------------------------------------------------- the group-by, by definition

  /** The distinct keys in the order in which they first occur. */
  function FirstSeen(adds: seq<Add>): seq<Key> {
    if adds == [] then []
    else
      var ks, k := FirstSeen(adds[..|adds| - 1]), adds[|adds| - 1].key;
      if k in ks then ks else ks + [k]
  }

  function IndexOf(ks: seq<Key>, k: Key): (i: nat)
    ensures i <= |ks|
    ensures i < |ks| ==> ks[i] == k
    ensures forall j :: 0 <= j < i ==> ks[j] != k
    ensures k in ks ==> i < |ks|
  {
    if ks == [] || ks[0] == k then 0 else 1 + IndexOf(ks[1..], k)
  }

  function Min(a: nat, b: nat): nat {
    if a <= b then a else b
  }

  /** The bucket of a key; all keys from the limit on share the last one. */
  function Slot(ks: seq<Key>, k: Key): nat {
    Min(IndexOf(ks, k), SEARCH_LIMIT)
  }

  /** The sum of the increments whose key belongs to bucket `i`. */
  function Landed(adds: seq<Add>, ks: seq<Key>, i: nat, kind: Kind): nat {
    if adds == [] then 0
    else
      var a := adds[|adds| - 1];
      Landed(adds[..|adds| - 1], ks, i, kind) + if Slot(ks, a.key) == i then Amount(a, kind) else 0
  }

  // ---------------------------------------------------------------- proof

  lemma {:induction false} FirstSeenDistinct(adds: seq<Add>)
    ensures forall i, j :: 0 <= i < j < |FirstSeen(adds)| ==> FirstSeen(adds)[i] != FirstSeen(adds)[j]
    ensures forall i :: 0 <= i < |adds| ==> adds[i].key in FirstSeen(adds)
    decreases |adds|
  {
    if adds != [] {
      FirstSeenDistinct(adds[..|adds| - 1]);
    }
  }

  lemma IndexOfUnique(ks: seq<Key>, k: Key, i: nat)
    requires i < |ks| && ks[i] == k && forall j :: 0 <= j < i ==> ks[j] != k
    ensures IndexOf(ks, k) == i
  {}

  /** A key keeps its bucket when keys are appended. */
  lemma SlotStable(ks: seq<Key>, x: Key, k: Key)
    requires k in ks
    ensures Slot(ks + [x], k) == Slot(ks, k)
  {
    IndexOfUnique(ks + [x], k, IndexOf(ks, k));
  }

  lemma {:induction false} LandedStable(adds: seq<Add>, ks: seq<Key>, x: Key, i: nat, kind: Kind)
    requires forall j :: 0 <= j < |adds| ==> adds[j].key in ks
    ensures Landed(adds, ks + [x], i, kind) == Landed(adds, ks, i, kind)
    decreases |adds|
  {
    if adds != [] {
      LandedStable(adds[..|adds| - 1], ks, x, i, kind);
      SlotStable(ks, x, adds[|adds| - 1].key);
    }
  }

  lemma {:induction false} LandedNone(adds: seq<Add>, ks: seq<Key>, i: nat, kind: Kind)
    requires forall j :: 0 <= j < |adds| ==> Slot(ks, adds[j].key) != i
    ensures Landed(adds, ks, i, kind) == 0
    decreases |adds|
  {
    if adds != [] {
      LandedNone(adds[..|adds| - 1], ks, i, kind);
    }
  }

  ghost predicate KeysMatch(es: seq<Entry>, ks: seq<Key>) {
    |es| == Min(|ks|, SEARCH_LIMIT + 1) && forall i :: 0 <= i < |es| ==> es[i].key == ks[i]
  }

  /** The list search finds the key's bucket. */
  lemma ScanIsSlot(es: seq<Entry>, ks: seq<Key>, k: Key)
    requires KeysMatch(es, ks)
    ensures Scan(es, k, 0) == Slot(ks, k)
    ensures Scan(es, k, 0) == Slot(if k in ks then ks else ks + [k], k)
  {
    var j := Slot(ks, k);
    ScanResult(es, k, 0, j);
    if k !in ks {
      IndexOfUnique(ks + [k], k, |ks|);
    }
  }

  lemma AddedKeys(es: seq<Entry>, ks: seq<Key>, a: Add)
    requires KeysMatch(es, ks)
    ensures KeysMatch(Added(es, a), if a.key in ks then ks else ks + [a.key])
  {
    ScanIsSlot(es, ks, a.key);
  }

  lemma AddedCounts(es: seq<Entry>, a: Add, i: nat, kind: Kind)
    requires i < |Added(es, a)|
    ensures Count(Added(es, a)[i], kind) ==
            var c := if i < |es| then Count(es[i], kind) else 0;
            if i == Scan(es, a.key, 0) then Capped(c, Amount(a, kind)) else c
  {}

  lemma KeysMatchEmpty()
    ensures KeysMatch([], [])
  {}

  lemma {:induction false} Keys(adds: seq<Add>)
    ensures KeysMatch(ListOf(adds), FirstSeen(adds))
    decreases |adds|
  {
    hide KeysMatch, Added;
    if adds == [] {
      assert KeysMatch([], []) by { KeysMatchEmpty(); }
    } else {
      Keys(adds[..|adds| - 1]);
      AddedKeys(ListOf(adds[..|adds| - 1]), FirstSeen(adds[..|adds| - 1]), adds[|adds| - 1]);
    }
  }

  /** A call's new key takes nothing from the buckets that were there, and its own bucket starts empty. */
  lemma LandedBefore(front: seq<Add>, key: Key, i: nat, kind: Kind)
    requires i < |ListOf(front)| || (i == |ListOf(front)| <= SEARCH_LIMIT)
    ensures var ks := FirstSeen(front);
      Landed(front, if key in ks then ks else ks + [key], i, kind)
      == if i < |ListOf(front)| then Landed(front, ks, i, kind) else 0
  {
    var ks := FirstSeen(front);
    Keys(front);
    FirstSeenDistinct(front);
    if key !in ks {
      LandedStable(front, ks, key, i, kind);
    }
    if i == |ListOf(front)| {
      forall j | 0 <= j < |front|
        ensures Slot(ks, front[j].key) < i
      {
        assert IndexOf(ks, front[j].key) < |ks|;
      }
      LandedNone(front, ks, i, kind);
    }
  }

  lemma AddedLength(es: seq<Entry>, a: Add)
    ensures |es| <= |Added(es, a)| <= |es| + 1
    ensures |Added(es, a)| == |es| + 1 ==> |es| <= SEARCH_LIMIT
  {}

  lemma {:induction false} Counts(adds: seq<Add>, i: nat, kind: Kind)
    requires UnitAdds(adds) && i < |ListOf(adds)|
    ensures Count(ListOf(adds)[i], kind) == Min(MAX_COUNT, Landed(adds, FirstSeen(adds), i, kind))
    decreases |adds|
  {
    hide Added, Scan, Slot, Count, KeysMatch;
    if adds != [] {
      var front, a := adds[..|adds| - 1], adds[|adds| - 1];
      Keys(front);
      ScanIsSlot(ListOf(front), FirstSeen(front), a.key);
      AddedLength(ListOf(front), a);
      AddedCounts(ListOf(front), a, i, kind);
      LandedBefore(front, a.key, i, kind);
      if i < |ListOf(front)| {
        Counts(front, i, kind);
      }
    }
  }

  /**
   The list is a capped group-by.  After any sequence of unit increments it holds the first
   100001 distinct keys in first-seen order, and each counter is the sum of the increments of
   its bucket, capped at 99999999.
   */
  lemma ListIsGroupBy(adds: seq<Add>)
    requires UnitAdds(adds)
    ensures var es, ks := ListOf(adds), FirstSeen(adds);
      && |es| == Min(|ks|, 100001)
      && (forall i :: 0 <= i < |es| ==> es[i].key == ks[i])
      && (forall i, j :: 0 <= i < j < |es| ==> es[i].key != es[j].key)
      && forall i, kind :: 0 <= i < |es| ==> Count(es[i], kind) == Min(99999999, Landed(adds, ks, i, kind))
  {
    hide Count, Landed;
    Keys(adds);
    FirstSeenDistinct(adds);
    forall i, kind | 0 <= i < |ListOf(adds)|
      ensures Count(ListOf(adds)[i], kind) == Min(MAX_COUNT, Landed(adds, FirstSeen(adds), i, kind))
    {
      Counts(adds, i, kind);
    }
  }

  function OfKey(adds: seq<Add>, k: Key, kind: Kind): nat {
    if adds == [] then 0
    else OfKey(adds[..|adds| - 1], k, kind) + if adds[|adds| - 1].key == k then Amount(adds[|adds| - 1], kind) else 0
  }

  lemma {:induction false} LandedIsOfKey(adds: seq<Add>, ks: seq<Key>, i: nat, kind: Kind)
    requires i < |ks| && (i < SEARCH_LIMIT || |ks| <= SEARCH_LIMIT + 1)
    requires forall i, j :: 0 <= i < j < |ks| ==> ks[i] != ks[j]
    requires forall j :: 0 <= j < |adds| ==> adds[j].key in ks
    ensures Landed(adds, ks, i, kind) == OfKey(adds, ks[i], kind)
    decreases |adds|
  {
    if adds != [] {
      LandedIsOfKey(adds[..|adds| - 1], ks, i, kind);
      var k := adds[|adds| - 1].key;
      assert IndexOf(ks, k) < |ks| && ks[IndexOf(ks, k)] == k;
    }
  }

  /** The first 100000 keys have a counter of their own; with at most 100001 every key has. */
  lemma EveryKeyIsExact(adds: seq<Add>, i: nat, kind: Kind)
    requires UnitAdds(adds) && i < |FirstSeen(adds)| && (i < 100000 || |FirstSeen(adds)| <= 100001)
    ensures |ListOf(adds)| == Min(|FirstSeen(adds)|, 100001) && ListOf(adds)[i].key == FirstSeen(adds)[i]
    ensures Count(ListOf(adds)[i], kind) == Min(99999999, OfKey(adds, FirstSeen(adds)[i], kind))
  {
    Keys(adds);
    Counts(adds, i, kind);
    FirstSeenDistinct(adds);
    LandedIsOfKey(adds, FirstSeen(adds), i, kind);
  }

  // ---------------------------------------------------------------- conservation

  function CountsOf(es: seq<Entry>, kind: Kind): (xs: seq<int>)
    ensures |xs| == |es| && forall i :: 0 <= i < |es| ==> xs[i] == Count(es[i], kind)
  {
    seq(|es|, i requires 0 <= i < |es| => Count(es[i], kind))
  }

  function Total(es: seq<Entry>, kind: Kind): int {
    Sum(CountsOf(es, kind))
  }

  function AmountsOf(adds: seq<Add>, kind: Kind): nat {
    if adds == [] then 0 else AmountsOf(adds[..|adds| - 1], kind) + Amount(adds[|adds| - 1], kind)
  }

  /** What one call fails to count, because the counter it meets is full. */
  function Suppressed(es: seq<Entry>, a: Add, kind: Kind): nat {
    var j := Scan(es, a.key, 0);
    if j < |es| && Count(es[j], kind) >= MAX_COUNT then Amount(a, kind) else 0
  }

  function SuppressedOf(adds: seq<Add>, kind: Kind): nat {
    if adds == [] then 0
    else SuppressedOf(adds[..|adds| - 1], kind) + Suppressed(ListOf(adds[..|adds| - 1]), adds[|adds| - 1], kind)
  }

  lemma SumSnoc(xs: seq<int>, x: int)
    ensures Sum(xs + [x]) == Sum(xs) + x
  {
    assert (xs + [x])[..|xs|] == xs;
  }

  lemma AddedTotal(es: seq<Entry>, a: Add, kind: Kind)
    ensures Total(Added(es, a), kind) == Total(es, kind) + Amount(a, kind) - Suppressed(es, a, kind)
  {
    hide Sum;
    var j, xs, ys := Scan(es, a.key, 0), CountsOf(es, kind), CountsOf(Added(es, a), kind);
    if j == |es| {
      assert ys == xs + [Amount(a, kind)];
      SumSnoc(xs, Amount(a, kind));
    } else {
      assert ys == xs[j := ys[j]];
      SumUpdate(xs, j, ys[j]);
    }
  }

  lemma TotalEmpty(kind: Kind)
    ensures Total([], kind) == 0
  {}

  /** Nothing is lost but what meets a full counter, even past the length cap. */
  lemma {:induction false} Conservation(adds: seq<Add>, kind: Kind)
    ensures Total(ListOf(adds), kind) + SuppressedOf(adds, kind) == AmountsOf(adds, kind)
    decreases |adds|
  {
    hide Added, Suppressed, Total;
    if adds == [] {
      TotalEmpty(kind);
    } else {
      Conservation(adds[..|adds| - 1], kind);
      AddedTotal(ListOf(adds[..|adds| - 1]), adds[|adds| - 1], kind);
    }
  }

  /** No counter of this kind has reached the cap. */
  predicate BelowCap(es: seq<Entry>, kind: Kind) {
    forall i :: 0 <= i < |es| ==> Count(es[i], kind) < 99999999
  }

  lemma AddedBelowCap(es: seq<Entry>, a: Add, kind: Kind)
    requires BelowCap(Added(es, a), kind)
    ensures BelowCap(es, kind) && Suppressed(es, a, kind) == 0
  {
    forall i | 0 <= i < |es|
      ensures Count(es[i], kind) < MAX_COUNT
    {
      AddedCounts(es, a, i, kind);
    }
  }

  /** While no counter has reached the cap, nothing has been lost. */
  lemma {:induction false} NothingSuppressed(adds: seq<Add>, kind: Kind)
    requires BelowCap(ListOf(adds), kind)
    ensures SuppressedOf(adds, kind) == 0
    decreases |adds|
  {
    hide Added, Suppressed, BelowCap;
    if adds != [] {
      AddedBelowCap(ListOf(adds[..|adds| - 1]), adds[|adds| - 1], kind);
      NothingSuppressed(adds[..|adds| - 1], kind);
    }
  }
}
