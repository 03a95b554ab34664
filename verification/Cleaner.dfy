/** Pruning the event records by age and by count (internal/events/cleanup.go). */
module Cleaner {
  import opened Json

  datatype Record = Record(name: string, eventTime: int, ttl: Option<int>)

  /** The sort is a library call: any ordering of the same records by time. */
  type Sort = seq<Record> -> seq<Record>

  predicate Ordered(records: seq<Record>)
  {
    forall i, j | 0 <= i < j < |records| :: records[i].eventTime <= records[j].eventTime
  }

  ghost predicate LawfulSort(sort: Sort)
  {
    forall s :: multiset(sort(s)) == multiset(s) && Ordered(sort(s))
  }

  ghost predicate Distinct(records: seq<Record>)
  {
    forall i, j | 0 <= i < j < |records| :: records[i] != records[j]
  }

  /** isExpired. */
  predicate IsExpired(r: Record, retention: int, now: int)
  {
    now > r.eventTime + (match r.ttl case Some(ttl) => ttl case None => retention)
  }

  /** The records of a list that are expired, or that are not, in list order. */
  function Aged(records: seq<Record>, retention: int, now: int, expired: bool): (aged: seq<Record>)
    ensures forall r :: r in aged <==> r in records && IsExpired(r, retention, now) == expired
    ensures |aged| <= |records|
    decreases |records|
  {
    if records == [] then []
    else
      var init, last := records[..|records| - 1], records[|records| - 1];
      assert forall r :: r in records <==> r in init || r == last;
      Aged(init, retention, now, expired) + if IsExpired(last, retention, now) == expired then [last] else []
  }

  /** The records of a sorted list that are over the cap. */
  function Oldest(sorted: seq<Record>, maxRecords: int): seq<Record>
  {
    if maxRecords <= 0 || |sorted| <= maxRecords then [] else sorted[..|sorted| - maxRecords]
  }

  function Surplus(kept: seq<Record>, sort: Sort, maxRecords: int): seq<Record>
  {
    Oldest(sort(kept), maxRecords)
  }

  /** selectForDeletion. */
  method SelectForDeletion(items: seq<Record>, now: int, retention: int, maxRecords: int, sort: Sort)
    returns (expired: seq<Record>, surplus: seq<Record>)
    requires LawfulSort(sort)
    ensures expired == Aged(items, retention, now, true)
    ensures surplus == Surplus(Aged(items, retention, now, false), sort, maxRecords)
    ensures forall r :: r in expired <==>
      r in items && r.eventTime + (if r.ttl.Some? then r.ttl.value else retention) < now
    ensures forall r | r in surplus ::
      r in items && now <= r.eventTime + (if r.ttl.Some? then r.ttl.value else retention)
  {
    SurplusIsKept(Aged(items, retention, now, false), sort, maxRecords);
    var kept;
    expired, kept := SplitByAge(items, now, retention);
    SortKeepsLength(sort, kept);
    if maxRecords <= 0 || |kept| <= maxRecords {
      return expired, [];
    }
    kept := sort(kept);
    surplus := kept[..|kept| - maxRecords];
  }

  method SplitByAge(items: seq<Record>, now: int, retention: int) returns (expired: seq<Record>, kept: seq<Record>)
    ensures expired == Aged(items, retention, now, true) && kept == Aged(items, retention, now, false)
  {
    expired, kept := [], [];
    for i := 0 to |items|
      invariant expired == Aged(items[..i], retention, now, true)
      invariant kept == Aged(items[..i], retention, now, false)
    {
      assert items[..i + 1][..i] == items[..i];
      if IsExpired(items[i], retention, now) {
        expired := expired + [items[i]];
      } else {
        kept := kept + [items[i]];
      }
    }
    assert items[..|items|] == items;
  }

  lemma SurplusIsKept(kept: seq<Record>, sort: Sort, maxRecords: int)
    requires LawfulSort(sort)
    ensures forall r | r in Surplus(kept, sort, maxRecords) :: r in kept
  {
    forall r | r in Surplus(kept, sort, maxRecords) ensures r in kept {
      assert r in multiset(sort(kept));
    }
  }

  lemma SortKeepsLength(sort: Sort, records: seq<Record>)
    requires LawfulSort(sort)
    ensures |sort(records)| == |records|
  {
    assert |multiset(sort(records))| == |multiset(records)|;
  }

  /** What one cycle sets out to delete. */
  function Doomed(
    records: seq<Record>, now: int, retention: int, maxRecords: int, batchSize: nat, sort: Sort): seq<Record>
  {
    var doomed := Aged(records, retention, now, true) + Surplus(Aged(records, retention, now, false), sort, maxRecords);
    if |doomed| > batchSize then doomed[..batchSize] else doomed
  }

  /** The records left once some were deleted. */
  function Without(records: seq<Record>, gone: set<Record>): (left: seq<Record>)
    ensures forall r :: r in left <==> r in records && r !in gone
    decreases |records|
  {
    if records == [] then []
    else
      var init, last := records[..|records| - 1], records[|records| - 1];
      assert forall r :: r in records <==> r in init || r == last;
      Without(init, gone) + if last in gone then [] else [last]
  }

  class EventCleaner {
    const retention: int
    const maxRecords: int
    const batchSize: nat
    var records: seq<Record>

    constructor (retention: int, maxRecords: int, batchSize: nat, records: seq<Record>)
      ensures this.retention == retention && this.maxRecords == maxRecords && this.batchSize == batchSize
      ensures this.records == records
    {
      this.retention := retention;
      this.maxRecords := maxRecords;
      this.batchSize := batchSize;
      this.records := records;
    }

    /** cleanup; `stuck` are the records the store refuses to delete. */
    method Cleanup(now: int, sort: Sort, stuck: set<Record>)
      requires LawfulSort(sort)
      modifies this`records
      ensures records == Cycle(old(records), now, retention, maxRecords, batchSize, sort, stuck)
    {
      var expired, surplus := SelectForDeletion(records, now, retention, maxRecords, sort);
      var doomed := expired + surplus;
      if |doomed| > batchSize {
        doomed := doomed[..batchSize];
      }
      var gone := {};
      for i := 0 to |doomed|
        invariant gone == Deleted(doomed[..i], stuck)
        invariant records == old(records)
      {
        DeletedAppend(doomed, i, stuck);
        if doomed[i] in stuck { continue; }
        gone := gone + {doomed[i]};
      }
      assert doomed[..|doomed|] == doomed;
      records := Without(records, gone);
    }
  }

  function Deleted(doomed: seq<Record>, stuck: set<Record>): set<Record>
  {
    set r | r in doomed && r !in stuck
  }

  lemma DeletedAppend(doomed: seq<Record>, i: nat, stuck: set<Record>)
    requires i < |doomed|
    ensures Deleted(doomed[..i + 1], stuck) ==
            Deleted(doomed[..i], stuck) + if doomed[i] in stuck then {} else {doomed[i]}
  {
    assert doomed[..i + 1] == doomed[..i] + [doomed[i]];
  }

  /** One cycle. */
  function Cycle(
    records: seq<Record>, now: int, retention: int, maxRecords: int, batchSize: nat, sort: Sort, stuck: set<Record>)
    : seq<Record>
  {
    Without(records, Deleted(Doomed(records, now, retention, maxRecords, batchSize, sort), stuck))
  }

  // ---------------------------------------------------------------------------
  // Nothing recent is lost
  // ---------------------------------------------------------------------------

  lemma {:induction false} AgedDistinct(records: seq<Record>, retention: int, now: int, expired: bool)
    requires Distinct(records)
    ensures Distinct(Aged(records, retention, now, expired))
    decreases |records|
  {
    if records != [] {
      AgedDistinct(records[..|records| - 1], retention, now, expired);
    }
  }

  lemma SortedMembers(sort: Sort, records: seq<Record>)
    requires LawfulSort(sort)
    ensures forall r :: r in sort(records) <==> r in records
    ensures Distinct(records) ==> Distinct(sort(records))
  {
    forall r ensures r in sort(records) <==> r in records {
      assert r in multiset(sort(records)) <==> r in multiset(records);
    }
    if Distinct(records) {
      DistinctCounts(records);
      CountsDistinct(sort(records));
    }
  }

  lemma {:induction false} DistinctCounts(records: seq<Record>)
    requires Distinct(records)
    ensures forall r :: multiset(records)[r] <= 1
    decreases |records|
  {
    if records != [] {
      var init, last := records[..|records| - 1], records[|records| - 1];
      assert records == init + [last];
      DistinctCounts(init);
      assert last !in init;
      assert multiset(records) == multiset(init) + multiset{last};
      assert multiset(init)[last] == 0;
    }
  }

  lemma CountsDistinct(records: seq<Record>)
    requires forall r :: multiset(records)[r] <= 1
    ensures Distinct(records)
  {
    forall i, j | 0 <= i < j < |records| ensures records[i] != records[j] {
      var left, right := records[..j], records[j..];
      assert records == left + right;
      assert multiset(records) == multiset(left) + multiset(right);
      assert left[i] in multiset(left) && right[0] in multiset(right);
      assert multiset(left)[records[i]] >= 1 && multiset(right)[records[j]] >= 1;
      assert records[i] == records[j] ==> multiset(records)[records[i]] >= 2;
    }
  }

  /** The records a cycle keeps for a deleted unexpired one. */
  function Keepers(records: seq<Record>, now: int, retention: int, maxRecords: int, sort: Sort): seq<Record>
  {
    var kept := Aged(records, retention, now, false);
    var sorted := sort(kept);
    if maxRecords <= 0 || |sorted| <= maxRecords then kept else sorted[|sorted| - maxRecords..]
  }

  lemma DoomedMembers(
    records: seq<Record>, now: int, retention: int, maxRecords: int, batchSize: nat, sort: Sort, r: Record)
    requires r in Doomed(records, now, retention, maxRecords, batchSize, sort)
    ensures r in Aged(records, retention, now, true) ||
            r in Surplus(Aged(records, retention, now, false), sort, maxRecords)
  {
  }

  /** Main result: a cycle that deletes an unexpired record leaves at least
      maxRecords distinct unexpired records that are at least as recent. */
  lemma UnexpiredLossIsCovered(
    records: seq<Record>, now: int, retention: int, maxRecords: int, batchSize: nat, sort: Sort, stuck: set<Record>,
    r: Record)
    requires LawfulSort(sort) && Distinct(records)
    requires r in records && !IsExpired(r, retention, now)
    requires r !in Cycle(records, now, retention, maxRecords, batchSize, sort, stuck)
    ensures var keepers := Keepers(records, now, retention, maxRecords, sort);
      && maxRecords > 0 && |keepers| == maxRecords && Distinct(keepers)
      && forall k | k in keepers ::
           && k in Cycle(records, now, retention, maxRecords, batchSize, sort, stuck)
           && !IsExpired(k, retention, now) && k.eventTime >= r.eventTime
  {
    var kept := Aged(records, retention, now, false);
    SortedMembers(sort, kept);
    AgedDistinct(records, retention, now, false);
    assert r in Doomed(records, now, retention, maxRecords, batchSize, sort);
    DoomedMembers(records, now, retention, maxRecords, batchSize, sort, r);
    forall k | k in Keepers(records, now, retention, maxRecords, sort)
      ensures k in Cycle(records, now, retention, maxRecords, batchSize, sort, stuck)
      ensures !IsExpired(k, retention, now) && k.eventTime >= r.eventTime
    {
      KeeperStays(records, now, retention, maxRecords, batchSize, sort, stuck, r, k);
    }
  }

  lemma KeeperStays(
    records: seq<Record>, now: int, retention: int, maxRecords: int, batchSize: nat, sort: Sort, stuck: set<Record>,
    r: Record, k: Record)
    requires LawfulSort(sort) && Distinct(records)
    requires r in Surplus(Aged(records, retention, now, false), sort, maxRecords)
    requires k in Keepers(records, now, retention, maxRecords, sort)
    ensures k in Cycle(records, now, retention, maxRecords, batchSize, sort, stuck)
    ensures !IsExpired(k, retention, now) && k.eventTime >= r.eventTime
  {
    var kept := Aged(records, retention, now, false);
    SortedMembers(sort, kept);
    AgedDistinct(records, retention, now, false);
    KeepersAreLater(sort(kept), maxRecords, r, k);
    if k in Doomed(records, now, retention, maxRecords, batchSize, sort) {
      DoomedMembers(records, now, retention, maxRecords, batchSize, sort, k);
    }
  }

  lemma KeepersAreLater(sorted: seq<Record>, maxRecords: int, r: Record, k: Record)
    requires Ordered(sorted) && Distinct(sorted) && r in Oldest(sorted, maxRecords)
    requires maxRecords > 0 && |sorted| > maxRecords && k in sorted[|sorted| - maxRecords..]
    ensures k in sorted && r.eventTime <= k.eventTime && k !in Oldest(sorted, maxRecords)
  {
  }

  // ---------------------------------------------------------------------------
  // The backlog drains
  // ---------------------------------------------------------------------------

  lemma {:induction false} AgedSplits(records: seq<Record>, retention: int, now: int)
    ensures |Aged(records, retention, now, true)| + |Aged(records, retention, now, false)| == |records|
    decreases |records|
  {
    if records != [] { AgedSplits(records[..|records| - 1], retention, now); }
  }

  lemma {:induction false} WithoutShrinks(records: seq<Record>, gone: set<Record>)
    requires Distinct(records) && forall r | r in gone :: r in records
    ensures |Without(records, gone)| == |records| - |gone|
    ensures Distinct(Without(records, gone))
    decreases |records|
  {
    if records != [] {
      var init, last := records[..|records| - 1], records[|records| - 1];
      LastIsNew(records);
      WithoutShrinks(init, gone - {last});
      SameWithout(init, gone, gone - {last});
    }
  }

  lemma LastIsNew(records: seq<Record>)
    requires Distinct(records) && records != []
    ensures Distinct(records[..|records| - 1]) && records[|records| - 1] !in records[..|records| - 1]
    ensures forall r | r in records :: r in records[..|records| - 1] || r == records[|records| - 1]
  {
  }

  lemma {:induction false} SameWithout(records: seq<Record>, a: set<Record>, b: set<Record>)
    requires forall r | r in records :: r in a <==> r in b
    ensures Without(records, a) == Without(records, b)
    decreases |records|
  {
    if records != [] {
      assert forall r | r in records[..|records| - 1] :: r in records;
      assert records[|records| - 1] in records;
      SameWithout(records[..|records| - 1], a, b);
    }
  }

  lemma {:induction false} DistinctSize(records: seq<Record>, members: set<Record>)
    requires Distinct(records) && forall r :: r in members <==> r in records
    ensures |members| == |records|
    decreases |records|
  {
    if records != [] {
      var init, last := records[..|records| - 1], records[|records| - 1];
      assert records == init + [last];
      assert last !in init;
      DistinctSize(init, members - {last});
    } else {
      assert members == {};
    }
  }

  lemma DisjointIsDistinct(a: seq<Record>, b: seq<Record>)
    requires Distinct(a) && Distinct(b) && forall r | r in a :: r !in b
    ensures Distinct(a + b)
  {
    forall i, j | 0 <= i < j < |a + b| ensures (a + b)[i] != (a + b)[j] {
      if i < |a| <= j {
        assert (a + b)[i] in a && (a + b)[j] == b[j - |a|];
      }
    }
  }

  lemma DoomedIsDistinct(records: seq<Record>, now: int, retention: int, maxRecords: int, batchSize: nat, sort: Sort)
    requires LawfulSort(sort) && Distinct(records)
    ensures var doomed := Doomed(records, now, retention, maxRecords, batchSize, sort);
      Distinct(doomed) && forall r | r in doomed :: r in records
  {
    SurplusIsDistinct(records, now, retention, maxRecords, sort);
    AgedDistinct(records, retention, now, true);
    var surplus := Surplus(Aged(records, retention, now, false), sort, maxRecords);
    DisjointIsDistinct(Aged(records, retention, now, true), surplus);
    forall r | r in Doomed(records, now, retention, maxRecords, batchSize, sort) ensures r in records {
      DoomedMembers(records, now, retention, maxRecords, batchSize, sort, r);
    }
  }

  lemma SurplusIsDistinct(records: seq<Record>, now: int, retention: int, maxRecords: int, sort: Sort)
    requires LawfulSort(sort) && Distinct(records)
    ensures var surplus := Surplus(Aged(records, retention, now, false), sort, maxRecords);
      Distinct(surplus) && forall r | r in surplus :: r in records && !IsExpired(r, retention, now)
  {
    var kept := Aged(records, retention, now, false);
    SortedMembers(sort, kept);
    AgedDistinct(records, retention, now, false);
    assert forall r | r in Surplus(kept, sort, maxRecords) :: r in sort(kept);
  }

  /** A cycle without refused deletes comes a whole batch closer to the cap, or
      reaches it. */
  lemma CycleDrains(records: seq<Record>, now: int, retention: int, maxRecords: int, batchSize: nat, sort: Sort)
    requires LawfulSort(sort) && Distinct(records) && maxRecords > 0
    ensures var left := Cycle(records, now, retention, maxRecords, batchSize, sort, {});
      Distinct(left) && |left| <= |records| && (|left| <= maxRecords || |left| <= |records| - batchSize)
  {
    SortKeepsLength(sort, Aged(records, retention, now, false));
    AgedSplits(records, retention, now);
    DoomedIsDistinct(records, now, retention, maxRecords, batchSize, sort);
    var doomed := Doomed(records, now, retention, maxRecords, batchSize, sort);
    DistinctSize(doomed, Deleted(doomed, {}));
    WithoutShrinks(records, Deleted(doomed, {}));
  }

  /** A run of cycles at any times. */
  function Cycles(
    records: seq<Record>, times: seq<int>, retention: int, maxRecords: int, batchSize: nat, sort: Sort): seq<Record>
    decreases |times|
  {
    if times == [] then records
    else Cycle(Cycles(records, times[..|times| - 1], retention, maxRecords, batchSize, sort), times[|times| - 1],
               retention, maxRecords, batchSize, sort, {})
  }

  lemma OneMoreBatch(n: int, cap: int, batch: int, k: int, before: int, after: int)
    requires before <= cap || before <= n - k * batch
    requires after <= before && (after <= cap || after <= before - batch)
    ensures after <= cap || after <= n - (k + 1) * batch
  {
  }

  /** Main result: with a positive cap and batch, no arrivals and no refused
      deletes, k cycles at any times bring n records to the cap or to n less k
      batches; so enough cycles to cover the excess bring them within the cap. */
  lemma {:induction false} BacklogDrains(
    records: seq<Record>, times: seq<int>, retention: int, maxRecords: int, batchSize: nat, sort: Sort)
    requires LawfulSort(sort) && Distinct(records) && maxRecords > 0
    ensures var left := Cycles(records, times, retention, maxRecords, batchSize, sort);
      && Distinct(left)
      && (|left| <= maxRecords || |left| <= |records| - |times| * batchSize)
    ensures |times| * batchSize >= |records| - maxRecords ==>
      |Cycles(records, times, retention, maxRecords, batchSize, sort)| <= maxRecords
    decreases |times|
  {
    if times != [] {
      var init := times[..|times| - 1];
      BacklogDrains(records, init, retention, maxRecords, batchSize, sort);
      OneMoreCycle(records, times, retention, maxRecords, batchSize, sort);
    }
  }

  lemma OneMoreCycle(
    records: seq<Record>, times: seq<int>, retention: int, maxRecords: int, batchSize: nat, sort: Sort)
    requires LawfulSort(sort) && maxRecords > 0 && times != []
    requires var before := Cycles(records, times[..|times| - 1], retention, maxRecords, batchSize, sort);
      Distinct(before) && (|before| <= maxRecords || |before| <= |records| - (|times| - 1) * batchSize)
    ensures var left := Cycles(records, times, retention, maxRecords, batchSize, sort);
      Distinct(left) && (|left| <= maxRecords || |left| <= |records| - |times| * batchSize)
  {
    var before := Cycles(records, times[..|times| - 1], retention, maxRecords, batchSize, sort);
    CycleDrains(before, times[|times| - 1], retention, maxRecords, batchSize, sort);
    OneMoreBatch(|records|, maxRecords, batchSize, |times| - 1, |before|,
                 |Cycles(records, times, retention, maxRecords, batchSize, sort)|);
  }

  /** Deletes the store keeps refusing block the rest: when they fill a batch,
      a cycle changes nothing. */
  lemma {:induction false} StuckBatchBlocks(
    records: seq<Record>, now: int, retention: int, maxRecords: int, batchSize: nat, sort: Sort, stuck: set<Record>)
    requires forall r | r in Doomed(records, now, retention, maxRecords, batchSize, sort) :: r in stuck
    ensures Cycle(records, now, retention, maxRecords, batchSize, sort, stuck) == records
  {
    WithoutNone(records, Deleted(Doomed(records, now, retention, maxRecords, batchSize, sort), stuck));
  }

  lemma {:induction false} WithoutNone(records: seq<Record>, gone: set<Record>)
    requires gone == {}
    ensures Without(records, gone) == records
    decreases |records|
  {
    if records != [] { WithoutNone(records[..|records| - 1], gone); }
  }
}
