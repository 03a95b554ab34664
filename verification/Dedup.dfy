/** The event store's duplicate check (internal/events/store.go): a map of last
    acceptances, pruned when it grows, against one that never forgets. */
module Dedup {
  const MAX_ENTRIES: nat := 1000

  /** One call: the key and the three clock readings it may make. */
  datatype Call = Call(key: string, checked: int, marked: int, pruned: int)

  type Seen = map<string, int>

  predicate IsDuplicate(seen: Seen, c: Call, window: int)
  {
    c.key in seen && c.checked - seen[c.key] < window
  }

  function Pruned(seen: Seen, now: int, window: int): Seen
  {
    map k | k in seen && now - seen[k] <= window :: seen[k]
  }

  /** checkAndMarkSeen's effect on the map. */
  function Marked(seen: Seen, c: Call, window: int): Seen
  {
    if IsDuplicate(seen, c, window) then seen
    else
      var next := seen[c.key := c.marked];
      if |next| > MAX_ENTRIES then Pruned(next, c.pruned, window) else next
  }

  class EventStore {
    const dedupWindow: int
    var dedupMap: Seen

    constructor (window: int)
      ensures dedupWindow == window && dedupMap == map[]
    {
      dedupWindow := window;
      dedupMap := map[];
    }

    method CheckAndMarkSeen(c: Call) returns (duplicate: bool)
      modifies this
      ensures duplicate == IsDuplicate(old(dedupMap), c, dedupWindow)
      ensures dedupMap == Marked(old(dedupMap), c, dedupWindow)
    {
      if c.key in dedupMap {
        if c.checked - dedupMap[c.key] < dedupWindow {
          return true;
        }
      }
      dedupMap := dedupMap[c.key := c.marked];
      if |dedupMap| > MAX_ENTRIES {
        ghost var full := dedupMap;
        var todo := dedupMap.Keys;
        while todo != {}
          invariant todo <= full.Keys
          invariant forall k :: k in dedupMap <==> k in full && (k in todo || c.pruned - full[k] <= dedupWindow)
          invariant forall k | k in dedupMap :: dedupMap[k] == full[k]
          decreases todo
        {
          var k :| k in todo;
          todo := todo - {k};
          if c.pruned - dedupMap[k] > dedupWindow {
            dedupMap := dedupMap - {k};
          }
        }
        assert dedupMap == Pruned(full, c.pruned, dedupWindow);
      }
      return false;
    }
  }

  // ---------------------------------------------------------------------------
  // Runs
  // ---------------------------------------------------------------------------

  /** Clock readings never run backwards, within a call or between calls. */
  ghost predicate InOrder(calls: seq<Call>)
  {
    && (forall c | c in calls :: c.checked <= c.marked <= c.pruned)
    && (forall i, j | 0 <= i < j < |calls| :: calls[i].pruned <= calls[j].checked)
  }

  /** The store's map after a run of calls. */
  function After(calls: seq<Call>, window: int): Seen
    decreases |calls|
  {
    if calls == [] then map[] else Marked(After(calls[..|calls| - 1], window), calls[|calls| - 1], window)
  }

  /** The same calls on a map that never forgets. */
  function Remembered(calls: seq<Call>, window: int): Seen
    decreases |calls|
  {
    if calls == [] then map[]
    else
      var seen, c := Remembered(calls[..|calls| - 1], window), calls[|calls| - 1];
      if IsDuplicate(seen, c, window) then seen else seen[c.key := c.marked]
  }

  /** What pruning may have dropped by a time. */
  ghost predicate Agrees(pruned: Seen, full: Seen, now: int, window: int)
  {
    && (forall k | k in pruned :: k in full && full[k] == pruned[k])
    && (forall k | k in full && k !in pruned :: now - full[k] > window)
  }

  lemma MarkedAgrees(pruned: Seen, full: Seen, c: Call, now: int, window: int)
    requires Agrees(pruned, full, now, window) && now <= c.checked <= c.marked <= c.pruned
    ensures IsDuplicate(pruned, c, window) <==> IsDuplicate(full, c, window)
    ensures Agrees(Marked(pruned, c, window),
                   if IsDuplicate(full, c, window) then full else full[c.key := c.marked], c.pruned, window)
  {
  }

  lemma {:induction false} AfterAgrees(calls: seq<Call>, window: int, now: int)
    requires InOrder(calls) && forall c | c in calls :: c.pruned <= now
    ensures Agrees(After(calls, window), Remembered(calls, window), now, window)
    decreases |calls|
  {
    if calls != [] {
      var init, c := calls[..|calls| - 1], calls[|calls| - 1];
      assert c in calls && forall d | d in init :: d in calls;
      AfterAgrees(init, window, c.checked);
      MarkedAgrees(After(init, window), Remembered(init, window), c, c.checked, window);
    }
  }

  /** Which calls of a run are accepted. */
  function Accepted(calls: seq<Call>, window: int): (accepted: seq<bool>)
    ensures |accepted| == |calls|
    decreases |calls|
  {
    if calls == [] then []
    else Accepted(calls[..|calls| - 1], window) +
         [!IsDuplicate(After(calls[..|calls| - 1], window), calls[|calls| - 1], window)]
  }

  /** The same question to the map that never forgets. */
  function AcceptedByMemory(calls: seq<Call>, window: int): (accepted: seq<bool>)
    ensures |accepted| == |calls|
    decreases |calls|
  {
    if calls == [] then []
    else AcceptedByMemory(calls[..|calls| - 1], window) +
         [!IsDuplicate(Remembered(calls[..|calls| - 1], window), calls[|calls| - 1], window)]
  }

  /** Main result: pruning never changes an answer, over whole runs. */
  lemma {:induction false} PruningIsInvisible(calls: seq<Call>, window: int)
    requires InOrder(calls)
    ensures Accepted(calls, window) == AcceptedByMemory(calls, window)
    decreases |calls|
  {
    if calls != [] {
      var init, c := calls[..|calls| - 1], calls[|calls| - 1];
      assert c in calls && forall d | d in init :: d in calls;
      PruningIsInvisible(init, window);
      AfterAgrees(init, window, c.checked);
      MarkedAgrees(After(init, window), Remembered(init, window), c, c.checked, window);
    }
  }

  // ---------------------------------------------------------------------------
  // Spacing
  // ---------------------------------------------------------------------------

  /** The map holds, for every key, the mark of its last accepted call. */
  ghost predicate HoldsLast(calls: seq<Call>, accepted: seq<bool>, seen: Seen)
    requires |accepted| == |calls|
  {
    && (forall i | 0 <= i < |calls| && accepted[i] :: calls[i].key in seen && calls[i].marked <= seen[calls[i].key])
    && (forall k | k in seen :: exists i ::
      0 <= i < |calls| && accepted[i] && calls[i].key == k && calls[i].marked == seen[k])
  }

  lemma HoldsLastStep(calls: seq<Call>, accepted: seq<bool>, seen: Seen, window: int)
    requires calls != [] && |accepted| == |calls| - 1 && HoldsLast(calls[..|calls| - 1], accepted, seen)
    requires forall i | 0 <= i < |calls| - 1 :: calls[i].marked <= calls[|calls| - 1].marked
    ensures var c := calls[|calls| - 1];
      var duplicate := IsDuplicate(seen, c, window);
      HoldsLast(calls, accepted + [!duplicate], if duplicate then seen else seen[c.key := c.marked])
  {
  }

  lemma OrderOfInit(calls: seq<Call>)
    requires InOrder(calls) && calls != []
    ensures InOrder(calls[..|calls| - 1])
    ensures forall i | 0 <= i < |calls| - 1 :: calls[i].marked <= calls[|calls| - 1].marked
  {
  }

  lemma {:induction false} MemoryHoldsLast(calls: seq<Call>, window: int)
    requires InOrder(calls)
    ensures HoldsLast(calls, AcceptedByMemory(calls, window), Remembered(calls, window))
    decreases |calls|
  {
    if calls == [] {
      assert Remembered(calls, window) == map[];
    } else {
      OrderOfInit(calls);
      var init := calls[..|calls| - 1];
      MemoryHoldsLast(init, window);
      HoldsLastStep(calls, AcceptedByMemory(init, window), Remembered(init, window), window);
    }
  }

  /** Main result: a call is accepted exactly when every earlier accepted call
      with its key was marked at least the window before. */
  lemma AcceptedIffSpaced(calls: seq<Call>, c: Call, window: int)
    requires InOrder(calls + [c])
    ensures var accepted := Accepted(calls, window);
      Accepted(calls + [c], window) == accepted + [
        forall i | 0 <= i < |calls| && accepted[i] && calls[i].key == c.key :: c.checked - calls[i].marked >= window]
  {
    var all := calls + [c];
    assert all[..|calls|] == calls && all[|calls|] == c;
    forall i, j | 0 <= i < j < |calls| ensures calls[i].pruned <= calls[j].checked {
      assert all[i] == calls[i] && all[j] == calls[j];
    }
    forall d | d in calls ensures d in all {}
    PruningIsInvisible(calls, window);
    PruningIsInvisible(all, window);
    MemoryHoldsLast(calls, window);
    LastDecides(calls, Accepted(calls, window), Remembered(calls, window), c, window);
  }

  lemma LastDecides(calls: seq<Call>, accepted: seq<bool>, seen: Seen, c: Call, window: int)
    requires |accepted| == |calls| && HoldsLast(calls, accepted, seen)
    ensures !IsDuplicate(seen, c, window) <==>
      forall i | 0 <= i < |calls| && accepted[i] && calls[i].key == c.key :: c.checked - calls[i].marked >= window
  {
  }
}
