/**
 * The reactive record of a capability's operations: per operation a bounded history of calls by params key, and a
 * snapshot of all of them that is rebuilt only after a change.
 */
module Operations {
  import opened Options
  import opened Values
  import opened Cache

  /** One call's state: its properties by name. */
  type CallState = map<string, Value>
  type Histories = map<string, seq<Entry<CallState>>>
  type Snapshot = map<string, map<string, CallState>>

  function History(working: Histories, operation: string): seq<Entry<CallState>> {
    if operation in working then working[operation] else []
  }

  /** `{...previous, ...patch}` */
  function Merged(es: seq<Entry<CallState>>, key: string, patch: CallState): CallState {
    match Find(es, key) case None => patch case Some(previous) => previous + patch
  }

  function Recorded(working: Histories, operation: string, key: string, patch: CallState, cap: int): Histories {
    var es := History(working, operation);
    working[operation := Evict(Touch(es, key, Merged(es, key, patch)), cap)]
  }

  function ByKey(es: seq<Entry<CallState>>): map<string, CallState> {
    map key | key in Keys(es) && Find(es, key).Some? :: Find(es, key).value
  }

  function Materialized(working: Histories): Snapshot {
    map operation | operation in working :: ByKey(working[operation])
  }

  /** What a reader finds for a call; None when it was never recorded, or has been evicted. */
  function Seen(snapshot: Snapshot, operation: string, key: string): Option<CallState> {
    if operation in snapshot && key in snapshot[operation] then Some(snapshot[operation][key]) else None
  }

  lemma SeenMeaning(working: Histories, operation: string, key: string)
    ensures Seen(Materialized(working), operation, key) == Find(History(working, operation), key)
  {
    if operation in working {
      FindNothing(working[operation], key);
      assert key in Keys(working[operation]) <==> Has(working[operation], key);
    }
  }

  /** Every operation's history has distinct keys and stays within the cap. */
  ghost predicate AllBounded(working: Histories, cap: int) {
    forall operation | operation in working :: Within(working[operation], cap)
  }

  ghost predicate Within(es: seq<Entry<CallState>>, cap: int) {
    DistinctKeys(es) && |es| <= if cap < 0 then 0 else cap
  }

  lemma RecordingKeepsBounded(working: Histories, operation: string, key: string, patch: CallState, cap: int)
    requires AllBounded(working, cap)
    ensures AllBounded(Recorded(working, operation, key, patch, cap), cap)
  {
    var es := History(working, operation);
    var _, _ := TouchShape(es, key, Merged(es, key, patch));
    EvictedIsWithin(Touch(es, key, Merged(es, key, patch)), cap);
  }

  lemma EvictedIsWithin(es: seq<Entry<CallState>>, cap: int)
    requires DistinctKeys(es)
    ensures Within(Evict(es, cap), cap)
  {
    if cap > 0 {
      var drop := EvictShape(es, cap);
      var kept := Evict(es, cap);
      forall i, j | 0 <= i < j < |kept| ensures kept[i].key != kept[j].key {
        assert kept[i] == es[i + drop] && kept[j] == es[j + drop];
      }
    }
  }

  /**
   * After a call's state is recorded, a reader sees it merged over what was recorded for the same params before --
   * unless the cap is not positive, when nothing is ever seen -- and every other operation unchanged.
   */
  lemma RecordedIsSeen(working: Histories, operation: string, key: string, patch: CallState, cap: int,
                       other: string, k: string)
    requires AllBounded(working, cap) && other != operation
    ensures var before, after := Materialized(working), Materialized(Recorded(working, operation, key, patch, cap));
            && Seen(after, operation, key) ==
                 (if cap <= 0 then None
                  else match Seen(before, operation, key) case None => Some(patch) case Some(was) => Some(was + patch))
            && Seen(after, other, k) == Seen(before, other, k)
  {
    var es, next := History(working, operation), Recorded(working, operation, key, patch, cap);
    var touched := Touch(es, key, Merged(es, key, patch));
    var _, _ := TouchShape(es, key, Merged(es, key, patch));
    EvictedIsWithin(touched, cap);
    if cap > 0 {
      var drop := EvictShape(touched, cap);
      FindAt(Evict(touched, cap), |touched| - 1 - drop);
    }
    SeenMeaning(working, operation, key);
    SeenMeaning(next, operation, key);
    SeenMeaning(working, other, k);
    SeenMeaning(next, other, k);
    assert History(next, other) == History(working, other);
    if Find(es, key).None? && cap <= 0 { FindNothing(es, key); }
  }

  /** The params keys recorded after `key`. */
  function KeysAfter(es: seq<Entry<CallState>>, key: string): set<string> {
    if es == [] then {} else if es[0].key == key then Keys(es[1..]) else KeysAfter(es[1..], key)
  }

  lemma {:induction false} FoundHolds(es: seq<Entry<CallState>>, key: string, value: CallState)
    requires DistinctKeys(es) && Find(es, key) == Some(value)
    ensures Holds(es, key, value, KeysAfter(es, key))
  {
    if es[0].key == key {
      assert HeldAt(es, 0, key, value, KeysAfter(es, key));
    } else {
      FoundHolds(es[1..], key, value);
      var i: nat :| HeldAt(es[1..], i, key, value, KeysAfter(es[1..], key));
      assert es[1..][i + 1..] == es[i + 2..];
      assert HeldAt(es, i + 1, key, value, KeysAfter(es, key));
    }
  }

  /**
   * Recording one call leaves the operation's other calls as they were -- except those that at least as many calls
   * as the cap allows, this one among them, have been recorded since: they are forgotten.
   */
  lemma OtherCallsAreSeen(working: Histories, operation: string, key: string, patch: CallState, cap: int, k: string)
    requires AllBounded(working, cap) && k != key
    ensures var before, after := Materialized(working), Materialized(Recorded(working, operation, key, patch, cap));
            Seen(after, operation, k)
            == if |KeysAfter(History(working, operation), k) + {key}| < cap then Seen(before, operation, k) else None
  {
    var es := History(working, operation);
    var value := Merged(es, key, patch);
    var t, kept := Touch(es, key, value), Evict(Touch(es, key, value), cap);
    SeenMeaning(working, operation, k);
    SeenMeaning(Recorded(working, operation, key, patch, cap), operation, k);
    var _, _ := TouchShape(es, key, value);
    EvictedIsWithin(t, cap);
    if cap > 0 && Find(es, k).Some? {
      var newer := KeysAfter(es, k);
      FoundHolds(es, k, Find(es, k).value);
      TouchHolds(es, k, Find(es, k).value, newer, key, value);
      EvictHolds(t, cap, k, Find(es, k).value, newer + {key});
      if |newer + {key}| < cap { HeldIsFound(kept, k, Find(es, k).value, newer + {key}); }
    } else {
      FindNothing(es, k);
      if cap > 0 {
        TouchStaysAway(es, key, value, k);
        EvictStaysAway(t, cap, k);
      }
    }
    FindNothing(kept, k);
  }

  /**
   * A property is seen of a call exactly when its last record has it or it was seen before: recording a success
   * does not take away the error of an earlier call with the same params.
   */
  lemma PropertySeenIff(working: Histories, operation: string, key: string, patch: CallState, cap: int, name: string)
    requires AllBounded(working, cap) && cap > 0
    ensures var before, after := Materialized(working), Materialized(Recorded(working, operation, key, patch, cap));
            var was, now := Seen(before, operation, key), Seen(after, operation, key);
            && now.Some?
            && (name in now.value <==> name in patch || (was.Some? && name in was.value))
            && (name in patch ==> now.value[name] == patch[name])
            && (name !in patch && was.Some? && name in was.value ==> now.value[name] == was.value[name])
  {
    RecordedIsSeen(working, operation, key, patch, cap, operation + "'", key);
  }

  /** The records of a call that fails and of a later one with the same params that succeeds. */
  function FailedThenSucceeded(working: Histories, operation: string, key: string, error: Value, cap: int): Histories {
    var failed := Recorded(working, operation, key, map["status" := Str("error"), "error" := error], cap);
    var again := Recorded(failed, operation, key, map["status" := Str("loading")], cap);
    Recorded(again, operation, key, map["status" := Str("success")], cap)
  }

  /** The state a reader finds for a call, empty if there is none. */
  function SeenOr(working: Histories, operation: string, key: string): CallState {
    match Seen(Materialized(working), operation, key) case None => map[] case Some(state) => state
  }

  lemma SeenAfter(working: Histories, operation: string, key: string, patch: CallState, cap: int)
    requires AllBounded(working, cap) && cap > 0
    ensures SeenOr(Recorded(working, operation, key, patch, cap), operation, key)
         == SeenOr(working, operation, key) + patch
  {
    RecordedIsSeen(working, operation, key, patch, cap, operation + "'", key);
    assert map[] + patch == patch;
  }

  lemma LastStatusCounts(was: CallState, s: string, e: string, first: Value, error: Value, second: Value, last: Value)
    requires s != e
    ensures was + map[s := first, e := error] + map[s := second] + map[s := last] == was + map[s := last, e := error]
  {
  }

  /** The later success is seen with the error of the earlier failure, and all that was seen before. */
  lemma ErrorSeenWithSuccess(working: Histories, operation: string, key: string, error: Value, cap: int)
    requires AllBounded(working, cap) && cap > 0
    ensures SeenOr(FailedThenSucceeded(working, operation, key, error, cap), operation, key)
         == SeenOr(working, operation, key) + map["status" := Str("success"), "error" := error]
  {
    var first, second := map["status" := Str("error"), "error" := error], map["status" := Str("loading")];
    var failed := Recorded(working, operation, key, first, cap);
    var again := Recorded(failed, operation, key, second, cap);
    assert "status" != "error" by { assert |"status"| == 6 && |"error"| == 5; }
    RecordingKeepsBounded(working, operation, key, first, cap);
    RecordingKeepsBounded(failed, operation, key, second, cap);
    SeenAfter(working, operation, key, first, cap);
    SeenAfter(failed, operation, key, second, cap);
    SeenAfter(again, operation, key, map["status" := Str("success")], cap);
    var was := SeenOr(working, operation, key);
    LastStatusCounts(was, "status", "error", Str("error"), error, Str("loading"), Str("success"));
  }

  class OperationRecord {
    const maxOperationHistory: int
    var operationsWorking: Histories
    var snapshotCache: Option<Snapshot>

    /** A cached snapshot is always the one a rebuild would give. */
    ghost predicate Valid()
      reads this
    {
      && AllBounded(operationsWorking, maxOperationHistory)
      && (snapshotCache.Some? ==> snapshotCache.value == Materialized(operationsWorking))
    }

    constructor (maxOperationHistory: int)
      ensures Valid() && operationsWorking == map[] && this.maxOperationHistory == maxOperationHistory
    {
      this.maxOperationHistory := maxOperationHistory;
      operationsWorking, snapshotCache := map[], None;
    }

    method SetOperationState(operation: string, key: string, patch: CallState)
      requires Valid()
      modifies this
      ensures Valid() && snapshotCache == None
      ensures operationsWorking == Recorded(old(operationsWorking), operation, key, patch, maxOperationHistory)
    {
      RecordingKeepsBounded(operationsWorking, operation, key, patch, maxOperationHistory);
      var paramsMap := History(operationsWorking, operation);
      var next := Merged(paramsMap, key, patch);
      paramsMap := Without(paramsMap, key) + [Entry(key, next)];
      paramsMap := EvictOldest(paramsMap, maxOperationHistory);
      operationsWorking := operationsWorking[operation := paramsMap];
      snapshotCache := None;
    }

    /** Reading changes nothing a reader can see, and the second of two reads answers from the cache. */
    method MaterializeOperationsSnapshot() returns (snapshot: Snapshot)
      requires Valid()
      modifies this`snapshotCache
      ensures Valid() && snapshot == Materialized(operationsWorking) && snapshotCache == Some(snapshot)
    {
      if snapshotCache.Some? {
        return snapshotCache.value;
      }
      var next: Snapshot := map[];
      var todo := operationsWorking.Keys;
      ghost var working := operationsWorking;
      while todo != {}
        modifies {}
        invariant todo <= working.Keys && next.Keys == working.Keys - todo
        invariant forall operation | operation in next :: next[operation] == ByKey(working[operation])
      {
        var operation :| operation in todo;
        todo := todo - {operation};
        next := next[operation := ByKey(operationsWorking[operation])];
      }
      assert next == Materialized(operationsWorking);
      snapshotCache := Some(next);
      return next;
    }
  }
}
