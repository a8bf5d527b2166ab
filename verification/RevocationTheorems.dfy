// What the revocation gate promises, over every interleaving of any number of calls with cancellations,
// authority failures, clock regressions and evictions.
module RevocationTheorems {
  import opened Wrappers
  import opened Bytes
  import opened RevocationCache
  import opened RevocationGate
  import opened RevocationSafety

  // ---------- fail closed, with a bounded lag ----------

  /** Only a well-formed clearance of this very key, no older than the freshness budget, allows a request. */
  lemma AllowedOnlyIfCleared(run: seq<Gate>, trace: seq<Step>, i: nat, t: nat)
    requires IsRun(run, trace) && i < |run|
    requires t in run[i].tasks && run[i].tasks[t].pc == Finished(Some(Allowed))
    ensures Cleared(run[i].log, run[i].cache.budget, run[i].tasks[t].key, run[i].tasks[t].now)
  {
    RunKeeps(run, trace, i);
    assert TaskTruth(run[i], t);
  }

  lemma {:induction false} TruthIsFixed(run: seq<Gate>, trace: seq<Step>, i: nat)
    requires IsRun(run, trace) && i < |run|
    ensures run[i].skew == run[0].skew && run[i].revokedFrom == run[0].revokedFrom
    ensures run[i].cache.budget == run[0].cache.budget
  {
    if i > 0 {
      TruthIsFixed(run, trace, i - 1);
      assert StepsTo(run[i - 1], trace[i - 1], run[i]);
    }
  }

  /** A token revoked from instant T on is never allowed at or after T plus the clock skew plus the freshness budget. */
  lemma RevocationLagIsBounded(run: seq<Gate>, trace: seq<Step>, i: nat, t: nat)
    requires IsRun(run, trace) && i < |run|
    requires t in run[i].tasks && run[i].tasks[t].pc == Finished(Some(Allowed))
    requires run[i].tasks[t].key in run[0].revokedFrom
    ensures run[i].tasks[t].now < run[0].revokedFrom[run[i].tasks[t].key] + run[0].skew + run[0].cache.budget
  {
    TruthIsFixed(run, trace, i);
    AllowedOnlyIfCleared(run, trace, i, t);
    RunKeeps(run, trace, i);
    var s, task := run[i], run[i].tasks[t];
    var u: nat, m: nat :| Replied(u, task.key, m, Allow) in s.log && m <= task.now <= m + s.cache.budget;
    assert !RevokedAt(s, task.key, m);
  }

  /** Every cached decision is an answer that the authority gave for that very key at that very instant. */
  lemma CacheIsHistory(run: seq<Gate>, trace: seq<Step>, i: nat, key: bytes) returns (u: nat)
    requires IsRun(run, trace) && i < |run| && key in run[i].cache.entries
    ensures Replied(u, key, run[i].cache.entries[key].observedAt, run[i].cache.entries[key].decision) in run[i].log
    ensures run[i].cache.entries[key].observedAt <= run[i].cache.highWater
    ensures |run[i].cache.entries| <= run[i].cache.capacity
  {
    RunKeeps(run, trace, i);
    u := EntryWasReplied(run[i], key);
  }

  // ---------- single flight ----------

  /** All active users of a key hold the lock object in the registry, users of other keys hold others, and one
      call at most is inside it, so at most one refresh per key is in progress. */
  lemma SingleFlight(run: seq<Gate>, trace: seq<Step>, i: nat, t: nat, u: nat)
    requires IsRun(run, trace) && i < |run|
    requires t in run[i].tasks && u in run[i].tasks && Active(run[i].tasks[t].pc) && Active(run[i].tasks[u].pc)
    ensures run[i].tasks[t].key in run[i].registry
    ensures Holding(run[i].tasks[t].pc) == Some(run[i].registry[run[i].tasks[t].key])
    ensures Holding(run[i].tasks[t].pc) == Holding(run[i].tasks[u].pc) <==> run[i].tasks[t].key == run[i].tasks[u].key
    ensures run[i].tasks[t].key == run[i].tasks[u].key ==>
        Guarding(run[i].tasks[t].pc) && Guarding(run[i].tasks[u].pc) ==> t == u
  {
    RunKeeps(run, trace, i);
    assert TaskLocks(run[i], t) && TaskLocks(run[i], u);
  }

  // ---------- coalescing ----------

  lemma EventJustified(run: seq<Gate>, trace: seq<Step>, n: nat, j: nat)
    requires IsRun(run, trace) && n < |run| && j < |run[n].log|
    ensures Justified(run[n].log, j, run[n].cache.budget, run[n].cache.capacity)
  {
    RunKeeps(run, trace, n);
  }

  /** A call stays under way until it is logged as ended. */
  lemma {:induction false} UnderWayUntilEnded(log: seq<Event>, i: nat, j: nat, key: bytes) returns (e: nat)
    requires i < j <= |log| && log[i].CallStarted? && log[i].key == key && UnderWay(log[..j], key) != Some(log[i].t)
    requires forall k :: i < k < j ==> !(log[k].CallStarted? && log[k].key == key)
    ensures i < e < j && log[e].CallEnded? && log[e].key == key && UnderWay(log[..e], key) == Some(log[i].t)
  {
    assert log[..j][..j - 1] == log[..j - 1] && log[..j][j - 1] == log[j - 1];
    assert i + 1 < j;
    if UnderWay(log[..j - 1], key) == Some(log[i].t) {
      e := j - 1;
    } else {
      e := UnderWayUntilEnded(log, i, j - 1, key);
    }
  }

  /** An answer that was stored and not evicted is still there, or a later one is. */
  lemma {:induction false} StoredStays(log: seq<Event>, i: nat, j: nat, key: bytes) returns (x: nat)
    requires i < j <= |log| && log[i].EntryStored? && log[i].key == key
    requires forall k :: i < k < j ==> !(log[k].Evicted? && log[k].key == key)
    ensures i <= x < j && log[x].EntryStored? && log[x].key == key
    ensures key in EntriesIn(log[..j]) && EntriesIn(log[..j])[key] == Entry(log[x].decision, log[x].now)
  {
    assert log[..j][..j - 1] == log[..j - 1] && log[..j][j - 1] == log[j - 1];
    if log[j - 1].EntryStored? && log[j - 1].key == key {
      x := j - 1;
    } else {
      x := StoredStays(log, i, j - 1, key);
    }
  }

  /** Between two consecutive authority calls for one key, the first one ended; and if its answer was stored and
      not evicted meanwhile, the newest stored answer was older than the budget when the second call began. So
      callers within one budget of a stored answer, same-instant callers above all, share one call. */
  lemma SecondCallNeedsReason(run: seq<Gate>, trace: seq<Step>, n: nat, i: nat, j: nat) returns (e: nat, x: nat)
    requires IsRun(run, trace) && n < |run| && i < j < |run[n].log|
    requires var log := run[n].log;
      && log[i].CallStarted? && log[j].CallStarted? && log[i].key == log[j].key
      && forall k :: i < k < j ==> !(log[k].CallStarted? && log[k].key == log[i].key)
    ensures var log := run[n].log;
      && i < e < j && log[e].CallEnded? && log[e].key == log[i].key && log[e].t == log[i].t
      && (log[e].how.AsStored? && (forall k :: e < k < j ==> !(log[k].Evicted? && log[k].key == log[i].key)) ==>
            && e <= x + 1 < j + 1 && log[x].EntryStored? && log[x].key == log[i].key
            && log[x].now + run[n].cache.budget < log[j].now)
  {
    var log := run[n].log;
    EventJustified(run, trace, n, j);
    e := UnderWayUntilEnded(log, i, j, log[i].key);
    EventJustified(run, trace, n, e);
    x := 0;
    if log[e].how.AsStored? && forall k :: e < k < j ==> !(log[k].Evicted? && log[k].key == log[i].key) {
      x := StoredStays(log, e - 1, j, log[i].key);
    }
  }

  // ---------- eviction ----------

  /** An entry observed at t is evicted only when at least `capacity` other keys were observed at or after t. */
  lemma EvictionNeedsCapacity(run: seq<Gate>, trace: seq<Step>, n: nat, j: nat)
    requires IsRun(run, trace) && n < |run| && j < |run[n].log| && run[n].log[j].Evicted?
    ensures var log, e := run[n].log, run[n].log[j];
      && j + 2 <= |log|
      && e.key in EntriesIn(log[..j]) && EntriesIn(log[..j])[e.key].observedAt == e.observedAt
      && |KeysSince(log, e.observedAt, j + 2) - {e.key}| >= run[n].cache.capacity
  {
    EventJustified(run, trace, n, j);
  }

  /** Observation times never go back, for one key or across keys. */
  lemma ObservationsAdvance(run: seq<Gate>, trace: seq<Step>, n: nat, i: nat, j: nat)
    requires IsRun(run, trace) && n < |run| && i <= j < |run[n].log|
    requires run[n].log[i].EntryStored? && run[n].log[j].EntryStored?
    ensures run[n].log[i].now <= run[n].log[j].now
  {
    EventJustified(run, trace, n, j);
  }
}
