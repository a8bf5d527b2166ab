// Every step of the revocation gate keeps its invariants.
module RevocationSafety {
  import opened Wrappers
  import opened Bytes
  import opened RevocationCache
  import opened RevocationGate

  // ---------- the invariants ----------

  predicate InCall(pc: Pc) {
    pc.Calling? || pc.Answered?
  }

  ghost predicate RevokedAt(s: Gate, key: bytes, at: nat) {
    key in s.revokedFrom && s.revokedFrom[key] + s.skew <= at
  }

  ghost function OutcomeOf(pc: Pc): Option<Authorization> {
    match pc
    case Decided(_, o) => o
    case Unlocked(_, o) => o
    case Releasing(_, o) => o
    case Finished(o) => o
    case _ => None
  }

  /** An active user's lock object is the registry's, and a guarding user is inside it. */
  ghost predicate TaskLocks(s: Gate, t: nat)
    requires t in s.tasks
  {
    var task := s.tasks[t];
    && (Active(task.pc) ==> task.key in s.registry && s.registry[task.key] == Holding(task.pc).value)
    && (Guarding(task.pc) ==> Holding(task.pc).value in s.holder && s.holder[Holding(task.pc).value] == t)
  }

  /** Between its second lookup and its apply, a call knows of no fresh answer. */
  ghost predicate TaskStale(s: Gate, t: nat)
    requires t in s.tasks
  {
    var task := s.tasks[t];
    task.pc.MissedAgain? || InCall(task.pc) ==> NotFresh(s.cache.entries, s.cache.budget, task.key, task.now)
  }

  /** The authority cleared this very key at some instant no more than one budget before `now`. */
  ghost predicate Cleared(log: seq<Event>, budget: nat, key: bytes, now: nat) {
    exists u: nat, m: nat :: Replied(u, key, m, Allow) in log && m <= now <= m + budget
  }

  /** What a call was told, or has decided to allow, rests on the authority's answers. */
  ghost predicate TaskTruth(s: Gate, t: nat)
    requires t in s.tasks
  {
    var task := s.tasks[t];
    && task.now <= s.time + s.skew
    && (task.pc.Answered? ==> Replied(t, task.key, task.now, task.pc.decision) in s.log)
    && (OutcomeOf(task.pc) == Some(Allowed) ==> Cleared(s.log, s.cache.budget, task.key, task.now))
  }

  ghost predicate LocksInv(s: Gate) {
    forall t :: t in s.tasks ==> TaskLocks(s, t)
  }

  /** Distinct keys never share a lock object. */
  ghost predicate RegistryInv(s: Gate) {
    && (forall k :: k in s.registry ==> s.registry[k] < s.nextLock)
    && (forall j, k :: j in s.registry && k in s.registry && s.registry[j] == s.registry[k] ==> j == k)
  }

  /** The cache is what the log says. */
  ghost predicate CacheInv(s: Gate) {
    Sound(s.cache) && s.cache.entries == EntriesIn(s.log)
  }

  /** The log's call under way for a key is the task that waits for the authority or is about to apply its answer. */
  ghost predicate CallsInv(s: Gate) {
    && (forall t :: t in s.tasks ==> (InCall(s.tasks[t].pc) <==> UnderWay(s.log, s.tasks[t].key) == Some(t)))
    && (forall k :: UnderWay(s.log, k).Some? ==>
          UnderWay(s.log, k).value in s.tasks && s.tasks[UnderWay(s.log, k).value].key == k)
  }

  ghost predicate StaleInv(s: Gate) {
    forall t :: t in s.tasks ==> TaskStale(s, t)
  }

  ghost predicate TruthInv(s: Gate) {
    forall t :: t in s.tasks ==> TaskTruth(s, t)
  }

  ghost predicate Inv(s: Gate) {
    LocksInv(s) && RegistryInv(s) && CacheInv(s) && CallsInv(s) && StaleInv(s) && TruthInv(s) && LogInv(s)
  }

  // ---------- what the log alone promises ----------

  /** Keys with an answer stored at or after `at` in the first `n` events. */
  ghost function KeysSince(log: seq<Event>, at: nat, n: nat): set<bytes>
    requires n <= |log|
  {
    set i | 0 <= i < n && log[i].EntryStored? && at <= log[i].now :: log[i].key
  }

  /** The `j`-th event was justified by the events before it. */
  ghost predicate Justified(log: seq<Event>, j: nat, budget: nat, capacity: nat)
    requires j < |log|
  {
    match log[j]
    case CallStarted(_, key, now) => UnderWay(log[..j], key).None? && NotFresh(EntriesIn(log[..j]), budget, key, now)
    case EntryStored(key, now, decision) =>
      && (exists t :: Replied(t, key, now, decision) in log[..j])
      && forall i :: 0 <= i < j && log[i].EntryStored? ==> log[i].now <= now
    case Evicted(key, at) =>
      && key in EntriesIn(log[..j]) && EntriesIn(log[..j])[key].observedAt == at
      && j + 2 <= |log| && |KeysSince(log, at, j + 2) - {key}| >= capacity
    case CallEnded(t, key, how) =>
      && UnderWay(log[..j], key) == Some(t)
      && (how.AsStored? ==> j > 0 && log[j - 1].EntryStored? && log[j - 1].key == key)
    case Replied(_, _, _, _) => true
  }

  ghost predicate LogInv(s: Gate) {
    && (forall j :: 0 <= j < |s.log| ==> Justified(s.log, j, s.cache.budget, s.cache.capacity))
    && (forall j :: 0 <= j < |s.log| && s.log[j].EntryStored? ==> s.log[j].now <= s.cache.highWater)
    && (forall j :: 0 <= j < |s.log| && s.log[j].Replied? && s.log[j].decision.Allow? ==>
          !RevokedAt(s, s.log[j].key, s.log[j].now))
  }

  /** An event stays justified when the log grows. */
  lemma JustifiedKept(log: seq<Event>, more: seq<Event>, j: nat, budget: nat, capacity: nat)
    requires j < |log| && Justified(log, j, budget, capacity)
    ensures Justified(log + more, j, budget, capacity)
  {
    assert (log + more)[..j] == log[..j];
    if log[j].Evicted? {
      assert forall i :: 0 <= i < j + 2 ==> (log + more)[i] == log[i];
      assert KeysSince(log + more, log[j].observedAt, j + 2) == KeysSince(log, log[j].observedAt, j + 2);
    }
  }

  /** Entries come from stored answers. */
  lemma {:induction false} EntriesWereStored(log: seq<Event>, key: bytes)
    requires key in EntriesIn(log)
    ensures EntryStored(key, EntriesIn(log)[key].observedAt, EntriesIn(log)[key].decision) in log
  {
    var last := log[|log| - 1];
    if !(last.EntryStored? && last.key == key) {
      EntriesWereStored(log[..|log| - 1], key);
    }
  }

  // ---------- framing ----------

  /** Only task `t` moves, and neither the cache's entries nor the log change. */
  ghost predicate Quiet(s: Gate, s': Gate, t: nat) {
    && t in s'.tasks && s'.tasks == s.tasks[t := s'.tasks[t]]
    && (t in s.tasks ==>
          s'.tasks[t].key == s.tasks[t].key && s'.tasks[t].now == s.tasks[t].now && !InCall(s.tasks[t].pc))
    && !InCall(s'.tasks[t].pc)
    && s'.log == s.log && s'.revokedFrom == s.revokedFrom && s'.time == s.time && s'.skew == s.skew
    && s'.cache == s.cache.(highWater := s'.cache.highWater) && s.cache.highWater <= s'.cache.highWater
  }

  lemma QuietKeeps(s: Gate, s': Gate, t: nat)
    requires Inv(s) && Quiet(s, s', t) && LocksInv(s') && RegistryInv(s') && TaskStale(s', t) && TaskTruth(s', t)
    ensures Inv(s')
  {
  }

  /** Only the log, the cache and task `t`, which stays inside its lock, change. */
  ghost predicate Logs(s: Gate, s': Gate, t: nat, events: seq<Event>) {
    && t in s.tasks && t in s'.tasks && s'.tasks == s.tasks[t := s'.tasks[t]]
    && s'.tasks[t].key == s.tasks[t].key && s'.tasks[t].now == s.tasks[t].now
    && Guarding(s.tasks[t].pc) && Guarding(s'.tasks[t].pc) && Holding(s'.tasks[t].pc) == Holding(s.tasks[t].pc)
    && s' == s.(log := s.log + events, tasks := s'.tasks, cache := s'.cache)
    && s'.cache.budget == s.cache.budget && s'.cache.capacity == s.cache.capacity
    && s.cache.highWater <= s'.cache.highWater
  }

  lemma LogsKeepsLocks(s: Gate, s': Gate, t: nat, events: seq<Event>)
    requires LocksInv(s) && Logs(s, s', t, events)
    ensures LocksInv(s')
  {
  }

  lemma LogsKeepsTruth(s: Gate, s': Gate, t: nat, events: seq<Event>)
    requires TruthInv(s) && Logs(s, s', t, events) && TaskTruth(s', t)
    ensures TruthInv(s')
  {
  }

  lemma LogsKeepsStale(s: Gate, s': Gate, t: nat, events: seq<Event>)
    requires LocksInv(s) && StaleInv(s) && Logs(s, s', t, events) && TaskStale(s', t)
    requires forall k :: k in s'.cache.entries && k != s.tasks[t].key ==>
        k in s.cache.entries && s'.cache.entries[k] == s.cache.entries[k]
    ensures StaleInv(s')
  {
  }

  /** The log's view of the calls follows task `t` into or out of its call. */
  lemma LogsKeepsCalls(s: Gate, s': Gate, t: nat, events: seq<Event>)
    requires LocksInv(s) && CallsInv(s) && Logs(s, s', t, events)
    requires forall k :: k != s.tasks[t].key ==> UnderWay(s'.log, k) == UnderWay(s.log, k)
    requires UnderWay(s'.log, s.tasks[t].key) == if InCall(s'.tasks[t].pc) then Some(t) else None
    ensures CallsInv(s')
  {
  }

  /** New events justify themselves one by one. */
  lemma LogGrows(s: Gate, s': Gate, t: nat, e: Event)
    requires LogInv(s) && Logs(s, s', t, [e]) && Justified(s'.log, |s.log|, s.cache.budget, s.cache.capacity)
    requires e.EntryStored? ==> e.now <= s'.cache.highWater
    requires e.Replied? && e.decision.Allow? ==> !RevokedAt(s, e.key, e.now)
    ensures LogInv(s')
  {
    forall j | 0 <= j < |s'.log| ensures Justified(s'.log, j, s.cache.budget, s.cache.capacity) {
      if j < |s.log| { JustifiedKept(s.log, [e], j, s.cache.budget, s.cache.capacity); }
    }
  }

  // ---------- lock steps ----------

  lemma Singleton<T>(a: set<T>, x: T)
    requires x in a && |a| <= 1
    ensures a == {x}
  {
    assert |a - {x}| == 0;
  }

  /** A call that removes the registry entry is the last to hold the lock. */
  lemma LastUserRemoves(s: Gate, t: nat)
    requires LocksInv(s) && t in s.tasks && s.tasks[t].pc.Unlocked? && StrongCount(s, s.tasks[t].pc.lock) <= 2
    ensures forall u :: u in s.tasks && Active(s.tasks[u].pc) && s.tasks[u].key == s.tasks[t].key ==> u == t
  {
    var lock := s.tasks[t].pc.lock;
    assert TaskLocks(s, t);
    assert s.tasks[t].key in KeysOf(s, lock) && t in HoldersOf(s, lock);
    Singleton(HoldersOf(s, lock), t);
    forall u | u in s.tasks && Active(s.tasks[u].pc) && s.tasks[u].key == s.tasks[t].key ensures u == t {
      assert TaskLocks(s, u);
      assert u in HoldersOf(s, lock);
    }
  }

  lemma EnterKeeps(s: Gate, t: nat, key: bytes, now: nat)
    requires Inv(s) && t !in s.tasks && now <= s.time + s.skew
    ensures Inv(s.(tasks := s.tasks[t := Task(key, now, Entered)]))
  {
  }

  /** Moving on without touching locks. */
  lemma PcKeeps(s: Gate, t: nat, pc: Pc, highWater: nat)
    requires Inv(s) && t in s.tasks && !InCall(s.tasks[t].pc) && !InCall(pc) && s.cache.highWater <= highWater
    requires Holding(pc) == Holding(s.tasks[t].pc) || Holding(pc).None?
    requires Active(pc) ==> Active(s.tasks[t].pc)
    requires Guarding(pc) ==> Guarding(s.tasks[t].pc)
    requires var s' := At(s.(cache := s.cache.(highWater := highWater)), t, pc); TaskStale(s', t) && TaskTruth(s', t)
    ensures Inv(At(s.(cache := s.cache.(highWater := highWater)), t, pc))
  {
    var s' := At(s.(cache := s.cache.(highWater := highWater)), t, pc);
    forall u | u in s'.tasks ensures TaskLocks(s', u) { assert TaskLocks(s, u); }
    QuietKeeps(s, s', t);
  }

  /** Every cached decision is an answer the authority gave for that very key. */
  lemma EntryWasReplied(s: Gate, key: bytes) returns (u: nat)
    requires CacheInv(s) && LogInv(s) && key in s.cache.entries
    ensures Replied(u, key, s.cache.entries[key].observedAt, s.cache.entries[key].decision) in s.log
  {
    var e := s.cache.entries[key];
    EntriesWereStored(s.log, key);
    var j :| 0 <= j < |s.log| && s.log[j] == EntryStored(key, e.observedAt, e.decision);
    assert Justified(s.log, j, s.cache.budget, s.cache.capacity);
    u :| Replied(u, key, e.observedAt, e.decision) in s.log[..j];
  }

  lemma FreshIsCleared(s: Gate, t: nat)
    requires CacheInv(s) && LogInv(s) && t in s.tasks && !Regressed(s.cache, s.tasks[t].now)
    requires LookedUp(s.cache, s.tasks[t].key, s.tasks[t].now) == Fresh(Allow)
    ensures Cleared(s.log, s.cache.budget, s.tasks[t].key, s.tasks[t].now)
  {
    var u := EntryWasReplied(s, s.tasks[t].key);
  }

  lemma LookupKeeps(s: Gate, t: nat)
    requires Inv(s) && t in s.tasks && (s.tasks[t].pc.Entered? || s.tasks[t].pc.Locked?)
    ensures Inv(LookupDone(s, t))
  {
    var task := s.tasks[t];
    assert TaskTruth(s, t);
    if Regressed(s.cache, task.now) {
      assert s.(cache := s.cache.(highWater := s.cache.highWater)) == s;
      PcKeeps(s, t, Conclude(task.pc, ClockRegression), s.cache.highWater);
    } else {
      var r := LookedUp(s.cache, task.key, task.now);
      if r == Fresh(Allow) { FreshIsCleared(s, t); }
      PcKeeps(s, t, LookupDone(s, t).tasks[t].pc, task.now);
    }
  }

  lemma AcquireKeepsLocks(s: Gate, t: nat)
    requires LocksInv(s) && RegistryInv(s) && t in s.tasks && s.tasks[t].pc.Missed?
    ensures LocksInv(KeyAcquired(s, t)) && RegistryInv(KeyAcquired(s, t))
  {
  }

  lemma AcquireKeeps(s: Gate, t: nat)
    requires Inv(s) && t in s.tasks && s.tasks[t].pc.Missed?
    ensures Inv(KeyAcquired(s, t))
  {
    AcquireKeepsLocks(s, t);
    assert TaskTruth(s, t);
    QuietKeeps(s, KeyAcquired(s, t), t);
  }

  lemma TakeLockKeepsLocks(s: Gate, t: nat)
    requires LocksInv(s) && t in s.tasks && s.tasks[t].pc.Queued? && s.tasks[t].pc.lock !in s.holder
    ensures LocksInv(LockTaken(s, t))
  {
  }

  lemma TakeLockKeeps(s: Gate, t: nat)
    requires Inv(s) && t in s.tasks && s.tasks[t].pc.Queued? && s.tasks[t].pc.lock !in s.holder
    ensures Inv(LockTaken(s, t))
  {
    TakeLockKeepsLocks(s, t);
    assert TaskTruth(s, t);
    QuietKeeps(s, LockTaken(s, t), t);
  }

  lemma DropGuardKeeps(s: Gate, t: nat)
    requires Inv(s) && t in s.tasks && s.tasks[t].pc.Decided?
    ensures Inv(GuardDropped(s, t))
  {
    var s' := GuardDropped(s, t);
    assert TaskLocks(s, t);
    forall u | u in s'.tasks ensures TaskLocks(s', u) { assert TaskLocks(s, u); }
    assert TaskTruth(s, t);
    QuietKeeps(s, s', t);
  }

  lemma ReleaseKeepsLocks(s: Gate, t: nat)
    requires LocksInv(s) && t in s.tasks && s.tasks[t].pc.Unlocked?
    ensures LocksInv(KeyReleased(s, t))
  {
    var s' := KeyReleased(s, t);
    if StrongCount(s, s.tasks[t].pc.lock) <= 2 { LastUserRemoves(s, t); }
    forall u | u in s'.tasks ensures TaskLocks(s', u) { assert TaskLocks(s, u); }
  }

  lemma ReleaseKeeps(s: Gate, t: nat)
    requires Inv(s) && t in s.tasks && s.tasks[t].pc.Unlocked?
    ensures Inv(KeyReleased(s, t))
  {
    ReleaseKeepsLocks(s, t);
    assert TaskTruth(s, t);
    QuietKeeps(s, KeyReleased(s, t), t);
  }

  // ---------- steps that are logged ----------

  lemma AppendOne(log: seq<Event>, e: Event)
    ensures EntriesIn(log + [e]) == EntriesAfter(EntriesIn(log), e)
    ensures forall key :: UnderWay(log + [e], key) == UnderWayAfter(UnderWay(log, key), key, e)
  {
  }

  /** A call starts when none is under way for the key and its answer is not fresh. */
  lemma CallStartJustified(s: Gate, t: nat)
    requires CacheInv(s) && t in s.tasks && TaskStale(s, t) && s.tasks[t].pc.MissedAgain?
    requires UnderWay(s.log, s.tasks[t].key).None?
    ensures Justified(s.log + [CallStarted(t, s.tasks[t].key, s.tasks[t].now)], |s.log|,
                      s.cache.budget, s.cache.capacity)
  {
    assert (s.log + [CallStarted(t, s.tasks[t].key, s.tasks[t].now)])[..|s.log|] == s.log;
  }

  /** What a starting call changes, and that it does not yet know anything. */
  lemma CallStartLogs(s: Gate, t: nat)
    requires t in s.tasks && s.tasks[t].pc.MissedAgain? && !Regressed(s.cache, s.tasks[t].now)
    requires TaskTruth(s, t) && TaskStale(s, t)
    ensures Logs(s, RefreshStarted(s, t), t, [CallStarted(t, s.tasks[t].key, s.tasks[t].now)])
    ensures TaskTruth(RefreshStarted(s, t), t) && TaskStale(RefreshStarted(s, t), t)
  {
  }

  lemma StartRefusedKeeps(s: Gate, t: nat)
    requires Inv(s) && t in s.tasks && s.tasks[t].pc.MissedAgain? && Regressed(s.cache, s.tasks[t].now)
    ensures Inv(RefreshStarted(s, t))
  {
    assert TaskTruth(s, t) && TaskStale(s, t);
    assert s.(cache := s.cache.(highWater := s.cache.highWater)) == s;
    PcKeeps(s, t, Decided(s.tasks[t].pc.lock, Some(ClockRegression)), s.cache.highWater);
  }

  lemma RefreshStartKeeps(s: Gate, t: nat)
    requires Inv(s) && t in s.tasks && s.tasks[t].pc.MissedAgain?
    ensures Inv(RefreshStarted(s, t))
  {
    if Regressed(s.cache, s.tasks[t].now) {
      StartRefusedKeeps(s, t);
    } else {
      assert TaskTruth(s, t) && TaskStale(s, t);
      NobodyElseCalls(s, t);
      CallStartJustified(s, t);
      CallStartLogs(s, t);
      LoggedKeeps(s, RefreshStarted(s, t), t, CallStarted(t, s.tasks[t].key, s.tasks[t].now));
    }
  }

  lemma NobodyElseCalls(s: Gate, t: nat)
    requires LocksInv(s) && CallsInv(s) && t in s.tasks && Guarding(s.tasks[t].pc) && !InCall(s.tasks[t].pc)
    ensures UnderWay(s.log, s.tasks[t].key).None?
  {
  }

  /** One event about task `t`; the cache's entries stay. */
  lemma LoggedKeeps(s: Gate, s': Gate, t: nat, e: Event)
    requires Inv(s) && Logs(s, s', t, [e]) && TaskTruth(s', t) && TaskStale(s', t)
    requires s'.cache.entries == s.cache.entries && !e.EntryStored? && !e.Evicted?
    requires e.Replied? && e.decision.Allow? ==> !RevokedAt(s, e.key, e.now)
    requires Justified(s'.log, |s.log|, s.cache.budget, s.cache.capacity)
    requires if InCall(s'.tasks[t].pc)
             then e == CallStarted(t, s.tasks[t].key, s.tasks[t].now) || (e.Replied? && InCall(s.tasks[t].pc))
             else e.CallEnded? && e.key == s.tasks[t].key
    ensures Inv(s')
  {
    AppendOne(s.log, e);
    LogsKeepsLocks(s, s', t, [e]);
    LogsKeepsTruth(s, s', t, [e]);
    LogsKeepsStale(s, s', t, [e]);
    LogsKeepsCalls(s, s', t, [e]);
    LogGrows(s, s', t, e);
  }

  lemma RefusedKeeps(s: Gate, t: nat, outcome: Option<Authorization>, how: HowEnded)
    requires Inv(s) && t in s.tasks && InCall(s.tasks[t].pc) && outcome != Some(Allowed) && !how.AsStored?
    ensures Inv(Refused(s, t, outcome, how))
  {
    var s' := Refused(s, t, outcome, how);
    assert TaskTruth(s, t);
    assert s'.log[..|s.log|] == s.log;
    LoggedKeeps(s, s', t, CallEnded(t, s.tasks[t].key, how));
  }

  /** What a well-formed reply changes: the answer goes into the log, and nothing is stored yet. */
  lemma ReplyLogs(s: Gate, t: nat, d: WireDecision)
    requires t in s.tasks && s.tasks[t].pc.Calling? && WellFormed(d, s.tasks[t].now)
    requires TaskTruth(s, t) && TaskStale(s, t) && Guarding(s.tasks[t].pc)
    ensures var s' := CallAnswered(s, t, Wire(d));
      && Logs(s, s', t, [Replied(t, s.tasks[t].key, s.tasks[t].now, if d.revoked then Deny else Allow)])
      && TaskTruth(s', t) && TaskStale(s', t)
  {
    var s' := CallAnswered(s, t, Wire(d));
    assert s'.log[|s.log|] == Replied(t, s.tasks[t].key, s.tasks[t].now, if d.revoked then Deny else Allow);
  }

  lemma ReplyKeeps(s: Gate, t: nat, d: WireDecision)
    requires Inv(s) && Enabled(s, Answer(t, Wire(d))) && WellFormed(d, s.tasks[t].now)
    ensures Inv(CallAnswered(s, t, Wire(d)))
  {
    var task := s.tasks[t];
    assert TaskTruth(s, t) && TaskStale(s, t);
    ReplyLogs(s, t, d);
    LoggedKeeps(s, CallAnswered(s, t, Wire(d)), t, Replied(t, task.key, task.now, if d.revoked then Deny else Allow));
  }

  lemma AnswerKeeps(s: Gate, t: nat, reply: Reply)
    requires Inv(s) && Enabled(s, Answer(t, reply))
    ensures Inv(CallAnswered(s, t, reply))
  {
    match reply
    case NoReply => RefusedKeeps(s, t, Some(RefreshTimedOut), AsTimedOut);
    case AuthorityError => RefusedKeeps(s, t, Some(RefreshFailed), AsFailed);
    case Wire(d) =>
      if WellFormed(d, s.tasks[t].now) {
        ReplyKeeps(s, t, d);
      } else {
        RefusedKeeps(s, t, Some(RefreshFailed), AsFailed);
      }
  }

  lemma CancelKeeps(s: Gate, t: nat)
    requires Inv(s) && Enabled(s, Cancel(t))
    ensures Inv(Cancelled(s, t))
  {
    if s.tasks[t].pc.Queued? {
      assert TaskTruth(s, t);
      assert s.(cache := s.cache.(highWater := s.cache.highWater)) == s;
      PcKeeps(s, t, Releasing(s.tasks[t].pc.lock, None), s.cache.highWater);
    } else {
      RefusedKeeps(s, t, None, AsCancelled);
    }
  }

  // ---------- applying an answer ----------

  lemma ApplyLogged(s: Gate, t: nat, evicted: Option<bytes>)
    requires t in s.tasks && s.tasks[t].pc.Answered? && (evicted.Some? ==> evicted.value in s.cache.entries)
    requires s.cache.entries == EntriesIn(s.log)
    ensures var log := s.log + ApplyEvents(s, t, evicted);
      && EntriesIn(log) == Applied(s.cache, s.tasks[t].key, s.tasks[t].pc.decision, s.tasks[t].now, evicted).entries
      && forall key :: UnderWay(log, key) == if key == s.tasks[t].key then None else UnderWay(s.log, key)
  {
    var stored := EntryStored(s.tasks[t].key, s.tasks[t].now, s.tasks[t].pc.decision);
    var ended := CallEnded(t, s.tasks[t].key, AsStored);
    var log := s.log;
    if evicted.Some? {
      var e := Evicted(evicted.value, s.cache.entries[evicted.value].observedAt);
      AppendOne(log, e);
      log := log + [e];
    }
    AppendOne(log, stored);
    AppendOne(log + [stored], ended);
    assert s.log + ApplyEvents(s, t, evicted) == log + [stored] + [ended];
  }

  lemma {:induction false} Larger<T>(a: set<T>, b: set<T>)
    requires a <= b
    ensures |a| <= |b|
  {
    if a != {} {
      var x :| x in a;
      Larger(a - {x}, b - {x});
    }
  }

  /** What an eviction costs: the survivors and the newcomer were all observed no earlier. */
  lemma EvictionJustified(s: Gate, t: nat, evicted: bytes)
    requires CacheInv(s) && t in s.tasks && s.tasks[t].pc.Answered? && !Regressed(s.cache, s.tasks[t].now)
    requires EvictionFor(s.cache, s.tasks[t].key, Some(evicted))
    ensures Justified(s.log + ApplyEvents(s, t, Some(evicted)), |s.log|, s.cache.budget, s.cache.capacity)
  {
    var log := s.log + ApplyEvents(s, t, Some(evicted));
    var at := s.cache.entries[evicted].observedAt;
    var d := Applied(s.cache, s.tasks[t].key, s.tasks[t].pc.decision, s.tasks[t].now, Some(evicted));
    ApplyIsSound(s.cache, s.tasks[t].key, s.tasks[t].pc.decision, s.tasks[t].now, Some(evicted));
    assert log[|s.log| + 1] == EntryStored(s.tasks[t].key, s.tasks[t].now, s.tasks[t].pc.decision);
    assert log[..|s.log|] == s.log;
    forall k | k in d.entries ensures k in KeysSince(log, at, |s.log| + 2) - {evicted} {
      if k == s.tasks[t].key {
        assert log[|s.log| + 1].key == k;
      } else {
        EntriesWereStored(s.log, k);
        var entry := s.cache.entries[k];
        var i :| 0 <= i < |s.log| && s.log[i] == EntryStored(k, entry.observedAt, entry.decision);
        assert log[i] == s.log[i];
      }
    }
    Larger(d.entries.Keys, KeysSince(log, at, |s.log| + 2) - {evicted});
  }

  /** Stored answers were given, and are not older than those before them. */
  lemma StoreJustified(s: Gate, t: nat, evicted: Option<bytes>, j: nat)
    requires LogInv(s) && t in s.tasks && s.tasks[t].pc.Answered? && TaskTruth(s, t)
    requires !Regressed(s.cache, s.tasks[t].now)
    requires evicted.Some? ==> evicted.value in s.cache.entries
    requires j == |s.log| + (if evicted.Some? then 1 else 0)
    ensures Justified(s.log + ApplyEvents(s, t, evicted), j, s.cache.budget, s.cache.capacity)
  {
    var log := s.log + ApplyEvents(s, t, evicted);
    assert log[j] == EntryStored(s.tasks[t].key, s.tasks[t].now, s.tasks[t].pc.decision);
    var i :| 0 <= i < |s.log| && s.log[i] == Replied(t, s.tasks[t].key, s.tasks[t].now, s.tasks[t].pc.decision);
    assert log[..j][i] == s.log[i];
    forall i | 0 <= i < j && log[i].EntryStored? ensures log[i].now <= s.tasks[t].now {
      assert i < |s.log| ==> log[i] == s.log[i];
    }
  }

  lemma AllJustified(log: seq<Event>, more: seq<Event>, budget: nat, capacity: nat)
    requires forall j :: 0 <= j < |log| ==> Justified(log, j, budget, capacity)
    requires forall j :: |log| <= j < |log + more| ==> Justified(log + more, j, budget, capacity)
    ensures forall j :: 0 <= j < |log + more| ==> Justified(log + more, j, budget, capacity)
  {
    forall j | 0 <= j < |log + more| ensures Justified(log + more, j, budget, capacity) {
      if j < |log| { JustifiedKept(log, more, j, budget, capacity); }
    }
  }

  /** The call that stored its answer was the one under way. */
  lemma EndJustified(s: Gate, t: nat, evicted: Option<bytes>, j: nat)
    requires CacheInv(s) && CallsInv(s) && t in s.tasks && s.tasks[t].pc.Answered?
    requires evicted.Some? ==> evicted.value in s.cache.entries
    requires j == |s.log| + (if evicted.Some? then 2 else 1)
    ensures Justified(s.log + ApplyEvents(s, t, evicted), j, s.cache.budget, s.cache.capacity)
  {
    var log := s.log + ApplyEvents(s, t, evicted);
    var stored := EntryStored(s.tasks[t].key, s.tasks[t].now, s.tasks[t].pc.decision);
    var before := s.log;
    if evicted.Some? {
      AppendOne(s.log, Evicted(evicted.value, s.cache.entries[evicted.value].observedAt));
      before := s.log + [Evicted(evicted.value, s.cache.entries[evicted.value].observedAt)];
    }
    AppendOne(before, stored);
    assert log[..j] == before + [stored];
    assert log[j - 1] == stored && log[j] == CallEnded(t, s.tasks[t].key, AsStored);
  }

  lemma ApplyEventsJustified(s: Gate, t: nat, evicted: Option<bytes>, j: nat)
    requires CacheInv(s) && CallsInv(s) && LogInv(s) && t in s.tasks && s.tasks[t].pc.Answered? && TaskTruth(s, t)
    requires !Regressed(s.cache, s.tasks[t].now) && EvictionFor(s.cache, s.tasks[t].key, evicted)
    requires |s.log| <= j < |s.log + ApplyEvents(s, t, evicted)|
    ensures Justified(s.log + ApplyEvents(s, t, evicted), j, s.cache.budget, s.cache.capacity)
  {
    if evicted.Some? && j == |s.log| {
      EvictionJustified(s, t, evicted.value);
    } else if j == |s.log| + (if evicted.Some? then 1 else 0) {
      StoreJustified(s, t, evicted, j);
    } else {
      EndJustified(s, t, evicted, j);
    }
  }

  /** Applying an answer logs no reply, and what it logs as stored is not ahead of the mark. */
  lemma ApplyEventsTimely(s: Gate, t: nat, evicted: Option<bytes>)
    requires LogInv(s) && t in s.tasks && s.tasks[t].pc.Answered? && !Regressed(s.cache, s.tasks[t].now)
    requires evicted.Some? ==> evicted.value in s.cache.entries
    ensures var log, now := s.log + ApplyEvents(s, t, evicted), s.tasks[t].now;
      && (forall j :: 0 <= j < |log| && log[j].EntryStored? ==> log[j].now <= now)
      && (forall j :: 0 <= j < |log| && log[j].Replied? && log[j].decision.Allow? ==>
            !RevokedAt(s, log[j].key, log[j].now))
  {
    var log := s.log + ApplyEvents(s, t, evicted);
    forall j | 0 <= j < |s.log| ensures log[j] == s.log[j] {}
  }

  lemma ApplyKeepsLog(s: Gate, t: nat, evicted: Option<bytes>)
    requires CacheInv(s) && CallsInv(s) && LogInv(s) && t in s.tasks && s.tasks[t].pc.Answered? && TaskTruth(s, t)
    requires !Regressed(s.cache, s.tasks[t].now) && EvictionFor(s.cache, s.tasks[t].key, evicted)
    ensures LogInv(AnswerApplied(s, t, evicted))
  {
    var log := s.log + ApplyEvents(s, t, evicted);
    forall j | |s.log| <= j < |log| ensures Justified(log, j, s.cache.budget, s.cache.capacity) {
      ApplyEventsJustified(s, t, evicted, j);
    }
    AllJustified(s.log, ApplyEvents(s, t, evicted), s.cache.budget, s.cache.capacity);
    ApplyEventsTimely(s, t, evicted);
  }

  lemma ApplyKeepsTasks(s: Gate, t: nat, evicted: Option<bytes>)
    requires LocksInv(s) && StaleInv(s) && TruthInv(s) && 1 <= s.cache.budget
    requires t in s.tasks && s.tasks[t].pc.Answered? && !Regressed(s.cache, s.tasks[t].now)
    requires EvictionFor(s.cache, s.tasks[t].key, evicted)
    ensures var s' := AnswerApplied(s, t, evicted); LocksInv(s') && StaleInv(s') && TruthInv(s')
  {
  }

  lemma ApplyKeepsCache(s: Gate, t: nat, evicted: Option<bytes>)
    requires CacheInv(s) && t in s.tasks && s.tasks[t].pc.Answered?
    requires !Regressed(s.cache, s.tasks[t].now) && EvictionFor(s.cache, s.tasks[t].key, evicted)
    ensures CacheInv(AnswerApplied(s, t, evicted))
  {
    ApplyIsSound(s.cache, s.tasks[t].key, s.tasks[t].pc.decision, s.tasks[t].now, evicted);
    ApplyLogged(s, t, evicted);
  }

  lemma ApplyLogs(s: Gate, t: nat, evicted: Option<bytes>)
    requires t in s.tasks && s.tasks[t].pc.Answered? && !Regressed(s.cache, s.tasks[t].now)
    requires evicted.Some? ==> evicted.value in s.cache.entries
    ensures Logs(s, AnswerApplied(s, t, evicted), t, ApplyEvents(s, t, evicted))
  {
  }

  lemma ApplyKeepsCalls(s: Gate, t: nat, evicted: Option<bytes>)
    requires LocksInv(s) && CallsInv(s) && s.cache.entries == EntriesIn(s.log) && t in s.tasks
    requires s.tasks[t].pc.Answered?
    requires !Regressed(s.cache, s.tasks[t].now) && EvictionFor(s.cache, s.tasks[t].key, evicted)
    ensures CallsInv(AnswerApplied(s, t, evicted))
  {
    ApplyLogged(s, t, evicted);
    ApplyLogs(s, t, evicted);
    LogsKeepsCalls(s, AnswerApplied(s, t, evicted), t, ApplyEvents(s, t, evicted));
  }

  lemma ApplyKeeps(s: Gate, t: nat, evicted: Option<bytes>)
    requires Inv(s) && t in s.tasks && s.tasks[t].pc.Answered? && !Regressed(s.cache, s.tasks[t].now)
    requires EvictionFor(s.cache, s.tasks[t].key, evicted)
    ensures Inv(AnswerApplied(s, t, evicted))
  {
    assert TaskTruth(s, t);
    ApplyKeepsTasks(s, t, evicted);
    ApplyKeepsCache(s, t, evicted);
    ApplyKeepsCalls(s, t, evicted);
    ApplyKeepsLog(s, t, evicted);
  }

  // ---------- every step ----------

  lemma TimeKeeps(s: Gate, d: nat)
    requires Inv(s)
    ensures Inv(s.(time := s.time + d))
  {
  }

  lemma DropArcKeeps(s: Gate, t: nat)
    requires Inv(s) && t in s.tasks && s.tasks[t].pc.Releasing?
    ensures Inv(At(s, t, Finished(s.tasks[t].pc.outcome)))
  {
    assert TaskTruth(s, t);
    assert s.(cache := s.cache.(highWater := s.cache.highWater)) == s;
    PcKeeps(s, t, Finished(s.tasks[t].pc.outcome), s.cache.highWater);
  }

  lemma StepKeeps(s: Gate, step: Step)
    requires Inv(s) && Enabled(s, step)
    ensures Inv(Do(s, step))
  {
    match step
    case Enter(t, key, now) => EnterKeeps(s, t, key, now);
    case FirstLookup(t) => LookupKeeps(s, t);
    case AcquireKey(t) => AcquireKeeps(s, t);
    case TakeLock(t) => TakeLockKeeps(s, t);
    case SecondLookup(t) => LookupKeeps(s, t);
    case RefreshStart(t) => RefreshStartKeeps(s, t);
    case Answer(t, reply) => AnswerKeeps(s, t, reply);
    case Apply(t, evicted) =>
      if Regressed(s.cache, s.tasks[t].now) {
        RefusedKeeps(s, t, Some(ClockRegression), AsClockRegressed);
      } else {
        ApplyKeeps(s, t, evicted);
      }
    case DropGuard(t) => DropGuardKeeps(s, t);
    case ReleaseKey(t) => ReleaseKeeps(s, t);
    case DropArc(t) => DropArcKeeps(s, t);
    case Cancel(t) => CancelKeeps(s, t);
    case TimePasses(d) => TimeKeeps(s, d);
  }

  lemma {:induction false} RunKeeps(run: seq<Gate>, trace: seq<Step>, i: nat)
    requires IsRun(run, trace) && i < |run|
    ensures Inv(run[i])
  {
    if i > 0 {
      RunKeeps(run, trace, i - 1);
      assert StepsTo(run[i - 1], trace[i - 1], run[i]);
      StepKeeps(run[i - 1], trace[i - 1]);
    }
  }
}
