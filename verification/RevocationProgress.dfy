// Every `authorize` call comes to an end: nobody waits for a lock that nobody holds, some call can always move, and no
// call moves for ever (src/revocation.rs).
module RevocationProgress {
  import opened Wrappers
  import opened Bytes
  import opened RevocationCache
  import opened RevocationGate
  import opened RevocationSafety
  import opened RevocationOutcomes

  // ---------- locks are held by users ----------

  ghost predicate HeldBy(s: Gate, lock: nat, t: nat) {
    t in s.tasks && Guarding(s.tasks[t].pc) && Holding(s.tasks[t].pc) == Some(lock)
  }

  ghost predicate LocksAreHeld(s: Gate) {
    forall lock :: lock in s.holder ==> HeldBy(s, lock, s.holder[lock])
  }

  lemma LookupHolds(s: Gate, t: nat, lock: nat)
    requires HeldBy(s, lock, t) && s.tasks[t].pc.Locked?
    ensures HeldBy(LookupDone(s, t), lock, t)
  {
  }

  lemma RefreshHolds(s: Gate, t: nat, lock: nat)
    requires HeldBy(s, lock, t) && s.tasks[t].pc.MissedAgain?
    ensures HeldBy(RefreshStarted(s, t), lock, t)
  {
  }

  lemma AnswerHolds(s: Gate, t: nat, lock: nat, reply: Reply)
    requires HeldBy(s, lock, t) && s.tasks[t].pc.Calling?
    ensures HeldBy(CallAnswered(s, t, reply), lock, t)
  {
  }

  lemma ApplyHolds(s: Gate, t: nat, lock: nat, evicted: Option<bytes>)
    requires HeldBy(s, lock, t) && s.tasks[t].pc.Answered? && (evicted.Some? ==> evicted.value in s.cache.entries)
    ensures HeldBy(AnswerApplied(s, t, evicted), lock, t)
  {
  }

  /** The holder stays inside, or gives the lock back. */
  lemma HolderMoves(s: Gate, step: Step, s': Gate, lock: nat, t: nat)
    requires StepsTo(s, step, s') && HeldBy(s, lock, t) && Actor(step) == Some(t)
    ensures HeldBy(s', lock, t) || s'.holder == s.holder - {lock}
  {
    match s.tasks[t].pc
    case Locked(_) => LookupHolds(s, t, lock);
    case MissedAgain(_) => RefreshHolds(s, t, lock);
    case Calling(_) => if step.Answer? { AnswerHolds(s, t, lock, step.reply); }
    case Answered(_, _) => ApplyHolds(s, t, lock, step.evicted);
    case Decided(_, _) =>
  }

  lemma NewHolder(s: Gate, step: Step, s': Gate, lock: nat)
    requires StepsTo(s, step, s') && lock in s'.holder
    ensures (lock in s.holder && s.holder[lock] == s'.holder[lock]) || HeldBy(s', lock, s'.holder[lock])
  {
  }

  lemma StepKeepsHeld(s: Gate, step: Step, s': Gate)
    requires StepsTo(s, step, s') && LocksAreHeld(s)
    ensures LocksAreHeld(s')
  {
    forall lock | lock in s'.holder ensures HeldBy(s', lock, s'.holder[lock]) {
      NewHolder(s, step, s', lock);
      if lock in s.holder && s.holder[lock] == s'.holder[lock] {
        var t := s.holder[lock];
        if Actor(step) == Some(t) { HolderMoves(s, step, s', lock, t); } else { OthersStay(s, step, s', t); }
      }
    }
  }

  lemma {:induction false} RunHeld(run: seq<Gate>, trace: seq<Step>, i: nat)
    requires IsRun(run, trace) && i < |run|
    ensures LocksAreHeld(run[i])
  {
    if i > 0 {
      RunHeld(run, trace, i - 1);
      assert StepsTo(run[i - 1], trace[i - 1], run[i]);
      StepKeepsHeld(run[i - 1], trace[i - 1], run[i]);
    }
  }

  /** A lock is held exactly while some call is between taking it and dropping its guard. */
  lemma LockHeldExactly(run: seq<Gate>, trace: seq<Step>, i: nat, lock: nat)
    requires IsRun(run, trace) && i < |run|
    ensures lock in run[i].holder <==> exists t :: HeldBy(run[i], lock, t)
  {
    RunHeld(run, trace, i);
    RunKeeps(run, trace, i);
    if lock in run[i].holder {
      assert HeldBy(run[i], lock, run[i].holder[lock]);
    }
    forall t | HeldBy(run[i], lock, t) ensures lock in run[i].holder {
      assert TaskLocks(run[i], t);
    }
  }

  // ---------- somebody can move ----------

  /** Of finitely many entries one is oldest. */
  lemma {:induction false} OldestExists(entries: map<bytes, Entry>) returns (oldest: bytes)
    requires entries != map[]
    ensures Oldest(entries, oldest)
    decreases |entries|
  {
    var key :| key in entries;
    var rest := entries - {key};
    assert forall k :: k in entries ==> k == key || k in rest;
    oldest := key;
    if rest != map[] {
      var other := OldestExists(rest);
      assert forall k :: k in rest ==> rest[k] == entries[k];
      if entries[other].observedAt < entries[key].observedAt { oldest := other; }
    }
  }

  lemma CanApply(s: Gate, t: nat) returns (evicted: Option<bytes>)
    requires t in s.tasks && s.tasks[t].pc.Answered? && Sound(s.cache)
    ensures Enabled(s, Apply(t, evicted))
  {
    evicted := None;
    if !Regressed(s.cache, s.tasks[t].now) && s.tasks[t].key !in s.cache.entries
       && |s.cache.entries| >= s.cache.capacity {
      var oldest := OldestExists(s.cache.entries);
      evicted := Some(oldest);
    }
  }

  /** A call that is not over and does not wait for a lock can move, whatever the authority does. */
  lemma CanMove(s: Gate, t: nat) returns (step: Step)
    requires t in s.tasks && !s.tasks[t].pc.Finished? && !s.tasks[t].pc.Queued? && Sound(s.cache)
    ensures Enabled(s, step) && Actor(step) == Some(t) && !step.Cancel?
  {
    match s.tasks[t].pc
    case Entered => step := FirstLookup(t);
    case Missed => step := AcquireKey(t);
    case Locked(_) => step := SecondLookup(t);
    case MissedAgain(_) => step := RefreshStart(t);
    case Calling(_) => step := Answer(t, NoReply);
    case Answered(_, _) =>
      var evicted := CanApply(s, t);
      step := Apply(t, evicted);
    case Decided(_, _) => step := DropGuard(t);
    case Unlocked(_, _) => step := ReleaseKey(t);
    case Releasing(_, _) => step := DropArc(t);
  }

  /** There is no deadlock: a call that is not over can move, or the call that holds the lock it waits for can. */
  lemma NoDeadlock(run: seq<Gate>, trace: seq<Step>, i: nat, t: nat) returns (step: Step)
    requires IsRun(run, trace) && i < |run| && t in run[i].tasks && !run[i].tasks[t].pc.Finished?
    ensures Enabled(run[i], step) && Actor(step).Some? && !step.Cancel?
    ensures Actor(step) == Some(t)
            || (run[i].tasks[t].pc.Queued? && HeldBy(run[i], run[i].tasks[t].pc.lock, Actor(step).value))
  {
    RunHeld(run, trace, i);
    RunKeeps(run, trace, i);
    var s := run[i];
    if !s.tasks[t].pc.Queued? {
      step := CanMove(s, t);
    } else if s.tasks[t].pc.lock !in s.holder {
      step := TakeLock(t);
    } else {
      var holder := s.holder[s.tasks[t].pc.lock];
      assert HeldBy(s, s.tasks[t].pc.lock, holder);
      step := CanMove(s, holder);
    }
  }

  // ---------- nobody moves for ever ----------

  /** How many of the first `n` steps are the call's own. */
  ghost function StepsOf(trace: seq<Step>, n: nat, t: nat): nat
    requires n <= |trace|
  {
    if n == 0 then 0 else StepsOf(trace, n - 1, t) + if Actor(trace[n - 1]) == Some(t) then 1 else 0
  }

  /** A call makes ten steps at most. */
  lemma {:induction false} CallsAreShort(run: seq<Gate>, trace: seq<Step>, n: nat, t: nat)
    requires IsRun(run, trace) && n <= |trace|
    ensures StepsOf(trace, n, t) <= if t in run[n].tasks then Rank(run[n].tasks[t].pc) else 0
    ensures StepsOf(trace, n, t) <= 10
  {
    if n > 0 {
      var s, step, s' := run[n - 1], trace[n - 1], run[n];
      CallsAreShort(run, trace, n - 1, t);
      assert StepsTo(s, step, s');
      if t !in s.tasks {
        Newcomer(s, step, s', t);
      } else if Actor(step) == Some(t) {
        ActorMoves(s, step, s', t);
      } else {
        OthersStay(s, step, s', t);
      }
    }
  }

  // ---------- who releases ----------

  ghost predicate DidAcquire(trace: seq<Step>, n: nat, t: nat)
    requires n <= |trace|
  {
    exists j :: 0 <= j < n && trace[j] == AcquireKey(t)
  }

  ghost predicate DidRelease(trace: seq<Step>, n: nat, t: nat)
    requires n <= |trace|
  {
    exists j :: 0 <= j < n && trace[j] == ReleaseKey(t)
  }

  /** Where a call stands, against what it has done to the registry. */
  ghost predicate PcFits(pc: Pc, acquired: bool, released: bool) {
    match pc
    case Entered => !acquired && !released
    case Missed => !acquired && !released
    case Unlocked(_, outcome) => acquired && !released && outcome.Some?
    case Releasing(_, outcome) => acquired && (released <==> outcome.Some?)
    case Finished(outcome) => if acquired then released <==> outcome.Some? else !released
    case _ => acquired && !released
  }

  lemma LookupPcFits(s: Gate, t: nat, acquired: bool)
    requires t in s.tasks && (s.tasks[t].pc.Entered? || s.tasks[t].pc.Locked?)
    requires PcFits(s.tasks[t].pc, acquired, false)
    ensures PcFits(LookupDone(s, t).tasks[t].pc, acquired, false)
  {
  }

  lemma AnswerPcFits(s: Gate, t: nat, reply: Reply, acquired: bool)
    requires t in s.tasks && s.tasks[t].pc.Calling? && PcFits(s.tasks[t].pc, acquired, false)
    ensures PcFits(CallAnswered(s, t, reply).tasks[t].pc, acquired, false)
  {
  }

  lemma ApplyPcFits(s: Gate, t: nat, evicted: Option<bytes>, acquired: bool)
    requires t in s.tasks && s.tasks[t].pc.Answered? && PcFits(s.tasks[t].pc, acquired, false)
    requires evicted.Some? ==> evicted.value in s.cache.entries
    ensures PcFits(AnswerApplied(s, t, evicted).tasks[t].pc, acquired, false)
  {
  }

  lemma ActorPcFits(s: Gate, step: Step, s': Gate, t: nat, acquired: bool, released: bool)
    requires StepsTo(s, step, s') && Actor(step) == Some(t) && t in s.tasks
    requires PcFits(s.tasks[t].pc, acquired, released)
    ensures t in s'.tasks
    ensures PcFits(s'.tasks[t].pc, acquired || step == AcquireKey(t), released || step == ReleaseKey(t))
  {
    match s.tasks[t].pc
    case Entered => LookupPcFits(s, t, acquired);
    case Locked(_) => LookupPcFits(s, t, acquired);
    case Calling(_) =>
      if step.Answer? { AnswerPcFits(s, t, step.reply, acquired); }
    case Answered(_, _) => ApplyPcFits(s, t, step.evicted, acquired);
    case _ =>
  }

  lemma {:induction false} RunPcFits(run: seq<Gate>, trace: seq<Step>, n: nat, t: nat)
    requires IsRun(run, trace) && n <= |trace|
    ensures t in run[n].tasks ==> PcFits(run[n].tasks[t].pc, DidAcquire(trace, n, t), DidRelease(trace, n, t))
    ensures t !in run[n].tasks ==> !DidAcquire(trace, n, t) && !DidRelease(trace, n, t)
  {
    if n > 0 {
      var s, step, s' := run[n - 1], trace[n - 1], run[n];
      RunPcFits(run, trace, n - 1, t);
      assert StepsTo(s, step, s');
      assert DidAcquire(trace, n, t) <==> DidAcquire(trace, n - 1, t) || step == AcquireKey(t);
      assert DidRelease(trace, n, t) <==> DidRelease(trace, n - 1, t) || step == ReleaseKey(t);
      if t !in s.tasks {
        Newcomer(s, step, s', t);
      } else if Actor(step) == Some(t) {
        ActorPcFits(s, step, s', t, DidAcquire(trace, n - 1, t), DidRelease(trace, n - 1, t));
      } else {
        OthersStay(s, step, s', t);
      }
    }
  }

  lemma Newcomer(s: Gate, step: Step, s': Gate, t: nat)
    requires StepsTo(s, step, s') && t !in s.tasks
    ensures Actor(step) != Some(t)
    ensures t in s'.tasks ==> s'.tasks[t].pc == Entered
  {
  }

  /** A call that acquired its key's lock and is over has released it exactly if it has an outcome; a cancelled call
      never does. */
  lemma ReleasedExactly(run: seq<Gate>, trace: seq<Step>, n: nat, t: nat)
    requires IsRun(run, trace) && n <= |trace| && DidAcquire(trace, n, t)
    requires t in run[n].tasks && run[n].tasks[t].pc.Finished?
    ensures DidRelease(trace, n, t) <==> run[n].tasks[t].pc.outcome.Some?
  {
    RunPcFits(run, trace, n, t);
  }
}
