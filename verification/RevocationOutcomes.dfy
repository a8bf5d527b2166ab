// What `authorize` answers, and when (src/revocation.rs): a fresh decision or the authority's is passed on as it is,
// and each kind of refusal has its exact cause.
module RevocationOutcomes {
  import opened Wrappers
  import opened Bytes
  import opened RevocationCache
  import opened RevocationGate
  import opened RevocationSafety

  // ---------- one step ----------

  /** The call is over with this answer, or has only its guard, its registry entry and its reference left to drop. */
  ghost predicate Concludes(pc: Pc, a: Authorization) {
    pc == Finished(Some(a)) || (pc.Decided? && pc.outcome == Some(a))
  }

  /** The cache holds an answer for the key that is no older than the budget. */
  ghost predicate Knows(c: Cache, key: bytes, now: nat, d: Decision) {
    key in c.entries && now <= c.entries[key].observedAt + c.budget && c.entries[key].decision == d
  }

  /** Either lookup: a clock behind the mark is refused and changes nothing; otherwise the mark moves to the reading, a
      fresh clearance allows, a fresh denial revokes, and without a fresh answer the call goes on. */
  lemma LookupConcludes(run: seq<Gate>, trace: seq<Step>, i: nat, t: nat)
    requires IsRun(run, trace) && i < |trace| && (trace[i] == FirstLookup(t) || trace[i] == SecondLookup(t))
    ensures t in run[i].tasks && t in run[i + 1].tasks
    ensures var s, task, pc := run[i], run[i].tasks[t], run[i + 1].tasks[t].pc;
      if task.now < s.cache.highWater then run[i + 1].cache == s.cache && Concludes(pc, ClockRegression)
      else
        && run[i + 1].cache == Cache(s.cache.entries, task.now, s.cache.budget, s.cache.capacity)
        && (Knows(s.cache, task.key, task.now, Allow) ==> Concludes(pc, Allowed))
        && (Knows(s.cache, task.key, task.now, Deny) ==> Concludes(pc, Revoked))
        && (!Knows(s.cache, task.key, task.now, Allow) && !Knows(s.cache, task.key, task.now, Deny) ==>
              pc == if trace[i] == FirstLookup(t) then Missed else MissedAgain(task.pc.lock))
  {
    assert StepsTo(run[i], trace[i], run[i + 1]);
    RunKeeps(run, trace, i);
  }

  /** The authority is called only under a clock that is not behind the mark, and the mark moves to it. */
  lemma RefreshStartConcludes(run: seq<Gate>, trace: seq<Step>, i: nat, t: nat)
    requires IsRun(run, trace) && i < |trace| && trace[i] == RefreshStart(t)
    ensures t in run[i].tasks && t in run[i + 1].tasks
    ensures var s, task, pc := run[i], run[i].tasks[t], run[i + 1].tasks[t].pc;
      if task.now < s.cache.highWater then run[i + 1].cache == s.cache && Concludes(pc, ClockRegression)
      else run[i + 1].cache == Cache(s.cache.entries, task.now, s.cache.budget, s.cache.capacity) && pc.Calling?
  {
    assert StepsTo(run[i], trace[i], run[i + 1]);
  }

  /** A revocation with target, generation and a future expiry, or a clearance with none of them. */
  ghost predicate Acceptable(d: WireDecision, now: nat) {
    || (d.revoked && d.hasTarget && d.hasGeneration && d.expiresAt.Some? && d.expiresAt.value > now)
    || (!d.revoked && !d.hasTarget && !d.hasGeneration && d.expiresAt.None?)
  }

  /** No reply in time, an error or a malformed reply refuses; a proper reply is taken over as it is. */
  lemma AnswerConcludes(run: seq<Gate>, trace: seq<Step>, i: nat, t: nat, reply: Reply)
    requires IsRun(run, trace) && i < |trace| && trace[i] == Answer(t, reply)
    ensures t in run[i].tasks && t in run[i + 1].tasks && run[i + 1].cache == run[i].cache
    ensures var task, pc := run[i].tasks[t], run[i + 1].tasks[t].pc;
      && (reply.NoReply? ==> Concludes(pc, RefreshTimedOut))
      && (reply.AuthorityError? ==> Concludes(pc, RefreshFailed))
      && (reply.Wire? && !Acceptable(reply.decision, task.now) ==> Concludes(pc, RefreshFailed))
      && (reply.Wire? && Acceptable(reply.decision, task.now) ==>
            pc.Answered? && pc.decision == if reply.decision.revoked then Deny else Allow)
  {
    assert StepsTo(run[i], trace[i], run[i + 1]);
  }

  // ---------- calls only go forward ----------

  function Rank(pc: Pc): nat {
    match pc
    case Entered => 0
    case Missed => 1
    case Queued(_) => 2
    case Locked(_) => 3
    case MissedAgain(_) => 4
    case Calling(_) => 5
    case Answered(_, _) => 6
    case Decided(_, _) => 7
    case Unlocked(_, _) => 8
    case Releasing(_, _) => 9
    case Finished(_) => 10
  }

  /** A call moves forward; once it has its outcome, or was cancelled, that stays. */
  ghost predicate Advances(before: Task, after: Task) {
    && after.key == before.key && after.now == before.now && Rank(before.pc) < Rank(after.pc)
    && (Rank(before.pc) >= 7 ==> OutcomeOf(after.pc) == OutcomeOf(before.pc))
  }

  ghost predicate GoesOn(before: Task, after: Task) {
    after == before || Advances(before, after)
  }

  /** The call that makes the step; an arriving call was not there before. */
  function Actor(step: Step): Option<nat> {
    match step
    case Enter(_, _, _) => None
    case TimePasses(_) => None
    case _ => Some(step.t)
  }

  /** Steps that read or write the cache or the log. */
  ghost predicate Records(step: Step) {
    step.FirstLookup? || step.SecondLookup? || step.Answer? || step.Apply? || step.RefreshStart?
  }

  /** Only call `u` changes. */
  ghost predicate OnlyMoves(s: Gate, s': Gate, u: nat) {
    u in s'.tasks && s'.tasks == s.tasks[u := s'.tasks[u]]
  }

  lemma AnswerOnlyMoves(s: Gate, t: nat, reply: Reply)
    requires t in s.tasks && s.tasks[t].pc.Calling?
    ensures OnlyMoves(s, CallAnswered(s, t, reply), t)
  {
  }

  lemma ApplyOnlyMoves(s: Gate, t: nat, evicted: Option<bytes>)
    requires t in s.tasks && s.tasks[t].pc.Answered? && (evicted.Some? ==> evicted.value in s.cache.entries)
    ensures OnlyMoves(s, AnswerApplied(s, t, evicted), t)
  {
  }

  lemma RecordingOthersStay(s: Gate, step: Step, s': Gate, t: nat)
    requires StepsTo(s, step, s') && t in s.tasks && Actor(step) != Some(t) && Records(step)
    ensures t in s'.tasks && s'.tasks[t] == s.tasks[t]
  {
    if step.Answer? {
      AnswerOnlyMoves(s, step.t, step.reply);
    } else if step.Apply? {
      ApplyOnlyMoves(s, step.t, step.evicted);
    } else {
      assert OnlyMoves(s, s', step.t);
    }
  }

  lemma OthersStay(s: Gate, step: Step, s': Gate, t: nat)
    requires StepsTo(s, step, s') && t in s.tasks && Actor(step) != Some(t)
    ensures t in s'.tasks && s'.tasks[t] == s.tasks[t]
  {
    if Records(step) { RecordingOthersStay(s, step, s', t); }
  }

  lemma LookupMoves(s: Gate, t: nat)
    requires t in s.tasks && (s.tasks[t].pc.Entered? || s.tasks[t].pc.Locked?)
    ensures LookupDone(s, t).tasks.Keys == s.tasks.Keys
    ensures Advances(s.tasks[t], LookupDone(s, t).tasks[t])
  {
  }

  lemma AnswerMoves(s: Gate, t: nat, reply: Reply)
    requires t in s.tasks && s.tasks[t].pc.Calling?
    ensures CallAnswered(s, t, reply).tasks.Keys == s.tasks.Keys
    ensures Advances(s.tasks[t], CallAnswered(s, t, reply).tasks[t])
  {
  }

  lemma ApplyMoves(s: Gate, t: nat, evicted: Option<bytes>)
    requires t in s.tasks && s.tasks[t].pc.Answered? && (evicted.Some? ==> evicted.value in s.cache.entries)
    ensures AnswerApplied(s, t, evicted).tasks.Keys == s.tasks.Keys
    ensures Advances(s.tasks[t], AnswerApplied(s, t, evicted).tasks[t])
  {
  }

  lemma ReleaseMoves(s: Gate, t: nat)
    requires t in s.tasks && s.tasks[t].pc.Unlocked?
    ensures KeyReleased(s, t).tasks.Keys == s.tasks.Keys
    ensures Advances(s.tasks[t], KeyReleased(s, t).tasks[t])
  {
  }

  lemma RefreshMoves(s: Gate, t: nat)
    requires t in s.tasks && s.tasks[t].pc.MissedAgain?
    ensures RefreshStarted(s, t).tasks.Keys == s.tasks.Keys
    ensures Advances(s.tasks[t], RefreshStarted(s, t).tasks[t])
  {
  }

  lemma RecordingMoves(s: Gate, step: Step, s': Gate, t: nat)
    requires StepsTo(s, step, s') && t in s.tasks && Actor(step) == Some(t) && Records(step)
    ensures s'.tasks.Keys == s.tasks.Keys && Advances(s.tasks[t], s'.tasks[t])
  {
    match step
    case FirstLookup(_) => LookupMoves(s, t);
    case SecondLookup(_) => LookupMoves(s, t);
    case RefreshStart(_) => RefreshMoves(s, t);
    case Answer(_, reply) => AnswerMoves(s, t, reply);
    case Apply(_, evicted) => ApplyMoves(s, t, evicted);
  }

  lemma ActorMoves(s: Gate, step: Step, s': Gate, t: nat)
    requires StepsTo(s, step, s') && t in s.tasks && Actor(step) == Some(t)
    ensures s'.tasks.Keys == s.tasks.Keys && Advances(s.tasks[t], s'.tasks[t])
  {
    if Records(step) { RecordingMoves(s, step, s', t); }
    if step.ReleaseKey? { ReleaseMoves(s, t); }
  }

  lemma StepForward(s: Gate, step: Step, s': Gate, t: nat)
    requires StepsTo(s, step, s') && t in s.tasks
    ensures t in s'.tasks && GoesOn(s.tasks[t], s'.tasks[t])
  {
    if Actor(step) == Some(t) { ActorMoves(s, step, s', t); } else { OthersStay(s, step, s', t); }
  }

  lemma GoesOnJoins(a: Task, b: Task, c: Task)
    requires GoesOn(a, b) && GoesOn(b, c)
    ensures GoesOn(a, c)
  {
  }

  lemma RunStepForward(run: seq<Gate>, trace: seq<Step>, i: nat, t: nat)
    requires IsRun(run, trace) && i < |trace| && t in run[i].tasks
    ensures t in run[i + 1].tasks && GoesOn(run[i].tasks[t], run[i + 1].tasks[t])
  {
    assert StepsTo(run[i], trace[i], run[i + 1]);
    StepForward(run[i], trace[i], run[i + 1], t);
  }

  lemma {:induction false} RunForward(run: seq<Gate>, trace: seq<Step>, i: nat, j: nat, t: nat)
    requires IsRun(run, trace) && i <= j < |run| && t in run[i].tasks
    ensures t in run[j].tasks && GoesOn(run[i].tasks[t], run[j].tasks[t])
    decreases j - i
  {
    if i < j {
      RunForward(run, trace, i, j - 1, t);
      RunStepForward(run, trace, j - 1, t);
      GoesOnJoins(run[i].tasks[t], run[j - 1].tasks[t], run[j].tasks[t]);
    }
  }

  /** A concluded call ends with what it concluded. */
  lemma ConclusionStands(run: seq<Gate>, trace: seq<Step>, i: nat, j: nat, t: nat, a: Authorization)
    requires IsRun(run, trace) && i <= j < |run| && t in run[i].tasks && Concludes(run[i].tasks[t].pc, a)
    requires t in run[j].tasks && run[j].tasks[t].pc.Finished?
    ensures run[j].tasks[t].pc == Finished(Some(a))
  {
    RunForward(run, trace, i, j, t);
  }

  /** The reply that a call applies is the one it got: a proper revocation ends it revoked and is cached as a denial, a
      proper clearance ends it allowed and is cached as one, unless the clock has gone behind the mark meanwhile. */
  lemma AppliedReplyConcludes(run: seq<Gate>, trace: seq<Step>, i: nat, j: nat, t: nat, d: WireDecision,
                              e: Option<bytes>)
    requires IsRun(run, trace) && i < j < |trace| && trace[i] == Answer(t, Wire(d)) && trace[j] == Apply(t, e)
    ensures t in run[j].tasks && t in run[j + 1].tasks && Acceptable(d, run[j].tasks[t].now)
    ensures var s, task, pc := run[j], run[j].tasks[t], run[j + 1].tasks[t].pc;
      if task.now < s.cache.highWater then run[j + 1].cache == s.cache && Concludes(pc, ClockRegression)
      else
        && Concludes(pc, if d.revoked then Revoked else Allowed)
        && task.key in run[j + 1].cache.entries && run[j + 1].cache.highWater == task.now
        && run[j + 1].cache.entries[task.key] == Entry(if d.revoked then Deny else Allow, task.now)
  {
    assert StepsTo(run[i], trace[i], run[i + 1]) && StepsTo(run[j], trace[j], run[j + 1]);
    AnswerConcludes(run, trace, i, t, Wire(d));
    RunForward(run, trace, i, i + 1, t);
    RunForward(run, trace, i + 1, j, t);
  }

  // ---------- what the outcomes rest on ----------

  ghost predicate Denied(log: seq<Event>, budget: nat, key: bytes, now: nat) {
    exists u: nat, m: nat :: Replied(u, key, m, Deny) in log && m <= now <= m + budget
  }

  /** The step reads the call's clock against the mark. */
  ghost predicate Consults(step: Step, t: nat) {
    step == FirstLookup(t) || step == SecondLookup(t) || step == RefreshStart(t) || (step.Apply? && step.t == t)
  }

  ghost predicate FoundRegressed(run: seq<Gate>, trace: seq<Step>, j: nat, t: nat)
    requires |run| == |trace| + 1 && j < |trace|
  {
    Consults(trace[j], t) && t in run[j].tasks && run[j].tasks[t].now < run[j].cache.highWater
  }

  /** A refused call's cause is in the log. */
  ghost predicate LogsCause(s: Gate, t: nat)
    requires t in s.tasks
  {
    var task, a := s.tasks[t], OutcomeOf(s.tasks[t].pc);
    && (a == Some(Revoked) ==> Denied(s.log, s.cache.budget, task.key, task.now))
    && (a == Some(RefreshTimedOut) ==> CallEnded(t, task.key, AsTimedOut) in s.log)
    && (a == Some(RefreshFailed) ==> CallEnded(t, task.key, AsFailed) in s.log)
  }

  /** What the log says about the end of a call is what became of it. */
  ghost predicate EndFits(s: Gate, e: Event)
    requires e.CallEnded?
  {
    && e.t in s.tasks && s.tasks[e.t].key == e.key && Rank(s.tasks[e.t].pc) >= 7
    && var a := OutcomeOf(s.tasks[e.t].pc);
       match e.how
       case AsStored => a == Some(Allowed) || a == Some(Revoked)
       case AsFailed => a == Some(RefreshFailed)
       case AsTimedOut => a == Some(RefreshTimedOut)
       case AsCancelled => a == None
       case AsClockRegressed => a == Some(ClockRegression)
  }

  ghost predicate CausesLogged(s: Gate) {
    forall t :: t in s.tasks ==> LogsCause(s, t)
  }

  ghost predicate EndsFit(s: Gate) {
    forall e :: e in s.log && e.CallEnded? ==> EndFits(s, e)
  }

  /** The log is only added to, and the budget is fixed. */
  ghost predicate LogGrew(s: Gate, s': Gate) {
    s'.cache.budget == s.cache.budget && s.log <= s'.log
  }

  lemma AnswerLogGrew(s: Gate, t: nat, reply: Reply)
    requires t in s.tasks && s.tasks[t].pc.Calling?
    ensures LogGrew(s, CallAnswered(s, t, reply))
  {
  }

  lemma ApplyLogGrew(s: Gate, t: nat, evicted: Option<bytes>)
    requires t in s.tasks && s.tasks[t].pc.Answered? && (evicted.Some? ==> evicted.value in s.cache.entries)
    ensures LogGrew(s, AnswerApplied(s, t, evicted))
  {
  }

  lemma LookupLogGrew(s: Gate, t: nat)
    requires t in s.tasks && (s.tasks[t].pc.Entered? || s.tasks[t].pc.Locked?)
    ensures LogGrew(s, LookupDone(s, t))
  {
  }

  lemma LogOnlyGrows(s: Gate, step: Step, s': Gate)
    requires StepsTo(s, step, s')
    ensures LogGrew(s, s')
  {
    match step
    case FirstLookup(t) => LookupLogGrew(s, t);
    case SecondLookup(t) => LookupLogGrew(s, t);
    case Answer(t, reply) => AnswerLogGrew(s, t, reply);
    case Apply(t, evicted) => ApplyLogGrew(s, t, evicted);
    case _ =>
  }

  lemma StillLogged(s: Gate, s': Gate, e: Event)
    requires LogGrew(s, s') && e in s.log
    ensures e in s'.log
  {
    var i :| 0 <= i < |s.log| && s.log[i] == e;
    assert s'.log[i] == e;
  }

  lemma LogsCauseKept(s: Gate, s': Gate, t: nat)
    requires t in s.tasks && t in s'.tasks && LogsCause(s, t) && LogGrew(s, s')
    requires s'.tasks[t].key == s.tasks[t].key && s'.tasks[t].now == s.tasks[t].now
    requires OutcomeOf(s'.tasks[t].pc) == OutcomeOf(s.tasks[t].pc)
    ensures LogsCause(s', t)
  {
    var key := s.tasks[t].key;
    if OutcomeOf(s.tasks[t].pc) == Some(Revoked) {
      var u: nat, m: nat :| Replied(u, key, m, Deny) in s.log && m <= s.tasks[t].now <= m + s.cache.budget;
      StillLogged(s, s', Replied(u, key, m, Deny));
    } else if OutcomeOf(s.tasks[t].pc) == Some(RefreshTimedOut) {
      StillLogged(s, s', CallEnded(t, key, AsTimedOut));
    } else if OutcomeOf(s.tasks[t].pc) == Some(RefreshFailed) {
      StillLogged(s, s', CallEnded(t, key, AsFailed));
    }
  }

  lemma FreshIsDenied(s: Gate, t: nat)
    requires CacheInv(s) && LogInv(s) && t in s.tasks && !Regressed(s.cache, s.tasks[t].now)
    requires Knows(s.cache, s.tasks[t].key, s.tasks[t].now, Deny)
    ensures Denied(s.log, s.cache.budget, s.tasks[t].key, s.tasks[t].now)
  {
    var u := EntryWasReplied(s, s.tasks[t].key);
  }

  lemma LookupLogsCause(s: Gate, t: nat)
    requires CacheInv(s) && LogInv(s) && t in s.tasks && (s.tasks[t].pc.Entered? || s.tasks[t].pc.Locked?)
    ensures LogsCause(LookupDone(s, t), t)
  {
    if !Regressed(s.cache, s.tasks[t].now) && Knows(s.cache, s.tasks[t].key, s.tasks[t].now, Deny) {
      FreshIsDenied(s, t);
    }
  }

  lemma AnswerLogsCause(s: Gate, t: nat, reply: Reply)
    requires t in s.tasks && s.tasks[t].pc.Calling?
    ensures LogsCause(CallAnswered(s, t, reply), t)
  {
    var s' := CallAnswered(s, t, reply);
    assert s'.log == s.log + [s'.log[|s.log|]];
  }

  lemma ApplyLogsCause(s: Gate, t: nat, evicted: Option<bytes>)
    requires t in s.tasks && s.tasks[t].pc.Answered? && TaskTruth(s, t)
    requires evicted.Some? ==> evicted.value in s.cache.entries
    ensures LogsCause(AnswerApplied(s, t, evicted), t)
  {
    var s' := AnswerApplied(s, t, evicted);
    assert forall e :: e in s.log ==> e in s'.log;
    assert Replied(t, s.tasks[t].key, s.tasks[t].now, s.tasks[t].pc.decision) in s'.log;
  }

  /** The other steps leave the outcome as it is, or cancel the call, or find a regression. */
  lemma OtherMoves(s: Gate, step: Step, s': Gate, t: nat)
    requires StepsTo(s, step, s') && t in s.tasks && Actor(step) == Some(t)
    requires !step.FirstLookup? && !step.SecondLookup? && !step.Answer? && !step.Apply?
    ensures t in s'.tasks
    ensures var a := OutcomeOf(s'.tasks[t].pc); a == OutcomeOf(s.tasks[t].pc) || a == None || a == Some(ClockRegression)
  {
  }

  lemma OtherLogsCause(s: Gate, step: Step, s': Gate, t: nat)
    requires StepsTo(s, step, s') && t in s.tasks && Actor(step) == Some(t) && LogsCause(s, t)
    requires !step.FirstLookup? && !step.SecondLookup? && !step.Answer? && !step.Apply?
    ensures t in s'.tasks && LogsCause(s', t)
  {
    OtherMoves(s, step, s', t);
    ActorMoves(s, step, s', t);
    LogOnlyGrows(s, step, s');
    if OutcomeOf(s'.tasks[t].pc) == OutcomeOf(s.tasks[t].pc) { LogsCauseKept(s, s', t); }
  }

  lemma ActorLogsCause(s: Gate, step: Step, s': Gate, t: nat)
    requires CacheInv(s) && LogInv(s) && t in s.tasks && TaskTruth(s, t)
    requires StepsTo(s, step, s') && Actor(step) == Some(t) && LogsCause(s, t)
    ensures t in s'.tasks && LogsCause(s', t)
  {
    match step
    case FirstLookup(_) => LookupLogsCause(s, t);
    case SecondLookup(_) => LookupLogsCause(s, t);
    case Answer(_, reply) => AnswerLogsCause(s, t, reply);
    case Apply(_, evicted) => ApplyLogsCause(s, t, evicted);
    case _ => OtherLogsCause(s, step, s', t);
  }

  lemma NewcomerHasNoOutcome(s: Gate, step: Step, s': Gate, t: nat)
    requires StepsTo(s, step, s') && t in s'.tasks && t !in s.tasks
    ensures OutcomeOf(s'.tasks[t].pc) == None
  {
    if Actor(step).Some? { ActorMoves(s, step, s', Actor(step).value); }
  }

  lemma StepLogsCause(s: Gate, step: Step, s': Gate)
    requires Inv(s) && StepsTo(s, step, s') && CausesLogged(s)
    ensures CausesLogged(s')
  {
    forall t | t in s'.tasks ensures LogsCause(s', t) {
      if t !in s.tasks {
        NewcomerHasNoOutcome(s, step, s', t);
      } else if Actor(step) == Some(t) {
        assert TaskTruth(s, t);
        ActorLogsCause(s, step, s', t);
      } else {
        OthersStay(s, step, s', t);
        LogOnlyGrows(s, step, s');
        LogsCauseKept(s, s', t);
      }
    }
  }

  lemma EndFitsKept(s: Gate, step: Step, s': Gate, e: Event)
    requires StepsTo(s, step, s') && e.CallEnded? && EndFits(s, e)
    ensures EndFits(s', e)
  {
    StepForward(s, step, s', e.t);
  }

  lemma AnswerEndFits(s: Gate, t: nat, reply: Reply, e: Event)
    requires t in s.tasks && s.tasks[t].pc.Calling?
    requires e.CallEnded? && e in CallAnswered(s, t, reply).log && e !in s.log
    ensures EndFits(CallAnswered(s, t, reply), e)
  {
  }

  lemma ApplyEndFits(s: Gate, t: nat, evicted: Option<bytes>, e: Event)
    requires t in s.tasks && s.tasks[t].pc.Answered? && (evicted.Some? ==> evicted.value in s.cache.entries)
    requires e.CallEnded? && e in AnswerApplied(s, t, evicted).log && e !in s.log
    ensures EndFits(AnswerApplied(s, t, evicted), e)
  {
    if Regressed(s.cache, s.tasks[t].now) {
      assert e == CallEnded(t, s.tasks[t].key, AsClockRegressed);
    } else {
      assert e in ApplyEvents(s, t, evicted);
      assert e == CallEnded(t, s.tasks[t].key, AsStored);
    }
  }

  lemma CancelEndFits(s: Gate, t: nat, e: Event)
    requires t in s.tasks && (s.tasks[t].pc.Queued? || s.tasks[t].pc.Calling?)
    requires e.CallEnded? && e in Cancelled(s, t).log && e !in s.log
    ensures EndFits(Cancelled(s, t), e)
  {
  }

  /** Only an answer, an apply and a cancellation end a call to the authority. */
  lemma OthersEndNothing(s: Gate, step: Step, s': Gate, e: Event)
    requires StepsTo(s, step, s') && e.CallEnded? && e in s'.log
    requires !step.Answer? && !step.Apply? && !step.Cancel?
    ensures e in s.log
  {
  }

  /** Whoever ends a call logs how it ended. */
  lemma NewEndFits(s: Gate, step: Step, s': Gate, e: Event)
    requires StepsTo(s, step, s') && e.CallEnded? && e in s'.log && e !in s.log
    ensures EndFits(s', e)
  {
    match step
    case Answer(t, reply) => AnswerEndFits(s, t, reply, e);
    case Apply(t, evicted) => ApplyEndFits(s, t, evicted, e);
    case Cancel(t) => CancelEndFits(s, t, e);
    case _ => OthersEndNothing(s, step, s', e);
  }

  lemma {:induction false} RunOutcomes(run: seq<Gate>, trace: seq<Step>, i: nat)
    requires IsRun(run, trace) && i < |run|
    ensures CausesLogged(run[i]) && EndsFit(run[i])
  {
    if i > 0 {
      var s, step, s' := run[i - 1], trace[i - 1], run[i];
      RunOutcomes(run, trace, i - 1);
      RunKeeps(run, trace, i - 1);
      assert StepsTo(s, step, s');
      StepLogsCause(s, step, s');
      forall e | e in s'.log && e.CallEnded? ensures EndFits(s', e) {
        if e in s.log { EndFitsKept(s, step, s', e); } else { NewEndFits(s, step, s', e); }
      }
    }
  }

  /** A call ends as revoked only on a denial of this very key by the authority, no older than the budget. */
  lemma RevokedOnlyIfDenied(run: seq<Gate>, trace: seq<Step>, i: nat, t: nat)
    requires IsRun(run, trace) && i < |run| && t in run[i].tasks && run[i].tasks[t].pc == Finished(Some(Revoked))
    ensures Denied(run[i].log, run[i].cache.budget, run[i].tasks[t].key, run[i].tasks[t].now)
  {
    RunOutcomes(run, trace, i);
    assert LogsCause(run[i], t);
  }

  /** A call ends as timed out, or as failed, exactly if its call to the authority did. */
  lemma RefreshRefusedExactly(run: seq<Gate>, trace: seq<Step>, i: nat, t: nat, a: Authorization)
    requires IsRun(run, trace) && i < |run| && t in run[i].tasks && run[i].tasks[t].pc == Finished(Some(a))
    ensures a == RefreshTimedOut <==> CallEnded(t, run[i].tasks[t].key, AsTimedOut) in run[i].log
    ensures a == RefreshFailed <==> CallEnded(t, run[i].tasks[t].key, AsFailed) in run[i].log
  {
    RunOutcomes(run, trace, i);
    assert LogsCause(run[i], t);
    var timedOut, failed := CallEnded(t, run[i].tasks[t].key, AsTimedOut), CallEnded(t, run[i].tasks[t].key, AsFailed);
    assert timedOut in run[i].log ==> EndFits(run[i], timedOut);
    assert failed in run[i].log ==> EndFits(run[i], failed);
  }

  lemma RegressedConcludes(run: seq<Gate>, trace: seq<Step>, j: nat, t: nat)
    requires IsRun(run, trace) && j < |trace| && Consults(trace[j], t)
    ensures t in run[j].tasks && t in run[j + 1].tasks
    ensures Concludes(run[j + 1].tasks[t].pc, ClockRegression) <==> FoundRegressed(run, trace, j, t)
  {
    assert StepsTo(run[j], trace[j], run[j + 1]);
  }

  lemma AnswerIsNoRegression(s: Gate, t: nat, reply: Reply)
    requires t in s.tasks && s.tasks[t].pc.Calling?
    ensures OutcomeOf(CallAnswered(s, t, reply).tasks[t].pc) != Some(ClockRegression)
  {
  }

  /** The steps that do not read the clock keep an outcome or cancel. */
  lemma OthersReadNoClock(s: Gate, step: Step, s': Gate, t: nat)
    requires StepsTo(s, step, s') && t in s.tasks && Actor(step) == Some(t) && !Consults(step, t) && !step.Answer?
    ensures t in s'.tasks
    ensures OutcomeOf(s'.tasks[t].pc) == OutcomeOf(s.tasks[t].pc) || OutcomeOf(s'.tasks[t].pc) == None
  {
  }

  lemma LookupRegresses(s: Gate, t: nat)
    requires t in s.tasks && (s.tasks[t].pc.Entered? || s.tasks[t].pc.Locked?)
    requires OutcomeOf(LookupDone(s, t).tasks[t].pc) == Some(ClockRegression)
    ensures Concludes(LookupDone(s, t).tasks[t].pc, ClockRegression)
  {
  }

  lemma ApplyRegresses(s: Gate, t: nat, evicted: Option<bytes>)
    requires t in s.tasks && s.tasks[t].pc.Answered? && (evicted.Some? ==> evicted.value in s.cache.entries)
    requires OutcomeOf(AnswerApplied(s, t, evicted).tasks[t].pc) == Some(ClockRegression)
    ensures Concludes(AnswerApplied(s, t, evicted).tasks[t].pc, ClockRegression)
  {
  }

  lemma OnlyConsultsRegress(s: Gate, step: Step, s': Gate, t: nat)
    requires StepsTo(s, step, s') && t in s'.tasks && OutcomeOf(s'.tasks[t].pc) == Some(ClockRegression)
    ensures t in s.tasks
    ensures OutcomeOf(s.tasks[t].pc) == Some(ClockRegression)
            || (Consults(step, t) && Concludes(s'.tasks[t].pc, ClockRegression))
  {
    if t !in s.tasks {
      NewcomerHasNoOutcome(s, step, s', t);
    } else if Actor(step) != Some(t) {
      OthersStay(s, step, s', t);
    } else {
      match step
      case FirstLookup(_) => LookupRegresses(s, t);
      case SecondLookup(_) => LookupRegresses(s, t);
      case RefreshStart(_) =>
      case Apply(_, evicted) => ApplyRegresses(s, t, evicted);
      case Answer(_, reply) => AnswerIsNoRegression(s, t, reply);
      case _ => OthersReadNoClock(s, step, s', t);
    }
  }

  lemma {:induction false} RegressionWasFound(run: seq<Gate>, trace: seq<Step>, i: nat, t: nat) returns (j: nat)
    requires IsRun(run, trace) && i < |run| && t in run[i].tasks
    requires OutcomeOf(run[i].tasks[t].pc) == Some(ClockRegression)
    ensures j < i && FoundRegressed(run, trace, j, t)
  {
    assert i > 0;
    assert StepsTo(run[i - 1], trace[i - 1], run[i]);
    OnlyConsultsRegress(run[i - 1], trace[i - 1], run[i], t);
    if OutcomeOf(run[i - 1].tasks[t].pc) == Some(ClockRegression) {
      j := RegressionWasFound(run, trace, i - 1, t);
    } else {
      RegressedConcludes(run, trace, i - 1, t);
      j := i - 1;
    }
  }

  /** A call ends with a clock regression exactly if some step of it found its clock behind the mark. */
  lemma ClockRegressionExactly(run: seq<Gate>, trace: seq<Step>, i: nat, t: nat, a: Authorization)
    requires IsRun(run, trace) && i < |run| && t in run[i].tasks && run[i].tasks[t].pc == Finished(Some(a))
    ensures a == ClockRegression <==> exists j :: 0 <= j < i && FoundRegressed(run, trace, j, t)
  {
    if a == ClockRegression {
      var j := RegressionWasFound(run, trace, i, t);
    } else if j :| 0 <= j < i && FoundRegressed(run, trace, j, t) {
      RegressedConcludes(run, trace, j, t);
      ConclusionStands(run, trace, j + 1, i, t, ClockRegression);
    }
  }

  // ---------- the mark ----------

  lemma {:induction false} MarkNeverFalls(run: seq<Gate>, trace: seq<Step>, i: nat, j: nat)
    requires IsRun(run, trace) && i <= j < |run|
    ensures run[i].cache.highWater <= run[j].cache.highWater
    decreases j - i
  {
    if i < j {
      MarkNeverFalls(run, trace, i, j - 1);
      MarkStep(run[j - 1], trace[j - 1], run[j]);
    }
  }

  lemma MarkStep(s: Gate, step: Step, s': Gate)
    requires StepsTo(s, step, s')
    ensures s.cache.highWater <= s'.cache.highWater
  {
  }

  /** Once some call's clock was accepted, every later reading behind it is refused, whoever makes it. */
  lemma ClockNeverGoesBack(run: seq<Gate>, trace: seq<Step>, i: nat, j: nat, t: nat, u: nat)
    requires IsRun(run, trace) && i < j < |trace| && Consults(trace[i], t) && Consults(trace[j], u)
    requires t in run[i].tasks && u in run[j].tasks
    requires !FoundRegressed(run, trace, i, t) && run[j].tasks[u].now < run[i].tasks[t].now
    ensures u in run[j + 1].tasks && Concludes(run[j + 1].tasks[u].pc, ClockRegression)
  {
    assert StepsTo(run[i], trace[i], run[i + 1]);
    MarkNeverFalls(run, trace, i + 1, j);
    RegressedConcludes(run, trace, j, u);
  }
}
