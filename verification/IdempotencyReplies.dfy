// What a client of the idempotency flow is answered (src/proxy.rs): the first one the response its own mutation got,
// marked by what became of the record, everybody else without any mutation.
module IdempotencyReplies {
  import opened Wrappers
  import opened Bytes
  import opened Digests
  import opened StoredResponse
  import opened RecordStore
  import opened IdempotencyProtocol
  import opened IdempotencySafety
  import opened IdempotencyTheorems
  import opened IdempotencyFinality

  // ---------- what happened to a worker ----------

  /** Its completion arrived and was recorded. */
  ghost predicate RecordsIts(s: World, step: Step, w: nat) {
    && step.Deliver? && step.m.CompleteMsg? && step.m.w == w && w in s.workers
    && s.workers[w].id.internalKey in s.store.byKey
    && s.store.byKey[s.workers[w].id.internalKey].token == step.m.token
    && s.store.byKey[s.workers[w].id.internalKey].owner == s.workers[w].id.owner
  }

  ghost predicate WasRecorded(run: seq<World>, trace: seq<Step>, n: nat, w: nat)
    requires n <= |trace| < |run|
  {
    exists j :: 0 <= j < n && RecordsIts(run[j], trace[j], w)
  }

  /** Its complete call ended without a usable reply. */
  ghost predicate LosesReply(s: World, step: Step, w: nat) {
    (step == GiveUp(w) || step == Exhaust(w)) && w in s.workers && s.workers[w].phase.Completing?
  }

  ghost predicate LostReply(run: seq<World>, trace: seq<Step>, n: nat, w: nat)
    requires n <= |trace| < |run|
  {
    exists j :: 0 <= j < n && LosesReply(run[j], trace[j], w)
  }

  /** Its claim call ended without a usable reply. */
  ghost predicate LosesClaim(s: World, step: Step, w: nat) {
    (step == GiveUp(w) || step == Exhaust(w)) && w in s.workers && s.workers[w].phase.Claiming?
  }

  ghost predicate LostClaim(run: seq<World>, trace: seq<Step>, n: nat, w: nat)
    requires n <= |trace| < |run|
  {
    exists j :: 0 <= j < n && LosesClaim(run[j], trace[j], w)
  }

  /** The response to its mutation was too large to buffer. */
  ghost predicate WasTooLarge(trace: seq<Step>, n: nat, w: nat)
    requires n <= |trace|
  {
    exists j :: 0 <= j < n && trace[j] == Respond(w, None)
  }

  /** Its mutation was forwarded. */
  ghost predicate WasForwarded(run: seq<World>, n: nat, w: nat)
    requires n < |run|
  {
    exists j :: 0 <= j <= n && w in run[j].workers && run[j].workers[w].phase.Forwarding?
  }

  /** The history of one worker. */
  datatype Past = Past(recorded: bool, refused: bool, lost: bool, large: bool, forwarded: bool)

  ghost function PastOf(run: seq<World>, trace: seq<Step>, n: nat, w: nat): Past
    requires n <= |trace| < |run|
  {
    Past(WasRecorded(run, trace, n, w), LostClaim(run, trace, n, w), LostReply(run, trace, n, w),
         WasTooLarge(trace, n, w), WasForwarded(run, n, w))
  }

  /** What one more step adds. */
  ghost function NextPast(s: World, step: Step, t: World, w: nat, past: Past): Past {
    Past(past.recorded || RecordsIts(s, step, w), past.refused || LosesClaim(s, step, w),
         past.lost || LosesReply(s, step, w), past.large || step == Respond(w, None),
         past.forwarded || (w in t.workers && t.workers[w].phase.Forwarding?))
  }

  lemma PastGrows(run: seq<World>, trace: seq<Step>, n: nat, w: nat)
    requires n < |trace| < |run|
    ensures PastOf(run, trace, n + 1, w) == NextPast(run[n], trace[n], run[n + 1], w, PastOf(run, trace, n, w))
  {
    assert WasRecorded(run, trace, n + 1, w) <==> WasRecorded(run, trace, n, w) || RecordsIts(run[n], trace[n], w);
    assert LostClaim(run, trace, n + 1, w) <==> LostClaim(run, trace, n, w) || LosesClaim(run[n], trace[n], w);
    assert LostReply(run, trace, n + 1, w) <==> LostReply(run, trace, n, w) || LosesReply(run[n], trace[n], w);
    assert WasTooLarge(trace, n + 1, w) <==> WasTooLarge(trace, n, w) || trace[n] == Respond(w, None);
    assert WasForwarded(run, n + 1, w) <==>
           WasForwarded(run, n, w) || (w in run[n + 1].workers && run[n + 1].workers[w].phase.Forwarding?);
  }

  // ---------- what a client is told ----------

  /** What the client is told, against what the worker captured and what happened to it. */
  ghost predicate ReplyFits(reply: Reply, captured: Option<Captured>, past: Past) {
    match reply
    case FromUpstream(c, d) =>
      && past.forwarded && !past.refused && !past.large && captured == Some(c)
      && (d.NotStored? <==> Transient(c.status))
      && (d.IsStored? ==> past.recorded && !past.lost) && (d.StoreFailed? ==> past.lost)
    case CaptureTooLarge => past.forwarded && !past.refused && past.large && captured.None?
    case _ => !past.forwarded && !past.large && captured.None? && (reply == Unavailable <==> past.refused)
  }

  ghost predicate PhaseFits(worker: Worker, past: Past) {
    match worker.phase
    case Claiming(_, _, _) => worker.captured.None? && !past.forwarded && !past.refused && !past.large && !past.lost
    case Forwarding(_, _, _) => worker.captured.None? && past.forwarded && !past.refused && !past.large && !past.lost
    case Completing(_, _, _, answer) =>
      && worker.captured.Some? && !Transient(worker.captured.value.status)
      && past.forwarded && !past.refused && !past.large && !past.lost
      && (answer == Some(true) ==> past.recorded)
    case Abandoning(_, _, _, reply, _) =>
      && (reply == CaptureTooLarge
          || (worker.captured.Some? && reply == FromUpstream(worker.captured.value, NotStored)))
      && ReplyFits(reply, worker.captured, past) && !past.lost
    case Done(reply) => ReplyFits(reply, worker.captured, past)
    case Crashed => true
  }

  /** The store's replies to claims are never unusable: a claim is granted with a token, and a duplicate's record names
      its author's payload and holds its author's stored response. */
  lemma ClaimRepliesAreUsable(s: World, w: nat, now: nat)
    requires w in s.workers && WorkerInv(s, w) && s.workers[w].phase.Claiming? && Answered(s.workers[w].phase)
    ensures AfterReply(s.workers[w], now) != Done(Unavailable)
  {
  }

  /** A claimant's reply: forward, or answer without having forwarded. */
  lemma ClaimReplyFits(worker: Worker, past: Past, now: nat)
    requires PhaseFits(worker, past) && worker.phase.Claiming? && Answered(worker.phase)
    requires AfterReply(worker, now) != Done(Unavailable)
    ensures var p := AfterReply(worker, now);
      PhaseFits(worker.(phase := p), past.(forwarded := past.forwarded || p.Forwarding?))
  {
  }

  lemma StoreReplyFits(worker: Worker, past: Past, now: nat)
    requires PhaseFits(worker, past) && Answered(worker.phase) && !worker.phase.Claiming?
    requires worker.phase.Completing? ==> worker.phase.answer == Some(true)
    ensures PhaseFits(worker.(phase := AfterReply(worker, now)), past)
  {
  }

  lemma FailureFits(worker: Worker, past: Past, now: nat)
    requires PhaseFits(worker, past) && Waiting(worker.phase) && !worker.phase.Forwarding?
    ensures PhaseFits(worker.(phase := AfterFailure(worker, now)),
                      past.(refused := past.refused || worker.phase.Claiming?,
                            lost := past.lost || worker.phase.Completing?))
  {
  }

  lemma ResponseFits(worker: Worker, past: Past, captured: Option<Captured>, now: nat)
    requires PhaseFits(worker, past) && worker.phase.Forwarding?
    ensures var p := AfterResponse(worker.phase.token, captured, now);
      PhaseFits(worker.(phase := p, captured := captured), past.(large := past.large || captured.None?))
  {
  }

  /** The worker's own steps. */
  lemma OwnStepFits(s: World, step: Step, t: World, w: nat, past: Past)
    requires StepsTo(s, step, t) && w in s.workers && PhaseFits(s.workers[w], past) && WorkerInv(s, w)
    requires step in {Retry(w), Exhaust(w), GiveUp(w), Receive(w), Crash(w)} || (step.Respond? && step.w == w)
    ensures w in t.workers && PhaseFits(t.workers[w], NextPast(s, step, t, w, past))
  {
    match step
    case Receive(_) =>
      if s.workers[w].phase.Claiming? {
        ClaimRepliesAreUsable(s, w, s.now);
        ClaimReplyFits(s.workers[w], past, s.now);
      } else {
        StoreReplyFits(s.workers[w], past, s.now);
      }
    case GiveUp(_) => FailureFits(s.workers[w], past, s.now);
    case Exhaust(_) =>
      if s.workers[w].phase.Forwarding? {
        ResponseFits(s.workers[w], past, Some(NO_LEADER), s.now);
      } else {
        FailureFits(s.workers[w], past, s.now);
      }
    case Respond(_, captured) => ResponseFits(s.workers[w], past, captured, s.now);
    case _ =>
  }

  /** A reply of the store reaches a waiting worker. */
  lemma DeliveryFits(s: World, m: Message, t: World, w: nat, past: Past)
    requires StepsTo(s, Deliver(m), t) && m.w == w && w in s.workers && PhaseFits(s.workers[w], past)
    requires MessageInv(s, m)
    ensures w in t.workers && PhaseFits(t.workers[w], NextPast(s, Deliver(m), t, w, past))
  {
  }

  /** What others do does not touch a worker. */
  lemma OthersTouchNothing(s: World, step: Step, t: World, w: nat)
    requires StepsTo(s, step, t) && w in s.workers
    requires !(step in {Retry(w), Exhaust(w), GiveUp(w), Receive(w), Crash(w)} || (step.Respond? && step.w == w))
    requires !(step.Deliver? && step.m.w == w)
    ensures w in t.workers && t.workers[w] == s.workers[w]
    ensures !RecordsIts(s, step, w) && !LosesReply(s, step, w) && step != Respond(w, None)
    ensures !LosesClaim(s, step, w)
  {
  }

  lemma StepFits(s: World, step: Step, t: World, w: nat, past: Past)
    requires Inv(s) && StepsTo(s, step, t) && w in s.workers && PhaseFits(s.workers[w], past)
    requires s.workers[w].phase.Forwarding? ==> past.forwarded
    ensures w in t.workers && PhaseFits(t.workers[w], NextPast(s, step, t, w, past))
  {
    if step in {Retry(w), Exhaust(w), GiveUp(w), Receive(w), Crash(w)} || (step.Respond? && step.w == w) {
      assert WorkerInv(s, w);
      OwnStepFits(s, step, t, w, past);
    } else if step.Deliver? && step.m.w == w {
      assert MessageInv(s, step.m);
      DeliveryFits(s, step.m, t, w, past);
    } else {
      OthersTouchNothing(s, step, t, w);
      assert NextPast(s, step, t, w, past) == past;
    }
  }

  /** Before it arrived, nothing happened to a worker. */
  lemma {:induction false} NothingBefore(digest: bytes -> bytes, run: seq<World>, trace: seq<Step>, n: nat, w: nat)
    requires IsRun(digest, run, trace) && n < |run| && w !in run[n].workers
    ensures PastOf(run, trace, n, w) == Past(false, false, false, false, false)
  {
    if n > 0 {
      assert StepsTo(run[n - 1], trace[n - 1], run[n]);
      NeverThere(run[n - 1], trace[n - 1], run[n], w);
      NothingBefore(digest, run, trace, n - 1, w);
      PastGrows(run, trace, n - 1, w);
    }
  }

  lemma NeverThere(s: World, step: Step, t: World, w: nat)
    requires StepsTo(s, step, t) && w !in t.workers
    ensures w !in s.workers && !RecordsIts(s, step, w) && !LosesReply(s, step, w) && step != Respond(w, None)
    ensures !LosesClaim(s, step, w)
  {
  }

  lemma NewcomerFits(s: World, step: Step, t: World, w: nat)
    requires StepsTo(s, step, t) && w !in s.workers && w in t.workers
    ensures PhaseFits(t.workers[w], NextPast(s, step, t, w, Past(false, false, false, false, false)))
  {
  }

  lemma RunStepFits(digest: bytes -> bytes, run: seq<World>, trace: seq<Step>, n: nat, w: nat)
    requires IsRun(digest, run, trace) && n < |trace| && w in run[n].workers
    requires PhaseFits(run[n].workers[w], PastOf(run, trace, n, w))
    ensures w in run[n + 1].workers
    ensures var past := NextPast(run[n], trace[n], run[n + 1], w, PastOf(run, trace, n, w));
      PhaseFits(run[n + 1].workers[w], past)
  {
    assert StepsTo(run[n], trace[n], run[n + 1]);
    RunKeeps(digest, run, trace, n);
    assert run[n].workers[w].phase.Forwarding? ==> WasForwarded(run, n, w);
    StepFits(run[n], trace[n], run[n + 1], w, PastOf(run, trace, n, w));
  }

  lemma {:induction false} RunFits(digest: bytes -> bytes, run: seq<World>, trace: seq<Step>, n: nat, w: nat)
    requires IsRun(digest, run, trace) && n < |run| && w in run[n].workers
    ensures PhaseFits(run[n].workers[w], PastOf(run, trace, n, w))
  {
    if n > 0 {
      PastGrows(run, trace, n - 1, w);
      if w in run[n - 1].workers {
        RunFits(digest, run, trace, n - 1, w);
        RunStepFits(digest, run, trace, n - 1, w);
      } else {
        assert StepsTo(run[n - 1], trace[n - 1], run[n]);
        NothingBefore(digest, run, trace, n - 1, w);
        NewcomerFits(run[n - 1], trace[n - 1], run[n], w);
      }
    }
  }

  // ---------- theorems ----------

  /** The client whose mutation was forwarded is answered exactly the response that was captured: as not stored exactly
      if it is transient, as failed to store exactly if it is final and the complete call brought no usable reply, and
      as stored only if its completion was recorded. */
  lemma FirstClientIsAnsweredItsResponse(digest: bytes -> bytes, run: seq<World>, trace: seq<Step>, n: nat, w: nat,
                                         c: Captured, d: Disposition)
    requires IsRun(digest, run, trace) && n < |run| && w in run[n].workers
    requires run[n].workers[w].phase == Done(FromUpstream(c, d))
    ensures run[n].workers[w].captured == Some(c)
    ensures d == NotStored <==> Transient(c.status)
    ensures d == StoreFailed <==> !Transient(c.status) && LostReply(run, trace, n, w)
    ensures d == IsStored ==> WasRecorded(run, trace, n, w)
  {
    RunFits(digest, run, trace, n, w);
  }

  /** The 502 for an oversized response is given exactly to the client whose response could not be buffered. */
  lemma CaptureTooLargeExactly(digest: bytes -> bytes, run: seq<World>, trace: seq<Step>, n: nat, w: nat, reply: Reply)
    requires IsRun(digest, run, trace) && n < |run| && w in run[n].workers && run[n].workers[w].phase == Done(reply)
    ensures reply == CaptureTooLarge <==> WasTooLarge(trace, n, w)
  {
    RunFits(digest, run, trace, n, w);
  }

  /** A client that is told a conflict, that the request is in progress, a replay, that it cannot be replayed, or that
      the claim failed never had its mutation forwarded; any other had. */
  lemma OthersNeverForwarded(digest: bytes -> bytes, run: seq<World>, trace: seq<Step>, n: nat, w: nat, reply: Reply)
    requires IsRun(digest, run, trace) && n < |run| && w in run[n].workers && run[n].workers[w].phase == Done(reply)
    ensures WasForwarded(run, n, w) <==> reply.FromUpstream? || reply.CaptureTooLarge?
  {
    RunFits(digest, run, trace, n, w);
  }

  /** The 503 is given exactly to the client whose claim call brought no usable reply. */
  lemma UnavailableExactly(digest: bytes -> bytes, run: seq<World>, trace: seq<Step>, n: nat, w: nat, reply: Reply)
    requires IsRun(digest, run, trace) && n < |run| && w in run[n].workers && run[n].workers[w].phase == Done(reply)
    ensures reply == Unavailable <==> LostClaim(run, trace, n, w)
  {
    RunFits(digest, run, trace, n, w);
  }

  /** A claim that meets a live record in flight is told that the request is in progress if method, target, content type
      and body are the record's author's, and a conflict otherwise. */
  lemma InFlightRecordAnswers(digest: bytes -> bytes, run: seq<World>, trace: seq<Step>, i: nat, w: nat, now: nat)
    requires CollisionFree(digest) && IsRun(digest, run, trace) && i < |trace| && trace[i] == Deliver(ClaimMsg(w))
    requires w in run[i].workers && run[i].workers[w].phase.Claiming?
    requires var key := run[i].workers[w].id.internalKey;
      key in run[i].store.byKey && !run[i].store.byKey[key].completed && run[i].now < run[i].store.byKey[key].lease
    requires forall v :: v in run[i].workers ==> NulFree(run[i].workers[v].request)
    ensures w in run[i + 1].workers && Answered(run[i + 1].workers[w].phase)
    ensures var author := Author(run[i], w);
      && author in run[i].workers && author != w
      && AfterReply(run[i + 1].workers[w], now) ==
           Done(if SamePayload(run[i].workers[author].request, run[i].workers[w].request) then InProgress else Conflict)
  {
    RunKeeps(digest, run, trace, i);
    RunIdentifies(digest, run, trace, i);
    assert StepsTo(run[i], trace[i], run[i + 1]);
    ClaimMeetsInFlight(run[i], w, now);
    FingerprintSeparatesRequests(digest, run[i].workers[Author(run[i], w)].request, run[i].workers[w].request);
  }

  lemma ClaimMeetsInFlight(s: World, w: nat, now: nat)
    requires Inv(s) && ClaimMsg(w) in s.wire && w in s.workers && s.workers[w].phase.Claiming?
    requires var key := s.workers[w].id.internalKey;
      key in s.store.byKey && !s.store.byKey[key].completed && s.now < s.store.byKey[key].lease
    ensures var author, t := Author(s, w), ClaimDelivered(s, w);
      && author in s.workers && author != w && Answered(t.workers[w].phase)
      && AfterReply(t.workers[w], now) ==
           Done(if s.workers[author].id.fingerprint == s.workers[w].id.fingerprint then InProgress else Conflict)
  {
    assert RecordInv(s, s.workers[w].id.internalKey) && MessageInv(s, ClaimMsg(w));
  }
}
