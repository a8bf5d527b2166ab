// Transient failures (any 5xx, 408, 429, an ambiguous 502, an oversized response) are never stored and never
// replayed: the claim is released instead, and a retry runs the mutation again (src/proxy.rs).
module IdempotencyFinality {
  import opened Wrappers
  import opened Bytes
  import opened Digests
  import opened StoredResponse
  import opened RecordStore
  import opened IdempotencyProtocol
  import opened IdempotencySafety

  /** A status after which the mutation is to be run again: any 5xx, 408 Request Timeout, 429 Too Many Requests. */
  predicate Transient(status: nat) {
    status == 408 || status == 429 || 500 <= status <= 599
  }

  predicate FinalCapture(c: Option<Captured>) {
    c.Some? && !Transient(c.value.status)
  }

  predicate FinalResult(s: Stored) {
    100 <= s.status <= 999 && !Transient(s.status)
  }

  /** A completion is only ever sent for a final response, an abandon only for any other. */
  ghost predicate MessagesFinal(s: World) {
    && (forall w, token :: CompleteMsg(w, token) in s.wire ==> w in s.workers && FinalCapture(s.workers[w].captured))
    && (forall w, token :: AbandonMsg(w, token) in s.wire ==> w in s.workers && !FinalCapture(s.workers[w].captured))
  }

  ghost predicate RecordsFinal(s: World) {
    forall key :: key in s.store.byKey && s.store.byKey[key].completed ==>
      s.store.byKey[key].result.Some? && FinalResult(s.store.byKey[key].result.value)
  }

  /** A record says that its request completed with `stored`. */
  ghost predicate Tells(output: Option<ClaimOutput>, stored: Stored) {
    && output.Some? && output.value.record.Some? && output.value.record.value.completed
    && output.value.record.value.result == Decoded(stored)
  }

  /** What a worker has learned from its claim, or has answered, is final. */
  ghost predicate PhaseFinal(p: Phase) {
    match p
    case Claiming(_, _, output) => forall stored :: Tells(output, stored) ==> FinalResult(stored)
    case Abandoning(_, _, _, reply, _) => !reply.Replayed?
    case Done(reply) => reply.Replayed? ==> !Transient(reply.response.status)
    case _ => true
  }

  ghost predicate OnlyFinal(s: World) {
    MessagesFinal(s) && RecordsFinal(s) && forall w :: w in s.workers ==> PhaseFinal(s.workers[w].phase)
  }

  lemma RespondedFinal(s: World, w: nat, captured: Option<Captured>)
    requires OnlyFinal(s) && w in s.workers && s.workers[w].phase.Forwarding?
    requires forall token :: CompleteMsg(w, token) !in s.wire && AbandonMsg(w, token) !in s.wire
    ensures OnlyFinal(Responded(s, w, captured))
  {
  }

  lemma CompletedFinal(s: World, w: nat, token: nat)
    requires OnlyFinal(s) && CompleteMsg(w, token) in s.wire && w in s.workers
    ensures OnlyFinal(CompleteDelivered(s, w, token))
  {
  }

  lemma ClaimedFinal(s: World, w: nat)
    requires OnlyFinal(s) && w in s.workers
    ensures OnlyFinal(ClaimDelivered(s, w))
  {
  }

  lemma ReceivedFinal(s: World, w: nat)
    requires OnlyFinal(s) && w in s.workers && Answered(s.workers[w].phase)
    ensures OnlyFinal(SetPhase(s, w, AfterReply(s.workers[w], s.now)))
  {
    var p := s.workers[w].phase;
    if p.Claiming? && p.output.value.record.Some? {
      var result := p.output.value.record.value.result;
      if result.Decoded? { var told := Tells(p.output, result.stored); }
    }
  }

  lemma FailureFinal(s: World, w: nat)
    requires OnlyFinal(s) && w in s.workers && Waiting(s.workers[w].phase) && !s.workers[w].phase.Forwarding?
    ensures OnlyFinal(SetPhase(s, w, AfterFailure(s.workers[w], s.now)))
  {
  }

  /** Nothing is sent or recorded, and the only worker that moves has nothing to replay. */
  lemma MovedFinal(s: World, t: World, w: nat)
    requires OnlyFinal(s) && t.wire <= s.wire && t.store.byKey.Keys <= s.store.byKey.Keys
    requires forall key :: key in t.store.byKey ==> t.store.byKey[key] == s.store.byKey[key]
    requires forall v :: v in s.workers ==> v in t.workers && t.workers[v].captured == s.workers[v].captured
    requires forall v :: v in t.workers && v != w ==> v in s.workers && t.workers[v] == s.workers[v]
    requires w in t.workers ==> PhaseFinal(t.workers[w].phase)
    ensures OnlyFinal(t)
  {
  }

  lemma DeliveredFinal(s: World, m: Message)
    requires OnlyFinal(s) && m in s.wire && m.w in s.workers
    ensures OnlyFinal(Do(s, Deliver(m)))
  {
    match m
    case ClaimMsg(w) => ClaimedFinal(s, w);
    case CompleteMsg(w, token) => CompletedFinal(s, w, token);
    case AbandonMsg(w, token) => MovedFinal(s, Do(s, Deliver(m)), w);
  }

  lemma ExhaustedFinal(s: World, w: nat)
    requires Inv(s) && OnlyFinal(s) && Enabled(s, Exhaust(w))
    ensures OnlyFinal(Do(s, Exhaust(w)))
  {
    if s.workers[w].phase.Forwarding? {
      NothingSentYet(s, w);
      RespondedFinal(s, w, Some(NO_LEADER));
    } else {
      FailureFinal(s, w);
      MovedFinal(SetPhase(s, w, AfterFailure(s.workers[w], s.now)), Do(s, Exhaust(w)), w);
    }
  }

  lemma ArrivedFinal(s: World, w: nat, request: Request, id: Identity)
    requires OnlyFinal(s) && w !in s.workers
    ensures OnlyFinal(Arrived(s, w, request, id))
  {
  }

  lemma StepFinal(s: World, step: Step)
    requires Inv(s) && OnlyFinal(s) && Enabled(s, step)
    ensures OnlyFinal(Do(s, step))
  {
    match step
    case Arrive(w, request, id) => ArrivedFinal(s, w, request, id);
    case Retry(w) => MovedFinal(s, Do(s, step), w);
    case Exhaust(w) => ExhaustedFinal(s, w);
    case GiveUp(w) => FailureFinal(s, w);
    case Respond(w, captured) =>
      NothingSentYet(s, w);
      RespondedFinal(s, w, captured);
    case Receive(w) => ReceivedFinal(s, w);
    case Crash(w) => MovedFinal(s, Do(s, step), w);
    case Deliver(m) => DeliveredFinal(s, m);
    case Lapse(key) => MovedFinal(s, Do(s, step), 0);
    case Tick(d) => MovedFinal(s, Do(s, step), 0);
  }

  lemma NothingSentYet(s: World, w: nat)
    requires Inv(s) && w in s.workers && s.workers[w].phase.Forwarding?
    ensures forall token :: CompleteMsg(w, token) !in s.wire && AbandonMsg(w, token) !in s.wire
  {
    ForwarderIsSilent(s, w);
  }

  lemma {:induction false} RunFinal(digest: bytes -> bytes, run: seq<World>, trace: seq<Step>, i: nat)
    requires IsRun(digest, run, trace) && i < |run|
    ensures OnlyFinal(run[i])
  {
    if i > 0 {
      RunFinal(digest, run, trace, i - 1);
      RunKeeps(digest, run, trace, i - 1);
      assert StepsTo(run[i - 1], trace[i - 1], run[i]);
      StepFinal(run[i - 1], trace[i - 1]);
    }
  }

  /** In every run only final responses are recorded, and only final responses are replayed. */
  lemma OnlyFinalResponsesLast(digest: bytes -> bytes, run: seq<World>, trace: seq<Step>, i: nat)
    requires IsRun(digest, run, trace) && i < |run|
    ensures forall key :: key in run[i].store.byKey && run[i].store.byKey[key].completed ==>
              run[i].store.byKey[key].result.Some? && FinalResult(run[i].store.byKey[key].result.value)
    ensures forall w, r :: w in run[i].workers && run[i].workers[w].phase == Done(Replayed(r)) ==> !Transient(r.status)
  {
    RunFinal(digest, run, trace, i);
    forall w, r | w in run[i].workers && run[i].workers[w].phase == Done(Replayed(r)) ensures !Transient(r.status) {
      assert PhaseFinal(run[i].workers[w].phase);
    }
  }

  /** The worker's own message after its response: a complete or an abandon. */
  function Sent(s: World, w: nat, captured: Option<Captured>): Message
    requires w in s.workers && s.workers[w].phase.Forwarding?
  {
    if FinalCapture(captured) then CompleteMsg(w, s.workers[w].phase.token) else AbandonMsg(w, s.workers[w].phase.token)
  }

  /** Once the worker's own complete or abandon has arrived, whoever claims the key next is told to forward exactly
      if the response was transient or oversized. */
  lemma NextClaimForwardsExactlyIfTransient(digest: bytes -> bytes, run: seq<World>, trace: seq<Step>, i: nat, w: nat,
                                            captured: Option<Captured>, next: Identity)
    requires IsRun(digest, run, trace) && i < |run|
    requires w in run[i].workers && run[i].workers[w].phase.Forwarding?
    requires next.internalKey == run[i].workers[w].id.internalKey
    ensures var responded := Responded(run[i], w, captured);
      && Sent(run[i], w, captured) in responded.wire
      && var after := Do(responded, Deliver(Sent(run[i], w, captured)));
      && after.now == run[i].now
      && var reply := AfterClaim(next, Claimed(after.store, after.now, next).1, after.now);
      && (reply.Forwarding? <==> !FinalCapture(captured))
      && (reply.Forwarding? ==> reply == Forwarding(run[i].store.nextToken, 0, run[i].now))
  {
    RunKeeps(digest, run, trace, i);
    assert WorkerInv(run[i], w);
    assert RecordInv(run[i], next.internalKey);
  }
}
