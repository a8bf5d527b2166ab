// When a key is granted again, and so its mutation forwarded again, over whole runs of the idempotency protocol.
module IdempotencyGrants {
  import opened Wrappers
  import opened Bytes
  import opened Digests
  import opened StoredResponse
  import opened RecordStore
  import opened IdempotencyProtocol
  import opened IdempotencySafety
  import opened IdempotencyTheorems
  import opened IdempotencyFinality

  // ---------- what the store does to a key ----------

  /** A claim for the key arrives. */
  ghost predicate Claims(s: World, step: Step, key: bytes) {
    step.Deliver? && step.m.ClaimMsg? && step.m.w in s.workers && s.workers[step.m.w].id.internalKey == key
  }

  /** ... and is granted. */
  ghost predicate Grants(s: World, step: Step, key: bytes) {
    Claims(s, step, key) && Claimed(s.store, s.now, s.workers[step.m.w].id).1.claimed
  }

  /** A completion under `token` arrives and is recorded. */
  ghost predicate Completes(s: World, step: Step, key: bytes, token: nat) {
    && step.Deliver? && step.m.CompleteMsg? && step.m.token == token
    && step.m.w in s.workers && s.workers[step.m.w].id.internalKey == key
    && HeldBy(s.store, s.workers[step.m.w].id, token)
  }

  /** An abandon under `token` arrives and releases the claim. */
  ghost predicate Releases(s: World, step: Step, key: bytes, token: nat) {
    && step.Deliver? && step.m.AbandonMsg? && step.m.token == token
    && step.m.w in s.workers && s.workers[step.m.w].id.internalKey == key
    && Abandoned(s.store, s.workers[step.m.w].id, token).1
  }

  // ---------- what became of a grant ----------

  /** Nothing arrived yet, a completion was recorded at an instant, or the claim was released. */
  datatype Fate = Held | Recorded(at: nat) | Released

  ghost function NextFate(s: World, step: Step, key: bytes, token: nat, fate: Fate): Fate {
    if Completes(s, step, key, token) then Recorded(s.now)
    else if Releases(s, step, key, token) then Released
    else fate
  }

  /** The fate, before step `n`, of the grant that step `g` gave under `token`. */
  ghost function FateAt(run: seq<World>, trace: seq<Step>, g: nat, n: nat, key: bytes, token: nat): Fate
    requires g < n <= |trace| < |run|
  {
    if n == g + 1 then Held
    else NextFate(run[n - 1], trace[n - 1], key, token, FateAt(run, trace, g, n - 1, key, token))
  }

  /** A grant is over when its lease has lapsed, when it was released, or when its retention is over. */
  predicate Over(fate: Fate, grantedAt: nat, now: nat) {
    match fate
    case Held => grantedAt + 120_000 <= now
    case Recorded(at) => at + 86_400_000 <= now
    case Released => true
  }

  /** The record, if it is still there, says what became of the grant; if it is gone, the grant is over. */
  ghost predicate Reflects(s: World, key: bytes, token: nat, grantedAt: nat, fate: Fate) {
    if key in s.store.byKey then
      var record := s.store.byKey[key];
      && record.token == token && !fate.Released? && (record.completed <==> fate.Recorded?)
      && record.lease == (if fate.Recorded? then fate.at + RETENTION_MS else grantedAt + INFLIGHT_LEASE_MS)
    else Over(fate, grantedAt, s.now)
  }

  lemma ClaimReflects(s: World, w: nat, key: bytes, token: nat, grantedAt: nat, fate: Fate)
    requires w in s.workers && Reflects(s, key, token, grantedAt, fate) && !Grants(s, Deliver(ClaimMsg(w)), key)
    ensures Reflects(ClaimDelivered(s, w), key, token, grantedAt, fate)
  {
  }

  lemma CompleteReflects(s: World, w: nat, k: nat, key: bytes, token: nat, grantedAt: nat, fate: Fate)
    requires w in s.workers && Reflects(s, key, token, grantedAt, fate)
    ensures var next := NextFate(s, Deliver(CompleteMsg(w, k)), key, token, fate);
      Reflects(CompleteDelivered(s, w, k), key, token, grantedAt, next)
  {
  }

  lemma AbandonReflects(s: World, w: nat, k: nat, key: bytes, token: nat, grantedAt: nat, fate: Fate)
    requires w in s.workers && Reflects(s, key, token, grantedAt, fate)
    ensures var next := NextFate(s, Deliver(AbandonMsg(w, k)), key, token, fate);
      Reflects(AbandonDelivered(s, w, k), key, token, grantedAt, next)
  {
  }

  lemma StepReflects(s: World, step: Step, t: World, key: bytes, token: nat, grantedAt: nat, fate: Fate)
    requires StepsTo(s, step, t) && Reflects(s, key, token, grantedAt, fate) && !Grants(s, step, key)
    ensures Reflects(t, key, token, grantedAt, NextFate(s, step, key, token, fate))
  {
    if step.Deliver? {
      match step.m
      case ClaimMsg(w) => ClaimReflects(s, w, key, token, grantedAt, fate);
      case CompleteMsg(w, k) => CompleteReflects(s, w, k, key, token, grantedAt, fate);
      case AbandonMsg(w, k) => AbandonReflects(s, w, k, key, token, grantedAt, fate);
    }
  }

  lemma GrantReflects(s: World, step: Step, t: World, key: bytes)
    requires StepsTo(s, step, t) && Grants(s, step, key)
    ensures Reflects(t, key, s.store.nextToken, s.now, Held)
  {
  }

  /** Step `g` granted the key, and no later step before `n` did. */
  ghost predicate LastGrant(run: seq<World>, trace: seq<Step>, g: nat, n: nat, key: bytes)
    requires n <= |trace| < |run|
  {
    g < n && Grants(run[g], trace[g], key) && forall i :: g < i < n ==> !Grants(run[i], trace[i], key)
  }

  lemma {:induction false} RunReflects(digest: bytes -> bytes, run: seq<World>, trace: seq<Step>, g: nat, n: nat,
                                       key: bytes)
    requires IsRun(digest, run, trace) && n <= |trace| && LastGrant(run, trace, g, n, key)
    ensures var token := run[g].store.nextToken;
      Reflects(run[n], key, token, run[g].now, FateAt(run, trace, g, n, key, token))
  {
    assert StepsTo(run[n - 1], trace[n - 1], run[n]);
    if n == g + 1 {
      GrantReflects(run[g], trace[g], run[n], key);
    } else {
      var token := run[g].store.nextToken;
      RunReflects(digest, run, trace, g, n - 1, key);
      StepReflects(run[n - 1], trace[n - 1], run[n], key, token, run[g].now, FateAt(run, trace, g, n - 1, key, token));
    }
  }

  // ---------- the fate is decided by the grantee's response ----------

  /** The worker's response is still to come. */
  predicate Before(p: Phase) {
    p.Claiming? || p.Forwarding?
  }

  /** A recorded grant had a final response; a released one had its response, and that was none. */
  ghost predicate FateFits(s: World, w: nat, token: nat, fate: Fate) {
    && OwnsToken(s, w, token) && w in s.workers
    && (fate.Recorded? ==> FinalCapture(s.workers[w].captured))
    && (fate.Released? ==> !FinalCapture(s.workers[w].captured) && !Before(s.workers[w].phase))
  }

  /** Once a worker's response is known, or can no longer come, it does not change. */
  lemma CapturedStays(s: World, step: Step, t: World, w: nat)
    requires StepsTo(s, step, t) && w in s.workers && WorkerInv(s, w)
    requires s.workers[w].captured.Some? || !Before(s.workers[w].phase)
    ensures w in t.workers && t.workers[w].captured == s.workers[w].captured
    ensures !Before(s.workers[w].phase) ==> !Before(t.workers[w].phase)
  {
  }

  lemma OwnershipStays(s: World, step: Step, t: World, w: nat, token: nat)
    requires TokensInv(s) && StepsTo(s, step, t) && OwnsToken(s, w, token) && w in s.workers
    ensures OwnsToken(t, w, token) && w in t.workers
  {
  }

  /** Only the grantee's own messages decide the fate, and the response fits the message. */
  lemma FateDecided(s: World, step: Step, key: bytes, w: nat, token: nat)
    requires TokensInv(s) && MessagesInv(s) && OnlyFinal(s) && OwnsToken(s, w, token) && w in s.workers
    requires step.Deliver? && step.m in s.wire
    ensures Completes(s, step, key, token) ==> FinalCapture(s.workers[w].captured)
    ensures Releases(s, step, key, token) ==> !FinalCapture(s.workers[w].captured) && !Before(s.workers[w].phase)
  {
    assert MessageInv(s, step.m);
  }

  lemma NextFateFits(s: World, step: Step, key: bytes, w: nat, token: nat, fate: Fate)
    requires TokensInv(s) && MessagesInv(s) && OnlyFinal(s) && FateFits(s, w, token, fate)
    requires step.Deliver? ==> step.m in s.wire
    ensures FateFits(s, w, token, NextFate(s, step, key, token, fate))
  {
    if step.Deliver? { FateDecided(s, step, key, w, token); }
  }

  lemma FateCarries(s: World, step: Step, t: World, w: nat, token: nat, fate: Fate)
    requires TokensInv(s) && StepsTo(s, step, t) && FateFits(s, w, token, fate) && WorkerInv(s, w)
    ensures FateFits(t, w, token, fate)
  {
    OwnershipStays(s, step, t, w, token);
    if fate != Held { CapturedStays(s, step, t, w); }
  }

  lemma StepFits(s: World, step: Step, t: World, key: bytes, w: nat, token: nat, fate: Fate)
    requires Inv(s) && OnlyFinal(s) && StepsTo(s, step, t) && FateFits(s, w, token, fate)
    ensures FateFits(t, w, token, NextFate(s, step, key, token, fate))
  {
    assert WorkerInv(s, w);
    NextFateFits(s, step, key, w, token, fate);
    FateCarries(s, step, t, w, token, NextFate(s, step, key, token, fate));
  }

  lemma GrantFits(s: World, step: Step, t: World, key: bytes)
    requires StepsTo(s, step, t) && Grants(s, step, key)
    ensures FateFits(t, step.m.w, s.store.nextToken, Held)
  {
  }

  lemma {:induction false} RunFits(digest: bytes -> bytes, run: seq<World>, trace: seq<Step>, g: nat, n: nat,
                                   key: bytes)
    requires IsRun(digest, run, trace) && n <= |trace| && LastGrant(run, trace, g, n, key)
    ensures var token := run[g].store.nextToken;
      FateFits(run[n], trace[g].m.w, token, FateAt(run, trace, g, n, key, token))
  {
    assert StepsTo(run[n - 1], trace[n - 1], run[n]);
    if n == g + 1 {
      GrantFits(run[g], trace[g], run[n], key);
    } else {
      var token := run[g].store.nextToken;
      RunFits(digest, run, trace, g, n - 1, key);
      RunKeeps(digest, run, trace, n - 1);
      RunFinal(digest, run, trace, n - 1);
      StepFits(run[n - 1], trace[n - 1], run[n], key, trace[g].m.w, token, FateAt(run, trace, g, n - 1, key, token));
    }
  }

  // ---------- exactly when a mutation is forwarded again ----------

  /** After a grant, the next claim for the key is granted, and its worker told to forward, exactly if that grant is
      over: its completion was never recorded and its claim was released or lapsed, or its completion was recorded and
      the retention is over. A completion is recorded only for a final response, a claim released only for any other. */
  lemma GrantedAgainExactly(digest: bytes -> bytes, run: seq<World>, trace: seq<Step>, g: nat, n: nat, key: bytes)
    requires IsRun(digest, run, trace) && n < |trace| && LastGrant(run, trace, g, n, key)
    requires Claims(run[n], trace[n], key)
    ensures var w, token := trace[g].m.w, run[g].store.nextToken;
      var fate := FateAt(run, trace, g, n, key, token);
      && w in run[n].workers
      && (Grants(run[n], trace[n], key) <==> Over(fate, run[g].now, run[n].now))
      && (run[n].workers[trace[n].m.w].phase.Claiming? ==>
            && trace[n].m.w in run[n + 1].workers && Answered(run[n + 1].workers[trace[n].m.w].phase)
            && (AfterReply(run[n + 1].workers[trace[n].m.w], run[n + 1].now).Forwarding? <==>
                  Over(fate, run[g].now, run[n].now)))
      && (fate.Recorded? ==> FinalCapture(run[n].workers[w].captured))
      && (fate.Released? ==> !FinalCapture(run[n].workers[w].captured))
  {
    RunReflects(digest, run, trace, g, n, key);
    RunFits(digest, run, trace, g, n, key);
    assert StepsTo(run[n], trace[n], run[n + 1]);
  }

  /** From the moment a completion is recorded, the record stands for the whole 24-hour retention, and nobody with
      its key has a mutation in flight. */
  lemma CompletionStandsForRetention(digest: bytes -> bytes, run: seq<World>, trace: seq<Step>, i: nat, j: nat,
                                     key: bytes, token: nat)
    requires IsRun(digest, run, trace) && i < |trace| && Completes(run[i], trace[i], key, token)
    requires i < j < |run| && run[j].now < run[i].now + 86_400_000
    ensures key in run[j].store.byKey
    ensures var record, author := run[j].store.byKey[key], run[i].workers[trace[i].m.w];
      && record.completed && record.token == token && record.lease == run[i].now + 86_400_000
      && author.captured.Some? && record.result == Some(FromCaptured(author.id.fingerprint, author.captured.value))
    ensures forall w :: w in run[j].workers && run[j].workers[w].id.internalKey == key ==>
        !InFlight(run[j].workers[w].phase)
  {
    RunFinal(digest, run, trace, i);
    assert StepsTo(run[i], trace[i], run[i + 1]);
    CompletedRecordStands(digest, run, trace, i + 1, j, key);
  }

  // ---------- two runs in which a retry runs the mutation again ----------

  lemma Extend(digest: bytes -> bytes, run: seq<World>, trace: seq<Step>, step: Step)
    returns (run': seq<World>, trace': seq<Step>)
    requires IsRun(digest, run, trace) && Enabled(run[|trace|], step)
    requires step.Arrive? ==> step.id == Identify(digest, step.request)
    ensures IsRun(digest, run', trace') && trace' == trace + [step] && run' == run + [Do(run[|trace|], step)]
  {
    run', trace' := run + [Do(run[|trace|], step)], trace + [step];
    forall i | 0 <= i < |trace'| ensures StepsTo(run'[i], trace'[i], run'[i + 1]) {
      if i < |trace| { assert StepsTo(run[i], trace[i], run[i + 1]); }
    }
  }

  /** A request arrives, is granted its key, and forwards. */
  lemma FirstForwards(digest: bytes -> bytes, request: Request) returns (run: seq<World>, trace: seq<Step>)
    ensures IsRun(digest, run, trace) && |trace| == 3
    ensures var id := Identify(digest, request);
      run[3] == World(0, Claimed(Records(map[], 0), 0, id).0, map[0 := Worker(request, id, Forwarding(0, 0, 0), None)],
                      {}, map[0 := 0])
  {
    run, trace := [World(0, Records(map[], 0), map[], {}, map[])], [];
    run, trace := Extend(digest, run, trace, Arrive(0, request, Identify(digest, request)));
    run, trace := Extend(digest, run, trace, Deliver(ClaimMsg(0)));
    run, trace := Extend(digest, run, trace, Receive(0));
  }

  /** The same request comes again, as another worker, when its key is free. */
  lemma SecondForwards(digest: bytes -> bytes, request: Request, before: seq<World>, past: seq<Step>)
    returns (run: seq<World>, trace: seq<Step>)
    requires IsRun(digest, before, past) && 1 !in before[|past|].workers
    requires var s, key := before[|past|], Identify(digest, request).internalKey;
      key in s.store.byKey ==> s.store.byKey[key].lease <= s.now
    ensures IsRun(digest, run, trace) && |past| <= |trace| && (forall i :: 0 <= i < |before| ==> run[i] == before[i])
    ensures var s := run[|trace|]; 1 in s.workers && s.workers[1].request == request && s.workers[1].phase.Forwarding?
  {
    run, trace := Extend(digest, before, past, Arrive(1, request, Identify(digest, request)));
    run, trace := Extend(digest, run, trace, Deliver(ClaimMsg(1)));
    run, trace := Extend(digest, run, trace, Receive(1));
  }

  /** Two workers forward one request: the first run released its claim after a transient response. */
  lemma TransientResponseRunsAgain(digest: bytes -> bytes, request: Request, response: Captured)
    returns (run: seq<World>, trace: seq<Step>, i: nat)
    requires Transient(response.status)
    ensures IsRun(digest, run, trace) && i < |trace| && ForwardedTwice(run[i], run[|trace|], request)
  {
    run, trace := FirstForwards(digest, request);
    i := 3;
    run, trace := Extend(digest, run, trace, Respond(0, Some(response)));
    run, trace := Extend(digest, run, trace, Deliver(AbandonMsg(0, 0)));
    run, trace := SecondForwards(digest, request, run, trace);
  }

  /** ... and: its final response could not be recorded, and the lease lapsed. */
  lemma LostCompletionRunsAgain(digest: bytes -> bytes, request: Request, response: Captured)
    returns (run: seq<World>, trace: seq<Step>, i: nat)
    requires !Transient(response.status)
    ensures IsRun(digest, run, trace) && i < |trace| && ForwardedTwice(run[i], run[|trace|], request)
  {
    run, trace := FirstForwards(digest, request);
    i := 3;
    run, trace := Extend(digest, run, trace, Respond(0, Some(response)));
    run, trace := Extend(digest, run, trace, GiveUp(0));
    run, trace := Extend(digest, run, trace, Tick(INFLIGHT_LEASE_MS));
    run, trace := SecondForwards(digest, request, run, trace);
  }

  /** Once the store has dropped a lapsed record, the completion that arrives after all is not recorded. */
  lemma LateCompletionIsLost(digest: bytes -> bytes, request: Request, response: Captured)
    returns (run: seq<World>, trace: seq<Step>)
    requires !Transient(response.status)
    ensures IsRun(digest, run, trace) && |trace| > 0 && trace[|trace| - 1] == Deliver(CompleteMsg(0, 0))
    ensures 0 in run[|trace|].workers && run[|trace|].workers[0].captured == Some(response)
    ensures run[|trace|].store.byKey == map[]
  {
    run, trace := FirstForwards(digest, request);
    run, trace := Extend(digest, run, trace, Respond(0, Some(response)));
    run, trace := Extend(digest, run, trace, GiveUp(0));
    run, trace := Extend(digest, run, trace, Tick(INFLIGHT_LEASE_MS));
    run, trace := Extend(digest, run, trace, Lapse(Identify(digest, request).internalKey));
    run, trace := Extend(digest, run, trace, Deliver(CompleteMsg(0, 0)));
  }

  /** A mutation can be in flight for four hops of five seconds each. */
  lemma FlightLasts(digest: bytes -> bytes, request: Request) returns (run: seq<World>, trace: seq<Step>)
    ensures IsRun(digest, run, trace) && |trace| == 10
    ensures var s := run[|trace|];
      && run[3].now == 0 && 0 in run[3].workers && run[3].workers[0].phase == Forwarding(0, 0, 0)
      && s.now == 20_000 && 0 in s.workers && s.workers[0].request == request
      && s.workers[0].phase == Forwarding(0, 3, 15_000)
  {
    run, trace := FirstForwards(digest, request);
    for i := 0 to 3
      invariant IsRun(digest, run, trace) && |trace| == 3 + 2 * i
      invariant run[3].now == 0 && 0 in run[3].workers && run[3].workers[0].phase == Forwarding(0, 0, 0)
      invariant var s := run[|trace|];
        && s.now == 5000 * i && s.workers.Keys == {0} && s.workers[0].request == request
        && s.workers[0].phase == Forwarding(0, i, 5000 * i)
    {
      run, trace := Extend(digest, run, trace, Tick(5000));
      run, trace := Extend(digest, run, trace, Retry(0));
    }
    run, trace := Extend(digest, run, trace, Tick(5000));
  }

  /** Worker 0 forwards the request at one time, worker 1 the same request at a later one. */
  ghost predicate ForwardedTwice(s: World, t: World, request: Request) {
    && 0 in s.workers && s.workers[0].request == request && s.workers[0].phase.Forwarding?
    && 1 !in s.workers
    && 1 in t.workers && t.workers[1].request == request && t.workers[1].phase.Forwarding?
  }
}
