// Every step of the idempotency protocol keeps the invariant.
module IdempotencySafety {
  import opened Wrappers
  import opened Bytes
  import opened Limits
  import opened Digests
  import opened StoredResponse
  import opened RecordStore
  import opened IdempotencyProtocol

  // ---------- framing ----------

  /** Workers and tokens are only added, and what is known about a worker stays. */
  ghost predicate Grows(s: World, t: World) {
    && s.now <= t.now
    && (forall w :: w in s.workers ==>
          w in t.workers && t.workers[w].id == s.workers[w].id && t.workers[w].request == s.workers[w].request
          && (s.workers[w].captured.Some? ==> t.workers[w].captured == s.workers[w].captured))
    && (forall k :: k in s.issued ==> k in t.issued && t.issued[k] == s.issued[k])
  }

  /** Nothing that worker `w` relies on was touched. */
  ghost predicate Undisturbed(s: World, t: World, w: nat) {
    && w in s.workers && w in t.workers && t.workers[w] == s.workers[w]
    && (forall m: Message :: m.w == w ==> (m in t.wire <==> m in s.wire))
    && (t.now == s.now || (Waiting(s.workers[w].phase) ==> t.now <= s.workers[w].phase.since + HOP_TIMEOUT_MS))
    && var key := s.workers[w].id.internalKey;
       key in s.store.byKey && OwnsToken(s, w, s.store.byKey[key].token)
       && !s.store.byKey[key].completed && s.now < s.store.byKey[key].lease
       ==> key in t.store.byKey && t.store.byKey[key] == s.store.byKey[key]
  }

  lemma WorkerFrame(s: World, t: World, w: nat)
    requires Grows(s, t) && Undisturbed(s, t, w) && WorkerInv(s, w)
    ensures WorkerInv(t, w)
  {
    match s.workers[w].phase
    case Claiming(_, since, output) =>
      if output.Some? && !output.value.claimed {
        var view := output.value.record.value;
        var author :| author != w && ViewOf(s, author, s.workers[w].id.internalKey, view);
        assert ViewOf(t, author, t.workers[w].id.internalKey, view);
      }
    case Done(reply) =>
      if reply.Replayed? || reply.ReplayUnavailable? {
        var author :| ReplaysWorker(s, author, w, reply);
        assert ReplaysWorker(t, author, w, reply);
      }
    case _ =>
  }

  lemma RecordFrame(s: World, t: World, key: bytes)
    requires Grows(s, t) && key in s.store.byKey && RecordInv(s, key)
    requires key in t.store.byKey && t.store.byKey[key] == s.store.byKey[key]
    requires s.store.byKey[key].completed && s.store.byKey[key].token in s.issued ==>
      var m := CompleteMsg(s.issued[s.store.byKey[key].token], s.store.byKey[key].token);
      m in t.wire ==> m in s.wire
    ensures RecordInv(t, key)
  {
  }

  /** Everybody but worker `w` is undisturbed. */
  lemma OthersKeep(s: World, t: World, w: nat)
    requires WorkersInv(s) && Grows(s, t)
    requires forall v :: v in t.workers && v != w ==> Undisturbed(s, t, v)
    requires w in t.workers ==> WorkerInv(t, w)
    ensures WorkersInv(t)
  {
    forall v | v in t.workers && v != w ensures WorkerInv(t, v) {
      WorkerFrame(s, t, v);
    }
  }

  lemma OtherMessagesKeep(s: World, t: World, w: nat)
    requires MessagesInv(s) && Grows(s, t)
    requires forall v :: v in s.workers && v != w ==> v in t.workers && t.workers[v] == s.workers[v]
    requires forall m :: m in t.wire ==> m in s.wire || m.w == w
    requires forall k :: k in t.issued && k !in s.issued ==> t.issued[k] == w
    requires forall m :: m in t.wire && m.w == w ==> MessageInv(t, m)
    ensures MessagesInv(t)
  {
  }

  /** The records are the same, and nobody is about to complete one a second time. */
  lemma RecordsKeep(s: World, t: World)
    requires RecordsInv(s) && Grows(s, t) && t.store.byKey == s.store.byKey
    requires forall m, key ::
      m in t.wire && m !in s.wire && m.CompleteMsg? && key in s.store.byKey && s.store.byKey[key].token == m.token ==>
               !s.store.byKey[key].completed
    ensures RecordsInv(t)
  {
  }

  // ---------- one lemma per step ----------

  lemma ArriveKeeps(s: World, w: nat, request: Request, id: Identity)
    requires Inv(s) && w !in s.workers
    ensures Inv(Arrived(s, w, request, id))
  {
    var t := Arrived(s, w, request, id);
    assert forall m :: m in s.wire ==> MessageInv(s, m);
    assert forall k :: k in t.issued ==> t.issued[k] != w;
    OthersKeep(s, t, w);
    OtherMessagesKeep(s, t, w);
    RecordsKeep(s, t);
  }

  /** A step that only moves worker `w` to a later phase and at most drops its messages. */
  ghost predicate Moves(s: World, t: World, w: nat) {
    && w in s.workers && w in t.workers
    && t == s.(wire := t.wire, workers := s.workers[w := s.workers[w].(phase := t.workers[w].phase)])
    && t.wire <= s.wire && forall m :: m in s.wire && m.w != w ==> m in t.wire
  }

  lemma MovesKeepsWorkers(s: World, t: World, w: nat)
    requires WorkersInv(s) && Moves(s, t, w) && WorkerInv(t, w)
    ensures WorkersInv(t)
  {
    OthersKeep(s, t, w);
  }

  lemma MovesKeepsMessages(s: World, t: World, w: nat)
    requires MessagesInv(s) && Moves(s, t, w)
    requires forall m :: m in t.wire && m.w == w ==> MessageInv(t, m)
    ensures MessagesInv(t)
  {
  }

  lemma MovesKeepsRecords(s: World, t: World, w: nat)
    requires RecordsInv(s) && Moves(s, t, w)
    ensures RecordsInv(t)
  {
  }

  lemma PhaseKeeps(s: World, t: World, w: nat)
    requires Inv(s) && Moves(s, t, w)
    requires WorkerInv(t, w)
    requires forall m :: m in t.wire && m.w == w ==> MessageInv(t, m)
    ensures Inv(t)
  {
    MovesKeepsWorkers(s, t, w);
    MovesKeepsMessages(s, t, w);
    MovesKeepsRecords(s, t, w);
  }

  /** One more hop costs the claim's lease at most one hop timeout. */
  lemma RetryingWorkerKeeps(s: World, w: nat)
    requires w in s.workers && WorkerInv(s, w) && Waiting(s.workers[w].phase) && !Answered(s.workers[w].phase)
    requires s.workers[w].phase.hop + 1 < MAX_HOPS
    ensures WorkerInv(SetPhase(s, w, NextHop(s.workers[w].phase, s.now)), w)
  {
  }

  lemma RetryingMessagesKeep(s: World, w: nat)
    requires Inv(s) && w in s.workers && Waiting(s.workers[w].phase) && !Answered(s.workers[w].phase)
    ensures forall m :: m in s.wire && m.w == w ==> MessageInv(SetPhase(s, w, NextHop(s.workers[w].phase, s.now)), m)
  {
  }

  lemma RetryKeeps(s: World, w: nat)
    requires Inv(s) && w in s.workers && Waiting(s.workers[w].phase) && !Answered(s.workers[w].phase)
    requires s.workers[w].phase.hop + 1 < MAX_HOPS
    ensures Inv(SetPhase(s, w, NextHop(s.workers[w].phase, s.now)))
  {
    RetryingWorkerKeeps(s, w);
    RetryingMessagesKeep(s, w);
    PhaseKeeps(s, SetPhase(s, w, NextHop(s.workers[w].phase, s.now)), w);
  }

  lemma FailureKeeps(s: World, w: nat, t: World)
    requires Inv(s) && w in s.workers && Waiting(s.workers[w].phase) && !s.workers[w].phase.Forwarding?
    requires t == SetPhase(s, w, AfterFailure(s.workers[w], s.now)).(wire := t.wire)
    requires t.wire <= s.wire && forall m :: m in s.wire && m.w != w ==> m in t.wire
    ensures Inv(t)
  {
    assert WorkerInv(s, w);
    assert t.workers[w].phase.Done?;
    forall m | m in t.wire && m.w == w ensures MessageInv(t, m) {
      assert MessageInv(s, m);
    }
    PhaseKeeps(s, t, w);
  }

  lemma CrashKeeps(s: World, w: nat)
    requires Inv(s) && w in s.workers
    ensures Inv(SetPhase(s, w, Crashed))
  {
    var t := SetPhase(s, w, Crashed);
    assert WorkerInv(s, w);
    forall m | m in t.wire && m.w == w ensures MessageInv(t, m) {
      assert MessageInv(s, m);
    }
    PhaseKeeps(s, t, w);
  }

  lemma ReceiveKeeps(s: World, w: nat)
    requires Inv(s) && w in s.workers && Answered(s.workers[w].phase)
    ensures Inv(SetPhase(s, w, AfterReply(s.workers[w], s.now)))
  {
    var t := SetPhase(s, w, AfterReply(s.workers[w], s.now));
    var worker := s.workers[w];
    assert WorkerInv(s, w);
    if worker.phase.Claiming? && !worker.phase.output.value.claimed {
      var output := worker.phase.output.value;
      var author :| author != w && ViewOf(s, author, worker.id.internalKey, output.record.value);
      var reply := DuplicateReply(worker.id.fingerprint, output).value;
      if reply.Replayed? || reply.ReplayUnavailable? {
        ReplayIsExact(worker.id.fingerprint, s.workers[author].captured.value);
        assert ReplaysWorker(t, author, w, reply);
      }
    }
    forall m | m in t.wire && m.w == w ensures MessageInv(t, m) {
      assert MessageInv(s, m);
    }
    PhaseKeeps(s, t, w);
  }

  /** A finished worker's verdict rests on another worker, whose request and response stay. */
  lemma VerdictFrame(s: World, t: World, w: nat)
    requires Grows(s, t) && w in s.workers && WorkerInv(s, w) && !Waiting(s.workers[w].phase)
    requires t.workers[w] == s.workers[w]
    ensures WorkerInv(t, w)
  {
    if s.workers[w].phase.Done? && (s.workers[w].phase.reply.Replayed? || s.workers[w].phase.reply.ReplayUnavailable?) {
      var author :| ReplaysWorker(s, author, w, s.workers[w].phase.reply);
      assert ReplaysWorker(t, author, w, s.workers[w].phase.reply);
    }
  }

  /** A worker that forwards its mutation has nothing on the wire. */
  lemma ForwarderIsSilent(s: World, w: nat)
    requires MessagesInv(s) && w in s.workers && s.workers[w].phase.Forwarding?
    ensures forall m :: m in s.wire ==> m.w != w
  {
    forall m | m in s.wire ensures m.w != w {
      assert MessageInv(s, m);
    }
  }

  /** Completing or abandoning starts with the claim's lease still far away. */
  lemma RespondingWorkerKeeps(s: World, w: nat, captured: Option<Captured>)
    requires w in s.workers && WorkerInv(s, w) && s.workers[w].phase.Forwarding?
    requires forall m :: m in s.wire ==> m.w != w
    ensures WorkerInv(Responded(s, w, captured), w)
    ensures forall m :: m in Responded(s, w, captured).wire && m.w == w ==> MessageInv(Responded(s, w, captured), m)
  {
  }

  /** The complete message that goes out is for a record still in flight. */
  lemma RespondSendsForLiveRecord(s: World, w: nat, captured: Option<Captured>)
    requires Inv(s) && w in s.workers && s.workers[w].phase.Forwarding?
    ensures forall key :: key in s.store.byKey && s.store.byKey[key].token == s.workers[w].phase.token ==>
        !s.store.byKey[key].completed
  {
  }

  lemma RespondKeepsWorkers(s: World, w: nat, captured: Option<Captured>)
    requires WorkersInv(s) && w in s.workers && s.workers[w].phase.Forwarding? && s.workers[w].captured.None?
    requires WorkerInv(Responded(s, w, captured), w)
    ensures WorkersInv(Responded(s, w, captured))
  {
    OthersKeep(s, Responded(s, w, captured), w);
  }

  lemma RespondKeepsMessages(s: World, w: nat, captured: Option<Captured>)
    requires MessagesInv(s) && w in s.workers && s.workers[w].phase.Forwarding? && s.workers[w].captured.None?
    requires forall m :: m in Responded(s, w, captured).wire && m.w == w ==> MessageInv(Responded(s, w, captured), m)
    ensures MessagesInv(Responded(s, w, captured))
  {
  }

  lemma RespondKeeps(s: World, w: nat, captured: Option<Captured>)
    requires Inv(s) && w in s.workers && s.workers[w].phase.Forwarding?
    ensures Inv(Responded(s, w, captured))
  {
    assert s.workers[w].captured.None? by { assert WorkerInv(s, w); }
    ForwarderIsSilent(s, w);
    RespondingWorkerKeeps(s, w, captured);
    RespondSendsForLiveRecord(s, w, captured);
    RespondKeepsWorkers(s, w, captured);
    RespondKeepsMessages(s, w, captured);
    RecordsKeep(s, Responded(s, w, captured));
  }

  // ---------- deliveries ----------

  /** A record of somebody else's live claim is not taken over, and no other record changes. */
  lemma ClaimDisturbsNobody(s: World, w: nat)
    requires Inv(s) && ClaimMsg(w) in s.wire && w in s.workers
    ensures Grows(s, ClaimDelivered(s, w))
    ensures forall v :: v in s.workers && v != w ==> Undisturbed(s, ClaimDelivered(s, w), v)
  {
    var t := ClaimDelivered(s, w);
    forall v | v in s.workers && v != w ensures Undisturbed(s, t, v) {
      assert WorkerInv(s, v);
    }
  }

  lemma ClaimingWorkerKeeps(s: World, w: nat)
    requires Inv(s) && ClaimMsg(w) in s.wire && w in s.workers
    ensures WorkerInv(ClaimDelivered(s, w), w)
  {
    var t := ClaimDelivered(s, w);
    var worker := s.workers[w];
    assert WorkerInv(s, w) && MessageInv(s, ClaimMsg(w));
    ClaimDisturbsNobody(s, w);
    if !worker.phase.Claiming? {
      VerdictFrame(s, t, w);
    } else {
      var key := worker.id.internalKey;
      var output := Claimed(s.store, s.now, worker.id).1;
      if !output.claimed {
        assert RecordInv(s, key);
        var author := s.issued[s.store.byKey[key].token];
        assert author != w && ViewOf(t, author, key, output.record.value);
      }
    }
  }

  lemma DeliverClaimKeeps(s: World, w: nat)
    requires Inv(s) && ClaimMsg(w) in s.wire && w in s.workers
    ensures Inv(ClaimDelivered(s, w))
  {
    var t := ClaimDelivered(s, w);
    ClaimDisturbsNobody(s, w);
    ClaimingWorkerKeeps(s, w);
    OthersKeep(s, t, w);
    ClaimLeavesNoMessage(s, w);
    OtherMessagesKeep(s, t, w);
    ClaimKeepsTokens(s, w);
    forall k | k in t.store.byKey ensures RecordInv(t, k) {
      ClaimedRecordKeeps(s, w, k);
    }
  }

  lemma ClaimLeavesNoMessage(s: World, w: nat)
    requires Inv(s) && ClaimMsg(w) in s.wire && w in s.workers
    ensures forall m :: m in ClaimDelivered(s, w).wire ==> m.w != w
  {
  }

  lemma ClaimKeepsTokens(s: World, w: nat)
    requires Inv(s) && ClaimMsg(w) in s.wire && w in s.workers
    ensures TokensInv(ClaimDelivered(s, w))
  {
  }

  lemma ClaimedRecordKeeps(s: World, w: nat, key: bytes)
    requires Inv(s) && ClaimMsg(w) in s.wire && w in s.workers && key in ClaimDelivered(s, w).store.byKey
    ensures RecordInv(ClaimDelivered(s, w), key)
  {
    var t := ClaimDelivered(s, w);
    ClaimDisturbsNobody(s, w);
    if key in s.store.byKey && t.store.byKey[key] == s.store.byKey[key] {
      assert RecordInv(s, key);
      RecordFrame(s, t, key);
    } else {
      assert key == s.workers[w].id.internalKey;
      assert ViewOf(t, w, key, View(t.store.byKey[key]));
    }
  }

  lemma CompleteDisturbsNobody(s: World, w: nat, token: nat)
    requires Inv(s) && CompleteMsg(w, token) in s.wire && w in s.workers
    ensures Grows(s, CompleteDelivered(s, w, token))
    ensures forall v :: v in s.workers && v != w ==> Undisturbed(s, CompleteDelivered(s, w, token), v)
  {
    var t := CompleteDelivered(s, w, token);
    assert MessageInv(s, CompleteMsg(w, token));
    forall v | v in s.workers && v != w ensures Undisturbed(s, t, v) {
      assert WorkerInv(s, v);
    }
  }

  lemma CompletingWorkerKeeps(s: World, w: nat, token: nat)
    requires Inv(s) && CompleteMsg(w, token) in s.wire && w in s.workers
    ensures WorkerInv(CompleteDelivered(s, w, token), w)
  {
    var t := CompleteDelivered(s, w, token);
    var worker := s.workers[w];
    assert WorkerInv(s, w) && MessageInv(s, CompleteMsg(w, token));
    CompleteDisturbsNobody(s, w, token);
    if !worker.phase.Completing? {
      VerdictFrame(s, t, w);
    } else {
      assert RecordInv(s, worker.id.internalKey);
    }
  }

  lemma CompleteLeavesNoMessage(s: World, w: nat, token: nat)
    requires Inv(s) && CompleteMsg(w, token) in s.wire && w in s.workers
    ensures forall m :: m in CompleteDelivered(s, w, token).wire ==> m.w != w
  {
  }

  lemma DeliverCompleteKeeps(s: World, w: nat, token: nat)
    requires Inv(s) && CompleteMsg(w, token) in s.wire && w in s.workers
    ensures Inv(CompleteDelivered(s, w, token))
  {
    var t := CompleteDelivered(s, w, token);
    CompleteDisturbsNobody(s, w, token);
    CompletingWorkerKeeps(s, w, token);
    OthersKeep(s, t, w);
    CompleteLeavesNoMessage(s, w, token);
    OtherMessagesKeep(s, t, w);
    forall k | k in t.store.byKey ensures RecordInv(t, k) {
      CompletedRecordKeeps(s, w, token, k);
    }
  }

  lemma CompletedRecordKeeps(s: World, w: nat, token: nat, key: bytes)
    requires Inv(s) && CompleteMsg(w, token) in s.wire && w in s.workers && key in s.store.byKey
    ensures RecordInv(CompleteDelivered(s, w, token), key)
  {
  }

  lemma AbandonDisturbsNobody(s: World, w: nat, token: nat)
    requires Inv(s) && AbandonMsg(w, token) in s.wire && w in s.workers
    ensures Grows(s, AbandonDelivered(s, w, token))
    ensures forall v :: v in s.workers && v != w ==> Undisturbed(s, AbandonDelivered(s, w, token), v)
  {
    var t := AbandonDelivered(s, w, token);
    assert MessageInv(s, AbandonMsg(w, token));
    forall v | v in s.workers && v != w ensures Undisturbed(s, t, v) {
      assert WorkerInv(s, v);
    }
  }

  lemma AbandoningWorkerKeeps(s: World, w: nat, token: nat)
    requires Inv(s) && AbandonMsg(w, token) in s.wire && w in s.workers
    ensures WorkerInv(AbandonDelivered(s, w, token), w)
    ensures forall m :: m in AbandonDelivered(s, w, token).wire && m.w == w ==>
        MessageInv(AbandonDelivered(s, w, token), m)
  {
    var t := AbandonDelivered(s, w, token);
    AbandonDisturbsNobody(s, w, token);
    assert WorkerInv(s, w) && MessageInv(s, AbandonMsg(w, token));
    if !s.workers[w].phase.Abandoning? {
      VerdictFrame(s, t, w);
    }
    forall m | m in t.wire && m.w == w ensures MessageInv(t, m) {
      assert MessageInv(s, m);
    }
  }

  lemma DeliverAbandonKeeps(s: World, w: nat, token: nat)
    requires Inv(s) && AbandonMsg(w, token) in s.wire && w in s.workers
    ensures Inv(AbandonDelivered(s, w, token))
  {
    var t := AbandonDelivered(s, w, token);
    AbandonDisturbsNobody(s, w, token);
    AbandoningWorkerKeeps(s, w, token);
    OthersKeep(s, t, w);
    OtherMessagesKeep(s, t, w);
    forall k | k in t.store.byKey ensures RecordInv(t, k) {
      assert RecordInv(s, k);
      RecordFrame(s, t, k);
    }
  }

  lemma LapseKeeps(s: World, key: bytes)
    requires Inv(s) && key in s.store.byKey && s.store.byKey[key].lease <= s.now
    ensures Inv(s.(store := s.store.(byKey := s.store.byKey - {key})))
  {
    var t := s.(store := s.store.(byKey := s.store.byKey - {key}));
    forall v | v in t.workers ensures WorkerInv(t, v) { WorkerFrame(s, t, v); }
    forall m | m in t.wire ensures MessageInv(t, m) { assert MessageInv(s, m); }
    forall k | k in t.store.byKey ensures RecordInv(t, k) { assert RecordInv(s, k); RecordFrame(s, t, k); }
  }

  lemma TickKeeps(s: World, d: nat)
    requires Inv(s)
    requires forall w :: w in s.workers && Waiting(s.workers[w].phase) ==>
        s.now + d <= s.workers[w].phase.since + HOP_TIMEOUT_MS
    ensures Inv(s.(now := s.now + d))
  {
    var t := s.(now := s.now + d);
    forall v | v in t.workers ensures WorkerInv(t, v) { WorkerFrame(s, t, v); }
    forall m | m in t.wire ensures MessageInv(t, m) { assert MessageInv(s, m); }
    RecordsKeep(s, t);
  }

  lemma StepKeeps(s: World, step: Step)
    requires Inv(s) && Enabled(s, step)
    ensures Inv(Do(s, step))
  {
    match step
    case Arrive(w, request, id) => ArriveKeeps(s, w, request, id);
    case Retry(w) => RetryKeeps(s, w);
    case Exhaust(w) =>
      if s.workers[w].phase.Forwarding? {
        RespondKeeps(s, w, Some(NO_LEADER));
      } else {
        FailureKeeps(s, w, Do(s, step));
      }
    case GiveUp(w) => FailureKeeps(s, w, Do(s, step));
    case Respond(w, captured) => RespondKeeps(s, w, captured);
    case Receive(w) => ReceiveKeeps(s, w);
    case Crash(w) => CrashKeeps(s, w);
    case Deliver(m) =>
      match m {
        case ClaimMsg(w) => DeliverClaimKeeps(s, w);
        case CompleteMsg(w, token) => DeliverCompleteKeeps(s, w, token);
        case AbandonMsg(w, token) => DeliverAbandonKeeps(s, w, token);
      }
    case Lapse(key) => LapseKeeps(s, key);
    case Tick(d) => TickKeeps(s, d);
  }

  lemma {:induction false} RunKeeps(digest: bytes -> bytes, run: seq<World>, trace: seq<Step>, i: nat)
    requires IsRun(digest, run, trace) && i < |run|
    ensures Inv(run[i])
  {
    if i > 0 {
      RunKeeps(digest, run, trace, i - 1);
      assert StepsTo(run[i - 1], trace[i - 1], run[i]);
      StepKeeps(run[i - 1], trace[i - 1]);
    }
  }
}
