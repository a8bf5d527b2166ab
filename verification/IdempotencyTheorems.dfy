// What the idempotency protocol promises, over every timed run of any number of workers with crashes, lost
// replies, late deliveries and lapsing leases.
module IdempotencyTheorems {
  import opened Wrappers
  import opened Bytes
  import opened Limits
  import opened Hex
  import opened Digests
  import opened StoredResponse
  import opened RecordStore
  import opened IdempotencyProtocol
  import opened IdempotencySafety

  /** The worker forwards its mutation, or is still waiting for its completion to be recorded. */
  predicate InFlight(p: Phase) {
    p.Forwarding? || (p.Completing? && p.answer.None?)
  }

  /** Every worker is identified by the hash of its own request. */
  lemma {:induction false} RunIdentifies(digest: bytes -> bytes, run: seq<World>, trace: seq<Step>, i: nat)
    requires IsRun(digest, run, trace) && i < |run|
    ensures forall w :: w in run[i].workers ==> run[i].workers[w].id == Identify(digest, run[i].workers[w].request)
  {
    if i > 0 {
      RunIdentifies(digest, run, trace, i - 1);
      StepIdentifies(run[i - 1], trace[i - 1], run[i]);
    }
  }

  /** A step renames nobody: ids and requests stay, and an arriving worker has the step's. */
  lemma StepIdentifies(s: World, step: Step, t: World)
    requires StepsTo(s, step, t)
    ensures forall w :: w in t.workers ==>
              var worker := t.workers[w];
              if w in s.workers then worker.id == s.workers[w].id && worker.request == s.workers[w].request
              else step.Arrive? && worker.id == step.id && worker.request == step.request
  {
  }

  /** What a worker tells the store: the owner is the hashed scope of its org, the key the owner, a slash and the hashed
      customer key, and the fingerprint the hash of method, target, content type and body, each but the last followed by
      a zero byte. */
  lemma IdentifiedByHashes(digest: bytes -> bytes, run: seq<World>, trace: seq<Step>, i: nat, w: nat)
    requires IsRun(digest, run, trace) && i < |run| && w in run[i].workers
    ensures var request, id := run[i].workers[w].request, run[i].workers[w].id;
      var scope := if request.org.None? then Ascii("anonymous") else Ascii("org:") + request.org.value;
      var contentType := if request.contentType.None? then [] else request.contentType.value;
      && id.owner == Ascii("customer/") + Hexed(digest(scope))
      && id.internalKey == id.owner + Ascii("/") + Hexed(digest(request.customerKey))
      && id.fingerprint == Hexed(digest(
           request.method_ + [0] + (request.target + [0] + (contentType + [0] + request.body))))
  {
    RunIdentifies(digest, run, trace, i);
    RecordKeyIsOwners(digest, run[i].workers[w].request);
  }

  // ---------- exclusion ----------

  /** The claim's last hop and the mutation's hops have passed at most, and the completion's if that is where the worker
      is: 5 or 9 hops of 5 seconds of the 120. */
  lemma FlightHolds(s: World, w: nat)
    requires w in s.workers && WorkerInv(s, w) && InFlight(s.workers[w].phase)
    ensures OwnsToken(s, w, s.workers[w].phase.token)
    ensures Holds(s, w, s.workers[w].phase.token, s.now + if s.workers[w].phase.Forwarding? then 95_000 else 75_000)
  {
  }

  /** One claim covers its worker for the rest of the forward call and a whole complete call. */
  lemma LeaseOutlivesFlight(digest: bytes -> bytes, run: seq<World>, trace: seq<Step>, i: nat, w: nat)
    requires IsRun(digest, run, trace) && i < |run|
    requires w in run[i].workers && InFlight(run[i].workers[w].phase)
    ensures OwnsToken(run[i], w, run[i].workers[w].phase.token)
    ensures Holds(run[i], w, run[i].workers[w].phase.token,
                  run[i].now + if run[i].workers[w].phase.Forwarding? then 95_000 else 75_000)
  {
    RunKeeps(digest, run, trace, i);
    assert WorkerInv(run[i], w);
    FlightHolds(run[i], w);
  }

  /** At most one request of one customer for one key has its mutation in flight. */
  lemma OneMutationInFlight(digest: bytes -> bytes, run: seq<World>, trace: seq<Step>, i: nat, v: nat, w: nat)
    requires CollisionFree(digest) && IsRun(digest, run, trace) && i < |run|
    requires v in run[i].workers && InFlight(run[i].workers[v].phase)
    requires w in run[i].workers && InFlight(run[i].workers[w].phase)
    requires run[i].workers[v].request.org == run[i].workers[w].request.org
    requires run[i].workers[v].request.customerKey == run[i].workers[w].request.customerKey
    ensures v == w
  {
    LeaseOutlivesFlight(digest, run, trace, i, v);
    LeaseOutlivesFlight(digest, run, trace, i, w);
    RunIdentifies(digest, run, trace, i);
    InternalKeySeparatesCustomers(digest, run[i].workers[v].request, run[i].workers[w].request);
  }

  // ---------- fencing ----------

  /** The only ways a record changes or goes away: a complete or abandon by its own worker under its own token, while
      it is in flight, and, once its lease is over, its lapse or the next claim for its key. */
  ghost predicate LegalChange(s: World, step: Step, t: World, key: bytes)
    requires key in s.store.byKey
  {
    var record := s.store.byKey[key];
    if step.Deliver? && !step.m.ClaimMsg? then
      && OwnsToken(s, step.m.w, record.token) && step.m.token == record.token && !record.completed
      && step.m.w in s.workers && s.workers[step.m.w].id.internalKey == key
      && if step.m.AbandonMsg? then key !in t.store.byKey
         else key in t.store.byKey && t.store.byKey[key].token == record.token && t.store.byKey[key].completed
    else
      && record.lease <= s.now
      && if step.Deliver? then
           && step.m.w in s.workers && s.workers[step.m.w].id.internalKey == key
           && key in t.store.byKey && t.store.byKey[key].token == s.store.nextToken && !t.store.byKey[key].completed
         else step == Lapse(key)
  }

  lemma DeliveryFencing(s: World, m: Message, t: World, key: bytes)
    requires m in s.wire && MessageInv(s, m) && TokensInv(s) && key in s.store.byKey && RecordInv(s, key)
    requires StepsTo(s, Deliver(m), t)
    requires key !in t.store.byKey || t.store.byKey[key] != s.store.byKey[key]
    ensures LegalChange(s, Deliver(m), t, key)
  {
  }

  lemma StepFencing(s: World, step: Step, t: World, key: bytes)
    requires Inv(s) && StepsTo(s, step, t) && key in s.store.byKey
    requires key !in t.store.byKey || t.store.byKey[key] != s.store.byKey[key]
    ensures LegalChange(s, step, t, key)
  {
    assert RecordInv(s, key);
    if step.Deliver? {
      assert MessageInv(s, step.m);
      DeliveryFencing(s, step.m, t, key);
    }
  }

  /** In every run, a complete or abandon, however late, changes only the record that its own worker's claim created,
      while that record is in flight, lapsed or not; nobody else's step changes a record before its lease is over. */
  lemma Fencing(digest: bytes -> bytes, run: seq<World>, trace: seq<Step>, i: nat, key: bytes)
    requires IsRun(digest, run, trace) && i < |trace| && key in run[i].store.byKey
    requires key !in run[i + 1].store.byKey || run[i + 1].store.byKey[key] != run[i].store.byKey[key]
    ensures LegalChange(run[i], trace[i], run[i + 1], key)
  {
    RunKeeps(digest, run, trace, i);
    StepFencing(run[i], trace[i], run[i + 1], key);
  }

  // ---------- stickiness ----------

  lemma RecordedKeyIsNotInFlight(s: World, key: bytes)
    requires Inv(s) && key in s.store.byKey && s.store.byKey[key].completed
    ensures forall w :: w in s.workers && s.workers[w].id.internalKey == key ==> !InFlight(s.workers[w].phase)
  {
  }

  lemma {:induction false} RecordStands(digest: bytes -> bytes, run: seq<World>, trace: seq<Step>, i: nat, j: nat,
                                        key: bytes)
    requires IsRun(digest, run, trace) && i <= j < |run|
    requires key in run[i].store.byKey && run[i].store.byKey[key].completed
    requires run[j].now < run[i].store.byKey[key].lease
    ensures key in run[j].store.byKey && run[j].store.byKey[key] == run[i].store.byKey[key]
  {
    if i < j {
      assert StepsTo(run[j - 1], trace[j - 1], run[j]);
      ClockAdvances(run[j - 1], trace[j - 1], run[j]);
      RecordStands(digest, run, trace, i, j - 1, key);
      RunKeeps(digest, run, trace, j - 1);
      LiveRecordStands(run[j - 1], trace[j - 1], run[j], key);
    }
  }

  /** A completed record stands, unchanged, until its retention window is over; meanwhile no request with its
      key has a mutation in flight. */
  lemma CompletedRecordStands(digest: bytes -> bytes, run: seq<World>, trace: seq<Step>, i: nat, j: nat, key: bytes)
    requires IsRun(digest, run, trace) && i <= j < |run|
    requires key in run[i].store.byKey && run[i].store.byKey[key].completed
    requires run[j].now < run[i].store.byKey[key].lease
    ensures key in run[j].store.byKey && run[j].store.byKey[key] == run[i].store.byKey[key]
    ensures forall w :: w in run[j].workers && run[j].workers[w].id.internalKey == key ==>
        !InFlight(run[j].workers[w].phase)
  {
    RecordStands(digest, run, trace, i, j, key);
    RunKeeps(digest, run, trace, j);
    RecordedKeyIsNotInFlight(run[j], key);
  }

  lemma ClockAdvances(s: World, step: Step, t: World)
    requires StepsTo(s, step, t)
    ensures s.now <= t.now
  {
  }

  lemma LiveRecordStands(s: World, step: Step, t: World, key: bytes)
    requires Inv(s) && StepsTo(s, step, t)
    requires key in s.store.byKey && s.store.byKey[key].completed && s.now < s.store.byKey[key].lease
    ensures key in t.store.byKey && t.store.byKey[key] == s.store.byKey[key]
  {
    if key !in t.store.byKey || t.store.byKey[key] != s.store.byKey[key] {
      StepFencing(s, step, t, key);
    }
  }

  /** What a duplicate of a completed request is answered: exactly the recorded response if it asks for the same
      thing and the body was kept whole, a conflict if it asks for something else. */
  lemma CompletedRecordAnswers(digest: bytes -> bytes, run: seq<World>, trace: seq<Step>, i: nat, w: nat, now: nat)
    requires CollisionFree(digest) && IsRun(digest, run, trace) && i < |trace| && trace[i] == Deliver(ClaimMsg(w))
    requires w in run[i].workers && run[i].workers[w].phase.Claiming?
    requires var key := run[i].workers[w].id.internalKey;
      key in run[i].store.byKey && run[i].store.byKey[key].completed && run[i].now < run[i].store.byKey[key].lease
    requires forall v :: v in run[i].workers ==> NulFree(run[i].workers[v].request)
    ensures w in run[i + 1].workers && Answered(run[i + 1].workers[w].phase)
    ensures var author := Author(run[i], w);
      && author in run[i].workers && author != w && run[i].workers[author].captured.Some?
      && AfterReply(run[i + 1].workers[w], now) ==
           Done(if SamePayload(run[i].workers[author].request, run[i].workers[w].request)
                then ReplayOf(run[i].workers[author].captured.value) else Conflict)
  {
    RunKeeps(digest, run, trace, i);
    RunIdentifies(digest, run, trace, i);
    assert StepsTo(run[i], trace[i], run[i + 1]);
    ClaimMeetsCompleted(run[i], w, now);
    FingerprintSeparatesRequests(digest, run[i].workers[Author(run[i], w)].request, run[i].workers[w].request);
  }

  lemma ClaimMeetsCompleted(s: World, w: nat, now: nat)
    requires Inv(s) && ClaimMsg(w) in s.wire && w in s.workers && s.workers[w].phase.Claiming?
    requires var key := s.workers[w].id.internalKey;
      key in s.store.byKey && s.store.byKey[key].completed && s.now < s.store.byKey[key].lease
    ensures var author, t := Author(s, w), ClaimDelivered(s, w);
      && author in s.workers && author != w && s.workers[author].captured.Some? && Answered(t.workers[w].phase)
      && AfterReply(t.workers[w], now) ==
           Done(if s.workers[author].id.fingerprint == s.workers[w].id.fingerprint
                then ReplayOf(s.workers[author].captured.value) else Conflict)
  {
    var author := Author(s, w);
    assert RecordInv(s, s.workers[w].id.internalKey) && MessageInv(s, ClaimMsg(w));
    ReplayIsExact(s.workers[author].id.fingerprint, s.workers[author].captured.value);
  }

  /** The worker whose claim created the record that `w` runs into. */
  ghost function Author(s: World, w: nat): nat {
    if w in s.workers && s.workers[w].id.internalKey in s.store.byKey
       && s.store.byKey[s.workers[w].id.internalKey].token in s.issued
    then s.issued[s.store.byKey[s.workers[w].id.internalKey].token] else w
  }

  /** Nobody is ever replayed anything but the exact response to the same request of the same customer. */
  lemma ReplaysAreGenuine(digest: bytes -> bytes, run: seq<World>, trace: seq<Step>, i: nat, w: nat, r: Captured)
    returns (author: nat)
    requires CollisionFree(digest) && IsRun(digest, run, trace) && i < |run|
    requires w in run[i].workers && run[i].workers[w].phase == Done(Replayed(r))
    requires forall v :: v in run[i].workers ==> NulFree(run[i].workers[v].request)
    ensures author in run[i].workers && author != w
    ensures var original, copy := run[i].workers[author], run[i].workers[w];
      && original.request.org == copy.request.org && original.request.customerKey == copy.request.customerKey
      && SamePayload(original.request, copy.request)
      && original.captured.Some? && |original.captured.value.body| <= 32768
      && r.status == original.captured.value.status && r.body == original.captured.value.body
      && r.contentType == TextOnly(original.captured.value.contentType)
  {
    RunKeeps(digest, run, trace, i);
    RunIdentifies(digest, run, trace, i);
    assert WorkerInv(run[i], w);
    author :| ReplaysWorker(run[i], author, w, Replayed(r));
    InternalKeySeparatesCustomers(digest, run[i].workers[author].request, run[i].workers[w].request);
    FingerprintSeparatesRequests(digest, run[i].workers[author].request, run[i].workers[w].request);
  }

  // ---------- a crash does not poison the key ----------

  /** While a claim stays in flight its lease is not renewed. */
  lemma {:induction false} ClaimIsNotRenewed(digest: bytes -> bytes, run: seq<World>, trace: seq<Step>, i: nat, j: nat,
                                             key: bytes)
    requires IsRun(digest, run, trace) && i <= j < |run|
    requires key in run[i].store.byKey && key in run[j].store.byKey
    requires run[j].store.byKey[key].token == run[i].store.byKey[key].token && !run[j].store.byKey[key].completed
    ensures run[j].store.byKey[key] == run[i].store.byKey[key]
    decreases j - i
  {
    if i < j {
      TokenIsOld(digest, run, trace, i, j - 1, key);
      assert StepsTo(run[j - 1], trace[j - 1], run[j]);
      KeepsTokenAndFlight(run[j - 1], trace[j - 1], run[j], key, run[i].store.byKey[key].token);
      ClaimIsNotRenewed(digest, run, trace, i, j - 1, key);
    }
  }

  lemma {:induction false} TokenIsOld(digest: bytes -> bytes, run: seq<World>, trace: seq<Step>, i: nat, j: nat,
                                      key: bytes)
    requires IsRun(digest, run, trace) && i <= j < |run| && key in run[i].store.byKey
    ensures run[i].store.byKey[key].token < run[j].store.nextToken
  {
    if i < j {
      TokenIsOld(digest, run, trace, i, j - 1, key);
      assert StepsTo(run[j - 1], trace[j - 1], run[j]);
      TokensAdvance(run[j - 1], trace[j - 1], run[j]);
    } else {
      RunKeeps(digest, run, trace, i);
      assert RecordInv(run[i], key);
    }
  }

  lemma TokensAdvance(s: World, step: Step, t: World)
    requires StepsTo(s, step, t)
    ensures s.store.nextToken <= t.store.nextToken
  {
  }

  /** A record in flight under an old token was there, the same, one step before. */
  lemma KeepsTokenAndFlight(s: World, step: Step, t: World, key: bytes, token: nat)
    requires StepsTo(s, step, t) && token < s.store.nextToken
    requires key in t.store.byKey && t.store.byKey[key].token == token && !t.store.byKey[key].completed
    ensures key in s.store.byKey && s.store.byKey[key] == t.store.byKey[key]
  {
  }

  /** Whatever became of the worker, two minutes later the next claim for an uncompleted key is granted. */
  lemma CrashFreesKey(digest: bytes -> bytes, run: seq<World>, trace: seq<Step>, i: nat, j: nat, w: nat)
    requires IsRun(digest, run, trace) && i <= j < |trace| && trace[j] == Deliver(ClaimMsg(w))
    requires w in run[j].workers && run[j].workers[w].phase.Claiming?
    requires run[i].now + 120_000 <= run[j].now
    requires var key := run[j].workers[w].id.internalKey;
      key in run[i].store.byKey
      && (key in run[j].store.byKey ==>
            run[j].store.byKey[key].token == run[i].store.byKey[key].token && !run[j].store.byKey[key].completed)
    ensures w in run[j + 1].workers && Answered(run[j + 1].workers[w].phase)
    ensures AfterReply(run[j + 1].workers[w], run[j + 1].now) == Forwarding(run[j].store.nextToken, 0, run[j + 1].now)
  {
    var key := run[j].workers[w].id.internalKey;
    assert StepsTo(run[j], trace[j], run[j + 1]);
    if key in run[j].store.byKey {
      ClaimIsNotRenewed(digest, run, trace, i, j, key);
      RunKeeps(digest, run, trace, i);
      assert RecordInv(run[i], key);
    }
  }
}
