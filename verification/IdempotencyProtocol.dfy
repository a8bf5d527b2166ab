// The customer idempotency protocol as a timed step system (src/proxy.rs): any number of workers, each one
// request, run claim -> forward -> capture -> complete or abandon against one shared record store.
//
// A forward call has at most one send that may have been applied (ForwardRun.AtMostOneApplied), so a worker puts
// one message per call on the wire; every such call is a path of these steps (ForwardSteps.CallIsPath). The store
// may apply the message at any time, even after the worker gave up or crashed, or never; a hop that ended in NotLeader
// or NotSent applied nothing. Each hop is bounded by the 5-second client timeout; the clock cannot pass a waiting
// worker's deadline.
module IdempotencyProtocol {
  import opened Wrappers
  import opened Bytes
  import opened Limits
  import opened Digests
  import opened StoredResponse
  import opened RecordStore

  datatype Phase =
    | Claiming(hop: nat, since: nat, output: Option<ClaimOutput>)
    | Forwarding(token: nat, hop: nat, since: nat)
    | Completing(token: nat, hop: nat, since: nat, answer: Option<bool>)
    | Abandoning(token: nat, hop: nat, since: nat, reply: Reply, answered: bool)
    | Done(reply: Reply)
    | Crashed

  /** `captured` remembers the upstream response once the mutation's response has been buffered. */
  datatype Worker = Worker(request: Request, id: Identity, phase: Phase, captured: Option<Captured>)

  datatype Message =
    | ClaimMsg(w: nat)
    | CompleteMsg(w: nat, token: nat)
    | AbandonMsg(w: nat, token: nat)

  /** `issued` is history: which worker's claim was given each fencing token. */
  datatype World = World(
    now: nat, store: Records, workers: map<nat, Worker>, wire: set<Message>,
    issued: map<nat, nat>)

  datatype Step =
    | Arrive(w: nat, request: Request, id: Identity)
    | Retry(w: nat)                                // NotLeader or NotSent, another hop is left
    | Exhaust(w: nat)                              // NotLeader or NotSent, no hop or no node is left
    | GiveUp(w: nat)                               // ambiguous, oversized, error or undecodable reply
    | Respond(w: nat, captured: Option<Captured>)  // the mutation's response; None: too large to buffer
    | Receive(w: nat)                              // the store's reply arrives
    | Crash(w: nat)
    | Deliver(m: Message)                          // the store applies a message
    | Lapse(key: bytes)                            // the store drops a record past its lease
    | Tick(d: nat)

  // ---------- the pieces of a step ----------

  function Identify(digest: bytes -> bytes, r: Request): Identity {
    Identity(InternalKey(digest, r), Owner(digest, r), Fingerprint(digest, r))
  }

  /** The message of the forward call a worker is in; forwarding the mutation is not a store message. */
  function Pending(w: nat, p: Phase): Option<Message> {
    match p
    case Claiming(_, _, _) => Some(ClaimMsg(w))
    case Completing(t, _, _, _) => Some(CompleteMsg(w, t))
    case Abandoning(t, _, _, _, _) => Some(AbandonMsg(w, t))
    case _ => None
  }

  predicate Waiting(p: Phase) {
    p.Claiming? || p.Forwarding? || p.Completing? || p.Abandoning?
  }

  predicate Answered(p: Phase) {
    (p.Claiming? && p.output.Some?) || (p.Completing? && p.answer.Some?) || (p.Abandoning? && p.answered)
  }

  function NextHop(p: Phase, now: nat): Phase
    requires Waiting(p)
  {
    match p
    case Claiming(h, _, o) => Claiming(h + 1, now, o)
    case Forwarding(t, h, _) => Forwarding(t, h + 1, now)
    case Completing(t, h, _, a) => Completing(t, h + 1, now, a)
    case Abandoning(t, h, _, r, a) => Abandoning(t, h + 1, now, r, a)
  }

  /** The 502 that a forward call without a leader answers. */
  const NO_LEADER: Captured := Captured(502, None, [])

  /** `route_with_customer_idempotency` after the claim's reply. */
  function AfterClaim(id: Identity, output: ClaimOutput, now: nat): Phase {
    match DuplicateReply(id.fingerprint, output)
    case Some(reply) => Done(reply)
    case None =>
      match output.fencingToken
      case None => Done(Unavailable)
      case Some(token) => Forwarding(token, 0, now)
  }

  /** ... and after the mutation's response. */
  function AfterResponse(token: nat, captured: Option<Captured>, now: nat): Phase {
    match captured
    case None => Abandoning(token, 0, now, CaptureTooLarge, false)
    case Some(c) =>
      if Cacheable(c.status) then Completing(token, 0, now, None)
      else Abandoning(token, 0, now, FromUpstream(c, NotStored), false)
  }

  /** The response a completing worker answers. */
  function Answer(w: Worker): Captured {
    if w.captured.Some? then w.captured.value else NO_LEADER
  }

  /** The forward call failed without a usable reply. */
  function AfterFailure(w: Worker, now: nat): Phase
    requires Waiting(w.phase) && !w.phase.Forwarding?
  {
    match w.phase
    case Claiming(_, _, _) => Done(Unavailable)
    case Completing(_, _, _, _) => Done(FromUpstream(Answer(w), StoreFailed))
    case Abandoning(_, _, _, reply, _) => Done(reply)
  }

  function AfterReply(w: Worker, now: nat): Phase
    requires Answered(w.phase)
  {
    match w.phase
    case Claiming(_, _, output) => AfterClaim(w.id, output.value, now)
    case Completing(_, _, _, answer) =>
      Done(FromUpstream(Answer(w), if answer.value then IsStored else StoreFailed))
    case Abandoning(_, _, _, reply, _) => Done(reply)
  }

  function SetPhase(s: World, w: nat, p: Phase): World
    requires w in s.workers
  {
    s.(workers := s.workers[w := s.workers[w].(phase := p)])
  }

  /** The worker got its mutation's response; completing or abandoning starts with a message. */
  function Responded(s: World, w: nat, captured: Option<Captured>): World
    requires w in s.workers && s.workers[w].phase.Forwarding?
  {
    var p := AfterResponse(s.workers[w].phase.token, captured, s.now);
    s.(workers := s.workers[w := s.workers[w].(phase := p, captured := captured)],
       wire := s.wire + {Pending(w, p).value})
  }

  function Arrived(s: World, w: nat, request: Request, id: Identity): World {
    s.(workers := s.workers[w := Worker(request, id, Claiming(0, s.now, None), None)], wire := s.wire + {ClaimMsg(w)})
  }

  /** The reply reaches the worker if it still waits for one. */
  function ClaimDelivered(s: World, w: nat): World
    requires w in s.workers
  {
    var worker := s.workers[w];
    var (store, output) := Claimed(s.store, s.now, worker.id);
    s.(store := store, wire := s.wire - {ClaimMsg(w)},
       issued := if output.claimed then s.issued[s.store.nextToken := w] else s.issued,
       workers := if !worker.phase.Claiming? then s.workers
                  else s.workers[w := worker.(phase := worker.phase.(output := Some(output)))])
  }

  function CompleteDelivered(s: World, w: nat, token: nat): World
    requires w in s.workers
  {
    var worker := s.workers[w];
    var result := FromCaptured(worker.id.fingerprint, Answer(worker));
    var (store, done) := Completed(s.store, s.now, worker.id, token, result);
    s.(store := store, wire := s.wire - {CompleteMsg(w, token)},
       workers := if !worker.phase.Completing? then s.workers
                  else s.workers[w := worker.(phase := worker.phase.(answer := Some(done)))])
  }

  function AbandonDelivered(s: World, w: nat, token: nat): World
    requires w in s.workers
  {
    var worker := s.workers[w];
    s.(store := Abandoned(s.store, worker.id, token).0, wire := s.wire - {AbandonMsg(w, token)},
       workers := if !worker.phase.Abandoning? then s.workers
                  else s.workers[w := worker.(phase := worker.phase.(answered := true))])
  }

  // ---------- the step relation ----------

  ghost predicate Enabled(s: World, step: Step) {
    match step
    case Arrive(w, _, _) => w !in s.workers
    case Retry(w) => w in s.workers && Waiting(s.workers[w].phase) && !Answered(s.workers[w].phase)
                     && s.workers[w].phase.hop + 1 < MAX_HOPS
    case Exhaust(w) => w in s.workers && Waiting(s.workers[w].phase) && !Answered(s.workers[w].phase)
    case GiveUp(w) => w in s.workers && Waiting(s.workers[w].phase) && !s.workers[w].phase.Forwarding?
    case Respond(w, _) => w in s.workers && s.workers[w].phase.Forwarding?
    case Receive(w) => w in s.workers && Answered(s.workers[w].phase)
    case Crash(w) => w in s.workers && Waiting(s.workers[w].phase)
    case Deliver(m) => m in s.wire && m.w in s.workers
    case Lapse(key) => key in s.store.byKey && s.store.byKey[key].lease <= s.now
    case Tick(d) => forall w :: w in s.workers && Waiting(s.workers[w].phase)
                                ==> s.now + d <= s.workers[w].phase.since + HOP_TIMEOUT_MS
  }

  ghost function Do(s: World, step: Step): World
    requires Enabled(s, step)
  {
    match step
    case Arrive(w, request, id) => Arrived(s, w, request, id)
    case Retry(w) => SetPhase(s, w, NextHop(s.workers[w].phase, s.now))
    case Exhaust(w) =>
      var p := s.workers[w].phase;
      if p.Forwarding? then Responded(s, w, Some(NO_LEADER))
      else SetPhase(s, w, AfterFailure(s.workers[w], s.now)).(wire := s.wire - {Pending(w, p).value})
    case GiveUp(w) => SetPhase(s, w, AfterFailure(s.workers[w], s.now))
    case Respond(w, captured) => Responded(s, w, captured)
    case Receive(w) => SetPhase(s, w, AfterReply(s.workers[w], s.now))
    case Crash(w) => SetPhase(s, w, Crashed)
    case Deliver(ClaimMsg(w)) => ClaimDelivered(s, w)
    case Deliver(CompleteMsg(w, token)) => CompleteDelivered(s, w, token)
    case Deliver(AbandonMsg(w, token)) => AbandonDelivered(s, w, token)
    case Lapse(key) => s.(store := s.store.(byKey := s.store.byKey - {key}))
    case Tick(d) => s.(now := s.now + d)
  }

  ghost predicate Init(s: World) {
    s.store == Records(map[], 0) && s.workers == map[] && s.wire == {} && s.issued == map[]
  }

  ghost predicate StepsTo(s: World, step: Step, t: World) {
    Enabled(s, step) && t == Do(s, step)
  }

  /** `trace[i]` leads from `run[i]` to `run[i + 1]`; an arriving request is identified by hashing it. */
  ghost predicate IsRun(digest: bytes -> bytes, run: seq<World>, trace: seq<Step>) {
    && |run| == |trace| + 1 && Init(run[0])
    && (forall i :: 0 <= i < |trace| ==> StepsTo(run[i], trace[i], run[i + 1]))
    && (forall i :: 0 <= i < |trace| && trace[i].Arrive? ==> trace[i].id == Identify(digest, trace[i].request))
  }

  // ---------- the inductive invariant ----------

  /** Worker `w`'s claim still stands: the record is its own, in flight, and leased at least until `until`. */
  ghost predicate Holds(s: World, w: nat, token: nat, until: int) {
    && w in s.workers
    && var key := s.workers[w].id.internalKey;
    && key in s.store.byKey
    && var record := s.store.byKey[key];
    && record.token == token && !record.completed && record.lease >= until
  }

  ghost predicate OwnsToken(s: World, w: nat, token: nat) {
    token in s.issued && s.issued[token] == w
  }

  /** What a record says: the view is of worker `author`'s request and, if completed, of its response. */
  ghost predicate ViewOf(s: World, author: nat, key: bytes, v: RecordView) {
    && author in s.workers && s.workers[author].id.internalKey == key
    && v.fingerprint == Some(s.workers[author].id.fingerprint)
    && (v.completed ==>
          s.workers[author].captured.Some?
          && v.result == Decoded(FromCaptured(s.workers[author].id.fingerprint, s.workers[author].captured.value)))
  }

  /** `r` is what worker `author` captured, and worker `w` asked for the same thing. */
  ghost predicate ReplaysWorker(s: World, author: nat, w: nat, reply: Reply) {
    && author in s.workers && w in s.workers && author != w
    && s.workers[author].id.internalKey == s.workers[w].id.internalKey
    && s.workers[author].id.fingerprint == s.workers[w].id.fingerprint
    && s.workers[author].captured.Some? && reply == ReplayOf(s.workers[author].captured.value)
  }

  ghost predicate WorkerInv(s: World, w: nat)
    requires w in s.workers
  {
    var worker := s.workers[w];
    && (Waiting(worker.phase) ==>
          worker.phase.hop < MAX_HOPS && worker.phase.since <= s.now <= worker.phase.since + HOP_TIMEOUT_MS)
    && match worker.phase
       case Claiming(_, since, output) =>
         && worker.captured.None?
         && (output.None? ==> ClaimMsg(w) in s.wire)
         && (output.Some? ==>
               if output.value.claimed then
                 && output.value.fencingToken.Some? && OwnsToken(s, w, output.value.fencingToken.value)
                 && Holds(s, w, output.value.fencingToken.value, since + INFLIGHT_LEASE_MS)
               else
                 && output.value.duplicate && output.value.record.Some?
                 && exists author :: author != w && ViewOf(s, author, worker.id.internalKey, output.value.record.value))
       case Forwarding(token, hop, since) =>
         && worker.captured.None? && OwnsToken(s, w, token)
         && Holds(s, w, token, since + INFLIGHT_LEASE_MS - (hop + 1) * HOP_TIMEOUT_MS)
       case Completing(token, hop, since, answer) =>
         && worker.captured.Some? && OwnsToken(s, w, token)
         && (answer.None? ==> CompleteMsg(w, token) in s.wire)
         && (CompleteMsg(w, token) in s.wire ==>
               Holds(s, w, token, since + INFLIGHT_LEASE_MS - (hop + 1 + MAX_HOPS) * HOP_TIMEOUT_MS))
         && (answer.Some? ==> answer.value)
       case Abandoning(token, _, _, reply, answered) =>
         OwnsToken(s, w, token) && !reply.Replayed? && !reply.ReplayUnavailable?
         && (!answered ==> AbandonMsg(w, token) in s.wire)
       case Done(reply) =>
         reply.Replayed? || reply.ReplayUnavailable? ==> exists author :: ReplaysWorker(s, author, w, reply)
       case Crashed => true
  }

  ghost predicate MessageInv(s: World, m: Message) {
    && m.w in s.workers
    && var p := s.workers[m.w].phase;
    match m
    case ClaimMsg(w) =>
      && ((p.Claiming? && p.output.None?) || p.Done? || p.Crashed?)
      && s.workers[w].captured.None? && (forall t :: t in s.issued ==> s.issued[t] != w)
    case CompleteMsg(w, token) =>
      && ((p.Completing? && p.token == token && p.answer.None?) || p.Done? || p.Crashed?)
      && OwnsToken(s, w, token) && s.workers[w].captured.Some?
    case AbandonMsg(w, token) =>
      && ((p.Abandoning? && p.token == token && !p.answered) || p.Done? || p.Crashed?)
      && OwnsToken(s, w, token)
      && (forall t :: CompleteMsg(w, t) !in s.wire)
  }

  ghost predicate RecordInv(s: World, key: bytes)
    requires key in s.store.byKey
  {
    var record := s.store.byKey[key];
    && record.token in s.issued
    && var author := s.issued[record.token];
    && ViewOf(s, author, key, View(record))
    && record.owner == s.workers[author].id.owner
    && record.lease <= s.now + (if record.completed then RETENTION_MS else INFLIGHT_LEASE_MS)
    && (record.completed ==> CompleteMsg(author, record.token) !in s.wire)
  }

  ghost predicate TokensInv(s: World) {
    && (forall t :: t in s.issued <==> 0 <= t < s.store.nextToken)
    && (forall t :: t in s.issued ==> s.issued[t] in s.workers)
    && (forall t, u :: t in s.issued && u in s.issued && s.issued[t] == s.issued[u] ==> t == u)
  }

  ghost predicate WorkersInv(s: World) {
    forall w :: w in s.workers ==> WorkerInv(s, w)
  }

  ghost predicate MessagesInv(s: World) {
    forall m :: m in s.wire ==> MessageInv(s, m)
  }

  ghost predicate RecordsInv(s: World) {
    forall key :: key in s.store.byKey ==> RecordInv(s, key)
  }

  ghost predicate Inv(s: World) {
    TokensInv(s) && WorkersInv(s) && MessagesInv(s) && RecordsInv(s)
  }
}
