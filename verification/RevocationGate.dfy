// The revocation gate as a step system (src/revocation.rs): any number of concurrent `authorize` calls, one
// step per mutex section, interleaved arbitrarily and cancelled at any await.
module RevocationGate {
  import opened Wrappers
  import opened Bytes
  import opened RevocationCache

  datatype Authorization = Allowed | Revoked | ClockRegression | RefreshFailed | RefreshTimedOut

  function ToAuthorization(d: Decision): Authorization {
    if d.Allow? then Allowed else Revoked
  }

  // ---------- the authority ----------

  datatype WireDecision = WireDecision(revoked: bool, hasTarget: bool, hasGeneration: bool, expiresAt: Option<nat>)

  datatype Reply = NoReply | AuthorityError | Wire(decision: WireDecision)

  /** `validate_wire_decision`: a revocation names target, generation and a future expiry, a clearance none of them. */
  predicate WellFormed(d: WireDecision, now: nat) {
    if d.revoked then d.hasTarget && d.hasGeneration && d.expiresAt.Some? && now < d.expiresAt.value
    else !d.hasTarget && !d.hasGeneration && d.expiresAt.None?
  }

  // ---------- threads ----------

  /** Where an `authorize` call stands. `lock` is the per-key lock object whose reference the call holds. An
      outcome of `None` is a cancelled call. */
  datatype Pc =
    | Entered
    | Missed
    | Queued(lock: nat)
    | Locked(lock: nat)
    | MissedAgain(lock: nat)
    | Calling(lock: nat)
    | Answered(lock: nat, decision: Decision)
    | Decided(lock: nat, outcome: Option<Authorization>)
    | Unlocked(lock: nat, outcome: Option<Authorization>)
    | Releasing(lock: nat, outcome: Option<Authorization>)
    | Finished(outcome: Option<Authorization>)

  datatype Task = Task(key: bytes, now: nat, pc: Pc)

  datatype HowEnded = AsStored | AsFailed | AsTimedOut | AsCancelled | AsClockRegressed

  /** The history of calls to the authority, its answers, and what became of them. */
  datatype Event =
    | CallStarted(t: nat, key: bytes, now: nat)
    | Replied(t: nat, key: bytes, now: nat, decision: Decision)
    | Evicted(key: bytes, observedAt: nat)
    | EntryStored(key: bytes, now: nat, decision: Decision)
    | CallEnded(t: nat, key: bytes, how: HowEnded)

  /** `revokedFrom` is the truth: the instant from which a key's token is revoked. `time` is the authority's time, and
      a caller's clock runs ahead of it by `skew` at most. */
  datatype Gate = Gate(
    skew: nat, revokedFrom: map<bytes, nat>, time: nat,
    cache: Cache, registry: map<bytes, nat>, holder: map<nat, nat>, nextLock: nat,
    tasks: map<nat, Task>, log: seq<Event>)

  datatype Step =
    | Enter(t: nat, key: bytes, now: nat)
    | FirstLookup(t: nat)
    | AcquireKey(t: nat)
    | TakeLock(t: nat)
    | SecondLookup(t: nat)
    | RefreshStart(t: nat)
    | Answer(t: nat, reply: Reply)
    | Apply(t: nat, evicted: Option<bytes>)
    | DropGuard(t: nat)
    | ReleaseKey(t: nat)
    | DropArc(t: nat)
    | Cancel(t: nat)
    | TimePasses(d: nat)

  // ---------- references and locks ----------

  /** The lock object a call holds a reference to. */
  function Holding(pc: Pc): Option<nat> {
    match pc
    case Entered => None
    case Missed => None
    case Finished(_) => None
    case _ => Some(pc.lock)
  }

  /** Between `acquire_key` and the release decision. */
  predicate Active(pc: Pc) {
    Holding(pc).Some? && !pc.Releasing?
  }

  /** Inside the critical section of the per-key lock. */
  predicate Guarding(pc: Pc) {
    Active(pc) && !pc.Queued? && !pc.Unlocked?
  }

  ghost function HoldersOf(s: Gate, lock: nat): set<nat> {
    set t | t in s.tasks && Holding(s.tasks[t].pc) == Some(lock)
  }

  ghost function KeysOf(s: Gate, lock: nat): set<bytes> {
    set k | k in s.registry && s.registry[k] == lock
  }

  /** `Arc::strong_count`: one reference per registry entry and one per call. */
  ghost function StrongCount(s: Gate, lock: nat): nat {
    |KeysOf(s, lock)| + |HoldersOf(s, lock)|
  }

  // ---------- the steps ----------

  function At(s: Gate, t: nat, pc: Pc): Gate
    requires t in s.tasks
  {
    s.(tasks := s.tasks[t := s.tasks[t].(pc := pc)])
  }

  /** The call is over, or only its guard and its reference are left to drop. */
  function Conclude(pc: Pc, a: Authorization): Pc
    requires pc.Entered? || pc.Locked?
  {
    if pc.Entered? then Finished(Some(a)) else Decided(pc.lock, Some(a))
  }

  /** Both lookups: refuse a clock behind the mark, use a fresh entry, otherwise go on. */
  function LookupDone(s: Gate, t: nat): Gate
    requires t in s.tasks && (s.tasks[t].pc.Entered? || s.tasks[t].pc.Locked?)
  {
    var task := s.tasks[t];
    if Regressed(s.cache, task.now) then At(s, t, Conclude(task.pc, ClockRegression))
    else
      var r := LookedUp(s.cache, task.key, task.now);
      At(s.(cache := s.cache.(highWater := task.now)), t,
         if r.Fresh? then Conclude(task.pc, ToAuthorization(r.decision))
         else if task.pc.Entered? then Missed else MissedAgain(task.pc.lock))
  }

  ghost predicate Enabled(s: Gate, step: Step) {
    match step
    case Enter(t, _, now) => t !in s.tasks && now <= s.time + s.skew
    case FirstLookup(t) => t in s.tasks && s.tasks[t].pc.Entered?
    case AcquireKey(t) => t in s.tasks && s.tasks[t].pc.Missed?
    case TakeLock(t) => t in s.tasks && s.tasks[t].pc.Queued? && s.tasks[t].pc.lock !in s.holder
    case SecondLookup(t) => t in s.tasks && s.tasks[t].pc.Locked?
    case RefreshStart(t) => t in s.tasks && s.tasks[t].pc.MissedAgain?
    case Answer(t, reply) =>
      && t in s.tasks && s.tasks[t].pc.Calling?
      && (reply.Wire? && !reply.decision.revoked && s.tasks[t].key in s.revokedFrom ==>
            s.time < s.revokedFrom[s.tasks[t].key])
    case Apply(t, evicted) =>
      && t in s.tasks && s.tasks[t].pc.Answered?
      && if Regressed(s.cache, s.tasks[t].now) then evicted.None? else EvictionFor(s.cache, s.tasks[t].key, evicted)
    case DropGuard(t) => t in s.tasks && s.tasks[t].pc.Decided?
    case ReleaseKey(t) => t in s.tasks && s.tasks[t].pc.Unlocked?
    case DropArc(t) => t in s.tasks && s.tasks[t].pc.Releasing?
    case Cancel(t) => t in s.tasks && (s.tasks[t].pc.Queued? || s.tasks[t].pc.Calling?)
    case TimePasses(_) => true
  }

  function KeyAcquired(s: Gate, t: nat): Gate
    requires t in s.tasks
  {
    var key := s.tasks[t].key;
    if key in s.registry then At(s, t, Queued(s.registry[key]))
    else At(s.(registry := s.registry[key := s.nextLock], nextLock := s.nextLock + 1), t, Queued(s.nextLock))
  }

  function LockTaken(s: Gate, t: nat): Gate
    requires t in s.tasks && s.tasks[t].pc.Queued?
  {
    At(s.(holder := s.holder[s.tasks[t].pc.lock := t]), t, Locked(s.tasks[t].pc.lock))
  }

  function RefreshStarted(s: Gate, t: nat): Gate
    requires t in s.tasks && s.tasks[t].pc.MissedAgain?
  {
    var task := s.tasks[t];
    if Regressed(s.cache, task.now) then At(s, t, Decided(task.pc.lock, Some(ClockRegression)))
    else At(s.(cache := s.cache.(highWater := task.now), log := s.log + [CallStarted(t, task.key, task.now)]),
            t, Calling(task.pc.lock))
  }

  function Refused(s: Gate, t: nat, outcome: Option<Authorization>, how: HowEnded): Gate
    requires t in s.tasks && (s.tasks[t].pc.Calling? || s.tasks[t].pc.Answered?)
  {
    At(s.(log := s.log + [CallEnded(t, s.tasks[t].key, how)]), t, Decided(s.tasks[t].pc.lock, outcome))
  }

  function CallAnswered(s: Gate, t: nat, reply: Reply): Gate
    requires t in s.tasks && s.tasks[t].pc.Calling?
  {
    var task := s.tasks[t];
    match reply
    case NoReply => Refused(s, t, Some(RefreshTimedOut), AsTimedOut)
    case AuthorityError => Refused(s, t, Some(RefreshFailed), AsFailed)
    case Wire(d) =>
      if !WellFormed(d, task.now) then Refused(s, t, Some(RefreshFailed), AsFailed)
      else
        var decision := if d.revoked then Deny else Allow;
        At(s.(log := s.log + [Replied(t, task.key, task.now, decision)]), t, Answered(task.pc.lock, decision))
  }

  function AnswerApplied(s: Gate, t: nat, evicted: Option<bytes>): Gate
    requires t in s.tasks && s.tasks[t].pc.Answered?
    requires evicted.Some? ==> evicted.value in s.cache.entries
  {
    var task := s.tasks[t];
    if Regressed(s.cache, task.now) then Refused(s, t, Some(ClockRegression), AsClockRegressed)
    else
      var d := task.pc.decision;
      At(s.(cache := Applied(s.cache, task.key, d, task.now, evicted), log := s.log + ApplyEvents(s, t, evicted)),
         t, Decided(task.pc.lock, Some(ToAuthorization(d))))
  }

  function ApplyEvents(s: Gate, t: nat, evicted: Option<bytes>): seq<Event>
    requires t in s.tasks && s.tasks[t].pc.Answered?
    requires evicted.Some? ==> evicted.value in s.cache.entries
  {
    (if evicted.Some? then [Evicted(evicted.value, s.cache.entries[evicted.value].observedAt)] else [])
    + [EntryStored(s.tasks[t].key, s.tasks[t].now, s.tasks[t].pc.decision), CallEnded(t, s.tasks[t].key, AsStored)]
  }

  /** A cancelled call never reaches `release_key`. */
  function GuardDropped(s: Gate, t: nat): Gate
    requires t in s.tasks && s.tasks[t].pc.Decided?
  {
    var pc := s.tasks[t].pc;
    At(s.(holder := s.holder - {pc.lock}),
       t, if pc.outcome.Some? then Unlocked(pc.lock, pc.outcome) else Releasing(pc.lock, None))
  }

  /** The decision is made under the registry mutex, the call's own reference is dropped after it. */
  ghost function KeyReleased(s: Gate, t: nat): Gate
    requires t in s.tasks && s.tasks[t].pc.Unlocked?
  {
    var pc := s.tasks[t].pc;
    At(if StrongCount(s, pc.lock) <= 2 then s.(registry := s.registry - {s.tasks[t].key}) else s,
       t, Releasing(pc.lock, pc.outcome))
  }

  function Cancelled(s: Gate, t: nat): Gate
    requires t in s.tasks && (s.tasks[t].pc.Queued? || s.tasks[t].pc.Calling?)
  {
    if s.tasks[t].pc.Queued? then At(s, t, Releasing(s.tasks[t].pc.lock, None))
    else Refused(s, t, None, AsCancelled)
  }

  ghost function Do(s: Gate, step: Step): Gate
    requires Enabled(s, step)
  {
    match step
    case Enter(t, key, now) => s.(tasks := s.tasks[t := Task(key, now, Entered)])
    case FirstLookup(t) => LookupDone(s, t)
    case AcquireKey(t) => KeyAcquired(s, t)
    case TakeLock(t) => LockTaken(s, t)
    case SecondLookup(t) => LookupDone(s, t)
    case RefreshStart(t) => RefreshStarted(s, t)
    case Answer(t, reply) => CallAnswered(s, t, reply)
    case Apply(t, evicted) => AnswerApplied(s, t, evicted)
    case DropGuard(t) => GuardDropped(s, t)
    case ReleaseKey(t) => KeyReleased(s, t)
    case DropArc(t) => At(s, t, Finished(s.tasks[t].pc.outcome))
    case Cancel(t) => Cancelled(s, t)
    case TimePasses(d) => s.(time := s.time + d)
  }

  ghost predicate Init(s: Gate) {
    && s.cache.entries == map[] && s.cache.highWater == 0 && s.cache.budget >= 1 && s.cache.capacity >= 1
    && s.registry == map[] && s.holder == map[] && s.nextLock == 0 && s.tasks == map[] && s.log == []
  }

  ghost predicate StepsTo(s: Gate, step: Step, t: Gate) {
    Enabled(s, step) && t == Do(s, step)
  }

  ghost predicate IsRun(run: seq<Gate>, trace: seq<Step>) {
    && |run| == |trace| + 1 && Init(run[0])
    && forall i :: 0 <= i < |trace| ==> StepsTo(run[i], trace[i], run[i + 1])
  }

  // ---------- reading the log ----------

  function EntriesAfter(entries: map<bytes, Entry>, e: Event): map<bytes, Entry> {
    match e
    case EntryStored(key, now, decision) => entries[key := Entry(decision, now)]
    case Evicted(key, _) => entries - {key}
    case _ => entries
  }

  /** The cache as the log tells it. */
  ghost function EntriesIn(log: seq<Event>): map<bytes, Entry> {
    if log == [] then map[] else EntriesAfter(EntriesIn(log[..|log| - 1]), log[|log| - 1])
  }

  function UnderWayAfter(call: Option<nat>, key: bytes, e: Event): Option<nat> {
    if e.CallStarted? && e.key == key then Some(e.t)
    else if e.CallEnded? && e.key == key then None
    else call
  }

  /** The call to the authority that is under way for `key`. */
  ghost function UnderWay(log: seq<Event>, key: bytes): Option<nat> {
    if log == [] then None else UnderWayAfter(UnderWay(log[..|log| - 1], key), key, log[|log| - 1])
  }
}
