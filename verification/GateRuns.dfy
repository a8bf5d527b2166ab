// The cache object makes the steps of the gate's runs that use the cache (src/revocation.rs).
module GateRuns {
  import opened Wrappers
  import opened Bytes
  import opened RevocationCache
  import opened RevocationGate
  import opened RevocationSafety
  import opened RevocationOutcomes

  /** Either lookup of call `t`, and what it concludes, if anything. */
  method TakeLookup(cache: RevocationCache, key: bytes, now: nat, ghost s: Gate, ghost step: Step, ghost t: nat)
    returns (r: Option<Authorization>, ghost s': Gate)
    requires cache.Valid() && s.cache == cache.Model() && Inv(s)
    requires (step == FirstLookup(t) || step == SecondLookup(t)) && Enabled(s, step)
    requires s.tasks[t].key == key && s.tasks[t].now == now
    modifies cache
    ensures cache.Valid() && StepsTo(s, step, s') && s'.cache == cache.Model()
    ensures r.Some? ==> Concludes(s'.tasks[t].pc, r.value)
    ensures r.None? ==> s'.tasks[t].pc.Missed? || s'.tasks[t].pc.MissedAgain?
  {
    var found := cache.Find(key, now);
    s' := Do(s, step);
    match found
    case None => r := Some(ClockRegression);
    case Some(Fresh(Allow)) => r := Some(Allowed);
    case Some(Fresh(Deny)) => r := Some(Revoked);
    case Some(_) => r := None;
  }

  /** The clock is read again before the authority is called. */
  method TakeRefreshStart(cache: RevocationCache, now: nat, ghost s: Gate, ghost t: nat)
    returns (r: Option<Authorization>, ghost s': Gate)
    requires cache.Valid() && s.cache == cache.Model() && Inv(s)
    requires Enabled(s, RefreshStart(t)) && s.tasks[t].now == now
    modifies cache
    ensures cache.Valid() && StepsTo(s, RefreshStart(t), s') && s'.cache == cache.Model()
    ensures r.Some? ==> Concludes(s'.tasks[t].pc, r.value)
    ensures r.None? ==> s'.tasks[t].pc.Calling?
  {
    var ok := cache.RecordRefreshStart(now);
    s' := Do(s, RefreshStart(t));
    r := if ok then None else Some(ClockRegression);
  }

  /** The authority's answer is stored, which may cost another key's entry. */
  method TakeApply(cache: RevocationCache, key: bytes, decision: Decision, now: nat, ghost s: Gate, ghost t: nat)
    returns (r: Authorization, evicted: Option<bytes>, ghost s': Gate)
    requires cache.Valid() && s.cache == cache.Model() && Inv(s)
    requires t in s.tasks && s.tasks[t].pc.Answered? && s.tasks[t].pc.decision == decision
    requires s.tasks[t].key == key && s.tasks[t].now == now
    modifies cache
    ensures cache.Valid() && StepsTo(s, Apply(t, evicted), s') && s'.cache == cache.Model()
    ensures Concludes(s'.tasks[t].pc, r)
  {
    var ok;
    ok, evicted := cache.Apply(key, decision, now);
    s' := Do(s, Apply(t, evicted));
    r := if !ok then ClockRegression else if decision == Allow then Allowed else Revoked;
  }
}
