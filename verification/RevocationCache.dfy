// The fail-closed decision cache in front of the revocation authority (src/revocation.rs).
module RevocationCache {
  import opened Wrappers
  import opened Bytes

  datatype Decision = Allow | Deny

  datatype Entry = Entry(decision: Decision, observedAt: nat)

  datatype Lookup = Fresh(decision: Decision) | Stale | Miss

  /** The value of a cache object. */
  datatype Cache = Cache(entries: map<bytes, Entry>, highWater: nat, budget: nat, capacity: nat)

  // ---------- specification ----------

  function AtLeastOne(n: nat): nat {
    if n < 1 then 1 else n
  }

  /** A reading behind the high-water mark is refused. */
  predicate Regressed(c: Cache, now: nat) {
    now < c.highWater
  }

  /** No answer young enough to rely on at `now`. */
  predicate NotFresh(entries: map<bytes, Entry>, budget: nat, key: bytes, now: nat) {
    key in entries ==> entries[key].observedAt + budget < now
  }

  /** `now.saturating_sub(observed_at) <= budget` decides freshness. */
  function LookedUp(c: Cache, key: bytes, now: nat): (r: Lookup)
    ensures !Regressed(c, now) && Sound(c) ==> (r.Fresh? <==> !NotFresh(c.entries, c.budget, key, now))
    ensures r.Fresh? ==>
        key in c.entries && r.decision == c.entries[key].decision && now <= c.entries[key].observedAt + c.budget
  {
    if key !in c.entries then Miss
    else
      var e := c.entries[key];
      if (if now < e.observedAt then 0 else now - e.observedAt) <= c.budget then Fresh(e.decision) else Stale
  }

  /** Nothing in the cache is younger than the clock, and it is within its size. */
  ghost predicate Sound(c: Cache) {
    && 1 <= c.budget && 1 <= c.capacity && |c.entries| <= c.capacity
    && forall key :: key in c.entries ==> c.entries[key].observedAt <= c.highWater
  }

  ghost predicate Oldest(entries: map<bytes, Entry>, key: bytes) {
    key in entries && forall k :: k in entries ==> entries[key].observedAt <= entries[k].observedAt
  }

  /** Only a new key that finds the cache full costs an entry, one of the oldest. */
  ghost predicate EvictionFor(c: Cache, key: bytes, evicted: Option<bytes>) {
    if key !in c.entries && |c.entries| >= c.capacity
    then evicted.Some? && Oldest(c.entries, evicted.value)
    else evicted.None?
  }

  function Applied(c: Cache, key: bytes, decision: Decision, now: nat, evicted: Option<bytes>): Cache {
    var kept := if evicted.Some? then c.entries - {evicted.value} else c.entries;
    c.(entries := kept[key := Entry(decision, now)], highWater := now)
  }

  /** Applying an answer keeps the cache sound, never moves a key's observation back, and drops an entry only
      when at least `capacity` other keys were observed no earlier. */
  lemma ApplyIsSound(c: Cache, key: bytes, decision: Decision, now: nat, evicted: Option<bytes>)
    requires Sound(c) && !Regressed(c, now) && EvictionFor(c, key, evicted)
    ensures var d := Applied(c, key, decision, now, evicted);
      && Sound(d)
      && (forall k :: k in c.entries && k in d.entries ==> c.entries[k].observedAt <= d.entries[k].observedAt)
      && (evicted.Some? ==>
            && evicted.value in c.entries && evicted.value !in d.entries && |d.entries| == c.capacity
            && forall k :: k in d.entries ==> c.entries[evicted.value].observedAt <= d.entries[k].observedAt)
  {
  }

  // ---------- the object ----------

  class RevocationCache {
    var entries: map<bytes, Entry>
    var highWater: nat
    const freshnessBudget: nat
    const capacity: nat

    ghost function Model(): Cache
      reads this
    {
      Cache(entries, highWater, freshnessBudget, capacity)
    }

    ghost predicate Valid()
      reads this
    {
      Sound(Model())
    }

    constructor (budget: nat, size: nat)
      ensures Valid() && entries == map[] && highWater == 0
      ensures freshnessBudget == if budget == 0 then 1 else budget
      ensures capacity == if size == 0 then 1 else size
    {
      entries := map[];
      highWater := 0;
      freshnessBudget := AtLeastOne(budget);
      capacity := AtLeastOne(size);
    }

    method Advance(now: nat) returns (ok: bool)
      modifies this`highWater
      ensures ok == !Regressed(old(Model()), now)
      ensures highWater == if ok then now else old(highWater)
    {
      if now < highWater {
        return false;
      }
      highWater := now;
      return true;
    }

    method Find(key: bytes, now: nat) returns (r: Option<Lookup>)
      requires Valid()
      modifies this`highWater
      ensures Valid()
      ensures r.None? <==> Regressed(old(Model()), now)
      ensures highWater == if r.Some? then now else old(highWater)
      ensures r.Some? ==> r.value == LookedUp(old(Model()), key, now)
      ensures r.Some? ==> (r.value.Fresh? <==> !NotFresh(old(entries), freshnessBudget, key, now))
    {
      var ok := Advance(now);
      if !ok {
        return None;
      }
      if key in entries {
        var age := if now < entries[key].observedAt then 0 else now - entries[key].observedAt;
        return Some(if age <= freshnessBudget then Fresh(entries[key].decision) else Stale);
      }
      return Some(Miss);
    }

    method RecordRefreshStart(now: nat) returns (ok: bool)
      requires Valid()
      modifies this`highWater
      ensures Valid() && ok == !Regressed(old(Model()), now)
      ensures highWater == if ok then now else old(highWater)
    {
      ok := Advance(now);
    }

    /** The iterator's minimum: some entry observed no later than any other. */
    method FindOldest() returns (oldest: bytes)
      requires entries != map[]
      ensures Oldest(entries, oldest)
    {
      var remaining := entries.Keys;
      oldest :| oldest in remaining;
      while remaining != {}
        invariant remaining <= entries.Keys && oldest in entries
        invariant forall k :: k in entries && k !in remaining ==> entries[oldest].observedAt <= entries[k].observedAt
        decreases remaining
      {
        var k :| k in remaining;
        if entries[k].observedAt < entries[oldest].observedAt {
          oldest := k;
        }
        remaining := remaining - {k};
      }
    }

    method Apply(key: bytes, decision: Decision, now: nat) returns (ok: bool, evicted: Option<bytes>)
      requires Valid()
      modifies this
      ensures Valid() && ok == !Regressed(old(Model()), now)
      ensures !ok ==> evicted.None? && Model() == old(Model())
      ensures ok ==>
          EvictionFor(old(Model()), key, evicted) && Model() == Applied(old(Model()), key, decision, now, evicted)
    {
      evicted := None;
      ok := Advance(now);
      if !ok {
        return;
      }
      if key !in entries && |entries| >= capacity {
        var oldest := FindOldest();
        evicted := Some(oldest);
        entries := entries - {oldest};
      }
      entries := entries[key := Entry(decision, now)];
      ApplyIsSound(old(Model()), key, decision, now, evicted);
    }
  }
}
