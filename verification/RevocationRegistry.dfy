// When the gate's registry of per-key locks keeps an entry (src/revocation.rs).
module RevocationRegistry {
  import opened Bytes
  import opened RevocationGate
  import opened RevocationSafety

  // ---------- one release ----------

  /** Releasing takes the registry entry away exactly when nobody else holds a reference to the lock. */
  lemma ReleaseRemovesExactlyWhenLast(run: seq<Gate>, trace: seq<Step>, i: nat, t: nat)
    requires IsRun(run, trace) && i < |run| && t in run[i].tasks && run[i].tasks[t].pc.Unlocked?
    ensures run[i].tasks[t].key in run[i].registry
    ensures run[i].tasks[t].key !in KeyReleased(run[i], t).registry <==>
            HoldersOf(run[i], run[i].tasks[t].pc.lock) == {t}
  {
    RunKeeps(run, trace, i);
    RegisteredOnce(run[i], t);
    assert t in HoldersOf(run[i], run[i].tasks[t].pc.lock);
    if |HoldersOf(run[i], run[i].tasks[t].pc.lock)| <= 1 { Singleton(HoldersOf(run[i], run[i].tasks[t].pc.lock), t); }
  }

  lemma RegisteredOnce(s: Gate, t: nat)
    requires LocksInv(s) && RegistryInv(s) && t in s.tasks && s.tasks[t].pc.Unlocked?
    ensures KeysOf(s, s.tasks[t].pc.lock) == {s.tasks[t].key} && s.tasks[t].key in s.registry
  {
  }

  /** So two overlapping releases can each see the other's reference, and the entry outlives both of them. */
  lemma OverlappingReleasesLeaveEntry(run: seq<Gate>, trace: seq<Step>, i: nat, t: nat, u: nat)
    requires IsRun(run, trace) && i < |run| && t in run[i].tasks && u in run[i].tasks && t != u
    requires run[i].tasks[t].pc.Unlocked? && run[i].tasks[u].pc.Unlocked? && run[i].tasks[t].key == run[i].tasks[u].key
    ensures var s := run[i];
      var released := KeyReleased(KeyReleased(s, t), u);
      && released.tasks[t].pc.Releasing? && released.tasks[u].pc.Releasing?
      && s.tasks[t].key in released.registry
  {
    var s := run[i];
    RunKeeps(run, trace, i);
    ReleaseRemovesExactlyWhenLast(run, trace, i, t);
    assert TaskLocks(s, t) && TaskLocks(s, u);
    assert u in HoldersOf(s, s.tasks[t].pc.lock);
    var s1 := KeyReleased(s, t);
    ReleaseKeeps(s, t);
    RegisteredOnce(s1, u);
    var lock := s1.tasks[u].pc.lock;
    assert t in HoldersOf(s1, lock) && u in HoldersOf(s1, lock);
    if |HoldersOf(s1, lock)| <= 1 { Singleton(HoldersOf(s1, lock), t); }
  }

  // ---------- over a run ----------

  ghost predicate Acquires(s: Gate, step: Step, key: bytes) {
    step.AcquireKey? && step.t in s.tasks && s.tasks[step.t].key == key
  }

  /** A release by the only holder of the lock. Cancelled calls never release. */
  ghost predicate Removes(s: Gate, step: Step, key: bytes) {
    && step.ReleaseKey? && step.t in s.tasks && s.tasks[step.t].key == key
    && s.tasks[step.t].pc.Unlocked? && HoldersOf(s, s.tasks[step.t].pc.lock) == {step.t}
  }

  /** Step `a` acquired the key's lock, and none of the later ones before `n` removed its entry. */
  ghost predicate RegisteredSince(run: seq<Gate>, trace: seq<Step>, a: nat, n: nat, key: bytes)
    requires |run| == |trace| + 1 && n < |run|
  {
    a < n && Acquires(run[a], trace[a], key) && forall b :: a < b < n ==> !Removes(run[b], trace[b], key)
  }

  lemma RegistryStep(run: seq<Gate>, trace: seq<Step>, i: nat, key: bytes)
    requires IsRun(run, trace) && i < |trace|
    ensures key in run[i + 1].registry <==>
            Acquires(run[i], trace[i], key) || (key in run[i].registry && !Removes(run[i], trace[i], key))
  {
    assert StepsTo(run[i], trace[i], run[i + 1]);
    if trace[i].ReleaseKey? {
      ReleaseRemovesExactlyWhenLast(run, trace, i, trace[i].t);
    }
  }

  /** A key is registered exactly if some call acquired its lock and no sole holder has released it since. */
  lemma {:induction false} RegisteredExactly(run: seq<Gate>, trace: seq<Step>, n: nat, key: bytes)
    requires IsRun(run, trace) && n < |run|
    ensures key in run[n].registry <==> exists a :: RegisteredSince(run, trace, a, n, key)
  {
    if n > 0 {
      var i := n - 1;
      RegisteredExactly(run, trace, i, key);
      RegistryStep(run, trace, i, key);
      if Acquires(run[i], trace[i], key) {
        assert RegisteredSince(run, trace, i, n, key);
      } else if key in run[n].registry {
        var a: nat :| RegisteredSince(run, trace, a, i, key);
        assert RegisteredSince(run, trace, a, n, key);
      } else {
        forall a: nat ensures !RegisteredSince(run, trace, a, n, key) {
          assert RegisteredSince(run, trace, a, n, key) ==> a < i && RegisteredSince(run, trace, a, i, key);
        }
      }
    }
  }

  ghost predicate RemovedLater(run: seq<Gate>, trace: seq<Step>, a: nat, n: nat, key: bytes)
    requires |run| == |trace| + 1 && n < |run|
  {
    exists b :: a < b < n && Removes(run[b], trace[b], key)
  }

  /** The registry is empty, at quiescence or at any other time, exactly if every acquisition was followed by a
      release of a sole holder. */
  lemma EmptyExactlyWhenAllRemoved(run: seq<Gate>, trace: seq<Step>, n: nat)
    requires IsRun(run, trace) && n < |run|
    ensures run[n].registry == map[] <==>
            forall a: nat, key :: a < n && Acquires(run[a], trace[a], key) ==> RemovedLater(run, trace, a, n, key)
  {
    if run[n].registry == map[] {
      forall a: nat, key | a < n && Acquires(run[a], trace[a], key) ensures RemovedLater(run, trace, a, n, key) {
        RegisteredExactly(run, trace, n, key);
        assert !RegisteredSince(run, trace, a, n, key);
      }
    } else {
      var key :| key in run[n].registry;
      RegisteredExactly(run, trace, n, key);
      var a: nat :| RegisteredSince(run, trace, a, n, key);
      assert !RemovedLater(run, trace, a, n, key);
    }
  }

  // ---------- a run that leaves an entry ----------

  lemma Extend(run: seq<Gate>, trace: seq<Step>, step: Step) returns (run': seq<Gate>, trace': seq<Step>)
    requires IsRun(run, trace) && Enabled(run[|trace|], step)
    ensures IsRun(run', trace') && trace' == trace + [step] && run' == run + [Do(run[|trace|], step)]
  {
    run', trace' := run + [Do(run[|trace|], step)], trace + [step];
    forall i | 0 <= i < |trace'| ensures StepsTo(run'[i], trace'[i], run'[i + 1]) {
      if i < |trace| { assert StepsTo(run[i], trace[i], run[i + 1]); }
    }
  }

  /** One call that is cancelled while it waits for the lock: nobody is left, and its key stays registered. */
  lemma CancelledCallLeavesEntry(start: Gate, key: bytes, now: nat) returns (run: seq<Gate>, trace: seq<Step>)
    requires Init(start) && now <= start.time + start.skew
    ensures IsRun(run, trace) && run[0] == start
    ensures trace == [Enter(0, key, now), FirstLookup(0), AcquireKey(0), Cancel(0), DropArc(0)]
    ensures var last := run[|trace|];
      (forall t :: t in last.tasks ==> last.tasks[t].pc.Finished?) && last.registry.Keys == {key}
  {
    run, trace := [start], [];
    run, trace := Extend(run, trace, Enter(0, key, now));
    run, trace := Extend(run, trace, FirstLookup(0));
    run, trace := Extend(run, trace, AcquireKey(0));
    run, trace := Extend(run, trace, Cancel(0));
    run, trace := Extend(run, trace, DropArc(0));
  }
}
