// Whole runs of the route table: which of its three sources a leader comes from.
module TableRuns {
  import opened Wrappers
  import opened Bytes
  import opened UrlOrder
  import opened BrainSnapshot
  import opened RouteTable
  import RoundRobin

  /** The last hint accepted for a shard. */
  datatype Hinted = Hinted(url: Url, at: nat)

  /** The last snapshot accepted. */
  datatype Snapshot = Snapshot(nodes: seq<BrainNode>, shards: seq<BrainShard>, requestedAt: nat, appliedAt: nat)

  /** The table and the refresh under way; `hinted` and `snapshot` only remember. */
  datatype State = State(
    table: Table, now: nat, pending: Option<nat>, hinted: map<nat, Hinted>, snapshot: Option<Snapshot>)

  /** Refreshes are made by one loop, so one is under way at most. */
  datatype Event =
    | StartRefresh
    | FailRefresh
    | FinishRefresh(nodes: seq<BrainNode>, shards: seq<BrainShard>, applied: nat)
    | Redirect(shard: nat, url: bytes)
    | Pick(cursor: nat)

  ghost predicate Finishes(text: Text, s: State, e: Event, t: State)
    requires e.FinishRefresh?
  {
    && s.pending.Some? && t.pending.None? && t.hinted == s.hinted
    && SnapshotOutcome(text, s.table, e.nodes, e.shards, s.pending.value, t.table, e.applied)
    && t.snapshot == if Acceptable(text, e.nodes, e.shards, s.table.shardCount)
                     then Some(Snapshot(e.nodes, e.shards, s.pending.value, s.now)) else s.snapshot
  }

  ghost predicate Redirects(text: Text, s: State, e: Event, t: State)
    requires e.Redirect?
  {
    var known := KnownNode(text, s.table, e.url);
    && e.shard < s.table.shardCount && t.pending == s.pending && t.snapshot == s.snapshot
    && if known.None? then t.table == s.table && t.hinted == s.hinted
       else t.table == HintAccepted(s.table, e.shard, known.value, s.now)
            && t.hinted == s.hinted[e.shard := Hinted(known.value, s.now)]
  }

  /** One event at time `s.now`; the clock moves on with each. */
  ghost predicate Step(text: Text, s: State, e: Event, t: State) {
    && s.now < t.now
    && match e
       case StartRefresh => s.pending.None? && t == s.(pending := Some(s.now), now := t.now)
       case FailRefresh => s.pending.Some? && t == s.(pending := None, now := t.now)
       case FinishRefresh(_, _, _) => Finishes(text, s, e, t)
       case Redirect(_, _) => Redirects(text, s, e, t)
       case Pick(c) => c < RoundRobin.USIZE && t == s.(table := s.table.(cursor := c), now := t.now)
  }

  ghost predicate Begins(text: Text, shardCount: nat, seeds: seq<bytes>, s: State) {
    s.table == Provisional(text, shardCount, seeds) && s.pending.None? && s.hinted == map[] && s.snapshot.None?
  }

  ghost predicate IsRun(text: Text, shardCount: nat, seeds: seq<bytes>, states: seq<State>, events: seq<Event>) {
    && |states| == |events| + 1 && Begins(text, shardCount, seeds, states[0])
    && forall i :: 0 <= i < |events| ==> Step(text, states[i], events[i], states[i + 1])
  }

  // ---------- what a leader is ----------

  ghost predicate PlacedAt(text: Text, snapshot: Snapshot, shard: nat, url: Url) {
    exists b :: b in snapshot.shards && b.shardId == shard && Target(text, snapshot.nodes, b, url)
  }

  /** The shard's last hint is at least as new as the request for the last snapshot, and names a member of it. */
  ghost predicate HintIsFreshest(text: Text, s: State, shard: nat) {
    && shard in s.hinted
    && (s.snapshot.Some? ==>
          s.snapshot.value.requestedAt <= s.hinted[shard].at
          && s.hinted[shard].url in Urls(text, s.snapshot.value.nodes))
  }

  /** The leader of a shard comes from its freshest source: hint, then snapshot, then seeds. */
  ghost predicate Freshest(text: Text, seeds: seq<bytes>, s: State, shard: nat)
    requires shard in s.table.leaders
  {
    var leader := s.table.leaders[shard];
    if HintIsFreshest(text, s, shard) then leader == s.hinted[shard].url
    else if s.snapshot.Some? then PlacedAt(text, s.snapshot.value, shard, leader)
    else Seeds(text, seeds) != [] && leader == Seeds(text, seeds)[shard % |Seeds(text, seeds)|]
  }

  // ---------- invariant ----------

  ghost predicate AllFreshest(text: Text, seeds: seq<bytes>, s: State) {
    forall shard :: shard in s.table.leaders ==> Freshest(text, seeds, s, shard)
  }

  /** Instants lie in the past, and a refresh under way was requested after the last one was applied. */
  ghost predicate Timely(s: State) {
    && (forall shard :: shard in s.hinted ==> s.hinted[shard].at < s.now)
    && (s.snapshot.Some? ==> s.snapshot.value.requestedAt <= s.snapshot.value.appliedAt < s.now)
    && (s.pending.Some? ==> s.pending.value < s.now)
    && (s.pending.Some? && s.snapshot.Some? ==> s.snapshot.value.appliedAt < s.pending.value)
  }

  /** The table keeps the instants of exactly those hints that are no older than the last snapshot's request. */
  ghost predicate HintsKept(s: State) {
    && (forall shard :: shard in s.table.hints <==>
          shard in s.hinted && (s.snapshot.Some? ==> s.snapshot.value.requestedAt <= s.hinted[shard].at))
    && forall shard :: shard in s.table.hints ==> s.table.hints[shard] == s.hinted[shard].at
  }

  /** A hint accepted after the last snapshot was applied still leads. */
  ghost predicate LateHintsLead(s: State) {
    forall shard :: shard in s.hinted && (s.snapshot.Some? ==> s.snapshot.value.appliedAt < s.hinted[shard].at) ==>
      shard in s.table.leaders && s.table.leaders[shard] == s.hinted[shard].url
  }

  ghost predicate MembersKnown(text: Text, s: State) {
    s.snapshot.Some? ==> Elements(s.table.nodes) == Urls(text, s.snapshot.value.nodes)
  }

  ghost predicate Inv(text: Text, seeds: seq<bytes>, s: State) {
    && Idempotent(text) && TableInv(text, s.table) && AllFreshest(text, seeds, s) && Timely(s)
    && HintsKept(s) && LateHintsLead(s) && MembersKnown(text, s)
  }

  // ---------- steps ----------

  lemma AcceptedHintFreshest(text: Text, seeds: seq<bytes>, s: State, shard: nat, known: Url, t: State)
    requires AllFreshest(text, seeds, s) && Timely(s) && MembersKnown(text, s) && known in s.table.nodes
    requires t.table == HintAccepted(s.table, shard, known, s.now)
    requires t.hinted == s.hinted[shard := Hinted(known, s.now)] && t.snapshot == s.snapshot
    ensures AllFreshest(text, seeds, t)
  {
  }

  lemma RedirectKeeps(text: Text, seeds: seq<bytes>, s: State, e: Event, t: State)
    requires Inv(text, seeds, s) && e.Redirect? && Redirects(text, s, e, t) && s.now < t.now
    ensures Inv(text, seeds, t)
  {
    var known := KnownNode(text, s.table, e.url);
    if known.Some? {
      HintKeepsInv(text, s.table, e.shard, e.url, s.now);
      AcceptedHintFreshest(text, seeds, s, e.shard, known.value, t);
    } else {
      SameFreshness(text, seeds, s, t);
    }
  }

  lemma SameFreshness(text: Text, seeds: seq<bytes>, s: State, t: State)
    requires AllFreshest(text, seeds, s)
    requires t.table.leaders == s.table.leaders && t.hinted == s.hinted && t.snapshot == s.snapshot
    ensures AllFreshest(text, seeds, t)
  {
  }

  /** A hint that outlasts a snapshot was accepted since the last one was applied, so its URL leads. */
  lemma RetainedHintLeads(s: State, shard: nat, requestedAt: nat)
    requires Timely(s) && HintsKept(s) && LateHintsLead(s) && s.pending == Some(requestedAt)
    requires shard in s.hinted && requestedAt <= s.hinted[shard].at
    ensures shard in s.table.hints && s.table.hints[shard] == s.hinted[shard].at
    ensures shard in s.table.leaders && s.table.leaders[shard] == s.hinted[shard].url
  {
  }

  lemma SnapshotLeader(text: Text, seeds: seq<bytes>, s: State, e: Event, t: State, shard: nat)
    requires Timely(s) && HintsKept(s) && LateHintsLead(s) && s.pending.Some? && e.FinishRefresh?
    requires AcceptableShards(text, e.nodes, e.shards, s.table.shardCount) && shard < s.table.shardCount
    requires Replaces(text, s.table, e.nodes, e.shards, s.pending.value, t.table)
    requires t.hinted == s.hinted && t.snapshot == Some(Snapshot(e.nodes, e.shards, s.pending.value, s.now))
    ensures shard in t.table.leaders && Freshest(text, seeds, t, shard)
  {
    var b := EveryShardPlaced(text, e.nodes, e.shards, s.table.shardCount, shard);
    var leader := t.table.leaders[shard];
    assert LeaderFor(text, s.table, e.nodes, b, s.pending.value, leader);
    if shard in s.hinted && s.pending.value <= s.hinted[shard].at {
      RetainedHintLeads(s, shard, s.pending.value);
    }
    if !Overrides(s.table, Urls(text, e.nodes), s.pending.value, shard) {
      assert PlacedAt(text, t.snapshot.value, shard, leader);
    }
  }

  lemma AppliedKeeps(text: Text, seeds: seq<bytes>, s: State, e: Event, t: State)
    requires Inv(text, seeds, s) && e.FinishRefresh? && Finishes(text, s, e, t) && s.now < t.now
    requires Acceptable(text, e.nodes, e.shards, s.table.shardCount)
    ensures Inv(text, seeds, t)
  {
    SnapshotKeepsInv(text, s.table, e.nodes, e.shards, s.pending.value, t.table, e.applied);
    forall shard | shard in t.table.leaders ensures Freshest(text, seeds, t, shard) {
      SnapshotLeader(text, seeds, s, e, t, shard);
    }
  }

  lemma StepKeeps(text: Text, seeds: seq<bytes>, s: State, e: Event, t: State)
    requires Inv(text, seeds, s) && Step(text, s, e, t)
    ensures Inv(text, seeds, t)
    ensures t.table.shardCount == s.table.shardCount && (s.table.leaders != map[] ==> t.table.leaders != map[])
  {
    if e.Redirect? {
      RedirectKeeps(text, seeds, s, e, t);
    } else if e.FinishRefresh? {
      SnapshotKeepsInv(text, s.table, e.nodes, e.shards, s.pending.value, t.table, e.applied);
      if Acceptable(text, e.nodes, e.shards, s.table.shardCount) {
        AppliedKeeps(text, seeds, s, e, t);
      } else {
        SameFreshness(text, seeds, s, t);
      }
    } else {
      SameFreshness(text, seeds, s, t);
    }
  }

  lemma BeginsInv(text: Text, shardCount: nat, seeds: seq<bytes>, s: State)
    requires Idempotent(text) && Begins(text, shardCount, seeds, s)
    ensures Inv(text, seeds, s)
  {
  }

  lemma {:induction false} RunKeeps(text: Text, shardCount: nat, seeds: seq<bytes>, states: seq<State>,
                                    events: seq<Event>, i: nat)
    requires Idempotent(text) && IsRun(text, shardCount, seeds, states, events) && i < |states|
    ensures Inv(text, seeds, states[i]) && states[i].table.shardCount == shardCount
  {
    if i == 0 {
      BeginsInv(text, shardCount, seeds, states[0]);
    } else {
      RunKeeps(text, shardCount, seeds, states, events, i - 1);
      assert Step(text, states[i - 1], events[i - 1], states[i]);
      StepKeeps(text, seeds, states[i - 1], events[i - 1], states[i]);
    }
  }

  // ---------- theorems ----------

  /** In every reachable state every leader comes from its freshest source. */
  lemma FreshestSourceWins(text: Text, shardCount: nat, seeds: seq<bytes>, states: seq<State>, events: seq<Event>,
                           i: nat, shard: nat)
    requires Idempotent(text) && IsRun(text, shardCount, seeds, states, events) && i < |states|
    requires shard in states[i].table.leaders
    ensures Freshest(text, seeds, states[i], shard) && states[i].table.leaders[shard] in states[i].table.nodes
  {
    RunKeeps(text, shardCount, seeds, states, events, i);
  }

  lemma {:induction false} StaysHydrated(text: Text, shardCount: nat, seeds: seq<bytes>, states: seq<State>,
                                         events: seq<Event>, i: nat, j: nat)
    requires Idempotent(text) && IsRun(text, shardCount, seeds, states, events) && i <= j < |states|
    requires states[i].table.leaders != map[]
    ensures states[j].table.leaders != map[]
  {
    if i < j {
      StaysHydrated(text, shardCount, seeds, states, events, i, j - 1);
      RunKeeps(text, shardCount, seeds, states, events, j - 1);
      assert Step(text, states[j - 1], events[j - 1], states[j]);
      StepKeeps(text, seeds, states[j - 1], events[j - 1], states[j]);
    }
  }

  /** Once the table was ready, every shard has a leader that is a member, for good. */
  lemma ReadyTableResolvesEveryShard(text: Text, shardCount: nat, seeds: seq<bytes>, states: seq<State>,
                                     events: seq<Event>, i: nat, j: nat, shard: nat)
    requires Idempotent(text) && IsRun(text, shardCount, seeds, states, events) && i <= j < |states|
    requires states[i].table.leaders != map[] && shard < shardCount
    ensures shard in states[j].table.leaders && states[j].table.leaders[shard] in states[j].table.nodes
  {
    StaysHydrated(text, shardCount, seeds, states, events, i, j);
    RunKeeps(text, shardCount, seeds, states, events, j);
    var known :| known in states[j].table.leaders;
  }

  // ---------- an accepted hint leads ----------

  /** The redirect's URL spells a member of the table. */
  ghost predicate Accepts(text: Text, s: State, e: Event, shard: nat, known: Url) {
    e.Redirect? && e.shard == shard && text.normalize(e.url) == Some(known) && known in s.table.nodes
  }

  /** From then on until an accepted hint for the shard or an accepted snapshot, the shard's leader is the hint's. */
  ghost predicate LeavesHint(text: Text, s: State, e: Event, shard: nat) {
    && (forall known :: !Accepts(text, s, e, shard, known))
    && (e.FinishRefresh? ==> !Acceptable(text, e.nodes, e.shards, s.table.shardCount))
  }

  lemma HintStays(text: Text, s: State, e: Event, t: State, shard: nat)
    requires Step(text, s, e, t) && LeavesHint(text, s, e, shard) && shard in s.table.leaders
    ensures shard in t.table.leaders && t.table.leaders[shard] == s.table.leaders[shard]
  {
    if e.Redirect? && e.shard == shard && KnownNode(text, s.table, e.url).Some? {
      assert Accepts(text, s, e, shard, KnownNode(text, s.table, e.url).value);
    }
  }

  lemma {:induction false} AcceptedHintLeads(text: Text, shardCount: nat, seeds: seq<bytes>, states: seq<State>,
                                             events: seq<Event>, i: nat, j: nat, shard: nat, known: Url)
    requires Idempotent(text) && IsRun(text, shardCount, seeds, states, events) && i < j < |states|
    requires Accepts(text, states[i], events[i], shard, known)
    requires forall k :: i < k < j ==> LeavesHint(text, states[k], events[k], shard)
    ensures shard in states[j].table.leaders && states[j].table.leaders[shard] == known
  {
    assert Step(text, states[j - 1], events[j - 1], states[j]);
    if j == i + 1 {
      assert KnownNode(text, states[i].table, events[i].url) == Some(known);
    } else {
      AcceptedHintLeads(text, shardCount, seeds, states, events, i, j - 1, shard, known);
      HintStays(text, states[j - 1], events[j - 1], states[j], shard);
    }
  }
}
