// The route table object makes the steps of its runs, and keyed requests start where the runs say (src/table.rs,
// src/proxy.rs).
module RoutedRuns {
  import opened Wrappers
  import opened Bytes
  import opened Limits
  import opened RoundRobin
  import opened BrainSnapshot
  import opened RouteTable
  import opened TableRuns
  import opened ForwardRun
  import opened Forward

  // ---------- the object makes the steps ----------

  method Begin(shardCount: nat, seeds: seq<bytes>, text: Text, ghost now: nat)
    returns (table: RouteTable, ghost s: State)
    requires Idempotent(text)
    ensures fresh(table) && table.Valid() && table.text == text && s.table == table.Model()
    ensures Begins(text, shardCount, seeds, s) && s.now == now
  {
    table := new RouteTable(shardCount, seeds, text);
    s := State(table.Model(), now, None, map[], None);
  }

  /** A redirect at instant `now`; the clock reads `later` afterwards. */
  method TakeRedirect(table: RouteTable, shard: nat, url: bytes, now: nat, ghost s: State, ghost later: nat)
    returns (r: Option<Url>, ghost t: State)
    requires table.Valid() && shard < table.shardCount && s.table == table.Model() && s.now == now < later
    modifies table
    ensures table.Valid() && t.table == table.Model() && t.now == later
    ensures Step(table.text, s, Redirect(shard, url), t)
  {
    r := table.AcceptLeaderHint(shard, url, now);
    t := s.(table := table.Model(), now := later,
            hinted := if r.Some? then s.hinted[shard := Hinted(r.value, now)] else s.hinted);
  }

  /** The snapshot requested at `fetchedAt` arrives. */
  method TakeSnapshot(table: RouteTable, nodes: seq<BrainNode>, shards: seq<BrainShard>, fetchedAt: nat,
                      ghost s: State, ghost later: nat)
    returns (applied: nat, ghost t: State)
    requires table.Valid() && s.table == table.Model() && s.pending == Some(fetchedAt) && s.now < later
    modifies table
    ensures table.Valid() && t.table == table.Model() && t.now == later
    ensures Step(table.text, s, FinishRefresh(nodes, shards, applied), t)
  {
    applied := table.ApplyBrainSnapshotAt(nodes, shards, fetchedAt);
    ghost var accepted := Acceptable(table.text, nodes, shards, s.table.shardCount);
    t := State(table.Model(), later, None, s.hinted,
               if accepted then Some(TableRuns.Snapshot(nodes, shards, fetchedAt, s.now)) else s.snapshot);
  }

  method TakePick(table: RouteTable, excluded: set<Url>, ghost s: State, ghost later: nat)
    returns (r: Option<Url>, ghost t: State)
    requires table.Valid() && s.table == table.Model() && s.now < later
    modifies table
    ensures table.Valid() && t.table == table.Model() && t.now == later
    ensures Step(table.text, s, Event.Pick(table.cursor), t)
  {
    r := table.AnyNodeExcluding(excluded);
    t := s.(table := table.Model(), now := later);
  }

  // ---------- a keyed request in a run ----------

  /** A keyed request that comes when the table is in state `i` of a run is never refused for want of a route, and is
      first sent to its shard's freshest source: the last hint if that is no older than the last accepted snapshot's
      request and names a member of it, otherwise that snapshot's target, otherwise the seed dealt to the shard. */
  method KeyedCall(table: RouteTable, key: bytes, shardFor: (bytes, nat) -> nat, httpMethod: bytes,
                   turns: seq<Turn>, ghost seeds: seq<bytes>, ghost states: seq<State>, ghost events: seq<Event>,
                   ghost i: nat)
    returns (reply: Option<Answer>, ghost first: Url, ghost hops: seq<Hop>)
    requires table.Valid() && table.shardCount > 0 && ShardInRange(shardFor)
    requires |turns| == MAX_HOPS && TurnsInRange(turns, table.shardCount)
    requires IsRun(table.text, table.shardCount, seeds, states, events) && i < |states|
    requires states[i].table == table.Model() && table.leaders != map[]
    modifies table
    ensures table.Valid() && reply.Some? && hops != [] && hops[0].target == first
    ensures var s, shard, dealt := states[i], shardFor(key, table.shardCount), Seeds(table.text, seeds);
      if shard in s.hinted && (s.snapshot.Some? ==>
           && s.snapshot.value.requestedAt <= s.hinted[shard].at
           && s.hinted[shard].url in Urls(table.text, s.snapshot.value.nodes))
      then first == s.hinted[shard].url
      else if s.snapshot.Some? then PlacedAt(table.text, s.snapshot.value, shard, first)
      else dealt != [] && first == dealt[shard % |dealt|]
  {
    ghost var shard := shardFor(key, table.shardCount);
    ReadyTableResolvesEveryShard(table.text, table.shardCount, seeds, states, events, i, i, shard);
    FreshestSourceWins(table.text, table.shardCount, seeds, states, events, i, shard);
    ghost var start;
    reply, first, start, hops := RouteRequest(table, Some(key), shardFor, httpMethod, turns);
  }
}
