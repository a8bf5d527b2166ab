// The shard -> leader table (src/table.rs).
module RouteTable {
  import opened Wrappers
  import opened Bytes
  import opened UrlOrder
  import opened RoundRobin
  import opened BrainSnapshot
  import opened SnapshotLoops

  /** Members are distinct and in normal form, every leader is a member, and the table knows either no leader or
      the leader of exactly the configured shards. */
  ghost predicate TableInv(text: Text, t: Table) {
    && AllDistinct(t.nodes) && t.cursor < USIZE
    && (forall u :: u in t.nodes ==> text.normalize(u) == Some(u))
    && (forall s :: s in t.leaders ==> t.leaders[s] in t.nodes)
    && (forall s :: s in t.leaders <==> t.nodes != [] && 0 <= s < t.shardCount)
    && t.hints.Keys <= t.leaders.Keys
  }

  /** The member that a redirect's URL spells, if it spells one. */
  function KnownNode(text: Text, t: Table, url: bytes): Option<Url> {
    var normalized := text.normalize(url);
    if normalized.Some? && normalized.value in t.nodes then normalized else None
  }

  function HintAccepted(t: Table, shard: nat, known: Url, now: nat): Table {
    t.(leaders := t.leaders[shard := known], hints := t.hints[shard := now])
  }

  /** A hint for a configured shard keeps the invariant. */
  lemma HintKeepsInv(text: Text, t: Table, shard: nat, url: bytes, now: nat)
    requires TableInv(text, t) && shard < t.shardCount && KnownNode(text, t, url).Some?
    ensures TableInv(text, HintAccepted(t, shard, KnownNode(text, t, url).value, now))
  {
  }

  /** A snapshot keeps the invariant, and a hydrated table stays hydrated. */
  lemma SnapshotKeepsInv(text: Text, pre: Table, nodes: seq<BrainNode>, shards: seq<BrainShard>, fetchedAt: nat,
                         post: Table, applied: nat)
    requires Idempotent(text) && TableInv(text, pre)
    requires SnapshotOutcome(text, pre, nodes, shards, fetchedAt, post, applied)
    ensures TableInv(text, post)
    ensures pre.leaders != map[] ==> post.leaders != map[]
    ensures applied > 0 ==> post.leaders != map[]
  {
    if Acceptable(text, nodes, shards, pre.shardCount) {
      SortedDistinct(post.nodes);
      var n :| n in nodes && Route(text, n).Some?;
      assert Route(text, n).value in Elements(post.nodes);
      forall u | u in post.nodes ensures text.normalize(u) == Some(u) {
        assert u in Elements(post.nodes);
        var m :| m in nodes && Route(text, m) == Some(u);
        assert text.normalize(m.address) == Some(u);
      }
      forall s | s in post.leaders ensures post.leaders[s] in post.nodes {
        var shard := EveryShardPlaced(text, nodes, shards, pre.shardCount, s);
        assert LeaderFor(text, pre, nodes, shard, fetchedAt, post.leaders[s]);
        if !Overrides(pre, Urls(text, nodes), fetchedAt, s) {
          TargetIsMember(text, nodes, shard, post.leaders[s]);
        }
        assert post.leaders[s] in Elements(post.nodes);
      }
      if pre.shardCount > 0 { assert 0 in post.leaders; }
    }
  }

  lemma TargetIsMember(text: Text, nodes: seq<BrainNode>, shard: BrainShard, url: Url)
    requires Target(text, nodes, shard, url)
    ensures url in Urls(text, nodes)
  {
  }

  // ---------- seeds ----------

  /** Seed URLs in normal form, first occurrences only. */
  ghost function Seeds(text: Text, seeds: seq<bytes>): (r: seq<Url>)
    ensures AllDistinct(r)
    ensures forall u :: u in r <==> exists i :: 0 <= i < |seeds| && text.normalize(seeds[i]) == Some(u)
  {
    if seeds == [] then []
    else
      var before, last := Seeds(text, seeds[..|seeds| - 1]), text.normalize(seeds[|seeds| - 1]);
      if last.Some? && last.value !in before then before + [last.value] else before
  }

  method Deduplicate(text: Text, seeds: seq<bytes>) returns (kept: seq<Url>)
    ensures kept == Seeds(text, seeds)
  {
    kept := [];
    for i := 0 to |seeds|
      invariant kept == Seeds(text, seeds[..i])
    {
      assert seeds[..i + 1][..i] == seeds[..i];
      var normalized := text.normalize(seeds[i]);
      if normalized.Some? && normalized.value !in kept {
        kept := kept + [normalized.value];
      }
    }
    assert seeds[..|seeds|] == seeds;
  }

  ghost function Dealt(nodes: seq<Url>, shardCount: nat): map<nat, Url> {
    map s: nat | s in Below(shardCount) && nodes != [] :: nodes[s % |nodes|]
  }

  method Deal(nodes: seq<Url>, shardCount: nat) returns (leaders: map<nat, Url>)
    ensures leaders == Dealt(nodes, shardCount)
  {
    leaders := map[];
    if nodes != [] {
      for shard := 0 to shardCount
        invariant forall s :: s in leaders <==> 0 <= s < shard
        invariant forall s :: s in leaders ==> leaders[s] == nodes[s % |nodes|]
      {
        leaders := leaders[shard := nodes[shard % |nodes|]];
      }
    }
  }

  /** The provisional table: shards are dealt out to the seeds in turn. */
  ghost function Provisional(text: Text, shardCount: nat, seeds: seq<bytes>): Table {
    var nodes := Seeds(text, seeds);
    Table(shardCount, nodes, map[], Dealt(nodes, shardCount), map[], 0)
  }

  lemma ProvisionalInv(text: Text, shardCount: nat, seeds: seq<bytes>)
    requires Idempotent(text)
    ensures TableInv(text, Provisional(text, shardCount, seeds))
  {
  }

  // ---------- the object ----------

  class RouteTable {
    const shardCount: nat
    const text: Text
    var nodes: seq<Url>
    var metadata: map<Url, NodeMetadata>
    var leaders: map<nat, Url>
    var hints: map<nat, nat>
    var cursor: nat

    ghost function Model(): Table
      reads this
    {
      Table(shardCount, nodes, metadata, leaders, hints, cursor)
    }

    ghost predicate Valid()
      reads this
    {
      Idempotent(text) && TableInv(text, Model())
    }

    constructor (shardCount: nat, seeds: seq<bytes>, text: Text)
      requires Idempotent(text)
      ensures Valid() && this.text == text
      ensures Model() == Provisional(text, shardCount, seeds)
    {
      this.shardCount := shardCount;
      this.text := text;
      metadata := map[];
      hints := map[];
      cursor := 0;
      var kept := Deduplicate(text, seeds);
      var dealt := Deal(kept, shardCount);
      nodes := kept;
      leaders := dealt;
      ProvisionalInv(text, shardCount, seeds);
    }

    predicate IsHydrated()
      reads this
    {
      leaders != map[]
    }

    function LeaderOf(shard: nat): (r: Option<Url>)
      requires Valid()
      reads this
      ensures r.Some? ==> shard in leaders && r.value == leaders[shard] && r.value in nodes
      ensures IsHydrated() ==> (r.Some? <==> shard < shardCount)
    {
      if shard in leaders then Some(leaders[shard]) else None
    }

    method ValidateNodeHint(url: bytes) returns (r: Option<Url>)
      requires Valid()
      ensures r == KnownNode(text, Model(), url)
      ensures r.Some? <==> exists u :: u in nodes && text.normalize(url) == Some(u)
      ensures r.Some? ==> text.normalize(url) == r
    {
      var normalized := text.normalize(url);
      if normalized.None? {
        return None;
      }
      for i := 0 to |nodes|
        invariant normalized.value !in nodes[..i]
      {
        if text.normalize(nodes[i]) == normalized {
          return Some(nodes[i]);
        }
      }
      assert nodes[..|nodes|] == nodes;
      return None;
    }

    /** Only a member can become a leader, whatever a redirect says; `now` stamps the hint. */
    method AcceptLeaderHint(shard: nat, url: bytes, now: nat) returns (r: Option<Url>)
      requires Valid()
      modifies this`leaders, this`hints
      ensures r == KnownNode(text, old(Model()), url)
      ensures Model() == if r.Some? then HintAccepted(old(Model()), shard, r.value, now) else old(Model())
      ensures r.Some? <==> exists u :: u in nodes && text.normalize(url) == Some(u)
      ensures r.Some? ==>
          text.normalize(url) == r && leaders == old(leaders)[shard := r.value] && hints == old(hints)[shard := now]
      ensures r.None? ==> leaders == old(leaders) && hints == old(hints)
      ensures shard < shardCount ==> Valid()
    {
      r := ValidateNodeHint(url);
      if r.Some? {
        leaders := leaders[shard := r.value];
        hints := hints[shard := now];
        if shard < shardCount { HintKeepsInv(text, old(Model()), shard, url, now); }
      }
    }

    method AnyNodeExcluding(excluded: set<Url>) returns (r: Option<Url>)
      requires Valid()
      modifies this`cursor
      ensures Valid() && Model() == old(Model()).(cursor := cursor)
      ensures PickOutcome(nodes, excluded, old(cursor), r, cursor)
    {
      if |nodes| == 0 {
        return None;
      }
      ghost var start := cursor;
      for tries := 0 to |nodes|
        invariant Scanned(nodes, excluded, start, tries, cursor)
      {
        var i := cursor % |nodes|;
        ScanStep(nodes, excluded, start, tries, cursor);
        cursor := (cursor + 1) % USIZE;
        if nodes[i] !in excluded {
          return Some(nodes[i]);
        }
      }
      return None;
    }

    method AnyNode() returns (r: Option<Url>)
      requires Valid()
      modifies this`cursor
      ensures Valid() && Model() == old(Model()).(cursor := cursor)
      ensures PickOutcome(nodes, {}, old(cursor), r, cursor)
      ensures r.Some? <==> nodes != []
      ensures r.Some? ==> cursor == if old(cursor) == 0xFFFF_FFFF_FFFF_FFFF then 0 else old(cursor) + 1
    {
      r := AnyNodeExcluding({});
      ExclusionFree(nodes, old(cursor), r, cursor);
    }

    /** All or nothing: an acceptable snapshot replaces membership and leaders, any other leaves the table alone. */
    method ApplyBrainSnapshotAt(nodes: seq<BrainNode>, shards: seq<BrainShard>, fetchedAt: nat) returns (applied: nat)
      requires Valid()
      modifies this`nodes, this`metadata, this`leaders, this`hints
      ensures Valid()
      ensures SnapshotOutcome(text, old(Model()), nodes, shards, fetchedAt, Model(), applied)
    {
      var ok, members, described, updated, retained :=
        Reload(text, Model(), shardCount, leaders, hints, nodes, shards, fetchedAt);
      if !ok {
        return 0;
      }
      this.hints := retained;
      this.nodes := members;
      this.metadata := described;
      this.leaders := updated;
      applied := |updated|;
    }
  }

  // ---------- the snapshot's values ----------

  /** The table `pre` may be replaced by `post`. */
  ghost predicate Reloads(text: Text, pre: Table, nodes: seq<BrainNode>, shards: seq<BrainShard>, fetchedAt: nat,
                          post: Table)
  {
    Replaces(text, pre, nodes, shards, fetchedAt, post) && TableInv(text, post) && |post.leaders| == pre.shardCount
  }

  /** What an acceptable snapshot and the hints learned since its request make of the table. */
  method Reload(text: Text, ghost pre: Table, shardCount: nat, leaders: map<nat, Url>, hints: map<nat, nat>,
                nodes: seq<BrainNode>, shards: seq<BrainShard>, fetchedAt: nat)
    returns (ok: bool, members: seq<Url>, described: map<Url, NodeMetadata>, updated: map<nat, Url>,
             retained: map<nat, nat>)
    requires Idempotent(text) && TableInv(text, pre)
    requires shardCount == pre.shardCount && leaders == pre.leaders && hints == pre.hints
    ensures ok <==> Acceptable(text, nodes, shards, shardCount)
    ensures ok ==>
        Reloads(text, pre, nodes, shards, fetchedAt,
                Table(shardCount, members, described, updated, retained, pre.cursor))
  {
    members, updated, retained := [], map[], map[];
    var byId, placed;
    ok, byId, described, placed := Validate(text, nodes, shards, shardCount);
    if ok {
      members := SortUrls(byId.Values);
      retained := FreshHints(hints, fetchedAt);
      updated := Overlay(placed, leaders, retained, members);
      IndexedUrls(text, nodes, byId);
      Applies(text, pre, nodes, shards, fetchedAt, placed,
              Table(shardCount, members, described, updated, retained, pre.cursor));
    }
  }

  lemma IndexedUrls(text: Text, nodes: seq<BrainNode>, byId: map<bytes, Url>)
    requires Indexed(text, nodes, byId)
    ensures byId.Values == Urls(text, nodes)
  {
    forall url | url in byId.Values ensures url in Urls(text, nodes) {
      var id :| id in byId && byId[id] == url;
      assert Serves(text, nodes, id, url);
      var n :| n in nodes && Route(text, n) == Some(url);
      assert Route(text, n).value in Urls(text, nodes);
    }
    forall n | n in nodes && Route(text, n).Some? ensures Route(text, n).value in byId.Values {
      assert Serves(text, nodes, text.trim(n.nodeId), Route(text, n).value);
    }
  }

  lemma Overlaid(text: Text, pre: Table, nodes: seq<BrainNode>, shards: seq<BrainShard>, fetchedAt: nat,
                 placed: map<nat, Url>, post: Table)
    requires PlacedSoFar(text, nodes, shards, placed) && Elements(post.nodes) == Urls(text, nodes)
    requires Overlays(pre.leaders, FreshHints(pre.hints, fetchedAt), post.nodes, placed, post.leaders)
    ensures forall s :: s in shards ==>
        s.shardId in post.leaders && LeaderFor(text, pre, nodes, s, fetchedAt, post.leaders[s.shardId])
  {
  }

  lemma Assembled(text: Text, pre: Table, nodes: seq<BrainNode>, shards: seq<BrainShard>, fetchedAt: nat, post: Table)
    requires post.shardCount == pre.shardCount && post.cursor == pre.cursor
    requires Sorted(post.nodes) && Elements(post.nodes) == Urls(text, nodes) && Described(text, nodes, post.metadata)
    requires post.hints == FreshHints(pre.hints, fetchedAt) && post.leaders.Keys == Below(pre.shardCount)
    requires forall s :: s in shards ==>
        s.shardId in post.leaders && LeaderFor(text, pre, nodes, s, fetchedAt, post.leaders[s.shardId])
    ensures Replaces(text, pre, nodes, shards, fetchedAt, post)
  {
  }

  /** What the loops computed is the table the snapshot calls for. */
  lemma Applies(text: Text, pre: Table, nodes: seq<BrainNode>, shards: seq<BrainShard>, fetchedAt: nat,
                placed: map<nat, Url>, post: Table)
    requires Idempotent(text) && TableInv(text, pre) && Acceptable(text, nodes, shards, pre.shardCount)
    requires PlacedSoFar(text, nodes, shards, placed) && placed.Keys == Below(pre.shardCount)
    requires post.shardCount == pre.shardCount && post.cursor == pre.cursor
    requires Sorted(post.nodes) && Elements(post.nodes) == Urls(text, nodes) && Described(text, nodes, post.metadata)
    requires post.hints == FreshHints(pre.hints, fetchedAt)
    requires Overlays(pre.leaders, post.hints, post.nodes, placed, post.leaders)
    ensures Reloads(text, pre, nodes, shards, fetchedAt, post)
  {
    assert |post.leaders| == |post.leaders.Keys|;
    Overlaid(text, pre, nodes, shards, fetchedAt, placed, post);
    Assembled(text, pre, nodes, shards, fetchedAt, post);
    SnapshotKeepsInv(text, pre, nodes, shards, fetchedAt, post, pre.shardCount);
  }
}
