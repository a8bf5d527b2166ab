// The loops of `apply_brain_snapshot_at` (src/table.rs), each against what BrainSnapshot says of the whole list.
module SnapshotLoops {
  import opened Wrappers
  import opened Bytes
  import opened UrlOrder
  import opened BrainSnapshot

  /** The URL of every routable name. */
  ghost predicate Indexed(text: Text, nodes: seq<BrainNode>, byId: map<bytes, Url>) {
    forall id, url :: Serves(text, nodes, id, url) <==> id in byId && byId[id] == url
  }

  ghost predicate Described(text: Text, nodes: seq<BrainNode>, metadata: map<Url, NodeMetadata>) {
    && metadata.Keys == Urls(text, nodes)
    && forall n :: n in nodes && Route(text, n).Some? ==> metadata[Route(text, n).value] == Meta(n)
  }

  // ---------- one more node ----------

  lemma ServesExtended(text: Text, nodes: seq<BrainNode>, n: BrainNode)
    ensures forall id, url :: Serves(text, nodes + [n], id, url) <==>
              Serves(text, nodes, id, url) || (Route(text, n) == Some(url) && text.trim(n.nodeId) == id)
    ensures Urls(text, nodes + [n]) == Urls(text, nodes) + if Route(text, n).Some? then {Route(text, n).value} else {}
  {
  }

  lemma SkippedNode(text: Text, nodes: seq<BrainNode>, n: BrainNode, byId: map<bytes, Url>,
                    metadata: map<Url, NodeMetadata>)
    requires Indexed(text, nodes, byId) && Described(text, nodes, metadata) && Distinct(text, nodes)
    requires Route(text, n).None?
    ensures Indexed(text, nodes + [n], byId) && Described(text, nodes + [n], metadata) && Distinct(text, nodes + [n])
  {
    ServesExtended(text, nodes, n);
  }

  lemma AddedNode(text: Text, nodes: seq<BrainNode>, n: BrainNode, byId: map<bytes, Url>,
                  metadata: map<Url, NodeMetadata>)
    requires Indexed(text, nodes, byId) && Described(text, nodes, metadata) && Distinct(text, nodes)
    requires Route(text, n).Some? && text.trim(n.nodeId) !in byId && Route(text, n).value !in metadata
    ensures Indexed(text, nodes + [n], byId[text.trim(n.nodeId) := Route(text, n).value])
    ensures Described(text, nodes + [n], metadata[Route(text, n).value := Meta(n)])
    ensures Distinct(text, nodes + [n])
  {
    ServesExtended(text, nodes, n);
    DistinctAdded(text, nodes, n, byId, metadata);
  }

  lemma DistinctAdded(text: Text, nodes: seq<BrainNode>, n: BrainNode, byId: map<bytes, Url>,
                      metadata: map<Url, NodeMetadata>)
    requires Indexed(text, nodes, byId) && Described(text, nodes, metadata) && Distinct(text, nodes)
    requires Route(text, n).Some? && text.trim(n.nodeId) !in byId && Route(text, n).value !in metadata
    ensures Distinct(text, nodes + [n])
  {
    forall a | 0 <= a < |nodes| && Route(text, nodes[a]).Some?
      ensures text.trim(nodes[a].nodeId) != text.trim(n.nodeId) && Route(text, nodes[a]) != Route(text, n) {
      assert nodes[a] in nodes;
      assert Serves(text, nodes, text.trim(nodes[a].nodeId), Route(text, nodes[a]).value);
      assert Route(text, nodes[a]).value in Urls(text, nodes);
    }
  }

  /** A second routable node with a known name or URL spoils the whole list. */
  lemma ClashingNode(text: Text, nodes: seq<BrainNode>, i: nat, byId: map<bytes, Url>, metadata: map<Url, NodeMetadata>)
    requires i < |nodes| && Indexed(text, nodes[..i], byId) && Described(text, nodes[..i], metadata)
    requires Route(text, nodes[i]).Some?
    requires text.trim(nodes[i].nodeId) in byId || Route(text, nodes[i]).value in metadata
    ensures !Distinct(text, nodes)
  {
    var id, url := text.trim(nodes[i].nodeId), Route(text, nodes[i]).value;
    if id in byId {
      assert Serves(text, nodes[..i], id, byId[id]);
      var m :| m in nodes[..i] && Route(text, m).Some? && text.trim(m.nodeId) == id;
      var a :| 0 <= a < i && nodes[a] == m;
    } else {
      var m :| m in nodes[..i] && Route(text, m) == Some(url);
      var a :| 0 <= a < i && nodes[a] == m;
    }
  }

  lemma Longer(nodes: seq<BrainNode>, i: nat)
    requires i < |nodes|
    ensures nodes[..i + 1] == nodes[..i] + [nodes[i]]
  {
  }

  /** The first loop: what is routable, or nothing if the list is not acceptable. */
  method CollectNodes(text: Text, nodes: seq<BrainNode>)
    returns (ok: bool, byId: map<bytes, Url>, metadata: map<Url, NodeMetadata>)
    ensures ok <==> AcceptableNodes(text, nodes)
    ensures ok ==> Indexed(text, nodes, byId) && Described(text, nodes, metadata)
  {
    byId, metadata := map[], map[];
    for i := 0 to |nodes|
      invariant Indexed(text, nodes[..i], byId) && Described(text, nodes[..i], metadata)
      invariant Distinct(text, nodes[..i])
      invariant forall n :: n in nodes[..i] && Healthy(n) ==> text.trim(n.nodeId) != []
    {
      var n := nodes[i];
      Longer(nodes, i);
      if !Healthy(n) {
        SkippedNode(text, nodes[..i], n, byId, metadata);
        continue;
      }
      var id := text.trim(n.nodeId);
      if id == [] {
        assert n in nodes;
        return false, byId, metadata;
      }
      var url := text.normalize(n.address);
      if url.None? {
        SkippedNode(text, nodes[..i], n, byId, metadata);
        continue;
      }
      if id in byId || url.value in metadata {
        ClashingNode(text, nodes, i, byId, metadata);
        return false, byId, metadata;
      }
      AddedNode(text, nodes[..i], n, byId, metadata);
      byId := byId[id := url.value];
      metadata := metadata[url.value := Meta(n)];
    }
    assert nodes[..|nodes|] == nodes;
    ok := byId != map[];
    NotEmpty(text, nodes, byId);
  }

  lemma NotEmpty(text: Text, nodes: seq<BrainNode>, byId: map<bytes, Url>)
    requires Indexed(text, nodes, byId)
    ensures byId != map[] <==> exists n :: n in nodes && Route(text, n).Some?
  {
    if byId != map[] {
      var id :| id in byId;
      assert Serves(text, nodes, id, byId[id]);
    }
    if n :| n in nodes && Route(text, n).Some? {
      assert Serves(text, nodes, text.trim(n.nodeId), Route(text, n).value);
    }
  }

  // ---------- shards ----------

  lemma IndexedRoutable(text: Text, nodes: seq<BrainNode>, byId: map<bytes, Url>, id: bytes)
    requires Indexed(text, nodes, byId)
    ensures id in byId <==> Routable(text, nodes, id)
    ensures id in byId ==> Serves(text, nodes, id, byId[id])
  {
    if id in byId { assert Serves(text, nodes, id, byId[id]); }
  }

  method TargetOf(ghost text: Text, ghost nodes: seq<BrainNode>, byId: map<bytes, Url>, shard: BrainShard)
    returns (r: Option<Url>)
    requires Indexed(text, nodes, byId)
    ensures r.Some? <==> Placed(text, nodes, shard)
    ensures r.Some? ==> Target(text, nodes, shard, r.value)
  {
    if shard.preferredLeader.Some? {
      IndexedRoutable(text, nodes, byId, shard.preferredLeader.value);
      if shard.preferredLeader.value in byId {
        assert Target(text, nodes, shard, byId[shard.preferredLeader.value]);
        return Some(byId[shard.preferredLeader.value]);
      }
    }
    for i := 0 to |shard.replicas|
      invariant forall j :: 0 <= j < i ==> !Routable(text, nodes, shard.replicas[j])
    {
      IndexedRoutable(text, nodes, byId, shard.replicas[i]);
      if shard.replicas[i] in byId {
        assert Target(text, nodes, shard, byId[shard.replicas[i]]);
        return Some(byId[shard.replicas[i]]);
      }
    }
    assert forall j, url :: 0 <= j < |shard.replicas| && Serves(text, nodes, shard.replicas[j], url) ==>
        Routable(text, nodes, shard.replicas[j]);
    return None;
  }

  /** The placement of the shards listed so far. */
  ghost predicate PlacedSoFar(text: Text, nodes: seq<BrainNode>, shards: seq<BrainShard>, placed: map<nat, Url>) {
    && placed.Keys == ShardIds(shards)
    && forall s :: s in shards ==> Target(text, nodes, s, placed[s.shardId])
  }

  lemma ClashingShard(shards: seq<BrainShard>, i: nat)
    requires i < |shards| && shards[i].shardId in ShardIds(shards[..i])
    ensures !DistinctShards(shards)
  {
  }

  lemma PlacedExtended(text: Text, nodes: seq<BrainNode>, shards: seq<BrainShard>, s: BrainShard, placed: map<nat, Url>,
                       url: Url)
    requires PlacedSoFar(text, nodes, shards, placed) && s.shardId !in placed
    requires Target(text, nodes, s, url) && DistinctShards(shards)
    ensures PlacedSoFar(text, nodes, shards + [s], placed[s.shardId := url]) && DistinctShards(shards + [s])
  {
  }

  /** The second loop: a target for every configured shard, or nothing if the placement is not acceptable. */
  method PlaceShards(ghost text: Text, ghost nodes: seq<BrainNode>, byId: map<bytes, Url>, shards: seq<BrainShard>,
                     shardCount: nat)
    returns (ok: bool, placed: map<nat, Url>)
    requires Indexed(text, nodes, byId)
    ensures ok <==> AcceptableShards(text, nodes, shards, shardCount)
    ensures ok ==> PlacedSoFar(text, nodes, shards, placed)
  {
    placed := map[];
    for i := 0 to |shards|
      invariant PlacedSoFar(text, nodes, shards[..i], placed) && DistinctShards(shards[..i])
      invariant forall s :: s in shards[..i] ==> s.shardId < shardCount && Placed(text, nodes, s)
    {
      var s := shards[i];
      assert s in shards && shards[..i + 1] == shards[..i] + [s];
      if s.shardId >= shardCount {
        return false, placed;
      }
      var target := TargetOf(text, nodes, byId, s);
      if target.None? {
        return false, placed;
      }
      if s.shardId in placed {
        ClashingShard(shards, i);
        return false, placed;
      }
      PlacedExtended(text, nodes, shards[..i], s, placed, target.value);
      placed := placed[s.shardId := target.value];
    }
    assert shards[..|shards|] == shards;
    DistinctIdsCount(shards);
    assert |placed| == |placed.Keys|;
    ok := |placed| == shardCount;
  }

  lemma PlacesAll(text: Text, nodes: seq<BrainNode>, shards: seq<BrainShard>, placed: map<nat, Url>, shardCount: nat)
    requires AcceptableShards(text, nodes, shards, shardCount) && PlacedSoFar(text, nodes, shards, placed)
    ensures placed.Keys == Below(shardCount) && |placed| == shardCount
  {
    DistinctIdsCount(shards);
    FullBelow(ShardIds(shards), shardCount);
    assert |placed| == |placed.Keys|;
  }

  /** Everything that can reject a snapshot. */
  method Validate(text: Text, nodes: seq<BrainNode>, shards: seq<BrainShard>, shardCount: nat)
    returns (ok: bool, byId: map<bytes, Url>, described: map<Url, NodeMetadata>, placed: map<nat, Url>)
    ensures ok <==> Acceptable(text, nodes, shards, shardCount)
    ensures ok ==>
        Indexed(text, nodes, byId) && Described(text, nodes, described) && PlacedSoFar(text, nodes, shards, placed)
    ensures ok ==> placed.Keys == Below(shardCount) && |placed| == shardCount
  {
    placed := map[];
    ok, byId, described := CollectNodes(text, nodes);
    if ok {
      ok, placed := PlaceShards(text, nodes, byId, shards, shardCount);
      if ok { PlacesAll(text, nodes, shards, placed, shardCount); }
    }
  }

  // ---------- membership and hints ----------

  method SortUrls(urls: set<Url>) returns (sorted: seq<Url>)
    ensures Sorted(sorted) && Elements(sorted) == urls
  {
    sorted := [];
    var remaining := urls;
    while remaining != {}
      invariant remaining <= urls && Sorted(sorted) && Elements(sorted) == urls - remaining
      decreases remaining
    {
      var url :| url in remaining;
      assert url in sorted ==> url in Elements(sorted);
      sorted := Insert(sorted, url);
      remaining := remaining - {url};
    }
  }

  /** `leaders` is `placed`, except where a retained hint's leader is still a member. */
  ghost predicate Overlays(current: map<nat, Url>, hints: map<nat, nat>, members: seq<Url>, placed: map<nat, Url>,
                           leaders: map<nat, Url>)
  {
    && leaders.Keys == placed.Keys
    && forall s :: s in placed ==>
         leaders[s] == if s in hints && s in current && current[s] in members then current[s] else placed[s]
  }

  method Overlay(placed: map<nat, Url>, current: map<nat, Url>, hints: map<nat, nat>, members: seq<Url>)
    returns (leaders: map<nat, Url>)
    requires hints.Keys <= placed.Keys
    ensures Overlays(current, hints, members, placed, leaders)
  {
    leaders := placed;
    var remaining := hints.Keys;
    while remaining != {}
      invariant remaining <= hints.Keys && leaders.Keys == placed.Keys
      invariant forall s :: s in placed ==>
          leaders[s] == if s in hints && s !in remaining && s in current && current[s] in members
                        then current[s] else placed[s]
      decreases remaining
    {
      var shard :| shard in remaining;
      if shard in current && current[shard] in members {
        leaders := leaders[shard := current[shard]];
      }
      remaining := remaining - {shard};
    }
  }
}
