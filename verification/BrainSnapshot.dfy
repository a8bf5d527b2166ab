// What a control-plane snapshot means for the route table (src/table.rs), stated without any order of its lists.
module BrainSnapshot {
  import opened Wrappers
  import opened Bytes
  import opened UrlOrder

  type Url = bytes

  /** The string functions the model does not look into: `normalize_node_url` and `str::trim`. */
  datatype Text = Text(normalize: bytes -> Option<Url>, trim: bytes -> bytes)

  /** Normalizing a normalized URL changes nothing. */
  ghost predicate Idempotent(text: Text) {
    forall a :: text.normalize(a).Some? ==> text.normalize(text.normalize(a).value) == text.normalize(a)
  }

  datatype NodeMetadata = NodeMetadata(cloudProvider: bytes, region: bytes, clusterId: bytes)

  datatype BrainNode = BrainNode(
    nodeId: bytes, address: bytes, health: bytes,
    cloudProvider: Option<bytes>, region: Option<bytes>, clusterId: Option<bytes>)

  datatype BrainShard = BrainShard(shardId: nat, replicas: seq<bytes>, preferredLeader: Option<bytes>)

  /** The value of a route table object. */
  datatype Table = Table(
    shardCount: nat, nodes: seq<Url>, metadata: map<Url, NodeMetadata>,
    leaders: map<nat, Url>, hints: map<nat, nat>, cursor: nat)

  // ---------- nodes ----------

  /** `eq_ignore_ascii_case("healthy")` */
  predicate Healthy(n: BrainNode) {
    |n.health| == 7 && forall i :: 0 <= i < 7 ==> Lower(n.health[i]) == Ascii("healthy")[i]
  }

  /** Each byte is that letter of the word, in one case or the other. */
  lemma HealthyExactly(n: BrainNode)
    ensures Healthy(n) <==>
            |n.health| == 7
            && forall i :: 0 <= i < 7 ==> n.health[i] == Ascii("healthy")[i] || n.health[i] == Ascii("HEALTHY")[i]
  {
    forall i | 0 <= i < 7 && i < |n.health|
      ensures Lower(n.health[i]) == Ascii("healthy")[i] <==>
              n.health[i] == Ascii("healthy")[i] || n.health[i] == Ascii("HEALTHY")[i]
    {
      assert Ascii("healthy")[i] == Ascii("HEALTHY")[i] + 32 && 65 <= Ascii("HEALTHY")[i] <= 90;
    }
  }

  function OrEmpty(v: Option<bytes>): bytes {
    if v.Some? then v.value else []
  }

  function Meta(n: BrainNode): NodeMetadata {
    NodeMetadata(OrEmpty(n.cloudProvider), OrEmpty(n.region), OrEmpty(n.clusterId))
  }

  /** Where a healthy node with a usable address is reached. */
  function Route(text: Text, n: BrainNode): Option<Url> {
    if Healthy(n) then text.normalize(n.address) else None
  }

  ghost predicate Distinct(text: Text, nodes: seq<BrainNode>) {
    forall a, b :: 0 <= a < b < |nodes| && Route(text, nodes[a]).Some? && Route(text, nodes[b]).Some? ==>
      text.trim(nodes[a].nodeId) != text.trim(nodes[b].nodeId) && Route(text, nodes[a]) != Route(text, nodes[b])
  }

  ghost predicate Named(text: Text, nodes: seq<BrainNode>) {
    forall n :: n in nodes && Healthy(n) ==> text.trim(n.nodeId) != []
  }

  /** Every healthy node is named, routable nodes share neither name nor URL, and there is one. */
  ghost predicate AcceptableNodes(text: Text, nodes: seq<BrainNode>) {
    Named(text, nodes) && Distinct(text, nodes) && exists n :: n in nodes && Route(text, n).Some?
  }

  /** Some routable node named `id` is reached at `url`. */
  ghost predicate Serves(text: Text, nodes: seq<BrainNode>, id: bytes, url: Url) {
    exists n :: n in nodes && Route(text, n) == Some(url) && text.trim(n.nodeId) == id
  }

  ghost predicate Routable(text: Text, nodes: seq<BrainNode>, id: bytes) {
    exists url :: Serves(text, nodes, id, url)
  }

  ghost function Urls(text: Text, nodes: seq<BrainNode>): set<Url> {
    set n | n in nodes && Route(text, n).Some? :: Route(text, n).value
  }

  // ---------- shards ----------

  /** The preferred leader if it is routable, otherwise the first routable replica. */
  ghost predicate Target(text: Text, nodes: seq<BrainNode>, shard: BrainShard, url: Url) {
    if shard.preferredLeader.Some? && Routable(text, nodes, shard.preferredLeader.value)
    then Serves(text, nodes, shard.preferredLeader.value, url)
    else exists i :: 0 <= i < |shard.replicas| && Serves(text, nodes, shard.replicas[i], url)
           && forall j :: 0 <= j < i ==> !Routable(text, nodes, shard.replicas[j])
  }

  ghost predicate Placed(text: Text, nodes: seq<BrainNode>, shard: BrainShard) {
    exists url :: Target(text, nodes, shard, url)
  }

  ghost predicate DistinctShards(shards: seq<BrainShard>) {
    forall a, b :: 0 <= a < b < |shards| ==> shards[a].shardId != shards[b].shardId
  }

  /** Each configured shard is placed exactly once, on something routable. */
  ghost predicate AcceptableShards(text: Text, nodes: seq<BrainNode>, shards: seq<BrainShard>, shardCount: nat) {
    && (forall s :: s in shards ==> s.shardId < shardCount && Placed(text, nodes, s))
    && DistinctShards(shards) && |shards| == shardCount
  }

  ghost predicate Acceptable(text: Text, nodes: seq<BrainNode>, shards: seq<BrainShard>, shardCount: nat) {
    AcceptableNodes(text, nodes) && AcceptableShards(text, nodes, shards, shardCount)
  }

  // ---------- the new table ----------

  function FreshHints(hints: map<nat, nat>, fetchedAt: nat): map<nat, nat> {
    map s | s in hints && fetchedAt <= hints[s] :: hints[s]
  }

  /** A hint learned since the snapshot was requested keeps its shard's leader if that is still a member. */
  ghost predicate Overrides(pre: Table, members: set<Url>, fetchedAt: nat, s: nat) {
    s in pre.hints && fetchedAt <= pre.hints[s] && s in pre.leaders && pre.leaders[s] in members
  }

  ghost predicate LeaderFor(text: Text, pre: Table, nodes: seq<BrainNode>, shard: BrainShard, fetchedAt: nat, url: Url)
  {
    if Overrides(pre, Urls(text, nodes), fetchedAt, shard.shardId) then url == pre.leaders[shard.shardId]
    else Target(text, nodes, shard, url)
  }

  /** The table after an accepted snapshot. */
  ghost predicate Replaces(text: Text, pre: Table, nodes: seq<BrainNode>, shards: seq<BrainShard>, fetchedAt: nat,
                           post: Table)
  {
    && post.shardCount == pre.shardCount && post.cursor == pre.cursor
    && Sorted(post.nodes) && Elements(post.nodes) == Urls(text, nodes)
    && post.metadata.Keys == Urls(text, nodes)
    && (forall n :: n in nodes && Route(text, n).Some? ==> post.metadata[Route(text, n).value] == Meta(n))
    && post.hints == FreshHints(pre.hints, fetchedAt)
    && (forall s :: s in post.leaders <==> 0 <= s < pre.shardCount)
    && (forall s :: s in shards ==>
          s.shardId in post.leaders && LeaderFor(text, pre, nodes, s, fetchedAt, post.leaders[s.shardId]))
  }

  /** All or nothing. */
  ghost predicate SnapshotOutcome(text: Text, pre: Table, nodes: seq<BrainNode>, shards: seq<BrainShard>,
                                  fetchedAt: nat, post: Table, applied: nat)
  {
    if Acceptable(text, nodes, shards, pre.shardCount)
    then applied == pre.shardCount && Replaces(text, pre, nodes, shards, fetchedAt, post)
    else applied == 0 && post == pre
  }

  /** The node says it is healthy, in any letter case, and its address is a URL with normal form `u`. */
  ghost predicate Reports(text: Text, n: BrainNode, u: Url) {
    && |n.health| == 7 && text.normalize(n.address) == Some(u)
    && forall i :: 0 <= i < 7 ==> n.health[i] == Ascii("healthy")[i] || n.health[i] == Ascii("HEALTHY")[i]
  }

  /** `v` is what the field says, and empty exactly if it is left out or empty. */
  ghost predicate Tells(field: Option<bytes>, v: bytes) {
    (v == [] && field.None?) || field == Some(v)
  }

  /** After an accepted snapshot the members are exactly the normal forms of the healthy nodes' addresses, one node
      each, and each member is described by its node. */
  lemma MembersExactly(text: Text, pre: Table, nodes: seq<BrainNode>, shards: seq<BrainShard>, fetchedAt: nat,
                       post: Table, u: Url)
    requires Acceptable(text, nodes, shards, pre.shardCount)
    requires Replaces(text, pre, nodes, shards, fetchedAt, post)
    ensures u in post.nodes <==> exists n :: n in nodes && Reports(text, n, u)
    ensures u in post.metadata <==> u in post.nodes
    ensures forall a, b :: 0 <= a < b < |nodes| ==> !(Reports(text, nodes[a], u) && Reports(text, nodes[b], u))
    ensures forall n :: n in nodes && Reports(text, n, u) ==>
        && Tells(n.cloudProvider, post.metadata[u].cloudProvider)
        && Tells(n.region, post.metadata[u].region) && Tells(n.clusterId, post.metadata[u].clusterId)
  {
    assert u in post.nodes <==> u in Elements(post.nodes);
    forall n ensures Reports(text, n, u) <==> Route(text, n) == Some(u) { HealthyExactly(n); }
  }

  // ---------- order does not matter ----------

  /** The same entries, in any order. */
  ghost predicate Reordered<T>(a: seq<T>, b: seq<T>) {
    multiset(a) == multiset(b)
  }

  lemma ReorderedMembers<T>(a: seq<T>, b: seq<T>)
    requires Reordered(a, b)
    ensures forall x :: x in a <==> x in b
    ensures |a| == |b|
  {
    forall x ensures x in a <==> x in b {
      assert x in a <==> x in multiset(a);
      assert x in b <==> x in multiset(b);
    }
    assert |multiset(a)| == |a| && |multiset(b)| == |b|;
  }

  lemma TwicePresent<T>(s: seq<T>, a: nat, b: nat)
    requires a < b < |s| && s[a] == s[b]
    ensures multiset(s)[s[a]] >= 2
  {
    assert s == s[..b] + [s[b]] + s[b + 1..];
    assert s[a] in s[..b] && s[..b][a] == s[a];
  }

  /** Two occurrences have two places. */
  lemma {:induction false} TwoPlaces<T>(s: seq<T>, x: T) returns (a: nat, b: nat)
    requires multiset(s)[x] >= 2
    ensures a < b < |s| && s[a] == x && s[b] == x
  {
    var last := |s| - 1;
    assert s == s[..last] + [s[last]];
    if s[last] == x {
      assert x in multiset(s[..last]);
      a :| 0 <= a < last && s[a] == x;
      b := last;
    } else {
      assert multiset(s)[x] == multiset(s[..last])[x];
      a, b := TwoPlaces(s[..last], x);
    }
  }

  /** Being pairwise apart does not depend on order, for any relation that is symmetric. */
  lemma DistinctReordered(text: Text, a: seq<BrainNode>, b: seq<BrainNode>)
    requires Reordered(a, b) && Distinct(text, a)
    ensures Distinct(text, b)
  {
    ReorderedMembers(a, b);
    forall i, j | 0 <= i < j < |b| && Route(text, b[i]).Some? && Route(text, b[j]).Some?
      ensures text.trim(b[i].nodeId) != text.trim(b[j].nodeId) && Route(text, b[i]) != Route(text, b[j])
    {
      var p, q := Apart(a, b, i, j);
      if p < q {
        assert Route(text, a[p]).Some? && Route(text, a[q]).Some?;
      } else {
        assert Route(text, a[q]).Some? && Route(text, a[p]).Some?;
      }
    }
  }

  /** Two places of one listing have two places in the other. */
  lemma Apart<T>(a: seq<T>, b: seq<T>, i: nat, j: nat) returns (p: nat, q: nat)
    requires Reordered(a, b) && i < j < |b|
    ensures p < |a| && q < |a| && p != q && a[p] == b[i] && a[q] == b[j]
  {
    ReorderedMembers(a, b);
    if b[i] == b[j] {
      TwicePresent(b, i, j);
      p, q := TwoPlaces(a, b[i]);
    } else {
      p :| 0 <= p < |a| && a[p] == b[i];
      q :| 0 <= q < |a| && a[q] == b[j];
    }
  }

  lemma DistinctShardsReordered(a: seq<BrainShard>, b: seq<BrainShard>)
    requires Reordered(a, b) && DistinctShards(a)
    ensures DistinctShards(b)
  {
    forall i, j | 0 <= i < j < |b| ensures b[i].shardId != b[j].shardId {
      var p, q := Apart(a, b, i, j);
      if p < q {
        assert a[p].shardId != a[q].shardId;
      } else {
        assert a[q].shardId != a[p].shardId;
      }
    }
  }

  lemma AcceptableReordered(text: Text, n1: seq<BrainNode>, n2: seq<BrainNode>, s1: seq<BrainShard>,
                            s2: seq<BrainShard>, count: nat)
    requires Reordered(n1, n2) && Reordered(s1, s2) && Acceptable(text, n1, s1, count)
    ensures Acceptable(text, n2, s2, count)
  {
    ReorderedMembers(n1, n2);
    ReorderedMembers(s1, s2);
    DistinctReordered(text, n1, n2);
    DistinctShardsReordered(s1, s2);
    forall s | s in s2 ensures Placed(text, n2, s) {
      var url :| Target(text, n1, s, url);
      TargetReordered(text, n1, n2, s, url);
    }
  }

  lemma ServesReordered(text: Text, n1: seq<BrainNode>, n2: seq<BrainNode>, id: bytes)
    requires Reordered(n1, n2)
    ensures forall url :: Serves(text, n1, id, url) <==> Serves(text, n2, id, url)
    ensures Routable(text, n1, id) <==> Routable(text, n2, id)
  {
    ReorderedMembers(n1, n2);
  }

  lemma TargetReordered(text: Text, n1: seq<BrainNode>, n2: seq<BrainNode>, shard: BrainShard, url: Url)
    requires Reordered(n1, n2) && Target(text, n1, shard, url)
    ensures Target(text, n2, shard, url)
  {
    forall id
      ensures Routable(text, n1, id) <==> Routable(text, n2, id)
      ensures Serves(text, n1, id, url) <==> Serves(text, n2, id, url)
    {
      ServesReordered(text, n1, n2, id);
    }
  }

  lemma TargetUnique(text: Text, nodes: seq<BrainNode>, shard: BrainShard, u: Url, v: Url)
    requires Distinct(text, nodes) && Target(text, nodes, shard, u) && Target(text, nodes, shard, v)
    ensures u == v
  {
  }

  // ---------- shard ids ----------

  ghost function ShardIds(shards: seq<BrainShard>): set<nat> {
    set s | s in shards :: s.shardId
  }

  lemma {:induction false} DistinctIdsCount(shards: seq<BrainShard>)
    requires DistinctShards(shards)
    ensures |ShardIds(shards)| == |shards|
  {
    if shards == [] {
      assert ShardIds(shards) == {};
    } else {
      var init, last := shards[..|shards| - 1], shards[|shards| - 1];
      DistinctIdsCount(init);
      assert last.shardId !in ShardIds(init);
      assert ShardIds(shards) == ShardIds(init) + {last.shardId} by {
        assert shards == init + [last];
      }
    }
  }

  ghost function Below(n: nat): (r: set<nat>)
    ensures forall x: nat :: x in r <==> x < n
    ensures |r| == n
  {
    if n == 0 then {} else Below(n - 1) + {n - 1}
  }

  /** Pigeonhole: as many distinct ids below n as there are numbers below n are all of them. */
  lemma FullBelow(ids: set<nat>, n: nat)
    requires ids <= Below(n) && |ids| == n
    ensures ids == Below(n)
  {
    var missing := Below(n) - ids;
    assert Below(n) == ids + missing;
    assert |missing| == 0;
  }

  /** An accepted placement names every configured shard. */
  lemma EveryShardPlaced(text: Text, nodes: seq<BrainNode>, shards: seq<BrainShard>, count: nat, id: nat)
    returns (s: BrainShard)
    requires AcceptableShards(text, nodes, shards, count) && id < count
    ensures s in shards && s.shardId == id
  {
    DistinctIdsCount(shards);
    FullBelow(ShardIds(shards), count);
    assert id in ShardIds(shards);
    s :| s in shards && s.shardId == id;
  }

  // ---------- the outcome is a function of the unordered snapshot ----------

  lemma LeaderAgrees(text: Text, pre: Table, n1: seq<BrainNode>, n2: seq<BrainNode>, shard: BrainShard, fetchedAt: nat,
                     u: Url, v: Url)
    requires Reordered(n1, n2) && Distinct(text, n1)
    requires LeaderFor(text, pre, n1, shard, fetchedAt, u) && LeaderFor(text, pre, n2, shard, fetchedAt, v)
    ensures u == v
  {
    ReorderedMembers(n1, n2);
    assert Urls(text, n1) == Urls(text, n2);
    if !Overrides(pre, Urls(text, n1), fetchedAt, shard.shardId) {
      TargetReordered(text, n2, n1, shard, v);
      TargetUnique(text, n1, shard, u, v);
    }
  }

  lemma LeadersAgree(text: Text, pre: Table, n1: seq<BrainNode>, s1: seq<BrainShard>, n2: seq<BrainNode>,
                     s2: seq<BrainShard>,
                     fetchedAt: nat, t1: Table, t2: Table)
    requires Reordered(n1, n2) && Reordered(s1, s2) && Acceptable(text, n1, s1, pre.shardCount)
    requires Replaces(text, pre, n1, s1, fetchedAt, t1) && Replaces(text, pre, n2, s2, fetchedAt, t2)
    ensures t1.leaders == t2.leaders
  {
    ReorderedMembers(s1, s2);
    forall id | id in t1.leaders ensures t1.leaders[id] == t2.leaders[id] {
      var s := EveryShardPlaced(text, n1, s1, pre.shardCount, id);
      LeaderAgrees(text, pre, n1, n2, s, fetchedAt, t1.leaders[id], t2.leaders[id]);
    }
  }

  lemma ReplacementsAgree(text: Text, pre: Table, n1: seq<BrainNode>, s1: seq<BrainShard>, n2: seq<BrainNode>,
                          s2: seq<BrainShard>,
                          fetchedAt: nat, t1: Table, t2: Table)
    requires Reordered(n1, n2) && Reordered(s1, s2) && Acceptable(text, n1, s1, pre.shardCount)
    requires Replaces(text, pre, n1, s1, fetchedAt, t1) && Replaces(text, pre, n2, s2, fetchedAt, t2)
    ensures t1 == t2
  {
    LeadersAgree(text, pre, n1, s1, n2, s2, fetchedAt, t1, t2);
    ReorderedMembers(n1, n2);
    assert Urls(text, n1) == Urls(text, n2);
    SortedUnique(t1.nodes, t2.nodes);
    forall u | u in t1.metadata ensures t1.metadata[u] == t2.metadata[u] {
      var n :| n in n1 && Route(text, n) == Some(u);
      assert n in n2;
    }
  }

  /** The order of the node list and of the shard list never matters, and nothing is left open. */
  lemma OrderIrrelevant(text: Text, pre: Table, n1: seq<BrainNode>, s1: seq<BrainShard>, n2: seq<BrainNode>,
                        s2: seq<BrainShard>,
                        fetchedAt: nat, t1: Table, k1: nat, t2: Table, k2: nat)
    requires Reordered(n1, n2) && Reordered(s1, s2)
    requires SnapshotOutcome(text, pre, n1, s1, fetchedAt, t1, k1)
    requires SnapshotOutcome(text, pre, n2, s2, fetchedAt, t2, k2)
    ensures t1 == t2 && k1 == k2
  {
    if Acceptable(text, n1, s1, pre.shardCount) {
      AcceptableReordered(text, n1, n2, s1, s2, pre.shardCount);
      ReplacementsAgree(text, pre, n1, s1, n2, s2, fetchedAt, t1, t2);
    } else if Acceptable(text, n2, s2, pre.shardCount) {
      AcceptableReordered(text, n2, n1, s2, s1, pre.shardCount);
    }
  }
}
