// What other tasks may do to the shared route table while a forward call is under way (src/table.rs).
module TableOps {
  import opened Wrappers
  import opened Bytes
  import opened UrlOrder
  import opened RoundRobin
  import opened BrainSnapshot
  import opened RouteTable

  /** The table's own operations. */
  datatype TableOp =
    | Hint(shard: nat, url: bytes, now: nat)
    | Snapshot(nodes: seq<BrainNode>, shards: seq<BrainShard>, fetchedAt: nat)
    | Pick(excluded: set<Url>)

  predicate InRange(ops: seq<TableOp>, shardCount: nat) {
    forall op :: op in ops && op.Hint? ==> op.shard < shardCount
  }

  predicate NoSnapshot(ops: seq<TableOp>) {
    forall op :: op in ops ==> !op.Snapshot?
  }

  ghost predicate PicksTo(pre: Table, excluded: set<Url>, post: Table) {
    && post == pre.(cursor := post.cursor)
    && exists r :: PickOutcome(pre.nodes, excluded, pre.cursor, r, post.cursor)
  }

  ghost predicate OpOutcome(text: Text, pre: Table, op: TableOp, post: Table) {
    match op
    case Hint(shard, url, now) =>
      var known := KnownNode(text, pre, url);
      post == if known.Some? then HintAccepted(pre, shard, known.value, now) else pre
    case Snapshot(nodes, shards, fetchedAt) =>
      var applied := if Acceptable(text, nodes, shards, pre.shardCount) then pre.shardCount else 0;
      SnapshotOutcome(text, pre, nodes, shards, fetchedAt, post, applied)
    case Pick(excluded) => PicksTo(pre, excluded, post)
  }

  /** The operations, one after the other, lead through `tables`. */
  ghost predicate Stages(text: Text, pre: Table, ops: seq<TableOp>, post: Table, tables: seq<Table>) {
    && |tables| == |ops| + 1 && tables[0] == pre && tables[|ops|] == post
    && forall i :: 0 <= i < |ops| ==> OpOutcome(text, tables[i], ops[i], tables[i + 1])
  }

  /** The operations lead from `pre` to `post`. */
  ghost predicate Reaches(text: Text, pre: Table, ops: seq<TableOp>, post: Table) {
    exists tables :: Stages(text, pre, ops, post, tables)
  }

  lemma ReachesNothing(text: Text, pre: Table, post: Table)
    ensures Reaches(text, pre, [], post) <==> post == pre
  {
    assert Stages(text, pre, [], pre, [pre]);
  }

  lemma ReachesOneMore(text: Text, pre: Table, ops: seq<TableOp>, mid: Table, op: TableOp, post: Table)
    requires Reaches(text, pre, ops, mid) && OpOutcome(text, mid, op, post)
    ensures Reaches(text, pre, ops + [op], post)
  {
    var tables :| Stages(text, pre, ops, mid, tables);
    assert Stages(text, pre, ops + [op], post, tables + [post]);
  }

  // ---------- only snapshots bring members ----------

  /** The operation is an acceptable snapshot that lists `u` as a routable node. */
  ghost predicate Brings(text: Text, op: TableOp, shardCount: nat, u: Url) {
    op.Snapshot? && Acceptable(text, op.nodes, op.shards, shardCount) && u in Urls(text, op.nodes)
  }

  ghost predicate AnyBrings(text: Text, ops: seq<TableOp>, shardCount: nat, u: Url) {
    exists op :: op in ops && Brings(text, op, shardCount, u)
  }

  lemma OpMembers(text: Text, pre: Table, op: TableOp, post: Table, u: Url)
    requires OpOutcome(text, pre, op, post)
    ensures post.shardCount == pre.shardCount
    ensures u in post.nodes ==> u in pre.nodes || Brings(text, op, pre.shardCount, u)
    ensures !op.Snapshot? ==> post.nodes == pre.nodes
  {
    assert u in post.nodes <==> u in Elements(post.nodes);
  }

  lemma {:induction false} StagesMembers(text: Text, pre: Table, ops: seq<TableOp>, post: Table, tables: seq<Table>,
                                         u: Url)
    requires Stages(text, pre, ops, post, tables)
    ensures post.shardCount == pre.shardCount
    ensures u in post.nodes ==> u in pre.nodes || AnyBrings(text, ops, pre.shardCount, u)
    decreases |ops|
  {
    if ops != [] {
      var n := |ops| - 1;
      assert Stages(text, pre, ops[..n], tables[n], tables[..n + 1]);
      StagesMembers(text, pre, ops[..n], tables[n], tables[..n + 1], u);
      OpMembers(text, tables[n], ops[n], post, u);
      assert ops[n] in ops && forall op :: op in ops[..n] ==> op in ops;
    }
  }

  /** Whatever hints and picks do in between, a new member comes from an acceptable snapshot. */
  lemma ReachesMembers(text: Text, pre: Table, ops: seq<TableOp>, post: Table, u: Url)
    requires Reaches(text, pre, ops, post)
    ensures post.shardCount == pre.shardCount
    ensures u in post.nodes ==> u in pre.nodes || AnyBrings(text, ops, pre.shardCount, u)
  {
    var tables :| Stages(text, pre, ops, post, tables);
    StagesMembers(text, pre, ops, post, tables, u);
  }

  // ---------- the operations at work ----------

  method Operate(table: RouteTable, op: TableOp)
    requires table.Valid() && (op.Hint? ==> op.shard < table.shardCount)
    modifies table
    ensures table.Valid() && OpOutcome(table.text, old(table.Model()), op, table.Model())
    ensures !op.Snapshot? ==> table.nodes == old(table.nodes)
    ensures old(table.IsHydrated()) ==> table.IsHydrated()
  {
    match op
    case Hint(shard, url, now) =>
      var known := table.AcceptLeaderHint(shard, url, now);
    case Snapshot(nodes, shards, fetchedAt) =>
      ghost var pre := table.Model();
      var applied := table.ApplyBrainSnapshotAt(nodes, shards, fetchedAt);
      SnapshotKeepsInv(table.text, pre, nodes, shards, fetchedAt, table.Model(), applied);
    case Pick(excluded) =>
      ghost var pre := table.Model();
      var picked := table.AnyNodeExcluding(excluded);
      assert PickOutcome(pre.nodes, excluded, pre.cursor, picked, table.cursor);
  }

  method Interfere(table: RouteTable, ops: seq<TableOp>)
    requires table.Valid() && InRange(ops, table.shardCount)
    modifies table
    ensures table.Valid() && Reaches(table.text, old(table.Model()), ops, table.Model())
    ensures NoSnapshot(ops) ==> table.nodes == old(table.nodes)
    ensures old(table.IsHydrated()) ==> table.IsHydrated()
  {
    ghost var pre := table.Model();
    ReachesNothing(table.text, pre, pre);
    for i := 0 to |ops|
      invariant table.Valid() && Reaches(table.text, pre, ops[..i], table.Model())
      invariant NoSnapshot(ops) ==> table.nodes == old(table.nodes)
      invariant old(table.IsHydrated()) ==> table.IsHydrated()
    {
      assert ops[i] in ops;
      ghost var mid := table.Model();
      Operate(table, ops[i]);
      ReachesOneMore(table.text, pre, ops[..i], mid, ops[i], table.Model());
      assert ops[..i + 1] == ops[..i] + [ops[i]];
    }
    assert ops[..|ops|] == ops;
  }
}
