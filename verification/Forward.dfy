// The forward loop itself, and the routing decision in front of it (src/proxy.rs).
module Forward {
  import opened Wrappers
  import opened Bytes
  import opened Limits
  import opened RoundRobin
  import opened BrainSnapshot
  import opened RouteTable
  import opened TableOps
  import opened ForwardRun

  // ---------- the rest of the process ----------

  /** What attempt `k` comes to, when its redirect is judged, and what others do before the redirect is judged and
      before the next target is picked. */
  datatype Turn = Turn(outcome: Upstream, now: nat, beforeJudging: seq<TableOp>, beforePicking: seq<TableOp>)

  predicate TurnsInRange(turns: seq<Turn>, shardCount: nat) {
    forall t :: t in turns ==> InRange(t.beforeJudging, shardCount) && InRange(t.beforePicking, shardCount)
  }

  predicate MembershipFixed(turns: seq<Turn>) {
    forall t :: t in turns ==> NoSnapshot(t.beforeJudging) && NoSnapshot(t.beforePicking)
  }

  /** Nobody else touches the table. */
  ghost predicate Quiet(turns: seq<Turn>) {
    forall t :: t in turns ==> t.beforeJudging == [] && t.beforePicking == []
  }

  // ---------- the loop ----------

  /** A keyed redirect corrects its shard's leader; a keyless one changes nothing. */
  method RedirectedLeaderTarget(table: RouteTable, shard: Option<nat>, leader: bytes, now: nat) returns (r: Option<Url>)
    requires table.Valid() && (shard.Some? ==> shard.value < table.shardCount)
    modifies table`leaders, table`hints
    ensures table.Valid() && r == KnownNode(table.text, old(table.Model()), leader)
    ensures table.Model() == if shard.Some? && r.Some? then HintAccepted(old(table.Model()), shard.value, r.value, now)
                             else old(table.Model())
  {
    if shard.Some? {
      r := table.AcceptLeaderHint(shard.value, leader, now);
    } else {
      r := table.ValidateNodeHint(leader);
    }
  }

  /** The table once the redirect is judged. */
  function Corrected(text: Text, shard: Option<nat>, now: nat, h: Hop): Table {
    var redirected := Redirected(text, h);
    if shard.Some? && redirected.Some? then HintAccepted(h.judged, shard.value, redirected.value, now) else h.judged
  }

  /** All that happens to the table in a hop: what others do, then the redirect is judged and, if keyed, remembered,
      and unless it names an untried member, what others do again, and a pick that moves the cursor. */
  ghost predicate Settles(text: Text, shard: Option<nat>, turn: Turn, h: Hop, attempted: set<Url>, next: Option<Url>,
                          post: Table)
  {
    var redirected, corrected := Redirected(text, h), Corrected(text, shard, turn.now, h);
    && Reaches(text, h.before, turn.beforeJudging, h.judged)
    && if redirected.Some? && redirected.value !in attempted
       then next == redirected && h.picked == h.judged && post == corrected
       else Reaches(text, corrected, turn.beforePicking, h.picked) && post == h.picked.(cursor := post.cursor)
            && PickOutcome(h.picked.nodes, attempted, h.picked.cursor, next, post.cursor)
  }

  lemma SettlesChooses(text: Text, shard: Option<nat>, turn: Turn, h: Hop, attempted: set<Url>, next: Option<Url>,
                       post: Table)
    requires Settles(text, shard, turn, h, attempted, next, post)
    ensures Chooses(text, h, attempted, next)
  {
  }

  /** The next target after a hop that may be retried, and what the hop saw of the table. */
  method NextTarget(table: RouteTable, shard: Option<nat>, target: Url, turn: Turn, attempted: set<Url>)
    returns (next: Option<Url>, ghost hop: Hop)
    requires table.Valid() && (shard.Some? ==> shard.value < table.shardCount)
    requires InRange(turn.beforeJudging, table.shardCount) && InRange(turn.beforePicking, table.shardCount)
    modifies table
    ensures table.Valid() && hop.target == target && hop.outcome == turn.outcome && hop.before == old(table.Model())
    ensures Settles(table.text, shard, turn, hop, attempted, next, table.Model())
    ensures NoSnapshot(turn.beforeJudging) && NoSnapshot(turn.beforePicking) ==>
              table.nodes == hop.judged.nodes == hop.picked.nodes == old(table.nodes)
    ensures hop.picked.cursor < USIZE
  {
    ghost var before := table.Model();
    Interfere(table, turn.beforeJudging);
    hop := Hop(target, turn.outcome, before, table.Model(), table.Model());
    if turn.outcome.NotLeader? && turn.outcome.leader.Some? {
      var redirected := RedirectedLeaderTarget(table, shard, turn.outcome.leader.value, turn.now);
      if redirected.Some? && redirected.value !in attempted {
        return redirected, hop;
      }
    }
    Interfere(table, turn.beforePicking);
    hop := hop.(picked := table.Model());
    next := table.AnyNodeExcluding(attempted);
    assert PickOutcome(hop.picked.nodes, attempted, hop.picked.cursor, next, table.cursor);
  }

  /** Hops so far, all of which led on; `target` comes next. */
  ghost predicate Underway(text: Text, httpMethod: bytes, first: Url, hops: seq<Hop>, target: Url) {
    && Follows(text, httpMethod, first, hops)
    && if hops == [] then target == first
       else
         var last := hops[|hops| - 1];
         Retries(httpMethod, last.outcome) && Chooses(text, last, Targets(hops), Some(target))
  }

  /** One more hop keeps the chain of hops. */
  lemma OneMoreHop(text: Text, httpMethod: bytes, first: Url, hops: seq<Hop>, hop: Hop)
    requires Underway(text, httpMethod, first, hops, hop.target)
    ensures Follows(text, httpMethod, first, hops + [hop]) && Targets(hops + [hop]) == Targets(hops) + {hop.target}
  {
    var more := hops + [hop];
    assert forall h :: h in more <==> h in hops || h == hop;
    forall k | 0 <= k < |more| - 1
      ensures Retries(httpMethod, more[k].outcome)
      ensures Chooses(text, more[k], Targets(more[..k + 1]), Some(more[k + 1].target))
    {
      assert more[..k + 1] == hops[..k + 1];
      assert hops[..|hops|] == hops;
    }
  }

  /** The hops had the given outcomes, and saw the given membership if nobody changed it. */
  ghost predicate Recorded(turns: seq<Turn>, hops: seq<Hop>, nodes: seq<Url>) {
    && |hops| <= |turns|
    && forall k :: 0 <= k < |hops| ==>
         && hops[k].outcome == turns[k].outcome && hops[k].picked.cursor < USIZE
         && (MembershipFixed(turns) ==> hops[k].judged.nodes == nodes && hops[k].picked.nodes == nodes)
  }

  lemma OneMoreRecorded(turns: seq<Turn>, hops: seq<Hop>, nodes: seq<Url>, hop: Hop)
    requires Recorded(turns, hops, nodes) && |hops| < |turns| && hop.outcome == turns[|hops|].outcome
    requires hop.picked.cursor < USIZE
    requires MembershipFixed(turns) ==> hop.judged.nodes == nodes && hop.picked.nodes == nodes
    ensures Recorded(turns, hops + [hop], nodes)
  {
  }

  lemma ServedEnds(text: Text, httpMethod: bytes, first: Url, hops: seq<Hop>, last: Hop)
    requires Underway(text, httpMethod, first, hops, last.target) && |hops| < MAX_HOPS
    requires !Retries(httpMethod, last.outcome)
    ensures Forwards(text, httpMethod, first, hops + [last], FinalAnswer(last.outcome))
  {
    OneMoreHop(text, httpMethod, first, hops, last);
  }

  lemma RetriedContinues(text: Text, httpMethod: bytes, first: Url, hops: seq<Hop>, hop: Hop, next: Option<Url>)
    requires Underway(text, httpMethod, first, hops, hop.target) && |hops| < MAX_HOPS
    requires Retries(httpMethod, hop.outcome)
    requires Chooses(text, hop, Targets(hops) + {hop.target}, next)
    ensures Targets(hops + [hop]) == Targets(hops) + {hop.target}
    ensures next.Some? ==> Underway(text, httpMethod, first, hops + [hop], next.value)
    ensures next.None? || |hops| + 1 == MAX_HOPS ==> Forwards(text, httpMethod, first, hops + [hop], NoLeader)
  {
    OneMoreHop(text, httpMethod, first, hops, hop);
  }

  /** The hops, each in the table that the one before it left, take `pre` to `t` and lead to `next`. */
  ghost predicate Travels(text: Text, shard: Option<nat>, turns: seq<Turn>, pre: Table, hops: seq<Hop>,
                          next: Option<Url>, t: Table)
  {
    if hops == [] then t == pre
    else
      var n := |hops| - 1;
      && n < |turns| && Travels(text, shard, turns, pre, hops[..n], Some(hops[n].target), hops[n].before)
      && Settles(text, shard, turns[n], hops[n], Targets(hops), next, t)
  }

  /** The table that a call leaves behind. */
  ghost predicate Leaves(text: Text, httpMethod: bytes, shard: Option<nat>, turns: seq<Turn>, pre: Table,
                         hops: seq<Hop>, post: Table)
    requires hops != []
  {
    var n := |hops| - 1;
    if Retries(httpMethod, hops[n].outcome) then exists next :: Travels(text, shard, turns, pre, hops, next, post)
    else post == hops[n].before && Travels(text, shard, turns, pre, hops[..n], Some(hops[n].target), post)
  }

  lemma OneMoreTravels(text: Text, shard: Option<nat>, turns: seq<Turn>, pre: Table, hops: seq<Hop>, hop: Hop,
                       next: Option<Url>, t: Table)
    requires Travels(text, shard, turns, pre, hops, Some(hop.target), hop.before) && |hops| < |turns|
    requires Settles(text, shard, turns[|hops|], hop, Targets(hops + [hop]), next, t)
    ensures Travels(text, shard, turns, pre, hops + [hop], next, t)
  {
    assert (hops + [hop])[..|hops|] == hops;
  }

  // ---------- where targets come from ----------

  /** Somebody applied an acceptable snapshot that lists `u`. */
  ghost predicate BroughtIn(text: Text, turns: seq<Turn>, shardCount: nat, u: Url) {
    exists turn :: turn in turns && TurnBrings(text, turn, shardCount, u)
  }

  ghost predicate TurnBrings(text: Text, turn: Turn, shardCount: nat, u: Url) {
    AnyBrings(text, turn.beforeJudging, shardCount, u) || AnyBrings(text, turn.beforePicking, shardCount, u)
  }

  lemma SettlesMembers(text: Text, shard: Option<nat>, turn: Turn, h: Hop, attempted: set<Url>, next: Option<Url>,
                       post: Table, u: Url)
    requires Settles(text, shard, turn, h, attempted, next, post)
    ensures post.shardCount == h.before.shardCount
    ensures u in h.judged.nodes || u in h.picked.nodes || u in post.nodes ==>
        u in h.before.nodes || TurnBrings(text, turn, h.before.shardCount, u)
  {
    ReachesMembers(text, h.before, turn.beforeJudging, h.judged, u);
    var redirected, corrected := Redirected(text, h), Corrected(text, shard, turn.now, h);
    if !(redirected.Some? && redirected.value !in attempted) {
      ReachesMembers(text, corrected, turn.beforePicking, h.picked, u);
    }
  }

  lemma {:induction false} TravelsMembers(text: Text, shard: Option<nat>, turns: seq<Turn>, pre: Table, hops: seq<Hop>,
                                          next: Option<Url>, t: Table, u: Url)
    requires Travels(text, shard, turns, pre, hops, next, t)
    ensures t.shardCount == pre.shardCount && |hops| <= |turns|
    ensures u in t.nodes ==> u in pre.nodes || BroughtIn(text, turns[..|hops|], pre.shardCount, u)
  {
    if hops != [] {
      var n := |hops| - 1;
      TravelsMembers(text, shard, turns, pre, hops[..n], Some(hops[n].target), hops[n].before, u);
      SettlesMembers(text, shard, turns[n], hops[n], Targets(hops), next, t, u);
      BroughtEarlier(text, turns, pre.shardCount, u, n);
    }
  }

  lemma {:induction false} TravelsPrefix(text: Text, shard: Option<nat>, turns: seq<Turn>, pre: Table, hops: seq<Hop>,
                                         next: Option<Url>, t: Table, k: nat)
    requires Travels(text, shard, turns, pre, hops, next, t) && k < |hops|
    ensures Travels(text, shard, turns, pre, hops[..k], Some(hops[k].target), hops[k].before)
  {
    var n := |hops| - 1;
    if k < n {
      TravelsPrefix(text, shard, turns, pre, hops[..n], Some(hops[n].target), hops[n].before, k);
      assert hops[..n][..k] == hops[..k];
    }
  }

  /** `u` is a member of a table that the hop really found: the one its redirect was judged in, or the one the next
      target was picked from. */
  ghost predicate Found(text: Text, shard: Option<nat>, turn: Turn, h: Hop, u: Url) {
    && Reaches(text, h.before, turn.beforeJudging, h.judged)
    && (u in h.judged.nodes
        || (u in h.picked.nodes && Reaches(text, Corrected(text, shard, turn.now, h), turn.beforePicking, h.picked)))
  }

  lemma NextIsFound(text: Text, shard: Option<nat>, turn: Turn, h: Hop, attempted: set<Url>, u: Url, post: Table)
    requires Settles(text, shard, turn, h, attempted, Some(u), post)
    ensures Found(text, shard, turn, h, u)
    ensures u in h.before.nodes || TurnBrings(text, turn, h.before.shardCount, u)
  {
    SettlesChooses(text, shard, turn, h, attempted, Some(u), post);
    ChosenIsUntriedMember(text, h, attempted, u);
    SettlesMembers(text, shard, turn, h, attempted, Some(u), post, u);
  }

  lemma TravelsOn(text: Text, shard: Option<nat>, httpMethod: bytes, turns: seq<Turn>, pre: Table, hops: seq<Hop>,
                  post: Table, k: nat)
    requires k < |hops| && Leaves(text, httpMethod, shard, turns, pre, hops, post)
    ensures Travels(text, shard, turns, pre, hops[..k], Some(hops[k].target), hops[k].before)
  {
    var n := |hops| - 1;
    if Retries(httpMethod, hops[n].outcome) {
      var next :| Travels(text, shard, turns, pre, hops, next, post);
      TravelsPrefix(text, shard, turns, pre, hops, next, post, k);
    } else if k < n {
      TravelsPrefix(text, shard, turns, pre, hops[..n], Some(hops[n].target), post, k);
      assert hops[..n][..k] == hops[..k];
    }
  }

  lemma BroughtEarlier(text: Text, turns: seq<Turn>, shardCount: nat, u: Url, k: nat)
    requires k < |turns|
    ensures BroughtIn(text, turns[..k], shardCount, u) ==> BroughtIn(text, turns[..k + 1], shardCount, u)
    ensures TurnBrings(text, turns[k], shardCount, u) ==> BroughtIn(text, turns[..k + 1], shardCount, u)
  {
    assert turns[k] in turns[..k + 1] && forall turn :: turn in turns[..k] ==> turn in turns[..k + 1];
  }

  lemma TravelledTarget(text: Text, shard: Option<nat>, turns: seq<Turn>, pre: Table, hops: seq<Hop>, u: Url, t: Table)
    requires Travels(text, shard, turns, pre, hops, Some(u), t) && hops != []
    ensures |hops| <= |turns| && Found(text, shard, turns[|hops| - 1], hops[|hops| - 1], u)
    ensures u in pre.nodes || BroughtIn(text, turns[..|hops|], pre.shardCount, u)
  {
    var n := |hops| - 1;
    NextIsFound(text, shard, turns[n], hops[n], Targets(hops), u, t);
    TravelsMembers(text, shard, turns, pre, hops[..n], Some(hops[n].target), hops[n].before, u);
    BroughtEarlier(text, turns, pre.shardCount, u, n);
  }

  /** The target of hop `k` was a member of a table that the call found when it chose it, and is either a member from
      the start or listed by an acceptable snapshot that somebody applied meanwhile: no redirect introduces one. */
  lemma TargetsAreMembers(text: Text, shard: Option<nat>, httpMethod: bytes, turns: seq<Turn>, first: Url, pre: Table,
                          hops: seq<Hop>, answer: Answer, t: Table, k: nat)
    requires Finished(text, shard, httpMethod, turns, first, pre, hops, answer, t) && 0 < k < |hops|
    ensures Travels(text, shard, turns, pre, hops[..k], Some(hops[k].target), hops[k].before)
    ensures k <= |turns| && Found(text, shard, turns[k - 1], hops[k - 1], hops[k].target)
    ensures hops[k].target in pre.nodes || BroughtIn(text, turns[..k], pre.shardCount, hops[k].target)
  {
    TravelsOn(text, shard, httpMethod, turns, pre, hops, t, k);
    TravelledTarget(text, shard, turns, pre, hops[..k], hops[k].target, hops[k].before);
  }

  // ---------- a call that is left alone ----------

  lemma QuietTurn(text: Text, shard: Option<nat>, turn: Turn, h: Hop, attempted: set<Url>, next: Option<Url>,
                  post: Table)
    requires Settles(text, shard, turn, h, attempted, next, post) && turn.beforeJudging == turn.beforePicking == []
    ensures h.judged == h.before && post == Corrected(text, shard, turn.now, h).(cursor := post.cursor)
  {
    ReachesNothing(text, h.before, h.judged);
    ReachesNothing(text, Corrected(text, shard, turn.now, h), h.picked);
  }

  /** Left to itself, a call changes no membership and no leader but its own shard's, and that one only to a member
      that some node named in a redirect. */
  lemma {:induction false} OnlyRedirectsCorrectLeaders(text: Text, shard: Option<nat>, turns: seq<Turn>, pre: Table,
                                                       hops: seq<Hop>, next: Option<Url>, t: Table)
    requires Travels(text, shard, turns, pre, hops, next, t) && Quiet(turns)
    ensures t.nodes == pre.nodes && t.metadata == pre.metadata && t.shardCount == pre.shardCount
    ensures forall s :: s in pre.leaders && Some(s) != shard ==> s in t.leaders && t.leaders[s] == pre.leaders[s]
    ensures forall s :: s in t.leaders && (s !in pre.leaders || t.leaders[s] != pre.leaders[s]) ==>
        Some(s) == shard && t.leaders[s] in pre.nodes
        && exists h :: h in hops && Redirected(text, h) == Some(t.leaders[s])
  {
    if hops != [] {
      var n := |hops| - 1;
      OnlyRedirectsCorrectLeaders(text, shard, turns, pre, hops[..n], Some(hops[n].target), hops[n].before);
      assert hops[n] in hops && turns[n] in turns;
      QuietTurn(text, shard, turns[n], hops[n], Targets(hops), next, t);
    }
  }

  // ---------- the call ----------

  /** Where a call stands before its next attempt, at `current`; `t` is the table. */
  ghost predicate Progress(text: Text, shard: Option<nat>, httpMethod: bytes, turns: seq<Turn>, first: Url, pre: Table,
                           hops: seq<Hop>, current: Url, t: Table) {
    && Underway(text, httpMethod, first, hops, current) && Recorded(turns, hops, pre.nodes)
    && (MembershipFixed(turns) ==> t.nodes == pre.nodes)
    && Travels(text, shard, turns, pre, hops, Some(current), t)
    && (if hops == [] then t == pre else Retries(httpMethod, turns[0].outcome))
  }

  /** ... and once it has its answer. */
  ghost predicate Finished(text: Text, shard: Option<nat>, httpMethod: bytes, turns: seq<Turn>, first: Url, pre: Table,
                           hops: seq<Hop>, answer: Answer, t: Table) {
    && turns != [] && Forwards(text, httpMethod, first, hops, answer) && Recorded(turns, hops, pre.nodes)
    && Leaves(text, httpMethod, shard, turns, pre, hops, t)
    && (!Retries(httpMethod, turns[0].outcome) ==> t == pre)
  }

  lemma FinalAttempt(text: Text, shard: Option<nat>, httpMethod: bytes, turns: seq<Turn>, first: Url, pre: Table,
                     hops: seq<Hop>, last: Hop, t: Table)
    requires Progress(text, shard, httpMethod, turns, first, pre, hops, last.target, t)
    requires |hops| < |turns| == MAX_HOPS && last.outcome == turns[|hops|].outcome && !Retries(httpMethod, last.outcome)
    requires last.before == last.judged == last.picked == t && t.cursor < USIZE
    ensures Finished(text, shard, httpMethod, turns, first, pre, hops + [last], FinalAnswer(last.outcome), t)
  {
    ServedEnds(text, httpMethod, first, hops, last);
    OneMoreRecorded(turns, hops, pre.nodes, last);
    assert (hops + [last])[..|hops|] == hops;
  }

  lemma RetriedAttempt(text: Text, shard: Option<nat>, httpMethod: bytes, turns: seq<Turn>, first: Url, pre: Table,
                       hops: seq<Hop>, t: Table, hop: Hop, next: Option<Url>, after: Table)
    requires Progress(text, shard, httpMethod, turns, first, pre, hops, hop.target, t)
    requires |hops| < |turns| == MAX_HOPS && hop.outcome == turns[|hops|].outcome && Retries(httpMethod, hop.outcome)
    requires hop.before == t && hop.picked.cursor < USIZE
    requires Settles(text, shard, turns[|hops|], hop, Targets(hops) + {hop.target}, next, after)
    requires MembershipFixed(turns) ==> after.nodes == hop.judged.nodes == hop.picked.nodes == pre.nodes
    ensures Targets(hops + [hop]) == Targets(hops) + {hop.target}
    ensures next.Some? ==> Progress(text, shard, httpMethod, turns, first, pre, hops + [hop], next.value, after)
    ensures next.None? || |hops| + 1 == MAX_HOPS ==>
        Finished(text, shard, httpMethod, turns, first, pre, hops + [hop], NoLeader, after)
  {
    SettlesChooses(text, shard, turns[|hops|], hop, Targets(hops) + {hop.target}, next, after);
    RetriedContinues(text, httpMethod, first, hops, hop, next);
    OneMoreRecorded(turns, hops, pre.nodes, hop);
    OneMoreTravels(text, shard, turns, pre, hops, hop, next, after);
  }

  /** Forward to `target`, following redirects and failing over, `MAX_HOPS` attempts at most. */
  method ForwardWithRedirect(table: RouteTable, target: Url, shard: Option<nat>, httpMethod: bytes, turns: seq<Turn>)
    returns (answer: Answer, ghost hops: seq<Hop>)
    requires table.Valid() && (shard.Some? ==> shard.value < table.shardCount)
    requires |turns| == MAX_HOPS && TurnsInRange(turns, table.shardCount)
    modifies table
    ensures table.Valid()
    ensures Finished(table.text, shard, httpMethod, turns, target, old(table.Model()), hops, answer, table.Model())
  {
    var attempted := {};
    var current := target;
    hops := [];
    ghost var pre := table.Model();
    for hop := 0 to MAX_HOPS
      invariant table.Valid() && |hops| == hop && attempted == Targets(hops)
      invariant Progress(table.text, shard, httpMethod, turns, target, pre, hops, current, table.Model())
      invariant hop == MAX_HOPS ==>
          Finished(table.text, shard, httpMethod, turns, target, pre, hops, NoLeader, table.Model())
    {
      var turn := turns[hop];
      assert turn in turns;
      attempted := attempted + {current};
      if !Retries(httpMethod, turn.outcome) {
        ghost var last := Hop(current, turn.outcome, table.Model(), table.Model(), table.Model());
        FinalAttempt(table.text, shard, httpMethod, turns, target, pre, hops, last, table.Model());
        return FinalAnswer(turn.outcome), hops + [last];
      }
      ghost var before := table.Model();
      var next, made := NextTarget(table, shard, current, turn, attempted);
      RetriedAttempt(table.text, shard, httpMethod, turns, target, pre, hops, before, made, next, table.Model());
      hops := hops + [made];
      if next.None? {
        return NoLeader, hops;
      }
      current := next.value;
    }
    return NoLeader, hops;
  }

  /** A table whose membership nobody changes, with no more members than hops and no scan astride the cursor's wrap:
      whatever redirects say, a request that some member would serve is served. */
  lemma SmallClusterServes(text: Text, httpMethod: bytes, first: Url, turns: seq<Turn>, hops: seq<Hop>, answer: Answer,
                           nodes: seq<Url>, good: Url)
    requires Forwards(text, httpMethod, first, hops, answer) && Recorded(turns, hops, nodes) && MembershipFixed(turns)
    requires AllDistinct(nodes) && first in nodes && good in nodes && |nodes| <= MAX_HOPS
    requires |nodes| == 3 ==> LastScanSafe(hops, nodes)
    requires Reachable(httpMethod, hops, good)
    ensures answer.Response?
  {
    forall h | h in hops ensures h.judged.nodes == nodes && h.picked.nodes == nodes && h.picked.cursor < USIZE {
      var k :| 0 <= k < |hops| && hops[k] == h;
    }
    if |nodes| != 3 { SmallClustersScanSafely(hops[|hops| - 1].picked.cursor, |nodes|); }
    ServingMemberIsFound(text, httpMethod, first, hops, answer, nodes, good);
  }

  /** Three members, the cursor just before its wrap, nobody else at work: the first node names the second, the
      second is down, and the scan astride the wrap looks at the first, the first and the second. The request is
      refused, and the third member was never asked. */
  lemma WrapHidesThirdMember(text: Text, shard: Option<nat>, httpMethod: bytes, t: Table)
    returns (turns: seq<Turn>, hops: seq<Hop>, post: Table)
    requires TableInv(text, t) && |t.nodes| == 3 && t.cursor == 0xFFFF_FFFF_FFFF_FFFF
    ensures |turns| == MAX_HOPS && Quiet(turns)
    ensures Finished(text, shard, httpMethod, turns, t.nodes[0], t, hops, NoLeader, post)
    ensures t.nodes[2] !in Targets(hops)
  {
    var redirect, down := Turn(NotLeader(Some(t.nodes[1])), 0, [], []), Turn(NotSent, 0, [], []);
    turns := [redirect, down, down, down];
    var first := Hop(t.nodes[0], redirect.outcome, t, t, t);
    var corrected := Corrected(text, shard, 0, first);
    var second := Hop(t.nodes[1], NotSent, corrected, corrected, corrected);
    hops := [first, second];
    post := corrected.(cursor := 2);
    assert t.nodes[1] in t.nodes && Redirected(text, first) == Some(t.nodes[1]);
    assert hops[..1] == [first] && hops[..1][..0] == [];
    assert Targets([first]) == {t.nodes[0]};
    assert first in hops && second in hops;
    assert Targets(hops) == {t.nodes[0], t.nodes[1]};
    assert Visit(USIZE - 1, 0, 3) == 0 && Visit(USIZE - 1, 1, 3) == 0 && Visit(USIZE - 1, 2, 3) == 1;
    assert PickOutcome(t.nodes, Targets(hops), USIZE - 1, None, 2);
    ReachesNothing(text, t, t);
    ReachesNothing(text, corrected, corrected);
    assert Travels(text, shard, turns, t, [first], Some(t.nodes[1]), corrected);
    assert Travels(text, shard, turns, t, hops, None, post);
  }

  // ---------- routing ----------

  ghost predicate ShardInRange(shardFor: (bytes, nat) -> nat) {
    forall key, count :: count > 0 ==> shardFor(key, count) < count
  }

  /** Keyed requests start at their shard's leader, keyless ones at any node; `None` is the 503 for no route. */
  method RouteRequest(table: RouteTable, key: Option<bytes>, shardFor: (bytes, nat) -> nat, httpMethod: bytes,
                      turns: seq<Turn>)
    returns (reply: Option<Answer>, ghost first: Url, ghost start: Table, ghost hops: seq<Hop>)
    requires table.Valid() && table.shardCount > 0 && ShardInRange(shardFor)
    requires |turns| == MAX_HOPS && TurnsInRange(turns, table.shardCount)
    modifies table
    ensures table.Valid() && (old(table.IsHydrated()) <==> reply.Some?)
    ensures start == old(table.Model()).(cursor := start.cursor) && (key.Some? ==> start == old(table.Model()))
    ensures reply.Some? ==>
        var shard := if key.Some? then Some(shardFor(key.value, table.shardCount)) else None;
        Finished(table.text, shard, httpMethod, turns, first, start, hops, reply.value, table.Model())
    ensures reply.Some? ==> first in old(table.nodes)
    ensures reply.Some? && key.Some? ==>
        var shard := shardFor(key.value, table.shardCount);
        shard in old(table.leaders) && first == old(table.leaders)[shard]
  {
    var shard, target := None, None;
    first, hops := [], [];
    if key.Some? {
      shard := Some(shardFor(key.value, table.shardCount));
      target := table.LeaderOf(shard.value);
    } else {
      ghost var cursor := table.cursor;
      target := table.AnyNode();
      if target.Some? {
        PickIsUnexcludedMember(table.nodes, {}, cursor, target, table.cursor);
        assert 0 in table.leaders;
      }
    }
    start := table.Model();
    if target.None? {
      return None, first, start, hops;
    }
    var answer;
    answer, hops := ForwardWithRedirect(table, target.value, shard, httpMethod, turns);
    return Some(answer), target.value, start, hops;
  }
}
