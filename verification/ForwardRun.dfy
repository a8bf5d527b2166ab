// What one forward call does (`forward_with_redirect`, src/proxy.rs), as a relation between the request, the hops
// it made and the answer. Nodes are adversaries, and the table may change between any two of its critical sections.
module ForwardRun {
  import opened Wrappers
  import opened Bytes
  import opened Limits
  import opened RoundRobin
  import opened BrainSnapshot
  import opened RouteTable
  import opened StoredResponse

  /** What one attempt at one node came to. */
  datatype Upstream =
    | Served(response: Captured)
    | NotLeader(leader: Option<bytes>)
    | NotSent
    | AmbiguousTransport
    | ResponseTooLarge

  /** The answer: the node's, or one of three kinds of 502. */
  datatype Answer = Response(response: Captured) | AmbiguousResult | TooLarge | NoLeader

  /** A node that answered NotLeader, or was never reached, did not apply the request; any other may have. */
  predicate MayHaveApplied(u: Upstream) {
    u.Served? || u.AmbiguousTransport? || u.ResponseTooLarge?
  }

  /** `method_is_replay_safe` */
  predicate ReplaySafe(httpMethod: bytes) {
    httpMethod == Ascii("GET") || httpMethod == Ascii("HEAD") || httpMethod == Ascii("OPTIONS")
  }

  /** Outcomes after which another node is tried. */
  predicate Retries(httpMethod: bytes, u: Upstream) {
    u.NotLeader? || u.NotSent? || (u.AmbiguousTransport? && ReplaySafe(httpMethod))
  }

  function FinalAnswer(u: Upstream): Answer {
    match u
    case Served(response) => Response(response)
    case AmbiguousTransport => AmbiguousResult
    case ResponseTooLarge => TooLarge
    case _ => NoLeader
  }

  /** One send: its target, its outcome, and three values of the shared table: when the target was chosen, when a
      redirect was judged, and when the next target was picked. */
  datatype Hop = Hop(target: Url, outcome: Upstream, before: Table, judged: Table, picked: Table)

  ghost function Targets(hops: seq<Hop>): set<Url> {
    set h | h in hops :: h.target
  }

  /** The member a redirect names. */
  function Redirected(text: Text, h: Hop): Option<Url> {
    if h.outcome.NotLeader? && h.outcome.leader.Some? then KnownNode(text, h.judged, h.outcome.leader.value) else None
  }

  ghost predicate PicksFrom(t: Table, attempted: set<Url>, next: Option<Url>) {
    exists after :: PickOutcome(t.nodes, attempted, t.cursor, next, after)
  }

  /** The redirect's member if it is untried, otherwise round robin over the untried. */
  ghost predicate Chooses(text: Text, h: Hop, attempted: set<Url>, next: Option<Url>) {
    var redirected := Redirected(text, h);
    if redirected.Some? && redirected.value !in attempted then next == redirected
    else PicksFrom(h.picked, attempted, next)
  }

  /** Every hop but the last led on to the next. */
  ghost predicate Follows(text: Text, httpMethod: bytes, first: Url, hops: seq<Hop>) {
    && (hops != [] ==> hops[0].target == first)
    && forall k :: 0 <= k < |hops| - 1 ==>
         Retries(httpMethod, hops[k].outcome)
         && Chooses(text, hops[k], Targets(hops[..k + 1]), Some(hops[k + 1].target))
  }

  ghost predicate Ends(text: Text, httpMethod: bytes, hops: seq<Hop>, answer: Answer)
    requires hops != []
  {
    var last := hops[|hops| - 1];
    if Retries(httpMethod, last.outcome)
    then answer == NoLeader && (|hops| == MAX_HOPS || Chooses(text, last, Targets(hops), None))
    else answer == FinalAnswer(last.outcome)
  }

  ghost predicate Forwards(text: Text, httpMethod: bytes, first: Url, hops: seq<Hop>, answer: Answer) {
    && 1 <= |hops| <= MAX_HOPS && Follows(text, httpMethod, first, hops) && Ends(text, httpMethod, hops, answer)
  }

  // ---------- targets ----------

  lemma ChosenIsUntriedMember(text: Text, h: Hop, attempted: set<Url>, next: Url)
    requires Chooses(text, h, attempted, Some(next))
    ensures next !in attempted && (next in h.judged.nodes || next in h.picked.nodes)
  {
  }

  ghost predicate DistinctTargets(hops: seq<Hop>) {
    forall a, b :: 0 <= a < b < |hops| ==> hops[a].target != hops[b].target
  }

  /** No node is sent the request twice, and every later target was a member when it was chosen, whatever the
      table went through meanwhile. */
  lemma EachMemberAtMostOnce(text: Text, httpMethod: bytes, first: Url, hops: seq<Hop>)
    requires Follows(text, httpMethod, first, hops)
    ensures DistinctTargets(hops)
    ensures forall k :: 0 < k < |hops| ==>
        hops[k].target in hops[k - 1].judged.nodes || hops[k].target in hops[k - 1].picked.nodes
  {
    forall k | 0 < k < |hops|
      ensures hops[k].target !in Targets(hops[..k])
      ensures hops[k].target in hops[k - 1].judged.nodes || hops[k].target in hops[k - 1].picked.nodes
    {
      var from := k - 1;
      assert hops[..from + 1] == hops[..k];
      assert Chooses(text, hops[from], Targets(hops[..from + 1]), Some(hops[from + 1].target));
      ChosenIsUntriedMember(text, hops[from], Targets(hops[..k]), hops[k].target);
    }
    forall a, b | 0 <= a < b < |hops| ensures hops[a].target != hops[b].target {
      assert hops[..b][a] in hops[..b];
    }
  }

  // ---------- at most one send can have been applied ----------

  /** For a mutation, one send at most may have been applied; it went to a node that was not asked before, nothing
      is sent after it, the client is answered with its outcome, and "no leader" means that nothing was applied. */
  lemma AtMostOneApplied(text: Text, httpMethod: bytes, first: Url, hops: seq<Hop>, answer: Answer)
    requires Forwards(text, httpMethod, first, hops, answer)
    requires httpMethod != Ascii("GET") && httpMethod != Ascii("HEAD") && httpMethod != Ascii("OPTIONS")
    ensures |hops| <= 4 && DistinctTargets(hops)
    ensures forall k :: 0 <= k < |hops| && MayHaveApplied(hops[k].outcome) ==>
        k == |hops| - 1 && answer == FinalAnswer(hops[k].outcome) && hops[k].target !in Targets(hops[..k])
    ensures answer != NoLeader <==> exists k :: 0 <= k < |hops| && MayHaveApplied(hops[k].outcome)
  {
    EachMemberAtMostOnce(text, httpMethod, first, hops);
    var last := |hops| - 1;
    forall k | 0 <= k < last ensures !MayHaveApplied(hops[k].outcome) {
      assert Retries(httpMethod, hops[k].outcome);
    }
    if answer != NoLeader { assert MayHaveApplied(hops[last].outcome); }
  }

  /** How a call ends, by the outcome of its last send: a response is passed on, an oversized one is refused, an
      ambiguous one is refused as such for a mutation and, for GET, HEAD and OPTIONS, fails over like a refusal that
      applied nothing; and nothing follows a send that is not of the last two kinds. */
  lemma AnswerExactly(text: Text, httpMethod: bytes, first: Url, hops: seq<Hop>, answer: Answer)
    requires Forwards(text, httpMethod, first, hops, answer)
    ensures var read := httpMethod in {Ascii("GET"), Ascii("HEAD"), Ascii("OPTIONS")};
      var last := hops[|hops| - 1].outcome;
      && (last.Served? ==> answer == Response(last.response))
      && (last.ResponseTooLarge? ==> answer == TooLarge)
      && (last.AmbiguousTransport? ==> answer == if read then NoLeader else AmbiguousResult)
      && (last.NotLeader? || last.NotSent? ==> answer == NoLeader)
      && (answer == NoLeader ==> |hops| == 4 || Chooses(text, hops[|hops| - 1], Targets(hops), None))
      && forall k :: 0 <= k < |hops| - 1 ==>
           hops[k].outcome.NotLeader? || hops[k].outcome.NotSent? || (hops[k].outcome.AmbiguousTransport? && read)
  {
    assert forall k :: 0 <= k < |hops| - 1 ==> Retries(httpMethod, hops[k].outcome);
  }

  lemma {:induction false} DistinctTargetsCount(hops: seq<Hop>)
    requires DistinctTargets(hops)
    ensures |Targets(hops)| == |hops|
  {
    if hops == [] {
      assert Targets(hops) == {};
    } else {
      var init, last := hops[..|hops| - 1], hops[|hops| - 1];
      DistinctTargetsCount(init);
      assert hops == init + [last];
      assert forall h :: h in hops <==> h in init || h == last;
      assert last.target !in Targets(init);
      assert Targets(hops) == Targets(init) + {last.target};
    }
  }

  // ---------- completeness ----------

  ghost function Members(nodes: seq<Url>): set<Url> {
    set u | u in nodes
  }

  lemma {:induction false} MembersCount(nodes: seq<Url>)
    requires AllDistinct(nodes)
    ensures |Members(nodes)| == |nodes|
  {
    if nodes == [] {
      assert Members(nodes) == {};
    } else {
      var init, last := nodes[..|nodes| - 1], nodes[|nodes| - 1];
      MembersCount(init);
      assert nodes == init + [last];
      assert forall u :: u in nodes <==> u in init || u == last;
      assert Members(nodes) == Members(init) + {last};
    }
  }

  /** The membership does not change while the call runs. */
  ghost predicate Static(nodes: seq<Url>, first: Url, hops: seq<Hop>) {
    && AllDistinct(nodes) && nodes != [] && first in nodes
    && forall h :: h in hops ==> h.judged.nodes == nodes && h.picked.nodes == nodes && h.picked.cursor < USIZE
  }

  lemma OnlyMembersTried(text: Text, httpMethod: bytes, first: Url, hops: seq<Hop>, nodes: seq<Url>)
    requires Follows(text, httpMethod, first, hops) && Static(nodes, first, hops)
    ensures Targets(hops) <= Members(nodes)
  {
    EachMemberAtMostOnce(text, httpMethod, first, hops);
    forall k | 0 <= k < |hops| ensures hops[k].target in nodes {
      if k > 0 { assert hops[k - 1] in hops; }
    }
  }

  /** The scan after the last hop, if there is one, sees every member. */
  ghost predicate LastScanSafe(hops: seq<Hop>, nodes: seq<Url>)
    requires hops != [] && nodes != []
  {
    ScanSafe(hops[|hops| - 1].picked.cursor, |nodes|)
  }

  /** As many distinct targets as there can be members are all the members. */
  lemma HopsCoverMembers(hops: seq<Hop>, nodes: seq<Url>)
    requires DistinctTargets(hops) && AllDistinct(nodes) && Targets(hops) <= Members(nodes) && |nodes| <= |hops|
    ensures Targets(hops) == Members(nodes)
  {
    DistinctTargetsCount(hops);
    MembersCount(nodes);
    var untried := Members(nodes) - Targets(hops);
    assert Members(nodes) == Targets(hops) + untried;
    assert untried == {};
  }

  lemma NothingLeftToPick(h: Hop, attempted: set<Url>, nodes: seq<Url>)
    requires h.picked.nodes == nodes && h.picked.cursor < USIZE && 0 < |nodes| <= USIZE
    requires ScanSafe(h.picked.cursor, |nodes|)
    requires PicksFrom(h.picked, attempted, None)
    ensures Members(nodes) <= attempted
  {
    var after :| PickOutcome(nodes, attempted, h.picked.cursor, None, after);
    NoneMeansAllExcluded(nodes, attempted, h.picked.cursor, after);
  }

  /** With no more members than hops, the loop gives up only after every member was tried. */
  lemma NoLeaderOnlyAfterAll(text: Text, httpMethod: bytes, first: Url, hops: seq<Hop>, answer: Answer, nodes: seq<Url>)
    requires Forwards(text, httpMethod, first, hops, answer) && Static(nodes, first, hops) && |nodes| <= MAX_HOPS
    requires LastScanSafe(hops, nodes)
    requires answer == NoLeader
    ensures Targets(hops) == Members(nodes)
  {
    OnlyMembersTried(text, httpMethod, first, hops, nodes);
    if |hops| == MAX_HOPS {
      EachMemberAtMostOnce(text, httpMethod, first, hops);
      HopsCoverMembers(hops, nodes);
    } else {
      assert hops[|hops| - 1] in hops;
      NothingLeftToPick(hops[|hops| - 1], Targets(hops), nodes);
    }
  }

  /** Some member serves whenever it is asked, and no attempt ends in an outcome that forbids another. */
  ghost predicate Reachable(httpMethod: bytes, hops: seq<Hop>, good: Url) {
    && (forall h :: h in hops && h.target == good ==> h.outcome.Served?)
    && forall h :: h in hops ==> h.outcome.Served? || Retries(httpMethod, h.outcome)
  }

  lemma NoLeaderTried(text: Text, httpMethod: bytes, first: Url, hops: seq<Hop>, nodes: seq<Url>, u: Url)
    returns (h: Hop)
    requires Forwards(text, httpMethod, first, hops, NoLeader) && Static(nodes, first, hops) && |nodes| <= MAX_HOPS
    requires LastScanSafe(hops, nodes) && u in nodes
    ensures h in hops && h.target == u && Retries(httpMethod, h.outcome)
  {
    NoLeaderOnlyAfterAll(text, httpMethod, first, hops, NoLeader, nodes);
    assert u in Targets(hops);
    h :| h in hops && h.target == u;
    var k :| 0 <= k < |hops| && hops[k] == h;
    assert k < |hops| - 1 ==> Retries(httpMethod, hops[k].outcome);
  }

  /** A member that would serve is found, whatever the other members hint. */
  lemma ServingMemberIsFound(text: Text, httpMethod: bytes, first: Url, hops: seq<Hop>, answer: Answer, nodes: seq<Url>,
                             good: Url)
    requires Forwards(text, httpMethod, first, hops, answer) && Static(nodes, first, hops) && |nodes| <= MAX_HOPS
    requires LastScanSafe(hops, nodes) && good in nodes && Reachable(httpMethod, hops, good)
    ensures answer.Response?
  {
    assert hops[|hops| - 1] in hops;
    if answer == NoLeader {
      var h := NoLeaderTried(text, httpMethod, first, hops, nodes, good);
    }
  }

  /** One, two or four members: every scan is safe, since they divide the cursor's range. */
  lemma SmallClustersScanSafely(cursor: nat, n: nat)
    requires n == 1 || n == 2 || n == 4
    ensures ScanSafe(cursor, n)
  {
  }

  /** Giving up before the last hop means that every member was tried exactly if the last scan was unbroken, or the
      one member it misses had been tried already. */
  lemma GivesUpExactlyAfterAll(text: Text, httpMethod: bytes, first: Url, hops: seq<Hop>, nodes: seq<Url>)
    requires Forwards(text, httpMethod, first, hops, NoLeader) && Static(nodes, first, hops)
    requires |nodes| <= MAX_HOPS && |hops| < MAX_HOPS
    ensures 0 <= Missed(hops[|hops| - 1].picked.cursor, |nodes|) < |nodes| || LastScanSafe(hops, nodes)
    ensures Targets(hops) == Members(nodes) <==>
            LastScanSafe(hops, nodes) || nodes[Missed(hops[|hops| - 1].picked.cursor, |nodes|)] in Targets(hops)
  {
    var last := hops[|hops| - 1];
    assert last in hops;
    if LastScanSafe(hops, nodes) {
      NoLeaderOnlyAfterAll(text, httpMethod, first, hops, NoLeader, nodes);
    } else {
      if |nodes| != 3 { SmallClustersScanSafely(last.picked.cursor, |nodes|); }
      OnlyMembersTried(text, httpMethod, first, hops, nodes);
      MissedIsMissed(last.picked.cursor, 3, 0);
      BrokenScanLeavesOne(last, Targets(hops), nodes);
    }
  }

  lemma BrokenScanLeavesOne(h: Hop, attempted: set<Url>, nodes: seq<Url>)
    requires h.picked.nodes == nodes && |nodes| == 3 && h.picked.cursor < USIZE && !ScanSafe(h.picked.cursor, 3)
    requires PicksFrom(h.picked, attempted, None)
    ensures 0 <= Missed(h.picked.cursor, 3) < 3
    ensures nodes[Missed(h.picked.cursor, 3)] in attempted ==> Members(nodes) <= attempted
  {
    var after :| PickOutcome(nodes, attempted, h.picked.cursor, None, after);
    MissedIsMissed(h.picked.cursor, 3, 0);
    forall i | 0 <= i < 3 && i != Missed(h.picked.cursor, 3) ensures nodes[i] in attempted {
      var j := VisitedOfThree(h.picked.cursor, i);
    }
  }
}
