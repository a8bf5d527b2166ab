// A forward call of the idempotency protocol, hop by hop: whatever the loop of src/proxy.rs may do is a sequence of the
// protocol's worker steps with one delivery at most.
module ForwardSteps {
  import opened Wrappers
  import opened Bytes
  import opened Limits
  import opened StoredResponse
  import opened RecordStore
  import opened IdempotencyProtocol
  import F = ForwardRun
  import B = BrainSnapshot

  /** The steps lead from `s` to `t`. */
  ghost predicate Path(s: World, steps: seq<Step>, t: World)
    decreases |steps|
  {
    if steps == [] then s == t
    else Enabled(s, steps[0]) && Path(Do(s, steps[0]), steps[1..], t)
  }

  lemma {:induction false} PathJoins(s: World, a: seq<Step>, m: World, b: seq<Step>, t: World)
    requires Path(s, a, m) && Path(m, b, t)
    ensures Path(s, a + b, t)
    decreases |a|
  {
    if a == [] {
      assert a + b == b;
    } else {
      PathJoins(Do(s, a[0]), a[1..], m, b, t);
      assert (a + b)[1..] == a[1..] + b;
    }
  }

  /** A worker at the start of a forward call, its message, if the call is one to the store, just sent. */
  ghost predicate Starts(s: World, w: nat) {
    && w in s.workers && Waiting(s.workers[w].phase) && !Answered(s.workers[w].phase) && s.workers[w].phase.hop == 0
    && (s.workers[w].phase.Forwarding? || Pending(w, s.workers[w].phase).value in s.wire)
  }

  /** The same call, some hops later. */
  ghost predicate Later(s: World, w: nat, k: nat, t: World) {
    && w in s.workers && w in t.workers && Waiting(s.workers[w].phase) && Waiting(t.workers[w].phase)
    && t == SetPhase(s, w, t.workers[w].phase) && !Answered(t.workers[w].phase) && t.workers[w].phase.hop == k
    && t.workers[w].phase.since == (if k == 0 then s.workers[w].phase.since else s.now)
    && t.workers[w].phase.Forwarding? == s.workers[w].phase.Forwarding?
    && t.workers[w].phase.Claiming? == s.workers[w].phase.Claiming?
    && (s.workers[w].phase.Forwarding? ==> t.workers[w].phase.token == s.workers[w].phase.token)
    && Pending(w, t.workers[w].phase) == Pending(w, s.workers[w].phase)
  }

  function Repeated(step: Step, k: nat): seq<Step> {
    seq(k, i => step)
  }

  lemma {:induction false} RetriesLead(s: World, w: nat, k: nat) returns (t: World)
    requires Starts(s, w) && k < MAX_HOPS
    ensures Path(s, Repeated(Retry(w), k), t) && Later(s, w, k, t)
  {
    if k == 0 {
      t := s;
    } else {
      var m := RetriesLead(s, w, k - 1);
      t := Do(m, Retry(w));
      assert Path(m, [Retry(w)], t);
      PathJoins(s, Repeated(Retry(w), k - 1), m, [Retry(w)], t);
      assert Repeated(Retry(w), k) == Repeated(Retry(w), k - 1) + [Retry(w)];
    }
  }

  /** What the load balancer cannot know or decide: whether the last node applied the message, whether the reply says
      what it should, and whether the mutation's response could be buffered. */
  datatype Fortune = Fortune(applied: bool, usable: bool, captured: Option<Captured>)

  /** The mutation's response is what the call answered: the node's, unless it is too large to buffer, or a 502. */
  predicate Captures(answer: F.Answer, captured: Option<Captured>) {
    match answer
    case Response(response) => captured.None? || captured == Some(response)
    case _ => captured.Some? && captured.value.status == 502
  }

  function LastSteps(w: nat, p: Phase, u: F.Upstream, fortune: Fortune): seq<Step>
    requires Waiting(p)
  {
    if !F.MayHaveApplied(u) then [Exhaust(w)]
    else if p.Forwarding? then [Respond(w, fortune.captured)]
    else if !fortune.applied then [GiveUp(w)]
    else [Deliver(Pending(w, p).value), if u.Served? && fortune.usable then Receive(w) else GiveUp(w)]
  }

  /** The forward call is over: a mutation's worker goes on to complete or abandon, a claimant is answered or goes on
      to forward, and after a complete or abandon the worker is done. */
  predicate LeftCall(before: Phase, after: Phase) {
    match before
    case Claiming(_, _, _) => after.Done? || (after.Forwarding? && after.hop == 0)
    case Forwarding(token, _, _) => (after.Completing? || after.Abandoning?) && after.hop == 0 && after.token == token
    case _ => after.Done?
  }

  lemma LastLeads(s: World, w: nat, u: F.Upstream, fortune: Fortune) returns (t: World)
    requires w in s.workers && Waiting(s.workers[w].phase) && !Answered(s.workers[w].phase)
    requires s.workers[w].phase.Forwarding? || Pending(w, s.workers[w].phase).value in s.wire
    ensures Path(s, LastSteps(w, s.workers[w].phase, u, fortune), t)
    ensures w in t.workers && LeftCall(s.workers[w].phase, t.workers[w].phase)
    ensures !F.MayHaveApplied(u) && !s.workers[w].phase.Forwarding? ==> Pending(w, s.workers[w].phase).value !in t.wire
  {
    var steps := LastSteps(w, s.workers[w].phase, u, fortune);
    var m := Do(s, steps[0]);
    if |steps| == 1 {
      t := m;
      assert Path(m, steps[1..], t);
    } else {
      t := Do(m, steps[1]);
      assert steps[1..][1..] == [];
      assert Path(m, steps[1..], t);
    }
  }

  /** Every forward call of a worker is a path of its retries, then of its last hop, and then the call is over. Only
      the last hop can deliver the message, and a call without a leader takes it off the wire. */
  lemma CallIsPath(text: B.Text, httpMethod: bytes, first: B.Url, hops: seq<F.Hop>, answer: F.Answer, s: World, w: nat,
                   fortune: Fortune)
    returns (steps: seq<Step>, t: World)
    requires F.Forwards(text, httpMethod, first, hops, answer)
    requires httpMethod != Ascii("GET") && httpMethod != Ascii("HEAD") && httpMethod != Ascii("OPTIONS")
    requires Starts(s, w)
    requires s.workers[w].phase.Forwarding? && answer != F.NoLeader ==> Captures(answer, fortune.captured)
    ensures var last := hops[|hops| - 1].outcome;
      steps == Repeated(Retry(w), |hops| - 1) + LastSteps(w, s.workers[w].phase, last, fortune)
    ensures Path(s, steps, t) && w in t.workers && LeftCall(s.workers[w].phase, t.workers[w].phase)
    ensures forall i :: 0 <= i < |steps| && steps[i].Deliver? ==>
        i == |hops| - 1 && F.MayHaveApplied(hops[i].outcome) && Some(steps[i].m) == Pending(w, s.workers[w].phase)
    ensures answer == F.NoLeader && !s.workers[w].phase.Forwarding? ==> Pending(w, s.workers[w].phase).value !in t.wire
    ensures answer == F.NoLeader && s.workers[w].phase.Forwarding? ==>
        t.workers[w].captured.Some? && t.workers[w].captured.value.status == 502
    ensures answer != F.NoLeader && s.workers[w].phase.Forwarding? ==> Captures(answer, t.workers[w].captured)
  {
    F.AtMostOneApplied(text, httpMethod, first, hops, answer);
    var n := |hops| - 1;
    var m := RetriesLead(s, w, n);
    t := LastLeads(m, w, hops[n].outcome, fortune);
    steps := Repeated(Retry(w), n) + LastSteps(w, m.workers[w].phase, hops[n].outcome, fortune);
    PathJoins(s, Repeated(Retry(w), n), m, LastSteps(w, m.workers[w].phase, hops[n].outcome, fortune), t);
  }
}
