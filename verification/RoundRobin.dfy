// The round-robin scan of `any_node_excluding` (src/table.rs), with its wrapping cursor.
module RoundRobin {
  import opened Wrappers
  import opened Bytes

  /** The cursor is a `usize` and is advanced with `wrapping_add`. */
  const USIZE: nat := 0x1_0000_0000_0000_0000

  /** The member looked at by try `j` of a scan that starts at `cursor`. */
  function Visit(cursor: nat, j: nat, n: nat): (i: nat)
    requires n > 0
    ensures i < n
  {
    (cursor + j) % USIZE % n
  }

  /** Try `j` is the first to look at a member that is not excluded. */
  ghost predicate PickedAt(nodes: seq<bytes>, excluded: set<bytes>, cursor: nat, u: bytes, after: nat, j: nat) {
    && j < |nodes| && nodes[Visit(cursor, j, |nodes|)] == u && u !in excluded && after == (cursor + j + 1) % USIZE
    && forall k :: 0 <= k < j ==> nodes[Visit(cursor, k, |nodes|)] in excluded
  }

  /** The scan gives the first member it visits that is not excluded, or nothing if it visits only excluded ones. */
  ghost predicate PickOutcome(nodes: seq<bytes>, excluded: set<bytes>, cursor: nat, r: Option<bytes>, after: nat) {
    var n := |nodes|;
    if n == 0 then r.None? && after == cursor
    else if r.None? then
      after == (cursor + n) % USIZE && forall j :: 0 <= j < n ==> nodes[Visit(cursor, j, n)] in excluded
    else exists j :: PickedAt(nodes, excluded, cursor, r.value, after, j)
  }

  /** A scan from `start` that has met only excluded members so far. */
  ghost predicate Scanned(nodes: seq<bytes>, excluded: set<bytes>, start: nat, tries: nat, cursor: nat) {
    && cursor == (start + tries) % USIZE
    && (nodes != [] ==> forall j :: 0 <= j < tries ==> nodes[Visit(start, j, |nodes|)] in excluded)
  }

  lemma ScanStep(nodes: seq<bytes>, excluded: set<bytes>, start: nat, tries: nat, cursor: nat)
    requires tries < |nodes| && Scanned(nodes, excluded, start, tries, cursor)
    ensures var u, after := nodes[cursor % |nodes|], (cursor + 1) % USIZE;
      if u in excluded then Scanned(nodes, excluded, start, tries + 1, after)
      else PickOutcome(nodes, excluded, start, Some(u), after)
  {
    var u, after := nodes[cursor % |nodes|], (cursor + 1) % USIZE;
    NextCursor(start, tries);
    if u !in excluded { assert PickedAt(nodes, excluded, start, u, after, tries); }
  }

  lemma PickIsUnexcludedMember(nodes: seq<bytes>, excluded: set<bytes>, cursor: nat, r: Option<bytes>, after: nat)
    requires PickOutcome(nodes, excluded, cursor, r, after) && r.Some?
    ensures r.value in nodes && r.value !in excluded
  {
  }

  lemma ExclusionFree(nodes: seq<bytes>, cursor: nat, r: Option<bytes>, after: nat)
    requires PickOutcome(nodes, {}, cursor, r, after)
    ensures r.Some? <==> nodes != []
    ensures r.Some? && cursor < USIZE ==> after == if cursor == 0xFFFF_FFFF_FFFF_FFFF then 0 else cursor + 1
  {
    if nodes != [] { var first := nodes[Visit(cursor, 0, |nodes|)]; }
  }

  // ---------- when a scan sees every member ----------

  lemma Multiples(d: int, n: int)
    requires n > 0
    ensures d >= 1 ==> d * n >= n
    ensures d <= -1 ==> d * n <= -n
  {
  }

  lemma ModIs(x: int, n: int, q: int, r: int)
    requires n > 0 && 0 <= r < n && x == q * n + r
    ensures x % n == r
  {
    var d := x / n - q;
    assert x == x / n * n + x % n;
    assert d * n == r - x % n;
    Multiples(d, n);
  }

  /** The scan does not cross the cursor's wrap, or the wrap falls on a multiple of the membership. */
  predicate ScanSafe(cursor: nat, n: nat)
    requires n > 0
  {
    cursor + n <= USIZE || USIZE % n == 0
  }

  lemma VisitUnwrapped(cursor: nat, j: nat, n: nat)
    requires cursor < USIZE && 0 < n <= USIZE && j < n && ScanSafe(cursor, n)
    ensures Visit(cursor, j, n) == (cursor + j) % n
  {
    var x := cursor + j;
    if x >= USIZE {
      ModIs(x, USIZE, 1, x - USIZE);
      var q := USIZE / n;
      assert USIZE == q * n;
      assert x == (x / n) * n + x % n;
      assert x - USIZE == (x / n - q) * n + x % n;
      ModIs(x - USIZE, n, x / n - q, x % n);
    }
  }

  /** The try at which member `i` is visited. */
  lemma TryFor(cursor: nat, n: nat, i: nat) returns (j: nat)
    requires n > 0 && i < n
    ensures j < n && (cursor + j) % n == i
  {
    var c, q := cursor % n, cursor / n;
    assert cursor == q * n + c;
    j := if i >= c then i - c else i - c + n;
    if i >= c {
      ModIs(cursor + j, n, q, i);
    } else {
      assert cursor + j == (q + 1) * n + i;
      ModIs(cursor + j, n, q + 1, i);
    }
  }

  /** The member a scan that is not safe never looks at. */
  function Missed(cursor: nat, n: nat): int
    requires n > 0
  {
    var a, r := USIZE - cursor, USIZE % n;
    if r >= a then n - 1 else n - a + r - 1
  }

  lemma MissedIsMissed(cursor: nat, n: nat, j: nat)
    requires cursor < USIZE && 0 < n <= USIZE && j < n && !ScanSafe(cursor, n)
    ensures 0 <= Missed(cursor, n) < n && Visit(cursor, j, n) != Missed(cursor, n)
  {
    var a, r, q := USIZE - cursor, USIZE % n, USIZE / n;
    assert USIZE == q * n + r;
    if j >= a {
      ModIs(cursor + j, USIZE, 1, j - a);
      ModIs(j - a, n, 0, j - a);
    } else if r - a + j >= 0 {
      ModIs(cursor + j, USIZE, 0, cursor + j);
      ModIs(cursor + j, n, q, r - a + j);
    } else {
      ModIs(cursor + j, USIZE, 0, cursor + j);
      assert cursor + j == (q - 1) * n + (n + r - a + j);
      ModIs(cursor + j, n, q - 1, n + r - a + j);
    }
  }

  /** Of three members a broken scan misses just that one. */
  lemma VisitedOfThree(cursor: nat, i: nat) returns (j: nat)
    requires cursor < USIZE && !ScanSafe(cursor, 3) && i < 3 && i != Missed(cursor, 3)
    ensures j < 3 && Visit(cursor, j, 3) == i
  {
    if cursor == USIZE - 1 {
      j := if i == 0 then 0 else 2;
    } else {
      assert cursor == USIZE - 2;
      j := if i == 2 then 0 else 1;
    }
  }

  ghost predicate AllDistinct(s: seq<bytes>) {
    forall i, j :: 0 <= i < j < |s| ==> s[i] != s[j]
  }

  ghost predicate AllIn(nodes: seq<bytes>, excluded: set<bytes>) {
    forall u :: u in nodes ==> u in excluded
  }

  lemma NoneMeansAllExcluded(nodes: seq<bytes>, excluded: set<bytes>, cursor: nat, after: nat)
    requires cursor < USIZE && 0 < |nodes| <= USIZE && ScanSafe(cursor, |nodes|)
    requires PickOutcome(nodes, excluded, cursor, None, after)
    ensures AllIn(nodes, excluded)
  {
    forall u | u in nodes ensures u in excluded {
      var i :| 0 <= i < |nodes| && nodes[i] == u;
      var j := TryFor(cursor, |nodes|, i);
      VisitUnwrapped(cursor, j, |nodes|);
    }
  }

  /** "None only when everybody is excluded" holds exactly for the safe cursors. */
  lemma NoneExactlyWhenSafe(nodes: seq<bytes>, cursor: nat)
    requires cursor < USIZE && 0 < |nodes| <= USIZE && AllDistinct(nodes)
    ensures (forall excluded, after :: PickOutcome(nodes, excluded, cursor, None, after) ==> AllIn(nodes, excluded))
        <==> ScanSafe(cursor, |nodes|)
  {
    var n := |nodes|;
    if ScanSafe(cursor, n) {
      forall excluded, after | PickOutcome(nodes, excluded, cursor, None, after) ensures AllIn(nodes, excluded) {
        NoneMeansAllExcluded(nodes, excluded, cursor, after);
      }
    } else {
      MissedIsMissed(cursor, n, 0);
      var missed := nodes[Missed(cursor, n)];
      var excluded := (set u | u in nodes) - {missed};
      forall j | 0 <= j < n ensures nodes[Visit(cursor, j, n)] in excluded {
        MissedIsMissed(cursor, n, j);
      }
      assert PickOutcome(nodes, excluded, cursor, None, (cursor + n) % USIZE);
      assert missed in nodes && missed !in excluded;
    }
  }

  // ---------- fairness ----------

  /** How often member `i` is met by `m` consecutive tries from `cursor`. */
  function Meets(i: nat, cursor: nat, m: nat, n: nat): nat
    requires n > 0
  {
    if m == 0 then 0 else Meets(i, cursor, m - 1, n) + (if (cursor + m - 1) % n == i then 1 else 0)
  }

  lemma {:induction false} OncePerRound(i: nat, cursor: nat, m: nat, n: nat, at: nat)
    requires n > 0 && m <= n && at < n && (cursor + at) % n == i
    ensures Meets(i, cursor, m, n) == if at < m then 1 else 0
  {
    if m > 0 {
      OncePerRound(i, cursor, m - 1, n, at);
      if (cursor + m - 1) % n == i {
        SameResidue(cursor + m - 1, cursor + at, n);
      }
    }
  }

  lemma SameResidue(x: nat, y: nat, n: nat)
    requires n > 0 && x % n == y % n && x < y + n && y < x + n
    ensures x == y
  {
    var d: int := x / n - y / n;
    assert x == x / n * n + x % n && y == y / n * n + y % n;
    assert x as int - y as int == d * n;
    Multiples(d, n);
  }

  lemma {:induction false} MeetsSplit(i: nat, cursor: nat, a: nat, b: nat, n: nat)
    requires n > 0
    ensures Meets(i, cursor, a + b, n) == Meets(i, cursor, a, n) + Meets(i, cursor + a, b, n)
  {
    if b > 0 {
      MeetsSplit(i, cursor, a, b - 1, n);
    }
  }

  lemma {:induction false} OncePerEachRound(i: nat, cursor: nat, k: nat, n: nat)
    requires n > 0 && i < n
    ensures Meets(i, cursor, k * n, n) == k
  {
    if k > 0 {
      OncePerEachRound(i, cursor, k - 1, n);
      assert k * n == (k - 1) * n + n;
      MeetsSplit(i, cursor, (k - 1) * n, n, n);
      var at := TryFor(cursor + (k - 1) * n, n, i);
      OncePerRound(i, cursor + (k - 1) * n, n, n, at);
    }
  }

  /** Consecutive exclusion-free calls on an unchanged membership. */
  ghost predicate Calls(nodes: seq<bytes>, cursors: seq<nat>, results: seq<bytes>) {
    && |cursors| == |results| + 1
    && forall j :: 0 <= j < |results| ==> PickOutcome(nodes, {}, cursors[j], Some(results[j]), cursors[j + 1])
  }

  /** The calls do not cross the cursor's wrap, or the wrap falls on a multiple of the membership. */
  predicate RoundsSafe(cursor: nat, calls: nat, n: nat)
    requires n > 0
  {
    cursor + calls <= USIZE || USIZE % n == 0
  }

  /** Without exclusions the first try succeeds. */
  lemma FirstTry(nodes: seq<bytes>, cursor: nat, r: bytes, after: nat)
    requires 0 < |nodes| && cursor < USIZE && PickOutcome(nodes, {}, cursor, Some(r), after)
    ensures r == nodes[cursor % |nodes|] && after == (cursor + 1) % USIZE
  {
    var j :| PickedAt(nodes, {}, cursor, r, after, j);
    var first := nodes[Visit(cursor, 0, |nodes|)];
    assert j == 0;
    ModIs(cursor, USIZE, 0, cursor);
  }

  /** Wrapping first does not change the remainder, if there is no wrap or it falls on a multiple. */
  lemma WrapsEvenly(x: nat, n: nat)
    requires 0 < n && (x < USIZE || USIZE % n == 0)
    ensures x % USIZE % n == x % n
  {
    if x < USIZE {
      ModIs(x, USIZE, 0, x);
    } else {
      var q, r, k := x / USIZE, x % USIZE, USIZE / n;
      assert x == q * USIZE + r && USIZE == k * n;
      assert q * USIZE == (q * k) * n;
      assert r == r / n * n + r % n;
      assert (q * k + r / n) * n == (q * k) * n + r / n * n;
      ModIs(x, n, q * k + r / n, r % n);
    }
  }

  lemma NextCursor(start: nat, j: nat)
    ensures ((start + j) % USIZE + 1) % USIZE == (start + j + 1) % USIZE
  {
  }

  lemma {:induction false} CallsStep(nodes: seq<bytes>, cursors: seq<nat>, results: seq<bytes>, j: nat)
    requires Calls(nodes, cursors, results) && 0 < |nodes| && j < |results| && cursors[0] < USIZE
    ensures cursors[j] == (cursors[0] + j) % USIZE && results[j] == nodes[(cursors[0] + j) % USIZE % |nodes|]
  {
    if j > 0 {
      CallsStep(nodes, cursors, results, j - 1);
      FirstTry(nodes, cursors[j - 1], results[j - 1], cursors[j]);
      NextCursor(cursors[0], j - 1);
    } else {
      ModIs(cursors[0], USIZE, 0, cursors[0]);
    }
    FirstTry(nodes, cursors[j], results[j], cursors[j + 1]);
  }

  lemma CountLast(results: seq<bytes>, u: bytes)
    requires results != []
    ensures var m := |results| - 1;
      multiset(results)[u] == multiset(results[..m])[u] + (if results[m] == u then 1 else 0)
  {
    var m := |results| - 1;
    assert results == results[..m] + [results[m]];
  }

  lemma SameMember(nodes: seq<bytes>, a: nat, b: nat)
    requires AllDistinct(nodes) && a < |nodes| && b < |nodes|
    ensures nodes[a] == nodes[b] <==> a == b
  {
  }

  lemma {:induction false} CallsCount(nodes: seq<bytes>, cursor: nat, results: seq<bytes>, i: nat)
    requires 0 < |nodes| && AllDistinct(nodes) && i < |nodes|
    requires forall j :: 0 <= j < |results| ==> results[j] == nodes[(cursor + j) % |nodes|]
    ensures multiset(results)[nodes[i]] == Meets(i, cursor, |results|, |nodes|)
  {
    if results != [] {
      var m := |results| - 1;
      CallsCount(nodes, cursor, results[..m], i);
      CountLast(results, nodes[i]);
      SameMember(nodes, (cursor + m) % |nodes|, i);
    }
  }

  /** Over k rounds of n calls every member is handed out exactly k times, across the wrap too if n divides 2^64. */
  lemma RoundRobinIsFair(nodes: seq<bytes>, cursors: seq<nat>, results: seq<bytes>, k: nat)
    requires Calls(nodes, cursors, results) && 0 < |nodes| && AllDistinct(nodes)
    requires |results| == k * |nodes| && cursors[0] < USIZE && RoundsSafe(cursors[0], |results|, |nodes|)
    ensures Fair(nodes, results, k)
  {
    forall u | u in nodes ensures multiset(results)[u] == k {
      var i :| 0 <= i < |nodes| && nodes[i] == u;
      forall j | 0 <= j < |results| ensures results[j] == nodes[(cursors[0] + j) % |nodes|] {
        CallsStep(nodes, cursors, results, j);
        WrapsEvenly(cursors[0] + j, |nodes|);
      }
      CallsCount(nodes, cursors[0], results, i);
      OncePerEachRound(i, cursors[0], k, |nodes|);
    }
  }

  // ---------- fairness, exactly ----------

  lemma CountSplit(results: seq<bytes>, a: nat, u: bytes)
    requires a <= |results|
    ensures multiset(results)[u] == multiset(results[..a])[u] + multiset(results[a..])[u]
  {
    assert results == results[..a] + results[a..];
  }

  lemma BeforeWrap(nodes: seq<bytes>, cursors: seq<nat>, results: seq<bytes>, a: nat, j: nat)
    requires Calls(nodes, cursors, results) && 0 < |nodes| && cursors[0] + a == USIZE && j < a <= |results|
    requires cursors[0] < USIZE
    ensures results[j] == nodes[(cursors[0] + j) % |nodes|]
  {
    CallsStep(nodes, cursors, results, j);
    ModIs(cursors[0] + j, USIZE, 0, cursors[0] + j);
  }

  lemma AfterWrap(nodes: seq<bytes>, cursors: seq<nat>, results: seq<bytes>, a: nat, j: nat)
    requires Calls(nodes, cursors, results) && 0 < |nodes| && cursors[0] + a == USIZE && a + j < |results| && j < USIZE
    requires cursors[0] < USIZE
    ensures results[a + j] == nodes[(0 + j) % |nodes|]
  {
    CallsStep(nodes, cursors, results, a + j);
    ModIs(cursors[0] + a + j, USIZE, 1, j);
  }

  /** Calls that wrap after `a` of them: they go on from member 0. */
  lemma WrappedCount(nodes: seq<bytes>, cursors: seq<nat>, results: seq<bytes>, a: nat, i: nat)
    requires Calls(nodes, cursors, results) && 0 < |nodes| && AllDistinct(nodes) && i < |nodes|
    requires cursors[0] < USIZE && cursors[0] + a == USIZE && a <= |results| <= a + USIZE
    ensures multiset(results)[nodes[i]] ==
            Meets(i, cursors[0], a, |nodes|) + Meets(i, 0, |results| - a, |nodes|)
  {
    var early, late := results[..a], results[a..];
    forall j | 0 <= j < |early| ensures early[j] == nodes[(cursors[0] + j) % |nodes|] {
      BeforeWrap(nodes, cursors, results, a, j);
    }
    forall j | 0 <= j < |late| ensures late[j] == nodes[(0 + j) % |nodes|] {
      AfterWrap(nodes, cursors, results, a, j);
    }
    CallsCount(nodes, cursors[0], early, i);
    CallsCount(nodes, 0, late, i);
    CountSplit(results, a, nodes[i]);
  }

  /** So many full rounds, and then the part of a round. */
  lemma MeetsRounds(i: nat, cursor: nat, p: nat, m: nat, n: nat, at: nat)
    requires i < n && m <= n && at < n && (cursor + at) % n == i
    ensures Meets(i, cursor, p * n + m, n) == p + if at < m then 1 else 0
  {
    OncePerEachRound(i, cursor, p, n);
    MeetsSplit(i, cursor, p * n, m, n);
    assert cursor + p * n + at == p * n + (cursor + at);
    ShiftByRounds(cursor + at, p, n);
    OncePerRound(i, cursor + p * n, m, n, at);
  }

  lemma ShiftByRounds(x: nat, p: nat, n: nat)
    requires n > 0
    ensures (x + p * n) % n == x % n
  {
    assert x == x / n * n + x % n;
    assert x + p * n == (x / n + p) * n + x % n;
    ModIs(x + p * n, n, x / n + p, x % n);
  }

  /** `k` rounds of which `a` calls are over: the full rounds done and to come, and the round under way. */
  lemma RoundsLeft(a: nat, k: nat, n: nat)
    requires n > 0 && a <= k * n
    ensures a == a / n * n + a % n && a / n <= k
    ensures a % n == 0 ==> k * n - a == (k - a / n) * n
    ensures a % n != 0 ==> a / n < k && k * n - a == (k - a / n - 1) * n + (n - a % n)
  {
    var p := a / n;
    assert a == p * n + a % n;
    assert (k - p) * n == k * n - p * n;
    Multiples(k - p, n);
    assert (k - p - 1) * n == (k - p) * n - n;
  }

  /** The calls before the wrap end at the member before `r`, so they meet it once more often than member `r`. */
  lemma BeforeBrokenWrap(cursor: nat, a: nat, n: nat)
    requires n > 0 && cursor + a == USIZE && USIZE % n != 0 && a % n != 0
    ensures Meets(USIZE % n - 1, cursor, a, n) == a / n + 1
    ensures Meets(USIZE % n, cursor, a, n) == a / n
  {
    var p, m, r := a / n, a % n, USIZE % n;
    assert a == p * n + m;
    ShiftByRounds(cursor + m, p, n);
    assert cursor + m + p * n == USIZE;
    BeforeResidue(cursor + m - 1, n);
    MeetsRounds(r - 1, cursor, p, m, n, m - 1);
    MeetsRounds(r, cursor, p, m, n, m);
  }

  /** The calls after the wrap start at member 0. */
  lemma AfterBrokenWrap(i: nat, q: nat, rest: nat, n: nat)
    requires i < n && rest <= n
    ensures Meets(i, 0, q * n + rest, n) == q + if i < rest then 1 else 0
  {
    ModIs(i, n, 0, i);
    MeetsRounds(i, 0, q, rest, n, i);
  }

  /** Rounds that wrap inside a round meet the last member before the wrap, or the one after it, a wrong number of
      times. */
  lemma BrokenRounds(cursor: nat, a: nat, k: nat, n: nat)
    requires n > 0 && cursor + a == USIZE && a <= k * n && USIZE % n != 0 && a % n != 0
    ensures var last, next := USIZE % n - 1, USIZE % n;
      Meets(last, cursor, a, n) + Meets(last, 0, k * n - a, n) != k
      || Meets(next, cursor, a, n) + Meets(next, 0, k * n - a, n) != k
  {
    var r, q, rest := USIZE % n, k - a / n - 1, n - a % n;
    RoundsLeft(a, k, n);
    BeforeBrokenWrap(cursor, a, n);
    AfterBrokenWrap(r - 1, q, rest, n);
    AfterBrokenWrap(r, q, rest, n);
  }

  lemma BeforeResidue(x: nat, n: nat)
    requires n > 0 && (x + 1) % n != 0
    ensures x % n == (x + 1) % n - 1
  {
    var y := x + 1;
    assert y == y / n * n + y % n;
    ModIs(x, n, y / n, y % n - 1);
  }

  ghost predicate Fair(nodes: seq<bytes>, results: seq<bytes>, k: nat) {
    forall u :: u in nodes ==> multiset(results)[u] == k
  }

  /** A wrap between two rounds does no harm. */
  lemma WholeRounds(i: nat, cursor: nat, a: nat, k: nat, n: nat)
    requires i < n && a % n == 0 && a <= k * n
    ensures Meets(i, cursor, a, n) + Meets(i, 0, k * n - a, n) == k
  {
    RoundsLeft(a, k, n);
    OncePerEachRound(i, cursor, a / n, n);
    OncePerEachRound(i, 0, k - a / n, n);
  }

  lemma WrapBetweenRoundsIsFair(nodes: seq<bytes>, cursors: seq<nat>, results: seq<bytes>, k: nat, a: nat)
    requires Calls(nodes, cursors, results) && 0 < |nodes| && AllDistinct(nodes) && cursors[0] < USIZE
    requires cursors[0] + a == USIZE && a <= |results| == k * |nodes| <= USIZE && a % |nodes| == 0
    ensures Fair(nodes, results, k)
  {
    forall u | u in nodes ensures multiset(results)[u] == k {
      var i :| 0 <= i < |nodes| && nodes[i] == u;
      WrappedCount(nodes, cursors, results, a, i);
      WholeRounds(i, cursors[0], a, k, |nodes|);
    }
  }

  lemma WrapInsideRoundIsUnfair(nodes: seq<bytes>, cursors: seq<nat>, results: seq<bytes>, k: nat, a: nat)
    requires Calls(nodes, cursors, results) && 0 < |nodes| && AllDistinct(nodes) && cursors[0] < USIZE
    requires cursors[0] + a == USIZE && a <= |results| == k * |nodes| <= USIZE
    requires a % |nodes| != 0 && USIZE % |nodes| != 0
    ensures !Fair(nodes, results, k)
  {
    var r := USIZE % |nodes|;
    BrokenRounds(cursors[0], a, k, |nodes|);
    WrappedCount(nodes, cursors, results, a, r - 1);
    WrappedCount(nodes, cursors, results, a, r);
    assert nodes[r - 1] in nodes && nodes[r] in nodes;
  }

  /** Of 2^64 calls at most, k rounds are fair exactly if they do not cross the cursor's wrap, or the wrap falls
      between two rounds, or n divides 2^64. */
  lemma FairExactly(nodes: seq<bytes>, cursors: seq<nat>, results: seq<bytes>, k: nat)
    requires Calls(nodes, cursors, results) && 0 < |nodes| && AllDistinct(nodes) && cursors[0] < USIZE
    requires |results| == k * |nodes| <= USIZE
    ensures Fair(nodes, results, k) <==>
            RoundsSafe(cursors[0], |results|, |nodes|) || (USIZE - cursors[0]) % |nodes| == 0
  {
    if RoundsSafe(cursors[0], |results|, |nodes|) {
      RoundRobinIsFair(nodes, cursors, results, k);
    } else if (USIZE - cursors[0]) % |nodes| == 0 {
      WrapBetweenRoundsIsFair(nodes, cursors, results, k, USIZE - cursors[0]);
    } else {
      WrapInsideRoundIsUnfair(nodes, cursors, results, k, USIZE - cursors[0]);
    }
  }
}
