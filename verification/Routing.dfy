// From a request to its routing key (src/routing.rs).
module Routing {
  import opened Wrappers
  import opened Bytes
  import opened Percent
  import opened Splitting

  const SLASH: byte := 47
  const AMPERSAND: byte := 38
  const EQUALS: byte := 61
  const SCOPE: byte := 1

  datatype Uri = Uri(path: bytes, query: Option<bytes>)

  /** What the model does not look into: lossy UTF-8 decoding, and the two coordinator keys. */
  datatype Keys = Keys(lossy: bytes -> bytes, lockCoordination: bytes, serviceDiscovery: bytes)

  /** The string fields of the JSON body; empty if it is not a JSON object. */
  type Body = map<bytes, bytes>

  function NonEmpty(parts: seq<bytes>): seq<bytes> {
    if parts == [] then []
    else (if parts[0] == [] then [] else [parts[0]]) + NonEmpty(parts[1..])
  }

  function Segments(path: bytes): seq<bytes> {
    NonEmpty(Split(path, SLASH))
  }

  lemma {:induction false} NonEmptyJoins(a: seq<bytes>, b: seq<bytes>)
    ensures NonEmpty(a + b) == NonEmpty(a) + NonEmpty(b)
  {
    if a == [] {
      assert a + b == b;
    } else {
      var head := if a[0] == [] then [] else [a[0]];
      NonEmptyJoins(a[1..], b);
      assert (a + b)[1..] == a[1..] + b;
      assert head + (NonEmpty(a[1..]) + NonEmpty(b)) == head + NonEmpty(a[1..]) + NonEmpty(b);
    }
  }

  /** A slash separates, and empty segments do not exist: these laws fix `Segments` for every path. */
  lemma SegmentsLaws(a: bytes, b: bytes)
    ensures Segments(a + Ascii("/") + b) == Segments(a) + Segments(b)
    ensures Ascii("/")[0] !in a ==> Segments(a) == if a == [] then [] else [a]
  {
    assert Ascii("/") == [SLASH];
    SplitAtSeparator(a, b, SLASH);
    NonEmptyJoins(Split(a, SLASH), Split(b, SLASH));
    if SLASH !in a { SplitHead(a, [], SLASH); }
  }

  /** The node's `\x01{org}\x01{key}`. */
  function Scoped(org: Option<bytes>, key: bytes): bytes {
    if org.Some? then [SCOPE] + org.value + [SCOPE] + key else key
  }

  // The segments and field names that `routing_key` matches on.
  const V1: bytes := Ascii("v1")
  const KV: bytes := Ascii("kv")
  const LOCKS: bytes := Ascii("locks")
  const SEMAPHORES: bytes := Ascii("semaphores")
  const IDEMPOTENCY: bytes := Ascii("idempotency")
  const RATE_LIMIT: bytes := Ascii("rate-limit")
  const RATELIMIT: bytes := Ascii("ratelimit")
  const CRON: bytes := Ascii("cron")
  const SCHEDULES: bytes := Ascii("schedules")
  const ELECTIONS: bytes := Ascii("elections")
  const SERVICES: bytes := Ascii("services")
  const COUNTERS: bytes := Ascii("counters")
  const BARRIERS: bytes := Ascii("barriers")
  const TASKS: bytes := Ascii("tasks")
  const EFFECTS: bytes := Ascii("effects")
  const HANDOFFS: bytes := Ascii("handoffs")
  const DECISIONS: bytes := Ascii("decisions")
  const BUDGETS: bytes := Ascii("budgets")
  const CLAIMS: bytes := Ascii("claims")
  const CLAIM: bytes := Ascii("claim")
  const COMPLETE: bytes := Ascii("complete")
  const ABANDON: bytes := Ascii("abandon")
  const KEY: bytes := Ascii("key")
  const NAME: bytes := Ascii("name")

  // ---------- where a key is ----------

  datatype Place = InQuery(name: bytes) | InSegment(index: nat) | InBody(name: bytes) | Always(key: bytes) | Nowhere

  predicate Named(family: bytes) {
    || family == BARRIERS || family == TASKS || family == EFFECTS || family == HANDOFFS
    || family == DECISIONS || family == BUDGETS || family == CLAIMS
  }

  /** The arms of `routing_key`. */
  function UriPlace(keys: Keys, segs: seq<bytes>): (p: Place)
    ensures p.InSegment? ==> p.index < |segs|
    ensures p.InQuery? ==> EQUALS !in p.name
    ensures !p.InBody?
  {
    if |segs| < 2 || segs[0] != V1 then Nowhere
    else
      var family := segs[1];
      if |segs| == 2 && family == KV then InQuery(KEY)
      else if family == LOCKS || family == SEMAPHORES then Always(keys.lockCoordination)
      else if |segs| == 2 && family == IDEMPOTENCY then InQuery(KEY)
      else if |segs| >= 4 && (family == RATE_LIMIT || family == RATELIMIT) then InSegment(3)
      else if |segs| >= 4 && family == CRON && segs[2] == SCHEDULES then InSegment(3)
      else if |segs| >= 3 && family == ELECTIONS then InSegment(2)
      else if family == SERVICES then Always(keys.serviceDiscovery)
      else if |segs| == 2 && family == COUNTERS then InQuery(KEY)
      else if |segs| == 2 && Named(family) then InQuery(NAME)
      else Nowhere
  }

  /** The arms `routing_key_with_body` adds. */
  function BodyPlace(segs: seq<bytes>): (p: Place)
    ensures p.InBody? || p.Nowhere?
  {
    if |segs| != 3 || segs[0] != V1 then Nowhere
    else if segs[1] == IDEMPOTENCY && (segs[2] == CLAIM || segs[2] == COMPLETE) then InBody(KEY)
    else if segs[1] == COUNTERS then InBody(KEY)
    else if Named(segs[1]) then InBody(NAME)
    else Nowhere
  }

  // ---------- the key ----------

  /** The value of the first pair called `name`; pairs without `=` are passed over. */
  function FirstNamed(pairs: seq<bytes>, name: bytes): Option<bytes> {
    if pairs == [] then None
    else
      match SplitOnce(pairs[0], EQUALS)
      case Some((k, v)) => if k == name then Some(v) else FirstNamed(pairs[1..], name)
      case None => FirstNamed(pairs[1..], name)
  }

  function QueryParam(keys: Keys, uri: Uri, name: bytes): Option<bytes> {
    if uri.query.None? then None
    else
      match FirstNamed(Split(uri.query.value, AMPERSAND), name)
      case None => None
      case Some(v) => Some(keys.lossy(Decoded(v, true)))
  }

  function ScopedIfAny(org: Option<bytes>, key: Option<bytes>): Option<bytes> {
    if key.Some? then Some(Scoped(org, key.value)) else None
  }

  function RoutingKey(keys: Keys, uri: Uri, org: Option<bytes>): Option<bytes> {
    var segs := Segments(uri.path);
    match UriPlace(keys, segs)
    case InQuery(name) => ScopedIfAny(org, QueryParam(keys, uri, name))
    case InSegment(i) => Some(Scoped(org, keys.lossy(Decoded(segs[i], false))))
    case Always(key) => Some(key)
    case _ => None
  }

  function RoutingKeyWithBody(keys: Keys, uri: Uri, body: Body, org: Option<bytes>): Option<bytes> {
    var key := RoutingKey(keys, uri, org);
    if key.Some? then key
    else
      match BodyPlace(Segments(uri.path))
      case InBody(name) => if name in body then Some(Scoped(org, body[name])) else None
      case _ => None
  }

  // ---------- every surface, every spelling ----------

  /** Pair `i` is the first called `name` (an equals sign follows), and its value spells `key`. */
  ghost predicate PairCarries(pairs: seq<bytes>, name: bytes, key: bytes, i: nat, w: bytes) {
    && i < |pairs| && pairs[i] == name + [61] + w && Spells(w, key, true)
    && forall j, v :: 0 <= j < i ==> pairs[j] != name + [61] + v
  }

  /** The pairs are separated by ampersands. */
  ghost predicate QueryCarries(query: Option<bytes>, name: bytes, key: bytes) {
    query.Some? && exists i, w :: PairCarries(Split(query.value, 38), name, key, i, w)
  }

  // ---------- the shapes of keyed requests, spelled out ----------

  /** `/v1/rate-limit/{tenant}/{w}/...`, also written `ratelimit` */
  ghost predicate RateLimitShape(segs: seq<bytes>, w: bytes) {
    && |segs| >= 4 && segs[0] == Ascii("v1") && segs[3] == w
    && (segs[1] == Ascii("rate-limit") || segs[1] == Ascii("ratelimit"))
  }

  /** `/v1/cron/schedules/{w}/...` */
  ghost predicate CronShape(segs: seq<bytes>, w: bytes) {
    |segs| >= 4 && segs[0] == Ascii("v1") && segs[1] == Ascii("cron") && segs[2] == Ascii("schedules") && segs[3] == w
  }

  /** `/v1/elections/{w}/...` */
  ghost predicate ElectionShape(segs: seq<bytes>, w: bytes) {
    |segs| >= 3 && segs[0] == Ascii("v1") && segs[1] == Ascii("elections") && segs[2] == w
  }

  ghost predicate PathShape(segs: seq<bytes>, w: bytes) {
    RateLimitShape(segs, w) || CronShape(segs, w) || ElectionShape(segs, w)
  }

  ghost predicate NameFamily(family: bytes) {
    || family == Ascii("barriers") || family == Ascii("tasks") || family == Ascii("effects")
    || family == Ascii("handoffs") || family == Ascii("decisions") || family == Ascii("budgets")
    || family == Ascii("claims")
  }

  /** `/v1/{kv, idempotency, counters}?key=` and `/v1/{name-keyed family}?name=` */
  ghost predicate QueryShape(segs: seq<bytes>, name: bytes) {
    && |segs| == 2 && segs[0] == Ascii("v1")
    && if name == Ascii("key")
       then segs[1] == Ascii("kv") || segs[1] == Ascii("idempotency") || segs[1] == Ascii("counters")
       else name == Ascii("name") && NameFamily(segs[1])
  }

  /** `/v1/idempotency/{claim, complete}` and `/v1/counters/{op}` with `key` in the body, and
      `/v1/{name-keyed family}/{op}` with `name` in it */
  ghost predicate BodyShape(segs: seq<bytes>, name: bytes) {
    && |segs| == 3 && segs[0] == Ascii("v1")
    && if name == Ascii("key")
       then (segs[1] == Ascii("idempotency") && (segs[2] == Ascii("claim") || segs[2] == Ascii("complete")))
            || segs[1] == Ascii("counters")
       else name == Ascii("name") && NameFamily(segs[1])
  }

  /** `/v1/locks/...` and `/v1/semaphores/...` */
  ghost predicate LockShape(segs: seq<bytes>) {
    |segs| >= 2 && segs[0] == Ascii("v1") && (segs[1] == Ascii("locks") || segs[1] == Ascii("semaphores"))
  }

  /** `/v1/services/...` */
  ghost predicate ServiceShape(segs: seq<bytes>) {
    |segs| >= 2 && segs[0] == Ascii("v1") && segs[1] == Ascii("services")
  }

  /** Families of equal length differ in their first letters. */
  lemma FamiliesDiffer()
    ensures RATE_LIMIT[0] == 114 && SEMAPHORES[0] == 115
    ensures RATELIMIT[0] == 114 && ELECTIONS[0] == 101 && DECISIONS[0] == 100
    ensures SERVICES[0] == 115 && COUNTERS[0] == 99 && BARRIERS[0] == 98 && HANDOFFS[0] == 104
    ensures LOCKS[0] == 108 && TASKS[0] == 116 && CRON[0] == 99 && KEY[0] == 107 && |KEY| == 3 && |NAME| == 4
  {
  }

  lemma PathPlace(keys: Keys, segs: seq<bytes>, w: bytes)
    ensures PathShape(segs, w) <==> UriPlace(keys, segs).InSegment? && segs[UriPlace(keys, segs).index] == w
  {
    FamiliesDiffer();
  }

  lemma QueryPlace(keys: Keys, segs: seq<bytes>, name: bytes)
    ensures QueryShape(segs, name) <==> UriPlace(keys, segs) == InQuery(name)
  {
    FamiliesDiffer();
  }

  lemma CoordinatorPlace(keys: Keys, segs: seq<bytes>)
    ensures LockShape(segs) ==> UriPlace(keys, segs) == Always(keys.lockCoordination)
    ensures ServiceShape(segs) ==> UriPlace(keys, segs) == Always(keys.serviceDiscovery)
    ensures UriPlace(keys, segs).Always? ==> LockShape(segs) || ServiceShape(segs)
  {
    FamiliesDiffer();
  }

  lemma BodyPlaceExactly(keys: Keys, segs: seq<bytes>, name: bytes)
    ensures BodyShape(segs, name) <==> BodyPlace(segs) == InBody(name)
    ensures BodyShape(segs, name) ==> UriPlace(keys, segs) == Nowhere
  {
    FamiliesDiffer();
  }

  /** The request names `key` where its endpoint takes it: as a path segment or as a query value, each in any spelling,
      or as a string of the JSON body. */
  ghost predicate Carries(uri: Uri, body: Body, key: bytes) {
    var segs := Segments(uri.path);
    || (exists w :: PathShape(segs, w) && Spells(w, key, false))
    || (exists name :: QueryShape(segs, name) && QueryCarries(uri.query, name, key))
    || (exists name :: BodyShape(segs, name) && name in body && body[name] == key)
  }

  lemma {:induction false} FirstNamedIs(pairs: seq<bytes>, name: bytes, i: nat, w: bytes)
    requires EQUALS !in name && i < |pairs| && pairs[i] == name + [EQUALS] + w
    requires forall j, v :: 0 <= j < i ==> pairs[j] != name + [EQUALS] + v
    ensures FirstNamed(pairs, name) == Some(w)
  {
    if i == 0 {
      SplitOnceAt(name, w, EQUALS);
    } else {
      if SplitOnce(pairs[0], EQUALS).Some? { SplitOnceParts(pairs[0], EQUALS); }
      FirstNamedIs(pairs[1..], name, i - 1, w);
    }
  }

  lemma QueryGivesKey(keys: Keys, uri: Uri, name: bytes, key: bytes)
    requires EQUALS !in name && QueryCarries(uri.query, name, key) && keys.lossy(key) == key
    ensures QueryParam(keys, uri, name) == Some(key)
  {
    var pairs := Split(uri.query.value, AMPERSAND);
    var i: nat, w :| PairCarries(pairs, name, key, i, w);
    FirstNamedIs(pairs, name, i, w);
    EverySpellingDecodes(w, key, true);
  }

  /** Wherever and however a request carries a key, what is routed by is that key, behind the caller's org if there is
      one. */
  lemma EverySpellingRoutesByItsKey(keys: Keys, uri: Uri, body: Body, org: Option<bytes>, key: bytes)
    requires Carries(uri, body, key) && keys.lossy(key) == key
    ensures RoutingKeyWithBody(keys, uri, body, org) == Some(if org.Some? then [1] + org.value + [1] + key else key)
  {
    var segs := Segments(uri.path);
    if w :| PathShape(segs, w) && Spells(w, key, false) {
      PathPlace(keys, segs, w);
      EverySpellingDecodes(w, key, false);
    } else if name :| QueryShape(segs, name) && QueryCarries(uri.query, name, key) {
      QueryPlace(keys, segs, name);
      QueryGivesKey(keys, uri, name, key);
    } else {
      var name :| BodyShape(segs, name) && name in body && body[name] == key;
      BodyPlaceExactly(keys, segs, name);
    }
  }

  /** Locks and semaphores meet on one coordinator key, services on another, whatever the org. */
  lemma CoordinatorsAreShared(keys: Keys, uri: Uri, body: Body, org: Option<bytes>)
    ensures LockShape(Segments(uri.path)) ==> RoutingKeyWithBody(keys, uri, body, org) == Some(keys.lockCoordination)
    ensures ServiceShape(Segments(uri.path)) ==> RoutingKeyWithBody(keys, uri, body, org) == Some(keys.serviceDiscovery)
  {
    CoordinatorPlace(keys, Segments(uri.path));
  }

  /** No pair of the query is called `name`. */
  ghost predicate QueryLacks(query: Option<bytes>, name: bytes) {
    query.Some? ==> forall i, v :: 0 <= i < |Split(query.value, 38)| ==>
                      Split(query.value, 38)[i] != name + [61] + v
  }

  lemma {:induction false} NotNamed(pairs: seq<bytes>, name: bytes)
    requires EQUALS !in name
    ensures FirstNamed(pairs, name) == None <==> forall i, v :: 0 <= i < |pairs| ==> pairs[i] != name + [EQUALS] + v
  {
    if pairs != [] {
      NotNamed(pairs[1..], name);
      var first := SplitOnce(pairs[0], EQUALS);
      if first.Some? { SplitOnceParts(pairs[0], EQUALS); }
      forall v ensures pairs[0] == name + [EQUALS] + v ==> first == Some((name, v)) { SplitOnceAt(name, v, EQUALS); }
      if FirstNamed(pairs, name) == None {
        forall i, v | 0 <= i < |pairs| ensures pairs[i] != name + [EQUALS] + v {
          if i > 0 { assert pairs[i] == pairs[1..][i - 1]; }
        }
      } else if first.Some? && first.value.0 == name {
        assert pairs[0] == name + [EQUALS] + first.value.1;
      } else {
        var i, v :| 0 <= i < |pairs[1..]| && pairs[1..][i] == name + [EQUALS] + v;
        assert pairs[i + 1] == name + [EQUALS] + v;
      }
    }
  }

  /** No shape offers the request a key: it has none, or its query or body lacks the name. */
  ghost predicate Keyless(uri: Uri, body: Body) {
    var segs := Segments(uri.path);
    && !LockShape(segs) && !ServiceShape(segs) && (forall w :: !PathShape(segs, w))
    && (forall name :: QueryShape(segs, name) ==> QueryLacks(uri.query, name))
    && (forall name :: BodyShape(segs, name) ==> name !in body)
  }

  lemma KeylessHasNoKey(keys: Keys, uri: Uri, body: Body, org: Option<bytes>)
    requires Keyless(uri, body)
    ensures RoutingKeyWithBody(keys, uri, body, org) == None
  {
    var segs := Segments(uri.path);
    var place, inBody := UriPlace(keys, segs), BodyPlace(segs);
    CoordinatorPlace(keys, segs);
    if place.InSegment? { PathPlace(keys, segs, segs[place.index]); }
    if place.InQuery? {
      QueryPlace(keys, segs, place.name);
      if uri.query.Some? { NotNamed(Split(uri.query.value, AMPERSAND), place.name); }
    }
    if inBody.InBody? { BodyPlaceExactly(keys, segs, inBody.name); }
  }

  lemma NoKeyIsKeyless(keys: Keys, uri: Uri, body: Body, org: Option<bytes>)
    requires RoutingKeyWithBody(keys, uri, body, org) == None
    ensures Keyless(uri, body)
  {
    var segs := Segments(uri.path);
    CoordinatorPlace(keys, segs);
    forall w ensures !PathShape(segs, w) { PathPlace(keys, segs, w); }
    forall name | QueryShape(segs, name) ensures QueryLacks(uri.query, name) {
      QueryPlace(keys, segs, name);
      if uri.query.Some? { NotNamed(Split(uri.query.value, AMPERSAND), name); }
    }
    forall name | BodyShape(segs, name) ensures name !in body { BodyPlaceExactly(keys, segs, name); }
  }

  /** A request is sent to any node exactly if no shape offers it a key. */
  lemma KeylessExactly(keys: Keys, uri: Uri, body: Body, org: Option<bytes>)
    ensures RoutingKeyWithBody(keys, uri, body, org) == None <==> Keyless(uri, body)
  {
    if Keyless(uri, body) {
      KeylessHasNoKey(keys, uri, body, org);
    } else if RoutingKeyWithBody(keys, uri, body, org) == None {
      NoKeyIsKeyless(keys, uri, body, org);
    }
  }

  /** A verified org id holds no control character. */
  predicate ValidOrg(org: Option<bytes>) {
    org.Some? && 1 !in org.value
  }

  lemma ScopedKeysAreDistinct(a: Option<bytes>, x: bytes, b: Option<bytes>, y: bytes)
    requires ValidOrg(a) && ValidOrg(b)
    ensures Scoped(a, x) == Scoped(b, y) <==> a == b && x == y
  {
    if Scoped(a, x) == Scoped(b, y) {
      assert [SCOPE] + a.value + [SCOPE] + x == [SCOPE] + (a.value + [SCOPE] + x);
      assert [SCOPE] + b.value + [SCOPE] + y == [SCOPE] + (b.value + [SCOPE] + y);
      ConcatCut([SCOPE], a.value + [SCOPE] + x, [SCOPE], b.value + [SCOPE] + y);
      SeparatorCut(a.value, x, b.value, y, SCOPE);
    }
  }

  /** Two verified requests are routed by one key exactly when one org names one key, on whatever surfaces and in
      whatever spellings; and then they go to one shard. */
  lemma SpellingsMeet(keys: Keys, u1: Uri, b1: Body, o1: Option<bytes>, k1: bytes, u2: Uri, b2: Body, o2: Option<bytes>,
                      k2: bytes,
                      shardFor: (bytes, nat) -> nat, shardCount: nat)
    requires Carries(u1, b1, k1) && Carries(u2, b2, k2) && keys.lossy(k1) == k1 && keys.lossy(k2) == k2
    requires ValidOrg(o1) && ValidOrg(o2)
    ensures RoutingKeyWithBody(keys, u1, b1, o1).Some? && RoutingKeyWithBody(keys, u2, b2, o2).Some?
    ensures RoutingKeyWithBody(keys, u1, b1, o1) == RoutingKeyWithBody(keys, u2, b2, o2) <==> o1 == o2 && k1 == k2
    ensures o1 == o2 && k1 == k2 ==>
        shardFor(RoutingKeyWithBody(keys, u1, b1, o1).value, shardCount)
        == shardFor(RoutingKeyWithBody(keys, u2, b2, o2).value, shardCount)
  {
    EverySpellingRoutesByItsKey(keys, u1, b1, o1, k1);
    EverySpellingRoutesByItsKey(keys, u2, b2, o2, k2);
    ScopedKeysAreDistinct(o1, k1, o2, k2);
  }

  // ---------- the calls of the idempotency protocol ----------

  /** The path `/v1/{family}/{op}`. */
  function OpPath(family: bytes, op: bytes): bytes {
    [SLASH] + (V1 + [SLASH] + (family + [SLASH] + op))
  }

  lemma {:induction false} NothingDropped(parts: seq<bytes>)
    requires forall i :: 0 <= i < |parts| ==> parts[i] != []
    ensures NonEmpty(parts) == parts
  {
    if parts != [] { NothingDropped(parts[1..]); }
  }

  lemma OpSplit(family: bytes, op: bytes)
    requires SLASH !in family && SLASH !in op
    ensures Split(OpPath(family, op), SLASH) == [[], V1, family, op]
  {
    assert V1[0] == 118 && V1[1] == 49;
    var tail := family + [SLASH] + op;
    assert [family, op][1..] == [op] && Join([family, op], SLASH) == tail;
    assert [V1, family, op][1..] == [family, op] && Join([V1, family, op], SLASH) == V1 + [SLASH] + tail;
    assert [[], V1, family, op][1..] == [V1, family, op];
    assert Join([[], V1, family, op], SLASH) == [] + [SLASH] + (V1 + [SLASH] + tail);
    SplitJoin([[], V1, family, op], SLASH);
  }

  lemma OpSegments(family: bytes, op: bytes)
    requires SLASH !in family && SLASH !in op && family != [] && op != []
    ensures Segments(OpPath(family, op)) == [V1, family, op]
  {
    OpSplit(family, op);
    NothingDropped([V1, family, op]);
    assert [[], V1, family, op][1..] == [V1, family, op];
  }

  lemma IdempotencyPlaces(keys: Keys, op: bytes)
    ensures UriPlace(keys, [V1, IDEMPOTENCY, op]) == Nowhere
    ensures BodyPlace([V1, IDEMPOTENCY, op]) == if op == CLAIM || op == COMPLETE then InBody(KEY) else Nowhere
  {
  }

  /** An idempotency call is routed by the key in its body if it claims or completes; any other, such as abandon,
      has no key and goes to any node. */
  lemma IdempotencyCallRoute(keys: Keys, op: bytes, body: Body, org: Option<bytes>)
    requires op != [] && SLASH !in op
    ensures RoutingKeyWithBody(keys, Uri(OpPath(IDEMPOTENCY, op), None), body, org)
         == if (op == CLAIM || op == COMPLETE) && KEY in body then Some(Scoped(org, body[KEY])) else None
    ensures op == ABANDON ==> RoutingKeyWithBody(keys, Uri(OpPath(IDEMPOTENCY, op), None), body, org) == None
  {
    assert SLASH !in IDEMPOTENCY && ABANDON[0] == 97;
    OpSegments(IDEMPOTENCY, op);
    IdempotencyPlaces(keys, op);
  }
}
