// The byte strings that are hashed: the request fingerprint and the internal record key of the
// idempotency protocol (src/proxy.rs) and the revocation cache key (src/revocation.rs). Each is shown to
// lose nothing, so that a collision-free digest keeps distinct requests and distinct identities apart.
module Digests {
  import opened Wrappers
  import opened Bytes
  import opened Hex

  // ---------- length-prefixed claim fields ----------

  const U64: int := 0x1_0000_0000_0000_0000

  /** `u64::to_be_bytes` cut to its last `width` bytes. */
  function BigEndian(n: nat, width: nat): (b: bytes)
    ensures |b| == width
  {
    if width == 0 then [] else BigEndian(n / 256, width - 1) + [(n % 256) as byte]
  }

  function Pow256(width: nat): nat {
    if width == 0 then 1 else 256 * Pow256(width - 1)
  }

  /** The number that bytes denote, the most significant one first. */
  function Denoted(b: bytes): nat {
    if b == [] then 0 else Denoted(b[..|b| - 1]) * 256 + b[|b| - 1] as nat
  }

  lemma {:induction false} BigEndianDenotes(n: nat, width: nat)
    requires n < Pow256(width)
    ensures Denoted(BigEndian(n, width)) == n
  {
    if width > 0 {
      BigEndianDenotes(n / 256, width - 1);
      assert BigEndian(n, width)[..width - 1] == BigEndian(n / 256, width - 1);
    }
  }

  datatype Claims = Claims(iss: bytes, aud: bytes, orgId: bytes, sub: bytes, jti: bytes)

  function Fields(c: Claims): (f: seq<bytes>)
    ensures |f| == 5
  {
    [c.iss, c.aud, c.orgId, c.sub, c.jti]
  }

  function LengthBytes(field: bytes): (b: bytes)
    ensures |b| == 8
  {
    BigEndian(|field|, 8)
  }

  /** The bytes fed to the digest: every field behind its 8-byte length. */
  function LengthPrefixed(fields: seq<bytes>): bytes {
    if fields == [] then [] else LengthBytes(fields[0]) + fields[0] + LengthPrefixed(fields[1..])
  }

  /** The loop of `revocation_cache_key` feeds the digest exactly those bytes. */
  method DigestInput(c: Claims) returns (input: bytes)
    ensures input == LengthPrefixed(Fields(c))
  {
    var fields := [c.iss, c.aud, c.orgId, c.sub, c.jti];
    input := [];
    for i := 0 to |fields|
      invariant input + LengthPrefixed(fields[i..]) == LengthPrefixed(fields)
    {
      assert fields[i..][0] == fields[i] && fields[i..][1..] == fields[i + 1..];
      FeedField(input, fields[i], LengthPrefixed(fields[i + 1..]));
      input := input + LengthBytes(fields[i]);
      input := input + fields[i];
    }
  }

  lemma FeedField(input: bytes, field: bytes, rest: bytes)
    ensures input + (LengthBytes(field) + field + rest) == input + LengthBytes(field) + field + rest
  {
  }

  function CacheKey(digest: bytes -> bytes, c: Claims): bytes {
    Hexed(digest(LengthPrefixed(Fields(c))))
  }

  lemma {:induction false} LengthPrefixedInjective(f: seq<bytes>, g: seq<bytes>)
    requires (forall x :: x in f ==> |x| < U64) && (forall x :: x in g ==> |x| < U64)
    requires LengthPrefixed(f) == LengthPrefixed(g)
    ensures f == g
  {
    if f != [] {
      FirstField(f[0], LengthPrefixed(f[1..]), g[0], LengthPrefixed(g[1..]));
      LengthPrefixedInjective(f[1..], g[1..]);
      assert f == [f[0]] + f[1..] && g == [g[0]] + g[1..];
    }
  }

  lemma FirstField(a: bytes, x: bytes, b: bytes, y: bytes)
    requires |a| < U64 && |b| < U64
    requires LengthBytes(a) + a + x == LengthBytes(b) + b + y
    ensures a == b && x == y
  {
    var m, n := LengthBytes(a), LengthBytes(b);
    assert m + a + x == m + (a + x) && n + b + y == n + (b + y);
    ConcatCut(m, a + x, n, b + y);
    LengthDenoted(a);
    LengthDenoted(b);
    ConcatCut(a, x, b, y);
  }

  /** Eight bytes, the most significant one first, denote the length. */
  lemma LengthDenoted(field: bytes)
    requires |field| < 0x1_0000_0000_0000_0000
    ensures |LengthBytes(field)| == 8 && Denoted(LengthBytes(field)) == |field|
  {
    assert Pow256(8) == U64;
    BigEndianDenotes(|field|, 8);
  }

  /** Distinct token identities never share a revocation cache entry. */
  lemma CacheKeySeparatesIdentities(digest: bytes -> bytes, c: Claims, d: Claims)
    requires CollisionFree(digest)
    requires forall i :: 0 <= i < 5 ==> |Fields(c)[i]| < U64 && |Fields(d)[i]| < U64
    ensures CacheKey(digest, c) == CacheKey(digest, d) <==> c == d
  {
    if CacheKey(digest, c) == CacheKey(digest, d) {
      HexRoundTrip(digest(LengthPrefixed(Fields(c))));
      HexRoundTrip(digest(LengthPrefixed(Fields(d))));
      LengthPrefixedInjective(Fields(c), Fields(d));
      assert Fields(c)[0] == Fields(d)[0] && Fields(c)[1] == Fields(d)[1] && Fields(c)[2] == Fields(d)[2];
      assert Fields(c)[3] == Fields(d)[3] && Fields(c)[4] == Fields(d)[4];
    }
  }

  // ---------- the NUL-separated request fingerprint ----------

  /** A customer request: the caller's org (if any), its `Idempotency-Key` after trimming, and what is fingerprinted. */
  datatype Request = Request(
    org: Option<bytes>, customerKey: bytes,
    method_: bytes, target: bytes, contentType: Option<bytes>, body: bytes)

  /** An absent content type is hashed like an empty one. */
  function ContentTypeBytes(r: Request): bytes {
    if r.contentType.Some? then r.contentType.value else []
  }

  /** HTTP methods, request targets and header values hold no NUL. */
  ghost predicate NulFree(r: Request) {
    0 !in r.method_ && 0 !in r.target && 0 !in ContentTypeBytes(r)
  }

  ghost predicate SamePayload(r: Request, q: Request) {
    && r.method_ == q.method_ && r.target == q.target
    && ContentTypeBytes(r) == ContentTypeBytes(q) && r.body == q.body
  }

  function FingerprintInput(r: Request): bytes {
    r.method_ + [0] + (r.target + [0] + (ContentTypeBytes(r) + [0] + r.body))
  }

  /** `request_fingerprint` feeds the digest exactly those bytes. */
  method FingerprintBytes(r: Request) returns (input: bytes)
    ensures input == FingerprintInput(r)
  {
    input := r.method_;
    input := input + [0];
    input := input + r.target;
    input := input + [0];
    ghost var head := input;
    if r.contentType.Some? {
      input := input + r.contentType.value;
    }
    input := input + [0];
    input := input + r.body;
    assert input == head + (ContentTypeBytes(r) + [0] + r.body);
  }

  function Fingerprint(digest: bytes -> bytes, r: Request): bytes {
    Hexed(digest(FingerprintInput(r)))
  }

  /** Equal fingerprints are equal method, target, content type and body. */
  lemma FingerprintSeparatesRequests(digest: bytes -> bytes, r: Request, q: Request)
    requires CollisionFree(digest) && NulFree(r) && NulFree(q)
    ensures Fingerprint(digest, r) == Fingerprint(digest, q) <==> SamePayload(r, q)
  {
    if Fingerprint(digest, r) == Fingerprint(digest, q) {
      HexRoundTrip(digest(FingerprintInput(r)));
      HexRoundTrip(digest(FingerprintInput(q)));
      var rt, qt := ContentTypeBytes(r) + [0] + r.body, ContentTypeBytes(q) + [0] + q.body;
      SeparatorCut(r.method_, r.target + [0] + rt, q.method_, q.target + [0] + qt, 0);
      SeparatorCut(r.target, rt, q.target, qt, 0);
      SeparatorCut(ContentTypeBytes(r), r.body, ContentTypeBytes(q), q.body, 0);
    }
  }

  // ---------- the internal record key and the owner string ----------

  function OrgScope(org: Option<bytes>): bytes {
    if org.Some? then Ascii("org:") + org.value else Ascii("anonymous")
  }

  function Owner(digest: bytes -> bytes, r: Request): bytes {
    Ascii("customer/") + Hexed(digest(OrgScope(r.org)))
  }

  function InternalKey(digest: bytes -> bytes, r: Request): bytes {
    Ascii("customer/") + (Hexed(digest(OrgScope(r.org))) + [47] + Hexed(digest(r.customerKey)))
  }

  /** A record key names its owner first: the owner string, a slash, and the hex of the hashed customer key. */
  lemma RecordKeyIsOwners(digest: bytes -> bytes, r: Request)
    ensures InternalKey(digest, r) == Owner(digest, r) + Ascii("/") + Hexed(digest(r.customerKey))
    ensures Owner(digest, r) ==
            Ascii("customer/") + Hexed(digest(if r.org.None? then Ascii("anonymous") else Ascii("org:") + r.org.value))
  {
    assert Ascii("/") == [47];
    var org, key := Hexed(digest(OrgScope(r.org))), Hexed(digest(r.customerKey));
    assert Ascii("customer/") + (org + [47] + key) == Ascii("customer/") + org + [47] + key;
  }

  lemma OrgScopeInjective(a: Option<bytes>, b: Option<bytes>)
    requires OrgScope(a) == OrgScope(b)
    ensures a == b
  {
    assert Ascii("org:")[0] == 111 && Ascii("anonymous")[0] == 97;
    assert OrgScope(a)[0] == (if a.Some? then 111 else 97);
    assert OrgScope(b)[0] == (if b.Some? then 111 else 97);
    if a.Some? && b.Some? {
      ConcatCut(Ascii("org:"), a.value, Ascii("org:"), b.value);
    }
  }

  /** Two requests meet on one record exactly when one org uses one customer key. */
  lemma InternalKeySeparatesCustomers(digest: bytes -> bytes, r: Request, q: Request)
    requires CollisionFree(digest)
    ensures InternalKey(digest, r) == InternalKey(digest, q) <==> r.org == q.org && r.customerKey == q.customerKey
  {
    if InternalKey(digest, r) == InternalKey(digest, q) {
      var ro, qo := Hexed(digest(OrgScope(r.org))), Hexed(digest(OrgScope(q.org)));
      var rk, qk := Hexed(digest(r.customerKey)), Hexed(digest(q.customerKey));
      ConcatCut(Ascii("customer/"), ro + [47] + rk, Ascii("customer/"), qo + [47] + qk);
      HexedDigits(digest(OrgScope(r.org)));
      HexedDigits(digest(OrgScope(q.org)));
      SeparatorCut(ro, rk, qo, qk, 47);
      HexRoundTrip(digest(OrgScope(r.org)));
      HexRoundTrip(digest(OrgScope(q.org)));
      HexRoundTrip(digest(r.customerKey));
      HexRoundTrip(digest(q.customerKey));
      OrgScopeInjective(r.org, q.org);
    }
  }
}
