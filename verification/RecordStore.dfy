// The remote record store behind `/v1/idempotency/{claim,complete,abandon}`: the contract of the test double
// in src/proxy.rs, with increasing fencing tokens and with leases that lapse.
module RecordStore {
  import opened Wrappers
  import opened Bytes
  import opened StoredResponse

  const INFLIGHT_LEASE_MS: nat := 120 * 1000
  const RETENTION_MS: nat := 24 * 60 * 60 * 1000

  /** What a worker tells the store about its request. */
  datatype Identity = Identity(internalKey: bytes, owner: bytes, fingerprint: bytes)

  datatype Record = Record(
    owner: bytes, token: nat, fingerprint: bytes, completed: bool, result: Option<Stored>, lease: nat)

  datatype Records = Records(byKey: map<bytes, Record>, nextToken: nat)

  function View(r: Record): RecordView {
    RecordView(Some(r.fingerprint), r.completed, if r.result.Some? then Decoded(r.result.value) else Missing)
  }

  /** A live record, claimed or completed, makes the claim a duplicate; otherwise it takes a fresh token. */
  function Claimed(rs: Records, now: nat, id: Identity): (Records, ClaimOutput) {
    if id.internalKey in rs.byKey && now < rs.byKey[id.internalKey].lease then
      (rs, ClaimOutput(false, true, None, Some(View(rs.byKey[id.internalKey]))))
    else
      var record := Record(id.owner, rs.nextToken, id.fingerprint, false, None, now + INFLIGHT_LEASE_MS);
      (Records(rs.byKey[id.internalKey := record], rs.nextToken + 1),
       ClaimOutput(true, false, Some(rs.nextToken), Some(View(record))))
  }

  /** The record is there, under this owner and this token. */
  predicate HeldBy(rs: Records, id: Identity, token: nat) {
    && id.internalKey in rs.byKey
    && rs.byKey[id.internalKey].owner == id.owner && rs.byKey[id.internalKey].token == token
  }

  /** Owner and token are checked; the lease is extended to the retention window. */
  function Completed(rs: Records, now: nat, id: Identity, token: nat, result: Stored): (Records, bool) {
    if !HeldBy(rs, id, token) then (rs, false)
    else
      var record := rs.byKey[id.internalKey];
      (rs.(byKey := rs.byKey[id.internalKey :=
         record.(completed := true, result := Some(result), lease := now + RETENTION_MS)]), true)
  }

  /** The token is checked, and a completed record is never released. */
  function Abandoned(rs: Records, id: Identity, token: nat): (Records, bool) {
    if id.internalKey !in rs.byKey then (rs, false)
    else
      var record := rs.byKey[id.internalKey];
      if record.token != token || record.completed then (rs, false)
      else (rs.(byKey := rs.byKey - {id.internalKey}), true)
  }
}
