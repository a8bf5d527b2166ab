// What a completed idempotency record stores and what a duplicate claim answers (src/proxy.rs).
module StoredResponse {
  import opened Wrappers
  import opened Bytes
  import opened Hex

  const MAX_REPLAY_BODY_BYTES: nat := 32 * 1024

  type Status = s: nat | 100 <= s <= 999 witness 200

  /** A buffered upstream response: status, the raw `content-type` header if any, body. */
  datatype Captured = Captured(status: Status, contentType: Option<bytes>, body: bytes)

  /** The stored JSON result of a completed record. */
  datatype Stored = Stored(fingerprint: bytes, status: nat, contentType: Option<bytes>, bodyHex: bytes, truncated: bool)

  datatype Disposition = IsStored | NotStored | StoreFailed

  /** What the client is answered. */
  datatype Reply =
    | FromUpstream(captured: Captured, disposition: Disposition)
    | CaptureTooLarge                // 502, the upstream body could not be buffered
    | Replayed(response: Captured)   // `Idempotent-Replayed: true`
    | ReplayUnavailable              // 409, the stored body was cut or is corrupt
    | Conflict                       // 409, same key, different request
    | InProgress                     // 409, same key, same request, still running
    | Unavailable                    // 503, the claim itself failed

  /** Final responses only: any 5xx, 408 and 429 are transient. */
  predicate Cacheable(status: Status) {
    !(500 <= status < 600) && status != 408 && status != 429
  }

  /** `HeaderValue::to_str` succeeds on exactly visible ASCII, spaces and tabs. */
  predicate HeaderText(v: bytes) {
    forall i :: 0 <= i < |v| ==> 32 <= v[i] < 127 || v[i] == 9
  }

  function TextOnly(v: Option<bytes>): Option<bytes> {
    if v.Some? && HeaderText(v.value) then v else None
  }

  /** `HeaderValue::from_str` refuses exactly the control characters other than tab. */
  predicate HeaderBytes(v: bytes) {
    forall i :: 0 <= i < |v| ==> (v[i] >= 32 && v[i] != 127) || v[i] == 9
  }

  function FromCaptured(fingerprint: bytes, c: Captured): Stored {
    var body := if |c.body| <= MAX_REPLAY_BODY_BYTES then c.body else c.body[..MAX_REPLAY_BODY_BYTES];
    Stored(fingerprint, c.status, TextOnly(c.contentType), Hexed(body), |c.body| > MAX_REPLAY_BODY_BYTES)
  }

  function IntoReplay(s: Stored): Reply {
    if s.truncated then ReplayUnavailable
    else
      var status: Status := if 100 <= s.status <= 999 then s.status else 200;
      match Unhexed(s.bodyHex)
      case None => ReplayUnavailable
      case Some(body) =>
        var contentType := if s.contentType.Some? && HeaderBytes(s.contentType.value) then s.contentType else None;
        Replayed(Captured(status, contentType, body))
  }

  /** The response a client may be replayed: the original one, its content type only if it is header text. */
  function ReplayOf(c: Captured): Reply {
    if |c.body| <= MAX_REPLAY_BODY_BYTES then Replayed(Captured(c.status, TextOnly(c.contentType), c.body))
    else ReplayUnavailable
  }

  /** Storing and replaying gives back the exact status, content type and body, or nothing at all. */
  lemma ReplayIsExact(fingerprint: bytes, c: Captured)
    ensures IntoReplay(FromCaptured(fingerprint, c)) == ReplayOf(c)
    ensures |c.body| <= 32768 <==> ReplayOf(c).Replayed?
    ensures ReplayOf(c).Replayed? ==> ReplayOf(c).response.status == c.status && ReplayOf(c).response.body == c.body
  {
    HexRoundTrip(c.body);
  }

  /** A control character that no header value holds. */
  ghost predicate Forbidden(x: byte) {
    (x < 32 && x != 9) || x == 127
  }

  /** Whatever the record holds, it is replayed as `r` exactly if it was not cut, its hex spells out the whole body of
      `r`, the status is the stored one, or 200 if that is none, and the content type is the stored one, unless that
      cannot be a header value. */
  lemma ReplayExactly(s: Stored, r: Captured)
    ensures IntoReplay(s) == Replayed(r) <==>
            && !s.truncated && LowerAll(s.bodyHex) == Hexed(r.body)
            && r.status == (if 100 <= s.status <= 999 then s.status else 200)
            && r.contentType == if s.contentType.Some? && exists x :: x in s.contentType.value && Forbidden(x)
                                then None else s.contentType
    ensures IntoReplay(s) == ReplayUnavailable || IntoReplay(s).Replayed?
  {
    UnhexedExactly(s.bodyHex, r.body);
    if s.contentType.Some? { HeaderBytesExactly(s.contentType.value); }
  }

  lemma HeaderBytesExactly(v: bytes)
    ensures HeaderBytes(v) <==> !exists x :: x in v && Forbidden(x)
  {
    forall i | 0 <= i < |v| ensures Forbidden(v[i]) <==> !((v[i] >= 32 && v[i] != 127) || v[i] == 9) {
      assert v[i] in v;
    }
  }

  // ---------- the claim reply ----------

  datatype ResultField = Missing | Undecodable | Decoded(stored: Stored)

  /** The parts of the record JSON that are read: the fingerprint, whether the status is `completed`, the result. */
  datatype RecordView = RecordView(fingerprint: Option<bytes>, completed: bool, result: ResultField)

  datatype ClaimOutput = ClaimOutput(
    claimed: bool, duplicate: bool, fencingToken: Option<nat>, record: Option<RecordView>)

  /** `response_for_duplicate_claim`: `None` lets the request proceed. */
  function DuplicateReply(fingerprint: bytes, output: ClaimOutput): Option<Reply> {
    if output.claimed then None
    else if !output.duplicate then Some(Unavailable)
    else match output.record
      case None => Some(Unavailable)
      case Some(record) =>
        if record.fingerprint != Some(fingerprint) then Some(Conflict)
        else if !record.completed then Some(InProgress)
        else match record.result
          case Decoded(stored) =>
            if stored.fingerprint == fingerprint then Some(IntoReplay(stored)) else Some(Unavailable)
          case _ => Some(Unavailable)
  }

  /** Which answer a claim reply gets, exactly: `None` forwards. */
  lemma DuplicateReplyExactly(fingerprint: bytes, output: ClaimOutput)
    ensures var reply, record := DuplicateReply(fingerprint, output), output.record;
      var refused := !output.claimed && output.duplicate && record.Some?;
      var same := record.Some? && record.value.fingerprint == Some(fingerprint);
      var stored := record.Some? && record.value.result.Decoded?
                    && record.value.result.stored.fingerprint == fingerprint;
      && (reply == None <==> output.claimed)
      && (reply == Some(Conflict) <==> refused && !same)
      && (reply == Some(InProgress) <==> refused && same && !record.value.completed)
      && (refused && same && record.value.completed && stored ==> reply == Some(IntoReplay(record.value.result.stored)))
      && (reply == Some(Unavailable) <==>
            !output.claimed && (!refused || (same && record.value.completed && !stored)))
  {
  }

  /** The stored content type is the original one if it is all visible ASCII, spaces and tabs, and is left out if it
      holds any other byte. */
  lemma ContentTypeKept(fingerprint: bytes, c: Captured)
    requires c.contentType.Some?
    ensures FromCaptured(fingerprint, c).contentType ==
            if exists x :: x in c.contentType.value && x != 9 && !(32 <= x <= 126) then None else c.contentType
  {
    var v := c.contentType.value;
    if HeaderText(v) {
      forall x | x in v ensures x == 9 || 32 <= x <= 126 {
        var i :| 0 <= i < |v| && v[i] == x;
      }
    } else {
      var i :| 0 <= i < |v| && !(32 <= v[i] < 127 || v[i] == 9);
      assert v[i] in v;
    }
  }

  /** For any decoded claim reply at all: a replay needs a completed record whose metadata and whose stored
      result both carry this request's fingerprint, and it replays that result. */
  lemma ReplayNeedsMatchingRecord(fingerprint: bytes, output: ClaimOutput, r: Captured)
    requires DuplicateReply(fingerprint, output) == Some(Replayed(r))
    ensures !output.claimed && output.record.Some?
    ensures var record := output.record.value;
      && record.completed && record.fingerprint == Some(fingerprint)
      && record.result.Decoded? && record.result.stored.fingerprint == fingerprint
      && LowerAll(record.result.stored.bodyHex) == Hexed(r.body)
  {
    ReplayExactly(output.record.value.result.stored, r);
  }
}
