/** Intake of signed envelopes (verifier_service/verifier.py), and safety from replays over whole runs. */
module SignatureVerification {
  import opened Prelude
  import opened Crypto
  import opened Envelope
  import opened Nonces

  datatype Reason = TimestampStale | NonceReused | UnknownPubkey | SignatureMismatch

  type VerificationResult = Result<(), Reason>

  datatype Config = Config(
    cs: Suite,
    freshness: real,                           // seconds either side of the wall clock
    ttl: real,                                 // seconds a nonce is remembered
    parseTimestamp: string -> Option<real>,    // ISO 8601 with a zone, or nothing
    usableKey: Bytes -> bool                   // registered bytes that decode to a supported key
  )

  function Abs(x: real): real { if x < 0.0 then -x else x }

  predicate TimestampIsFresh(cfg: Config, timestamp: string, wall: real) {
    match cfg.parseTimestamp(timestamp)
    case None => false
    case Some(parsed) => Abs(wall - parsed) <= cfg.freshness
  }

  /** One call: the envelope, the clock readings made on the way, and what the key store answers. */
  datatype Call = Call(envelope: SignedEnvelope, wall: real, seenAt: real, sweepAt: real, markAt: real,
                       key: Option<Bytes>)

  /** Key and signature checks, reached once the nonce has been consumed. */
  function CheckSignature(cfg: Config, e: SignedEnvelope, key: Option<Bytes>): VerificationResult {
    if key.None? || !cfg.usableKey(key.value) then Failure(UnknownPubkey)
    else if e.signatureAlgorithm != "ECDSA-P256-SHA256" then Failure(SignatureMismatch)
    else match cfg.cs.unbase64(e.signature)
      case None => Failure(SignatureMismatch)
      case Some(signature) =>
        if cfg.cs.verify(key.value, signature, HashPayload(cfg.cs, SigningPayload(e))) then Success(())
        else Failure(SignatureMismatch)
  }

  function Verify(cfg: Config, seen: NonceTable, c: Call): (NonceTable, VerificationResult) {
    if !TimestampIsFresh(cfg, c.envelope.timestamp, c.wall) then (seen, Failure(TimestampStale))
    else
      var swept := Sweep(seen, c.seenAt, cfg.ttl);
      if c.envelope.nonce in swept then (swept, Failure(NonceReused))
      else
        (Sweep(swept, c.sweepAt, cfg.ttl)[c.envelope.nonce := c.markAt], CheckSignature(cfg, c.envelope, c.key))
  }

  // ---- What a verdict means ----

  /** The timestamp parses, and is no further from the wall clock than the freshness window. */
  predicate Timely(cfg: Config, c: Call) {
    var parsed := cfg.parseTimestamp(c.envelope.timestamp);
    parsed.Some? && parsed.value - cfg.freshness <= c.wall <= parsed.value + cfg.freshness
  }

  /** The nonce carries no mark that is still remembered. */
  predicate Unused(cfg: Config, seen: NonceTable, c: Call) {
    c.envelope.nonce in seen ==> c.seenAt - seen[c.envelope.nonce] > cfg.ttl
  }

  predicate HasKey(cfg: Config, key: Option<Bytes>) {
    key.Some? && cfg.usableKey(key.value)
  }

  /** The named algorithm is the one there is, and the signature decodes and verifies for the five signed fields. */
  predicate Signed(cfg: Config, e: SignedEnvelope, key: Bytes) {
    && e.signatureAlgorithm == "ECDSA-P256-SHA256"
    && var signature := cfg.cs.unbase64(e.signature);
       signature.Some?
       && cfg.cs.verify(key, signature.value, cfg.cs.sha3(cfg.cs.jcs(JObj(map[
            "prompt" := JStr(e.prompt), "user_id" := JStr(e.userId), "session_id" := JStr(e.sessionId),
            "timestamp" := JStr(e.timestamp), "nonce" := JStr(e.nonce)]))))
  }

  /** What is left of a nonce's mark after sweeps at the given readings. */
  predicate Survives(cfg: Config, seen: NonceTable, nonce: string, readings: seq<real>) {
    nonce in seen && forall i :: 0 <= i < |readings| ==> readings[i] - seen[nonce] <= cfg.ttl
  }

  /** The table keeps exactly the marks that survive sweeps at these readings. */
  ghost predicate KeepsSurvivors(cfg: Config, seen: NonceTable, after: NonceTable, readings: seq<real>) {
    forall n :: (n in after <==> Survives(cfg, seen, n, readings)) && (n in after ==> after[n] == seen[n])
  }

  /** What the table holds after a call: nothing changes for a stale envelope; for a reused nonce expired marks are
      swept; otherwise the nonce is marked too, whether or not key and signature are good. */
  ghost predicate TableAfter(cfg: Config, seen: NonceTable, c: Call, after: NonceTable) {
    if !Timely(cfg, c) then after == seen
    else if !Unused(cfg, seen, c) then KeepsSurvivors(cfg, seen, after, [c.seenAt])
    else exists swept :: KeepsSurvivors(cfg, seen, swept, [c.seenAt, c.sweepAt])
                         && after == swept[c.envelope.nonce := c.markAt]
  }

  /** For every table and call: an envelope is accepted exactly when it is timely, its nonce unused, its key there and
      usable, and its signature good; and it is refused with the reason of the first of these that fails. */
  lemma {:induction false} VerifiesExactly(cfg: Config, seen: NonceTable, c: Call)
    ensures var r := Verify(cfg, seen, c).1;
            var timely, unused, hasKey := Timely(cfg, c), Unused(cfg, seen, c), HasKey(cfg, c.key);
            && (r == Success(()) <==> timely && unused && hasKey && Signed(cfg, c.envelope, c.key.value))
            && (r == Failure(TimestampStale) <==> !timely)
            && (r == Failure(NonceReused) <==> timely && !unused)
            && (r == Failure(UnknownPubkey) <==> timely && unused && !hasKey)
            && (r == Failure(SignatureMismatch) <==>
                  timely && unused && hasKey && !Signed(cfg, c.envelope, c.key.value))
    ensures TableAfter(cfg, seen, c, Verify(cfg, seen, c).0)
  {
    var swept := Sweep(seen, c.seenAt, cfg.ttl);
    SweepKeepsSurvivors(cfg, seen, c.seenAt, c.sweepAt);
    assert Timely(cfg, c) && Unused(cfg, seen, c) ==>
        Verify(cfg, seen, c).0 == Sweep(swept, c.sweepAt, cfg.ttl)[c.envelope.nonce := c.markAt];
  }

  lemma SweepKeepsSurvivors(cfg: Config, seen: NonceTable, first: real, second: real)
    ensures KeepsSurvivors(cfg, seen, Sweep(seen, first, cfg.ttl), [first])
    ensures KeepsSurvivors(cfg, seen, Sweep(Sweep(seen, first, cfg.ttl), second, cfg.ttl), [first, second])
  {
    var once := Sweep(seen, first, cfg.ttl);
    var twice := Sweep(once, second, cfg.ttl);
    forall n
      ensures n in once <==> Survives(cfg, seen, n, [first])
      ensures n in twice <==> Survives(cfg, seen, n, [first, second])
    {
      assert [first][0] == first && [first, second][0] == first && [first, second][1] == second;
    }
  }

  class SignatureVerifier {
    const cfg: Config
    const nonceStore: NonceStore

    constructor (cfg: Config, nonceStore: NonceStore)
      requires nonceStore.ttl == cfg.ttl
      ensures this.cfg == cfg && this.nonceStore == nonceStore
    {
      this.cfg := cfg;
      this.nonceStore := nonceStore;
    }

    /** `lookup` is the key store as it stands during the call. */
    method VerifyEnvelope(e: SignedEnvelope, lookup: string -> Option<Bytes>, wall: real, seenAt: real, sweepAt: real,
                          markAt: real)
      returns (r: VerificationResult)
      requires nonceStore.ttl == cfg.ttl
      modifies nonceStore
      ensures (nonceStore.seen, r) == Verify(cfg, old(nonceStore.seen),
                                             Call(e, wall, seenAt, sweepAt, markAt, lookup(e.pubkeyId)))
      ensures var call := Call(e, wall, seenAt, sweepAt, markAt, lookup(e.pubkeyId));
              r.Success? <==>
                && Timely(cfg, call) && Unused(cfg, old(nonceStore.seen), call)
                && HasKey(cfg, call.key) && Signed(cfg, e, call.key.value)
    {
      VerifiesExactly(cfg, nonceStore.seen, Call(e, wall, seenAt, sweepAt, markAt, lookup(e.pubkeyId)));
      if !TimestampIsFresh(cfg, e.timestamp, wall) { return Failure(TimestampStale); }
      var reused := nonceStore.HasSeen(e.nonce, seenAt);
      if reused { return Failure(NonceReused); }
      nonceStore.MarkSeen(e.nonce, sweepAt, markAt);
      var storedKey := lookup(e.pubkeyId);
      if storedKey.None? { return Failure(UnknownPubkey); }
      if !cfg.usableKey(storedKey.value) { return Failure(UnknownPubkey); }
      if e.signatureAlgorithm != "ECDSA-P256-SHA256" { return Failure(SignatureMismatch); }
      var signature := cfg.cs.unbase64(e.signature);
      if signature.None? { return Failure(SignatureMismatch); }
      var payloadHash := HashPayload(cfg.cs, SigningPayload(e));
      if !cfg.cs.verify(storedKey.value, signature.value, payloadHash) { return Failure(SignatureMismatch); }
      return Success(());
    }
  }

  // ---- Runs ----

  /** The nonce table before call `i` of a run from an empty store. */
  function SeenBefore(cfg: Config, calls: seq<Call>, i: nat): NonceTable
    requires i <= |calls|
  {
    if i == 0 then map[] else Verify(cfg, SeenBefore(cfg, calls, i - 1), calls[i - 1]).0
  }

  function Verdict(cfg: Config, calls: seq<Call>, i: nat): VerificationResult
    requires i < |calls|
  {
    Verify(cfg, SeenBefore(cfg, calls, i), calls[i]).1
  }

  /** Call `i` got as far as consuming its nonce. */
  predicate ConsumesNonce(cfg: Config, calls: seq<Call>, i: nat)
    requires i < |calls|
  {
    Verdict(cfg, calls, i) != Failure(TimestampStale) && Verdict(cfg, calls, i) != Failure(NonceReused)
  }

  /** The monotonic clock's readings are in order. The wall clock may step back, as far as the drift bound lets it. */
  predicate MonotonicInOrder(calls: seq<Call>) {
    && (forall i :: 0 <= i < |calls| ==> calls[i].seenAt <= calls[i].sweepAt <= calls[i].markAt)
    && (forall i, j :: 0 <= i < j < |calls| ==> calls[i].markAt <= calls[j].seenAt)
  }

  /** Between any two calls, elapsed wall time and elapsed monotonic time differ by at most `drift`. */
  predicate DriftBounded(calls: seq<Call>, drift: real) {
    forall i, j :: 0 <= i < j < |calls| ==>
      Abs((calls[j].wall - calls[i].wall) - (calls[j].seenAt - calls[i].markAt)) <= drift
  }

  /** A consumed nonce is remembered at every later call whose lookup falls within the retention window. */
  lemma {:induction false} NonceRemembered(cfg: Config, calls: seq<Call>, i: nat, j: nat, now: real)
    requires MonotonicInOrder(calls) && i < j <= |calls| && ConsumesNonce(cfg, calls, i)
    requires forall k :: i < k < j ==> calls[k].markAt <= now
    requires now - calls[i].markAt <= cfg.ttl && calls[i].markAt <= now
    ensures calls[i].envelope.nonce in SeenBefore(cfg, calls, j)
    ensures calls[i].markAt <= SeenBefore(cfg, calls, j)[calls[i].envelope.nonce]
    decreases j
  {
    if j > i + 1 {
      NonceRemembered(cfg, calls, i, j - 1, now);
      assert calls[j - 1].markAt <= now;
    }
  }

  /** At most one call per nonce and timestamp gets past the replay check, accepted or not. */
  lemma NonceConsumedOnce(cfg: Config, calls: seq<Call>, drift: real, i: nat, j: nat)
    requires MonotonicInOrder(calls) && DriftBounded(calls, drift) && 2.0 * cfg.freshness + drift <= cfg.ttl
    requires i < j < |calls| && ConsumesNonce(cfg, calls, i)
    requires calls[i].envelope.nonce == calls[j].envelope.nonce
    requires calls[i].envelope.timestamp == calls[j].envelope.timestamp
    ensures !ConsumesNonce(cfg, calls, j)
  {
    if ConsumesNonce(cfg, calls, j) {
      var stamp := cfg.parseTimestamp(calls[i].envelope.timestamp).value;
      assert Abs(calls[i].wall - stamp) <= cfg.freshness && Abs(calls[j].wall - stamp) <= cfg.freshness;
      var now := calls[j].seenAt;
      assert now - calls[i].markAt <= calls[j].wall - calls[i].wall + drift;
      NonceRemembered(cfg, calls, i, j, now);
      assert false;
    }
  }

  /** No signed payload is accepted twice, whatever signature, key id or algorithm name comes with it. */
  lemma NoReplay(cfg: Config, calls: seq<Call>, drift: real, i: nat, j: nat)
    requires MonotonicInOrder(calls) && DriftBounded(calls, drift) && 2.0 * cfg.freshness + drift <= cfg.ttl
    requires i < j < |calls|
    requires SigningPayload(calls[i].envelope) == SigningPayload(calls[j].envelope)
    ensures Verdict(cfg, calls, i).Failure? || Verdict(cfg, calls, j).Failure?
  {
    SamePayload(calls[i].envelope, calls[j].envelope);
    if Verdict(cfg, calls, i).Success? {
      NonceConsumedOnce(cfg, calls, drift, i, j);
    }
  }

  ghost predicate ReplayFree(cfg: Config, drift: real) {
    forall calls: seq<Call>, i: nat, j: nat ::
      && MonotonicInOrder(calls) && DriftBounded(calls, drift) && i < j < |calls|
      && SigningPayload(calls[i].envelope) == SigningPayload(calls[j].envelope)
      ==> Verdict(cfg, calls, i).Failure? || Verdict(cfg, calls, j).Failure?
  }

  /** The same envelope, accepted at both ends of its freshness window while the monotonic clock runs fast. */
  function ReplayedCalls(cfg: Config, e: SignedEnvelope, key: Bytes, stamp: real, drift: real): seq<Call> {
    var later := 2.0 * cfg.freshness + drift;
    [Call(e, stamp - cfg.freshness, 0.0, 0.0, 0.0, Some(key)),
     Call(e, stamp + cfg.freshness, later, later, later, Some(key))]
  }

  lemma ReplayIsAccepted(cfg: Config, e: SignedEnvelope, key: Bytes, stamp: real, drift: real)
    requires cfg.freshness >= 0.0 && drift >= 0.0 && cfg.ttl > 0.0
    requires cfg.parseTimestamp(e.timestamp) == Some(stamp) && cfg.usableKey(key) && Signed(cfg, e, key)
    requires 2.0 * cfg.freshness + drift > cfg.ttl
    ensures var calls := ReplayedCalls(cfg, e, key, stamp, drift);
            && MonotonicInOrder(calls) && DriftBounded(calls, drift)
            && Verdict(cfg, calls, 0) == Success(()) && Verdict(cfg, calls, 1) == Success(())
  {
    var calls := ReplayedCalls(cfg, e, key, stamp, drift);
    assert SeenBefore(cfg, calls, 0) == map[];
    assert Verify(cfg, map[], calls[0]) == (map[e.nonce := 0.0], Success(()));
    assert SeenBefore(cfg, calls, 1) == map[e.nonce := 0.0];
  }

  /** Exactly when the two windows protect: for any envelope that can be accepted at all. */
  lemma ReplayFreeExactly(cfg: Config, e: SignedEnvelope, key: Bytes, stamp: real, drift: real)
    requires cfg.freshness >= 0.0 && drift >= 0.0 && cfg.ttl > 0.0
    requires cfg.parseTimestamp(e.timestamp) == Some(stamp) && cfg.usableKey(key) && Signed(cfg, e, key)
    ensures ReplayFree(cfg, drift) <==> 2.0 * cfg.freshness + drift <= cfg.ttl
  {
    if 2.0 * cfg.freshness + drift <= cfg.ttl {
      forall calls: seq<Call>, i: nat, j: nat |
        && MonotonicInOrder(calls) && DriftBounded(calls, drift) && i < j < |calls|
        && SigningPayload(calls[i].envelope) == SigningPayload(calls[j].envelope)
        ensures Verdict(cfg, calls, i).Failure? || Verdict(cfg, calls, j).Failure?
      {
        NoReplay(cfg, calls, drift, i, j);
      }
    } else {
      var calls := ReplayedCalls(cfg, e, key, stamp, drift);
      ReplayIsAccepted(cfg, e, key, stamp, drift);
      var i: nat, j: nat := 0, 1;
      assert i < j < |calls| && SigningPayload(calls[i].envelope) == SigningPayload(calls[j].envelope);
      assert Verdict(cfg, calls, i).Success? && Verdict(cfg, calls, j).Success?;
    }
  }
}
