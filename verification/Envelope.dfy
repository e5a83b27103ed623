/** The signed transport envelope (verifier_service/models.py). */
module Envelope {
  import opened Crypto

  datatype SignedEnvelope = SignedEnvelope(
    prompt: string,
    userId: string,
    sessionId: string,
    timestamp: string,
    nonce: string,
    signature: string,
    pubkeyId: string,
    signatureAlgorithm: string
  )

  /** Exactly the five fields the browser signs. */
  function SigningPayload(e: SignedEnvelope): Json {
    JObj(map[
      "prompt" := JStr(e.prompt),
      "user_id" := JStr(e.userId),
      "session_id" := JStr(e.sessionId),
      "timestamp" := JStr(e.timestamp),
      "nonce" := JStr(e.nonce)
    ])
  }

  lemma SamePayload(a: SignedEnvelope, b: SignedEnvelope)
    ensures SigningPayload(a) == SigningPayload(b) <==>
              && a.prompt == b.prompt && a.userId == b.userId && a.sessionId == b.sessionId
              && a.timestamp == b.timestamp && a.nonce == b.nonce
  {
    if SigningPayload(a) == SigningPayload(b) {
      var m, n := SigningPayload(a).members, SigningPayload(b).members;
      assert m["prompt"] == n["prompt"] && m["user_id"] == n["user_id"] && m["session_id"] == n["session_id"];
      assert m["timestamp"] == n["timestamp"] && m["nonce"] == n["nonce"];
    }
  }
}
