/** What holds of a key over whole runs of the registry. */
module KeyLifetime {
  import opened Prelude
  import opened Crypto
  import opened KeyRegistryCore

  datatype Op =
    | RegisterOp(g: Registration)
    | ShimOp(id: string, key: Bytes, now: Instant, validFrom: Instant, createdAt: Instant)
    | RevokeOp(id: string)
    | LookupOp(id: string, now: Instant)

  function Step(reader: KeyReader, keys: KeyTable, op: Op): KeyTable {
    match op
    case RegisterOp(g) =>
      var r := Register(reader, keys, g);
      if r.Success? then keys[g.pubkeyId := r.value] else keys
    case ShimOp(id, key, now, validFrom, createdAt) =>
      var r := RegisterShim(reader, keys, id, key, now, validFrom, createdAt);
      if r.Success? && r.value.Some? then keys[id := r.value.value] else keys
    case RevokeOp(id) => Revoke(keys, id)
    case LookupOp(_, _) => keys
  }

  /** The table before operation `i` of a run that starts from an empty table. */
  function Before(reader: KeyReader, ops: seq<Op>, i: nat): KeyTable
    requires i <= |ops|
  {
    if i == 0 then map[] else Step(reader, Before(reader, ops, i - 1), ops[i - 1])
  }

  /** Operation `i` puts `id` in the table. */
  predicate Registers(reader: KeyReader, ops: seq<Op>, i: nat, id: string)
    requires i < |ops|
  {
    id !in Before(reader, ops, i) && id in Before(reader, ops, i + 1)
  }

  /** The operation is a registration of `id` that is accepted unless the id is taken. */
  predicate Offers(reader: KeyReader, op: Op, id: string) {
    match op
    case RegisterOp(g) => g.pubkeyId == id && Registrable(reader, g)
    case ShimOp(id', key, _, _, _) => id' == id && id != "" && key != [] && reader(key).Some?
    case _ => false
  }

  /** Operation `r` is the first acceptable registration of `id`, with this key. */
  predicate FirstOffer(reader: KeyReader, ops: seq<Op>, r: nat, id: string, key: Bytes)
    requires r < |ops|
  {
    && Offers(reader, ops[r], id) && (if ops[r].ShimOp? then ops[r].key else ops[r].g.publicKeyBytes) == key
    && forall q :: 0 <= q < r ==> !Offers(reader, ops[q], id)
  }

  /** Operation `i` asks for `id` and gets `key`. */
  predicate Finds(reader: KeyReader, ops: seq<Op>, i: nat, id: string, key: Bytes)
    requires i < |ops|
  {
    && ops[i].LookupOp? && ops[i].id == id
    && var found := Lookup(Before(reader, ops, i), id, ops[i].now);
       found.Some? && found.value.publicKeyBytes == key
  }

  predicate OrderedLookups(ops: seq<Op>) {
    forall i, j :: 0 <= i < j < |ops| && ops[i].LookupOp? && ops[j].LookupOp? ==> ops[i].now <= ops[j].now
  }

  /** A record never leaves the table, and only its revocation flag ever changes, and only one way. */
  lemma {:induction false} Persists(reader: KeyReader, ops: seq<Op>, i: nat, j: nat, id: string)
    requires i <= j <= |ops| && id in Before(reader, ops, i)
    ensures id in Before(reader, ops, j)
    ensures var early, late := Before(reader, ops, i)[id], Before(reader, ops, j)[id];
            late.(revoked := early.revoked) == early && (early.revoked ==> late.revoked)
    decreases j
  {
    if i < j {
      Persists(reader, ops, i, j - 1, id);
      StepPersists(reader, Before(reader, ops, j - 1), ops[j - 1], id);
    }
  }

  lemma {:induction false} StepPersists(reader: KeyReader, keys: KeyTable, op: Op, id: string)
    requires id in keys
    ensures id in Step(reader, keys, op)
    ensures Step(reader, keys, op)[id].(revoked := keys[id].revoked) == keys[id]
    ensures keys[id].revoked ==> Step(reader, keys, op)[id].revoked
    ensures !keys[id].revoked && op != RevokeOp(id) ==> !Step(reader, keys, op)[id].revoked
  {
  }

  lemma {:induction false} RegisteredEarlier(reader: KeyReader, ops: seq<Op>, i: nat, id: string) returns (r: nat)
    requires i <= |ops| && id in Before(reader, ops, i)
    ensures r < i && Registers(reader, ops, r, id)
  {
    if id in Before(reader, ops, i - 1) {
      r := RegisteredEarlier(reader, ops, i - 1, id);
    } else {
      r := i - 1;
    }
  }

  /** Registration stores what the operation carries, not yet revoked. */
  lemma RegistrationStoresItsKey(reader: KeyReader, ops: seq<Op>, r: nat, id: string)
    requires r < |ops| && Registers(reader, ops, r, id)
    ensures Offers(reader, ops[r], id)
    ensures var record := Before(reader, ops, r + 1)[id];
            && !record.revoked
            && match ops[r]
               case RegisterOp(g) =>
                 record.publicKeyBytes == g.publicKeyBytes && record.validFrom == g.validFrom
                 && record.validUntil == g.validUntil
               case ShimOp(_, key, _, validFrom, _) =>
                 record.publicKeyBytes == key && record.validFrom == validFrom && record.validUntil == None
               case _ => false
  {
    var keys := Before(reader, ops, r);
    match ops[r]
    case RegisterOp(g) => RegistersExactly(reader, keys, g);
    case ShimOp(id', key, now, validFrom, createdAt) =>
      ShimRegistersExactly(reader, keys, id', key, now, validFrom, createdAt);
    case _ =>
  }

  /** An id is in the table exactly when an acceptable registration of it has gone before. */
  lemma {:induction false} InTableExactly(reader: KeyReader, ops: seq<Op>, i: nat, id: string)
    requires i <= |ops|
    ensures id in Before(reader, ops, i) <==> exists q :: 0 <= q < i && Offers(reader, ops[q], id)
  {
    if i > 0 {
      InTableExactly(reader, ops, i - 1, id);
      OfferIsTaken(reader, Before(reader, ops, i - 1), ops[i - 1], id);
    }
  }

  lemma OfferIsTaken(reader: KeyReader, keys: KeyTable, op: Op, id: string)
    ensures id in Step(reader, keys, op) <==> id in keys || Offers(reader, op, id)
  {
    match op
    case RegisterOp(g) => RegistersExactly(reader, keys, g);
    case ShimOp(id', key, now, validFrom, createdAt) =>
      ShimRegistersExactly(reader, keys, id', key, now, validFrom, createdAt);
    case _ =>
  }

  /** What puts an id in the table is its first acceptable registration. */
  lemma RegistersIsFirstOffer(reader: KeyReader, ops: seq<Op>, r: nat, id: string)
    requires r < |ops|
    ensures Registers(reader, ops, r, id) <==>
              Offers(reader, ops[r], id) && forall q :: 0 <= q < r ==> !Offers(reader, ops[q], id)
  {
    InTableExactly(reader, ops, r, id);
    OfferIsTaken(reader, Before(reader, ops, r), ops[r], id);
  }

  /** An id is registered at most once, however often callers try. */
  lemma RegisteredOnce(reader: KeyReader, ops: seq<Op>, i: nat, j: nat, id: string)
    requires i < |ops| && j < |ops|
    requires Registers(reader, ops, i, id) && Registers(reader, ops, j, id)
    ensures i == j
  {
    if i < j { Persists(reader, ops, i + 1, j, id); }
    if j < i { Persists(reader, ops, j + 1, i, id); }
  }

  /** A lookup returns the bytes of the one registration, which came before it. */
  lemma LookupReturnsTheRegisteredKey(reader: KeyReader, ops: seq<Op>, i: nat, id: string, key: Bytes) returns (r: nat)
    requires i < |ops| && Finds(reader, ops, i, id, key)
    ensures r < i && Registers(reader, ops, r, id)
    ensures forall r' :: 0 <= r' < |ops| && Registers(reader, ops, r', id) ==> r' == r
    ensures match ops[r]
            case RegisterOp(g) => g.publicKeyBytes == key
            case ShimOp(_, k, _, _, _) => k == key
            case _ => false
  {
    r := RegisteredEarlier(reader, ops, i, id);
    RegistrationStoresItsKey(reader, ops, r, id);
    Persists(reader, ops, r + 1, i, id);
    forall r' | 0 <= r' < |ops| && Registers(reader, ops, r', id) ensures r' == r {
      RegisteredOnce(reader, ops, r', r, id);
    }
  }

  /** Successful lookups form one uninterrupted period: between two that succeed, none fails. */
  lemma LookupsSucceedInOnePeriod(reader: KeyReader, ops: seq<Op>, i: nat, j: nat, k: nat, id: string, first: Bytes,
                                  last: Bytes)
    requires OrderedLookups(ops) && i < j < k < |ops|
    requires Finds(reader, ops, i, id, first) && Finds(reader, ops, k, id, last)
    requires ops[j].LookupOp? && ops[j].id == id
    ensures first == last && Finds(reader, ops, j, id, first)
  {
    Persists(reader, ops, i, j, id);
    Persists(reader, ops, j, k, id);
  }

  /** No lookup succeeds after a revocation that found the key. */
  lemma RevocationIsFinal(reader: KeyReader, ops: seq<Op>, v: nat, i: nat, id: string, key: Bytes)
    requires v < i < |ops|
    requires ops[v] == RevokeOp(id) && id in Before(reader, ops, v)
    ensures !Finds(reader, ops, i, id, key)
  {
    Persists(reader, ops, v + 1, i, id);
  }

  /** The reading lies in the validity window the registration gives. */
  predicate InWindow(op: Op, now: Instant)
    requires op.RegisterOp? || op.ShimOp?
  {
    match op
    case RegisterOp(g) => g.validFrom <= now && (g.validUntil.Some? ==> now <= g.validUntil.value)
    case ShimOp(_, _, _, validFrom, _) => validFrom <= now
  }

  /** Operation `r` is the first acceptable registration of `id`, with this key; nothing revoked it before operation
      `i`; and `now` lies in its validity window. */
  predicate UsableSince(reader: KeyReader, ops: seq<Op>, r: nat, i: nat, id: string, key: Bytes, now: Instant)
    requires i <= |ops|
  {
    && r < i && FirstOffer(reader, ops, r, id, key) && InWindow(ops[r], now)
    && forall v :: r < v < i ==> ops[v] != RevokeOp(id)
  }

  lemma FoundIsUsable(reader: KeyReader, ops: seq<Op>, i: nat, id: string, key: Bytes) returns (r: nat)
    requires i < |ops| && Finds(reader, ops, i, id, key)
    ensures UsableSince(reader, ops, r, i, id, key, ops[i].now)
  {
    r := RegisteredEarlier(reader, ops, i, id);
    RegistrationStoresItsKey(reader, ops, r, id);
    RegistersIsFirstOffer(reader, ops, r, id);
    Persists(reader, ops, r + 1, i, id);
    forall v | r < v < i ensures ops[v] != RevokeOp(id) {
      if ops[v] == RevokeOp(id) {
        Persists(reader, ops, r + 1, v, id);
        RevocationIsFinal(reader, ops, v, i, id, key);
      }
    }
  }

  lemma UsableIsFound(reader: KeyReader, ops: seq<Op>, r: nat, i: nat, id: string, key: Bytes)
    requires i < |ops| && ops[i].LookupOp? && ops[i].id == id
    requires UsableSince(reader, ops, r, i, id, key, ops[i].now)
    ensures Finds(reader, ops, i, id, key)
  {
    RegistersIsFirstOffer(reader, ops, r, id);
    RegistrationStoresItsKey(reader, ops, r, id);
    Persists(reader, ops, r + 1, i, id);
    StaysUnrevoked(reader, ops, r + 1, i, id);
  }

  /** Exactly when a lookup gets this key, in terms of the operations alone: its first acceptable registration came
      before, nothing has revoked it since, and the reading is inside the registered window. */
  lemma LookupSucceedsExactly(reader: KeyReader, ops: seq<Op>, i: nat, id: string, key: Bytes)
    requires i < |ops| && ops[i].LookupOp? && ops[i].id == id
    ensures Finds(reader, ops, i, id, key) <==>
              exists r :: UsableSince(reader, ops, r, i, id, key, ops[i].now)
  {
    if Finds(reader, ops, i, id, key) {
      var r := FoundIsUsable(reader, ops, i, id, key);
    }
    if r :| UsableSince(reader, ops, r, i, id, key, ops[i].now) {
      UsableIsFound(reader, ops, r, i, id, key);
    }
  }

  lemma {:induction false} StaysUnrevoked(reader: KeyReader, ops: seq<Op>, i: nat, j: nat, id: string)
    requires i <= j <= |ops| && id in Before(reader, ops, i) && !Before(reader, ops, i)[id].revoked
    requires forall v :: i <= v < j ==> ops[v] != RevokeOp(id)
    ensures id in Before(reader, ops, j) && !Before(reader, ops, j)[id].revoked
    decreases j
  {
    if i < j {
      StaysUnrevoked(reader, ops, i, j - 1, id);
      StepPersists(reader, Before(reader, ops, j - 1), ops[j - 1], id);
    }
  }
}
