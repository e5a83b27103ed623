/** The public-key registry and its table (key_registry/registry.py, storage.py, models.py). */
module KeyRegistryCore {
  import opened Prelude
  import opened Crypto

  type Instant = real

  datatype Algorithm = Ed25519 | EcdsaP256

  datatype AgentKeyRecord = AgentKeyRecord(
    agentId: string,
    agentType: Option<string>,
    pubkeyId: string,
    publicKeyBytes: Bytes,
    algorithm: Algorithm,
    validFrom: Instant,
    validUntil: Option<Instant>,
    revoked: bool,
    createdAt: Instant
  )

  datatype RegistryError =
    | UnsupportedKey | AlgorithmMismatch(expected: Algorithm) | InvalidRecord | AlreadyRegistered(id: string)

  type KeyTable = map<string, AgentKeyRecord>

  /** Recognises the algorithm of encoded key bytes, or rejects them. */
  type KeyReader = Bytes -> Option<Algorithm>

  predicate IsActive(record: AgentKeyRecord, now: Instant) {
    && !record.revoked
    && now >= record.validFrom
    && (record.validUntil.None? || now <= record.validUntil.value)
  }

  function AcceptedNames(a: Algorithm): set<string> {
    match a
    case Ed25519 => {"Ed25519", "EdDSA"}
    case EcdsaP256 => {"ECDSA-P256-SHA256", "ES256"}
  }

  function AlgorithmName(a: Algorithm): string {
    match a
    case Ed25519 => "Ed25519"
    case EcdsaP256 => "ECDSA-P256-SHA256"
  }

  /** `email-agent` is an agent of type `email`. */
  function AgentTypeForId(agentId: string): Option<string> {
    var n := |agentId| - |"-agent"|;
    if n > 0 && agentId[n..] == "-agent" then Some(agentId[..n]) else None
  }

  predicate ValidRecord(r: AgentKeyRecord) {
    && r.agentId != "" && r.pubkeyId != "" && r.publicKeyBytes != [] && r.agentType != Some("")
    && (r.validUntil.Some? ==> r.validUntil.value >= r.validFrom)
  }

  function Lookup(keys: KeyTable, id: string, now: Instant): Option<AgentKeyRecord> {
    if id in keys && IsActive(keys[id], now) then Some(keys[id]) else None
  }

  // ---- The registry as a state machine ----

  datatype Registration = Registration(
    agentId: string, pubkeyId: string, publicKeyBytes: Bytes, algorithm: string,
    validFrom: Instant, validUntil: Option<Instant>, agentType: Option<string>, createdAt: Instant)

  function RecordFor(g: Registration, algorithm: Algorithm): AgentKeyRecord {
    var agentType := if g.agentType.Some? && g.agentType != Some("") then g.agentType else AgentTypeForId(g.agentId);
    AgentKeyRecord(g.agentId, agentType, g.pubkeyId, g.publicKeyBytes, algorithm, g.validFrom, g.validUntil, false,
                   g.createdAt)
  }

  function Register(reader: KeyReader, keys: KeyTable, g: Registration): Result<AgentKeyRecord, RegistryError> {
    match reader(g.publicKeyBytes)
    case None => Failure(UnsupportedKey)
    case Some(expected) =>
      if g.algorithm !in AcceptedNames(expected) then Failure(AlgorithmMismatch(expected))
      else if !ValidRecord(RecordFor(g, expected)) then Failure(InvalidRecord)
      else if g.pubkeyId in keys then Failure(AlreadyRegistered(g.pubkeyId))
      else Success(RecordFor(g, expected))
  }

  /** The older one-argument registration: repeats succeed silently while the same key is active. */
  function RegisterShim(reader: KeyReader, keys: KeyTable, id: string, key: Bytes, now: Instant, validFrom: Instant,
                        createdAt: Instant)
    : Result<Option<AgentKeyRecord>, RegistryError>
  {
    if id in keys then
      if keys[id].publicKeyBytes == key && IsActive(keys[id], now) then Success(None)
      else Failure(AlreadyRegistered(id))
    else match reader(key)
      case None => Failure(UnsupportedKey)
      case Some(a) =>
        match Register(reader, keys, Registration("unassigned", id, key, AlgorithmName(a), validFrom, None, None,
                                                  createdAt))
        case Success(record) => Success(Some(record))
        case Failure(e) => Failure(e)
  }

  function Revoke(keys: KeyTable, id: string): KeyTable {
    if id in keys then keys[id := keys[id].(revoked := true)] else keys
  }

  // ---- Which registrations succeed ----

  predicate Names(name: string, a: Algorithm) {
    match a
    case Ed25519 => name == "Ed25519" || name == "EdDSA"
    case EcdsaP256 => name == "ECDSA-P256-SHA256" || name == "ES256"
  }

  /** The reader recognises the key, the name is one of its algorithm's, nothing is empty, and the window is ordered. */
  predicate Registrable(reader: KeyReader, g: Registration) {
    && reader(g.publicKeyBytes).Some? && Names(g.algorithm, reader(g.publicKeyBytes).value)
    && g.agentId != "" && g.pubkeyId != "" && g.publicKeyBytes != []
    && (g.validUntil.Some? ==> g.validFrom <= g.validUntil.value)
  }

  /** The agent type stored: the given one, or else what stands before `-agent` in the id, or else none. */
  ghost predicate TypeStored(g: Registration, agentType: Option<string>) {
    if g.agentType.Some? && g.agentType.value != "" then agentType == g.agentType
    else if exists name :: name != "" && name + "-agent" == g.agentId then
      agentType.Some? && agentType.value != "" && agentType.value + "-agent" == g.agentId
    else agentType == None
  }

  lemma InferredType(agentId: string)
    ensures match AgentTypeForId(agentId)
            case Some(name) => name != "" && name + "-agent" == agentId
            case None => forall name :: name != "" ==> name + "-agent" != agentId
  {
    forall name | name != "" && name + "-agent" == agentId ensures AgentTypeForId(agentId).Some? {
      assert agentId[|name|..] == "-agent";
    }
  }

  /** A registration succeeds exactly when it is registrable and its id unused, and stores what it says; otherwise the
      reason is the first check that fails. */
  lemma RegistersExactly(reader: KeyReader, keys: KeyTable, g: Registration)
    ensures var r, algorithm := Register(reader, keys, g), reader(g.publicKeyBytes);
            && (r.Success? <==> Registrable(reader, g) && g.pubkeyId !in keys)
            && (r == Failure(UnsupportedKey) <==> algorithm == None)
            && (r.Failure? && r.error.AlgorithmMismatch? <==>
                  algorithm.Some? && !Names(g.algorithm, algorithm.value))
            && (r.Failure? && r.error.AlgorithmMismatch? ==> algorithm == Some(r.error.expected))
            && (r.Failure? && r.error.AlreadyRegistered? <==> Registrable(reader, g) && g.pubkeyId in keys)
            && (r.Failure? && r.error.AlreadyRegistered? ==> r.error.id == g.pubkeyId)
    ensures var r := Register(reader, keys, g);
            r.Success? ==>
              && r.value.agentId == g.agentId && TypeStored(g, r.value.agentType) && r.value.pubkeyId == g.pubkeyId
              && r.value.publicKeyBytes == g.publicKeyBytes && Some(r.value.algorithm) == reader(g.publicKeyBytes)
              && r.value.validFrom == g.validFrom && r.value.validUntil == g.validUntil
              && !r.value.revoked && r.value.createdAt == g.createdAt
  {
    InferredType(g.agentId);
  }

  /** The older registration stores a recognised key under an unused id, changes nothing for an active repeat, and
      refuses all else. */
  lemma ShimRegistersExactly(reader: KeyReader, keys: KeyTable, id: string, key: Bytes, now: Instant,
                             validFrom: Instant, createdAt: Instant)
    ensures var r := RegisterShim(reader, keys, id, key, now, validFrom, createdAt);
            var repeats := id in keys && keys[id].publicKeyBytes == key && !keys[id].revoked
                           && keys[id].validFrom <= now
                           && (keys[id].validUntil.Some? ==> now <= keys[id].validUntil.value);
            && (r == Success(None) <==> repeats)
            && (r.Success? && r.value.Some? <==> id !in keys && reader(key).Some? && id != "" && key != [])
            && (r.Success? && r.value.Some? ==>
                  r.value == Some(AgentKeyRecord("unassigned", None, id, key, reader(key).value, validFrom, None, false,
                                                 createdAt)))
            && (r == Failure(AlreadyRegistered(id)) <==> id in keys && !repeats)
            && (r == Failure(UnsupportedKey) <==> id !in keys && reader(key) == None)
            && (r == Failure(InvalidRecord) <==> id !in keys && reader(key).Some? && (id == "" || key == []))
  {
    if id !in keys && reader(key).Some? {
      var g := Registration("unassigned", id, key, AlgorithmName(reader(key).value), validFrom, None, None, createdAt);
      RegistersExactly(reader, keys, g);
      Unassigned();
    }
  }

  lemma Unassigned()
    ensures AgentTypeForId("unassigned") == None
  {
    assert "unassigned"[4..][0] == 's';
  }

  class SQLiteKeyStorage {
    var keys: KeyTable

    constructor ()
      ensures keys == map[]
    {
      keys := map[];
    }

    method InsertKey(record: AgentKeyRecord) returns (r: Result<(), RegistryError>)
      modifies this
      ensures r.Success? <==> record.pubkeyId !in old(keys)
      ensures keys == if r.Success? then old(keys)[record.pubkeyId := record] else old(keys)
      ensures r.Failure? ==> r.error == AlreadyRegistered(record.pubkeyId)
    {
      if record.pubkeyId in keys { return Failure(AlreadyRegistered(record.pubkeyId)); }
      keys := keys[record.pubkeyId := record];
      return Success(());
    }

    method GetKeyById(id: string) returns (r: Option<AgentKeyRecord>)
      ensures r == if id in keys then Some(keys[id]) else None
    {
      r := if id in keys then Some(keys[id]) else None;
    }

    method RevokeKey(id: string) returns (existed: bool)
      modifies this
      ensures existed <==> id in old(keys)
      ensures keys == Revoke(old(keys), id)
    {
      existed := id in keys;
      if existed { keys := keys[id := keys[id].(revoked := true)]; }
    }
  }

  class KeyRegistry {
    const storage: SQLiteKeyStorage
    const reader: KeyReader

    constructor (storage: SQLiteKeyStorage, reader: KeyReader)
      ensures this.storage == storage && this.reader == reader
    {
      this.storage := storage;
      this.reader := reader;
    }

    method RegisterKey(g: Registration) returns (r: Result<AgentKeyRecord, RegistryError>)
      modifies storage
      ensures r == Register(reader, old(storage.keys), g)
      ensures r.Success? <==> Registrable(reader, g) && g.pubkeyId !in old(storage.keys)
      ensures storage.keys == if r.Success? then old(storage.keys)[g.pubkeyId := r.value] else old(storage.keys)
    {
      RegistersExactly(reader, storage.keys, g);
      var expected := reader(g.publicKeyBytes);
      if expected.None? { return Failure(UnsupportedKey); }
      if g.algorithm !in AcceptedNames(expected.value) { return Failure(AlgorithmMismatch(expected.value)); }
      var record := RecordFor(g, expected.value);
      if !ValidRecord(record) { return Failure(InvalidRecord); }
      var inserted := storage.InsertKey(record);
      match inserted
      case Failure(e) => return Failure(e);
      case Success(_) => return Success(record);
    }

    method RegisterPubkey(id: string, key: Bytes, now: Instant, validFrom: Instant, createdAt: Instant)
      returns (r: Result<Option<AgentKeyRecord>, RegistryError>)
      modifies storage
      ensures r == RegisterShim(reader, old(storage.keys), id, key, now, validFrom, createdAt)
      ensures storage.keys == if r.Success? && r.value.Some? then old(storage.keys)[id := r.value.value]
                              else old(storage.keys)
    {
      var existing := storage.GetKeyById(id);
      if existing.Some? {
        if existing.value.publicKeyBytes == key && IsActive(existing.value, now) { return Success(None); }
        return Failure(AlreadyRegistered(id));
      }
      var algorithm := reader(key);
      if algorithm.None? { return Failure(UnsupportedKey); }
      var registered := RegisterKey(Registration("unassigned", id, key, AlgorithmName(algorithm.value), validFrom, None,
                                                 None, createdAt));
      match registered
      case Failure(e) => return Failure(e);
      case Success(record) => return Success(Some(record));
    }

    method GetPubkey(id: string, now: Instant) returns (r: Option<Bytes>)
      ensures r == match Lookup(storage.keys, id, now)
                   case None => None
                   case Some(record) => Some(record.publicKeyBytes)
    {
      var record := storage.GetKeyById(id);
      if record.None? || !IsActive(record.value, now) { return None; }
      return Some(record.value.publicKeyBytes);
    }

    method GetKeyRecord(id: string, now: Instant) returns (r: Option<AgentKeyRecord>)
      ensures r == Lookup(storage.keys, id, now)
    {
      var record := storage.GetKeyById(id);
      return if record.Some? && IsActive(record.value, now) then record else None;
    }

    method RevokeKey(id: string) returns (existed: bool)
      modifies storage
      ensures existed <==> id in old(storage.keys)
      ensures storage.keys == Revoke(old(storage.keys), id)
    {
      existed := storage.RevokeKey(id);
    }

    /** The agent's usable records, as a set: the table's own order is by creation time. */
    method ListActiveKeys(agentId: string, now: Instant) returns (active: set<AgentKeyRecord>)
      ensures forall record :: record in active <==>
                exists id :: id in storage.keys && storage.keys[id] == record
                             && record.agentId == agentId && IsActive(record, now)
    {
      active := set id | id in storage.keys && storage.keys[id].agentId == agentId && IsActive(storage.keys[id], now)
                  :: storage.keys[id];
    }
  }
}
