/** The rows of the server's database and the values its methods exchange.
    Identifiers, tokens and digests are opaque strings; times are seconds. */
module Records {

  type Id = string
  type Time = real

  const LEASE_SECONDS: Time := 600.0
  const MAX_ATTEMPTS: int := 3
  const RESULT_RETENTION_SECONDS: Time := 604800.0
  const CLAIM_WINDOW: nat := 32

  datatype Option<+T> = None | Some(value: T)

  /** An optional string that Python would treat as true. */
  predicate Truthy(s: Option<string>) {
    s.Some? && s.value != ""
  }

  function MinTime(a: Time, b: Time): Time {
    if a <= b then a else b
  }

  datatype Status = Uploading | Queued | Leased | Running | Succeeded | Failed | Expired | Canceled

  predicate Held(s: Status) {
    s.Leased? || s.Running?
  }

  predicate Terminal(s: Status) {
    s.Succeeded? || s.Failed? || s.Expired? || s.Canceled?
  }

  /** SHA-256 of a lease token, taken to be free of collisions. */
  datatype TokenHash = Sha256(token: string)

  datatype Requirements = Requirements(
    provider: Option<string>,
    model: Option<string>,
    serviceId: Option<string>,
    formats: seq<string>)

  datatype Envelope = Envelope(
    taskType: string,
    inputMimes: seq<string>,
    needs: Requirements,
    idempotencyKey: string,
    ttlSeconds: int)

  // ---------- the requests the server lets in ----------

  predicate KeyChar(c: char) {
    'A' <= c <= 'Z' || 'a' <= c <= 'z' || '0' <= c <= '9' || c in "._:-"
  }

  predicate ShortText(s: Option<string>, limit: nat) {
    s.Some? ==> 1 <= |s.value| <= limit
  }

  /** What the schema of a task request asks of the parts that are modelled. */
  predicate Acceptable(e: Envelope) {
    && e.taskType in {"audio.transcribe.v1", "vision.detect.v1"}
    && 1 <= |e.inputMimes| <= 8 && (forall m <- e.inputMimes :: 1 <= |m| <= 128)
    && ShortText(e.needs.provider, 128) && ShortText(e.needs.model, 256) && ShortText(e.needs.serviceId, 128)
    && |e.needs.formats| <= 16
    && 1 <= |e.idempotencyKey| <= 128 && (forall c <- e.idempotencyKey :: KeyChar(c))
    && 1 <= e.ttlSeconds <= 604800
  }

  function VisionRequest(key: string, ttlSeconds: int): Envelope {
    Envelope("vision.detect.v1", ["image/png"], Requirements(None, None, None, []), key, ttlSeconds)
  }

  function AudioRequest(key: string, ttlSeconds: int): Envelope {
    Envelope("audio.transcribe.v1", ["audio/wav"], Requirements(None, None, None, []), key, ttlSeconds)
  }

  datatype Capability = Capability(
    capabilityId: Id,
    taskType: string,
    provider: string,
    serviceId: Option<string>,
    models: seq<string>,
    formats: seq<string>)

  /** `error_json`: a failure report has all four fields, the sweep writes only a code. */
  datatype ErrorRecord =
    | ErrorEnvelope(code: string, message: string, retryable: bool, requestId: string)
    | BareCode(code: string)

  /** The error of a failure report, whose schema asks for a message and a request id too. */
  type WireError = e: ErrorRecord | e.ErrorEnvelope? witness ErrorEnvelope("", "", false, "")

  datatype Task = Task(
    owner: Id,
    device: Id,
    envelope: Envelope,
    requestDigest: string,
    status: Status,
    expiresAt: Time,
    executionDeadline: Time,
    attempt: int,
    nextAttemptAt: Time,
    leaseOwner: Option<Id>,
    leaseGeneration: int,
    leaseTokenHash: Option<TokenHash>,
    leaseUntil: Option<Time>,
    boundCapability: Option<Id>,
    error: Option<ErrorRecord>,
    result: Option<string>,
    resultAvailable: bool,
    resultExpiresAt: Option<Time>,
    createdAt: Time,
    updatedAt: Time)

  datatype ArtifactRef = ArtifactRef(artifactId: Option<Id>, sizeBytes: Option<nat>, sha256: Option<string>)

  /** An input artifact row. The server never inserts rows of the other kind. */
  datatype Artifact = Artifact(taskId: Id, sizeBytes: nat, path: string, published: bool, expiresAt: Time)

  datatype EventKind = EventCreated | EventQueued | EventLeased

  datatype Event = Event(taskId: Id, kind: EventKind, createdAt: Time)

  datatype Lease = Lease(
    taskId: Id,
    ownerId: Id,
    workerId: Id,
    generation: int,
    token: string,
    leaseUntil: Time,
    capabilityId: Id)

  datatype Error = NotFound | Conflict | LeaseConflict | IntegrityViolation

  datatype Reply =
    | Row(row: Task)
    | Granted(lease: Lease)
    | NoTask
    | Paths(paths: set<string>)
    | Swept(count: int)
    | Deleted
    | Rejected(error: Error)

  lemma {:induction false} SubsetSmaller<T>(a: set<T>, b: set<T>)
    requires a <= b
    ensures |a| <= |b|
    decreases |a|
  {
    if x :| x in a {
      SubsetSmaller(a - {x}, b - {x});
    }
  }
}
