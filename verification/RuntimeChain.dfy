/**
 The runtime identity of a mission: a base record, an append-only chain of generation migrations,
 and one create-once binding receipt per migration.

 Two resolvers read the chain.  The mission resolver stops at the first migration that has no
 receipt; the segment resolver goes on as long as migrations belong to the segment's own run.
 Verifying a migration calls the mission resolver again on the prefix before it.
 */
module RuntimeChain {
  import opened Wrappers

  /** No resolver follows the chain past this many migrations. */
  const MAX_MIGRATIONS: nat := 16

  /** `authority` is the frozen request, the capability names and the runner profile; `capability`
      is what may be refreshed: binding, projection, runtime fingerprint and attestation. */
  datatype Identity = Identity(
    missionId: string, generation: string, authority: Option<string>, capability: Option<string>)

  datatype Digest = OfIdentity(identity: Identity) | OfMigration(migration: Migration) | OfReceipt(receipt: Receipt)

  datatype Schema = V1 | V2

  datatype Migration = Migration(
    schema: Schema,
    activeSegmentResume: bool,
    missionId: string,
    sequence: nat,
    previousIdentitySha: Digest,
    previousGeneration: string,
    generation: string,
    authority: Option<string>,
    identity: Option<Identity>,
    capabilityRef: Option<nat>,
    sourceRun: string,
    source: string)

  datatype Receipt = Receipt(missionId: string, sequence: nat, migrationSha: Digest, identity: Option<Identity>)

  /** A completed capability migration, and whether it changes no capability authority. */
  datatype CapabilityEdge = CapabilityEdge(previous: string, next: string, runtimeOnly: bool)

  /** Everything outside the chain that verification re-proves: the source's packet, state, event
      prefix, approval and candidate lineage, the capability history, and the semantic runtime
      fingerprint that a capability identity carries. */
  datatype Evidence = Evidence(
    holds: Migration -> bool, capability: nat -> Option<CapabilityEdge>, fingerprint: string -> string)

  /** The durable records of one mission. */
  datatype Chain = Chain(
    missionId: string,
    missionGeneration: string,
    base: Option<Identity>,
    migrations: map<nat, Migration>,
    receipts: map<nat, Receipt>)

  /** A resolved identity; `tag` is the migration sequence field, when the resolver adds one. */
  datatype Resolved = Resolved(identity: Identity, tag: Option<nat>, sha: Digest)

  datatype ChainError =
    | Discontinuous
    | SourceInvalid
    | ReceiptInvalid
    | ReferenceInvalid
    | Conflict
    | NotBound
    | Mismatch

  type Resolution = Result<(Resolved, nat), ChainError>

  // ----- resolving -----

  function BaseOf(c: Chain): Resolved {
    var identity := if c.base.Some? then c.base.value else Identity(c.missionId, c.missionGeneration, None, None);
    Resolved(identity, None, OfIdentity(identity))
  }

  /** The migration continues from an identity and its digest. */
  predicate Continues(c: Chain, m: Migration, sequence: nat, at: Resolved) {
    && m.missionId == c.missionId && m.sequence == sequence
    && m.previousIdentitySha == at.sha
    && m.previousGeneration == at.identity.generation
    && m.authority == at.identity.authority
  }

  /** An identity is the one a migration authorizes. */
  predicate TargetMatches(m: Migration, identity: Identity, edge: Option<CapabilityEdge>) {
    && identity.missionId == m.missionId
    && identity.generation == m.generation
    && identity.authority == m.authority
    && (edge.Some? ==> identity.capability == Some(edge.value.next))
  }

  function EdgeOf(env: Evidence, m: Migration): Option<CapabilityEdge> {
    if m.capabilityRef.None? then None else env.capability(m.capabilityRef.value)
  }

  /** The part of a version-2 source that does not look at the chain. */
  predicate LocallyValid(env: Evidence, m: Migration) {
    && m.activeSegmentResume
    && env.holds(m)
    && (m.generation == m.previousGeneration ==> m.capabilityRef.Some? && m.identity.Some?)
    && (m.capabilityRef.Some? ==> EdgeOf(env, m).Some? && EdgeOf(env, m).value.runtimeOnly)
    && (m.identity.Some? ==> TargetMatches(m, m.identity.value, EdgeOf(env, m)))
  }

  /** The migration's target follows from the identity before it. */
  predicate FollowsFrom(env: Evidence, m: Migration, previous: Resolved) {
    && previous.sha == m.previousIdentitySha
    && previous.identity.generation == m.previousGeneration
    && m.identity.Some?
    && previous.identity.authority == m.identity.value.authority
    && match EdgeOf(env, m)
       case Some(edge) =>
         previous.identity.capability == Some(edge.previous) && m.identity.value.capability == Some(edge.next)
       case None => previous.identity.capability == m.identity.value.capability
  }

  /** Re-proves a migration's source, resolving the prefix before it when it names a target. */
  predicate SourceVerifies(env: Evidence, c: Chain, m: Migration)
    decreases m.sequence, 0, 0
  {
    if m.schema == V1 then env.holds(m)
    else
      && LocallyValid(env, m)
      && (m.identity.Some? ==>
            && m.sequence >= 1
            && var previous := MissionRuntime(env, c, m.sequence - 1);
            previous.Ok? && previous.value.1 == m.sequence - 1 && FollowsFrom(env, m, previous.value.0))
  }

  function FromMigration(c: Chain, m: Migration, sequence: nat): Result<Resolved, ChainError> {
    if sequence in c.receipts then
      var receipt := c.receipts[sequence];
      if || receipt.missionId != c.missionId || receipt.sequence != sequence
         || receipt.migrationSha != OfMigration(m) || receipt.identity.None?
         || receipt.identity.value.generation != m.generation
         || receipt.identity.value.authority != m.authority
         || (m.identity.Some? && receipt.identity != m.identity)
      then Err(ReceiptInvalid)
      else Ok(Resolved(receipt.identity.value, Some(sequence), OfReceipt(receipt)))
    else if m.identity.Some? then
      if !(m.identity.value.missionId == c.missionId && m.identity.value.generation == m.generation
           && m.identity.value.authority == m.authority)
      then Err(SourceInvalid)
      else Ok(Resolved(m.identity.value, Some(sequence), OfMigration(m)))
    else Ok(Resolved(Identity(c.missionId, m.generation, m.authority, None), Some(sequence), OfMigration(m)))
  }

  /** A receipt as the mission resolver reads it. */
  function FromReceipt(c: Chain, m: Migration, sequence: nat): Result<Resolved, ChainError>
    requires sequence in c.receipts
  {
    var receipt := c.receipts[sequence];
    if || receipt.missionId != c.missionId || receipt.sequence != sequence
       || receipt.migrationSha != OfMigration(m) || receipt.identity.None?
       || receipt.identity.value.generation != m.generation
       || receipt.identity.value.authority != m.authority
    then Err(ReceiptInvalid)
    else Ok(Resolved(receipt.identity.value, None, OfReceipt(receipt)))
  }

  /** The mission's runtime through the given number of migrations. */
  function MissionRuntime(env: Evidence, c: Chain, through: nat): Resolution
    decreases through, 2, 0
  {
    MissionFrom(env, c, BaseOf(c), 0, if through < MAX_MIGRATIONS then through else MAX_MIGRATIONS)
  }

  function MissionFrom(env: Evidence, c: Chain, at: Resolved, sequence: nat, limit: nat): Resolution
    requires sequence <= limit
    decreases limit, 1, limit - sequence
  {
    if sequence == limit || sequence + 1 !in c.migrations then Ok((at, sequence))
    else
      var m := c.migrations[sequence + 1];
      if !Continues(c, m, sequence + 1, at) then Err(Discontinuous)
      else if !SourceVerifies(env, c, m) then Err(SourceInvalid)
      else if sequence + 1 !in c.receipts then
        match FromMigration(c, m, sequence + 1)
        case Err(e) => Err(e)
        case Ok(pending) => Ok((pending, sequence + 1))
      else
        match FromReceipt(c, m, sequence + 1)
        case Err(e) => Err(e)
        case Ok(bound) => MissionFrom(env, c, bound, sequence + 1, limit)
  }

  // ----- a segment's own view -----

  datatype Reference = Reference(sequence: nat, sha: Digest, generation: string)

  datatype Segment = Segment(runId: string, predecessorRun: string, reference: Option<Reference>)

  /** Where a segment's chain starts: the base, or the migration its seal names. */
  function SegmentStart(env: Evidence, c: Chain, segment: Segment): Resolution {
    match segment.reference
    case None => Ok((BaseOf(c), 0))
    case Some(r) =>
      if !(1 <= r.sequence <= MAX_MIGRATIONS) || r.sequence !in c.migrations then Err(ReferenceInvalid)
      else
        var m := c.migrations[r.sequence];
        if || OfMigration(m) != r.sha || m.missionId != c.missionId || m.sequence != r.sequence
           || m.generation != r.generation
        then Err(ReferenceInvalid)
        else if !SourceVerifies(env, c, m) then Err(SourceInvalid)
        else if m.schema == V2 && m.sourceRun != segment.runId && m.sourceRun != segment.predecessorRun
        then Err(ReferenceInvalid)
        else
          match FromMigration(c, m, r.sequence)
          case Err(e) => Err(e)
          case Ok(at) => Ok((at, r.sequence))
  }

  predicate OwnMigration(m: Migration, segment: Segment) {
    m.schema == V2 && m.activeSegmentResume && m.sourceRun == segment.runId
  }

  function SegmentFrom(env: Evidence, c: Chain, segment: Segment, at: Resolved, sequence: nat): Resolution
    requires sequence <= MAX_MIGRATIONS
    decreases MAX_MIGRATIONS - sequence
  {
    if sequence == MAX_MIGRATIONS || sequence + 1 !in c.migrations then Ok((at, sequence))
    else
      var m := c.migrations[sequence + 1];
      if !OwnMigration(m, segment) then Ok((at, sequence))
      else if !Continues(c, m, sequence + 1, at) then Err(Discontinuous)
      else if !SourceVerifies(env, c, m) then Err(SourceInvalid)
      else
        match FromMigration(c, m, sequence + 1)
        case Err(e) => Err(e)
        case Ok(next) => SegmentFrom(env, c, segment, next, sequence + 1)
  }

  function SegmentRuntime(env: Evidence, c: Chain, segment: Segment): Resolution {
    match SegmentStart(env, c, segment)
    case Err(e) => Err(e)
    case Ok((at, sequence)) =>
      if sequence > MAX_MIGRATIONS then Err(ReferenceInvalid) else SegmentFrom(env, c, segment, at, sequence)
  }

  // ----- the two writers -----

  /** The identity a run binding and its runner profile stand for. */
  datatype Payload = Payload(generation: string, authority: string, capability: string)

  function IdentityFor(c: Chain, p: Payload): Identity {
    Identity(c.missionId, p.generation, Some(p.authority), Some(p.capability))
  }

  /** Binds the first identity, or the receipt of the migration the segment resolves to; both are
      create-once. */
  function Bind(env: Evidence, c: Chain, segment: Segment, p: Payload): Result<Chain, ChainError> {
    var identity := IdentityFor(c, p);
    match SegmentRuntime(env, c, segment)
    case Err(e) => Err(e)
    case Ok((expected, _)) =>
      match expected.tag
      case None =>
        if p.generation != c.missionGeneration then Err(Mismatch)
        else if c.base.Some? && c.base.value != identity then Err(Conflict)
        else Ok(c.(base := Some(identity)))
      case Some(sequence) =>
        if sequence !in c.migrations then Err(ReferenceInvalid)
        else
          var m := c.migrations[sequence];
          var receipt := Receipt(c.missionId, sequence, OfMigration(m), Some(identity));
          if || m.missionId != c.missionId || m.sequence != sequence || m.generation != expected.identity.generation
             || p.generation != expected.identity.generation
             || identity.authority != expected.identity.authority
             || (m.identity.Some? && m.identity.value != identity)
          then Err(Mismatch)
          else if sequence in c.receipts && c.receipts[sequence] != receipt then Err(Conflict)
          else Ok(c.(receipts := c.receipts[sequence := receipt]))
  }

  /** A resume request: the quarantined job's generation, what the run would resume with, the
      completed capability migration if any, the source evidence, and the fingerprint of the
      semantic runtime that is installed. */
  datatype Resume = Resume(
    previousGeneration: string, target: Payload, capabilityRef: Option<nat>, source: string, installed: string)

  function MigrationFor(c: Chain, segment: Segment, previous: Resolved, sequence: nat, r: Resume): Migration {
    Migration(V2, true, c.missionId, sequence + 1, previous.sha, r.previousGeneration, r.target.generation,
              previous.identity.authority, Some(IdentityFor(c, r.target)), r.capabilityRef, segment.runId, r.source)
  }

  /** The capability identity the run is leaving. */
  function Leaving(env: Evidence, r: Resume): Option<string> {
    match r.capabilityRef
    case None => Some(r.target.capability)
    case Some(reference) =>
      match env.capability(reference)
      case Some(edge) => Some(edge.previous)
      case None => None
  }

  /** Replaying an already published resume: only the very same request is accepted. */
  function Replay(env: Evidence, c: Chain, segment: Segment, sequence: nat, r: Resume): Result<Chain, ChainError>
    requires sequence > 0
  {
    if sequence !in c.migrations || (sequence == 1 && c.base.None?) then Err(Conflict)
    else
      var m := c.migrations[sequence];
      var before := MissionRuntime(env, c, sequence - 1);
      if || m.schema != V2 || !m.activeSegmentResume || m.generation != r.target.generation
         || m.previousGeneration != r.previousGeneration
         || m.sourceRun != segment.runId || m.source != r.source
         || m.capabilityRef != r.capabilityRef || m.identity != Some(IdentityFor(c, r.target))
         || before.Err? || before.value.1 != sequence - 1 || m.previousIdentitySha != before.value.0.sha
         || !SourceVerifies(env, c, m)
      then Err(Conflict)
      else Ok(c)
  }

  /** The identity the mission runs under carries no fingerprint, or that of the installed runtime. */
  predicate RunsInstalled(env: Evidence, active: Resolved, installed: string) {
    active.identity.capability.Some? ==> env.fingerprint(active.identity.capability.value) in {"", installed}
  }

  /** Appends the migration of a workerless resume.  When nothing is to change, the mission must
      resolve to an identity that has not drifted from the installed runtime. */
  function Prepare(env: Evidence, c: Chain, segment: Segment, r: Resume): Result<Chain, ChainError> {
    match MissionRuntime(env, c, MAX_MIGRATIONS)
    case Err(e) => Err(e)
    case Ok((active, sequence)) =>
      if r.previousGeneration == r.target.generation && r.capabilityRef.None? then
        if RunsInstalled(env, active, r.installed) then Ok(c) else Err(Mismatch)
      else if env.fingerprint(r.target.capability) != r.installed then Err(Mismatch)
      else if active.identity.generation == r.target.generation && sequence > 0 then
        Replay(env, c, segment, sequence, r)
      else if active.identity.generation != r.previousGeneration then Err(Mismatch)
      else if sequence > 0 && sequence !in c.receipts then Err(NotBound)
      else PrepareNext(env, c, segment, active, sequence, r)
  }

  function PrepareNext(env: Evidence, c: Chain, segment: Segment, active: Resolved, sequence: nat, r: Resume)
    : Result<Chain, ChainError>
  {
    match SegmentRuntime(env, c, segment)
    case Err(e) => Err(e)
    case Ok((expected, _)) =>
      var m := MigrationFor(c, segment, active, sequence, r);
      if || expected.identity.generation != r.previousGeneration
         || expected.identity.authority != Some(r.target.authority)
         || expected.identity.authority != active.identity.authority
         || expected.identity.capability != Leaving(env, r)
         || !LocallyValid(env, m)
         || (r.capabilityRef.None? && Some(r.target.capability) != active.identity.capability)
      then Err(Mismatch)
      else if sequence + 1 in c.migrations && c.migrations[sequence + 1] != m then Err(Conflict)
      else Ok(c.(migrations := c.migrations[sequence + 1 := m]))
  }
}
