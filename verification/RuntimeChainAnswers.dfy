/**
 What the runtime chain's readers and writers answer: which chains resolve at all, and which
 resumes are accepted, repeated or refused.
 */
module RuntimeChainAnswers {
  import opened Wrappers
  import opened Crashes
  import opened RuntimeChain
  import opened RuntimeChainRuns

  // ----- resumes -----

  /** The identity a resume asks for. */
  function Asked(c: Chain, r: Resume): Identity {
    Identity(c.missionId, r.target.generation, Some(r.target.authority), Some(r.target.capability))
  }

  predicate AsksForNothing(r: Resume) {
    r.previousGeneration == r.target.generation && r.capabilityRef == None
  }

  /** The n-th migration is the one a resume asks for. */
  predicate IsThisResume(c: Chain, m: Migration, segment: Segment, r: Resume) {
    && m.sourceRun == segment.runId && m.source == r.source && m.capabilityRef == r.capabilityRef
    && m.previousGeneration == r.previousGeneration && m.generation == r.target.generation
    && m.identity == Some(Asked(c, r))
  }

  /** When the mission already runs in the target generation by its last migration, a resume is
      accepted exactly when it is that migration, and then changes nothing. */
  lemma ReplayAcceptedExactlyWhen(env: Evidence, c: Chain, n: nat, b: nat, segment: Segment, r: Resume)
    requires Inv(env, c, n, b) && 0 < n <= MAX_MIGRATIONS && !AsksForNothing(r)
    requires env.fingerprint(r.target.capability) == r.installed
    requires c.migrations[n].generation == r.target.generation
    ensures Prepare(env, c, segment, r).Ok? <==> IsThisResume(c, c.migrations[n], segment, r)
    ensures Prepare(env, c, segment, r).Ok? ==> Prepare(env, c, segment, r) == Ok(c)
  {
    assert Fits(env, c, n);
    MissionResolves(env, c, n, b, MAX_MIGRATIONS);
    MissionResolves(env, c, n, b, n - 1);
    SourceHolds(env, c, n, b, n);
  }

  /** Otherwise a resume appends, exactly under these conditions: the installed runtime is the
      target's; the mission runs in the generation being left, bound; the segment resolves to that
      generation, to the authority asked for, which is the mission's, and to the capability being
      left; the evidence holds; and a capability changes only along a completed edge that changes
      the runtime alone. */
  lemma AppendAcceptedExactlyWhen(env: Evidence, c: Chain, n: nat, b: nat, segment: Segment, r: Resume, j: nat)
    requires Inv(env, c, n, b) && n < MAX_MIGRATIONS && !AsksForNothing(r)
    requires n > 0 ==> c.migrations[n].generation != r.target.generation
    requires j <= n && SegmentRuntime(env, c, segment) == SegmentAnswer(c, j)
    ensures Prepare(env, c, segment, r).Ok? <==>
      var active, own := ClosedAt(c, n).identity, ClosedAt(c, j).identity;
      && env.fingerprint(r.target.capability) == r.installed
      && b == n
      && active.generation == r.previousGeneration && own.generation == r.previousGeneration
      && active.authority == Some(r.target.authority) && own.authority == Some(r.target.authority)
      && env.holds(MigrationFor(c, segment, ClosedAt(c, n), n, r))
      && match r.capabilityRef
         case None =>
           active.capability == Some(r.target.capability) && own.capability == Some(r.target.capability)
         case Some(reference) =>
           env.capability(reference).Some?
           && var edge := env.capability(reference).value;
           edge.runtimeOnly && edge.next == r.target.capability && own.capability == Some(edge.previous)
  {
    MissionResolves(env, c, n, b, MAX_MIGRATIONS);
    if n > 0 {
      assert Fits(env, c, n);
    }
    NextAcceptedExactlyWhen(env, c, segment, r, ClosedAt(c, n), n, ClosedAt(c, j).identity);
    PrepareReachesNext(env, c, segment, r, MissionRuntime(env, c, MAX_MIGRATIONS).value.0, n);
  }

  lemma PrepareReachesNext(env: Evidence, c: Chain, segment: Segment, r: Resume, active: Resolved, n: nat)
    requires MissionRuntime(env, c, MAX_MIGRATIONS) == Ok((active, n)) && !AsksForNothing(r)
    requires n > 0 ==> active.identity.generation != r.target.generation
    ensures Prepare(env, c, segment, r).Ok? <==>
      && env.fingerprint(r.target.capability) == r.installed && active.identity.generation == r.previousGeneration
      && (n > 0 ==> n in c.receipts) && PrepareNext(env, c, segment, active, n, r).Ok?
  {
  }

  lemma NextAcceptedExactlyWhen(env: Evidence, c: Chain, segment: Segment, r: Resume, active: Resolved, n: nat,
                                own: Identity)
    requires SegmentRuntime(env, c, segment).Ok? && SegmentRuntime(env, c, segment).value.0.identity == own
    requires n + 1 !in c.migrations && !AsksForNothing(r)
    ensures PrepareNext(env, c, segment, active, n, r).Ok? <==>
      && own.generation == r.previousGeneration
      && active.identity.authority == Some(r.target.authority) && own.authority == Some(r.target.authority)
      && env.holds(MigrationFor(c, segment, active, n, r))
      && match r.capabilityRef
         case None =>
           active.identity.capability == Some(r.target.capability) && own.capability == Some(r.target.capability)
         case Some(reference) =>
           env.capability(reference).Some?
           && var edge := env.capability(reference).value;
           edge.runtimeOnly && edge.next == r.target.capability && own.capability == Some(edge.previous)
  {
  }

  /** What an accepted append writes, field by field. */
  lemma AppendWrites(env: Evidence, c: Chain, n: nat, b: nat, segment: Segment, r: Resume)
    requires Inv(env, c, n, b) && Prepare(env, c, segment, r).Ok? && Prepare(env, c, segment, r).value != c
    ensures var d := Prepare(env, c, segment, r).value;
      && n + 1 in d.migrations && d == c.(migrations := c.migrations[n + 1 := d.migrations[n + 1]])
      && var m := d.migrations[n + 1];
      && IsThisResume(c, m, segment, r) && m.schema == V2 && m.activeSegmentResume
      && m.missionId == c.missionId && m.sequence == n + 1
      && m.authority == Some(r.target.authority)
      && m.previousIdentitySha == (if n == 0 then OfIdentity(BaseOf(c).identity) else OfReceipt(c.receipts[n]))
  {
    PreparedMigrationFits(env, c, n, b, segment, r);
    MissionResolves(env, c, n, b, MAX_MIGRATIONS);
    if n > 0 {
      assert Fits(env, c, n);
    }
  }

  /** A death after the append is harmless: the same resume again is accepted and changes nothing,
      and any other resume into that generation is refused. */
  lemma RepeatedResumeIsTheOne(env: Evidence, c: Chain, n: nat, b: nat, segment: Segment, r: Resume,
                               other: Segment, again: Resume)
    requires Inv(env, c, n, b) && n < MAX_MIGRATIONS
    requires Prepare(env, c, segment, r).Ok? && Prepare(env, c, segment, r).value != c
    requires LeavesActive(env, c, n, r)
    requires again.target.generation == r.target.generation && !AsksForNothing(again)
    requires env.fingerprint(again.target.capability) == again.installed
    ensures var d := Prepare(env, c, segment, r).value;
      if other.runId == segment.runId && again == r.(installed := again.installed) then
        Prepare(env, d, other, again) == Ok(d)
      else Prepare(env, d, other, again).Err?
  {
    var d := Prepare(env, c, segment, r).value;
    AppendWrites(env, c, n, b, segment, r);
    PreparedMigrationFits(env, c, n, b, segment, r);
    AppendKeepsInvariant(env, c, n, d.migrations[n + 1]);
    ReplayAcceptedExactlyWhen(env, d, n + 1, n, other, again);
  }

  /** A resume that asks for nothing changes nothing, and is refused exactly when the mission runs
      under another runtime's fingerprint. */
  lemma NothingAskedNothingDone(env: Evidence, c: Chain, n: nat, b: nat, segment: Segment, r: Resume)
    requires Inv(env, c, n, b) && AsksForNothing(r)
    ensures var active := ClosedAt(c, Min(n, MAX_MIGRATIONS)).identity.capability;
      if active.Some? && env.fingerprint(active.value) != "" && env.fingerprint(active.value) != r.installed
      then Prepare(env, c, segment, r).Err? else Prepare(env, c, segment, r) == Ok(c)
  {
    MissionResolves(env, c, n, b, MAX_MIGRATIONS);
  }

  // ----- which chains resolve -----

  /** The k-th migration is bound, by a receipt that names it and keeps its generation and authority. */
  predicate BoundAt(c: Chain, k: nat) {
    && k in c.migrations && k in c.receipts
    && var m, receipt := c.migrations[k], c.receipts[k];
    && receipt.missionId == c.missionId && receipt.sequence == k && receipt.migrationSha == OfMigration(m)
    && receipt.identity.Some? && receipt.identity.value.generation == m.generation
    && receipt.identity.value.authority == m.authority
  }

  /** Where the chain stands after k bound migrations: at the base, or at what the receipt binds. */
  function StandsAt(c: Chain, k: nat): Resolved
    requires k == 0 || BoundAt(c, k)
  {
    if k == 0 then BaseOf(c) else Resolved(c.receipts[k].identity.value, None, OfReceipt(c.receipts[k]))
  }

  /** The k-th migration goes on from where the chain stood. */
  predicate GoesOn(env: Evidence, c: Chain, k: nat)
    requires k >= 1 && k in c.migrations && (k == 1 || BoundAt(c, k - 1))
  {
    var m, before := c.migrations[k], StandsAt(c, k - 1);
    && m.missionId == c.missionId && m.sequence == k && m.authority == before.identity.authority
    && m.previousGeneration == before.identity.generation && m.previousIdentitySha == before.sha
    && env.holds(m)
  }

  /** A version-2 migration refers only to a completed capability edge that changes the runtime
      alone; one that names its target changes the capability along that edge, or without one changes
      the generation and nothing else. */
  predicate ChangesTheRuntimeAlone(env: Evidence, m: Migration, before: Identity) {
    m.schema == V2 ==>
      && m.activeSegmentResume
      && (m.capabilityRef.Some? ==>
            env.capability(m.capabilityRef.value).Some? && env.capability(m.capabilityRef.value).value.runtimeOnly)
      && (m.identity == None || m.capabilityRef == None ==> m.generation != m.previousGeneration)
      && (m.identity.Some? ==>
            var target := m.identity.value;
            && target.missionId == m.missionId && target.generation == m.generation
            && target.authority == before.authority
            && match m.capabilityRef
               case None => target.capability == before.capability
               case Some(reference) =>
                 var edge := env.capability(reference).value;
                 before.capability == Some(edge.previous) && target.capability == Some(edge.next))
  }

  /** The k-th migration is there, goes on from a bound one or the base, and changes the runtime alone. */
  predicate LinkedAt(env: Evidence, c: Chain, k: nat)
    requires k >= 1
  {
    && k in c.migrations && (k > 1 ==> BoundAt(c, k - 1))
    && GoesOn(env, c, k) && ChangesTheRuntimeAlone(env, c.migrations[k], StandsAt(c, k - 1).identity)
  }

  ghost predicate LinkedThrough(env: Evidence, c: Chain, n: nat) {
    forall k {:trigger LinkedAt(env, c, k)} :: 1 <= k <= n ==> LinkedAt(env, c, k)
  }

  /** One step of the mission resolver that succeeds. */
  lemma ResolvedStep(env: Evidence, c: Chain, at: Resolved, sequence: nat, limit: nat)
    requires sequence < limit <= MAX_MIGRATIONS && (sequence > 0 ==> BoundAt(c, sequence))
    requires at == StandsAt(c, sequence) && MissionFrom(env, c, at, sequence, limit).Ok?
    requires sequence + 1 in c.migrations
    ensures GoesOn(env, c, sequence + 1) && SourceVerifies(env, c, c.migrations[sequence + 1])
    ensures sequence + 1 in c.receipts ==>
      && BoundAt(c, sequence + 1)
      && MissionFrom(env, c, at, sequence, limit)
         == MissionFrom(env, c, StandsAt(c, sequence + 1), sequence + 1, limit)
      && MissionFrom(env, c, at, sequence, sequence + 1) == Ok((StandsAt(c, sequence + 1), sequence + 1))
    ensures sequence + 1 !in c.receipts ==> MissionFrom(env, c, at, sequence, limit).value.1 == sequence + 1
  {
  }

  lemma VerifiedChangesRuntime(env: Evidence, c: Chain, sequence: nat, before: Resolved)
    requires sequence + 1 in c.migrations && c.migrations[sequence + 1].sequence == sequence + 1
    requires SourceVerifies(env, c, c.migrations[sequence + 1])
    requires MissionRuntime(env, c, sequence) == Ok((before, sequence))
    ensures ChangesTheRuntimeAlone(env, c.migrations[sequence + 1], before.identity)
  {
  }

  lemma StandsOneFurther(env: Evidence, c: Chain, at: Resolved, sequence: nat)
    requires sequence < MAX_MIGRATIONS && MissionRuntime(env, c, sequence) == Ok((at, sequence))
    requires forall k: nat :: 1 <= k <= sequence ==> k in c.migrations && k in c.receipts
    requires BoundAt(c, sequence + 1)
    requires MissionFrom(env, c, at, sequence, sequence + 1) == Ok((StandsAt(c, sequence + 1), sequence + 1))
    ensures MissionRuntime(env, c, sequence + 1) == Ok((StandsAt(c, sequence + 1), sequence + 1))
  {
    MissionComposes(env, c, BaseOf(c), 0, sequence, sequence + 1);
  }

  /** An answer of the mission resolver that the records bear out. */
  ghost predicate ResolvesAt(env: Evidence, c: Chain, limit: nat, x: Resolved, n: nat) {
    && n <= limit && LinkedThrough(env, c, n)
    && (n == 0 ==> x == BaseOf(c))
    && (n > 0 ==> n in c.migrations && x.identity.generation == c.migrations[n].generation)
    && (n > 0 && n in c.receipts ==> BoundAt(c, n) && x == StandsAt(c, n))
    && (n < limit ==> n + 1 !in c.migrations || n !in c.receipts)
  }

  lemma {:induction false} ResolvedIsLinkedFrom(env: Evidence, c: Chain, sequence: nat, limit: nat, at: Resolved)
    requires sequence <= limit <= MAX_MIGRATIONS && LinkedThrough(env, c, sequence)
    requires forall k: nat {:trigger BoundAt(c, k)} :: 1 <= k <= sequence ==> BoundAt(c, k)
    requires at == StandsAt(c, sequence) && MissionFrom(env, c, at, sequence, limit).Ok?
    requires MissionRuntime(env, c, sequence) == Ok((at, sequence))
    ensures var (x, n) := MissionFrom(env, c, at, sequence, limit).value;
      sequence <= n && ResolvesAt(env, c, limit, x, n)
    decreases limit - sequence
  {
    if sequence > 0 {
      assert BoundAt(c, sequence);
    }
    if sequence < limit && sequence + 1 in c.migrations {
      ResolvedStep(env, c, at, sequence, limit);
      VerifiedChangesRuntime(env, c, sequence, at);
      LinkedOneFurther(env, c, sequence);
      if sequence + 1 in c.receipts {
        BoundOneFurther(c, sequence);
        StandsOneFurther(env, c, at, sequence);
        ResolvedIsLinkedFrom(env, c, sequence + 1, limit, StandsAt(c, sequence + 1));
      } else {
        PendingKeepsGeneration(env, c, at, sequence, limit);
      }
    }
  }

  lemma BoundOneFurther(c: Chain, sequence: nat)
    requires forall k: nat {:trigger BoundAt(c, k)} :: 1 <= k <= sequence ==> BoundAt(c, k)
    requires BoundAt(c, sequence + 1)
    ensures forall k: nat {:trigger BoundAt(c, k)} :: 1 <= k <= sequence + 1 ==> BoundAt(c, k)
    ensures forall k: nat :: 1 <= k <= sequence ==> k in c.migrations && k in c.receipts
  {
    forall k: nat | 1 <= k <= sequence ensures k in c.migrations && k in c.receipts {
      assert BoundAt(c, k);
    }
  }

  lemma PendingKeepsGeneration(env: Evidence, c: Chain, at: Resolved, sequence: nat, limit: nat)
    requires sequence < limit && sequence + 1 in c.migrations && sequence + 1 !in c.receipts
    requires MissionFrom(env, c, at, sequence, limit).Ok?
    ensures var x := MissionFrom(env, c, at, sequence, limit).value.0;
      x.identity.generation == c.migrations[sequence + 1].generation
  {
  }

  lemma LinkedOneFurther(env: Evidence, c: Chain, n: nat)
    requires LinkedThrough(env, c, n) && (n > 0 ==> BoundAt(c, n)) && n + 1 in c.migrations
    requires GoesOn(env, c, n + 1)
    requires ChangesTheRuntimeAlone(env, c.migrations[n + 1], StandsAt(c, n).identity)
    ensures LinkedThrough(env, c, n + 1)
  {
    assert LinkedAt(env, c, n + 1);
  }

  /** Whatever resolves is linked: on any records at all, a mission that resolves to its n-th
      migration has n migrations that each go on from the one before, all bound but possibly the
      last, each changing the runtime alone. */
  lemma ResolvedIsLinked(env: Evidence, c: Chain, through: nat)
    requires MissionRuntime(env, c, through).Ok?
    ensures var (x, n) := MissionRuntime(env, c, through).value;
      ResolvesAt(env, c, Min(through, 16), x, n)
  {
    assert MissionRuntime(env, c, 0) == Ok((BaseOf(c), 0));
    ResolvedIsLinkedFrom(env, c, 0, Min(through, MAX_MIGRATIONS), BaseOf(c));
  }

  /** The authority a mission was given first never changes along a chain that resolves. */
  lemma {:induction false} AuthorityNeverChanges(env: Evidence, c: Chain, n: nat, k: nat)
    requires LinkedThrough(env, c, n) && 1 <= k <= n
    ensures k in c.migrations && c.migrations[k].authority == BaseOf(c).identity.authority
    ensures BoundAt(c, k) ==> StandsAt(c, k).identity.authority == BaseOf(c).identity.authority
  {
    assert LinkedAt(env, c, k);
    if k > 1 {
      AuthorityNeverChanges(env, c, n, k - 1);
    }
  }

  // ----- which segments resolve -----

  /** A segment that resolves from a sealed reference has the very migration it was sealed with, of its
      own run or its predecessor's, with a source that verifies. */
  lemma ReferenceStands(env: Evidence, c: Chain, segment: Segment)
    requires SegmentRuntime(env, c, segment).Ok? && segment.reference.Some?
    ensures var r := segment.reference.value;
      && 1 <= r.sequence <= MAX_MIGRATIONS && r.sequence in c.migrations
      && var m := c.migrations[r.sequence];
      && r.sha == OfMigration(m) && m.missionId == c.missionId && m.sequence == r.sequence
      && m.generation == r.generation && SourceVerifies(env, c, m)
      && (m.schema == V2 ==> m.sourceRun == segment.runId || m.sourceRun == segment.predecessorRun)
      && (m.schema == V2 && m.identity.Some? ==>
            var before := MissionRuntime(env, c, m.sequence - 1);
            && before.Ok? && before.value.1 == m.sequence - 1
            && before.value.0.sha == m.previousIdentitySha
            && before.value.0.identity.generation == m.previousGeneration
            && ChangesTheRuntimeAlone(env, m, before.value.0.identity))
  {
  }

  /** The identity a segment resolves to at a migration is the one its receipt binds or it names. */
  predicate AuthorizedAt(c: Chain, k: nat, x: Resolved)
    requires k in c.migrations
  {
    var m := c.migrations[k];
    && x.tag == Some(k) && x.identity.generation == m.generation && x.identity.authority == m.authority
    && if k in c.receipts then
         && c.receipts[k].missionId == c.missionId && c.receipts[k].sequence == k
         && c.receipts[k].migrationSha == OfMigration(m) && c.receipts[k].identity == Some(x.identity)
         && (m.identity.Some? ==> m.identity == Some(x.identity)) && x.sha == OfReceipt(c.receipts[k])
       else
         && x.identity.missionId == c.missionId && x.sha == OfMigration(m)
         && (if m.identity.Some? then m.identity == Some(x.identity) else x.identity.capability == None)
  }

  /** ... and it goes on only along its own run's migrations, each continuing the one before, until
      there is no further one of its own. */
  lemma {:induction false} OwnTailStands(env: Evidence, c: Chain, segment: Segment, at: Resolved, sequence: nat)
    requires sequence <= MAX_MIGRATIONS && SegmentFrom(env, c, segment, at, sequence).Ok?
    ensures var (x, n) := SegmentFrom(env, c, segment, at, sequence).value;
      && sequence <= n <= MAX_MIGRATIONS
      && (n == sequence ==> x == at)
      && (n > sequence ==> n in c.migrations && AuthorizedAt(c, n, x))
      && (forall k :: sequence < k <= n ==>
            && k in c.migrations && c.migrations[k].schema == V2 && c.migrations[k].activeSegmentResume
            && c.migrations[k].sourceRun == segment.runId && c.migrations[k].missionId == c.missionId
            && c.migrations[k].sequence == k && c.migrations[k].authority == at.identity.authority
            && SourceVerifies(env, c, c.migrations[k]))
      && (n < MAX_MIGRATIONS && n + 1 in c.migrations ==>
            || c.migrations[n + 1].schema != V2 || !c.migrations[n + 1].activeSegmentResume
            || c.migrations[n + 1].sourceRun != segment.runId)
    decreases MAX_MIGRATIONS - sequence
  {
    if sequence < MAX_MIGRATIONS && sequence + 1 in c.migrations && OwnMigration(c.migrations[sequence + 1], segment) {
      OwnTailStands(env, c, segment, FromMigration(c, c.migrations[sequence + 1], sequence + 1).value, sequence + 1);
    }
  }

  // ----- bindings -----

  /** Before its first migration a mission runs under its base, or under its own name and generation
      with neither authority nor capability; and no reader goes past the sixteenth migration. */
  lemma MissionStartsAt(env: Evidence, c: Chain, segment: Segment, through: nat)
    ensures var start := if c.base.Some? then c.base.value else Identity(c.missionId, c.missionGeneration, None, None);
      && MissionRuntime(env, c, 0) == Ok((Resolved(start, None, OfIdentity(start)), 0))
      && (1 !in c.migrations ==> MissionRuntime(env, c, through) == MissionRuntime(env, c, 0))
      && (segment.reference.None? ==>
            SegmentRuntime(env, c, segment)
            == SegmentFrom(env, c, segment, Resolved(start, None, OfIdentity(start)), 0))
    ensures through > 16 ==> MissionRuntime(env, c, through) == MissionRuntime(env, c, 16)
    ensures through <= 16 && MissionRuntime(env, c, through).Ok? ==>
              var n := MissionRuntime(env, c, through).value.1;
              n < through ==> n + 1 !in c.migrations || n !in c.receipts
  {
    if through <= 16 && MissionRuntime(env, c, through).Ok? {
      ResolvedIsLinked(env, c, through);
    }
  }

  /** What a binding is, on any records at all.  A segment that resolves to the base binds the first
      identity, once, in the mission's generation; one that resolves to a migration binds that
      migration, once, in the generation and under the authority resolved to, and to the very
      identity the migration names if it names one.  Nothing else changes. */
  lemma BindingIsAsResolved(env: Evidence, c: Chain, segment: Segment, p: Payload)
    requires SegmentRuntime(env, c, segment).Ok?
    ensures var x := SegmentRuntime(env, c, segment).value.0;
      var identity := Identity(c.missionId, p.generation, Some(p.authority), Some(p.capability));
      var r := Bind(env, c, segment, p);
      match x.tag
      case None =>
        && (r.Ok? <==> p.generation == c.missionGeneration && (c.base.None? || c.base == Some(identity)))
        && (r.Ok? ==> r.value == c.(base := Some(identity)))
      case Some(k) =>
        && (r.Ok? ==>
              && k in c.migrations && BindsAt(c, k, x.identity, identity)
              && var receipt := Receipt(c.missionId, k, OfMigration(c.migrations[k]), Some(identity));
              r.value == c.(receipts := c.receipts[k := receipt]))
        && (k in c.migrations && BindsAt(c, k, x.identity, identity) ==> r.Ok?)
  {
  }

  /** This identity may be bound to the k-th migration where a segment resolves to `expected`. */
  predicate BindsAt(c: Chain, k: nat, expected: Identity, identity: Identity)
    requires k in c.migrations
  {
    var m := c.migrations[k];
    && m.missionId == c.missionId && m.sequence == k
    && m.generation == expected.generation && identity.generation == expected.generation
    && identity.authority == expected.authority
    && (m.identity.Some? ==> m.identity == Some(identity))
    && (k in c.receipts ==> c.receipts[k] == Receipt(c.missionId, k, OfMigration(m), Some(identity)))
  }
}
