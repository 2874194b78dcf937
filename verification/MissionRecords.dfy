/**
 The mission's record directory, and the loops and create-once writes that work on it.
 */
module MissionRecords {
  import opened Wrappers
  import opened RuntimeChain

  class RecordDirectory {
    const missionId: string
    const missionGeneration: string
    const env: Evidence
    var base: Option<Identity>
    var migrations: map<nat, Migration>
    var receipts: map<nat, Receipt>

    constructor (env: Evidence, missionId: string, missionGeneration: string)
      ensures this.env == env && Records() == Chain(missionId, missionGeneration, None, map[], map[])
    {
      this.env, this.missionId, this.missionGeneration := env, missionId, missionGeneration;
      base, migrations, receipts := None, map[], map[];
    }

    function Records(): Chain
      reads this
    {
      Chain(missionId, missionGeneration, base, migrations, receipts)
    }

    // ----- create-once publication -----

    method WriteBase(identity: Identity) returns (r: Result<Digest, ChainError>)
      modifies this`base
      ensures r.Ok? <==> old(base) in {None, Some(identity)}
      ensures r.Ok? ==> base == Some(identity) && r.value == OfIdentity(identity)
      ensures r.Err? ==> base == old(base)
    {
      if base.Some? {
        return if base.value == identity then Ok(OfIdentity(identity)) else Err(Conflict);
      }
      base := Some(identity);
      return Ok(OfIdentity(identity));
    }

    method WriteMigration(m: Migration) returns (r: Result<Digest, ChainError>)
      modifies this`migrations
      ensures r.Ok? <==> m.sequence !in old(migrations) || old(migrations)[m.sequence] == m
      ensures r.Ok? ==> migrations == old(migrations)[m.sequence := m] && r.value == OfMigration(m)
      ensures r.Err? ==> migrations == old(migrations)
    {
      if m.sequence in migrations {
        return if migrations[m.sequence] == m then Ok(OfMigration(m)) else Err(Conflict);
      }
      migrations := migrations[m.sequence := m];
      return Ok(OfMigration(m));
    }

    method WriteReceipt(receipt: Receipt) returns (r: Result<Digest, ChainError>)
      modifies this`receipts
      ensures r.Ok? <==> receipt.sequence !in old(receipts) || old(receipts)[receipt.sequence] == receipt
      ensures r.Ok? ==> receipts == old(receipts)[receipt.sequence := receipt] && r.value == OfReceipt(receipt)
      ensures r.Err? ==> receipts == old(receipts)
    {
      if receipt.sequence in receipts {
        return if receipts[receipt.sequence] == receipt then Ok(OfReceipt(receipt)) else Err(Conflict);
      }
      receipts := receipts[receipt.sequence := receipt];
      return Ok(OfReceipt(receipt));
    }

    // ----- the two resolvers and the verifier that calls back into one of them -----

    /** Follows bound migrations, stopping at the limit, at a gap, or at one not yet bound. */
    method ActiveMissionRuntime(through: nat) returns (r: Resolution)
      ensures r == MissionRuntime(env, Records(), through)
      decreases through, 1
    {
      var limit := if through < MAX_MIGRATIONS then through else MAX_MIGRATIONS;
      var at, sequence := BaseOf(Records()), 0;
      while sequence < limit
        invariant sequence <= limit
        invariant MissionRuntime(env, Records(), through) == MissionFrom(env, Records(), at, sequence, limit)
      {
        if sequence + 1 !in migrations {
          break;
        }
        var m := migrations[sequence + 1];
        if !Continues(Records(), m, sequence + 1, at) {
          return Err(Discontinuous);
        }
        var verified := VerifyMigrationSource(m);
        if !verified {
          return Err(SourceInvalid);
        }
        if sequence + 1 !in receipts {
          var pending := FromMigration(Records(), m, sequence + 1);
          return if pending.Err? then Err(pending.error) else Ok((pending.value, sequence + 1));
        }
        var bound := FromReceipt(Records(), m, sequence + 1);
        if bound.Err? {
          return Err(bound.error);
        }
        at, sequence := bound.value, sequence + 1;
      }
      return Ok((at, sequence));
    }

    /** Calls the mission resolver on the prefix strictly before the migration's own number. */
    method VerifyMigrationSource(m: Migration) returns (verified: bool)
      ensures verified == SourceVerifies(env, Records(), m)
      decreases m.sequence, 0
    {
      if m.schema == V1 {
        return env.holds(m);
      }
      if !LocallyValid(env, m) {
        return false;
      }
      if m.identity.None? {
        return true;
      }
      if m.sequence < 1 {
        return false;
      }
      var previous := ActiveMissionRuntime(m.sequence - 1);
      return previous.Ok? && previous.value.1 == m.sequence - 1 && FollowsFrom(env, m, previous.value.0);
    }

    /** Starts at the segment's sealed reference and follows the migrations its own run has made. */
    method RuntimeForSegment(segment: Segment) returns (r: Resolution)
      ensures r == SegmentRuntime(env, Records(), segment)
    {
      var at, sequence := BaseOf(Records()), 0;
      if segment.reference.Some? {
        var reference := segment.reference.value;
        if !(1 <= reference.sequence <= MAX_MIGRATIONS) || reference.sequence !in migrations {
          return Err(ReferenceInvalid);
        }
        var m := migrations[reference.sequence];
        if || OfMigration(m) != reference.sha || m.missionId != missionId
           || m.sequence != reference.sequence || m.generation != reference.generation
        {
          return Err(ReferenceInvalid);
        }
        var verified := VerifyMigrationSource(m);
        if !verified {
          return Err(SourceInvalid);
        }
        if m.schema == V2 && m.sourceRun != segment.runId && m.sourceRun != segment.predecessorRun {
          return Err(ReferenceInvalid);
        }
        var start := FromMigration(Records(), m, reference.sequence);
        if start.Err? {
          return Err(start.error);
        }
        at, sequence := start.value, reference.sequence;
      }
      while sequence < MAX_MIGRATIONS
        invariant sequence <= MAX_MIGRATIONS
        invariant SegmentRuntime(env, Records(), segment) == SegmentFrom(env, Records(), segment, at, sequence)
      {
        if sequence + 1 !in migrations || !OwnMigration(migrations[sequence + 1], segment) {
          break;
        }
        var m := migrations[sequence + 1];
        if !Continues(Records(), m, sequence + 1, at) {
          return Err(Discontinuous);
        }
        var verified := VerifyMigrationSource(m);
        if !verified {
          return Err(SourceInvalid);
        }
        var next := FromMigration(Records(), m, sequence + 1);
        if next.Err? {
          return Err(next.error);
        }
        at, sequence := next.value, sequence + 1;
      }
      return Ok((at, sequence));
    }

    // ----- the two writers -----

    method BindRuntimeIdentity(segment: Segment, p: Payload) returns (r: Result<Digest, ChainError>)
      modifies this`base, this`receipts
      ensures var after := Bind(env, old(Records()), segment, p);
        r.Ok? == after.Ok? && Records() == if after.Ok? then after.value else old(Records())
      ensures r.Ok? && r.value.OfIdentity? ==> base == Some(r.value.identity)
      ensures r.Ok? && r.value.OfReceipt? ==>
        r.value.receipt.sequence in receipts && receipts[r.value.receipt.sequence] == r.value.receipt
      ensures r.Ok? ==> !r.value.OfMigration?
    {
      var identity := IdentityFor(Records(), p);
      var expected := RuntimeForSegment(segment);
      if expected.Err? {
        return Err(expected.error);
      }
      if expected.value.0.tag.None? {
        if p.generation != missionGeneration {
          return Err(Mismatch);
        }
        r := WriteBase(identity);
        return;
      }
      var sequence := expected.value.0.tag.value;
      if sequence !in migrations {
        return Err(ReferenceInvalid);
      }
      var m := migrations[sequence];
      if || m.missionId != missionId || m.sequence != sequence || m.generation != expected.value.0.identity.generation
         || p.generation != expected.value.0.identity.generation
         || identity.authority != expected.value.0.identity.authority
         || (m.identity.Some? && m.identity.value != identity)
      {
        return Err(Mismatch);
      }
      r := WriteReceipt(Receipt(missionId, sequence, OfMigration(m), Some(identity)));
    }

    method PrepareGenerationResume(segment: Segment, resume: Resume) returns (r: Result<nat, ChainError>)
      modifies this`migrations
      ensures var after := Prepare(env, old(Records()), segment, resume);
        r.Ok? == after.Ok? && Records() == if after.Ok? then after.value else old(Records())
      ensures r.Ok? && r.value > 0 ==>
        r.value in migrations && migrations[r.value].generation == resume.target.generation
      ensures r.Ok? ==>
        var active := MissionRuntime(env, old(Records()), MAX_MIGRATIONS);
        active.Ok? && r.value == PreparedNumber(active.value, resume)
    {
      var active := ActiveMissionRuntime(MAX_MIGRATIONS);
      if active.Err? {
        return Err(active.error);
      }
      var (identity, sequence) := active.value;
      if resume.previousGeneration == resume.target.generation && resume.capabilityRef.None? {
        return if RunsInstalled(env, identity, resume.installed) then Ok(0) else Err(Mismatch);
      }
      if env.fingerprint(resume.target.capability) != resume.installed {
        return Err(Mismatch);
      }
      if identity.identity.generation == resume.target.generation && sequence > 0 {
        var replayed := Replay(env, Records(), segment, sequence, resume);
        return if replayed.Ok? then Ok(sequence) else Err(replayed.error);
      }
      if identity.identity.generation != resume.previousGeneration {
        return Err(Mismatch);
      }
      if sequence > 0 && sequence !in receipts {
        return Err(NotBound);
      }
      r := AppendMigration(segment, identity, sequence, resume);
    }

    /** The number of the migration a resume is answered with: none when it asks for nothing, the last
        one when the mission runs in the target generation by it, and the next one otherwise. */
    static function PreparedNumber(active: (Resolved, nat), resume: Resume): nat {
      if resume.previousGeneration == resume.target.generation && resume.capabilityRef.None? then 0
      else if active.0.identity.generation == resume.target.generation && active.1 > 0 then active.1
      else active.1 + 1
    }

    /** The migration that follows the active identity, once the segment's own has been proven. */
    method AppendMigration(segment: Segment, active: Resolved, sequence: nat, resume: Resume)
      returns (r: Result<nat, ChainError>)
      modifies this`migrations
      ensures var after := PrepareNext(env, old(Records()), segment, active, sequence, resume);
        r.Ok? == after.Ok? && Records() == if after.Ok? then after.value else old(Records())
      ensures r.Ok? ==>
        && r.value == sequence + 1 && r.value in migrations
        && migrations[r.value].generation == resume.target.generation
    {
      var expected := RuntimeForSegment(segment);
      if expected.Err? {
        return Err(expected.error);
      }
      var own := expected.value.0.identity;
      var m := MigrationFor(Records(), segment, active, sequence, resume);
      if || own.generation != resume.previousGeneration
         || own.authority != Some(resume.target.authority)
         || own.authority != active.identity.authority
         || own.capability != Leaving(env, resume)
         || !LocallyValid(env, m)
         || (resume.capabilityRef.None? && Some(resume.target.capability) != active.identity.capability)
      {
        return Err(Mismatch);
      }
      var written := WriteMigration(m);
      return if written.Ok? then Ok(sequence + 1) else Err(Conflict);
    }
  }
}
