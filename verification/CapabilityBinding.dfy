/**
 The run's binding authority as a mutable object: the active binding file and the migration
 history directory, changed one atomic publication at a time.

 A process may die between any two publications.  `life` is how many publications a call lives
 to make, so a statement for all `life` is a statement for every moment of death.  Calls hold an
 exclusive lock that a dying process releases, so they follow one another.
 */
module CapabilityBinding {
  import opened Wrappers
  import opened Crashes
  import opened BindingStore
  import opened BindingRuns

  class RunBindingStore {
    const runId: string
    var active: Option<Binding>
    var history: seq<Directory>

    ghost function Snapshot(): Store
      reads this
    {
      Store(active, history)
    }

    constructor (runId: string)
      ensures this.runId == runId && Snapshot() == Unbound
    {
      this.runId := runId;
      active, history := None, [];
    }

    // ----- the atomic publications -----

    method MakeDirectory(name: DirectoryName)
      modifies this`history
      ensures Snapshot() == Apply(old(Snapshot()), Publication.MakeDirectory(name))
    {
      history := history + [Directory(name, None, None, None)];
    }

    method Publish(p: Publication)
      requires p.PublishPrevious? || p.PublishNext? || p.PublishRecord?
      modifies this`history
      ensures Snapshot() == Apply(old(Snapshot()), p)
    {
      var h := history;
      history := seq(|h|, i requires 0 <= i < |h| => WriteIn(h[i], p));
    }

    method ReplaceActive(b: Binding)
      modifies this`active
      ensures Snapshot() == Apply(old(Snapshot()), Publication.ReplaceActive(b))
    {
      active := Some(b);
    }

    // ----- reading -----

    /** Reads every numbered directory, and refuses the history as a whole if one does not read. */
    method Inventory() returns (r: Option<(seq<Record>, seq<Directory>)>)
      ensures r.Some? <==> HistoryReadable(runId, history)
      ensures r.Some? ==> r.value.0 == SortBySequence(RecordsOf(history)) && r.value.1 == PartialsOf(history)
    {
      var records: seq<Record>, partials: seq<Directory> := [], [];
      for i := 0 to |history|
        invariant records == RecordsOf(history[..i]) && partials == PartialsOf(history[..i])
        invariant forall k :: 0 <= k < i ==> DirectoryReadable(runId, history[k])
      {
        var d := history[i];
        if !DirectoryReadable(runId, d) {
          return None;
        }
        assert history[..i + 1][..i] == history[..i];
        if d.record.Some? {
          records := records + [d.record.value];
        } else {
          partials := partials + [d];
        }
      }
      assert history[..|history|] == history;
      return Some((SortBySequence(records), partials));
    }

    /** Walks the completed records once, carrying the previous record's and binding's digests. */
    static method ValidateChain(records: seq<Record>, active: Binding) returns (ok: bool)
      ensures ok <==> ChainAccepted(records, active)
    {
      var complete, prepared := Completed(records), PreparedOnes(records);
      if |prepared| > 1 {
        return false;
      }
      var priorRecord: Option<Digest>, priorBinding: Option<Digest> := None, None;
      for k := 0 to |complete|
        invariant forall i :: 0 <= i < k ==> LinkedAt(complete, i)
        invariant priorRecord == PriorSha(complete, k)
        invariant priorBinding == if k == 0 then None else Some(complete[k - 1].body.nextSha)
      {
        var r := complete[k].body;
        if || r.sequence != k + 1
           || r.previousSha != r.previous.sha
           || r.nextSha != r.next.sha
           || r.priorRecordSha != priorRecord
           || (priorBinding.Some? && Some(r.previousSha) != priorBinding)
        {
          assert !LinkedAt(complete, k);
          return false;
        }
        priorRecord, priorBinding := Some(complete[k].sha), Some(r.nextSha);
      }
      if prepared != [] {
        var p := prepared[0].body;
        return && p.sequence == |complete| + 1
               && p.previousSha == p.previous.sha
               && p.nextSha == p.next.sha
               && p.priorRecordSha == priorRecord
               && (priorBinding.Some? ==> Some(p.previousSha) == priorBinding)
               && (active.sha == p.previousSha || active.sha == p.nextSha);
      }
      return priorBinding.Some? ==> Some(active.sha) == priorBinding;
    }

    /** Finds a binding by digest: the active one, else either side of a completed record. */
    method HistoricalBinding(sha: Digest) returns (r: Option<Binding>)
      ensures r.Some? ==> r.value.sha == sha && Authentic(r.value) && Preserved(Snapshot(), r.value)
      ensures active.Some? && Authentic(active.value) && HistoryReadable(runId, history) ==>
                (r.None? ==> forall b: Binding :: b.sha == sha ==> !Preserved(Snapshot(), b))
    {
      if active.None? || !Authentic(active.value) {
        return None;
      }
      if active.value.sha == sha {
        return active;
      }
      var read := Inventory();
      if read.None? || read.value.1 != [] {
        return None;
      }
      var records := read.value.0;
      SortKeepsMembers(RecordsOf(history));
      for i := 0 to |records|
        invariant forall k :: 0 <= k < i && records[k].body.status.Complete? ==>
          records[k].body.previous.sha != sha && records[k].body.next.sha != sha
      {
        var body := records[i].body;
        assert records[i] in records;
        ReadableRecords(runId, history, records[i]);
        if body.status.Complete? {
          if body.previous.sha == sha {
            return Some(body.previous);
          }
          if body.next.sha == sha {
            return Some(body.next);
          }
        }
      }
      return None;
    }

    // ----- the two writers -----

    /** Creates the first binding, and refuses any later resolution that differs from it. */
    method EnsureRunBinding(projection: Projection, allowCreate: bool) returns (r: Option<Binding>)
      modifies this`active
      ensures Snapshot() == Ensured(runId, old(Snapshot()), projection, allowCreate)
      ensures r.Some? <==>
        if old(active).None? then allowCreate
        else Authentic(old(active).value) && old(active).value.projection == projection
      ensures r.Some? ==> r == active && r.value.sha == OfProjection(projection)
    {
      var digest := OfProjection(projection);
      if active.Some? {
        if !Authentic(active.value) || active.value.sha != digest || active.value.projection != projection {
          return None;
        }
        return active;
      }
      if !allowCreate {
        return None;
      }
      active := Some(BindingFor(runId, projection));
      return active;
    }

    /** One migration call that lives to make `life` publications. */
    method MigrateRunBinding(req: Request, life: nat) returns (outcome: Outcome)
      modifies this
      ensures Snapshot() == Attempt(runId, old(Snapshot()), req, life)
      ensures outcome == AttemptOutcome(runId, old(Snapshot()), req, life)
    {
      if !req.admissible {
        return Refused(NotAdmissible);
      }
      if active.None? || !Authentic(active.value) {
        return Refused(ActiveUnreadable);
      }
      var previous, next := active.value, BindingFor(runId, req.projection);
      var read := Inventory();
      if read.None? {
        return Refused(HistoryInvalid);
      }
      var records, partials := read.value.0, read.value.1;
      var accepted := ValidateChain(records, previous);
      if !accepted {
        return Refused(ChainInvalid);
      }
      if partials != [] {
        outcome := RecoverPartial(previous, records, partials, req, next, life);
      } else if PreparedOnes(records) != [] {
        outcome := FinishPending(PreparedOnes(records)[0], req, next, life);
      } else {
        outcome := StartMigration(previous, records, req, next, life);
      }
    }

    /** A record was never published: publish what is missing, then finish the migration. */
    method RecoverPartial(previous: Binding, records: seq<Record>, partials: seq<Directory>, req: Request,
                          next: Binding, life: nat) returns (outcome: Outcome)
      requires partials != [] && active == Some(previous)
      modifies this
      ensures var plan := PlanPartial(runId, previous, records, partials, req, next);
        && Snapshot() == ApplyAll(old(Snapshot()), FirstSteps(plan.steps, life))
        && outcome == if life < |plan.steps| then Died else plan.outcome
    {
      var d := partials[0];
      if |partials| != 1 {
        return Refused(MultiplePartial);
      }
      if || d.name.prefix != Label(next.sha)
         || d.name.sequence != MaxSequence(records) + 1
         || (d.previous.Some? && d.previous.value != previous)
         || (d.next.Some? && d.next.value != next)
         || previous.sha == next.sha
      {
        return Refused(PartialMismatch);
      }
      var record := NewRecord(runId, d.name, d.name.sequence, previous, next, req, LatestComplete(records));
      outcome := CompletePartial(d, record, previous, records, req, next, life);
    }

    method CompletePartial(d: Directory, record: Record, previous: Binding, records: seq<Record>, req: Request,
                           next: Binding, life: nat) returns (outcome: Outcome)
      requires active == Some(previous)
      modifies this
      ensures var plan := Then(Evidence(d, record, previous, next), PlanRecorded(previous, records, record, req, next));
        && Snapshot() == ApplyAll(old(Snapshot()), FirstSteps(plan.steps, life))
        && outcome == if life < |plan.steps| then Died else plan.outcome
    {
      ghost var evidence := Evidence(d, record, previous, next);
      ghost var rest := PlanRecorded(previous, records, record, req, next);
      PrefixOfParts(Apply, Snapshot(), evidence, rest.steps, life);
      EvidenceKeepsActive(Snapshot(), d, record, previous, next);
      var died := PublishEvidence(d, record, previous, next, life);
      if died {
        return Died;
      }
      assert FirstSteps(evidence, |evidence|) == evidence;
      if PreparedOnes(records) != [] {
        return Refused(MultiplePrepared);
      }
      outcome := FinishPending(record, req, next, life - PublicationsLeft(d));
    }

    /** Publishes the missing snapshots and then the record. */
    method PublishEvidence(d: Directory, record: Record, previous: Binding, next: Binding, life: nat)
      returns (died: bool)
      modifies this`history
      ensures Snapshot() == ApplyAll(old(Snapshot()), FirstSteps(Evidence(d, record, previous, next), life))
      ensures died <==> life < |Evidence(d, record, previous, next)|
      ensures !died ==> Snapshot() == ApplyAll(old(Snapshot()), Evidence(d, record, previous, next))
    {
      ghost var steps := Evidence(d, record, previous, next);
      if d.previous.None? {
        if life == 0 { return true; }
        Publish(PublishPrevious(d.name, previous));
        Unfold(Apply, old(Snapshot()), steps, 1);
      }
      if d.next.None? {
        if life == (if d.previous.None? then 1 else 0) { return true; }
        Publish(PublishNext(d.name, next));
        Unfold(Apply, old(Snapshot()), steps, |steps| - 1);
      }
      if life == PublicationsLeft(d) - 1 { return true; }
      Publish(PublishRecord(d.name, record));
      Unfold(Apply, old(Snapshot()), steps, |steps|);
      return false;
    }

    /** A prepared record is the one recovery target: switch if that is still to do, and complete. */
    method FinishPending(pending: Record, req: Request, next: Binding, life: nat) returns (outcome: Outcome)
      requires active.Some?
      modifies this
      ensures var plan := PlanPending(old(active).value, pending, req, next);
        && Snapshot() == ApplyAll(old(Snapshot()), FirstSteps(plan.steps, life))
        && outcome == if life < |plan.steps| then Died else plan.outcome
    {
      ghost var start := Snapshot();
      ghost var plan := PlanPending(active.value, pending, req, next);
      assert FirstSteps(plan.steps, 0) == [];
      if next.sha != pending.body.nextSha {
        return Refused(PreparedMismatch);
      }
      var left := life;
      ghost var done: seq<Publication> := [];
      if active.value.sha == pending.body.previousSha {
        if left == 0 { return Died; }
        ReplaceActive(pending.body.next);
        RunAllAppends(Apply, start, done, Publication.ReplaceActive(pending.body.next));
        left, done := left - 1, done + [Publication.ReplaceActive(pending.body.next)];
      } else if active.value.sha != pending.body.nextSha {
        return Refused(ActiveOutsideFrontier);
      }
      if left == 0 {
        assert done == FirstSteps(plan.steps, life);
        return Died;
      }
      var complete := Finished(pending, req);
      Publish(PublishRecord(pending.body.directory, complete));
      RunAllAppends(Apply, start, done, PublishRecord(pending.body.directory, complete));
      assert done + [PublishRecord(pending.body.directory, complete)] == FirstSteps(plan.steps, life);
      return Done(complete, true);
    }

    /** A fresh migration from a quiescent frontier. */
    method StartMigration(previous: Binding, records: seq<Record>, req: Request, next: Binding, life: nat)
      returns (outcome: Outcome)
      requires active == Some(previous)
      modifies this
      ensures var plan := PlanSettled(runId, previous, old(history), records, req, next);
        && Snapshot() == ApplyAll(old(Snapshot()), FirstSteps(plan.steps, life))
        && outcome == if life < |plan.steps| then Died else plan.outcome
    {
      ghost var start := Snapshot();
      ghost var plan := PlanSettled(runId, previous, history, records, req, next);
      var latest := LatestComplete(records);
      if previous.sha == next.sha && previous.projection == next.projection {
        if latest.Some? && latest.value.body.nextSha == next.sha {
          return Done(latest.value, true);
        }
        return Refused(NoMigrationEvidence);
      }
      var sequence := MaxSequence(records) + 1;
      var name := DirectoryName(sequence, Label(next.sha));
      if exists d :: d in history && d.name == name {
        return Refused(DirectoryCollision);
      }
      var record := NewRecord(runId, name, sequence, previous, next, req, latest);
      ghost var opening := [Publication.MakeDirectory(name), PublishPrevious(name, previous), PublishNext(name, next)];
      ghost var closing := [PublishRecord(name, record), Publication.ReplaceActive(next),
                            PublishRecord(name, Finished(record, req))];
      assert plan.steps == opening + closing;
      OpenMigration(name, previous, next, life);
      PrefixOfParts(Apply, start, opening, closing, life);
      assert opening[..3] == opening;
      if life < 3 {
        return Died;
      }
      outcome := CommitMigration(name, record, next, req, life - 3);
    }

    method OpenMigration(name: DirectoryName, previous: Binding, next: Binding, life: nat)
      modifies this`history
      ensures Snapshot() == ApplyAll(old(Snapshot()), FirstSteps(
                [Publication.MakeDirectory(name), PublishPrevious(name, previous), PublishNext(name, next)], life))
    {
      ghost var steps := [Publication.MakeDirectory(name), PublishPrevious(name, previous), PublishNext(name, next)];
      if life == 0 { return; }
      MakeDirectory(name);
      Unfold(Apply, old(Snapshot()), steps, 1);
      if life == 1 { return; }
      Publish(PublishPrevious(name, previous));
      Unfold(Apply, old(Snapshot()), steps, 2);
      if life == 2 { return; }
      Publish(PublishNext(name, next));
      Unfold(Apply, old(Snapshot()), steps, 3);
    }

    method CommitMigration(name: DirectoryName, record: Record, next: Binding, req: Request, life: nat)
      returns (outcome: Outcome)
      modifies this
      ensures var steps := [PublishRecord(name, record), Publication.ReplaceActive(next),
                            PublishRecord(name, Finished(record, req))];
        && Snapshot() == ApplyAll(old(Snapshot()), FirstSteps(steps, life))
        && outcome == if life < 3 then Died else Done(Finished(record, req), false)
    {
      ghost var steps := [PublishRecord(name, record), Publication.ReplaceActive(next),
                          PublishRecord(name, Finished(record, req))];
      if life == 0 { return Died; }
      Publish(PublishRecord(name, record));
      Unfold(Apply, old(Snapshot()), steps, 1);
      if life == 1 { return Died; }
      ReplaceActive(next);
      Unfold(Apply, old(Snapshot()), steps, 2);
      if life == 2 { return Died; }
      var complete := Finished(record, req);
      Publish(PublishRecord(name, complete));
      Unfold(Apply, old(Snapshot()), steps, 3);
      return Done(complete, false);
    }
  }

  lemma EvidenceKeepsActive(s: Store, d: Directory, record: Record, previous: Binding, next: Binding)
    ensures ApplyAll(s, Evidence(d, record, previous, next)).active == s.active
  {
    var steps := Evidence(d, record, previous, next);
    Unfold(Apply, s, steps, |steps|);
    if |steps| > 1 {
      Unfold(Apply, s, steps, |steps| - 1);
    }
    if |steps| > 2 {
      Unfold(Apply, s, steps, |steps| - 2);
    }
  }

  lemma InsertKeepsMembers(sorted: seq<Record>, r: Record)
    ensures forall x :: x in InsertBySequence(sorted, r) <==> x in sorted || x == r
  {
    var k := PlaceFor(sorted, r.body.sequence);
    assert sorted == sorted[..k] + sorted[k..];
  }

  lemma {:induction false} SortKeepsMembers(records: seq<Record>)
    ensures forall x :: x in SortBySequence(records) <==> x in records
  {
    if records != [] {
      SortKeepsMembers(records[..|records| - 1]);
      InsertKeepsMembers(SortBySequence(records[..|records| - 1]), records[|records| - 1]);
      assert records == records[..|records| - 1] + [records[|records| - 1]];
    }
  }

  lemma {:induction false} ReadableRecords(runId: string, history: seq<Directory>, r: Record)
    requires HistoryReadable(runId, history) && r in RecordsOf(history)
    ensures RecordReadable(runId, r)
  {
    var d := history[|history| - 1];
    assert d in history;
    if !(d.record.Some? && r == d.record.value) {
      ReadableRecords(runId, history[..|history| - 1], r);
    }
  }
}
