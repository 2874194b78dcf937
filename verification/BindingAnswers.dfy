/**
 What the binding's calls answer and refuse, in terms of what lies on disk: also on stores that no
 run of calls has produced.
 */
module BindingAnswers {
  import opened Wrappers
  import opened Crashes
  import opened BindingStore
  import opened BindingRuns
  import opened CapabilityBinding

  // ----- what a completing call leaves -----

  /** The record a completing call returns: of this run, at this place, between these bindings. */
  predicate IsRecordOf(runId: string, n: nat, previous: Binding, next: Binding, prior: Option<Digest>, r: Record) {
    && r.sha == OfRecord(r.body)
    && r.body.runId == runId && r.body.sequence == n + 1 && r.body.directory.sequence == n + 1
    && r.body.previous == previous && r.body.previousSha == previous.sha
    && r.body.next == next && r.body.nextSha == next.sha
    && r.body.priorRecordSha == prior
  }

  /** Whose context the record carries, and where the migration set out. */
  function Published(s: Store): Option<Record> {
    var n := Completions(s.history);
    if n < |s.history| then s.history[n].record else None
  }

  /** Field by field what a migration that goes through leaves.  The context is that of the call whose
      record was published, the time of completion this call's. */
  predicate Completes(runId: string, s: Store, req: Request, t: Store, r: Record)
    requires s.active.Some?
  {
    var n := Completions(s.history);
    var previous := if Published(s).Some? then Published(s).value.body.previous else s.active.value;
    var next := Binding(runId, req.projection, OfProjection(req.projection));
    && t.active == Some(next)
    && t.history == s.history[..n] + [Directory(r.body.directory, Some(previous), Some(next), Some(r))]
    && r.body.status == Complete(req.now)
    && r.body.context == (if Published(s).Some? then Published(s).value.body.context else req.context)
    && (n > 0 ==> s.history[n - 1].record.Some?)
    && IsRecordOf(runId, n, previous, next, if n == 0 then None else Some(s.history[n - 1].record.value.sha), r)
  }

  lemma LastStageCompletes(runId: string, s: Store, req: Request, m: Migration)
    requires Inv(runId, s) && s.active.Some? && Admits(s, req.projection)
    requires WellFormed(runId, m) && m == MigrationFor(runId, s, req)
    requires m.base.history == s.history[..Completions(s.history)]
    ensures Completes(runId, s, req, At(m, 6), m.final)
  {
    var n := Completions(s.history);
    if Published(s).Some? {
      assert RecordFits(runId, s.history, n);
    }
    if n > 0 {
      assert RecordFits(runId, s.history, n - 1);
    }
  }

  /** A call that goes through completes the migration and returns its record, which it calls
      recovered when anything of it was there before. */
  lemma CallCompletes(runId: string, s: Store, req: Request, life: nat)
    requires Inv(runId, s) && s.active.Some? && req.admissible && life >= 6
    requires Admits(s, req.projection) && !AlreadyThere(s, req.projection)
    ensures var t, outcome := Attempt(runId, s, req, life), AttemptOutcome(runId, s, req, life);
      && outcome.Done? && outcome.idempotent == (Completions(s.history) < |s.history|)
      && Completes(runId, s, req, t, outcome.record)
  {
    MigrationIsWellFormed(runId, s, req);
    BaseIsQuiescent(runId, s);
    AttemptReachesStage(runId, s, req, life);
    PlanContinuesMigration(runId, s, req);
    LastStageCompletes(runId, s, req, MigrationFor(runId, s, req));
  }

  // ----- the first execution -----

  /** The first execution's binding is created exactly when there is none and it may be; nothing else
      is ever written. */
  lemma FirstBindingIsCreated(runId: string, s: Store, projection: Projection, allowCreate: bool)
    ensures var t := Ensured(runId, s, projection, allowCreate);
      && t.history == s.history
      && (s.active.None? && allowCreate ==> t.active == Some(Binding(runId, projection, OfProjection(projection))))
      && (s.active.Some? || !allowCreate ==> t == s)
  {
  }

  // ----- labels -----

  /** Directory labels tell projections apart by the first sixteen characters of their digests. */
  lemma LabelsAgreeExactlyWhen(p: Projection, q: Projection)
    ensures Label(OfProjection(p)) == Label(OfProjection(q)) <==>
      p == q || (|p| >= 16 && |q| >= 16 && p[..16] == q[..16])
  {
    if |p| >= 16 && |q| < 16 {
      assert |Label(OfProjection(p))| == 16;
    }
  }

  /** Who may take over a directory that has no record yet, in those terms. */
  lemma TakesOverExactlyWhen(runId: string, m: Migration, k: nat, req: Request)
    requires WellFormed(runId, m) && 0 < k < 6 && req.admissible && req.projection != m.next.projection
    ensures var p, q := req.projection, m.next.projection;
      Admits(At(m, k), p) <==>
        k <= 2 && |p| >= 16 && |q| >= 16 && p[..16] == q[..16] && p != m.base.active.value.projection
  {
    OtherRequestsWait(runId, m, k, req, 0);
    LabelsAgreeExactlyWhen(req.projection, m.next.projection);
  }

  // ----- what must be true of any history a call goes on with -----

  /** A directory's snapshots are bindings of this run with their own digests; a record names its own
      digest, this run and this directory, and the snapshots beside it. */
  predicate RecordStands(runId: string, d: Directory) {
    && (d.previous.Some? ==> d.previous.value == BindingFor(runId, d.previous.value.projection))
    && (d.next.Some? ==> d.next.value == BindingFor(runId, d.next.value.projection))
    && (d.record.Some? ==>
          var r := d.record.value;
          && r.sha == OfRecord(r.body) && r.body.runId == runId && r.body.directory == d.name
          && d.previous == Some(r.body.previous) && d.next == Some(r.body.next)
          && r.body.previous == BindingFor(runId, r.body.previous.projection)
          && r.body.next == BindingFor(runId, r.body.next.projection))
  }

  /** The completed records, in order. */
  predicate StandsInChain(chain: seq<Record>, k: nat)
    requires k < |chain|
  {
    && chain[k].body.sequence == k + 1
    && chain[k].body.previousSha == chain[k].body.previous.sha && chain[k].body.nextSha == chain[k].body.next.sha
    && chain[k].body.priorRecordSha == (if k == 0 then None else Some(chain[k - 1].sha))
    && (k > 0 ==> chain[k].body.previous.sha == chain[k - 1].body.next.sha)
  }

  predicate IsChain(chain: seq<Record>) {
    forall k: nat :: k < |chain| ==> StandsInChain(chain, k)
  }

  /** The last record's digest covers the whole history: two chains of sealed records that end in the
      same record are the same. */
  lemma {:induction false} LastRecordNamesThemAll(a: seq<Record>, b: seq<Record>)
    requires IsChain(a) && IsChain(b) && a != [] && b != [] && a[|a| - 1] == b[|b| - 1]
    requires forall r :: r in a || r in b ==> r.sha == OfRecord(r.body)
    ensures a == b
  {
    assert StandsInChain(a, |a| - 1) && StandsInChain(b, |b| - 1);
    if |a| > 1 {
      var front, other := a[..|a| - 1], b[..|b| - 1];
      forall k: nat | k < |front| ensures StandsInChain(front, k) && StandsInChain(other, k) {
        assert StandsInChain(a, k) && StandsInChain(b, k);
      }
      assert front[|front| - 1] in a && other[|other| - 1] in b;
      LastRecordNamesThemAll(front, other);
      assert a == front + [a[|a| - 1]] && b == other + [b[|b| - 1]];
    }
  }

  predicate CompletedIn(history: seq<Directory>, r: Record) {
    exists d :: d in history && d.record == Some(r) && r.body.status.Complete?
  }

  lemma {:induction false} CompletedMembers(records: seq<Record>, complete: bool, r: Record)
    ensures r in WithStatus(records, complete) <==> r in records && r.body.status.Complete? == complete
  {
    if records != [] {
      CompletedMembers(records[..|records| - 1], complete, r);
      assert records == records[..|records| - 1] + [records[|records| - 1]];
    }
  }

  lemma RecordedExactlyWhen(history: seq<Directory>, r: Record)
    ensures r in SortBySequence(RecordsOf(history)) <==> exists d :: d in history && d.record == Some(r)
  {
    SortKeepsMembers(RecordsOf(history));
    if r in RecordsOf(history) {
      ListedIsRecord(history, r);
      var k :| 0 <= k < |history| && history[k].record == Some(r);
      assert history[k] in history;
    }
    if d :| d in history && d.record == Some(r) {
      var k :| 0 <= k < |history| && history[k] == d;
      RecordIsListed(history, k, r);
    }
  }

  lemma AcceptedIsChain(records: seq<Record>, active: Binding)
    requires ChainAccepted(records, active)
    ensures IsChain(Completed(records))
  {
    LinkedIsChain(Completed(records));
    forall r | r in Completed(records) ensures r.body.status.Complete? {
      CompletedMembers(records, true, r);
    }
  }

  lemma LinkedIsChain(complete: seq<Record>)
    requires Linked(complete)
    ensures IsChain(complete)
  {
    forall k | 0 <= k < |complete| ensures StandsInChain(complete, k) {
      assert LinkedAt(complete, k);
      if k > 0 {
        assert LinkedAt(complete, k - 1);
      }
    }
  }

  /** A prepared record is the one after the completed ones. */
  predicate ComesNext(chain: seq<Record>, p: Record) {
    && p.body.sequence == |chain| + 1
    && p.body.previousSha == p.body.previous.sha && p.body.nextSha == p.body.next.sha
    && p.body.priorRecordSha == (if chain == [] then None else Some(chain[|chain| - 1].sha))
    && (chain != [] ==> p.body.previousSha == chain[|chain| - 1].body.nextSha)
  }

  lemma PreparedComesNext(history: seq<Directory>, records: seq<Record>, active: Binding, d: Directory)
    requires records == SortBySequence(RecordsOf(history)) && ChainAccepted(records, active)
    requires d in history && d.record.Some? && d.record.value.body.status.Prepared?
    ensures ComesNext(Completed(records), d.record.value)
  {
    PreparedIsListed(history, records, d);
  }

  /** A call goes on, to whatever end, only over a sound history: every record stands, the completed
      ones are a chain from 1 on, each naming its predecessor's digest and starting from the binding
      it ended in, a prepared one comes next, and with none the active binding is the last one's.  This holds of
      any store, whoever wrote it. */
  lemma GoesOnlyOverSoundHistories(runId: string, s: Store, req: Request, life: nat) returns (chain: seq<Record>)
    requires !AttemptOutcome(runId, s, req, life).Refused?
    ensures req.admissible && s.active.Some? && s.active.value.sha == OfProjection(s.active.value.projection)
    ensures forall d :: d in s.history ==> RecordStands(runId, d)
    ensures IsChain(chain) && forall r :: r in chain <==> CompletedIn(s.history, r)
    ensures forall r :: r in chain ==> r.sha == OfRecord(r.body)
    ensures forall d :: d in s.history && d.record.Some? && d.record.value.body.status.Prepared? ==>
              ComesNext(chain, d.record.value)
    ensures chain != [] && (forall d :: d in s.history && d.record.Some? ==> d.record.value.body.status.Complete?) ==>
              s.active.value.sha == chain[|chain| - 1].body.next.sha
  {
    var records, active := SortBySequence(RecordsOf(s.history)), s.active.value;
    assert HistoryReadable(runId, s.history) && ChainAccepted(records, active);
    chain := Completed(records);
    AcceptedIsChain(records, active);
    forall r ensures r in chain <==> CompletedIn(s.history, r) {
      CompletedMembers(records, true, r);
      RecordedExactlyWhen(s.history, r);
    }
    forall d | d in s.history ensures RecordStands(runId, d) {
      assert DirectoryReadable(runId, d);
    }
    forall r | r in chain ensures r.sha == OfRecord(r.body) {
      assert CompletedIn(s.history, r);
    }
    forall d | d in s.history && d.record.Some? && d.record.value.body.status.Prepared?
      ensures ComesNext(chain, d.record.value)
    {
      PreparedComesNext(s.history, records, active, d);
    }
    if forall d :: d in s.history && d.record.Some? ==> d.record.value.body.status.Complete? {
      NonePrepared(s.history, records);
      if chain != [] {
        assert StandsInChain(chain, |chain| - 1);
      }
    }
  }

  lemma NonePrepared(history: seq<Directory>, records: seq<Record>)
    requires records == SortBySequence(RecordsOf(history))
    requires forall d :: d in history && d.record.Some? ==> d.record.value.body.status.Complete?
    ensures PreparedOnes(records) == []
  {
    if PreparedOnes(records) != [] {
      var r := PreparedOnes(records)[0];
      CompletedMembers(records, false, r);
      RecordedExactlyWhen(history, r);
      assert false;
    }
  }

  lemma {:induction false} LargestSequence(records: seq<Record>)
    ensures forall r :: r in records ==> r.body.sequence <= MaxSequence(records)
    ensures MaxSequence(records) == 0 || exists r :: r in records && r.body.sequence == MaxSequence(records)
  {
    if records != [] {
      LargestSequence(records[..|records| - 1]);
      assert records == records[..|records| - 1] + [records[|records| - 1]];
    }
  }

  lemma {:induction false} PartialMembers(history: seq<Directory>, d: Directory)
    ensures d in PartialsOf(history) <==> d in history && d.record.None?
  {
    if history != [] {
      PartialMembers(history[..|history| - 1], d);
      assert history == history[..|history| - 1] + [history[|history| - 1]];
    }
  }

  /** A record-less directory the call may finish: the only one, next in number, labelled for the
      binding asked for, with no other snapshots than the call's own. */
  predicate IsItsOwn(s: Store, req: Request, d: Directory)
    requires s.active.Some?
  {
    && (forall e :: e in s.history && e.record.None? ==> e == d)
    && (forall e :: e in s.history && e.record.Some? ==> e.record.value.body.sequence < d.name.sequence)
    && (d.name.sequence == 1
        || exists e :: e in s.history && e.record.Some? && e.record.value.body.sequence + 1 == d.name.sequence)
    && d.name.prefix == Label(OfProjection(req.projection))
    && (d.previous.Some? ==> d.previous == s.active)
    && (d.next.Some? ==> d.next.value.projection == req.projection)
    && s.active.value.projection != req.projection
  }

  lemma PartialIsItsOwn(s: Store, req: Request, records: seq<Record>, d: Directory)
    requires s.active.Some? && records == SortBySequence(RecordsOf(s.history)) && PartialsOf(s.history) == [d]
    requires d.name.prefix == Label(OfProjection(req.projection)) && d.name.sequence == MaxSequence(records) + 1
    requires d.previous.Some? ==> d.previous == s.active
    requires d.next.Some? ==> d.next.value.projection == req.projection
    requires s.active.value.projection != req.projection
    ensures IsItsOwn(s, req, d)
  {
    forall e | e in s.history && e.record.None? ensures e == d {
      PartialMembers(s.history, e);
    }
    LargestSequence(records);
    forall e | e in s.history && e.record.Some? ensures e.record.value.body.sequence < d.name.sequence {
      RecordedExactlyWhen(s.history, e.record.value);
    }
    if d.name.sequence != 1 {
      var r :| r in records && r.body.sequence + 1 == d.name.sequence;
      RecordedExactlyWhen(s.history, r);
    }
  }

  /** Nor does a call ever finish what another began: a directory without a record must be its own,
      and a prepared record the only one, for the binding asked for, with the active binding on
      one of its sides. */
  lemma FinishesOnlyItsOwn(runId: string, s: Store, req: Request, life: nat)
    requires !AttemptOutcome(runId, s, req, life).Refused?
    ensures s.active.Some?
    ensures forall d :: d in s.history && d.record.None? ==> IsItsOwn(s, req, d)
    ensures forall d :: d in s.history && d.record.Some? && d.record.value.body.status.Prepared? ==>
              var p := d.record.value.body;
              && (forall e :: e in s.history && e.record.Some? && e.record.value.body.status.Prepared? ==>
                    e.record == d.record)
              && s.active.value.sha in {p.previous.sha, p.next.sha}
              && ((forall e :: e in s.history ==> e.record.Some?) ==> p.next.projection == req.projection)
  {
    var records := SortBySequence(RecordsOf(s.history));
    assert HistoryReadable(runId, s.history) && ChainAccepted(records, s.active.value);
    forall d | d in s.history && d.record.None? ensures IsItsOwn(s, req, d) {
      PartialMembers(s.history, d);
      assert PartialsOf(s.history) == [d];
      PartialIsItsOwn(s, req, records, d);
    }
    forall d | d in s.history && d.record.Some? && d.record.value.body.status.Prepared?
      ensures PreparedOnes(records) == [d.record.value]
    {
      PreparedIsListed(s.history, records, d);
    }
    if (forall e :: e in s.history ==> e.record.Some?) && PartialsOf(s.history) != [] {
      PartialMembers(s.history, PartialsOf(s.history)[0]);
    }
    forall d | d in s.history && d.record.Some? ensures RecordStands(runId, d) {
      assert DirectoryReadable(runId, d);
    }
  }

  lemma PreparedIsListed(history: seq<Directory>, records: seq<Record>, d: Directory)
    requires records == SortBySequence(RecordsOf(history)) && |PreparedOnes(records)| <= 1
    requires d in history && d.record.Some? && d.record.value.body.status.Prepared?
    ensures PreparedOnes(records) == [d.record.value]
  {
    RecordedExactlyWhen(history, d.record.value);
    CompletedMembers(records, false, d.record.value);
  }

  lemma FirstStep(s: Store, p: Publication, steps: seq<Publication>)
    requires steps != [] && steps[0] == p
    ensures ApplyAll(s, FirstSteps(steps, 1)) == Apply(s, p)
  {
    Unfold(Apply, s, steps, 1);
  }

  /** A directory is only ever made under a name no directory has, and empty. */
  lemma NewDirectoriesAreNew(runId: string, s: Store, req: Request)
    requires |Attempt(runId, s, req, 1).history| > |s.history|
    ensures var t := Attempt(runId, s, req, 1).history; var made := t[|t| - 1];
      && t == s.history + [made] && made == Directory(made.name, None, None, None)
      && forall d :: d in s.history ==> d.name != made.name
  {
    var plan := PlanFor(runId, s, req);
    assert plan.steps != [];
    FirstStep(s, plan.steps[0], plan.steps);
  }
}
