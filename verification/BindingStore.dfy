/**
 The durable state of one run's capability binding, and the migration protocol over it as a
 plan of atomic publications.

 The active binding is one file.  The history holds one numbered directory per migration, with
 a snapshot of the binding being left, a snapshot of the binding being entered, and a record
 that is published PREPARED and rewritten COMPLETE once the active binding has been switched.
 Each publication is atomic: a process that dies leaves exactly a prefix of its plan behind.
 */
module BindingStore {
  import opened Wrappers
  import opened Crashes

  /** The canonical JSON text of a capability projection. */
  type Projection = string

  /** A SHA-256 digest, as the text it was computed from: two digests are equal when and only
      when the digested documents are. */
  datatype Digest = OfProjection(projection: Projection) | OfRecord(body: RecordBody)

  datatype Binding = Binding(runId: string, projection: Projection, sha: Digest)

  datatype Status = Prepared | Complete(completedAt: string)

  /** A directory name: the six-digit sequence and sixteen characters of the new digest. */
  datatype DirectoryName = DirectoryName(sequence: nat, prefix: string)

  /** Everything a record's own digest covers.  `context` stands for reason, actor, creation
      time and the engineering context, none of which steers the protocol. */
  datatype RecordBody = RecordBody(
    runId: string,
    directory: DirectoryName,
    sequence: nat,
    status: Status,
    previousSha: Digest,
    previous: Binding,
    nextSha: Digest,
    next: Binding,
    context: string,
    priorRecordSha: Option<Digest>)

  datatype Record = Record(body: RecordBody, sha: Digest)

  datatype Directory = Directory(
    name: DirectoryName,
    previous: Option<Binding>,
    next: Option<Binding>,
    record: Option<Record>)

  datatype Store = Store(active: Option<Binding>, history: seq<Directory>)

  /** One call's arguments.  `admissible` is the verdict of the checks made before the lock is
      taken: a runtime-ready resolution, a reason and an actor. */
  datatype Request = Request(projection: Projection, context: string, now: string, admissible: bool)

  datatype Refusal =
    | NotAdmissible
    | ActiveUnreadable
    | HistoryInvalid
    | ChainInvalid
    | MultiplePartial
    | PartialMismatch
    | MultiplePrepared
    | PreparedMismatch
    | ActiveOutsideFrontier
    | NoMigrationEvidence
    | DirectoryCollision

  datatype Outcome =
    | Died
    | Refused(why: Refusal)
    | Done(record: Record, idempotent: bool)

  // ----- documents -----

  function BindingFor(runId: string, projection: Projection): Binding {
    Binding(runId, projection, OfProjection(projection))
  }

  predicate Authentic(b: Binding) {
    b.sha == OfProjection(b.projection)
  }

  predicate AuthenticFor(runId: string, b: Binding) {
    b.runId == runId && Authentic(b)
  }

  function Take16(text: string): string {
    if |text| <= 16 then text else text[..16]
  }

  /** The directory label: a truncated digest, so different digests can share one. */
  function Label(sha: Digest): string {
    match sha
    case OfProjection(p) => Take16(p)
    case OfRecord(body) => Take16(body.context)
  }

  function Sealed(body: RecordBody): Record {
    Record(body, OfRecord(body))
  }

  predicate RecordReadable(runId: string, r: Record) {
    && r.sha == OfRecord(r.body)
    && r.body.runId == runId
    && AuthenticFor(runId, r.body.previous)
    && AuthenticFor(runId, r.body.next)
  }

  // ----- inventory -----

  predicate DirectoryReadable(runId: string, d: Directory) {
    && (d.previous.Some? ==> AuthenticFor(runId, d.previous.value))
    && (d.next.Some? ==> AuthenticFor(runId, d.next.value))
    && (d.record.Some? ==>
          && RecordReadable(runId, d.record.value)
          && d.record.value.body.directory == d.name
          && d.previous == Some(d.record.value.body.previous)
          && d.next == Some(d.record.value.body.next))
  }

  predicate HistoryReadable(runId: string, history: seq<Directory>) {
    forall d :: d in history ==> DirectoryReadable(runId, d)
  }

  function RecordsOf(history: seq<Directory>): seq<Record> {
    if history == [] then []
    else
      var rest := RecordsOf(history[..|history| - 1]);
      var d := history[|history| - 1];
      if d.record.Some? then rest + [d.record.value] else rest
  }

  function PartialsOf(history: seq<Directory>): seq<Directory> {
    if history == [] then []
    else
      var rest := PartialsOf(history[..|history| - 1]);
      var d := history[|history| - 1];
      if d.record.Some? then rest else rest + [d]
  }

  predicate SequenceSorted(records: seq<Record>) {
    forall i, j :: 0 <= i < j < |records| ==> records[i].body.sequence <= records[j].body.sequence
  }

  /** After every record whose sequence is not larger. */
  function PlaceFor(sorted: seq<Record>, sequence: nat): (k: nat)
    ensures k <= |sorted|
  {
    if sorted == [] || sorted[|sorted| - 1].body.sequence <= sequence then |sorted|
    else PlaceFor(sorted[..|sorted| - 1], sequence)
  }

  /** Stable insertion. */
  function InsertBySequence(sorted: seq<Record>, r: Record): seq<Record> {
    var k := PlaceFor(sorted, r.body.sequence);
    sorted[..k] + [r] + sorted[k..]
  }

  function SortBySequence(records: seq<Record>): seq<Record> {
    RunAll(InsertBySequence, [], records)
  }

  function WithStatus(records: seq<Record>, complete: bool): seq<Record> {
    if records == [] then []
    else
      var rest := WithStatus(records[..|records| - 1], complete);
      var r := records[|records| - 1];
      if r.body.status.Complete? == complete then rest + [r] else rest
  }

  function Completed(records: seq<Record>): seq<Record> { WithStatus(records, true) }

  function PreparedOnes(records: seq<Record>): seq<Record> { WithStatus(records, false) }

  // ----- chain -----

  predicate DigestsNameDocuments(r: Record) {
    r.body.previousSha == r.body.previous.sha && r.body.nextSha == r.body.next.sha
  }

  function PriorSha(complete: seq<Record>, k: nat): Option<Digest>
    requires k <= |complete|
  {
    if k == 0 then None else Some(complete[k - 1].sha)
  }

  /** What the chain validator accepts at position k of the completed records. */
  predicate LinkedAt(complete: seq<Record>, k: nat)
    requires k < |complete|
  {
    && complete[k].body.sequence == k + 1
    && DigestsNameDocuments(complete[k])
    && complete[k].body.priorRecordSha == PriorSha(complete, k)
    && (k > 0 ==> complete[k].body.previousSha == complete[k - 1].body.nextSha)
  }

  predicate Linked(complete: seq<Record>) {
    forall k :: 0 <= k < |complete| ==> LinkedAt(complete, k)
  }

  /** The whole of what the chain validator accepts: sequences 1..n, hash-linked records, each
      previous binding its predecessor's new one, at most one prepared record, at n + 1, and the
      active binding at the frontier. */
  predicate ChainAccepted(records: seq<Record>, active: Binding) {
    var complete := Completed(records);
    var prepared := PreparedOnes(records);
    var n := |complete|;
    && |prepared| <= 1
    && Linked(complete)
    && (|prepared| == 1 ==>
          var p := prepared[0];
          && p.body.sequence == n + 1
          && DigestsNameDocuments(p)
          && p.body.priorRecordSha == PriorSha(complete, n)
          && (n > 0 ==> p.body.previousSha == complete[n - 1].body.nextSha)
          && (active.sha == p.body.previousSha || active.sha == p.body.nextSha))
    && (|prepared| == 0 && n > 0 ==> active.sha == complete[n - 1].body.nextSha)
  }

  function MaxSequence(records: seq<Record>): nat {
    if records == [] then 0
    else
      var rest := MaxSequence(records[..|records| - 1]);
      var s := records[|records| - 1].body.sequence;
      if s > rest then s else rest
  }

  /** The completed record with the highest sequence (the earliest one among equals). */
  function LatestComplete(records: seq<Record>): Option<Record> {
    if records == [] then None
    else
      var rest := LatestComplete(records[..|records| - 1]);
      var r := records[|records| - 1];
      if r.body.status.Complete? && (rest.None? || r.body.sequence > rest.value.body.sequence)
      then Some(r) else rest
  }

  // ----- publications -----

  datatype Publication =
    | MakeDirectory(name: DirectoryName)
    | PublishPrevious(name: DirectoryName, binding: Binding)
    | PublishNext(name: DirectoryName, binding: Binding)
    | PublishRecord(name: DirectoryName, record: Record)
    | ReplaceActive(binding: Binding)

  function WriteIn(d: Directory, p: Publication): Directory {
    match p
    case MakeDirectory(_) => d
    case PublishPrevious(name, b) => if d.name == name then d.(previous := Some(b)) else d
    case PublishNext(name, b) => if d.name == name then d.(next := Some(b)) else d
    case PublishRecord(name, r) => if d.name == name then d.(record := Some(r)) else d
    case ReplaceActive(_) => d
  }

  function Apply(s: Store, p: Publication): Store {
    match p
    case MakeDirectory(name) =>
      s.(history := s.history + [Directory(name, None, None, None)])
    case ReplaceActive(b) => s.(active := Some(b))
    case _ => s.(history := seq(|s.history|, i requires 0 <= i < |s.history| => WriteIn(s.history[i], p)))
  }

  function ApplyAll(s: Store, ps: seq<Publication>): Store {
    RunAll(Apply, s, ps)
  }

  // ----- the protocol as a plan -----

  datatype Plan = Plan(steps: seq<Publication>, outcome: Outcome)

  function Stop(why: Refusal): Plan {
    Plan([], Refused(why))
  }

  function NewRecord(runId: string, name: DirectoryName, sequence: nat, previous: Binding, next: Binding,
                     req: Request, latest: Option<Record>): Record
  {
    Sealed(RecordBody(runId, name, sequence, Prepared, previous.sha, previous, next.sha, next, req.context,
                      if latest.Some? then Some(latest.value.sha) else None))
  }

  function Finished(r: Record, req: Request): Record {
    Sealed(r.body.(status := Complete(req.now)))
  }

  function PlanPending(active: Binding, pending: Record, req: Request, next: Binding): Plan {
    if next.sha != pending.body.nextSha then Stop(PreparedMismatch)
    else
      var finish := [PublishRecord(pending.body.directory, Finished(pending, req))];
      var outcome := Done(Finished(pending, req), true);
      if active.sha == pending.body.previousSha then
        Plan([ReplaceActive(pending.body.next)] + finish, outcome)
      else if active.sha == pending.body.nextSha then Plan(finish, outcome)
      else Stop(ActiveOutsideFrontier)
  }

  function Then(before: seq<Publication>, after: Plan): Plan {
    Plan(before + after.steps, after.outcome)
  }

  function PublicationsLeft(d: Directory): nat {
    (if d.previous.None? then 1 else 0) + (if d.next.None? then 1 else 0) + 1
  }

  function Evidence(d: Directory, record: Record, previous: Binding, next: Binding): (steps: seq<Publication>)
    ensures |steps| == PublicationsLeft(d)
  {
    (if d.previous.None? then [PublishPrevious(d.name, previous)] else [])
    + (if d.next.None? then [PublishNext(d.name, next)] else [])
    + [PublishRecord(d.name, record)]
  }

  /** Once a partial directory has its record. */
  function PlanRecorded(active: Binding, records: seq<Record>, record: Record, req: Request, next: Binding): Plan {
    if PreparedOnes(records) != [] then Stop(MultiplePrepared) else PlanPending(active, record, req, next)
  }

  function PlanPartial(runId: string, active: Binding, records: seq<Record>, partials: seq<Directory>,
                       req: Request, next: Binding): Plan
    requires partials != []
  {
    var d := partials[0];
    if |partials| != 1 then Stop(MultiplePartial)
    else if || d.name.prefix != Label(next.sha)
            || d.name.sequence != MaxSequence(records) + 1
            || (d.previous.Some? && d.previous.value != active)
            || (d.next.Some? && d.next.value != next)
            || active.sha == next.sha
    then Stop(PartialMismatch)
    else
      var record := NewRecord(runId, d.name, d.name.sequence, active, next, req, LatestComplete(records));
      Then(Evidence(d, record, active, next), PlanRecorded(active, records, record, req, next))
  }

  function PlanSettled(runId: string, active: Binding, history: seq<Directory>, records: seq<Record>,
                       req: Request, next: Binding): Plan
  {
    var latest := LatestComplete(records);
    if active.sha == next.sha && active.projection == next.projection then
      if latest.Some? && latest.value.body.nextSha == next.sha then Plan([], Done(latest.value, true))
      else Stop(NoMigrationEvidence)
    else
      var name := DirectoryName(MaxSequence(records) + 1, Label(next.sha));
      if exists d :: d in history && d.name == name then Stop(DirectoryCollision)
      else
        var record := NewRecord(runId, name, name.sequence, active, next, req, latest);
        Plan([MakeDirectory(name), PublishPrevious(name, active), PublishNext(name, next),
              PublishRecord(name, record), ReplaceActive(next), PublishRecord(name, Finished(record, req))],
             Done(Finished(record, req), false))
  }

  /** Everything one call would publish if it were never interrupted, and what it then returns. */
  function PlanFor(runId: string, s: Store, req: Request): Plan {
    var next := BindingFor(runId, req.projection);
    if !req.admissible then Stop(NotAdmissible)
    else if s.active.None? || !Authentic(s.active.value) then Stop(ActiveUnreadable)
    else if !HistoryReadable(runId, s.history) then Stop(HistoryInvalid)
    else
      var active := s.active.value;
      var records := SortBySequence(RecordsOf(s.history));
      var partials := PartialsOf(s.history);
      if !ChainAccepted(records, active) then Stop(ChainInvalid)
      else if partials != [] then PlanPartial(runId, active, records, partials, req, next)
      else if PreparedOnes(records) != [] then PlanPending(active, PreparedOnes(records)[0], req, next)
      else PlanSettled(runId, active, s.history, records, req, next)
  }

  /** One call by a process that dies when it is about to make publication `life` + 1. */
  function Attempt(runId: string, s: Store, req: Request, life: nat): Store {
    ApplyAll(s, FirstSteps(PlanFor(runId, s, req).steps, life))
  }

  function AttemptOutcome(runId: string, s: Store, req: Request, life: nat): Outcome {
    if life < |PlanFor(runId, s, req).steps| then Died else PlanFor(runId, s, req).outcome
  }

  /** The first execution's binding: created once, and from then on only compared. */
  function Ensured(runId: string, s: Store, projection: Projection, allowCreate: bool): Store {
    if s.active.None? && allowCreate then s.(active := Some(BindingFor(runId, projection))) else s
  }
}
