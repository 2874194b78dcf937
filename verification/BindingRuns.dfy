/**
 What every run of migrations keeps, crashes included.

 A migration is described once, by the store it starts from and the six publications that carry
 it out; `At(m, k)` is the store after the first k of them.  Every store a run can reach is a
 quiescent store or such a stage, every call that publishes anything continues a migration from
 its current stage, and the theorems follow from those two facts.
 */
module BindingRuns {
  import opened Wrappers
  import opened Crashes
  import opened BindingStore

  // ----- the invariant -----

  predicate IsCompleted(d: Directory) {
    d.record.Some? && d.record.value.body.status.Complete?
  }

  /** How many migrations have completed: only the last directory can be in flight. */
  function Completions(history: seq<Directory>): nat {
    if history == [] || IsCompleted(history[|history| - 1]) then |history| else |history| - 1
  }

  predicate Quiescent(s: Store) {
    Completions(s.history) == |s.history|
  }

  predicate RecordFits(runId: string, history: seq<Directory>, k: nat)
    requires k < |history|
  {
    var d := history[k];
    && d.record.Some?
    && var r := d.record.value;
    && RecordReadable(runId, r)
    && DigestsNameDocuments(r)
    && r.body.sequence == k + 1
    && r.body.directory == d.name
    && d.name == DirectoryName(k + 1, Label(r.body.nextSha))
    && d.previous == Some(r.body.previous)
    && d.next == Some(r.body.next)
    && r.body.previous != r.body.next
    && (k == 0 ==> r.body.priorRecordSha.None?)
    && (k > 0 ==>
          && IsCompleted(history[k - 1])
          && r.body.priorRecordSha == Some(history[k - 1].record.value.sha)
          && r.body.previous == history[k - 1].record.value.body.next)
  }

  predicate CompletedPrefix(runId: string, history: seq<Directory>, n: nat)
    requires n <= |history|
  {
    forall k {:trigger RecordFits(runId, history, k)} ::
      0 <= k < n ==> RecordFits(runId, history, k) && IsCompleted(history[k])
  }

  predicate AtFrontier(active: Binding, history: seq<Directory>, n: nat)
    requires n <= |history|
  {
    n > 0 && history[n - 1].record.Some? ==> active == history[n - 1].record.value.body.next
  }

  /** The last directory of a migration that has not completed. */
  predicate InFlight(runId: string, active: Binding, history: seq<Directory>, n: nat)
    requires n < |history|
  {
    var d := history[n];
    && d.name.sequence == n + 1
    && (d.record.None? ==>
          && AtFrontier(active, history, n)
          && (d.previous.Some? ==> d.previous.value == active)
          && (d.next.Some? ==>
                && d.previous.Some?
                && AuthenticFor(runId, d.next.value)
                && d.name.prefix == Label(d.next.value.sha)
                && d.next.value != active))
    && (d.record.Some? ==>
          && RecordFits(runId, history, n)
          && (active == d.record.value.body.previous || active == d.record.value.body.next))
  }

  /** What every reachable store satisfies. */
  predicate Inv(runId: string, s: Store) {
    var n := Completions(s.history);
    && (s.active.None? ==> s.history == [])
    && (s.active.Some? ==>
          && AuthenticFor(runId, s.active.value)
          && CompletedPrefix(runId, s.history, n)
          && (n == |s.history| ==> AtFrontier(s.active.value, s.history, n))
          && (n < |s.history| ==> InFlight(runId, s.active.value, s.history, n)))
  }

  // ----- what the inventory and the chain validator see in such a store -----

  lemma {:induction false} SortedIsFixed(records: seq<Record>)
    requires SequenceSorted(records)
    ensures SortBySequence(records) == records
  {
    if records != [] {
      var front := records[..|records| - 1];
      SortedIsFixed(front);
      assert front == [] || front[|front| - 1] == records[|records| - 2];
      assert records == front + [records[|records| - 1]];
    }
  }

  /** Records numbered 1..n and all complete. */
  predicate Numbered(records: seq<Record>) {
    forall k {:trigger records[k]} ::
      0 <= k < |records| ==> records[k].body.sequence == k + 1 && records[k].body.status.Complete?
  }

  lemma {:induction false} NumberedReads(records: seq<Record>)
    requires Numbered(records)
    ensures Completed(records) == records
    ensures PreparedOnes(records) == []
    ensures MaxSequence(records) == |records|
    ensures LatestComplete(records) == if records == [] then None else Some(records[|records| - 1])
  {
    if records != [] {
      NumberedReads(records[..|records| - 1]);
      assert records == records[..|records| - 1] + [records[|records| - 1]];
    }
  }

  lemma FrontIsCompleted(runId: string, history: seq<Directory>, n: nat)
    requires n <= |history| && CompletedPrefix(runId, history, n)
    ensures CompletedPrefix(runId, history[..n], n)
  {
    var front := history[..n];
    forall k | 0 <= k < n ensures RecordFits(runId, front, k) && IsCompleted(front[k]) {
      assert RecordFits(runId, history, k);
    }
  }

  lemma {:induction false} CompletedHistoryReads(runId: string, history: seq<Directory>)
    requires CompletedPrefix(runId, history, |history|)
    ensures PartialsOf(history) == []
    ensures |RecordsOf(history)| == |history|
    ensures forall k :: 0 <= k < |history| ==> Some(RecordsOf(history)[k]) == history[k].record
  {
    if history != [] {
      var front := history[..|history| - 1];
      FrontIsCompleted(runId, history, |front|);
      CompletedHistoryReads(runId, front);
      assert RecordFits(runId, history, |history| - 1);
      assert RecordsOf(history) == RecordsOf(front) + [history[|history| - 1].record.value];
    }
  }

  lemma CompletedHistoryLinks(runId: string, history: seq<Directory>)
    requires CompletedPrefix(runId, history, |history|)
    ensures Numbered(RecordsOf(history))
    ensures Linked(RecordsOf(history))
    ensures SequenceSorted(RecordsOf(history))
  {
    CompletedHistoryReads(runId, history);
    var records := RecordsOf(history);
    forall k | 0 <= k < |records| ensures LinkedAt(records, k) && records[k].body.status.Complete? {
      assert Some(records[k]) == history[k].record;
      assert RecordFits(runId, history, k);
      if k > 0 {
        assert Some(records[k - 1]) == history[k - 1].record;
        assert RecordFits(runId, history, k - 1);
      }
    }
    assert forall k :: 0 <= k < |records| ==> LinkedAt(records, k);
  }

  /** What the inventory makes of a history of completed migrations. */
  lemma InventoryOfCompleted(runId: string, history: seq<Directory>)
    requires CompletedPrefix(runId, history, |history|)
    ensures HistoryReadable(runId, history)
    ensures PartialsOf(history) == []
    ensures var records := RecordsOf(history);
      && |records| == |history|
      && (forall k :: 0 <= k < |history| ==> Some(records[k]) == history[k].record)
      && SortBySequence(records) == records && Completed(records) == records && PreparedOnes(records) == []
      && Linked(records)
      && MaxSequence(records) == |history|
      && LatestComplete(records) == if history == [] then None else history[|history| - 1].record
  {
    CompletedHistoryReads(runId, history);
    CompletedHistoryLinks(runId, history);
    SortedIsFixed(RecordsOf(history));
    NumberedReads(RecordsOf(history));
    forall d | d in history ensures DirectoryReadable(runId, d) {
      var k :| 0 <= k < |history| && history[k] == d;
      assert RecordFits(runId, history, k);
    }
  }

  lemma OneMoreReadable(runId: string, history: seq<Directory>, n: nat)
    requires |history| == n + 1 && HistoryReadable(runId, history[..n]) && DirectoryReadable(runId, history[n])
    ensures HistoryReadable(runId, history)
  {
    forall d | d in history ensures DirectoryReadable(runId, d) {
      var k :| 0 <= k <= n && history[k] == d;
      if k < n {
        assert d in history[..n];
      }
    }
  }

  lemma OneMoreDirectory(history: seq<Directory>, n: nat, front: seq<Directory>)
    requires |history| == n + 1 && front == history[..n] && PartialsOf(front) == []
    ensures history[n].record.None? ==>
      PartialsOf(history) == [history[n]] && RecordsOf(history) == RecordsOf(front)
    ensures history[n].record.Some? ==>
      PartialsOf(history) == [] && RecordsOf(history) == RecordsOf(front) + [history[n].record.value]
  {
  }

  /** ... and what one more directory, in flight, adds to it. */
  lemma InventoryOfInFlight(runId: string, active: Binding, history: seq<Directory>, n: nat)
    requires |history| == n + 1 && CompletedPrefix(runId, history, n)
    requires AuthenticFor(runId, active) && InFlight(runId, active, history, n) && !IsCompleted(history[n])
    ensures HistoryReadable(runId, history)
    ensures history[n].record.None? ==>
      PartialsOf(history) == [history[n]] && RecordsOf(history) == RecordsOf(history[..n])
    ensures history[n].record.Some? ==>
      PartialsOf(history) == [] && RecordsOf(history) == RecordsOf(history[..n]) + [history[n].record.value]
  {
    FrontIsCompleted(runId, history, n);
    InventoryOfCompleted(runId, history[..n]);
    InFlightIsReadable(runId, active, history, n);
    OneMoreReadable(runId, history, n);
    OneMoreDirectory(history, n, history[..n]);
  }

  lemma InFlightIsReadable(runId: string, active: Binding, history: seq<Directory>, n: nat)
    requires n < |history| && AuthenticFor(runId, active) && InFlight(runId, active, history, n)
    ensures DirectoryReadable(runId, history[n])
  {
    if history[n].record.Some? {
      assert RecordFits(runId, history, n);
    }
  }

  lemma PendingIsSorted(done: seq<Record>, pending: Record)
    requires Numbered(done) && pending.body.sequence == |done| + 1
    ensures SequenceSorted(done + [pending])
  {
    var records := done + [pending];
    forall i, j | 0 <= i < j < |records| ensures records[i].body.sequence <= records[j].body.sequence {
      assert records[i] == done[i];
      assert j < |done| ==> records[j] == done[j];
    }
  }

  lemma StatusOfOneMore(done: seq<Record>, pending: Record, records: seq<Record>)
    requires records == done + [pending] && pending.body.status.Prepared?
    requires Completed(done) == done && PreparedOnes(done) == []
    ensures Completed(records) == done && PreparedOnes(records) == [pending]
  {
    assert records[..|records| - 1] == done;
  }

  lemma LinkedIsNumbered(records: seq<Record>)
    requires Linked(records) && Completed(records) == records
    ensures Numbered(records)
  {
    forall k | 0 <= k < |records|
      ensures records[k].body.sequence == k + 1 && records[k].body.status.Complete?
    {
      assert LinkedAt(records, k);
      CompletedAreComplete(records, k);
    }
  }

  lemma {:induction false} CompletedAreComplete(records: seq<Record>, k: nat)
    requires k < |Completed(records)|
    ensures Completed(records)[k].body.status.Complete?
  {
    if k < |Completed(records[..|records| - 1])| {
      CompletedAreComplete(records[..|records| - 1], k);
    }
  }

  /** The inventory of any reachable store. */
  lemma InventoryOfInvariant(runId: string, s: Store)
    requires Inv(runId, s) && s.active.Some?
    ensures HistoryReadable(runId, s.history)
    ensures var n := Completions(s.history);
      var done := RecordsOf(s.history[..n]);
      var records := SortBySequence(RecordsOf(s.history));
      && Linked(done) && |done| == n && MaxSequence(done) == n
      && LatestComplete(done) == (if n == 0 then None else s.history[n - 1].record)
      && Completed(records) == done
      && (n > 0 ==> Some(done[n - 1]) == s.history[n - 1].record)
      && (n == |s.history| ==> PartialsOf(s.history) == [] && records == done && PreparedOnes(records) == [])
      && (n < |s.history| && s.history[n].record.None? ==>
            PartialsOf(s.history) == [s.history[n]] && records == done && PreparedOnes(records) == [])
      && (n < |s.history| && s.history[n].record.Some? ==>
            PartialsOf(s.history) == [] && PreparedOnes(records) == [s.history[n].record.value])
  {
    var h, n := s.history, Completions(s.history);
    FrontIsCompleted(runId, h, n);
    InventoryOfCompleted(runId, h[..n]);
    if n == |h| {
      assert h[..n] == h;
    } else {
      InventoryOfInFlight(runId, s.active.value, h, n);
      if h[n].record.Some? {
        assert RecordFits(runId, h, n);
        var done, pending := RecordsOf(h[..n]), h[n].record.value;
        LinkedIsNumbered(done);
        NumberedReads(done);
        PendingIsSorted(done, pending);
        SortedIsFixed(done + [pending]);
        StatusOfOneMore(done, pending, done + [pending]);
      }
    }
  }

  /** The chain validator's verdict, from the completed records and the pending one if any. */
  lemma ChainFromParts(records: seq<Record>, active: Binding, done: seq<Record>, pending: Option<Record>)
    requires Completed(records) == done && Linked(done)
    requires PreparedOnes(records) == if pending.Some? then [pending.value] else []
    requires pending.None? && done != [] ==> active.sha == done[|done| - 1].body.nextSha
    requires pending.Some? ==>
      var p := pending.value.body;
      && p.sequence == |done| + 1
      && DigestsNameDocuments(pending.value)
      && p.priorRecordSha == PriorSha(done, |done|)
      && (done != [] ==> p.previousSha == done[|done| - 1].body.nextSha)
      && (active.sha == p.previousSha || active.sha == p.nextSha)
    ensures ChainAccepted(records, active)
  {
  }

  /** What the validator asks of a pending record. */
  lemma PendingFits(runId: string, s: Store, n: nat, done: seq<Record>)
    requires Inv(runId, s) && s.active.Some? && n == Completions(s.history) < |s.history|
    requires s.history[n].record.Some? && |done| == n
    requires n > 0 ==> Some(done[n - 1]) == s.history[n - 1].record
    ensures var r := s.history[n].record.value;
      && r.body.sequence == n + 1 && DigestsNameDocuments(r)
      && r.body.priorRecordSha == PriorSha(done, n)
      && (n > 0 ==> r.body.previousSha == done[n - 1].body.nextSha)
      && (s.active.value.sha == r.body.previousSha || s.active.value.sha == r.body.nextSha)
  {
    assert RecordFits(runId, s.history, n);
    if n > 0 {
      assert RecordFits(runId, s.history, n - 1);
    }
  }

  lemma FrontierFits(runId: string, s: Store, n: nat, last: Record)
    requires Inv(runId, s) && s.active.Some? && n == Completions(s.history) > 0
    requires n < |s.history| ==> s.history[n].record.None?
    requires s.history[n - 1].record == Some(last)
    ensures s.active.value.sha == last.body.nextSha
  {
    assert RecordFits(runId, s.history, n - 1);
  }

  lemma VerdictHolds(runId: string, s: Store, n: nat, records: seq<Record>, done: seq<Record>)
    requires Inv(runId, s) && s.active.Some? && n == Completions(s.history)
    requires Linked(done) && |done| == n && Completed(records) == done
    requires n > 0 ==> Some(done[n - 1]) == s.history[n - 1].record
    requires PreparedOnes(records)
          == if n < |s.history| && s.history[n].record.Some? then [s.history[n].record.value] else []
    ensures ChainAccepted(records, s.active.value)
  {
    if n < |s.history| && s.history[n].record.Some? {
      PendingFits(runId, s, n, done);
    } else if n > 0 {
      FrontierFits(runId, s, n, done[n - 1]);
    }
    ChainFromParts(records, s.active.value, done, if n < |s.history| then s.history[n].record else None);
  }

  /** Every reachable store is accepted by the inventory and by the chain validator. */
  lemma InvariantIsAccepted(runId: string, s: Store)
    requires Inv(runId, s) && s.active.Some?
    ensures HistoryReadable(runId, s.history)
    ensures ChainAccepted(SortBySequence(RecordsOf(s.history)), s.active.value)
  {
    InventoryOfInvariant(runId, s);
    var n := Completions(s.history);
    VerdictHolds(runId, s, n, SortBySequence(RecordsOf(s.history)), RecordsOf(s.history[..n]));
  }

  // ----- migrations and their stages -----

  datatype Migration = Migration(base: Store, next: Binding, record: Record, final: Record)
  {
    function Name(): DirectoryName { record.body.directory }
  }

  predicate WellFormed(runId: string, m: Migration) {
    && Inv(runId, m.base) && m.base.active.Some? && Quiescent(m.base)
    && var n := |m.base.history|;
    && AuthenticFor(runId, m.next)
    && m.next != m.base.active.value
    && m.record == Sealed(RecordBody(
         runId, DirectoryName(n + 1, Label(m.next.sha)), n + 1, Prepared,
         m.base.active.value.sha, m.base.active.value, m.next.sha, m.next, m.record.body.context,
         if n == 0 then None else Some(m.base.history[n - 1].record.value.sha)))
    && m.final.body.status.Complete?
    && m.final == Sealed(m.record.body.(status := m.final.body.status))
  }

  function Steps(m: Migration): (steps: seq<Publication>)
    requires m.base.active.Some?
    ensures |steps| == 6
  {
    [MakeDirectory(m.Name()), PublishPrevious(m.Name(), m.base.active.value), PublishNext(m.Name(), m.next),
     PublishRecord(m.Name(), m.record), ReplaceActive(m.next), PublishRecord(m.Name(), m.final)]
  }

  /** The store after the first k publications of a migration. */
  function At(m: Migration, k: nat): Store
    requires m.base.active.Some?
  {
    Store(
      if k < 5 then m.base.active else Some(m.next),
      if k == 0 then m.base.history
      else m.base.history + [Directory(
        m.Name(),
        if k < 2 then None else m.base.active,
        if k < 3 then None else Some(m.next),
        if k < 4 then None else if k < 6 then Some(m.record) else Some(m.final))])
  }

  lemma NamesBelowFrontier(runId: string, m: Migration, i: nat)
    requires WellFormed(runId, m) && i < |m.base.history|
    ensures m.base.history[i].name != m.Name()
  {
    assert RecordFits(runId, m.base.history, i);
  }

  lemma StepAdvances(runId: string, m: Migration, k: nat)
    requires WellFormed(runId, m) && k < 6
    ensures Apply(At(m, k), Steps(m)[k]) == At(m, k + 1)
  {
    var s, t := Apply(At(m, k), Steps(m)[k]), At(m, k + 1);
    forall i: nat | i < |m.base.history| ensures m.base.history[i].name != m.Name() {
      NamesBelowFrontier(runId, m, i);
    }
    assert |s.history| == |t.history|;
    forall i | 0 <= i < |t.history| ensures s.history[i] == t.history[i] {}
    assert s.history == t.history;
  }

  lemma {:induction false} StepsAdvance(runId: string, m: Migration, k: nat, j: nat)
    requires WellFormed(runId, m) && k + j <= 6
    ensures ApplyAll(At(m, k), Steps(m)[k..k + j]) == At(m, k + j)
  {
    var steps := Steps(m);
    if j > 0 {
      StepsAdvance(runId, m, k, j - 1);
      StepAdvances(runId, m, k + j - 1);
      LastOfRange(steps, k, k + j);
    }
  }

  lemma LastOfRange(steps: seq<Publication>, k: nat, j: nat)
    requires k < j <= |steps|
    ensures var ps := steps[k..j]; ps[..|ps| - 1] == steps[k..j - 1] && ps[|ps| - 1] == steps[j - 1]
  {
  }

  lemma AppendKeepsPrefix(runId: string, history: seq<Directory>, d: Directory)
    requires CompletedPrefix(runId, history, |history|)
    ensures CompletedPrefix(runId, history + [d], |history|)
  {
    var h := history + [d];
    forall k | 0 <= k < |history| ensures RecordFits(runId, h, k) && IsCompleted(h[k]) {
      assert RecordFits(runId, history, k);
    }
  }

  lemma StageRecordFits(runId: string, m: Migration, k: nat)
    requires WellFormed(runId, m) && 4 <= k <= 6
    ensures RecordFits(runId, At(m, k).history, |m.base.history|)
  {
    var n := |m.base.history|;
    if n > 0 {
      assert RecordFits(runId, m.base.history, n - 1);
    }
  }

  lemma StageShape(m: Migration, k: nat, d: Directory)
    requires m.base.active.Some? && 1 <= k <= 6 && d == At(m, k).history[|m.base.history|]
    ensures At(m, k).history == m.base.history + [d]
    ensures d.name == m.Name()
    ensures k < 4 ==> d.record.None? && At(m, k).active == m.base.active
    ensures k >= 4 ==> d.record == Some(if k < 6 then m.record else m.final)
  {
  }

  lemma StageCompletions(runId: string, m: Migration, k: nat)
    requires WellFormed(runId, m) && k <= 6
    ensures Completions(At(m, k).history) == if k == 6 then |m.base.history| + 1 else |m.base.history|
  {
    if k > 0 {
      StageShape(m, k, At(m, k).history[|m.base.history|]);
    }
  }

  /** Before the record is published. */
  lemma EarlyStageInFlight(runId: string, m: Migration, k: nat)
    requires WellFormed(runId, m) && 1 <= k <= 3
    ensures InFlight(runId, m.base.active.value, At(m, k).history, |m.base.history|)
  {
    var n := |m.base.history|;
    if n > 0 {
      assert At(m, k).history[n - 1] == m.base.history[n - 1];
    }
  }

  lemma StageKeepsInvariant(runId: string, m: Migration, k: nat)
    requires WellFormed(runId, m) && k <= 6
    ensures Inv(runId, At(m, k))
    ensures At(m, k).active.Some?
    ensures Completions(At(m, k).history) == if k == 6 then |m.base.history| + 1 else |m.base.history|
  {
    var n := |m.base.history|;
    StageCompletions(runId, m, k);
    if k == 0 {
      assert At(m, k) == m.base;
    } else {
      var h := At(m, k).history;
      StageShape(m, k, h[n]);
      AppendKeepsPrefix(runId, m.base.history, h[n]);
      if k < 4 {
        EarlyStageInFlight(runId, m, k);
      } else {
        StageRecordFits(runId, m, k);
        LateStage(runId, m, k, At(m, k));
      }
    }
  }

  /** Once the record is published. */
  lemma LateStage(runId: string, m: Migration, k: nat, s: Store)
    requires WellFormed(runId, m) && 4 <= k <= 6 && s == At(m, k)
    requires RecordFits(runId, s.history, |m.base.history|) && CompletedPrefix(runId, s.history, |m.base.history|)
    ensures k < 6 ==> InFlight(runId, s.active.value, s.history, |m.base.history|)
    ensures k == 6 ==>
      CompletedPrefix(runId, s.history, |s.history|) && AtFrontier(s.active.value, s.history, |s.history|)
  {
  }

  // ----- every call continues a migration -----

  /** The quiescent store the current migration set out from. */
  function BaseOf(s: Store): Store {
    var n := Completions(s.history);
    if n == |s.history| then s
    else if s.history[n].record.Some? then Store(Some(s.history[n].record.value.body.previous), s.history[..n])
    else Store(s.active, s.history[..n])
  }

  /** How far it has got. */
  function StageOf(s: Store): nat {
    var n := Completions(s.history);
    if n == |s.history| then 0
    else
      var d := s.history[n];
      if d.record.Some? then (if s.active == Some(d.record.value.body.next) then 5 else 4)
      else if d.next.Some? then 3
      else if d.previous.Some? then 2
      else 1
  }

  /** The requests that can be granted in a store: a check a caller can make beforehand. */
  predicate Admits(s: Store, projection: Projection)
    requires s.active.Some?
  {
    var n := Completions(s.history);
    if n == |s.history| then
      projection != s.active.value.projection || n > 0
    else
      var d := s.history[n];
      if d.record.Some? then projection == d.record.value.body.next.projection
      else
        && d.name.prefix == Label(OfProjection(projection))
        && projection != s.active.value.projection
        && (d.next.Some? ==> projection == d.next.value.projection)
  }

  function MigrationFor(runId: string, s: Store, req: Request): Migration
    requires s.active.Some?
  {
    var n := Completions(s.history);
    var next := BindingFor(runId, req.projection);
    var base := BaseOf(s);
    var record :=
      if n < |s.history| && s.history[n].record.Some? then s.history[n].record.value
      else NewRecord(runId, DirectoryName(n + 1, Label(next.sha)), n + 1, s.active.value, next, req,
                     if n == 0 then None else s.history[n - 1].record);
    Migration(base, next, record, Finished(record, req))
  }

  predicate AlreadyThere(s: Store, projection: Projection)
    requires s.active.Some?
  {
    Quiescent(s) && projection == s.active.value.projection
  }

  lemma BaseIsQuiescent(runId: string, s: Store)
    requires Inv(runId, s) && s.active.Some?
    ensures var base, n := BaseOf(s), Completions(s.history);
      Inv(runId, base) && base.active.Some? && Quiescent(base) && base.history == s.history[..n]
  {
    var h, n := s.history, Completions(s.history);
    FrontIsCompleted(runId, h, n);
    if n > 0 {
      assert RecordFits(runId, h[..n], n - 1);
    }
    if n < |h| {
      if h[n].record.Some? {
        assert RecordFits(runId, h, n);
      }
    } else {
      assert h[..n] == h;
    }
  }

  lemma MigrationIsWellFormed(runId: string, s: Store, req: Request)
    requires Inv(runId, s) && s.active.Some?
    requires Admits(s, req.projection) && !AlreadyThere(s, req.projection)
    ensures WellFormed(runId, MigrationFor(runId, s, req))
    ensures s == At(MigrationFor(runId, s, req), StageOf(s))
  {
    BaseIsQuiescent(runId, s);
    MigrationRecordIsRight(runId, s, req);
    MigrationResumesHere(runId, s, req);
  }

  lemma MigrationRecordIsRight(runId: string, s: Store, req: Request)
    requires Inv(runId, s) && s.active.Some?
    requires Admits(s, req.projection) && !AlreadyThere(s, req.projection)
    requires BaseOf(s).history == s.history[..Completions(s.history)]
    requires Inv(runId, BaseOf(s)) && BaseOf(s).active.Some? && Quiescent(BaseOf(s))
    ensures WellFormed(runId, MigrationFor(runId, s, req))
  {
    var h, n := s.history, Completions(s.history);
    if n < |h| && h[n].record.Some? {
      assert RecordFits(runId, h, n);
    }
  }

  lemma MigrationResumesHere(runId: string, s: Store, req: Request)
    requires Inv(runId, s) && s.active.Some?
    requires Admits(s, req.projection) && !AlreadyThere(s, req.projection)
    requires BaseOf(s).history == s.history[..Completions(s.history)]
    ensures s == At(MigrationFor(runId, s, req), StageOf(s))
  {
    var h, n := s.history, Completions(s.history);
    if n < |h| {
      assert h == h[..n] + [h[n]];
      if h[n].record.Some? {
        assert RecordFits(runId, h, n);
      }
    }
  }

  lemma PlanWhenSettled(runId: string, s: Store, records: seq<Record>, req: Request)
    requires Inv(runId, s) && s.active.Some? && Quiescent(s) && Admits(s, req.projection)
    requires !AlreadyThere(s, req.projection)
    requires MaxSequence(records) == |s.history|
    requires LatestComplete(records) == if s.history == [] then None else s.history[|s.history| - 1].record
    ensures var m := MigrationFor(runId, s, req);
      && m.base == s
      && PlanSettled(runId, s.active.value, s.history, records, req, BindingFor(runId, req.projection))
         == Plan(Steps(m)[0..], Done(m.final, false))
  {
    var h, n := s.history, |s.history|;
    forall d | d in h ensures d.name.sequence != n + 1 {
      var k :| 0 <= k < n && h[k] == d;
      assert RecordFits(runId, h, k);
    }
  }

  lemma PlanWhenPartial(runId: string, s: Store, records: seq<Record>, req: Request)
    requires Inv(runId, s) && s.active.Some? && !Quiescent(s) && Admits(s, req.projection)
    requires s.history[Completions(s.history)].record.None?
    requires PreparedOnes(records) == [] && MaxSequence(records) == Completions(s.history)
    requires LatestComplete(records)
          == if Completions(s.history) == 0 then None else s.history[Completions(s.history) - 1].record
    ensures var m, n := MigrationFor(runId, s, req), Completions(s.history);
      PlanPartial(runId, s.active.value, records, [s.history[n]], req, BindingFor(runId, req.projection))
      == Plan(Steps(m)[StageOf(s)..], Done(m.final, true))
  {
    var m, d := MigrationFor(runId, s, req), s.history[Completions(s.history)];
    var next := BindingFor(runId, req.projection);
    assert PlanPending(s.active.value, m.record, req, next) == Plan(Steps(m)[4..], Done(m.final, true));
    assert Steps(m)[3..] == [PublishRecord(d.name, m.record)] + Steps(m)[4..];
    if d.next.None? {
      assert Steps(m)[2..] == [PublishNext(d.name, next)] + Steps(m)[3..];
      if d.previous.None? {
        assert Steps(m)[1..] == [PublishPrevious(d.name, s.active.value)] + Steps(m)[2..];
      }
    }
  }

  lemma PlanWhenPending(runId: string, s: Store, req: Request)
    requires Inv(runId, s) && s.active.Some? && !Quiescent(s) && Admits(s, req.projection)
    requires s.history[Completions(s.history)].record.Some?
    ensures var m, n := MigrationFor(runId, s, req), Completions(s.history);
      PlanPending(s.active.value, s.history[n].record.value, req, BindingFor(runId, req.projection))
      == Plan(Steps(m)[StageOf(s)..], Done(m.final, true))
  {
    var m, n := MigrationFor(runId, s, req), Completions(s.history);
    assert RecordFits(runId, s.history, n);
    assert Steps(m)[5..] == [Steps(m)[5]] && Steps(m)[4..] == [Steps(m)[4], Steps(m)[5]];
  }

  /** The three ways a call on an accepted store goes on. */
  lemma PlanReaches(runId: string, s: Store, req: Request, records: seq<Record>, partials: seq<Directory>,
                    pending: Option<Record>)
    requires s.active.Some? && Authentic(s.active.value) && req.admissible
    requires HistoryReadable(runId, s.history)
    requires records == SortBySequence(RecordsOf(s.history)) && ChainAccepted(records, s.active.value)
    requires partials == PartialsOf(s.history)
    requires PreparedOnes(records) == if pending.Some? then [pending.value] else []
    ensures var next := BindingFor(runId, req.projection);
      PlanFor(runId, s, req)
      == if partials != [] then PlanPartial(runId, s.active.value, records, partials, req, next)
         else if pending.Some? then PlanPending(s.active.value, pending.value, req, next)
         else PlanSettled(runId, s.active.value, s.history, records, req, next)
  {
  }

  lemma RefusedOrRepeated(runId: string, s: Store, req: Request, records: seq<Record>)
    requires Inv(runId, s) && s.active.Some? && Quiescent(s)
    requires !Admits(s, req.projection) || AlreadyThere(s, req.projection)
    requires LatestComplete(records) == if s.history == [] then None else s.history[|s.history| - 1].record
    ensures PlanSettled(runId, s.active.value, s.history, records, req, BindingFor(runId, req.projection))
         == if s.history == [] then Stop(NoMigrationEvidence)
            else Plan([], Done(s.history[|s.history| - 1].record.value, true))
  {
    if s.history != [] {
      assert RecordFits(runId, s.history, |s.history| - 1);
    }
  }

  /** What a call plans: nothing, or the remaining steps of the migration under way. */
  predicate Continues(runId: string, s: Store, req: Request, plan: Plan)
    requires s.active.Some?
  {
    if !Admits(s, req.projection) then plan.steps == [] && plan.outcome.Refused?
    else if AlreadyThere(s, req.projection) then
      s.history != [] && s.history[|s.history| - 1].record.Some?
      && plan == Plan([], Done(s.history[|s.history| - 1].record.value, true))
    else
      var m := MigrationFor(runId, s, req);
      m.base.active.Some? && StageOf(s) <= 6
      && plan == Plan(Steps(m)[StageOf(s)..], Done(m.final, StageOf(s) > 0))
  }

  lemma ContinuesWhenQuiescent(runId: string, s: Store, req: Request)
    requires Inv(runId, s) && s.active.Some? && req.admissible && Quiescent(s)
    ensures Continues(runId, s, req, PlanFor(runId, s, req))
  {
    InventoryOfInvariant(runId, s);
    InvariantIsAccepted(runId, s);
    var h, records := s.history, SortBySequence(RecordsOf(s.history));
    assert h[..|h|] == h;
    PlanReaches(runId, s, req, records, [], None);
    if Admits(s, req.projection) && !AlreadyThere(s, req.projection) {
      PlanWhenSettled(runId, s, records, req);
    } else {
      RefusedOrRepeated(runId, s, req, records);
    }
  }

  lemma ContinuesWhenPending(runId: string, s: Store, req: Request)
    requires Inv(runId, s) && s.active.Some? && req.admissible && !Quiescent(s)
    requires s.history[Completions(s.history)].record.Some?
    ensures Continues(runId, s, req, PlanFor(runId, s, req))
  {
    InventoryOfInvariant(runId, s);
    InvariantIsAccepted(runId, s);
    var n := Completions(s.history);
    PlanReaches(runId, s, req, SortBySequence(RecordsOf(s.history)), [], s.history[n].record);
    assert RecordFits(runId, s.history, n);
    if Admits(s, req.projection) {
      PlanWhenPending(runId, s, req);
    }
  }

  lemma ContinuesWhenPartial(runId: string, s: Store, req: Request)
    requires Inv(runId, s) && s.active.Some? && req.admissible && !Quiescent(s)
    requires s.history[Completions(s.history)].record.None?
    ensures Continues(runId, s, req, PlanFor(runId, s, req))
  {
    InventoryOfInvariant(runId, s);
    InvariantIsAccepted(runId, s);
    var n, records := Completions(s.history), SortBySequence(RecordsOf(s.history));
    PlanReaches(runId, s, req, records, [s.history[n]], None);
    if Admits(s, req.projection) {
      PlanWhenPartial(runId, s, records, req);
    }
  }

  /** The plan of any call on a reachable store, in closed form. */
  lemma PlanContinuesMigration(runId: string, s: Store, req: Request)
    requires Inv(runId, s) && s.active.Some? && req.admissible
    ensures Continues(runId, s, req, PlanFor(runId, s, req))
  {
    if Quiescent(s) {
      ContinuesWhenQuiescent(runId, s, req);
    } else if s.history[Completions(s.history)].record.Some? {
      ContinuesWhenPending(runId, s, req);
    } else {
      ContinuesWhenPartial(runId, s, req);
    }
  }

  lemma AttemptReachesStage(runId: string, s: Store, req: Request, life: nat)
    requires Inv(runId, s) && s.active.Some? && req.admissible
    requires Admits(s, req.projection) && !AlreadyThere(s, req.projection)
    ensures var m, k := MigrationFor(runId, s, req), StageOf(s);
      && WellFormed(runId, m)
      && Attempt(runId, s, req, life) == At(m, if k + life <= 6 then k + life else 6)
  {
    MigrationIsWellFormed(runId, s, req);
    PlanContinuesMigration(runId, s, req);
    var m, k := MigrationFor(runId, s, req), StageOf(s);
    var j := if k + life <= 6 then life else 6 - k;
    StepsAdvance(runId, m, k, j);
    RemainingSteps(Steps(m), k, life);
  }

  /** A request the store does not admit, or that is already in force, changes nothing. */
  lemma AttemptChangesNothing(runId: string, s: Store, req: Request, life: nat)
    requires Inv(runId, s)
    requires s.active.None? || !req.admissible || !Admits(s, req.projection) || AlreadyThere(s, req.projection)
    ensures Attempt(runId, s, req, life) == s
  {
    if s.active.Some? && req.admissible {
      PlanContinuesMigration(runId, s, req);
    }
  }

  // ----- runs -----

  datatype Event =
    | Ensure(projection: Projection, allowCreate: bool)
    | Migrate(req: Request, life: nat)

  function Exec(runId: string, s: Store, e: Event): Store {
    match e
    case Ensure(p, allowCreate) => Ensured(runId, s, p, allowCreate)
    case Migrate(req, life) => Attempt(runId, s, req, life)
  }

  function Executes(runId: string): (Store, Event) -> Store {
    (s: Store, e: Event) => Exec(runId, s, e)
  }

  function ExecAll(runId: string, s: Store, es: seq<Event>): Store {
    RunAll(Executes(runId), s, es)
  }

  const Unbound := Store(None, [])

  lemma EventKeepsInvariant(runId: string, s: Store, e: Event)
    requires Inv(runId, s)
    ensures Inv(runId, Exec(runId, s, e))
  {
    match e
    case Ensure(_, _) =>
    case Migrate(req, life) =>
      if s.active.Some? && req.admissible && Admits(s, req.projection) && !AlreadyThere(s, req.projection) {
        AttemptReachesStage(runId, s, req, life);
        var m, k := MigrationFor(runId, s, req), StageOf(s);
        StageKeepsInvariant(runId, m, if k + life <= 6 then k + life else 6);
      } else {
        AttemptChangesNothing(runId, s, req, life);
      }
  }

  /** The chain invariant holds after every run: any bindings, any requests, any deaths. */
  lemma {:induction false} EveryRunKeepsInvariant(runId: string, es: seq<Event>)
    ensures Inv(runId, ExecAll(runId, Unbound, es))
  {
    if es != [] {
      EveryRunKeepsInvariant(runId, es[..|es| - 1]);
      EventKeepsInvariant(runId, ExecAll(runId, Unbound, es[..|es| - 1]), es[|es| - 1]);
    }
  }

  // ----- crash anywhere, exactly once -----

  /** Repeated calls for one projection, each with its own context, clock and moment of death. */
  predicate AllFor(projection: Projection, es: seq<Event>) {
    forall e :: e in es ==> e.Migrate? && e.req.admissible && e.req.projection == projection
  }

  /** The one record a projection's migration out of `base` ends with. */
  predicate CompletedOnce(runId: string, base: Store, projection: Projection, t: Store)
    requires base.active.Some?
  {
    var n := |base.history|;
    && t.active == Some(BindingFor(runId, projection))
    && |t.history| == n + 1
    && t.history[..n] == base.history
    && IsCompleted(t.history[n])
    && RecordFits(runId, t.history, n)
    && t.history[n].record.value.body.previous == base.active.value
    && t.history[n].record.value.body.next == BindingFor(runId, projection)
  }

  /** Between death and completion: some stage of a migration out of the same base. */
  ghost predicate Underway(runId: string, base: Store, projection: Projection, t: Store) {
    exists m, k: nat :: k <= 6 && WellFormed(runId, m) && m.base == base
      && m.next == BindingFor(runId, projection) && t == At(m, k)
  }

  lemma StageFacts(runId: string, m: Migration, k: nat)
    requires WellFormed(runId, m) && k <= 6
    ensures Inv(runId, At(m, k))
    ensures Admits(At(m, k), m.next.projection)
    ensures AlreadyThere(At(m, k), m.next.projection) <==> k == 6
    ensures k < 6 ==> BaseOf(At(m, k)) == m.base && StageOf(At(m, k)) == k
    ensures k == 6 ==> CompletedOnce(runId, m.base, m.next.projection, At(m, k))
  {
    StageKeepsInvariant(runId, m, k);
    var n := |m.base.history|;
    if 0 < k < 6 {
      assert At(m, k).history[..n] == m.base.history;
    }
    if k == 6 {
      assert At(m, k).history[..n] == m.base.history;
      if n > 0 {
        assert RecordFits(runId, m.base.history, n - 1);
      }
    }
  }

  lemma AttemptStaysUnderway(runId: string, base: Store, t: Store, req: Request, life: nat)
    requires req.admissible && Underway(runId, base, req.projection, t)
    ensures Underway(runId, base, req.projection, Attempt(runId, t, req, life))
    ensures life >= 6 ==> CompletedOnce(runId, base, req.projection, Attempt(runId, t, req, life))
  {
    var m, k: nat :| k <= 6 && WellFormed(runId, m) && m.base == base
      && m.next == BindingFor(runId, req.projection) && t == At(m, k);
    StageFacts(runId, m, k);
    if k == 6 {
      AttemptChangesNothing(runId, t, req, life);
    } else {
      AttemptReachesStage(runId, t, req, life);
      var m' := MigrationFor(runId, t, req);
      var j := if k + life <= 6 then k + life else 6;
      assert Attempt(runId, t, req, life) == At(m', j);
      StageFacts(runId, m', j);
    }
  }

  lemma {:induction false} AttemptsStayUnderway(runId: string, base: Store, projection: Projection, t: Store,
                                               es: seq<Event>)
    requires AllFor(projection, es) && Underway(runId, base, projection, t)
    ensures Underway(runId, base, projection, ExecAll(runId, t, es))
  {
    if es != [] {
      AttemptsStayUnderway(runId, base, projection, t, es[..|es| - 1]);
      var e := es[|es| - 1];
      assert e in es;
      AttemptStaysUnderway(runId, base, ExecAll(runId, t, es[..|es| - 1]), e.req, e.life);
    }
  }

  /** Crash anywhere, exactly once.  From any store a run can reach, whatever is in flight, any
      number of calls for an admitted projection that die anywhere, followed by one that lives,
      leave it active with exactly one completed record added to the base history. */
  lemma CrashAnywhereExactlyOnce(runId: string, s: Store, projection: Projection, es: seq<Event>, last: Event)
    requires Inv(runId, s) && s.active.Some? && Admits(s, projection) && !AlreadyThere(s, projection)
    requires AllFor(projection, es + [last]) && last.life >= 6
    ensures CompletedOnce(runId, BaseOf(s), projection, ExecAll(runId, s, es + [last]))
  {
    assert last in es + [last];
    MigrationIsWellFormed(runId, s, last.req);
    var m := MigrationFor(runId, s, last.req);
    assert m.base == BaseOf(s) && m.next == BindingFor(runId, projection) && s == At(m, StageOf(s));
    forall e | e in es ensures e in es + [last] {}
    AttemptsStayUnderway(runId, BaseOf(s), projection, s, es);
    assert (es + [last])[..|es|] == es;
    AttemptStaysUnderway(runId, BaseOf(s), ExecAll(runId, s, es), last.req, last.life);
  }

  /** Requests for another projection while a migration is in flight are refused and change
      nothing, but for one accident: a directory that has only its name and the binding it leaves
      is taken over by a request whose digest shares its label. */
  lemma OtherRequestsWait(runId: string, m: Migration, k: nat, req: Request, life: nat)
    requires WellFormed(runId, m) && 0 < k < 6 && req.admissible && req.projection != m.next.projection
    ensures Admits(At(m, k), req.projection) <==>
      k <= 2 && Label(OfProjection(req.projection)) == Label(m.next.sha)
      && req.projection != m.base.active.value.projection
    ensures !Admits(At(m, k), req.projection) ==>
      Attempt(runId, At(m, k), req, life) == At(m, k) && AttemptOutcome(runId, At(m, k), req, life).Refused?
  {
    StageKeepsInvariant(runId, m, k);
    PlanContinuesMigration(runId, At(m, k), req);
  }

  /** Anything may be called in between that does not take over the directory: bindings, calls for
      the projection, calls that are not admissible, calls for others with another label. */
  predicate Compatible(projection: Projection, e: Event) {
    e.Ensure? || e.req.projection == projection || !e.req.admissible
    || Label(OfProjection(e.req.projection)) != Label(OfProjection(projection))
  }

  lemma CompatibleStaysUnderway(runId: string, base: Store, projection: Projection, t: Store, e: Event)
    requires Compatible(projection, e) && Underway(runId, base, projection, t) && !Quiescent(t)
    ensures Underway(runId, base, projection, Exec(runId, t, e))
  {
    var m, k: nat :| k <= 6 && WellFormed(runId, m) && m.base == base
      && m.next == BindingFor(runId, projection) && t == At(m, k);
    StageKeepsInvariant(runId, m, k);
    if e.Migrate? {
      if !e.req.admissible {
        AttemptChangesNothing(runId, t, e.req, e.life);
      } else if e.req.projection == projection {
        AttemptStaysUnderway(runId, base, t, e.req, e.life);
      } else {
        OtherRequestsWait(runId, m, k, e.req, e.life);
      }
    }
  }

  lemma {:induction false} CompatiblesStayUnderway(runId: string, base: Store, projection: Projection, t: Store,
                                                  es: seq<Event>)
    requires Underway(runId, base, projection, t)
    requires forall e :: e in es ==> Compatible(projection, e)
    requires forall i: nat {:trigger es[..i]} :: i < |es| ==> !Quiescent(ExecAll(runId, t, es[..i]))
    ensures Underway(runId, base, projection, ExecAll(runId, t, es))
  {
    if es != [] {
      var front := es[..|es| - 1];
      forall i: nat {:trigger front[..i]} | i < |front| ensures !Quiescent(ExecAll(runId, t, front[..i])) {
        assert front[..i] == es[..i];
      }
      CompatiblesStayUnderway(runId, base, projection, t, front);
      assert es[|es| - 1] in es;
      CompatibleStaysUnderway(runId, base, projection, ExecAll(runId, t, front), es[|es| - 1]);
    }
  }

  /** Exactly once, whatever else is called meanwhile: a migration in flight that is not completed
      yet is completed, once, by the next call for its projection that lives. */
  lemma InterleavedCallsComplete(runId: string, s: Store, projection: Projection, es: seq<Event>, req: Request,
                                 life: nat)
    requires Inv(runId, s) && s.active.Some? && Admits(s, projection)
    requires forall e :: e in es ==> Compatible(projection, e)
    requires forall i: nat {:trigger es[..i]} :: i <= |es| ==> !Quiescent(ExecAll(runId, s, es[..i]))
    requires req.admissible && req.projection == projection && life >= 6
    ensures CompletedOnce(runId, BaseOf(s), projection, Attempt(runId, ExecAll(runId, s, es), req, life))
  {
    assert es[..0] == [];
    MigrationIsWellFormed(runId, s, req);
    var m := MigrationFor(runId, s, req);
    assert m.base == BaseOf(s) && m.next == BindingFor(runId, projection) && s == At(m, StageOf(s));
    CompatiblesStayUnderway(runId, BaseOf(s), projection, s, es);
    AttemptStaysUnderway(runId, BaseOf(s), ExecAll(runId, s, es), req, life);
  }

  /** ... and from there every further call for it returns that record and changes nothing. */
  lemma RepeatsChangeNothing(runId: string, base: Store, t: Store, req: Request, life: nat)
    requires Inv(runId, t) && base.active.Some? && req.admissible
    requires CompletedOnce(runId, base, req.projection, t)
    ensures Attempt(runId, t, req, life) == t
    ensures AttemptOutcome(runId, t, req, life) == Done(t.history[|base.history|].record.value, true)
  {
    AttemptChangesNothing(runId, t, req, life);
    PlanContinuesMigration(runId, t, req);
  }

  /** A call that is not interrupted succeeds exactly when the store admits its projection, and
      needs at most six publications; a refusal publishes nothing. */
  lemma SucceedsExactlyWhenAdmitted(runId: string, s: Store, req: Request, life: nat)
    requires Inv(runId, s) && s.active.Some? && req.admissible && life >= 6
    ensures AttemptOutcome(runId, s, req, life).Done? <==> Admits(s, req.projection)
    ensures !Admits(s, req.projection) ==>
              AttemptOutcome(runId, s, req, life).Refused? && Attempt(runId, s, req, life) == s
  {
    PlanContinuesMigration(runId, s, req);
    if Admits(s, req.projection) && !AlreadyThere(s, req.projection) {
      MigrationIsWellFormed(runId, s, req);
    }
  }

  // ----- nothing once active is lost -----

  /** A binding that is active, or that some migration has left. */
  predicate Past(s: Store, b: Binding) {
    || s.active == Some(b)
    || (exists d :: d in s.history && d.record.Some? && d.record.value.body.previous == b)
  }

  /** What the historical lookup can return: active, or either side of a completed record. */
  predicate Preserved(s: Store, b: Binding) {
    || s.active == Some(b)
    || (PartialsOf(s.history) == []
        && (exists r :: r in RecordsOf(s.history) && r.body.status.Complete?
              && (r.body.previous == b || r.body.next == b)))
  }

  lemma StageKeepsPast(runId: string, m: Migration, k: nat, j: nat, b: Binding)
    requires WellFormed(runId, m) && k <= j <= 6 && Past(At(m, k), b)
    ensures Past(At(m, j), b)
  {
    var s, t, n := At(m, k), At(m, j), |m.base.history|;
    if s.active != Some(b) {
      var d :| d in s.history && d.record.Some? && d.record.value.body.previous == b;
      var i :| 0 <= i < |s.history| && s.history[i] == d;
      assert t.history[i] in t.history;
    } else if j >= 5 {
      assert t.history[n] in t.history;
    }
  }

  lemma EventKeepsPast(runId: string, s: Store, e: Event, b: Binding)
    requires Inv(runId, s) && Past(s, b)
    ensures Past(Exec(runId, s, e), b)
  {
    if e.Migrate? {
      if s.active.Some? && e.req.admissible && Admits(s, e.req.projection) && !AlreadyThere(s, e.req.projection) {
        MigrationIsWellFormed(runId, s, e.req);
        AttemptReachesStage(runId, s, e.req, e.life);
        var k := StageOf(s);
        StageKeepsPast(runId, MigrationFor(runId, s, e.req), k, if k + e.life <= 6 then k + e.life else 6, b);
      } else {
        AttemptChangesNothing(runId, s, e.req, e.life);
      }
    }
  }

  lemma {:induction false} OnceActiveIsPast(runId: string, es: seq<Event>, i: nat)
    requires i <= |es| && ExecAll(runId, Unbound, es[..i]).active.Some?
    ensures Past(ExecAll(runId, Unbound, es), ExecAll(runId, Unbound, es[..i]).active.value)
  {
    if i == |es| {
      assert es[..i] == es;
    } else {
      var front := es[..|es| - 1];
      assert front[..i] == es[..i];
      OnceActiveIsPast(runId, front, i);
      EveryRunKeepsInvariant(runId, front);
      var b := ExecAll(runId, Unbound, es[..i]).active.value;
      EventKeepsPast(runId, ExecAll(runId, Unbound, front), es[|es| - 1], b);
    }
  }

  /** What is in flight does not stand in the way of the bindings that came before: nothing is in
      flight; or the first migration is, still without a record; or one whose record is prepared
      is, and it has not switched the active binding away from an original that no completed
      record names. */
  predicate ServesHistory(s: Store)
    requires s.active.Some?
  {
    var n := Completions(s.history);
    n == |s.history|
    || (if s.history[n].record.None? then n == 0
        else n > 0 || s.active == Some(s.history[n].record.value.body.previous))
  }

  lemma CompletedIsPreserved(runId: string, s: Store, n: nat, k: nat, b: Binding)
    requires Inv(runId, s) && s.active.Some? && n == Completions(s.history) && k < n
    requires PartialsOf(s.history) == [] && s.history[k].record.Some?
    requires s.history[k].record.value.body.previous == b || s.history[k].record.value.body.next == b
    ensures Preserved(s, b)
  {
    assert RecordFits(runId, s.history, k);
    RecordIsListed(s.history, k, s.history[k].record.value);
  }

  lemma {:induction false} RecordIsListed(history: seq<Directory>, k: nat, r: Record)
    requires k < |history| && history[k].record == Some(r)
    ensures r in RecordsOf(history)
  {
    if k < |history| - 1 {
      RecordIsListed(history[..|history| - 1], k, r);
    }
  }

  lemma {:induction false} ListedIsRecord(history: seq<Directory>, r: Record)
    requires r in RecordsOf(history)
    ensures exists k :: 0 <= k < |history| && history[k].record == Some(r)
  {
    var front, last := history[..|history| - 1], history[|history| - 1];
    if r in RecordsOf(front) {
      ListedIsRecord(front, r);
      var k :| 0 <= k < |front| && front[k].record == Some(r);
      assert history[k].record == Some(r);
    } else {
      assert history[|history| - 1].record == Some(r);
    }
  }

  lemma PreparedLeavesNone(runId: string, s: Store, b: Binding)
    requires Inv(runId, s) && s.active.Some? && Completions(s.history) == 0 && |s.history| == 1
    requires s.active != Some(b)
    ensures !Preserved(s, b)
  {
    forall r | r in RecordsOf(s.history) ensures !r.body.status.Complete? {
      ListedIsRecord(s.history, r);
    }
  }

  lemma ServedHasNoPartials(runId: string, s: Store, k: nat)
    requires Inv(runId, s) && s.active.Some? && ServesHistory(s)
    requires k < |s.history| && s.history[k].record.Some?
    ensures PartialsOf(s.history) == []
  {
    InventoryOfInvariant(runId, s);
  }

  lemma ServedRecordIsPreserved(runId: string, s: Store, k: nat, b: Binding)
    requires Inv(runId, s) && s.active.Some? && ServesHistory(s) && s.active != Some(b)
    requires PartialsOf(s.history) == []
    requires k < |s.history| && s.history[k].record.Some? && s.history[k].record.value.body.previous == b
    ensures Preserved(s, b)
  {
    var n := Completions(s.history);
    if k < n {
      CompletedIsPreserved(runId, s, n, k, b);
    } else {
      assert RecordFits(runId, s.history, n);
      assert RecordFits(runId, s.history, n - 1);
      CompletedIsPreserved(runId, s, n, n - 1, b);
    }
  }

  lemma ServedIsPreserved(runId: string, s: Store, b: Binding)
    requires Inv(runId, s) && s.active.Some? && ServesHistory(s) && Past(s, b)
    ensures Preserved(s, b)
  {
    if s.active != Some(b) {
      var d :| d in s.history && d.record.Some? && d.record.value.body.previous == b;
      var k :| 0 <= k < |s.history| && s.history[k] == d;
      ServedHasNoPartials(runId, s, k);
      ServedRecordIsPreserved(runId, s, k, b);
    }
  }

  lemma PartialHides(runId: string, s: Store, n: nat) returns (b: Binding)
    requires Inv(runId, s) && s.active.Some? && 0 < n == Completions(s.history) < |s.history|
    requires s.history[n].record.None?
    ensures Past(s, b) && !Preserved(s, b)
  {
    InventoryOfInvariant(runId, s);
    assert RecordFits(runId, s.history, n - 1);
    b := s.history[n - 1].record.value.body.previous;
    assert s.history[n - 1] in s.history;
  }

  lemma FirstSwitchHides(runId: string, s: Store) returns (b: Binding)
    requires Inv(runId, s) && s.active.Some? && !ServesHistory(s) && Completions(s.history) == 0
    ensures Past(s, b) && !Preserved(s, b)
  {
    assert RecordFits(runId, s.history, 0);
    b := s.history[0].record.value.body.previous;
    assert s.history[0] in s.history;
    PreparedLeavesNone(runId, s, b);
  }

  /** A binding that is past and cannot be read, when something stands in the way. */
  lemma UnservedIsHidden(runId: string, s: Store) returns (b: Binding)
    requires Inv(runId, s) && s.active.Some? && !ServesHistory(s)
    ensures Past(s, b) && !Preserved(s, b)
  {
    var n := Completions(s.history);
    if n == 0 {
      b := FirstSwitchHides(runId, s);
    } else {
      b := PartialHides(runId, s, n);
    }
  }

  /** What a migration under way hides, stage by stage: once others have completed, everything but
      the active binding while its directory has no record; when it is the first, only the
      original, between the switch and its completion. */
  lemma StageServes(runId: string, m: Migration, k: nat)
    requires WellFormed(runId, m) && k <= 6
    ensures ServesHistory(At(m, k)) <==> k in {0, 4, 6} || (if m.base.history == [] then k <= 3 else k == 5)
  {
    StageCompletions(runId, m, k);
  }

  // ----- every record leaves a binding that was active -----

  ghost predicate WasActive(runId: string, es: seq<Event>, b: Binding) {
    exists i: nat {:trigger es[..i]} :: i <= |es| && ExecAll(runId, Unbound, es[..i]).active == Some(b)
  }

  lemma WasActiveStays(runId: string, front: seq<Event>, es: seq<Event>, b: Binding)
    requires front <= es && WasActive(runId, front, b)
    ensures WasActive(runId, es, b)
  {
    var i: nat :| i <= |front| && ExecAll(runId, Unbound, front[..i]).active == Some(b);
    assert front[..i] == es[..i];
  }

  /** Everything the store names as past was active at some moment of the run. */
  lemma {:induction false} PastWasActive(runId: string, es: seq<Event>, b: Binding)
    requires Past(ExecAll(runId, Unbound, es), b)
    ensures WasActive(runId, es, b)
  {
    if ExecAll(runId, Unbound, es).active == Some(b) {
      assert es[..|es|] == es;
    } else if es != [] {
      var front := es[..|es| - 1];
      EveryRunKeepsInvariant(runId, front);
      PastBefore(runId, ExecAll(runId, Unbound, front), es[|es| - 1], b);
      PastWasActive(runId, front, b);
      WasActiveStays(runId, front, es, b);
    }
  }

  lemma PastBefore(runId: string, s: Store, e: Event, b: Binding)
    requires Inv(runId, s) && Past(Exec(runId, s, e), b) && Exec(runId, s, e).active != Some(b)
    ensures Past(s, b)
  {
    if e.Migrate? {
      if s.active.Some? && e.req.admissible && Admits(s, e.req.projection) && !AlreadyThere(s, e.req.projection) {
        MigrationIsWellFormed(runId, s, e.req);
        AttemptReachesStage(runId, s, e.req, e.life);
        var k := StageOf(s);
        StagePast(runId, MigrationFor(runId, s, e.req), k, if k + e.life <= 6 then k + e.life else 6, b);
      } else {
        AttemptChangesNothing(runId, s, e.req, e.life);
      }
    }
  }

  lemma StagePast(runId: string, m: Migration, k: nat, j: nat, b: Binding)
    requires WellFormed(runId, m) && k <= j <= 6 && Past(At(m, j), b) && At(m, j).active != Some(b)
    ensures Past(At(m, k), b)
  {
    var s, t, n := At(m, k), At(m, j), |m.base.history|;
    var d :| d in t.history && d.record.Some? && d.record.value.body.previous == b;
    var i :| 0 <= i < |t.history| && t.history[i] == d;
    if i < n {
      assert s.history[i] == d;
    } else if k == 5 {
      assert s.history[n] in s.history;
    } else if k == 6 {
      assert s == t;
    }
  }

  /** Exactly when nothing is lost: over every run, every binding that was ever active can be read
      by its digest if and only if what is in flight does not stand in the way. */
  lemma NothingIsLostExactlyWhen(runId: string, es: seq<Event>)
    requires ExecAll(runId, Unbound, es).active.Some?
    ensures (forall b :: WasActive(runId, es, b) ==> Preserved(ExecAll(runId, Unbound, es), b))
       <==> ServesHistory(ExecAll(runId, Unbound, es))
  {
    var s := ExecAll(runId, Unbound, es);
    EveryRunKeepsInvariant(runId, es);
    if ServesHistory(s) {
      forall b | WasActive(runId, es, b) ensures Preserved(s, b) {
        var i: nat :| i <= |es| && ExecAll(runId, Unbound, es[..i]).active == Some(b);
        OnceActiveIsPast(runId, es, i);
        ServedIsPreserved(runId, s, b);
      }
    } else {
      var b := UnservedIsHidden(runId, s);
      PastWasActive(runId, es, b);
    }
  }

  /** Nothing once active is lost: after any run that ends quiescent, every binding that was
      active at any earlier moment can still be read by its digest. */
  lemma NothingOnceActiveIsLost(runId: string, es: seq<Event>, i: nat)
    requires i <= |es| && ExecAll(runId, Unbound, es[..i]).active.Some?
    requires Quiescent(ExecAll(runId, Unbound, es))
    ensures Preserved(ExecAll(runId, Unbound, es), ExecAll(runId, Unbound, es[..i]).active.value)
  {
    var s, b := ExecAll(runId, Unbound, es), ExecAll(runId, Unbound, es[..i]).active.value;
    OnceActiveIsPast(runId, es, i);
    EveryRunKeepsInvariant(runId, es);
    ServedIsPreserved(runId, s, b);
  }

  /** Two windows that do hide something.  A first migration killed between the switch and its
      completion hides the original binding; */
  lemma FirstSwitchHidesTheOriginal(runId: string, m: Migration)
    requires WellFormed(runId, m) && m.base.history == []
    ensures !Preserved(At(m, 5), m.base.active.value)
  {
    OnlyRecord(At(m, 5).history[0], m.record);
  }

  /** and a later one killed before its record is published hides every binding but the active. */
  lemma PartialDirectoryHidesThePast(runId: string, m: Migration, k: nat, b: Binding)
    requires WellFormed(runId, m) && m.base.history != [] && 1 <= k <= 3
    ensures Preserved(At(m, k), b) <==> m.base.active == Some(b)
  {
    StageKeepsInvariant(runId, m, k);
    InventoryOfInvariant(runId, At(m, k));
  }

  lemma OnlyRecord(d: Directory, r: Record)
    requires d.record == Some(r)
    ensures RecordsOf([d]) == [r]
  {
    assert [d][..0] == [];
  }

  // ----- launch receipts -----

  /** The part of a launch receipt that ties it to a binding. */
  datatype LaunchReceipt = LaunchReceipt(projection: Projection, bindingSha: Digest)

  /** Reading a receipt back with historical bindings allowed: its digest must name the active
      binding or a preserved one, and its projection must be that binding's. */
  ghost predicate ReceiptVerifies(s: Store, receipt: LaunchReceipt) {
    exists b: Binding {:trigger Preserved(s, b)} ::
      Preserved(s, b) && b.sha == receipt.bindingSha && b.projection == receipt.projection
  }

  /** A receipt written while its binding was active verifies after any later run of migrations,
      unless one in flight stands in the way. */
  lemma ReceiptsSurviveMigrations(runId: string, es: seq<Event>, i: nat, receipt: LaunchReceipt)
    requires i <= |es| && ExecAll(runId, Unbound, es[..i]).active.Some?
    requires receipt.bindingSha == ExecAll(runId, Unbound, es[..i]).active.value.sha
    requires receipt.projection == ExecAll(runId, Unbound, es[..i]).active.value.projection
    requires ExecAll(runId, Unbound, es).active.Some? && ServesHistory(ExecAll(runId, Unbound, es))
    ensures ReceiptVerifies(ExecAll(runId, Unbound, es), receipt)
  {
    OnceActiveIsPast(runId, es, i);
    EveryRunKeepsInvariant(runId, es);
    ServedIsPreserved(runId, ExecAll(runId, Unbound, es), ExecAll(runId, Unbound, es[..i]).active.value);
  }
}
