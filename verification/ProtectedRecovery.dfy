/**
 Recovery from protected-path drift: the whole violating candidate is discarded by a commit that
 restores the checkpoint-entry tree on top of it, published through a two-phase receipt around a
 compare-and-swap of the candidate branch and a reset of the builder's worktree.

 A commit is its own identity: equal tree, parents and message give the same commit, which is
 what makes the recovery commit the same on every retry.
 */
module ProtectedRecovery {
  import opened Wrappers
  import opened Crashes

  /** Files by path. */
  type Tree = map<string, string>

  /** A recovery commit's message ends in the recovery identity, a digest. */
  datatype Message = Text(text: string) | RecoveryOf(id: RecoveryId)

  datatype Commit = Commit(tree: Tree, parents: seq<Commit>, message: Message)

  /** What the recovery identity is a digest of. */
  datatype RecoveryId = RecoveryId(
    checkpoint: string, candidate: Commit, anchor: Commit, anchorTree: Tree, paths: set<string>)

  datatype ReceiptStatus = Prepared | Complete

  datatype Receipt = Receipt(
    id: RecoveryId,
    checkpoint: string,
    candidate: Commit,
    anchor: Commit,
    anchorTree: Tree,
    paths: set<string>,
    recovery: Commit,
    recoveryTree: Tree,
    status: ReceiptStatus)

  /** HEAD of the builder's worktree: attached to the candidate branch, or at a commit. */
  datatype Head = OnBranch | Detached(commit: Commit)

  datatype Workspace = Workspace(
    objects: set<Commit>, branch: Commit, head: Head, files: Tree, receipts: map<RecoveryId, Receipt>)

  /** One call.  `anchor` is the durable checkpoint-entry candidate, `baseline` the sealed
      baseline, `isProtected` the packet's protected paths. */
  datatype Call = Call(
    checkpoint: string,
    candidate: Commit,
    anchor: Option<Commit>,
    baseline: Option<Commit>,
    offending: set<string>,
    isProtected: string -> bool)

  datatype Refusal =
    | NoPaths
    | NoAnchor
    | AnchorUnavailable
    | ReceiptMismatch
    | RecoveryCommitInvalid
    | ContradictoryHead
    | WorktreeNotClean
    | BranchMoved
    | NotOnBranch
    | LineageInvalid
    | PathNotDrifted

  datatype Recovered = Recovered(
    previousCandidate: Commit,
    candidate: Commit,
    anchor: Commit,
    anchorTree: Tree,
    recoveryTree: Tree,
    paths: set<string>,
    alreadyRecovered: bool)

  datatype Outcome = Died | Refused(why: Refusal) | Done(result: Recovered)

  // ----- git -----

  predicate IsAncestor(a: Commit, c: Commit) {
    a == c || exists p :: p in c.parents && IsAncestor(a, p)
  }

  function HeadCommit(w: Workspace): Commit {
    match w.head
    case OnBranch => w.branch
    case Detached(c) => c
  }

  /** `git status` prints nothing. */
  predicate Clean(w: Workspace) {
    w.files == HeadCommit(w).tree
  }

  predicate SameFile(a: Tree, b: Tree, path: string) {
    (path in a <==> path in b) && (path in a ==> a[path] == b[path])
  }

  /** The deterministic commit: fixed author, dates and message, so a retry makes the same one. */
  function RecoveryCommit(id: RecoveryId): Commit {
    Commit(id.anchorTree, [id.candidate], RecoveryOf(id))
  }

  // ----- durable steps -----

  datatype Step =
    | WriteObject(commit: Commit)
    | WriteReceipt(receipt: Receipt)
    | UpdateRef(to: Commit, expected: Commit)
    | ResetHard(to: Commit)

  function Apply(w: Workspace, step: Step): Workspace {
    match step
    case WriteObject(c) => w.(objects := w.objects + {c})
    case WriteReceipt(r) => w.(receipts := w.receipts[r.id := r])
    case UpdateRef(to, expected) => if w.branch == expected then w.(branch := to) else w
    case ResetHard(to) =>
      if w.head.OnBranch? then w.(branch := to, files := to.tree)
      else w.(head := Detached(to), files := to.tree)
  }

  // ----- one call as a plan -----

  datatype Plan = Plan(steps: seq<Step>, outcome: Outcome)

  function Stop(why: Refusal): Plan {
    Plan([], Refused(why))
  }

  function Paths(call: Call): set<string> {
    call.offending - {""}
  }

  function IdFor(call: Call): RecoveryId
    requires call.anchor.Some?
  {
    RecoveryId(call.checkpoint, call.candidate, call.anchor.value, call.anchor.value.tree, Paths(call))
  }

  function ReceiptFor(id: RecoveryId, recovery: Commit, status: ReceiptStatus): Receipt {
    Receipt(id, id.checkpoint, id.candidate, id.anchor, id.anchorTree, id.paths, recovery, id.anchorTree, status)
  }

  /** The fixed fields of a receipt are those of this recovery. */
  predicate ReceiptMatches(r: Receipt, id: RecoveryId) {
    && r.id == id && r.checkpoint == id.checkpoint && r.candidate == id.candidate
    && r.anchor == id.anchor && r.anchorTree == id.anchorTree && r.paths == id.paths
  }

  /** The recovery commit exists, restores the anchor's tree, and has the violating candidate as
      its only parent. */
  predicate RecoveryVerified(objects: set<Commit>, r: Receipt, candidate: Commit, anchor: Commit, tree: Tree) {
    && r.recovery in objects
    && r.recoveryTree == tree
    && r.anchorTree == tree
    && r.recovery.tree == tree
    && r.recovery.parents == [candidate]
    && IsAncestor(candidate, r.recovery)
    && anchor in objects
    && anchor.tree == tree
  }

  predicate LineageHolds(w: Workspace, call: Call)
    requires call.anchor.Some?
  {
    && call.anchor.value in w.objects && call.candidate in w.objects
    && call.baseline.Some?
    && IsAncestor(call.baseline.value, call.anchor.value)
    && IsAncestor(call.anchor.value, call.candidate)
    && IsAncestor(call.candidate, w.branch)
  }

  /** Every offending path is protected and really differs between anchor and candidate. */
  predicate PathsDrifted(call: Call)
    requires call.anchor.Some?
  {
    forall p :: p in Paths(call) ==> call.isProtected(p) && !SameFile(call.anchor.value.tree, call.candidate.tree, p)
  }

  function ResultOf(r: Receipt): Recovered {
    Recovered(r.candidate, r.recovery, r.anchor, r.anchorTree, r.recoveryTree, r.paths, true)
  }

  /** The branch already carries the recovery commit. */
  function PlanRestart(w: Workspace, call: Call, r: Receipt): Plan {
    if HeadCommit(w) != call.candidate && HeadCommit(w) != r.recovery then Stop(ContradictoryHead)
    else if HeadCommit(w) == r.recovery && HeadCommit(w) != call.candidate && !Clean(w) then Stop(WorktreeNotClean)
    else if HeadCommit(w) == call.candidate then
      Plan(if r.status.Complete? then [ResetHard(r.recovery)]
           else [ResetHard(r.recovery), WriteReceipt(r.(status := Complete))], Done(ResultOf(r)))
    else
      Plan(if r.status.Complete? then [] else [WriteReceipt(r.(status := Complete))], Done(ResultOf(r)))
  }

  /** The three steps that publish a prepared receipt's recovery. */
  function PublishSteps(call: Call, r: Receipt): seq<Step> {
    [UpdateRef(r.recovery, call.candidate), ResetHard(r.recovery), WriteReceipt(r.(status := Complete))]
  }

  /** From the violating candidate to a finished recovery. */
  function PlanPublish(w: Workspace, call: Call, r: Receipt, before: seq<Step>): Plan
    requires call.anchor.Some?
  {
    if !LineageHolds(w, call) then Stop(LineageInvalid)
    else if !PathsDrifted(call) then Stop(PathNotDrifted)
    else Plan(before + PublishSteps(call, r), Done(ResultOf(r)))
  }

  function PlanFor(w: Workspace, call: Call): Plan {
    if Paths(call) == {} then Stop(NoPaths)
    else if call.anchor.None? then Stop(NoAnchor)
    else if call.anchor.value !in w.objects then Stop(AnchorUnavailable)
    else
      var id := IdFor(call);
      if id in w.receipts then
        var r := w.receipts[id];
        if !ReceiptMatches(r, id) then Stop(ReceiptMismatch)
        else if !RecoveryVerified(w.objects, r, call.candidate, id.anchor, id.anchorTree) then
          Stop(RecoveryCommitInvalid)
        else if w.branch == r.recovery then PlanRestart(w, call, r)
        else if w.branch != call.candidate then Stop(BranchMoved)
        else if HeadCommit(w) != call.candidate || !Clean(w) then Stop(WorktreeNotClean)
        else PlanPublish(w, call, r, [])
      else if HeadCommit(w) != call.candidate then Stop(ContradictoryHead)
      else if !w.head.OnBranch? then Stop(NotOnBranch)
      else if !Clean(w) then Stop(WorktreeNotClean)
      else
        var r := ReceiptFor(id, RecoveryCommit(id), Prepared);
        PlanPublish(w, call, r, [WriteObject(r.recovery), WriteReceipt(r)])
  }

  function Attempt(w: Workspace, call: Call, life: nat): Workspace {
    RunAll(Apply, w, FirstSteps(PlanFor(w, call).steps, life))
  }

  function AttemptOutcome(w: Workspace, call: Call, life: nat): Outcome {
    if life < |PlanFor(w, call).steps| then Died else PlanFor(w, call).outcome
  }

  // ----- the recovery as it runs -----

  class BuilderWorkspace {
    var objects: set<Commit>
    var branch: Commit
    var head: Head
    var files: Tree
    var receipts: map<RecoveryId, Receipt>

    ghost function Snapshot(): Workspace
      reads this
    {
      Workspace(objects, branch, head, files, receipts)
    }

    constructor (candidate: Commit, others: set<Commit>)
      ensures Snapshot() == Workspace(others + {candidate}, candidate, OnBranch, candidate.tree, map[])
    {
      objects, branch, head, files, receipts := others + {candidate}, candidate, OnBranch, candidate.tree, map[];
    }

    function CurrentHead(): (c: Commit)
      reads this
      ensures c == HeadCommit(Snapshot())
    {
      if head.OnBranch? then branch else head.commit
    }

    function IsClean(): (clean: bool)
      reads this
      ensures clean <==> Clean(Snapshot())
    {
      files == CurrentHead().tree
    }

    method CommitTree(id: RecoveryId) returns (recovery: Commit)
      modifies this`objects
      ensures recovery == RecoveryCommit(id)
      ensures Snapshot() == Apply(old(Snapshot()), WriteObject(recovery))
    {
      recovery := Commit(id.anchorTree, [id.candidate], RecoveryOf(id));
      objects := objects + {recovery};
    }

    method PutReceipt(r: Receipt)
      modifies this`receipts
      ensures Snapshot() == Apply(old(Snapshot()), WriteReceipt(r))
    {
      receipts := receipts[r.id := r];
    }

    /** Moves the branch ref only if it still is what was expected. */
    method CompareAndSwapRef(to: Commit, expected: Commit)
      modifies this`branch
      ensures Snapshot() == Apply(old(Snapshot()), UpdateRef(to, expected))
    {
      if branch == expected {
        branch := to;
      }
    }

    method GitResetHard(to: Commit)
      modifies this`branch, this`head, this`files
      ensures Snapshot() == Apply(old(Snapshot()), ResetHard(to))
    {
      if head.OnBranch? {
        branch := to;
      } else {
        head := Detached(to);
      }
      files := to.tree;
    }

    /** One recovery call that lives to make `life` durable steps. */
    method RecoverProtectedDrift(call: Call, life: nat) returns (outcome: Outcome)
      modifies this
      ensures Snapshot() == Attempt(old(Snapshot()), call, life)
      ensures outcome == AttemptOutcome(old(Snapshot()), call, life)
    {
      var paths := call.offending - {""};
      if paths == {} {
        return Refused(NoPaths);
      }
      if call.anchor.None? {
        return Refused(NoAnchor);
      }
      if call.anchor.value !in objects {
        return Refused(AnchorUnavailable);
      }
      var id := IdFor(call);
      if id in receipts {
        var existing := receipts[id];
        if !ReceiptMatches(existing, id) {
          return Refused(ReceiptMismatch);
        }
        if !RecoveryVerified(objects, existing, call.candidate, id.anchor, id.anchorTree) {
          return Refused(RecoveryCommitInvalid);
        }
        if branch == existing.recovery {
          outcome := Restart(call, existing, life);
          return;
        }
        if branch != call.candidate {
          return Refused(BranchMoved);
        }
        if CurrentHead() != call.candidate || !IsClean() {
          return Refused(WorktreeNotClean);
        }
        if !LineageHolds(Workspace(objects, branch, head, files, receipts), call) {
          return Refused(LineageInvalid);
        }
        if !PathsDrifted(call) {
          return Refused(PathNotDrifted);
        }
        assert [] + PublishSteps(call, existing) == PublishSteps(call, existing);
        outcome := Publish(call, existing, life);
        return;
      }
      if CurrentHead() != call.candidate {
        return Refused(ContradictoryHead);
      }
      if !head.OnBranch? {
        return Refused(NotOnBranch);
      }
      if !IsClean() {
        return Refused(WorktreeNotClean);
      }
      if !LineageHolds(Workspace(objects, branch, head, files, receipts), call) {
        return Refused(LineageInvalid);
      }
      if !PathsDrifted(call) {
        return Refused(PathNotDrifted);
      }
      outcome := Prepare(call, id, life);
    }

    /** A retry that finds the recovery commit on the branch. */
    method Restart(call: Call, existing: Receipt, life: nat) returns (outcome: Outcome)
      requires branch == existing.recovery
      modifies this
      ensures var plan := PlanRestart(old(Snapshot()), call, existing);
        && Snapshot() == RunAll(Apply, old(Snapshot()), FirstSteps(plan.steps, life))
        && outcome == if life < |plan.steps| then Died else plan.outcome
    {
      ghost var steps := PlanRestart(Snapshot(), call, existing).steps;
      var recovery, left := existing.recovery, life;
      if CurrentHead() == call.candidate {
        if left == 0 {
          return Died;
        }
        GitResetHard(recovery);
        Unfold(Apply, old(Snapshot()), steps, 1);
        left := left - 1;
      } else if CurrentHead() != recovery {
        return Refused(ContradictoryHead);
      }
      if CurrentHead() != recovery || !IsClean() {
        return Refused(WorktreeNotClean);
      }
      if existing.status != Complete {
        if left == 0 {
          return Died;
        }
        PutReceipt(existing.(status := Complete));
        Unfold(Apply, old(Snapshot()), steps, |steps|);
      }
      return Done(ResultOf(existing));
    }

    /** First the commit and the prepared receipt that names it, then the branch. */
    method Prepare(call: Call, id: RecoveryId, life: nat) returns (outcome: Outcome)
      requires branch == call.candidate == id.candidate && head.OnBranch? && files == branch.tree
      requires call.candidate.tree != id.anchorTree
      modifies this
      ensures var r := ReceiptFor(id, RecoveryCommit(id), Prepared);
        var steps := [WriteObject(r.recovery), WriteReceipt(r)] + PublishSteps(call, r);
        && Snapshot() == RunAll(Apply, old(Snapshot()), FirstSteps(steps, life))
        && outcome == if life < |steps| then Died else Done(ResultOf(r))
    {
      ghost var r := ReceiptFor(id, RecoveryCommit(id), Prepared);
      ghost var opening := [WriteObject(r.recovery), WriteReceipt(r)];
      PrefixOfParts(Apply, Snapshot(), opening, PublishSteps(call, r), life);
      if life == 0 {
        return Died;
      }
      var recovery := CommitTree(id);
      Unfold(Apply, old(Snapshot()), opening, 1);
      if life == 1 {
        return Died;
      }
      var provisional := ReceiptFor(id, recovery, Prepared);
      PutReceipt(provisional);
      Unfold(Apply, old(Snapshot()), opening, 2);
      outcome := Publish(call, provisional, life - 2);
    }

    /** Branch, worktree, completed receipt. */
    method Publish(call: Call, r: Receipt, life: nat) returns (outcome: Outcome)
      requires branch == call.candidate == CurrentHead() && files == call.candidate.tree
      requires r.recovery.tree != call.candidate.tree && r.recovery.parents == [call.candidate]
      modifies this
      ensures var steps := PublishSteps(call, r);
        && Snapshot() == RunAll(Apply, old(Snapshot()), FirstSteps(steps, life))
        && outcome == if life < |steps| then Died else Done(ResultOf(r))
    {
      ghost var steps := PublishSteps(call, r);
      if life == 0 {
        return Died;
      }
      CompareAndSwapRef(r.recovery, call.candidate);
      Unfold(Apply, old(Snapshot()), steps, 1);
      if life == 1 {
        return Died;
      }
      if CurrentHead() != r.recovery || !IsClean() {
        GitResetHard(r.recovery);
      }
      Unfold(Apply, old(Snapshot()), steps, 2);
      if CurrentHead() != r.recovery || !IsClean() {
        return Refused(WorktreeNotClean);
      }
      if life == 2 {
        return Died;
      }
      PutReceipt(r.(status := Complete));
      Unfold(Apply, old(Snapshot()), steps, 3);
      return Done(ResultOf(r));
    }
  }

  // ----- finding an interrupted hand-off -----

  datatype Lookup = NoRecovery | Contradiction(why: Refusal) | Found(result: Recovered)

  predicate IsCandidateReceipt(w: Workspace, checkpoint: string, id: RecoveryId) {
    id in w.receipts && w.receipts[id].checkpoint == checkpoint && w.receipts[id].status.Complete?
  }

  predicate ProvesItself(objects: set<Commit>, r: Receipt) {
    RecoveryVerified(objects, r, r.candidate, r.anchor, r.anchorTree)
  }

  /** What the lookup answers: the one completed receipt of this checkpoint that names the branch
      head, if the worktree is at it and clean. */
  ghost predicate LookupAnswers(w: Workspace, checkpoint: string, building: bool, answer: Lookup) {
    var complete := set id | id in w.receipts && IsCandidateReceipt(w, checkpoint, id);
    var atHead := set id | id in complete && w.receipts[id].recovery == w.branch;
    if !building || complete == {} then answer == NoRecovery
    else if exists id :: id in complete && !ProvesItself(w.objects, w.receipts[id]) then
      answer == Contradiction(RecoveryCommitInvalid)
    else if atHead == {} then answer == NoRecovery
    else if |atHead| != 1 then answer == Contradiction(BranchMoved)
    else if HeadCommit(w) != w.branch || !Clean(w) then answer == Contradiction(WorktreeNotClean)
    else exists id :: id in atHead && answer == Found(ResultOf(w.receipts[id]))
  }

  /** The receipts among the given ones that name the branch head, provided all prove themselves. */
  method MatchingReceipts(w: Workspace, complete: set<RecoveryId>) returns (r: Option<seq<RecoveryId>>)
    requires forall id :: id in complete ==> id in w.receipts
    ensures r.None? <==> exists id :: id in complete && !ProvesItself(w.objects, w.receipts[id])
    ensures r.Some? ==> forall id :: id in r.value <==> id in complete && w.receipts[id].recovery == w.branch
    ensures r.Some? ==> forall i, j :: 0 <= i < j < |r.value| ==> r.value[i] != r.value[j]
  {
    var left, matching: seq<RecoveryId> := complete, [];
    while left != {}
      invariant left <= complete
      invariant forall id :: id in complete - left ==> ProvesItself(w.objects, w.receipts[id])
      invariant forall id :: id in matching <==> id in complete - left && w.receipts[id].recovery == w.branch
      invariant forall i, j :: 0 <= i < j < |matching| ==> matching[i] != matching[j]
    {
      var id :| id in left;
      if !ProvesItself(w.objects, w.receipts[id]) {
        return None;
      }
      if w.receipts[id].recovery == w.branch {
        matching := matching + [id];
      }
      left := left - {id};
    }
    return Some(matching);
  }

  lemma {:induction false} DistinctListCountsSet<T>(list: seq<T>, elements: set<T>)
    requires forall x :: x in list <==> x in elements
    requires forall i, j :: 0 <= i < j < |list| ==> list[i] != list[j]
    ensures |list| == |elements|
  {
    if list == [] {
      assert elements == {};
    } else {
      var last := list[|list| - 1];
      forall x ensures x in list[..|list| - 1] <==> x in elements - {last} {
        assert x in list <==> x in list[..|list| - 1] || x == last;
      }
      DistinctListCountsSet(list[..|list| - 1], elements - {last});
    }
  }

  method PendingCompletedRecovery(w: Workspace, checkpoint: string, building: bool) returns (answer: Lookup)
    ensures LookupAnswers(w, checkpoint, building, answer)
  {
    var complete := set id | id in w.receipts && IsCandidateReceipt(w, checkpoint, id);
    if !building || complete == {} {
      return NoRecovery;
    }
    var found := MatchingReceipts(w, complete);
    if found.None? {
      return Contradiction(RecoveryCommitInvalid);
    }
    var matching := found.value;
    ghost var atHead := set id | id in complete && w.receipts[id].recovery == w.branch;
    DistinctListCountsSet(matching, atHead);
    if matching == [] {
      return NoRecovery;
    }
    if |matching| != 1 {
      return Contradiction(BranchMoved);
    }
    if HeadCommit(w) != w.branch || !Clean(w) {
      return Contradiction(WorktreeNotClean);
    }
    assert matching[0] in atHead;
    return Found(ResultOf(w.receipts[matching[0]]));
  }
}
