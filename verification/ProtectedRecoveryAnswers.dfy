/**
 What protected-drift recovery answers, field by field and refusal by refusal: when a call
 completes, what it returns, and what the lookup finds.
 */
module ProtectedRecoveryAnswers {
  import opened Wrappers
  import opened Crashes
  import opened ProtectedRecovery
  import opened ProtectedRecoveryRuns

  // ----- what is returned -----

  /** A completed recovery returns the candidate it was called with, the commit the branch is at now,
      the anchor, the anchor's tree twice, and every non-empty offending path; and it always says
      that the recovery had been made already. */
  lemma RecoveryReturns(w: Workspace, call: Call, life: nat)
    requires Inv(w) && AttemptOutcome(w, call, life).Done?
    ensures var result := AttemptOutcome(w, call, life).result;
      && call.anchor.Some?
      && result.previousCandidate == call.candidate
      && result.candidate == Attempt(w, call, life).branch
      && result.anchor == call.anchor.value
      && result.anchorTree == call.anchor.value.tree && result.recoveryTree == call.anchor.value.tree
      && result.paths == call.offending - {""} && result.alreadyRecovered
  {
    NormalReturnIsWhole(w, call, life);
  }

  /** ... and so does the lookup that replays it after a death. */
  lemma ReplayReturns(w: Workspace, call: Call, life: nat, answer: Lookup)
    requires Inv(w) && AttemptOutcome(w, call, life).Done?
    requires LookupAnswers(Attempt(w, call, life), call.checkpoint, true, answer)
    ensures answer.Found? && call.anchor.Some?
    ensures answer.result.previousCandidate == call.candidate
    ensures answer.result.candidate == Attempt(w, call, life).branch
    ensures answer.result.anchor == call.anchor.value
    ensures answer.result.anchorTree == call.anchor.value.tree
    ensures answer.result.recoveryTree == call.anchor.value.tree
    ensures answer.result.paths == call.offending - {""} && answer.result.alreadyRecovered
  {
    InterruptedHandOffIsReplayed(w, call, life, answer);
    RecoveryReturns(w, call, life);
  }

  // ----- when a call completes -----

  predicate Differs(a: Tree, b: Tree, path: string) {
    if path in a && path in b then a[path] != b[path] else path in a || path in b
  }

  /** What makes this candidate the drift it is said to be. */
  predicate IsDrift(call: Call)
    requires call.anchor.Some?
  {
    && call.baseline.Some?
    && IsAncestor(call.baseline.value, call.anchor.value) && IsAncestor(call.anchor.value, call.candidate)
    && forall p :: p in call.offending && p != "" ==>
         call.isProtected(p) && Differs(call.anchor.value.tree, call.candidate.tree, p)
  }

  /** Whether a call completes, in every reachable workspace: there is a path and a known anchor, and
      either the branch is at the candidate, with the worktree on it and clean, and the drift is
      proven; or the branch is at this call's recovery commit, with HEAD at the candidate or at the
      branch with clean files. */
  lemma CompletesExactlyWhen(w: Workspace, call: Call, life: nat)
    requires Inv(w) && life >= 5
    ensures AttemptOutcome(w, call, life).Done? <==>
      && (exists p :: p in call.offending && p != "")
      && call.anchor.Some? && call.anchor.value in w.objects
      && var id := RecoveryId(call.checkpoint, call.candidate, call.anchor.value, call.anchor.value.tree,
                              call.offending - {""});
      || (&& w.branch == call.candidate && HeadCommit(w) == call.candidate && w.files == call.candidate.tree
          && (w.head == OnBranch || id in w.receipts)
          && IsDrift(call))
      || (&& id in w.receipts && w.branch == Commit(call.anchor.value.tree, [call.candidate], RecoveryOf(id))
          && (HeadCommit(w) == call.candidate || (HeadCommit(w) == w.branch && w.files == w.branch.tree)))
    ensures AttemptOutcome(w, call, life).Refused? ==> Attempt(w, call, life) == w
  {
    SomePath(call);
    if Paths(call) != {} && call.anchor.Some? && call.anchor.value in w.objects {
      DriftIsProven(w, call);
      if IdFor(call) in w.receipts {
        KnownCompletes(w, call, life);
      } else {
        FreshCompletes(w, call, life);
      }
    }
  }

  lemma SomePath(call: Call)
    ensures (exists p :: p in call.offending && p != "") <==> Paths(call) != {}
  {
    if p :| p in call.offending && p != "" {
      assert p in Paths(call);
    }
    if Paths(call) != {} {
      var p :| p in Paths(call);
      assert p in call.offending && p != "";
    }
  }

  lemma DriftIsProven(w: Workspace, call: Call)
    requires call.anchor.Some? && call.anchor.value in w.objects
    ensures w.branch == call.candidate && call.candidate in w.objects ==>
      (LineageHolds(w, call) && PathsDrifted(call) <==> IsDrift(call))
  {
    forall p ensures SameFile(call.anchor.value.tree, call.candidate.tree, p)
                 <==> !Differs(call.anchor.value.tree, call.candidate.tree, p) {}
    assert forall p :: p in Paths(call) <==> p in call.offending && p != "";
  }

  lemma KnownCompletes(w: Workspace, call: Call, life: nat)
    requires Inv(w) && life >= 5 && Paths(call) != {} && call.anchor.Some? && call.anchor.value in w.objects
    requires IdFor(call) in w.receipts
    ensures AttemptOutcome(w, call, life).Done? <==>
      || (&& w.branch == call.candidate && HeadCommit(w) == call.candidate && w.files == call.candidate.tree
          && LineageHolds(w, call) && PathsDrifted(call))
      || (&& w.branch == RecoveryCommit(IdFor(call))
          && (HeadCommit(w) == call.candidate || (HeadCommit(w) == w.branch && w.files == w.branch.tree)))
    ensures AttemptOutcome(w, call, life).Refused? ==> Attempt(w, call, life) == w
  {
    var id := IdFor(call);
    assert ReceiptIntact(w.objects, id, w.receipts[id]);
    CommitAncestry(id);
    if w.branch == RecoveryCommit(id) {
      PublishedRecoveryCompletesExactlyWhen(w, call, life);
    }
  }

  lemma FreshCompletes(w: Workspace, call: Call, life: nat)
    requires Inv(w) && life >= 5 && Paths(call) != {} && call.anchor.Some? && call.anchor.value in w.objects
    requires IdFor(call) !in w.receipts
    ensures AttemptOutcome(w, call, life).Done? <==>
      && w.branch == call.candidate && HeadCommit(w) == call.candidate && w.files == call.candidate.tree
      && w.head == OnBranch && LineageHolds(w, call) && PathsDrifted(call)
    ensures AttemptOutcome(w, call, life).Refused? ==> Attempt(w, call, life) == w
  {
  }

  // ----- records that do not prove themselves -----

  /** A receipt that contradicts the call or its own commit is refused, whatever else holds, and
      nothing is changed. */
  lemma WrongReceiptIsRefused(w: Workspace, call: Call, life: nat)
    requires call.anchor.Some?
    requires var id := RecoveryId(call.checkpoint, call.candidate, call.anchor.value, call.anchor.value.tree,
                                  call.offending - {""});
      && id in w.receipts
      && var r := w.receipts[id];
      || r.id != id || r.checkpoint != call.checkpoint || r.candidate != call.candidate
      || r.anchor != call.anchor.value || r.anchorTree != call.anchor.value.tree || r.paths != call.offending - {""}
      || r.recoveryTree != call.anchor.value.tree
      || r.recovery !in w.objects || r.recovery.tree != call.anchor.value.tree || r.recovery.parents != [call.candidate]
    ensures AttemptOutcome(w, call, life).Refused? && Attempt(w, call, life) == w
  {
  }

  /** A completed receipt of the checkpoint that does not prove itself makes the lookup refuse. */
  lemma WrongReceiptStopsTheLookup(w: Workspace, checkpoint: string, id: RecoveryId, answer: Lookup)
    requires id in w.receipts && w.receipts[id].checkpoint == checkpoint && w.receipts[id].status == Complete
    requires var r := w.receipts[id];
      || r.recovery !in w.objects || r.anchor !in w.objects
      || r.recoveryTree != r.anchorTree || r.recovery.tree != r.anchorTree || r.anchor.tree != r.anchorTree
      || r.recovery.parents != [r.candidate]
    requires LookupAnswers(w, checkpoint, true, answer)
    ensures answer == Contradiction(RecoveryCommitInvalid)
  {
    var complete := set i | i in w.receipts && IsCandidateReceipt(w, checkpoint, i);
    assert id in complete && !ProvesItself(w.objects, w.receipts[id]);
  }

  /** A completed receipt of the checkpoint names the branch head. */
  ghost predicate Known(w: Workspace, checkpoint: string) {
    exists id :: id in w.receipts && w.receipts[id].checkpoint == checkpoint
                 && w.receipts[id].status == Complete && w.receipts[id].recovery == w.branch
  }

  lemma KnownIsAtHead(w: Workspace, checkpoint: string, complete: set<RecoveryId>, atHead: set<RecoveryId>)
    requires complete == set i | i in w.receipts && IsCandidateReceipt(w, checkpoint, i)
    requires atHead == set i | i in complete && w.receipts[i].recovery == w.branch
    ensures Known(w, checkpoint) <==> atHead != {}
  {
    if Known(w, checkpoint) {
      var id :| id in w.receipts && w.receipts[id].checkpoint == checkpoint
                && w.receipts[id].status == Complete && w.receipts[id].recovery == w.branch;
      assert id in atHead;
    }
    if atHead != {} {
      var id :| id in atHead;
      assert id in w.receipts && w.receipts[id].recovery == w.branch;
    }
  }

  lemma OneAtHead(w: Workspace, checkpoint: string, complete: set<RecoveryId>, atHead: set<RecoveryId>)
    returns (id: RecoveryId)
    requires Inv(w) && atHead != {}
    requires complete == set i | i in w.receipts && IsCandidateReceipt(w, checkpoint, i)
    requires atHead == set i | i in complete && w.receipts[i].recovery == w.branch
    ensures atHead == {id} && id in w.receipts && w.receipts[id].checkpoint == checkpoint
    ensures w.receipts[id] == ReceiptFor(id, w.branch, Complete) && w.branch == RecoveryCommit(id)
    ensures id.anchor.tree == id.anchorTree
  {
    id :| id in atHead;
    assert ReceiptIntact(w.objects, id, w.receipts[id]);
    OneReceiptAtHead(w, complete, id);
  }

  lemma AllProveThemselves(w: Workspace, checkpoint: string, complete: set<RecoveryId>)
    requires Inv(w) && complete == set i | i in w.receipts && IsCandidateReceipt(w, checkpoint, i)
    ensures forall i :: i in complete ==> i in w.receipts && ProvesItself(w.objects, w.receipts[i])
  {
    forall i | i in complete ensures ProvesItself(w.objects, w.receipts[i]) {
      IntactReceiptsProveThemselves(w, i);
    }
  }

  /** What the lookup answers in every reachable workspace: a recovery is found exactly when the run
      is building and a completed receipt of the checkpoint names the branch head, and the worktree
      is at it and clean; it is the only contradiction there can be that it is not. */
  lemma LookupFindsExactly(w: Workspace, checkpoint: string, building: bool, answer: Lookup)
    requires Inv(w) && LookupAnswers(w, checkpoint, building, answer)
    ensures answer == NoRecovery <==> !building || !Known(w, checkpoint)
    ensures answer.Found? <==>
      building && Known(w, checkpoint) && HeadCommit(w) == w.branch && w.files == w.branch.tree
    ensures answer.Contradiction? ==> answer.why == WorktreeNotClean
    ensures answer.Found? ==>
      && w.branch.parents == [answer.result.previousCandidate] && answer.result.candidate == w.branch
      && answer.result.recoveryTree == w.branch.tree && answer.result.anchorTree == w.branch.tree
      && answer.result.anchor.tree == w.branch.tree
  {
    var complete := set i | i in w.receipts && IsCandidateReceipt(w, checkpoint, i);
    var atHead := set i | i in complete && w.receipts[i].recovery == w.branch;
    AllProveThemselves(w, checkpoint, complete);
    KnownIsAtHead(w, checkpoint, complete, atHead);
    if atHead != {} {
      var id := OneAtHead(w, checkpoint, complete, atHead);
    }
  }
}
