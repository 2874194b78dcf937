/**
 What protected-drift recovery guarantees over whole runs: any calls, any deaths, any builder
 commits, and any disturbance of the worktree in between.
 */
module ProtectedRecoveryRuns {
  import opened Wrappers
  import opened Crashes
  import opened ProtectedRecovery

  // ----- safety in every reachable state -----

  /** A receipt says exactly what its identity determines, and what it says is durable. */
  ghost predicate ReceiptIntact(objects: set<Commit>, id: RecoveryId, r: Receipt) {
    && r == ReceiptFor(id, RecoveryCommit(id), r.status)
    && id.anchorTree == id.anchor.tree
    && RecoveryCommit(id) in objects && id.anchor in objects
  }

  /** Write-ahead and whole-tree: a branch at a recovery commit has a durable receipt that names
      it, and every receipt's commit restores its anchor's whole tree on the candidate alone. */
  ghost predicate Inv(w: Workspace) {
    && w.branch in w.objects
    && (forall id :: id in w.receipts ==> ReceiptIntact(w.objects, id, w.receipts[id]))
    && (w.branch.message.RecoveryOf? ==>
          w.branch.message.id in w.receipts && w.branch == RecoveryCommit(w.branch.message.id))
  }

  datatype Event =
    | Recover(call: Call, life: nat)
    /** The builder commits on the branch. */
    | Build(tree: Tree, text: string)
    /** Anything at all happens to the worktree. */
    | Disturb(head: Head, files: Tree)

  function Exec(w: Workspace, e: Event): Workspace {
    match e
    case Recover(call, life) => Attempt(w, call, life)
    case Build(tree, text) =>
      var c := Commit(tree, [w.branch], Text(text));
      w.(objects := w.objects + {c}, branch := c, head := OnBranch, files := tree)
    case Disturb(head, files) => w.(head := head, files := files)
  }

  function ExecAll(w: Workspace, es: seq<Event>): Workspace {
    RunAll(Exec, w, es)
  }

  lemma StepKeepsInvariant(w: Workspace, step: Step)
    requires Inv(w)
    requires match step
      case WriteObject(_) => true
      case WriteReceipt(r) => ReceiptIntact(w.objects, r.id, r)
      case UpdateRef(to, _) =>
        to.message.RecoveryOf? && to == RecoveryCommit(to.message.id) && to.message.id in w.receipts
      case ResetHard(to) => w.head.OnBranch? ==> to == w.branch
    ensures Inv(Apply(w, step))
  {
  }

  lemma CommitAncestry(id: RecoveryId)
    ensures IsAncestor(id.candidate, RecoveryCommit(id))
    ensures RecoveryCommit(id) != id.candidate
  {
    var c := RecoveryCommit(id);
    assert c.parents[0] in c.parents && IsAncestor(id.candidate, c.parents[0]);
  }

  lemma IntactStays(w: Workspace, step: Step, id: RecoveryId)
    requires id in w.receipts && ReceiptIntact(w.objects, id, w.receipts[id])
    requires step.WriteReceipt? ==> ReceiptIntact(w.objects, step.receipt.id, step.receipt)
    ensures var t := Apply(w, step);
      id in t.receipts && ReceiptIntact(t.objects, id, t.receipts[id])
  {
  }

  lemma {:induction false} PublishStage(w: Workspace, call: Call, r: Receipt, k: nat)
    requires Inv(w) && r.id in w.receipts && w.receipts[r.id] == r && k <= 3
    requires w.branch == call.candidate == r.id.candidate
    ensures var t := RunAll(Apply, w, PublishSteps(call, r)[..k]);
      && Inv(t) && t.branch == (if k == 0 then w.branch else r.recovery)
      && t.objects == w.objects && r.id in t.receipts && ReceiptIntact(t.objects, r.id, t.receipts[r.id])
  {
    var steps := PublishSteps(call, r);
    assert ReceiptIntact(w.objects, r.id, r);
    if k == 0 {
      assert steps[..0] == [];
    } else {
      PublishStage(w, call, r, k - 1);
      Unfold(Apply, w, steps, k);
      var before := RunAll(Apply, w, steps[..k - 1]);
      assert k == 3 ==> ReceiptIntact(before.objects, r.id, r.(status := Complete));
      StepKeepsInvariant(before, steps[k - 1]);
      IntactStays(before, steps[k - 1], r.id);
    }
  }

  /** The three durable steps that publish a receipt's recovery. */
  lemma PublishKeepsInvariant(w: Workspace, call: Call, r: Receipt, life: nat)
    requires Inv(w) && r.id in w.receipts && w.receipts[r.id] == r
    requires w.branch == call.candidate == r.id.candidate
    ensures var t := RunAll(Apply, w, FirstSteps(PublishSteps(call, r), life));
      Inv(t) && t.branch == if life == 0 then w.branch else r.recovery
  {
    var k := if life <= 3 then life else 3;
    assert FirstSteps(PublishSteps(call, r), life) == PublishSteps(call, r)[..k];
    PublishStage(w, call, r, k);
  }

  lemma PrepareKeepsInvariant(w: Workspace, id: RecoveryId, k: nat)
    requires Inv(w) && k <= 2 && id.anchor in w.objects && id.anchorTree == id.anchor.tree
    ensures var r := ReceiptFor(id, RecoveryCommit(id), Prepared);
      var t := RunAll(Apply, w, [WriteObject(r.recovery), WriteReceipt(r)][..k]);
      && Inv(t) && t.branch == w.branch
      && (k == 2 ==> id in t.receipts && t.receipts[id] == r)
  {
    var r := ReceiptFor(id, RecoveryCommit(id), Prepared);
    var steps := [WriteObject(r.recovery), WriteReceipt(r)];
    assert steps[..0] == [];
    if k >= 1 {
      Unfold(Apply, w, steps, 1);
      StepKeepsInvariant(w, steps[0]);
    }
    if k == 2 {
      Unfold(Apply, w, steps, 2);
      StepKeepsInvariant(RunAll(Apply, w, steps[..1]), steps[1]);
    }
  }

  lemma RestartKeepsInvariant(w: Workspace, call: Call, r: Receipt, life: nat)
    requires Inv(w) && r.id in w.receipts && w.receipts[r.id] == r
    requires w.branch == r.recovery && r.id.candidate == call.candidate
    ensures var t := RunAll(Apply, w, FirstSteps(PlanRestart(w, call, r).steps, life));
      Inv(t) && t.branch == w.branch
  {
    var steps := PlanRestart(w, call, r).steps;
    var k := if life <= |steps| then life else |steps|;
    assert FirstSteps(steps, life) == steps[..k];
    assert ReceiptIntact(w.objects, r.id, r);
    CommitAncestry(r.id);
    assert steps[..0] == [];
    if k >= 1 {
      Unfold(Apply, w, steps, 1);
      StepKeepsInvariant(w, steps[0]);
    }
    if k == 2 {
      Unfold(Apply, w, steps, 2);
      StepKeepsInvariant(RunAll(Apply, w, steps[..1]), steps[1]);
    }
  }

  /** One call keeps the invariant wherever it dies, and the only move it can make with the
      branch is from the violating candidate to the one recovery commit. */
  lemma AttemptIsSafe(w: Workspace, call: Call, life: nat)
    requires Inv(w)
    ensures Inv(Attempt(w, call, life))
    ensures var t := Attempt(w, call, life);
      || t.branch == w.branch
      || (call.anchor.Some? && w.branch == call.candidate && t.branch == RecoveryCommit(IdFor(call)))
  {
    if Paths(call) != {} && call.anchor.Some? && call.anchor.value in w.objects {
      var id := IdFor(call);
      if id in w.receipts {
        var r := w.receipts[id];
        assert ReceiptIntact(w.objects, id, r);
        if w.branch == r.recovery {
          RestartKeepsInvariant(w, call, r, life);
        } else if w.branch == call.candidate {
          assert [] + PublishSteps(call, r) == PublishSteps(call, r);
          PublishKeepsInvariant(w, call, r, life);
        }
      } else if PlanFor(w, call).steps != [] {
        FreshAttemptIsSafe(w, call, life);
      }
    }
  }

  lemma FreshAttemptIsSafe(w: Workspace, call: Call, life: nat)
    requires Inv(w) && call.anchor.Some? && call.anchor.value in w.objects && w.branch == call.candidate
    requires var r := ReceiptFor(IdFor(call), RecoveryCommit(IdFor(call)), Prepared);
      PlanFor(w, call).steps == [WriteObject(r.recovery), WriteReceipt(r)] + PublishSteps(call, r)
    ensures Inv(Attempt(w, call, life))
    ensures Attempt(w, call, life).branch == if life <= 2 then w.branch else RecoveryCommit(IdFor(call))
  {
    var id := IdFor(call);
    var r := ReceiptFor(id, RecoveryCommit(id), Prepared);
    var opening := [WriteObject(r.recovery), WriteReceipt(r)];
    PrefixOfParts(Apply, w, opening, PublishSteps(call, r), life);
    assert opening[..2] == opening;
    PrepareKeepsInvariant(w, id, if life <= 2 then life else 2);
    if life > 2 {
      PublishKeepsInvariant(RunAll(Apply, w, opening), call, r, life - 2);
    }
  }

  /** Safety over every run: recoveries dying anywhere, builder commits and worktree disturbances
      in any order. */
  lemma {:induction false} EveryRunIsSafe(w: Workspace, es: seq<Event>)
    requires Inv(w)
    ensures Inv(ExecAll(w, es))
  {
    if es != [] {
      var before := ExecAll(w, es[..|es| - 1]);
      EveryRunIsSafe(w, es[..|es| - 1]);
      if es[|es| - 1].Recover? {
        AttemptIsSafe(before, es[|es| - 1].call, es[|es| - 1].life);
      }
    }
  }

  /** The state a finished recovery leaves. */
  ghost predicate Finished(w: Workspace, t: Workspace, r: Receipt) {
    && t.branch == r.recovery == HeadCommit(t) && t.files == r.recovery.tree
    && t.receipts == w.receipts[r.id := r.(status := Complete)]
  }

  /** A normal return means the recovery is whole and durable. */
  lemma NormalReturnIsWhole(w: Workspace, call: Call, life: nat)
    requires Inv(w) && AttemptOutcome(w, call, life).Done?
    ensures var t, id := Attempt(w, call, life), IdFor(call);
      && t.branch == RecoveryCommit(id) == HeadCommit(t) && Clean(t)
      && t.branch.tree == call.anchor.value.tree && t.branch.parents == [call.candidate]
      && id in t.receipts && t.receipts[id] == ReceiptFor(id, RecoveryCommit(id), Complete)
      && AttemptOutcome(w, call, life) == Done(ResultOf(t.receipts[id]))
  {
    var id, steps := IdFor(call), PlanFor(w, call).steps;
    assert FirstSteps(steps, life) == steps;
    if id in w.receipts {
      var r := w.receipts[id];
      assert ReceiptIntact(w.objects, id, r);
      CommitAncestry(id);
      if w.branch == r.recovery {
        FinishedRestart(w, call, r);
      } else {
        assert [] + PublishSteps(call, r) == PublishSteps(call, r);
        FinishedPublish(w, call, r);
      }
    } else {
      FinishedFresh(w, call);
    }
  }

  lemma FinishedFresh(w: Workspace, call: Call)
    requires call.anchor.Some? && w.branch == call.candidate == HeadCommit(w)
    ensures var r := ReceiptFor(IdFor(call), RecoveryCommit(IdFor(call)), Prepared);
      Finished(w, RunAll(Apply, w, [WriteObject(r.recovery), WriteReceipt(r)] + PublishSteps(call, r)), r)
  {
    var r := ReceiptFor(IdFor(call), RecoveryCommit(IdFor(call)), Prepared);
    var opening := [WriteObject(r.recovery), WriteReceipt(r)];
    RunAllSplits(Apply, w, opening, PublishSteps(call, r));
    assert opening[..2] == opening;
    Unfold(Apply, w, opening, 1);
    Unfold(Apply, w, opening, 2);
    FinishedPublish(RunAll(Apply, w, opening), call, r);
    assert w.receipts[r.id := r][r.id := r.(status := Complete)] == w.receipts[r.id := r.(status := Complete)];
  }

  lemma FinishedPublish(w: Workspace, call: Call, r: Receipt)
    requires w.branch == call.candidate == HeadCommit(w)
    ensures Finished(w, RunAll(Apply, w, PublishSteps(call, r)), r)
  {
    var steps := PublishSteps(call, r);
    assert steps[..3] == steps;
    Unfold(Apply, w, steps, 1);
    Unfold(Apply, w, steps, 2);
    Unfold(Apply, w, steps, 3);
  }

  lemma FinishedRestart(w: Workspace, call: Call, r: Receipt)
    requires w.branch == r.recovery != call.candidate && r.id in w.receipts && w.receipts[r.id] == r
    requires PlanRestart(w, call, r).outcome.Done?
    ensures Finished(w, RunAll(Apply, w, PlanRestart(w, call, r).steps), r)
  {
    var reset := if HeadCommit(w) == call.candidate then [ResetHard(r.recovery)] else [];
    var finish := if r.status.Complete? then [] else [WriteReceipt(r.(status := Complete))];
    assert PlanRestart(w, call, r).steps == reset + finish;
    RunAllSplits(Apply, w, reset, finish);
    RunOne(w, ResetHard(r.recovery));
    RunOne(RunAll(Apply, w, reset), WriteReceipt(r.(status := Complete)));
    if r.status.Complete? {
      assert w.receipts[r.id := r] == w.receipts;
    }
  }

  lemma RunOne(w: Workspace, step: Step)
    ensures RunAll(Apply, w, [step]) == Apply(w, step)
    ensures RunAll(Apply, w, []) == w
  {
    assert [step][..0] == [];
  }

  // ----- retries of one call -----

  /** A worktree a recovery can start from: at the violating candidate, attached and clean. */
  predicate Ready(w: Workspace, call: Call) {
    && Paths(call) != {} && call.anchor.Some?
    && w.branch == call.candidate && w.head.OnBranch? && Clean(w)
    && LineageHolds(w, call) && PathsDrifted(call)
    && IdFor(call) !in w.receipts
  }

  /** The five durable stages of one recovery. */
  function At(w: Workspace, call: Call, k: nat): Workspace
    requires call.anchor.Some?
  {
    var id := IdFor(call);
    var recovery := RecoveryCommit(id);
    Workspace(
      if k < 1 then w.objects else w.objects + {recovery},
      if k < 3 then w.branch else recovery,
      w.head,
      if k < 4 then w.files else recovery.tree,
      if k < 2 then w.receipts
      else w.receipts[id := ReceiptFor(id, recovery, if k < 5 then Prepared else Complete)])
  }

  /** Where a retry that lives to make `life` steps leaves a recovery found at stage k. */
  function NextStage(k: nat, life: nat): nat {
    if k == 3 || life == 0 then k
    else if k <= 1 then (if life <= 5 then life else 5)
    else if k + life <= 5 then k + life else 5
  }

  function FiveSteps(call: Call): (steps: seq<Step>)
    requires call.anchor.Some?
    ensures |steps| == 5
  {
    var r := ReceiptFor(IdFor(call), RecoveryCommit(IdFor(call)), Prepared);
    [WriteObject(r.recovery), WriteReceipt(r)] + PublishSteps(call, r)
  }

  lemma StageStep(w: Workspace, call: Call, k: nat)
    requires Ready(w, call) && k < 5
    ensures Apply(At(w, call, k), FiveSteps(call)[k]) == At(w, call, k + 1)
    ensures Apply(At(w, call, 1), FiveSteps(call)[0]) == At(w, call, 1)
  {
  }

  lemma {:induction false} StageSteps(w: Workspace, call: Call, k: nat, j: nat)
    requires Ready(w, call) && k + j <= 5
    ensures RunAll(Apply, At(w, call, k), FiveSteps(call)[k..k + j]) == At(w, call, k + j)
  {
    var steps := FiveSteps(call)[k..k + j];
    if j > 0 {
      StageSteps(w, call, k, j - 1);
      StageStep(w, call, k + j - 1);
      assert steps[..j - 1] == FiveSteps(call)[k..k + j - 1];
    }
  }

  /** A retry that finds no receipt starts over; writing the same commit again changes nothing. */
  lemma StartingOver(w: Workspace, call: Call, k: nat, j: nat)
    requires Ready(w, call) && k <= 1 && 1 <= j <= 5
    ensures RunAll(Apply, At(w, call, k), FiveSteps(call)[..j]) == At(w, call, j)
  {
    var steps := FiveSteps(call);
    assert steps[..j] == [steps[0]] + steps[1..1 + (j - 1)];
    RunAllSplits(Apply, At(w, call, k), [steps[0]], steps[1..1 + (j - 1)]);
    RunOne(At(w, call, k), steps[0]);
    StageStep(w, call, k);
    StageSteps(w, call, 1, j - 1);
  }

  lemma FreshPlan(w: Workspace, call: Call, k: nat)
    requires Ready(w, call) && k <= 1
    ensures PlanFor(At(w, call, k), call).steps == FiveSteps(call)
    ensures PlanFor(At(w, call, k), call).outcome.Done?
  {
  }

  lemma ResumedPlan(w: Workspace, call: Call, k: nat)
    requires Ready(w, call) && (k == 2 || k == 4)
    ensures PlanFor(At(w, call, k), call).steps == FiveSteps(call)[k..]
    ensures PlanFor(At(w, call, k), call).outcome.Done?
  {
    var id, s := IdFor(call), At(w, call, k);
    CommitAncestry(id);
    assert RecoveryVerified(s.objects, s.receipts[id], call.candidate, id.anchor, id.anchorTree);
  }

  lemma SettledStages(w: Workspace, call: Call, k: nat)
    requires Ready(w, call) && (k == 3 || k == 5)
    ensures PlanFor(At(w, call, k), call).steps == []
    ensures k == 3 ==> PlanFor(At(w, call, k), call).outcome == Refused(WorktreeNotClean)
    ensures k == 5 ==> PlanFor(At(w, call, k), call).outcome.Done?
  {
    var id := IdFor(call);
    CommitAncestry(id);
    var s := At(w, call, k);
    assert RecoveryVerified(s.objects, s.receipts[id], call.candidate, id.anchor, id.anchorTree);
    var p :| p in Paths(call);
    assert !SameFile(call.anchor.value.tree, call.candidate.tree, p);
    assert call.anchor.value.tree != call.candidate.tree;
  }

  lemma RetryReachesStage(w: Workspace, call: Call, k: nat, life: nat)
    requires Ready(w, call) && k <= 5
    ensures Attempt(At(w, call, k), call, life) == At(w, call, NextStage(k, life))
    ensures life >= 5 ==>
      if k == 3 then AttemptOutcome(At(w, call, k), call, life) == Refused(WorktreeNotClean)
      else AttemptOutcome(At(w, call, k), call, life).Done?
  {
    var steps := FiveSteps(call);
    if k == 3 || k == 5 {
      SettledStages(w, call, k);
    } else if k <= 1 {
      FreshPlan(w, call, k);
      if life > 0 {
        StartingOver(w, call, k, if life <= 5 then life else 5);
        assert steps[..5] == steps;
      }
    } else {
      ResumedPlan(w, call, k);
      RemainingSteps(steps, k, life);
      StageSteps(w, call, k, if k + life <= 5 then life else 5 - k);
    }
  }

  function Retries(call: Call): (Workspace, nat) -> Workspace {
    (w: Workspace, life: nat) => Attempt(w, call, life)
  }

  /** Retries that die after the given numbers of steps. */
  function Retry(w: Workspace, call: Call, lives: seq<nat>): Workspace {
    RunAll(Retries(call), w, lives)
  }

  lemma {:induction false} RetriesStayOnTrack(w: Workspace, call: Call, lives: seq<nat>) returns (k: nat)
    requires Ready(w, call)
    ensures k <= 5 && Retry(w, call, lives) == At(w, call, k)
  {
    if lives == [] {
      return 0;
    }
    var j := RetriesStayOnTrack(w, call, lives[..|lives| - 1]);
    RetryReachesStage(w, call, j, lives[|lives| - 1]);
    return NextStage(j, lives[|lives| - 1]);
  }

  /** The one window a retry cannot leave by itself: the branch, and with it the attached HEAD,
      is at the recovery commit while the files are still the candidate's. */
  predicate BetweenRefAndReset(w: Workspace, call: Call) {
    w.branch != call.candidate && w.files == call.candidate.tree
  }

  /** Retries of one call, dying anywhere any number of times: the branch is at the candidate or
      at the same recovery commit, and then with its receipt; an uninterrupted retry completes
      exactly outside the window between the ref update and the reset, where every retry refuses
      and changes nothing. */
  lemma RetriesConverge(w: Workspace, call: Call, lives: seq<nat>, life: nat)
    requires Ready(w, call) && life >= 5
    ensures var t, id := Retry(w, call, lives), IdFor(call);
      && (t.branch == call.candidate || t.branch == RecoveryCommit(id))
      && (t.branch == RecoveryCommit(id) ==> id in t.receipts && t.receipts[id].recovery == RecoveryCommit(id))
      && (AttemptOutcome(t, call, life).Done? <==> !BetweenRefAndReset(t, call))
      && (BetweenRefAndReset(t, call) ==>
            AttemptOutcome(t, call, life) == Refused(WorktreeNotClean) && Attempt(t, call, life) == t)
      && (!BetweenRefAndReset(t, call) ==> Attempt(t, call, life) == At(w, call, 5))
  {
    var k := RetriesStayOnTrack(w, call, lives);
    RetryReachesStage(w, call, k, life);
    CommitAncestry(IdFor(call));
    var p :| p in Paths(call);
    assert !SameFile(call.anchor.value.tree, call.candidate.tree, p);
  }

  /** How that window is left, and entered: in any reachable workspace whose branch is at the
      recovery commit of this call, a call that lives completes exactly when HEAD reads as the
      violating candidate, or as the branch with clean files. */
  lemma PublishedRecoveryCompletesExactlyWhen(w: Workspace, call: Call, life: nat)
    requires Inv(w) && life >= 2
    requires Paths(call) != {} && call.anchor.Some? && call.anchor.value in w.objects
    requires IdFor(call) in w.receipts && w.branch == RecoveryCommit(IdFor(call))
    ensures AttemptOutcome(w, call, life).Done? <==>
      HeadCommit(w) == call.candidate || (HeadCommit(w) == w.branch && Clean(w))
    ensures !AttemptOutcome(w, call, life).Done? ==> Attempt(w, call, life) == w
  {
    var id := IdFor(call);
    var r := w.receipts[id];
    assert ReceiptIntact(w.objects, id, r);
    CommitAncestry(id);
    assert PlanFor(w, call) == PlanRestart(w, call, r);
  }

  // ----- the interrupted hand-off -----

  lemma IntactReceiptsProveThemselves(w: Workspace, id: RecoveryId)
    requires Inv(w) && id in w.receipts
    ensures ProvesItself(w.objects, w.receipts[id])
  {
    assert ReceiptIntact(w.objects, id, w.receipts[id]);
    CommitAncestry(id);
  }

  /** Only one receipt can name the branch head: the head's own message says which. */
  lemma OneReceiptAtHead(t: Workspace, complete: set<RecoveryId>, id: RecoveryId)
    requires Inv(t) && id in complete && t.branch == RecoveryCommit(id)
    requires forall i :: i in complete ==> i in t.receipts
    ensures (set i | i in complete && t.receipts[i].recovery == t.branch) == {id}
  {
    var atHead := set i | i in complete && t.receipts[i].recovery == t.branch;
    forall i | i in atHead ensures i == id {
      assert ReceiptIntact(t.objects, i, t.receipts[i]);
      assert RecoveryCommit(i).message == RecoveryCommit(id).message;
    }
    assert ReceiptIntact(t.objects, id, t.receipts[id]);
  }

  lemma FoundAtHead(t: Workspace, checkpoint: string, id: RecoveryId, answer: Lookup)
    requires Inv(t) && id in t.receipts && IsCandidateReceipt(t, checkpoint, id)
    requires t.branch == RecoveryCommit(id) == HeadCommit(t) && Clean(t)
    requires LookupAnswers(t, checkpoint, true, answer)
    ensures answer == Found(ResultOf(t.receipts[id]))
  {
    var complete := set i | i in t.receipts && IsCandidateReceipt(t, checkpoint, i);
    forall i | i in complete ensures ProvesItself(t.objects, t.receipts[i]) {
      IntactReceiptsProveThemselves(t, i);
    }
    OneReceiptAtHead(t, complete, id);
  }

  /** A recovery that completed before its state transition was recorded is found again: the
      lookup answers with exactly the result the recovery returned. */
  lemma InterruptedHandOffIsReplayed(w: Workspace, call: Call, life: nat, answer: Lookup)
    requires Inv(w) && AttemptOutcome(w, call, life).Done?
    requires LookupAnswers(Attempt(w, call, life), call.checkpoint, true, answer)
    ensures answer == Found(AttemptOutcome(w, call, life).result)
  {
    NormalReturnIsWhole(w, call, life);
    AttemptIsSafe(w, call, life);
    FoundAtHead(Attempt(w, call, life), call.checkpoint, IdFor(call), answer);
  }
}
