/**
 Build finalization of a SINGLE run: the next state derived from the evidence of one claimed
 pass, the atomic funding of a repair, and what the counters mean over a whole run.
 */
module BuildFinalize {
  import opened Wrappers
  import opened Limits

  datatype RunState =
    | ReadyToBuild | Building | ReadyForReview | Reviewing | ChangesRequested | Blocked | Stopped

  /** `claims` is how often the state history says that a build pass was claimed. */
  datatype Run = Run(
    state: RunState, lastCandidate: Option<string>, noProgressStreak: nat, repairRound: nat, buildPasses: nat,
    claims: nat)

  /** What asking for a build pass gives: a new pass, the pass in flight again, a pass in flight
      whose counter had been lost, a run blocked because the cap is spent, or nothing. */
  datatype ClaimOutcome =
    | Claimed(pass: nat)
    | Replayed(pass: nat)
    | Recovered(pass: nat)
    | CapSpent
    | ClaimRefused

  datatype RequestedOutcome = CandidateReady | AskBlocked | AskStopped

  /** What one finalization found out about its candidate. */
  datatype Evidence = Evidence(
    candidate: string,
    stopRequested: bool,
    infraFailure: bool,
    identityReproved: bool,
    hardSecret: bool,
    protectedDrift: bool,
    scopeDrift: bool,
    validationPassed: bool,
    environmentInvalid: bool,
    outcome: RequestedOutcome)

  /** The causes a repair can be asked for. */
  predicate HasRepairCause(e: Evidence) {
    e.scopeDrift || !e.validationPassed || e.environmentInvalid
  }

  function StreakAfter(run: Run, candidate: string): nat {
    if run.lastCandidate == Some(candidate) then run.noProgressStreak + 1 else 0
  }

  /** The finalizer runs on a claimed pass within the build cap, and under readable caps. */
  predicate Finalizable(p: Packet, e: Evidence, run: Run) {
    && run.state.Building? && run.buildPasses >= 1 && !e.hardSecret && e.candidate != ""
    && EffectiveCap(BuildPasses, p).Ok? && run.buildPasses <= EffectiveCap(BuildPasses, p).value
    && EffectiveCap(RepairRounds, p).Ok?
    && (HasRepairCause(e) ==> EffectiveCap(NoProgressStreak, p).Ok?)
  }

  /** Repair that may be funded: a repairable cause, no hard stop, and both fuses intact. */
  predicate RepairFunded(p: Packet, e: Evidence, run: Run)
    requires Finalizable(p, e, run)
  {
    && !e.stopRequested && !e.infraFailure && e.identityReproved && !e.protectedDrift
    && (e.scopeDrift || !e.validationPassed)
    && StreakAfter(run, e.candidate) < EffectiveCap(NoProgressStreak, p).value
    && run.repairRound < EffectiveCap(RepairRounds, p).value
  }

  predicate Reviewable(p: Packet, e: Evidence, run: Run)
    requires Finalizable(p, e, run)
  {
    && !e.stopRequested && !e.infraFailure && e.identityReproved && !e.protectedDrift
    && !e.scopeDrift && e.validationPassed
    && (e.environmentInvalid ==> StreakAfter(run, e.candidate) < EffectiveCap(NoProgressStreak, p).value)
    && e.outcome.CandidateReady?
  }

  predicate StopHonoured(p: Packet, e: Evidence, run: Run)
    requires Finalizable(p, e, run)
  {
    || e.stopRequested
    || (&& !e.infraFailure && e.identityReproved && !e.protectedDrift && !e.scopeDrift && e.validationPassed
        && (e.environmentInvalid ==> StreakAfter(run, e.candidate) < EffectiveCap(NoProgressStreak, p).value)
        && e.outcome.AskStopped?)
  }

  /** What one finalization does to a run. */
  predicate Finalized(p: Packet, e: Evidence, before: Run, after: Run)
    requires Finalizable(p, e, before)
  {
    && after.lastCandidate == Some(e.candidate)
    && after.noProgressStreak == StreakAfter(before, e.candidate)
    && after.buildPasses == before.buildPasses && after.claims == before.claims
    && (after.state.ChangesRequested? <==> RepairFunded(p, e, before))
    && (after.state.ReadyForReview? <==> Reviewable(p, e, before))
    && (after.state.Stopped? <==> StopHonoured(p, e, before))
    && (after.state.ChangesRequested? || after.state.ReadyForReview? || after.state.Stopped? || after.state.Blocked?)
    && after.repairRound == before.repairRound + if after.state.ChangesRequested? then 1 else 0
  }

  predicate WithinCap(p: Packet, passes: nat) {
    EffectiveCap(BuildPasses, p).Ok? && passes < EffectiveCap(BuildPasses, p).value
  }

  predicate Claimable(p: Packet, run: Run) {
    (run.state.ReadyToBuild? || run.state.ChangesRequested?) && WithinCap(p, run.buildPasses)
  }

  function Claim(run: Run): Run {
    run.(state := Building, buildPasses := run.buildPasses + 1, claims := run.claims + 1)
  }

  /** A pass is in flight, and the counter is this many behind the history. */
  predicate InFlight(run: Run, behind: nat) {
    run.state.Building? && run.claims == run.buildPasses + behind
  }

  /** What asking for a pass answers, exactly, and the run it leaves. */
  predicate ClaimAnswers(p: Packet, before: Run, outcome: ClaimOutcome, after: Run) {
    && (outcome.Claimed? <==> Claimable(p, before))
    && (outcome.Replayed? <==>
          EffectiveCap(BuildPasses, p).Ok? && InFlight(before, 0) && before.buildPasses > 0)
    && (outcome.Recovered? <==> InFlight(before, 1) && WithinCap(p, before.buildPasses))
    && (outcome.CapSpent? <==>
          && EffectiveCap(BuildPasses, p).Ok? && !WithinCap(p, before.buildPasses)
          && (InFlight(before, 1) || before.state.ReadyToBuild? || before.state.ChangesRequested?))
    && match outcome
       case Claimed(pass) => after == Claim(before) && pass == after.buildPasses
       case Replayed(pass) => after == before && pass == after.buildPasses
       case Recovered(pass) =>
         after == before.(buildPasses := before.buildPasses + 1) && pass == after.buildPasses == after.claims
       case CapSpent => after == before.(state := Blocked)
       case ClaimRefused => after == before
  }

  class BuildRun {
    var state: RunState
    var lastCandidate: Option<string>
    var noProgressStreak: nat
    var repairRound: nat
    var buildPasses: nat
    var claims: nat

    ghost function Snapshot(): Run
      reads this
    {
      Run(state, lastCandidate, noProgressStreak, repairRound, buildPasses, claims)
    }

    constructor ()
      ensures Snapshot() == Run(ReadyToBuild, None, 0, 0, 0, 0)
    {
      state, lastCandidate, noProgressStreak, repairRound, buildPasses, claims := ReadyToBuild, None, 0, 0, 0, 0;
    }

    /** Claims one build pass.  The run is blocked exactly when the cap is spent where a pass would
        have to be funded; a pass in flight that is funded is only reported again. */
    method ClaimBuild(p: Packet) returns (outcome: ClaimOutcome)
      modifies this
      ensures ClaimAnswers(p, old(Snapshot()), outcome, Snapshot())
    {
      var cap := EffectiveCap(BuildPasses, p);
      if cap.Err? {
        return ClaimRefused;
      }
      if state.Building? {
        if claims == buildPasses && buildPasses > 0 {
          return Replayed(buildPasses);
        }
        if claims == buildPasses + 1 {
          if buildPasses >= cap.value {
            state := Blocked;
            return CapSpent;
          }
          buildPasses := buildPasses + 1;
          return Recovered(buildPasses);
        }
        return ClaimRefused;
      }
      if !state.ReadyToBuild? && !state.ChangesRequested? {
        return ClaimRefused;
      }
      if buildPasses >= cap.value {
        state := Blocked;
        return CapSpent;
      }
      state, buildPasses, claims := Building, buildPasses + 1, claims + 1;
      return Claimed(buildPasses);
    }

    /** The one owner of repair funding: the entitlement and the transition are one mutation, and
        an exhausted envelope seals BLOCKED instead.  Without a streak the streak restarts. */
    method TransitionFundedRepair(cap: int, candidate: string, streak: Option<nat>) returns (claimed: bool)
      modifies this
      ensures claimed <==> old(repairRound) < cap
      ensures Snapshot() == old(Snapshot()).(
                state := if claimed then ChangesRequested else Blocked,
                repairRound := old(repairRound) + if claimed then 1 else 0,
                lastCandidate := if candidate != "" then Some(candidate) else old(lastCandidate),
                noProgressStreak := if streak.Some? then streak.value else 0)
    {
      if repairRound >= cap {
        claimed, state := false, Blocked;
      } else {
        claimed, state, repairRound := true, ChangesRequested, repairRound + 1;
      }
      if candidate != "" {
        lastCandidate := Some(candidate);
      }
      noProgressStreak := if streak.Some? then streak.value else 0;
    }

    /** Derives the next state from the evidence and applies it with the counters in one mutation;
        a refused finalization leaves the claimed pass as it was. */
    method FinalizeBuild(p: Packet, e: Evidence) returns (finalized: bool)
      modifies this
      ensures finalized <==> Finalizable(p, e, old(Snapshot()))
      ensures finalized ==> Finalized(p, e, old(Snapshot()), Snapshot())
      ensures !finalized ==> Snapshot() == old(Snapshot())
    {
      if !state.Building? || e.candidate == "" || e.hardSecret {
        return false;
      }
      var repairCap, fuse, buildCap :=
        EffectiveCap(RepairRounds, p), EffectiveCap(NoProgressStreak, p), EffectiveCap(BuildPasses, p);
      if repairCap.Err? || buildCap.Err? {
        return false;
      }
      if buildPasses < 1 || buildPasses > buildCap.value {
        return false;
      }
      var streak := if lastCandidate == Some(e.candidate) then noProgressStreak + 1 else 0;
      var repairCauses: seq<string> := [];
      if e.scopeDrift {
        repairCauses := repairCauses + ["scope_drift"];
      }
      if !e.validationPassed {
        repairCauses := repairCauses + ["validation_failed"];
      }
      if e.environmentInvalid {
        repairCauses := repairCauses + ["candidate_environment_invalid"];
      }
      if repairCauses != [] && fuse.Err? {
        return false;
      }
      var noProgressCapReached := repairCauses != [] && streak >= fuse.value;
      var nextState;
      if e.stopRequested {
        nextState := Stopped;
      } else if e.infraFailure {
        nextState := Blocked;
      } else if !e.identityReproved {
        nextState := Blocked;
      } else if noProgressCapReached && repairCauses != [] {
        nextState := Blocked;
      } else if e.protectedDrift {
        nextState := Blocked;
      } else if e.scopeDrift {
        nextState := if repairRound >= repairCap.value then Blocked else ChangesRequested;
      } else if !e.validationPassed {
        nextState := if repairRound >= repairCap.value then Blocked else ChangesRequested;
      } else if e.outcome.AskBlocked? {
        nextState := Blocked;
      } else if e.outcome.AskStopped? {
        nextState := Stopped;
      } else if noProgressCapReached {
        nextState := Blocked;
      } else {
        nextState := ReadyForReview;
      }
      if nextState.ChangesRequested? && repairCauses != [] {
        var _ := TransitionFundedRepair(repairCap.value, e.candidate, Some(streak));
      } else {
        state, lastCandidate, noProgressStreak := nextState, Some(e.candidate), streak;
      }
      return true;
    }
  }

  // ----- whole runs -----

  /** One event of a run: a claimed and finalized build pass; a claim on its own that is answered;
      the end of a pass whose claim was answered; a claim that an old generation left with its
      transition and without its counter; or a review that asks for changes. */
  datatype Event =
    | Pass(e: Evidence)
    | Asked(outcome: ClaimOutcome)
    | Ended(e: Evidence)
    | CounterLost
    | Rejected(cap: int)

  /** How an event takes a run from one state to the next. */
  ghost predicate Steps(p: Packet, event: Event, before: Run, after: Run) {
    match event
    case Pass(e) =>
      Claimable(p, before) && Finalizable(p, e, Claim(before)) && Finalized(p, e, Claim(before), after)
    case Asked(outcome) => !outcome.ClaimRefused? && ClaimAnswers(p, before, outcome, after)
    case Ended(e) => InFlight(before, 0) && Finalizable(p, e, before) && Finalized(p, e, before, after)
    case CounterLost => Claimable(p, before) && after == before.(state := Building, claims := before.claims + 1)
    case Rejected(cap) =>
      && before.state.ReadyForReview? && EffectiveCap(RepairRounds, p) == Ok(cap)
      && after == before.(
           state := if before.repairRound < cap then ChangesRequested else Blocked,
           repairRound := before.repairRound + if before.repairRound < cap then 1 else 0,
           noProgressStreak := 0)
  }

  /** A run: the states before, between and after its events. */
  ghost predicate IsRun(p: Packet, runs: seq<Run>, events: seq<Event>) {
    && |runs| == |events| + 1
    && forall i {:trigger events[i]} :: 0 <= i < |events| ==> Steps(p, events[i], runs[i], runs[i + 1])
  }

  function RepairsRequested(runs: seq<Run>): nat {
    if runs == [] then 0
    else RepairsRequested(runs[..|runs| - 1]) + if runs[|runs| - 1].state.ChangesRequested? then 1 else 0
  }

  /** Repair is conserved and bounded: the repair counter has grown by exactly the number of times
      the run reached CHANGES_REQUESTED, so none was unfunded, and it is within its cap. */
  lemma {:induction false} EveryRepairIsFunded(p: Packet, runs: seq<Run>, events: seq<Event>)
    requires IsRun(p, runs, events) && EffectiveCap(RepairRounds, p).Ok?
    ensures runs[|events|].repairRound == runs[0].repairRound + RepairsRequested(runs[1..])
    ensures var cap := EffectiveCap(RepairRounds, p).value;
      runs[0].repairRound <= cap ==> runs[|events|].repairRound <= cap
  {
    if events != [] {
      var n := |events| - 1;
      FrontIsRun(p, runs, events, n);
      EveryRepairIsFunded(p, runs[..n + 1], events[..n]);
      assert Steps(p, events[n], runs[n], runs[n + 1]);
      assert runs[1..][..n] == runs[..n + 1][1..];
    }
  }

  /** Every claim is funded: the pass counter agrees with the claims in the history, except for a
      pass in flight whose counter was lost, and that one is within the cap. */
  lemma {:induction false} EveryClaimIsFunded(p: Packet, runs: seq<Run>, events: seq<Event>)
    requires IsRun(p, runs, events) && runs[0].claims == runs[0].buildPasses
    ensures var last := runs[|events|];
      last.claims == last.buildPasses || (InFlight(last, 1) && WithinCap(p, last.buildPasses))
  {
    if events != [] {
      var n := |events| - 1;
      FrontIsRun(p, runs, events, n);
      EveryClaimIsFunded(p, runs[..n + 1], events[..n]);
      assert Steps(p, events[n], runs[n], runs[n + 1]);
    }
  }

  /** Asking again heals: over every run, a claim that meets a pass in flight answers with that very
      pass and leaves its counter right; it is never refused and never blocks the run. */
  lemma AskingHeals(p: Packet, runs: seq<Run>, events: seq<Event>, outcome: ClaimOutcome, after: Run)
    requires IsRun(p, runs, events) && runs[0].claims == runs[0].buildPasses && EffectiveCap(BuildPasses, p).Ok?
    requires runs[|events|].state.Building? && runs[|events|].claims > 0
    requires ClaimAnswers(p, runs[|events|], outcome, after)
    ensures (outcome.Replayed? || outcome.Recovered?) && outcome.pass == runs[|events|].claims
    ensures outcome.Recovered? <==> runs[|events|].claims != runs[|events|].buildPasses
    ensures InFlight(after, 0) && after == runs[|events|].(buildPasses := runs[|events|].claims)
  {
    EveryClaimIsFunded(p, runs, events);
  }

  function Candidates(events: seq<Event>): seq<string>
    requires forall e :: e in events ==> e.Pass?
  {
    seq(|events|, i requires 0 <= i < |events| => assert events[i] in events; events[i].e.candidate)
  }

  /** How many candidates immediately before the last one are identical to it. */
  function TrailingRepeats(candidates: seq<string>): nat {
    var n := |candidates|;
    if n < 2 || candidates[n - 1] != candidates[n - 2] then 0 else 1 + TrailingRepeats(candidates[..n - 1])
  }

  predicate Unbuilt(run: Run) {
    run.lastCandidate.None? && run.noProgressStreak == 0
  }

  /** Over consecutive builds the streak is the number of immediately preceding identical
      candidates. */
  lemma {:induction false} StreakCountsRepeats(p: Packet, runs: seq<Run>, events: seq<Event>)
    requires IsRun(p, runs, events) && Unbuilt(runs[0]) && events != []
    requires forall e :: e in events ==> e.Pass?
    ensures runs[|events|].noProgressStreak == TrailingRepeats(Candidates(events))
    ensures runs[|events|].lastCandidate == Some(Candidates(events)[|events| - 1])
  {
    var n := |events| - 1;
    assert Steps(p, events[n], runs[n], runs[n + 1]);
    assert events[n] in events;
    var all := Candidates(events);
    assert all[n] == events[n].e.candidate;
    if n > 0 {
      FrontIsRun(p, runs, events, n);
      StreakCountsRepeats(p, runs[..n + 1], events[..n]);
      CandidatesOfFront(events, n);
    }
  }

  lemma FrontIsRun(p: Packet, runs: seq<Run>, events: seq<Event>, n: nat)
    requires IsRun(p, runs, events) && n <= |events|
    ensures IsRun(p, runs[..n + 1], events[..n])
    ensures (forall e :: e in events ==> e.Pass?) ==> forall e :: e in events[..n] ==> e.Pass?
  {
    forall i | 0 <= i < n ensures Steps(p, events[..n][i], runs[..n + 1][i], runs[..n + 1][i + 1]) {
      assert Steps(p, events[i], runs[i], runs[i + 1]);
    }
  }

  lemma CandidatesOfFront(events: seq<Event>, n: nat)
    requires n <= |events| && forall e :: e in events ==> e.Pass?
    ensures (forall e :: e in events[..n] ==> e.Pass?) && Candidates(events[..n]) == Candidates(events)[..n]
  {
  }

  /** The run keeps finalizing one candidate that needs repair. */
  predicate StuckOn(candidate: string, events: seq<Event>) {
    forall i {:trigger events[i]} :: 0 <= i < |events| ==>
      events[i].Pass? && events[i].e.candidate == candidate && HasRepairCause(events[i].e)
  }

  lemma {:induction false} StuckStreak(p: Packet, runs: seq<Run>, events: seq<Event>, candidate: string, k: nat)
    requires IsRun(p, runs, events) && Unbuilt(runs[0]) && StuckOn(candidate, events)
    requires 1 <= k <= |events|
    ensures runs[k].noProgressStreak == k - 1 && runs[k].lastCandidate == Some(candidate)
  {
    assert Steps(p, events[k - 1], runs[k - 1], runs[k]);
    if k > 1 {
      StuckStreak(p, runs, events, candidate, k - 1);
    }
  }

  /** An unbroken run of identical candidates needing repair lasts at most cap + 1 passes, and
      the pass numbered cap + 1 blocks it unless a requested stop is honoured there; a repair cap
      already spent would only end it sooner. */
  lemma IdenticalCandidatesAreBlocked(p: Packet, runs: seq<Run>, events: seq<Event>, candidate: string)
    requires IsRun(p, runs, events) && Unbuilt(runs[0]) && StuckOn(candidate, events) && events != []
    requires EffectiveCap(NoProgressStreak, p).Ok? && EffectiveCap(NoProgressStreak, p).value >= 0
    ensures var cap := EffectiveCap(NoProgressStreak, p).value;
      && |events| <= cap + 1
      && (|events| == cap + 1 ==>
            if events[cap].e.stopRequested then runs[cap + 1].state.Stopped? else runs[cap + 1].state.Blocked?)
  {
    var cap := EffectiveCap(NoProgressStreak, p).value;
    if |events| > cap {
      assert Steps(p, events[cap], runs[cap], runs[cap + 1]);
      StuckStreak(p, runs, events, candidate, cap + 1);
      if |events| > cap + 1 {
        PassesWereClaimable(p, runs, events, cap + 1);
      }
    }
  }

  lemma PassesWereClaimable(p: Packet, runs: seq<Run>, events: seq<Event>, i: nat)
    requires IsRun(p, runs, events) && i < |events|
    ensures events[i].Pass? ==> Claimable(p, runs[i])
  {
    assert Steps(p, events[i], runs[i], runs[i + 1]);
  }

  // ----- in the packet's own numbers -----

  lemma StepStaysWithin(p: Packet, event: Event, before: Run, after: Run)
    requires Steps(p, event, before, after)
    ensures after.repairRound != before.repairRound ==>
      after.repairRound == before.repairRound + 1 && before.repairRound < LimitOr(p.maxRepairRounds, 32) <= 128
    ensures after.buildPasses != before.buildPasses ==>
      after.buildPasses == before.buildPasses + 1 && before.buildPasses < LimitOr(p.maxBuildPasses, 32) <= 128
  {
    CapsInForce(p);
  }

  /** No run passes what its packet declares: at most so many repair rounds and build passes, 32 of
      each when it declares none, and none at all when it declares more than 128. */
  lemma {:induction false} RunsStayWithinThePacket(p: Packet, runs: seq<Run>, events: seq<Event>)
    requires IsRun(p, runs, events)
    ensures var rounds, last := LimitOr(p.maxRepairRounds, 32), runs[|events|];
      if rounds > 128 then last.repairRound == runs[0].repairRound
      else last.repairRound <= runs[0].repairRound || last.repairRound <= rounds
    ensures var passes, last := LimitOr(p.maxBuildPasses, 32), runs[|events|];
      if passes > 128 then last.buildPasses == runs[0].buildPasses
      else last.buildPasses <= runs[0].buildPasses || last.buildPasses <= passes
  {
    if events != [] {
      var n := |events| - 1;
      FrontIsRun(p, runs, events, n);
      RunsStayWithinThePacket(p, runs[..n + 1], events[..n]);
      assert Steps(p, events[n], runs[n], runs[n + 1]);
      StepStaysWithin(p, events[n], runs[n], runs[n + 1]);
    }
  }

  /** ... and at most one candidate more than it declares repeats, nine when it declares none, and
      not a single pass that needs repair when it declares more than 8. */
  lemma RepeatsStayWithinThePacket(p: Packet, runs: seq<Run>, events: seq<Event>, candidate: string)
    requires IsRun(p, runs, events) && Unbuilt(runs[0]) && StuckOn(candidate, events)
    requires LimitOr(p.maxNoProgressPasses, 8) >= 0
    ensures var repeats := LimitOr(p.maxNoProgressPasses, 8);
      if repeats > 8 then events == [] else |events| <= repeats + 1
  {
    CapsInForce(p);
    if events != [] {
      assert Steps(p, events[0], runs[0], runs[1]);
      assert StuckOn(candidate, events) && events[0].Pass?;
      if LimitOr(p.maxNoProgressPasses, 8) <= 8 {
        IdenticalCandidatesAreBlocked(p, runs, events, candidate);
      }
    }
  }

  /** What asking for a pass answers, state by state, in the packet's own number of passes. */
  lemma ClaimsInNumbers(p: Packet, before: Run, outcome: ClaimOutcome, after: Run)
    requires ClaimAnswers(p, before, outcome, after)
    ensures var passes := LimitOr(p.maxBuildPasses, 32);
      var due := before.state == ReadyToBuild || before.state == ChangesRequested;
      var lost := before.state == Building && before.claims == before.buildPasses + 1;
      if passes > 128 then outcome == ClaimRefused && after == before
      else if due && before.buildPasses < passes then
        && outcome == Claimed(before.buildPasses + 1)
        && after == before.(state := Building, buildPasses := before.buildPasses + 1, claims := before.claims + 1)
      else if lost && before.buildPasses < passes then
        outcome == Recovered(before.claims) && after == before.(buildPasses := before.claims)
      else if due || lost then outcome == CapSpent && after == before.(state := Blocked)
      else if before.state == Building && before.claims == before.buildPasses && before.claims > 0 then
        outcome == Replayed(before.claims) && after == before
      else outcome == ClaimRefused && after == before
  {
    CapsInForce(p);
  }

  /** When a finalization is taken on at all. */
  lemma FinalizableExactlyWhen(p: Packet, e: Evidence, run: Run)
    ensures Finalizable(p, e, run) <==>
      && run.state == Building && 1 <= run.buildPasses <= LimitOr(p.maxBuildPasses, 32) <= 128
      && e.candidate != "" && !e.hardSecret
      && LimitOr(p.maxRepairRounds, 32) <= 128
      && (e.scopeDrift || !e.validationPassed || e.environmentInvalid ==> LimitOr(p.maxNoProgressPasses, 8) <= 8)
  {
    CapsInForce(p);
  }

  /** What a finalization decides, cause by cause in order of precedence. */
  lemma DecisionsInOrder(p: Packet, e: Evidence, before: Run, after: Run)
    requires Finalizable(p, e, before) && Finalized(p, e, before, after)
    ensures var repeats := if before.lastCandidate == Some(e.candidate) then before.noProgressStreak + 1 else 0;
      var stuck := (e.scopeDrift || !e.validationPassed || e.environmentInvalid)
                   && repeats >= LimitOr(p.maxNoProgressPasses, 8);
      && after.noProgressStreak == repeats && after.lastCandidate == Some(e.candidate)
      && (e.stopRequested ==> after.state == Stopped)
      && (!e.stopRequested && (e.infraFailure || !e.identityReproved || stuck || e.protectedDrift) ==>
            after.state == Blocked)
      && (!e.stopRequested && !e.infraFailure && e.identityReproved && !stuck && !e.protectedDrift ==>
            after.state
            == if e.scopeDrift || !e.validationPassed then
                 if before.repairRound < LimitOr(p.maxRepairRounds, 32) then ChangesRequested else Blocked
               else match e.outcome
                 case CandidateReady => ReadyForReview
                 case AskBlocked => Blocked
                 case AskStopped => Stopped)
      && after.repairRound == before.repairRound + if after.state == ChangesRequested then 1 else 0
  {
    CapsInForce(p);
  }
}
