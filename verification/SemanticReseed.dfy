/**
 Reseeding a failed semantic artifact: archive its bytes, put a fresh skeleton in its place, and
 write a receipt that binds both.  Every fresh skeleton carries a new timestamp, so a retry after
 a crash recognises a finished reseed modulo that one field.
 */
module SemanticReseed {
  import opened Wrappers
  import opened Crashes

  /** The canonical text of all fields of a JSON object but its timestamp. */
  type Fields = string

  datatype Object = Object(others: Fields, timestamp: Option<string>)

  /** File contents: the JSON object they parse to, if any, and everything parsing forgets.  Two
      files have the same bytes when both agree.  A digest is the contents it was taken of. */
  datatype Bytes = Bytes(doc: Option<Object>, layout: string)

  type Digest = Bytes

  const NoBytes := Bytes(None, "")

  /** The canonical encoding of the core-owned skeleton at one instant. */
  function Skeleton(core: Fields, now: string): Bytes {
    Bytes(Some(Object(core, Some(now))), "")
  }

  ghost predicate IsSkeleton(core: Fields, b: Bytes) {
    exists now :: b == Skeleton(core, now)
  }

  /** Two JSON objects that differ at most in their timestamps. */
  predicate SkeletonsEquivalent(left: Bytes, right: Bytes) {
    left.doc.Some? && right.doc.Some? && left.doc.value.others == right.doc.value.others
  }

  datatype Receipt = Receipt(hasArchive: bool, archived: Digest, current: Digest, recordedAt: string)

  /** The three files of one attempt: the canonical artifact, its archive, the receipt. */
  datatype Files = Files(semantic: Option<Bytes>, archive: Option<Bytes>, receipt: Option<Receipt>)

  /** The instants a call reads the clock: for its own skeleton, for the one it writes, and for
      the receipt. */
  datatype Clock = Clock(built: string, written: string, recorded: string)

  datatype Refusal = ArchiveMissing | ReceiptMismatch | ArtifactDrifted | ArchiveCollision

  datatype Outcome =
    | Died
    | Refused(why: Refusal)
    | Done(archived: Digest, current: Digest, reseeded: bool)

  datatype Step = WriteArchive(b: Bytes) | WriteSkeleton(b: Bytes) | WriteReceipt(r: Receipt)

  function Apply(f: Files, step: Step): Files {
    match step
    case WriteArchive(b) => f.(archive := Some(b))
    case WriteSkeleton(b) => f.(semantic := Some(b))
    case WriteReceipt(r) => f.(receipt := Some(r))
  }

  datatype Plan = Plan(steps: seq<Step>, outcome: Outcome)

  function Contents(b: Option<Bytes>): Bytes {
    if b.Some? then b.value else NoBytes
  }

  /** A receipt exists: nothing is written, everything is compared. */
  function PlanReplay(f: Files, r: Receipt): Plan {
    if r.hasArchive && f.archive.None? then Plan([], Refused(ArchiveMissing))
    else if r.archived != (if r.hasArchive then f.archive.value else NoBytes) then Plan([], Refused(ReceiptMismatch))
    else if Contents(f.semantic) != r.current then Plan([], Refused(ArtifactDrifted))
    else Plan([], Done(r.archived, r.current, false))
  }

  /** The steps that are left once what is to be archived and what is fresh are known. */
  function FinishPlan(f: Files, archived: Bytes, current: Bytes, clock: Clock, core: Fields, reseeded: bool): Plan {
    if Contents(f.semantic) != current then
      var written := Skeleton(core, clock.written);
      Plan([WriteSkeleton(written), WriteReceipt(Receipt(f.semantic.Some?, archived, written, clock.recorded))],
           Done(archived, written, reseeded))
    else
      Plan([WriteReceipt(Receipt(f.semantic.Some?, archived, current, clock.recorded))],
           Done(archived, current, reseeded))
  }

  function After(step: Step, plan: Plan): Plan {
    Plan([step] + plan.steps, plan.outcome)
  }

  function PlanFor(core: Fields, f: Files, clock: Clock): Plan {
    var raw, current := Contents(f.semantic), Skeleton(core, clock.built);
    if f.receipt.Some? then PlanReplay(f, f.receipt.value)
    else if f.semantic.None? then FinishPlan(f, raw, current, clock, core, true)
    else if f.archive.None? then After(WriteArchive(raw), FinishPlan(f, raw, current, clock, core, true))
    else
      var prior := f.archive.value;
      if raw != current && !SkeletonsEquivalent(raw, current) && prior != raw then Plan([], Refused(ArchiveCollision))
      else if prior != raw then FinishPlan(f, prior, raw, clock, core, false)
      else FinishPlan(f, prior, current, clock, core, true)
  }

  /** What a plan leaves when its process lives to make `life` of its writes. */
  function Carried(f: Files, plan: Plan, life: nat): Files {
    RunAll(Apply, f, FirstSteps(plan.steps, life))
  }

  function Ending(plan: Plan, life: nat): Outcome {
    if life < |plan.steps| then Died else plan.outcome
  }

  function Attempt(core: Fields, f: Files, clock: Clock, life: nat): Files {
    Carried(f, PlanFor(core, f, clock), life)
  }

  function AttemptOutcome(core: Fields, f: Files, clock: Clock, life: nat): Outcome {
    Ending(PlanFor(core, f, clock), life)
  }

  lemma CarriedShort(f: Files, plan: Plan, life: nat)
    ensures plan.steps == [] || life == 0 ==> Carried(f, plan, life) == f
    ensures |plan.steps| == 1 && life >= 1 ==> Carried(f, plan, life) == Apply(f, plan.steps[0])
    ensures |plan.steps| == 2 && life == 1 ==> Carried(f, plan, life) == Apply(f, plan.steps[0])
    ensures |plan.steps| == 2 && life >= 2 ==> Carried(f, plan, life) == Apply(Apply(f, plan.steps[0]), plan.steps[1])
  {
    assert plan.steps[..0] == [];
    if 0 < |plan.steps| <= 2 && life >= 1 {
      Unfold(Apply, f, plan.steps, 1);
      if |plan.steps| == 2 {
        Unfold(Apply, f, plan.steps, 2);
      }
    }
  }

  lemma CarriedAfter(f: Files, step: Step, plan: Plan, life: nat)
    ensures life == 0 ==> Carried(f, After(step, plan), life) == f
    ensures life > 0 ==> Carried(f, After(step, plan), life) == Carried(Apply(f, step), plan, life - 1)
    ensures life > 0 ==> Ending(After(step, plan), life) == Ending(plan, life - 1)
    ensures life == 0 ==> Ending(After(step, plan), life) == Died
  {
    PrefixOfParts(Apply, f, [step], plan.steps, life);
    Unfold(Apply, f, [step], 1);
    assert [step][..1] == [step];
  }

  class SemanticArtifact {
    const core: Fields
    var semantic: Option<Bytes>
    var archive: Option<Bytes>
    var receipt: Option<Receipt>

    ghost function Snapshot(): Files
      reads this
    {
      Files(semantic, archive, receipt)
    }

    constructor (core: Fields, failed: Option<Bytes>)
      ensures this.core == core && Snapshot() == Files(failed, None, None)
    {
      this.core := core;
      semantic, archive, receipt := failed, None, None;
    }

    /** One reseed call that lives to make `life` file writes. */
    method ReseedForRetry(clock: Clock, life: nat) returns (outcome: Outcome)
      modifies this
      ensures Snapshot() == Attempt(core, old(Snapshot()), clock, life)
      ensures outcome == AttemptOutcome(core, old(Snapshot()), clock, life)
    {
      if receipt.Some? {
        outcome := Replay(receipt.value);
        return;
      }
      CarriedShort(Snapshot(), Plan([], Died), life);
      var built := Skeleton(core, clock.built);
      if semantic.None? {
        outcome := Finish(NoBytes, built, clock, true, life);
        return;
      }
      var raw := semantic.value;
      if archive.None? {
        ghost var f := Snapshot();
        CarriedAfter(f, WriteArchive(raw), FinishPlan(f, raw, built, clock, core, true), life);
        if life == 0 {
          return Died;
        }
        archive := Some(raw);
        outcome := Finish(raw, built, clock, true, life - 1);
        return;
      }
      var prior := archive.value;
      if raw != built && !SkeletonsEquivalent(raw, built) && prior != raw {
        return Refused(ArchiveCollision);
      }
      if prior != raw {
        // The earlier call died between its skeleton and its receipt.
        outcome := Finish(prior, raw, clock, false, life);
      } else {
        outcome := Finish(prior, built, clock, true, life);
      }
    }

    method Replay(r: Receipt) returns (outcome: Outcome)
      ensures outcome == PlanReplay(Snapshot(), r).outcome
    {
      if r.hasArchive && archive.None? {
        return Refused(ArchiveMissing);
      }
      if r.archived != (if r.hasArchive then archive.value else NoBytes) {
        return Refused(ReceiptMismatch);
      }
      if Contents(semantic) != r.current {
        return Refused(ArtifactDrifted);
      }
      return Done(r.archived, r.current, false);
    }

    /** The skeleton if it is still missing, then the receipt. */
    method Finish(archived: Bytes, expected: Bytes, clock: Clock, reseeded: bool, life: nat) returns (outcome: Outcome)
      modifies this`semantic, this`receipt
      ensures var plan := FinishPlan(old(Snapshot()), archived, expected, clock, core, reseeded);
        Snapshot() == Carried(old(Snapshot()), plan, life) && outcome == Ending(plan, life)
    {
      CarriedShort(Snapshot(), FinishPlan(Snapshot(), archived, expected, clock, core, reseeded), life);
      var left, archiving, final := life, semantic.Some?, expected;
      if Contents(semantic) != expected {
        if left == 0 {
          return Died;
        }
        final := Skeleton(core, clock.written);
        semantic := Some(final);
        left := left - 1;
      }
      if left == 0 {
        return Died;
      }
      receipt := Some(Receipt(archiving, archived, final, clock.recorded));
      return Done(archived, final, reseeded);
    }
  }

  // ----- every run of calls -----

  /** A call: its clock readings, and how many writes it lives to make. */
  datatype Call = Call(clock: Clock, life: nat)

  function Makes(core: Fields): (Files, Call) -> Files {
    (f: Files, c: Call) => Attempt(core, f, c.clock, c.life)
  }

  function Calls(core: Fields, f: Files, calls: seq<Call>): Files {
    RunAll(Makes(core), f, calls)
  }

  /** The four durable stages of reseeding an artifact that failed with the bytes `raw`. */
  ghost predicate OnTrack(core: Fields, raw: Bytes, f: Files) {
    && f.semantic.Some?
    && (f.archive.None? ==> f == Files(Some(raw), None, None))
    && (f.archive.Some? ==> f.archive == Some(raw) && (f.semantic == Some(raw) || IsSkeleton(core, f.semantic.value)))
    && (f.receipt.Some? ==>
          && f.archive.Some? && IsSkeleton(core, f.semantic.value)
          && f.receipt.value.hasArchive
          && f.receipt.value.archived == raw && f.receipt.value.current == f.semantic.value)
  }

  ghost predicate Reseeded(core: Fields, raw: Bytes, f: Files) {
    OnTrack(core, raw, f) && f.receipt.Some?
  }

  lemma SkeletonsDifferInTime(core: Fields, b: Bytes, now: string)
    requires IsSkeleton(core, b)
    ensures SkeletonsEquivalent(b, Skeleton(core, now))
  {
  }

  lemma ReceiptIsFinal(core: Fields, raw: Bytes, f: Files, clock: Clock, life: nat)
    requires Reseeded(core, raw, f)
    ensures Attempt(core, f, clock, life) == f
    ensures AttemptOutcome(core, f, clock, life) == Done(raw, f.semantic.value, false)
  {
    CarriedShort(f, PlanFor(core, f, clock), life);
  }

  lemma FinishStaysOnTrack(core: Fields, raw: Bytes, f: Files, expected: Bytes, clock: Clock, reseeded: bool, life: nat)
    requires OnTrack(core, raw, f) && f.archive.Some? && f.receipt.None? && IsSkeleton(core, expected)
    ensures var plan := FinishPlan(f, raw, expected, clock, core, reseeded);
      var t := Carried(f, plan, life);
      && OnTrack(core, raw, t) && t.archive == f.archive
      && (life >= 2 ==> Ending(plan, life).Done? && t.receipt.Some?)
  {
    assert IsSkeleton(core, Skeleton(core, clock.written));
    CarriedShort(f, FinishPlan(f, raw, expected, clock, core, reseeded), life);
  }

  lemma ArchivingStaysOnTrack(core: Fields, raw: Bytes, clock: Clock, life: nat)
    ensures var t := Attempt(core, Files(Some(raw), None, None), clock, life);
      && OnTrack(core, raw, t)
      && (life >= 3 ==> AttemptOutcome(core, Files(Some(raw), None, None), clock, life).Done? && t.receipt.Some?)
  {
    var f, built := Files(Some(raw), None, None), Skeleton(core, clock.built);
    assert IsSkeleton(core, built);
    CarriedAfter(f, WriteArchive(raw), FinishPlan(f, raw, built, clock, core, true), life);
    if life > 0 {
      FinishStaysOnTrack(core, raw, f.(archive := Some(raw)), built, clock, true, life - 1);
    }
  }

  lemma WritingStaysOnTrack(core: Fields, raw: Bytes, f: Files, clock: Clock, life: nat)
    requires OnTrack(core, raw, f) && f.archive.Some? && f.receipt.None?
    ensures var t := Attempt(core, f, clock, life);
      && OnTrack(core, raw, t) && t.archive == f.archive
      && (life >= 3 ==> AttemptOutcome(core, f, clock, life).Done? && t.receipt.Some?)
  {
    var built := Skeleton(core, clock.built);
    assert IsSkeleton(core, built);
    if f.semantic == Some(raw) {
      FinishStaysOnTrack(core, raw, f, built, clock, true, life);
    } else {
      SkeletonsDifferInTime(core, f.semantic.value, clock.built);
      FinishStaysOnTrack(core, raw, f, f.semantic.value, clock, false, life);
    }
  }

  lemma AttemptStaysOnTrack(core: Fields, raw: Bytes, f: Files, clock: Clock, life: nat)
    requires OnTrack(core, raw, f)
    ensures OnTrack(core, raw, Attempt(core, f, clock, life))
    ensures f.archive.Some? ==> Attempt(core, f, clock, life).archive == f.archive
    ensures life >= 3 ==>
      AttemptOutcome(core, f, clock, life).Done? && Reseeded(core, raw, Attempt(core, f, clock, life))
    ensures f.receipt.Some? ==> Attempt(core, f, clock, life) == f
    ensures f.receipt.Some? ==> AttemptOutcome(core, f, clock, life) == Done(raw, f.semantic.value, false)
  {
    if f.receipt.Some? {
      ReceiptIsFinal(core, raw, f, clock, life);
    } else if f.archive.Some? {
      WritingStaysOnTrack(core, raw, f, clock, life);
    } else {
      ArchivingStaysOnTrack(core, raw, clock, life);
    }
  }

  lemma {:induction false} CallsStayOnTrack(core: Fields, raw: Bytes, f: Files, calls: seq<Call>)
    requires OnTrack(core, raw, f)
    ensures OnTrack(core, raw, Calls(core, f, calls))
    ensures f.archive.Some? ==> Calls(core, f, calls).archive == f.archive
    ensures f.receipt.Some? ==> Calls(core, f, calls) == f
  {
    if calls != [] {
      var last := calls[|calls| - 1];
      CallsStayOnTrack(core, raw, f, calls[..|calls| - 1]);
      AttemptStaysOnTrack(core, raw, Calls(core, f, calls[..|calls| - 1]), last.clock, last.life);
    }
  }

  /** Reseeding converges: when a failed artifact existed at the first call, any number of calls
      that die anywhere, each with its own clock, and one that lives end with the archive equal to
      exactly those bytes, a fresh skeleton in place, and a receipt that binds both; every further
      call changes nothing and reports the same. */
  lemma ReseedConverges(core: Fields, raw: Bytes, calls: seq<Call>, last: Call, more: Call)
    requires last.life >= 3
    ensures var t := Calls(core, Files(Some(raw), None, None), calls + [last]);
      && t.archive == Some(raw)
      && t.semantic.Some? && IsSkeleton(core, t.semantic.value)
      && t.receipt.Some? && t.receipt.value.archived == raw && t.receipt.value.current == t.semantic.value
      && Attempt(core, t, more.clock, more.life) == t
      && AttemptOutcome(core, t, more.clock, more.life) == Done(raw, t.semantic.value, false)
  {
    var start := Files(Some(raw), None, None);
    CallsStayOnTrack(core, raw, start, calls);
    assert (calls + [last])[..|calls|] == calls;
    AttemptStaysOnTrack(core, raw, Calls(core, start, calls), last.clock, last.life);
    AttemptStaysOnTrack(core, raw, Calls(core, start, calls + [last]), more.clock, more.life);
  }

  /** The archive, once there, is never overwritten, and it never holds anything but the failed
      bytes. */
  lemma ArchiveIsWrittenOnce(core: Fields, raw: Bytes, calls: seq<Call>, n: nat)
    requires n <= |calls|
    ensures var early := Calls(core, Files(Some(raw), None, None), calls[..n]).archive;
      var late := Calls(core, Files(Some(raw), None, None), calls).archive;
      && (early.Some? ==> late == early)
      && (late.Some? ==> late == Some(raw))
    decreases |calls|
  {
    var start := Files(Some(raw), None, None);
    CallsStayOnTrack(core, raw, start, calls);
    if n == |calls| {
      assert calls[..n] == calls;
    } else {
      var front := calls[..|calls| - 1];
      assert front[..n] == calls[..n];
      ArchiveIsWrittenOnce(core, raw, front, n);
      CallsStayOnTrack(core, raw, start, front);
      AttemptStaysOnTrack(core, raw, Calls(core, start, front), calls[|calls| - 1].clock, calls[|calls| - 1].life);
    }
  }

  /** Why an artifact must have existed at the first call: without one, a call killed between the
      skeleton and the receipt leaves a skeleton that the next call takes for a failed artifact
      and archives. */
  lemma AbsentArtifactArchivesASkeleton(core: Fields, first: Clock, second: Clock)
    ensures var killed := Attempt(core, Files(None, None, None), first, 1);
      && killed == Files(Some(Skeleton(core, first.written)), None, None)
      && Attempt(core, killed, second, 3).archive == Some(Skeleton(core, first.written))
  {
    var start := Files(None, None, None);
    CarriedShort(start, PlanFor(core, start, first), 1);
    var killed := Attempt(core, start, first, 1);
    var plan := FinishPlan(killed, killed.semantic.value, Skeleton(core, second.built), second, core, true);
    CarriedAfter(killed, WriteArchive(killed.semantic.value), plan, 3);
    CarriedShort(Apply(killed, WriteArchive(killed.semantic.value)), plan, 2);
  }

  /** A call that writes anything archives a failed artifact first. */
  lemma WritingArchives(core: Fields, raw: Bytes, clock: Clock, life: nat)
    ensures Attempt(core, Files(Some(raw), None, None), clock, life).archive == if life == 0 then None else Some(raw)
    ensures life == 0 ==> Attempt(core, Files(Some(raw), None, None), clock, life) == Files(Some(raw), None, None)
  {
    var f, built := Files(Some(raw), None, None), Skeleton(core, clock.built);
    var plan := FinishPlan(f, raw, built, clock, core, true);
    CarriedAfter(f, WriteArchive(raw), plan, life);
    if life > 0 {
      CarriedShort(Apply(f, WriteArchive(raw)), plan, life - 1);
    }
  }

  lemma {:induction false} CallsArchive(core: Fields, raw: Bytes, calls: seq<Call>)
    ensures var t := Calls(core, Files(Some(raw), None, None), calls);
      if exists c :: c in calls && c.life > 0 then t.archive == Some(raw) else t == Files(Some(raw), None, None)
  {
    if calls != [] {
      var start, front, last := Files(Some(raw), None, None), calls[..|calls| - 1], calls[|calls| - 1];
      CallsArchive(core, raw, front);
      CallsStayOnTrack(core, raw, start, front);
      if exists c :: c in front && c.life > 0 {
        AttemptStaysOnTrack(core, raw, Calls(core, start, front), last.clock, last.life);
      } else {
        WritingArchives(core, raw, last.clock, last.life);
        assert last in calls;
      }
      assert forall c :: c in calls <==> c in front || c == last;
    }
  }

  lemma {:induction false} ReceiptWithoutArchiveStays(core: Fields, f: Files, calls: seq<Call>)
    requires f.archive.None? && f.semantic.Some? && f.receipt.Some?
    requires !f.receipt.value.hasArchive && f.receipt.value.archived == NoBytes
    requires f.receipt.value.current == f.semantic.value
    ensures Calls(core, f, calls) == f
  {
    if calls != [] {
      var last := calls[|calls| - 1];
      ReceiptWithoutArchiveStays(core, f, calls[..|calls| - 1]);
      CarriedShort(f, PlanFor(core, f, last.clock), last.life);
    }
  }

  /** Exactly when that happens: from an absent artifact, with anything written afterwards, no
      skeleton is archived if and only if the first call that writes lives to both its writes. */
  lemma SkeletonIsArchivedExactlyWhen(core: Fields, first: Call, later: seq<Call>)
    requires first.life > 0 && exists c :: c in later && c.life > 0
    ensures var t := Calls(core, Attempt(core, Files(None, None, None), first.clock, first.life), later);
      && (t.archive.None? <==> first.life >= 2)
      && (t.archive.Some? ==> t.archive == Some(Skeleton(core, first.clock.written)))
  {
    var start := Files(None, None, None);
    CarriedShort(start, PlanFor(core, start, first.clock), first.life);
    var t := Attempt(core, start, first.clock, first.life);
    if first.life == 1 {
      CallsArchive(core, Skeleton(core, first.clock.written), later);
    } else {
      ReceiptWithoutArchiveStays(core, t, later);
    }
  }

  // ----- what one call answers, whatever the files are -----

  /** With a receipt nothing is ever written, and the call reports what the receipt says exactly when
      the archive and the artifact still are what it says. */
  lemma ReceiptAnswers(core: Fields, f: Files, clock: Clock, life: nat)
    requires f.receipt.Some?
    ensures Attempt(core, f, clock, life) == f
    ensures var r, outcome := f.receipt.value, AttemptOutcome(core, f, clock, life);
      && (outcome.Done? <==>
            && (if r.hasArchive then f.archive == Some(r.archived) else r.archived == Bytes(None, ""))
            && (if f.semantic.Some? then f.semantic == Some(r.current) else r.current == Bytes(None, "")))
      && (outcome.Done? ==> outcome == Done(r.archived, r.current, false))
      && (outcome == Refused(ArchiveMissing) <==> r.hasArchive && f.archive.None?)
      && !outcome.Died?
  {
    CarriedShort(f, PlanFor(core, f, clock), life);
  }

  /** An earlier call had archived something else than the artifact now in place. */
  predicate ArchivedOther(f: Files) {
    f.semantic.Some? && f.archive.Some? && f.archive != f.semantic
  }

  /** What the artifact is in the end: one already reseeded stays; anything else becomes a skeleton of
      the instant it is written, unless it already is the skeleton of this very instant. */
  function Installed(core: Fields, f: Files, clock: Clock): Bytes {
    if f.semantic.Some? && (ArchivedOther(f) || f.semantic.value == Bytes(Some(Object(core, Some(clock.built))), ""))
    then f.semantic.value
    else Bytes(Some(Object(core, Some(clock.written))), "")
  }

  /** What the call reports as archived: what lies in the archive, or what it puts there. */
  function Reported(f: Files): Bytes {
    if ArchivedOther(f) then f.archive.value else if f.semantic.Some? then f.semantic.value else Bytes(None, "")
  }

  /** Without a receipt a call that lives is refused exactly when the archive holds something else
      than the artifact and the artifact is no skeleton; then nothing is written.  Otherwise the
      three files and the report say the same. */
  lemma ReseedAnswers(core: Fields, f: Files, clock: Clock, life: nat)
    requires f.receipt.None? && life >= 3
    ensures var t, outcome := Attempt(core, f, clock, life), AttemptOutcome(core, f, clock, life);
      if ArchivedOther(f) && !(f.semantic.value.doc.Some? && f.semantic.value.doc.value.others == core)
      then outcome == Refused(ArchiveCollision) && t == f
      else
        && outcome == Done(Reported(f), Installed(core, f, clock), !ArchivedOther(f))
        && t.semantic == Some(Installed(core, f, clock))
        && t.archive == (if f.semantic.Some? then Some(Reported(f)) else f.archive)
        && t.receipt == Some(Receipt(f.semantic.Some?, Reported(f), Installed(core, f, clock), clock.recorded))
  {
    var raw, current := Contents(f.semantic), Skeleton(core, clock.built);
    CarriedShort(f, PlanFor(core, f, clock), life);
    if f.semantic.Some? && f.archive.None? {
      var plan := FinishPlan(f, raw, current, clock, core, true);
      CarriedAfter(f, WriteArchive(raw), plan, life);
      CarriedShort(Apply(f, WriteArchive(raw)), plan, life - 1);
    }
  }
}
