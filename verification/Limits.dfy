/** The caps on a run's counters, and which of them a packet can move. */
module Limits {
  import opened Wrappers

  datatype Counter = BuildPasses | ReviewPasses | RepairRounds | NoProgressStreak

  /** The packet's declared risk budget; a missing key is None. */
  datatype Packet = Packet(
    maxBuildPasses: Option<int>,
    maxReviewPasses: Option<int>,
    maxRepairRounds: Option<int>,
    maxNoProgressPasses: Option<int>)

  /** The emergency cap of an unbudgeted run. */
  function CapFor(counter: Counter): int {
    match counter
    case BuildPasses => 32
    case ReviewPasses => 32
    case RepairRounds => 32
    case NoProgressStreak => 8
  }

  /** The envelope no packet may exceed. */
  function AbsoluteCap(counter: Counter): int {
    match counter
    case BuildPasses => 128
    case ReviewPasses => 128
    case RepairRounds => 128
    case NoProgressStreak => 8
  }

  function Declared(counter: Counter, p: Packet): Option<int> {
    match counter
    case BuildPasses => p.maxBuildPasses
    case ReviewPasses => p.maxReviewPasses
    case RepairRounds => p.maxRepairRounds
    case NoProgressStreak => p.maxNoProgressPasses
  }

  datatype LimitError = ExceedsAbsoluteCeiling

  /** The packet's own cap, refused past the absolute envelope. */
  function PacketLowersCap(counter: Counter, p: Packet): Result<Option<int>, LimitError> {
    var declared := Declared(counter, p);
    if declared.Some? && declared.value > AbsoluteCap(counter) then Err(ExceedsAbsoluteCeiling) else Ok(declared)
  }

  /** The cap in force: the packet's if it declares one, else the emergency cap.  It never passes
      the absolute envelope, and only a packet can widen the emergency cap. */
  function EffectiveCap(counter: Counter, p: Packet): (r: Result<int, LimitError>)
    ensures r.Ok? && Declared(counter, p).Some? ==> r == Ok(Declared(counter, p).value)
    ensures r.Ok? ==> r.value <= AbsoluteCap(counter)
    ensures r.Ok? && r.value > CapFor(counter) ==> Declared(counter, p) == Some(r.value)
    ensures r.Err? <==> Declared(counter, p).Some? && Declared(counter, p).value > AbsoluteCap(counter)
  {
    match PacketLowersCap(counter, p)
    case Err(e) => Err(e)
    case Ok(Some(cap)) => Ok(cap)
    case Ok(None) => Ok(CapFor(counter))
  }

  /** A packet's own number, or the emergency limit of a packet that declares none. */
  function LimitOr(declared: Option<int>, emergency: int): int {
    if declared.Some? then declared.value else emergency
  }

  /** The caps in force, number by number: what the packet declares, up to 128 passes or rounds and
      8 repeats, and 32, 32, 32 and 8 when it declares nothing; more than that is refused. */
  lemma CapsInForce(p: Packet)
    ensures var k := LimitOr(p.maxBuildPasses, 32);
      EffectiveCap(BuildPasses, p) == if k <= 128 then Ok(k) else Err(ExceedsAbsoluteCeiling)
    ensures var k := LimitOr(p.maxReviewPasses, 32);
      EffectiveCap(ReviewPasses, p) == if k <= 128 then Ok(k) else Err(ExceedsAbsoluteCeiling)
    ensures var k := LimitOr(p.maxRepairRounds, 32);
      EffectiveCap(RepairRounds, p) == if k <= 128 then Ok(k) else Err(ExceedsAbsoluteCeiling)
    ensures var k := LimitOr(p.maxNoProgressPasses, 8);
      EffectiveCap(NoProgressStreak, p) == if k <= 8 then Ok(k) else Err(ExceedsAbsoluteCeiling)
  {
  }
}
