/**
 Turning a valid, unstarted run into an executable one: the first start writes an immutable seal
 binding the packet and the baseline, materialises a program's graph, and moves the run's state.
 */
module ExecutionStart {
  import opened Wrappers

  // ----- what a start reads -----

  /** A packet file, with what parsing it yields.  No candidate branch means none can be derived. */
  datatype Packet = Packet(
    text: string, valid: bool, targetsRepo: bool, branch: string, candidateBranch: Option<string>,
    graph: Option<string>)

  datatype PacketSha = PacketSha(packet: Packet)

  /** The packet file and the source repository as they are at one moment. */
  datatype View = View(packet: Option<Packet>, heads: map<string, string>, checkedOut: string, dirty: bool)

  function Head(v: View, branch: string): Option<string> {
    if branch in v.heads && v.heads[branch] != "" then Some(v.heads[branch]) else None
  }

  datatype Request = Request(bindingMethod: string, actor: string, legacyAllowed: bool)

  predicate Supported(bindingMethod: string) {
    bindingMethod in {"build_start", "tty_confirmation", "mission_segment"}
  }

  // ----- what is durable -----

  datatype Seal = Seal(
    packetSha: PacketSha, baselineBranch: string, baselineSha: string, candidateBranch: string,
    specSha: string, specBranch: string, bindingMethod: string, actor: string, sealedAt: nat)

  /** The seal file; a malformed one cannot be read or fails the shape check. */
  datatype SealFile = Absent | Malformed | Sealed(seal: Seal)

  datatype Phase = Missing | AwaitingApproval | ReadyToStart | ReadyToBuild | Working | Closed | SegmentBoundary

  datatype Graph = Graph(definition: string, baselineSha: string, candidateBranch: string)

  datatype Durable = Durable(seal: SealFile, phase: Phase, specSha: string, specBranch: string, graph: Option<Graph>)

  predicate PreStart(phase: Phase) {
    phase in {AwaitingApproval, ReadyToStart}
  }

  // ----- one call -----

  /** How far a call has come; every place but Waiting is inside both locks. */
  datatype Call =
    | Waiting(request: Request, packet: Packet)
    | Entered(request: Request, packet: Packet)
    | Found(packet: Packet, seal: Seal)
    | Matched(packet: Packet, seal: Seal)
    | Inspecting(request: Request, packet: Packet)
    | Based(request: Request, packet: Packet, head: string)
    | Drafted(request: Request, packet: Packet, seal: Seal)
    | Holding(packet: Packet, seal: Seal)
    | Materialised(packet: Packet, seal: Seal)
    | Activated(packet: Packet, seal: Seal)

  datatype Next = Goes(d: Durable, call: Call) | Refuses | Returns(seal: Seal)

  /** Before the locks: the packet is parsed and its target branch must exist. */
  function Begin(v: View, q: Request): Option<Call> {
    if || !Supported(q.bindingMethod) || v.packet.None? || !v.packet.value.valid || !v.packet.value.targetsRepo
       || v.packet.value.branch == "" || Head(v, v.packet.value.branch).None?
    then None
    else Some(Waiting(q, v.packet.value))
  }

  /** The seal still fits the packet file. */
  predicate PacketFits(v: View, packet: Packet, seal: Seal) {
    v.packet.Some? && seal.packetSha == PacketSha(v.packet.value) && seal.baselineBranch == packet.branch
  }

  /** The seal still fits the source. */
  predicate SourceFits(v: View, packet: Packet, seal: Seal) {
    && Head(v, packet.branch) == Some(seal.baselineSha)
    && packet.candidateBranch == Some(seal.candidateBranch)
    && seal.specSha in {"", seal.baselineSha}
    && !v.dirty
  }

  /** A first seal may be made against this head. */
  predicate Sealable(d: Durable, v: View, q: Request, packet: Packet, head: string) {
    && !(v.checkedOut == packet.branch && v.dirty)
    && d.phase != Missing
    && (d.specSha != "" || d.specBranch != "" || q.legacyAllowed)
    && d.specSha in {"", head}
    && d.specBranch in {"", packet.branch}
  }

  function Draft(d: Durable, q: Request, packet: Packet, sha: PacketSha, head: string, candidate: string, now: nat)
    : Seal
  {
    Seal(sha, if d.specBranch != "" then d.specBranch else packet.branch, head, candidate,
         if d.specSha != "" then d.specSha else head, if d.specBranch != "" then d.specBranch else packet.branch,
         q.bindingMethod, if q.actor == "" then "operator" else q.actor, now)
  }

  /** A graph already in the state is the one the packet and the seal call for. */
  predicate GraphFits(definition: string, seal: Seal, graph: Graph) {
    && graph.definition == definition
    && graph.baselineSha in {"", seal.baselineSha}
    && graph.candidateBranch in {"", seal.candidateBranch}
  }

  function Materialise(d: Durable, packet: Packet, seal: Seal): Next {
    match packet.graph
    case None => Goes(d, Materialised(packet, seal))
    case Some(definition) =>
      if seal.baselineSha == "" || seal.candidateBranch == "" || d.phase == Missing then Refuses
      else
        match d.graph
        case Some(graph) => if GraphFits(definition, seal, graph) then Goes(d, Materialised(packet, seal)) else Refuses
        case None =>
          Goes(d.(graph := Some(Graph(definition, seal.baselineSha, seal.candidateBranch))), Materialised(packet, seal))
  }

  /** The next atomic step of a call that holds both locks. */
  function Step(d: Durable, v: View, call: Call, now: nat): Next {
    match call
    case Waiting(q, packet) => Goes(d, Entered(q, packet))
    case Entered(q, packet) =>
      (match d.seal
       case Malformed => Refuses
       case Sealed(seal) => Goes(d, Found(packet, seal))
       case Absent => Goes(d, Inspecting(q, packet)))
    case Found(packet, seal) => if PacketFits(v, packet, seal) then Goes(d, Matched(packet, seal)) else Refuses
    case Matched(packet, seal) =>
      if !SourceFits(v, packet, seal) || d.phase == Missing then Refuses
      else if PreStart(d.phase) then Goes(d, Holding(packet, seal))
      else Goes(d, Activated(packet, seal))
    case Inspecting(q, packet) =>
      (match Head(v, packet.branch)
       case None => Refuses
       case Some(head) => if Sealable(d, v, q, packet, head) then Goes(d, Based(q, packet, head)) else Refuses)
    case Based(q, packet, head) =>
      if v.packet.None? || packet.candidateBranch.None? then Refuses
      else
        var sha, candidate := PacketSha(v.packet.value), packet.candidateBranch.value;
        Goes(d, Drafted(q, packet, Draft(d, q, packet, sha, head, candidate, now)))
    case Drafted(_, packet, seal) => Goes(d.(seal := Sealed(seal)), Holding(packet, seal))
    case Holding(packet, seal) => Materialise(d, packet, seal)
    case Materialised(packet, seal) =>
      if d.phase == AwaitingApproval then Goes(d.(phase := ReadyToBuild), Activated(packet, seal))
      else if d.phase in {Missing, ReadyToStart, SegmentBoundary} then Refuses
      else Goes(d, Activated(packet, seal))
    case Activated(_, seal) => Returns(seal)
  }

  datatype Outcome = Died | Refused | Succeeded(seal: Seal)

  /** A call alone in its locks that lives to take `life` steps. */
  function Alone(d: Durable, v: View, call: Call, now: nat, life: nat): (Durable, Outcome)
    decreases life
  {
    if life == 0 then (d, Died)
    else
      match Step(d, v, call, now)
      case Goes(d', next) => Alone(d', v, next, now, life - 1)
      case Refuses => (d, Refused)
      case Returns(seal) => (d, Succeeded(seal))
  }

  function Attempt(d: Durable, v: View, q: Request, now: nat, life: nat): (Durable, Outcome) {
    match Begin(v, q)
    case None => (d, Refused)
    case Some(call) => Alone(d, v, call, now, life)
  }

  /** The run directory. */
  class RunDirectory {
    var seal: SealFile
    var phase: Phase
    const specSha: string
    const specBranch: string
    var graph: Option<Graph>

    constructor (specSha: string, specBranch: string)
      ensures Store() == Durable(Absent, AwaitingApproval, specSha, specBranch, None)
    {
      this.specSha, this.specBranch := specSha, specBranch;
      seal, phase, graph := Absent, AwaitingApproval, None;
    }

    function Store(): Durable
      reads this
    {
      Durable(seal, phase, specSha, specBranch, graph)
    }

    /** Seals the run if nothing has, proves the seal still fits, and leaves the run executable. */
    method EnsureExecutable(v: View, q: Request, now: nat, life: nat) returns (outcome: Outcome)
      modifies this`seal, this`phase, this`graph
      ensures (Store(), outcome) == Attempt(old(Store()), v, q, now, life)
    {
      if || !Supported(q.bindingMethod) || v.packet.None? || !v.packet.value.valid || !v.packet.value.targetsRepo
         || v.packet.value.branch == "" || Head(v, v.packet.value.branch).None?
      {
        return Refused;
      }
      var packet := v.packet.value;
      if life == 0 {
        return Died;
      }
      outcome := Enter(v, q, packet, now, life - 1);
    }

    method Enter(v: View, q: Request, packet: Packet, now: nat, life: nat) returns (outcome: Outcome)
      modifies this`seal, this`phase, this`graph
      ensures (Store(), outcome) == Alone(old(Store()), v, Entered(q, packet), now, life)
    {
      if life == 0 {
        return Died;
      }
      match seal {
        case Malformed => outcome := Refused;
        case Sealed(existing) => outcome := ResumeSealed(v, packet, existing, now, life - 1);
        case Absent => outcome := SealFirst(v, q, packet, now, life - 1);
      }
    }

    method ResumeSealed(v: View, packet: Packet, existing: Seal, now: nat, life: nat) returns (outcome: Outcome)
      modifies this`phase, this`graph
      ensures (Store(), outcome) == Alone(old(Store()), v, Found(packet, existing), now, life)
    {
      if life == 0 {
        return Died;
      }
      if !PacketFits(v, packet, existing) {
        return Refused;
      }
      outcome := ResumeMatched(v, packet, existing, now, life - 1);
    }

    method ResumeMatched(v: View, packet: Packet, existing: Seal, now: nat, life: nat) returns (outcome: Outcome)
      modifies this`phase, this`graph
      ensures (Store(), outcome) == Alone(old(Store()), v, Matched(packet, existing), now, life)
    {
      if life == 0 {
        return Died;
      }
      if !SourceFits(v, packet, existing) || phase == Missing {
        return Refused;
      }
      if PreStart(phase) {
        outcome := MaterialiseProgram(v, packet, existing, now, life - 1);
      } else {
        outcome := if life == 1 then Died else Succeeded(existing);
      }
    }

    method SealFirst(v: View, q: Request, packet: Packet, now: nat, life: nat) returns (outcome: Outcome)
      modifies this`seal, this`phase, this`graph
      ensures (Store(), outcome) == Alone(old(Store()), v, Inspecting(q, packet), now, life)
    {
      if life == 0 {
        return Died;
      }
      var head := Head(v, packet.branch);
      if head.None? || !Sealable(Store(), v, q, packet, head.value) {
        return Refused;
      }
      if life == 1 {
        return Died;
      }
      if v.packet.None? || packet.candidateBranch.None? {
        return Refused;
      }
      var sha, candidate := PacketSha(v.packet.value), packet.candidateBranch.value;
      outcome := WriteSeal(v, q, packet, Draft(Store(), q, packet, sha, head.value, candidate, now), now, life - 2);
    }

    method WriteSeal(v: View, q: Request, packet: Packet, draft: Seal, now: nat, life: nat) returns (outcome: Outcome)
      modifies this`seal, this`phase, this`graph
      ensures (Store(), outcome) == Alone(old(Store()), v, Drafted(q, packet, draft), now, life)
    {
      if life == 0 {
        return Died;
      }
      seal := Sealed(draft);
      outcome := MaterialiseProgram(v, packet, draft, now, life - 1);
    }

    method MaterialiseProgram(v: View, packet: Packet, held: Seal, now: nat, life: nat) returns (outcome: Outcome)
      modifies this`phase, this`graph
      ensures (Store(), outcome) == Alone(old(Store()), v, Holding(packet, held), now, life)
    {
      if life == 0 {
        return Died;
      }
      if packet.graph.Some? {
        var definition := packet.graph.value;
        if held.baselineSha == "" || held.candidateBranch == "" || phase == Missing {
          return Refused;
        }
        if graph.Some? {
          if !GraphFits(definition, held, graph.value) {
            return Refused;
          }
        } else {
          graph := Some(Graph(definition, held.baselineSha, held.candidateBranch));
        }
      }
      outcome := Activate(v, packet, held, now, life - 1);
    }

    /** Moves a pre-start run to READY_TO_BUILD and proves the state it ends in. */
    method Activate(v: View, packet: Packet, held: Seal, now: nat, life: nat) returns (outcome: Outcome)
      modifies this`phase
      ensures (Store(), outcome) == Alone(old(Store()), v, Materialised(packet, held), now, life)
    {
      if life == 0 {
        return Died;
      }
      if phase in {Missing, ReadyToStart, SegmentBoundary} {
        return Refused;
      }
      if phase == AwaitingApproval {
        phase := ReadyToBuild;
      }
      outcome := if life == 1 then Died else Succeeded(held);
    }
  }
}
