/**
 What one call that has the run to itself answers, in terms of what lies on disk and in the source.
 */
module ExecutionStartAnswers {
  import opened Wrappers
  import opened ExecutionStart
  import opened ExecutionStartRuns

  /** The packet the call parses is valid, for this repository, and its branch has a head. */
  predicate Comes(v: View, q: Request) {
    && v.packet.Some? && Admitted(q, v.packet.value)
    && v.packet.value.branch in v.heads && v.heads[v.packet.value.branch] != ""
  }

  /** A program's graph can be written for these commits, or is there already. */
  predicate GraphAllows(definition: Option<string>, graph: Option<Graph>, baselineSha: string, candidate: string) {
    definition.Some? ==>
      && baselineSha != "" && candidate != ""
      && (graph.Some? ==>
            && graph.value.definition == definition.value
            && (graph.value.baselineSha == "" || graph.value.baselineSha == baselineSha)
            && (graph.value.candidateBranch == "" || graph.value.candidateBranch == candidate))
  }

  /** An unsealed run gets its seal. */
  predicate Seals(d: Durable, v: View, q: Request)
    requires Comes(v, q)
  {
    var packet := v.packet.value;
    && d.seal.Absent? && d.phase != Missing && packet.candidateBranch.Some?
    && MaySeal(d.specSha, d.specBranch, Grounds(q, packet, v), v.heads[packet.branch])
  }

  /** A first start goes through: the run is sealed, and the state is one it can leave or has left. */
  predicate Starts(d: Durable, v: View, q: Request)
    requires Comes(v, q)
  {
    var packet := v.packet.value;
    && Seals(d, v, q) && d.phase != ReadyToStart && d.phase != SegmentBoundary
    && GraphAllows(packet.graph, d.graph, v.heads[packet.branch], packet.candidateBranch.value)
  }

  /** A sealed run is taken up again: nothing the seal names has moved, and the checkout is clean. */
  predicate TakesUp(d: Durable, v: View, q: Request)
    requires Comes(v, q)
  {
    var packet := v.packet.value;
    && d.seal.Sealed?
    && var seal := d.seal.seal;
    && seal.packetSha.packet == packet && seal.baselineBranch == packet.branch
    && seal.baselineSha == v.heads[packet.branch] && packet.candidateBranch == Some(seal.candidateBranch)
    && (seal.specSha != "" ==> seal.specSha == v.heads[packet.branch])
    && !v.dirty && d.phase != Missing && d.phase != ReadyToStart
    && (d.phase == AwaitingApproval ==>
          GraphAllows(packet.graph, d.graph, seal.baselineSha, seal.candidateBranch))
  }

  /** The graph after a start under this seal: what was there, or the packet's own. */
  function GraphAfter(packet: Packet, graph: Option<Graph>, seal: Seal): Option<Graph> {
    if packet.graph.Some? && graph.None?
    then Some(Graph(packet.graph.value, seal.baselineSha, seal.candidateBranch))
    else graph
  }

  /** A call that holds its seal finishes exactly when the graph fits and the phase is one to go on from. */
  lemma HoldingAnswers(d: Durable, v: View, packet: Packet, seal: Seal, now: nat, life: nat)
    requires d.phase != Missing && life >= 3
    ensures var (after, outcome) := Alone(d, v, Holding(packet, seal), now, life);
      && after.seal == d.seal && after.specSha == d.specSha && after.specBranch == d.specBranch
      && (outcome == if GraphAllows(packet.graph, d.graph, seal.baselineSha, seal.candidateBranch)
                        && d.phase != ReadyToStart && d.phase != SegmentBoundary
                     then Succeeded(seal) else Refused)
      && (outcome == Succeeded(seal) ==>
            && after.phase == (if d.phase == AwaitingApproval then ReadyToBuild else d.phase)
            && after.graph == GraphAfter(packet, d.graph, seal))
      && (outcome == Refused && d.phase != ReadyToStart && d.phase != SegmentBoundary ==> after == d)
  {
    var held := Step(d, v, Holding(packet, seal), now);
    if held.Goes? {
      assert held.call == Materialised(packet, seal);
      assert Alone(d, v, Holding(packet, seal), now, life) == Alone(held.d, v, held.call, now, life - 1);
      var activated := Step(held.d, v, held.call, now);
      if activated.Goes? {
        assert Alone(held.d, v, held.call, now, life - 1) == Alone(activated.d, v, activated.call, now, life - 2);
      }
    }
  }

  /** From a matching seal: a run that has not started is finished, any other is left as it is. */
  lemma MatchedAnswers(d: Durable, v: View, q: Request, now: nat, life: nat)
    requires Comes(v, q) && d.seal.Sealed? && life >= 5
    ensures var packet, seal := v.packet.value, d.seal.seal;
      var (after, outcome) := Alone(d, v, Found(packet, seal), now, life);
      && outcome == (if TakesUp(d, v, q) then Succeeded(seal) else Refused)
      && (outcome.Refused? && d.phase != ReadyToStart ==> after == d)
      && (outcome.Succeeded? ==>
            after == if d.phase == AwaitingApproval
                     then d.(phase := ReadyToBuild, graph := GraphAfter(packet, d.graph, seal)) else d)
  {
    var packet, seal := v.packet.value, d.seal.seal;
    if PacketFits(v, packet, seal) {
      assert Alone(d, v, Found(packet, seal), now, life) == Alone(d, v, Matched(packet, seal), now, life - 1);
      if SourceFits(v, packet, seal) && d.phase != Missing {
        if PreStart(d.phase) {
          assert Alone(d, v, Matched(packet, seal), now, life - 1)
              == Alone(d, v, Holding(packet, seal), now, life - 2);
          HoldingAnswers(d, v, packet, seal, now, life - 2);
        } else {
          assert Alone(d, v, Matched(packet, seal), now, life - 1)
              == Alone(d, v, Activated(packet, seal), now, life - 2);
        }
      }
    }
  }

  /** The seal a lone first start writes. */
  predicate IsTheSeal(v: View, q: Request, now: nat, seal: Seal)
    requires Comes(v, q)
  {
    && SealSays(Grounds(q, v.packet.value, v), seal) && seal.packetSha.packet == v.packet.value
    && seal.sealedAt == now
  }

  /** From an unsealed run. */
  lemma InspectingAnswers(d: Durable, v: View, q: Request, now: nat, life: nat)
    requires Comes(v, q) && d.seal.Absent? && life >= 6
    ensures var packet := v.packet.value;
      var (after, outcome) := Alone(d, v, Inspecting(q, packet), now, life);
      && (outcome.Succeeded? <==> Starts(d, v, q))
      && (!outcome.Succeeded? ==> outcome.Refused?)
      && (if Seals(d, v, q) then after.seal.Sealed? && IsTheSeal(v, q, now, after.seal.seal) else after == d)
      && (outcome.Succeeded? ==>
            after.seal == Sealed(outcome.seal)
            && after == d.(seal := after.seal, graph := GraphAfter(packet, d.graph, outcome.seal),
                           phase := if d.phase == AwaitingApproval then ReadyToBuild else d.phase))
  {
    var packet := v.packet.value;
    var head := v.heads[packet.branch];
    assert Head(v, packet.branch) == Some(head);
    if Sealable(d, v, q, packet, head) {
      assert Alone(d, v, Inspecting(q, packet), now, life) == Alone(d, v, Based(q, packet, head), now, life - 1);
      if packet.candidateBranch.Some? {
        var seal := Draft(d, q, packet, PacketSha(packet), head, packet.candidateBranch.value, now);
        assert Alone(d, v, Based(q, packet, head), now, life - 1)
            == Alone(d, v, Drafted(q, packet, seal), now, life - 2);
        var sealed := d.(seal := Sealed(seal));
        assert Alone(d, v, Drafted(q, packet, seal), now, life - 2)
            == Alone(sealed, v, Holding(packet, seal), now, life - 3);
        HoldingAnswers(sealed, v, packet, seal, now, life - 3);
      }
    }
  }

  /** A call with the run to itself succeeds exactly when its packet is one to start and either the
      run has no seal and may get one, or what its seal names still stands; otherwise it refuses. */
  lemma SucceedsExactlyWhen(d: Durable, v: View, q: Request, now: nat, life: nat)
    requires life >= 8
    ensures var (_, outcome) := Attempt(d, v, q, now, life);
      && (outcome.Succeeded? <==> Comes(v, q) && (Starts(d, v, q) || TakesUp(d, v, q)))
      && (!outcome.Succeeded? ==> outcome.Refused?)
  {
    if Comes(v, q) {
      EntryIsLone(d, v, q, now, life);
    }
  }

  /** Past the locks, a lone call goes by what it finds. */
  lemma EntryIsLone(d: Durable, v: View, q: Request, now: nat, life: nat)
    requires Comes(v, q) && life >= 8
    ensures var packet := v.packet.value; var answer := Attempt(d, v, q, now, life);
      match d.seal
      case Malformed => answer == (d, Refused)
      case Sealed(seal) =>
        && answer == Alone(d, v, Found(packet, seal), now, life - 2)
        && (answer.1 == if TakesUp(d, v, q) then Succeeded(seal) else Refused)
      case Absent =>
        && answer == Alone(d, v, Inspecting(q, packet), now, life - 2)
        && (answer.1.Succeeded? <==> Starts(d, v, q)) && (!answer.1.Succeeded? ==> answer.1.Refused?)
  {
    var packet := v.packet.value;
    assert Begin(v, q) == Some(Waiting(q, packet));
    assert Attempt(d, v, q, now, life) == Alone(d, v, Waiting(q, packet), now, life);
    assert Alone(d, v, Waiting(q, packet), now, life) == Alone(d, v, Entered(q, packet), now, life - 1);
    match d.seal
    case Malformed =>
    case Sealed(seal) =>
      assert Alone(d, v, Entered(q, packet), now, life - 1) == Alone(d, v, Found(packet, seal), now, life - 2);
      MatchedAnswers(d, v, q, now, life - 2);
    case Absent =>
      assert Alone(d, v, Entered(q, packet), now, life - 1) == Alone(d, v, Inspecting(q, packet), now, life - 2);
      InspectingAnswers(d, v, q, now, life - 2);
  }

  /** What a success leaves: the seal that was there, or one that says what the call saw; the state
      moved on from its first phase; the packet's graph where none was and the run had not started. */
  lemma SuccessLeaves(d: Durable, v: View, q: Request, now: nat, life: nat)
    requires life >= 8 && Attempt(d, v, q, now, life).1.Succeeded?
    ensures Comes(v, q)
    ensures var (after, outcome) := Attempt(d, v, q, now, life);
      && after.seal == Sealed(outcome.seal)
      && (if d.seal.Sealed? then after.seal == d.seal else IsTheSeal(v, q, now, outcome.seal))
      && after.phase == (if d.phase == AwaitingApproval then ReadyToBuild else d.phase)
      && after.graph == (if d.seal.Absent? || d.phase == AwaitingApproval
                         then GraphAfter(v.packet.value, d.graph, outcome.seal) else d.graph)
      && after.specSha == d.specSha && after.specBranch == d.specBranch
  {
    EntryIsLone(d, v, q, now, life);
    if d.seal.Sealed? {
      MatchedAnswers(d, v, q, now, life - 2);
    } else if d.seal.Absent? {
      InspectingAnswers(d, v, q, now, life - 2);
    }
  }

  /** What a refusal leaves: an unsealed run is sealed exactly when it may be, and a run that is not
      sealed by then, or was before and is not READY_TO_START, is as it was. */
  lemma RefusalLeaves(d: Durable, v: View, q: Request, now: nat, life: nat)
    requires life >= 8 && Attempt(d, v, q, now, life).1.Refused?
    ensures var after := Attempt(d, v, q, now, life).0;
      && (d.seal.Absent? && Comes(v, q) && Seals(d, v, q) ==>
            after.seal.Sealed? && IsTheSeal(v, q, now, after.seal.seal))
      && (!(d.seal.Absent? && Comes(v, q) && Seals(d, v, q)) && (d.seal.Absent? || d.phase != ReadyToStart) ==>
            after == d)
  {
    if Comes(v, q) {
      EntryIsLone(d, v, q, now, life);
      if d.seal.Sealed? {
        MatchedAnswers(d, v, q, now, life - 2);
      } else if d.seal.Absent? {
        InspectingAnswers(d, v, q, now, life - 2);
      }
    }
  }
}
