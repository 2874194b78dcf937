/**
 First starts over every interleaving of concurrent and dying calls.
 */
module ExecutionStartRuns {
  import opened Wrappers
  import opened Crashes
  import opened ExecutionStart

  // ----- the machine -----

  /** A pre-start run becoming executable: the packet its call had parsed, the seal it acted under,
      what the packet file and source were at that moment, and whether they had held still since
      the call began. */
  datatype Activation = Activation(packet: Packet, seal: Seal, at: View, undisturbed: bool)

  /** What a first seal was made on: the request, the packet its call had parsed, and the source as
      it was when the call inspected it. */
  datatype Grounds = Grounds(request: Request, packet: Packet, seen: View)

  /** What has happened so far.  `graphs` are the packets whose graph was written; `still` the calls
      since whose beginning neither packet nor source has changed; `inspected` what each call that is
      about to seal has seen of the source; `grounds` what each seal was made on. */
  datatype History = History(
    sealings: seq<Seal>, returned: seq<Seal>, activations: seq<Activation>, graphs: seq<Packet>, still: set<nat>,
    inspected: map<nat, View>, grounds: seq<Grounds>)

  /** `lock` is START_LOCK and BINDING_LOCK together, free or held by one call. */
  datatype World = World(d: Durable, v: View, lock: Option<nat>, calls: map<nat, Call>, history: History)

  datatype Event =
    | Begins(id: nat, request: Request)
    | Acquires(id: nat)
    | Steps(id: nat, now: nat)
    /** The process dies, or gives up waiting; its locks are released. */
    | Dies(id: nat)
    /** The packet file or the source repository changes. */
    | Changes(v: View)
    /** Another owner moves the run's state. */
    | Moves(to: Phase)

  /** The moves other owners make: stopping a run, and working on one that is executable. */
  predicate MayMove(from: Phase, to: Phase) {
    || (from == AwaitingApproval && to == Closed)
    || (from in {ReadyToBuild, Working} && to in {ReadyToBuild, Working, Closed, SegmentBoundary})
  }

  function Leave(w: World, id: nat): World {
    w.(calls := w.calls - {id}, lock := if w.lock == Some(id) then None else w.lock)
  }

  /** What a step of a call adds to the history. */
  function Recorded(w: World, id: nat, call: Call): History {
    match call
    case Inspecting(_, _) => w.history.(inspected := w.history.inspected[id := w.v])
    case Drafted(q, packet, seal) =>
      var seen := if id in w.history.inspected then w.history.inspected[id] else w.v;
      w.history.(sealings := w.history.sealings + [seal], grounds := w.history.grounds + [Grounds(q, packet, seen)])
    case Holding(packet, _) =>
      if packet.graph.Some? && w.d.graph.None? then w.history.(graphs := w.history.graphs + [packet]) else w.history
    case Materialised(packet, seal) =>
      if w.d.phase == AwaitingApproval then
        var a := Activation(packet, seal, w.v, id in w.history.still);
        w.history.(activations := w.history.activations + [a])
      else w.history
    case Activated(_, seal) => w.history.(returned := w.history.returned + [seal])
    case _ => w.history
  }

  function TakeStep(w: World, id: nat, now: nat): World
    requires id in w.calls
  {
    match Step(w.d, w.v, w.calls[id], now)
    case Goes(d, next) => w.(d := d, calls := w.calls[id := next], history := Recorded(w, id, w.calls[id]))
    case Refuses => Leave(w, id)
    case Returns(_) => Leave(w, id).(history := Recorded(w, id, w.calls[id]))
  }

  function Exec(w: World, e: Event): World {
    match e
    case Begins(id, request) =>
      if id in w.calls || Begin(w.v, request).None? then w
      else
        w.(calls := w.calls[id := Begin(w.v, request).value],
           history := w.history.(still := w.history.still + {id}))
    case Acquires(id) =>
      if w.lock.Some? || id !in w.calls || !w.calls[id].Waiting? then w
      else w.(lock := Some(id), calls := w.calls[id := Entered(w.calls[id].request, w.calls[id].packet)])
    case Steps(id, now) => if w.lock == Some(id) && id in w.calls then TakeStep(w, id, now) else w
    case Dies(id) => Leave(w, id)
    case Changes(v) => w.(v := v, history := w.history.(still := {}))
    case Moves(to) => if MayMove(w.d.phase, to) then w.(d := w.d.(phase := to)) else w
  }

  function ExecAll(w: World, es: seq<Event>): World {
    RunAll(Exec, w, es)
  }

  /** Nobody is starting the run and nothing has happened yet. */
  predicate Initial(w: World) {
    && w.lock.None? && w.calls == map[]
    && w.history == History([], [], [], [], {}, map[], [])
    && w.d.phase in {Missing, AwaitingApproval, ReadyToStart}
  }

  // ----- the invariant -----

  /** The state holds the graph the parsed packet and the seal call for. */
  predicate Covers(packet: Packet, seal: Seal, graph: Option<Graph>) {
    packet.graph.Some? ==> graph.Some? && GraphFits(packet.graph.value, seal, graph.value)
  }

  /** What the call inside the locks relies on. */
  predicate HolderFits(d: Durable, call: Call) {
    match call
    case Waiting(_, _) => false
    case Entered(_, _) => true
    case Inspecting(_, _) => d.seal.Absent?
    case Based(_, _, _) => d.seal.Absent?
    case Drafted(_, _, _) => d.seal.Absent?
    case Materialised(packet, seal) => d.seal == Sealed(seal) && Covers(packet, seal, d.graph)
    case _ => d.seal == Sealed(call.seal)
  }

  ghost predicate LockHeld(w: World) {
    && (forall id :: id in w.calls ==> w.calls[id].Waiting? || w.lock == Some(id))
    && (w.lock.Some? ==> w.lock.value in w.calls && HolderFits(w.d, w.calls[w.lock.value]))
  }

  /** The seal file against the history; `first` is what the seal file held at the beginning. */
  ghost predicate SealedOnce(w: World, first: SealFile) {
    && |w.history.sealings| <= 1
    && (w.history.sealings == [] ==> w.d.seal == first)
    && (w.history.sealings != [] ==> first.Absent? && w.d.seal == Sealed(w.history.sealings[0]))
    && (forall s :: s in w.history.returned ==> w.d.seal == Sealed(s))
  }

  ghost predicate StartedOnce(w: World) {
    && |w.history.activations| <= 1
    && (w.d.phase in {ReadyToBuild, Working, SegmentBoundary} ==> w.history.activations != [])
    && (w.d.phase in {Missing, AwaitingApproval, ReadyToStart} ==> w.history.activations == [])
    && (forall a :: a in w.history.activations ==> w.d.seal == Sealed(a.seal) && Covers(a.packet, a.seal, w.d.graph))
  }

  /** The graph against the history: written at most once, by the first call that had parsed a
      program and came that far, for its packet and the seal; `start` is what was there before. */
  ghost predicate GraphOnce(w: World, start: Option<Graph>) {
    && |w.history.graphs| <= 1
    && (w.history.graphs == [] ==> w.d.graph == start)
    && (w.history.graphs != [] ==>
          && start.None? && w.d.seal.Sealed? && w.history.graphs[0].graph.Some?
          && w.d.graph == Some(Graph(
               w.history.graphs[0].graph.value, w.d.seal.seal.baselineSha, w.d.seal.seal.candidateBranch)))
  }

  /** `d0` is what was durable at the beginning. */
  ghost predicate Inv(w: World, d0: Durable) {
    LockHeld(w) && SealedOnce(w, d0.seal) && StartedOnce(w) && GraphOnce(w, d0.graph)
  }

  /** One step of the call inside the locks, as far as the invariant goes. */
  lemma StepKeepsHolder(d: Durable, v: View, call: Call, now: nat)
    requires HolderFits(d, call) && Step(d, v, call, now).Goes?
    ensures var next := Step(d, v, call, now);
      && HolderFits(next.d, next.call) && !next.call.Waiting?
      && (if call.Drafted? then d.seal.Absent? && next.d.seal == Sealed(call.seal) else next.d.seal == d.seal)
      && (if call.Materialised? && d.phase == AwaitingApproval then next.d.phase == ReadyToBuild
          else next.d.phase == d.phase)
      && (next.d.graph == d.graph
          || (call.Holding? && d.graph.None? && call.packet.graph.Some?
              && next.d.graph
                 == Some(Graph(call.packet.graph.value, call.seal.baselineSha, call.seal.candidateBranch))))
      && (call.Holding? && d.graph.None? && call.packet.graph.Some? ==> next.d.graph.Some?)
      && next.d.specSha == d.specSha && next.d.specBranch == d.specBranch
  {
    match call
    case Holding(packet, seal) =>
      assert Step(d, v, call, now) == Materialise(d, packet, seal);
    case _ =>
  }

  lemma GoingKeepsLock(w: World, id: nat, now: nat)
    requires LockHeld(w) && w.lock == Some(id) && Step(w.d, w.v, w.calls[id], now).Goes?
    ensures LockHeld(TakeStep(w, id, now))
  {
    StepKeepsHolder(w.d, w.v, w.calls[id], now);
  }

  lemma GoingKeepsSeal(w: World, first: SealFile, id: nat, now: nat)
    requires LockHeld(w) && SealedOnce(w, first) && w.lock == Some(id) && Step(w.d, w.v, w.calls[id], now).Goes?
    ensures SealedOnce(TakeStep(w, id, now), first)
  {
    StepKeepsHolder(w.d, w.v, w.calls[id], now);
  }

  lemma GoingKeepsStart(w: World, id: nat, now: nat)
    requires LockHeld(w) && StartedOnce(w) && w.lock == Some(id) && Step(w.d, w.v, w.calls[id], now).Goes?
    ensures StartedOnce(TakeStep(w, id, now))
  {
    StepKeepsHolder(w.d, w.v, w.calls[id], now);
  }

  lemma GoingKeepsGraph(w: World, first: SealFile, start: Option<Graph>, id: nat, now: nat)
    requires LockHeld(w) && SealedOnce(w, first) && GraphOnce(w, start)
    requires w.lock == Some(id) && Step(w.d, w.v, w.calls[id], now).Goes?
    ensures GraphOnce(TakeStep(w, id, now), start)
  {
    StepKeepsHolder(w.d, w.v, w.calls[id], now);
  }

  lemma GoingKeepsInvariant(w: World, d0: Durable, id: nat, now: nat)
    requires Inv(w, d0) && w.lock == Some(id) && Step(w.d, w.v, w.calls[id], now).Goes?
    ensures Inv(TakeStep(w, id, now), d0)
  {
    GoingKeepsLock(w, id, now);
    GoingKeepsSeal(w, d0.seal, id, now);
    GoingKeepsStart(w, id, now);
    GoingKeepsGraph(w, d0.seal, d0.graph, id, now);
  }

  lemma LeavingKeepsInvariant(w: World, d0: Durable, id: nat)
    requires Inv(w, d0)
    ensures Inv(Leave(w, id), d0)
  {
  }

  lemma EventKeepsInvariant(w: World, d0: Durable, e: Event)
    requires Inv(w, d0)
    ensures Inv(Exec(w, e), d0)
  {
    match e
    case Steps(id, now) =>
      if w.lock == Some(id) {
        LeavingKeepsInvariant(w, d0, id);
        if Step(w.d, w.v, w.calls[id], now).Goes? {
          GoingKeepsInvariant(w, d0, id, now);
        }
      }
    case Dies(id) => LeavingKeepsInvariant(w, d0, id);
    case _ =>
  }

  lemma {:induction false} RunsKeepInvariant(w: World, d0: Durable, es: seq<Event>)
    requires Inv(w, d0)
    ensures Inv(ExecAll(w, es), d0)
  {
    if es != [] {
      RunsKeepInvariant(w, d0, es[..|es| - 1]);
      EventKeepsInvariant(ExecAll(w, es[..|es| - 1]), d0, es[|es| - 1]);
    }
  }

  /** First start seals once: over any interleaving of concurrent, dying and refused calls, with the
      packet and the source changing underneath, the seal is written at most once, never over an
      existing file, and every success returns it. */
  lemma SealsOnce(w: World, es: seq<Event>)
    requires Initial(w)
    ensures var after := ExecAll(w, es);
      && |after.history.sealings| <= 1
      && (w.d.seal.Absent? || after.d.seal == w.d.seal)
      && (after.history.sealings != [] ==> after.d.seal == Sealed(after.history.sealings[0]))
      && (forall s :: s in after.history.returned ==> after.d.seal == Sealed(s))
  {
    RunsKeepInvariant(w, w.d, es);
  }

  /** The run is executable only after one activation, which came after the seal and, for a call
      that parsed a program, after its graph; both stay. */
  lemma LeavesPreStartSealed(w: World, es: seq<Event>)
    requires Initial(w)
    ensures var after := ExecAll(w, es);
      && (after.d.phase in {ReadyToBuild, Working, SegmentBoundary} ==> |after.history.activations| == 1)
      && (forall a :: a in after.history.activations ==>
            after.d.seal == Sealed(a.seal) && Covers(a.packet, a.seal, after.d.graph))
  {
    RunsKeepInvariant(w, w.d, es);
  }

  // ----- what a first seal was made on -----

  /** Calls that reach the locks came with a supported method and a valid packet for this repository. */
  predicate Admitted(q: Request, packet: Packet) {
    && q.bindingMethod in {"build_start", "tty_confirmation", "mission_segment"}
    && packet.valid && packet.targetsRepo && packet.branch != ""
  }

  /** Against this sight of the source a run with this spec snapshot may be sealed at that head. */
  predicate MaySeal(specSha: string, specBranch: string, g: Grounds, head: string) {
    && Admitted(g.request, g.packet)
    && head != "" && g.packet.branch in g.seen.heads && g.seen.heads[g.packet.branch] == head
    && (g.seen.checkedOut == g.packet.branch ==> !g.seen.dirty)
    && (specSha != "" ==> specSha == head)
    && (specBranch != "" ==> specBranch == g.packet.branch)
    && (specSha == "" && specBranch == "" ==> g.request.legacyAllowed)
  }

  /** The seal says what the request, the packet and the source said. */
  predicate SealSays(g: Grounds, s: Seal) {
    && g.packet.branch in g.seen.heads
    && s.baselineSha == g.seen.heads[g.packet.branch] && s.specSha == s.baselineSha
    && s.baselineBranch == g.packet.branch && s.specBranch == g.packet.branch
    && g.packet.candidateBranch == Some(s.candidateBranch)
    && s.bindingMethod == g.request.bindingMethod
    && s.actor == (if g.request.actor == "" then "operator" else g.request.actor)
  }

  /** What a call on its way to a first seal rests on; `seen` is the source as it inspected it. */
  predicate RestsOn(specSha: string, specBranch: string, seen: map<nat, View>, id: nat, call: Call) {
    match call
    case Waiting(q, packet) => Admitted(q, packet)
    case Entered(q, packet) => Admitted(q, packet)
    case Inspecting(q, packet) => Admitted(q, packet)
    case Based(q, packet, head) => id in seen && MaySeal(specSha, specBranch, Grounds(q, packet, seen[id]), head)
    case Drafted(q, packet, seal) =>
      && id in seen && SealSays(Grounds(q, packet, seen[id]), seal)
      && MaySeal(specSha, specBranch, Grounds(q, packet, seen[id]), seal.baselineSha)
    case _ => true
  }

  ghost predicate Grounded(w: World, specSha: string, specBranch: string) {
    && w.d.specSha == specSha && w.d.specBranch == specBranch
    && |w.history.grounds| == |w.history.sealings|
    && (forall i :: 0 <= i < |w.history.sealings| ==>
          && SealSays(w.history.grounds[i], w.history.sealings[i])
          && MaySeal(specSha, specBranch, w.history.grounds[i], w.history.sealings[i].baselineSha))
    && (forall id :: id in w.calls ==> RestsOn(specSha, specBranch, w.history.inspected, id, w.calls[id]))
  }

  lemma StepRests(d: Durable, v: View, call: Call, now: nat, seen: map<nat, View>, id: nat)
    requires RestsOn(d.specSha, d.specBranch, seen, id, call) && Step(d, v, call, now).Goes?
    ensures RestsOn(d.specSha, d.specBranch, if call.Inspecting? then seen[id := v] else seen, id,
                    Step(d, v, call, now).call)
  {
  }

  lemma GoingKeepsGrounds(w: World, specSha: string, specBranch: string, id: nat, now: nat)
    requires Grounded(w, specSha, specBranch) && id in w.calls && Step(w.d, w.v, w.calls[id], now).Goes?
    ensures Grounded(TakeStep(w, id, now), specSha, specBranch)
  {
    StepKeepsSpec(w.d, w.v, w.calls[id], now);
    StepRests(w.d, w.v, w.calls[id], now, w.history.inspected, id);
    var after := TakeStep(w, id, now);
    forall other | other in after.calls
      ensures RestsOn(specSha, specBranch, after.history.inspected, other, after.calls[other])
    {
    }
  }

  lemma ReturningKeepsGrounds(w: World, specSha: string, specBranch: string, id: nat, now: nat)
    requires Grounded(w, specSha, specBranch) && id in w.calls && !Step(w.d, w.v, w.calls[id], now).Goes?
    ensures Grounded(TakeStep(w, id, now), specSha, specBranch)
  {
  }

  lemma EventKeepsGrounds(w: World, specSha: string, specBranch: string, e: Event)
    requires Grounded(w, specSha, specBranch)
    ensures Grounded(Exec(w, e), specSha, specBranch)
  {
    match e
    case Steps(id, now) =>
      if w.lock == Some(id) && id in w.calls {
        if Step(w.d, w.v, w.calls[id], now).Goes? {
          GoingKeepsGrounds(w, specSha, specBranch, id, now);
        } else {
          ReturningKeepsGrounds(w, specSha, specBranch, id, now);
        }
      }
    case _ =>
  }

  lemma {:induction false} RunsKeepGrounds(w: World, specSha: string, specBranch: string, es: seq<Event>)
    requires Grounded(w, specSha, specBranch)
    ensures Grounded(ExecAll(w, es), specSha, specBranch)
  {
    if es != [] {
      RunsKeepGrounds(w, specSha, specBranch, es[..|es| - 1]);
      EventKeepsGrounds(ExecAll(w, es[..|es| - 1]), specSha, specBranch, es[|es| - 1]);
    }
  }

  /** Whatever interleaves with the call that seals, what it seals it had inspected: the branch at
      its head, without tracked changes if checked out, where the spec was taken, or taken nowhere
      with permission; and the seal names that head, the call's branches, method and actor. */
  lemma SealsWhatItInspected(w: World, es: seq<Event>)
    requires Initial(w)
    ensures var h := ExecAll(w, es).history;
      && |h.grounds| == |h.sealings|
      && forall i :: 0 <= i < |h.sealings| ==>
           && SealSays(h.grounds[i], h.sealings[i])
           && MaySeal(w.d.specSha, w.d.specBranch, h.grounds[i], h.sealings[i].baselineSha)
  {
    RunsKeepGrounds(w, w.d.specSha, w.d.specBranch, es);
  }

  // ----- when the packet and the source hold still while a call is in flight -----

  /** The seal names this packet, its branch, and that branch's head now. */
  predicate SealMatches(v: View, packet: Packet, seal: Seal) {
    && v.packet == Some(packet) && seal.packetSha == PacketSha(packet)
    && Head(v, packet.branch) == Some(seal.baselineSha)
    && seal.baselineBranch == packet.branch
    && packet.candidateBranch == Some(seal.candidateBranch)
  }

  /** What a call has seen still stands. */
  predicate Sees(d: Durable, v: View, call: Call) {
    && v.packet == Some(call.packet)
    && match call
       case Based(_, packet, head) => Head(v, packet.branch) == Some(head) && d.specBranch in {"", packet.branch}
       case Matched(packet, seal) => PacketFits(v, packet, seal)
       case Drafted(_, packet, seal) => SealMatches(v, packet, seal)
       case Holding(packet, seal) => SealMatches(v, packet, seal)
       case Materialised(packet, seal) => SealMatches(v, packet, seal)
       case _ => true
  }

  ghost predicate AllSee(w: World) {
    && (forall id :: id in w.calls && id in w.history.still ==> Sees(w.d, w.v, w.calls[id]))
    && (forall a :: a in w.history.activations && a.undisturbed ==> SealMatches(a.at, a.packet, a.seal))
  }

  lemma StepSees(d: Durable, v: View, call: Call, now: nat)
    requires Sees(d, v, call) && Step(d, v, call, now).Goes?
    ensures var next := Step(d, v, call, now); Sees(next.d, v, next.call)
  {
  }

  lemma SeeingIgnoresProgress(d: Durable, e: Durable, v: View, call: Call)
    requires d.specBranch == e.specBranch
    ensures Sees(d, v, call) == Sees(e, v, call)
  {
  }

  lemma StepKeepsSpec(d: Durable, v: View, call: Call, now: nat)
    requires Step(d, v, call, now).Goes?
    ensures var e := Step(d, v, call, now).d; e.specBranch == d.specBranch && e.specSha == d.specSha
  {
  }

  lemma GoingSees(w: World, id: nat, now: nat)
    requires AllSee(w) && id in w.calls && Step(w.d, w.v, w.calls[id], now).Goes?
    ensures AllSee(TakeStep(w, id, now))
  {
    var next := Step(w.d, w.v, w.calls[id], now);
    StepKeepsSpec(w.d, w.v, w.calls[id], now);
    if id in w.history.still {
      StepSees(w.d, w.v, w.calls[id], now);
    }
    var after := TakeStep(w, id, now);
    forall other | other in after.calls && other in after.history.still
      ensures Sees(after.d, after.v, after.calls[other])
    {
      if other != id {
        SeeingIgnoresProgress(w.d, next.d, w.v, w.calls[other]);
      }
    }
  }

  lemma EventSees(w: World, e: Event)
    requires AllSee(w)
    ensures AllSee(Exec(w, e))
  {
    match e
    case Steps(id, now) =>
      if w.lock == Some(id) && id in w.calls && Step(w.d, w.v, w.calls[id], now).Goes? {
        GoingSees(w, id, now);
      }
    case Moves(to) =>
      forall id | id in w.calls && id in w.history.still ensures Sees(Exec(w, e).d, w.v, w.calls[id]) {
        SeeingIgnoresProgress(w.d, Exec(w, e).d, w.v, w.calls[id]);
      }
    case _ =>
  }

  lemma {:induction false} RunsSee(w: World, es: seq<Event>)
    requires AllSee(w)
    ensures AllSee(ExecAll(w, es))
  {
    if es != [] {
      RunsSee(w, es[..|es| - 1]);
      EventSees(ExecAll(w, es[..|es| - 1]), es[|es| - 1]);
    }
  }

  /** A call that packet and source held still for, from its own beginning on, activates the run
      while both are the sealed ones, and under a program's seal with its graph, whatever changed
      before or around other calls. */
  lemma ActivatesWhatIsSealed(w: World, es: seq<Event>)
    requires Initial(w)
    ensures var after := ExecAll(w, es);
      forall a :: a in after.history.activations && a.undisturbed ==>
        SealMatches(a.at, a.packet, a.seal) && Covers(a.seal.packetSha.packet, a.seal, after.d.graph)
  {
    RunsSee(w, es);
    RunsKeepInvariant(w, w.d, es);
  }

  /** Without that, what a call parsed need not be what it seals.  When one call writes the graph,
      or finds none to write, the sealed packet has its graph exactly when it declares none or the
      one the call had parsed: a plain parsed packet under a program's seal has none. */
  lemma MaterialisesWhatWasParsed(d: Durable, packet: Packet, seal: Seal)
    requires d.graph.None? && Materialise(d, packet, seal).Goes?
    ensures Covers(seal.packetSha.packet, seal, Materialise(d, packet, seal).d.graph)
       <==> seal.packetSha.packet.graph in {None, packet.graph}
  {
  }

  /** The graph a run ends up with, if it had none before: that of the first packet whose graph was
      written. */
  predicate DeclaresTheGraph(sealed: Packet, seal: Seal, start: Option<Graph>, graphs: seq<Packet>) {
    || sealed.graph.None?
    || (if start.Some? then GraphFits(sealed.graph.value, seal, start.value)
        else graphs != [] && sealed.graph == graphs[0].graph)
  }

  /** For every activation, whatever was parsed: the sealed packet's graph is durable exactly when
      the sealed packet declares none, or the graph that was there before the run, or else the one
      of the first packet whose graph a call wrote.  That is the activating call's own packet,
      unless it parsed a plain one. */
  lemma GraphIsTheSealedOnes(w: World, es: seq<Event>)
    requires Initial(w)
    ensures var after := ExecAll(w, es);
      forall a :: a in after.history.activations ==>
        && (Covers(a.seal.packetSha.packet, a.seal, after.d.graph)
            <==> DeclaresTheGraph(a.seal.packetSha.packet, a.seal, w.d.graph, after.history.graphs))
        && (w.d.graph.None? && a.packet.graph.Some? ==>
              after.history.graphs != [] && after.history.graphs[0].graph == a.packet.graph)
  {
    RunsKeepInvariant(w, w.d, es);
  }

  /** Whenever a call begins, the packet file declares this graph, or none when it is None. */
  ghost predicate BeginWith(w: World, es: seq<Event>, graph: Option<string>) {
    es == []
    || (&& BeginWith(w, es[..|es| - 1], graph)
        && (es[|es| - 1].Begins? ==>
              var v := ExecAll(w, es[..|es| - 1]).v; v.packet.Some? ==> v.packet.value.graph == graph))
  }

  ghost predicate ParsedAlike(w: World, graph: Option<string>) {
    && (forall id :: id in w.calls ==> w.calls[id].packet.graph == graph)
    && (forall p :: p in w.history.graphs ==> p.graph == graph)
    && (forall a :: a in w.history.activations ==> a.packet.graph == graph)
  }

  lemma StepKeepsPacket(d: Durable, v: View, call: Call, now: nat)
    requires Step(d, v, call, now).Goes?
    ensures Step(d, v, call, now).call.packet == call.packet
  {
  }

  lemma EventParsesAlike(w: World, e: Event, graph: Option<string>)
    requires ParsedAlike(w, graph)
    requires e.Begins? && w.v.packet.Some? ==> w.v.packet.value.graph == graph
    ensures ParsedAlike(Exec(w, e), graph)
  {
    if e.Steps? && w.lock == Some(e.id) && e.id in w.calls && Step(w.d, w.v, w.calls[e.id], e.now).Goes? {
      StepKeepsPacket(w.d, w.v, w.calls[e.id], e.now);
    }
  }

  lemma {:induction false} RunsParseAlike(w: World, es: seq<Event>, graph: Option<string>)
    requires ParsedAlike(w, graph) && BeginWith(w, es, graph)
    ensures ParsedAlike(ExecAll(w, es), graph)
  {
    if es != [] {
      RunsParseAlike(w, es[..|es| - 1], graph);
      EventParsesAlike(ExecAll(w, es[..|es| - 1]), es[|es| - 1], graph);
    }
  }

  /** When all calls parse the same graph, plain packets included, a run that starts has its sealed
      packet's graph exactly when the sealed packet declares none or that one. */
  lemma StartsWithItsGraphExactlyWhen(w: World, es: seq<Event>, graph: Option<string>)
    requires Initial(w) && w.d.graph.None? && BeginWith(w, es, graph)
    ensures var after := ExecAll(w, es);
      forall a :: a in after.history.activations ==>
        (Covers(a.seal.packetSha.packet, a.seal, after.d.graph) <==> a.seal.packetSha.packet.graph in {None, graph})
  {
    RunsParseAlike(w, es, graph);
    GraphIsTheSealedOnes(w, es);
    var graphs := ExecAll(w, es).history.graphs;
    RunsKeepInvariant(w, w.d, es);
    assert graphs != [] ==> graphs[0] in graphs;
  }

  lemma ExecAppends(w: World, es: seq<Event>, e: Event)
    ensures ExecAll(w, es + [e]) == Exec(ExecAll(w, es), e)
  {
    RunAllAppends(Exec, w, es, e);
  }

  /** A number of steps of one call. */
  function Walk(w: World, id: nat, now: nat, count: nat): World {
    if count == 0 then w else Exec(Walk(w, id, now, count - 1), Steps(id, now))
  }

  lemma {:induction false} WalkIsRun(w: World, es: seq<Event>, id: nat, now: nat, count: nat)
    ensures exists more :: ExecAll(w, more) == Walk(ExecAll(w, es), id, now, count)
  {
    if count == 0 {
      assert ExecAll(w, es) == Walk(ExecAll(w, es), id, now, count);
    } else {
      WalkIsRun(w, es, id, now, count - 1);
      var more :| ExecAll(w, more) == Walk(ExecAll(w, es), id, now, count - 1);
      ExecAppends(w, more, Steps(id, now));
    }
  }

  /** It does happen: a call parses a plain packet, the file becomes a program while the call waits
      for the locks, and the run starts under a seal for the program without its graph. */
  lemma PacketSwapLosesTheGraph()
    ensures exists w, es ::
      && Initial(w) && ExecAll(w, es).d.phase == ReadyToBuild
      && (exists a :: a in ExecAll(w, es).history.activations
            && !Covers(a.seal.packetSha.packet, a.seal, ExecAll(w, es).d.graph))
  {
    var plain := Packet("p", true, true, "b", Some("c"), None);
    var program := plain.(text := "q", graph := Some("g"));
    var v := View(Some(plain), map["b" := "h"], "b", false);
    var d := Durable(Absent, AwaitingApproval, "h", "b", None);
    var w := World(d, v, None, map[], History([], [], [], [], {}, map[], []));
    var q := Request("build_start", "", false);
    var v' := v.(packet := Some(program));
    var w1 := w.(calls := map[0 := Waiting(q, plain)], history := w.history.(still := {0}));
    var w2 := w1.(v := v', history := w.history);
    var w3 := w2.(lock := Some(0), calls := map[0 := Entered(q, plain)]);
    var es := [] + [Begins(0, q)] + [Changes(v')] + [Acquires(0)];
    ExecAppends(w, [], Begins(0, q));
    ExecAppends(w, [] + [Begins(0, q)], Changes(v'));
    ExecAppends(w, [] + [Begins(0, q)] + [Changes(v')], Acquires(0));
    assert Begin(v, q) == Some(Waiting(q, plain));
    assert Exec(w, Begins(0, q)) == w1;
    assert ExecAll(w, es) == w3;
    SwapWalks(w3, q, plain, program);
    WalkIsRun(w, es, 0, 0, 6);
    var more :| ExecAll(w, more) == Walk(w3, 0, 0, 6);
  }

  /** The six steps of that call. */
  lemma SwapWalks(w: World, q: Request, plain: Packet, program: Packet)
    requires w.lock == Some(0) && w.calls == map[0 := Entered(q, plain)]
    requires w.history == History([], [], [], [], {}, map[], [])
    requires w.d == Durable(Absent, AwaitingApproval, "h", "b", None)
    requires plain.branch == "b" && plain.candidateBranch == Some("c") && plain.graph.None? && program.graph.Some?
    requires w.v == View(Some(program), map["b" := "h"], "b", false)
    ensures var after := Walk(w, 0, 0, 6);
      && after.d.phase == ReadyToBuild
      && (exists a :: a in after.history.activations && !Covers(a.seal.packetSha.packet, a.seal, after.d.graph))
  {
    var actor := if q.actor == "" then "operator" else q.actor;
    var seal := Seal(PacketSha(program), "b", "h", "c", "h", "b", q.bindingMethod, actor, 0);
    var seen := w.(history := w.history.(inspected := map[0 := w.v]));
    var drafted := seen.(calls := map[0 := Drafted(q, plain, seal)]);
    SwapDrafts(w, q, plain, program, seal, drafted);
    var made := History([seal], [], [], [], {}, map[0 := w.v], [Grounds(q, plain, w.v)]);
    var sealed := w.(d := w.d.(seal := Sealed(seal)), history := made);
    var w4 := sealed.(calls := map[0 := Holding(plain, seal)]);
    var w5 := sealed.(calls := map[0 := Materialised(plain, seal)]);
    assert Walk(w, 0, 0, 4) == w4;
    assert Walk(w, 0, 0, 5) == w5;
    SwapActivates(w5, seal, plain, program);
  }

  /** The first three of them draft. */
  lemma SwapDrafts(w: World, q: Request, plain: Packet, program: Packet, seal: Seal, drafted: World)
    requires w.lock == Some(0) && w.calls == map[0 := Entered(q, plain)]
    requires w.history == History([], [], [], [], {}, map[], [])
    requires w.d == Durable(Absent, AwaitingApproval, "h", "b", None)
    requires plain.branch == "b" && plain.candidateBranch == Some("c")
    requires w.v == View(Some(program), map["b" := "h"], "b", false)
    requires seal == Draft(w.d, q, plain, PacketSha(program), "h", "c", 0)
    requires drafted
          == w.(history := w.history.(inspected := map[0 := w.v]), calls := map[0 := Drafted(q, plain, seal)])
    ensures Walk(w, 0, 0, 3) == drafted
  {
    var w1 := w.(calls := map[0 := Inspecting(q, plain)]);
    var w2 := w.(history := w.history.(inspected := map[0 := w.v]), calls := map[0 := Based(q, plain, "h")]);
    assert Walk(w, 0, 0, 0) == w;
    assert Walk(w, 0, 0, 1) == w1;
    assert Walk(w, 0, 0, 2) == w2;
  }

  /** The last of them activates. */
  lemma SwapActivates(w: World, seal: Seal, plain: Packet, program: Packet)
    requires w.lock == Some(0) && w.calls == map[0 := Materialised(plain, seal)]
    requires w.d.phase == AwaitingApproval && w.d.graph.None? && w.history.activations == []
    requires seal.packetSha == PacketSha(program) && program.graph.Some?
    ensures var after := Exec(w, Steps(0, 0));
      && after.d.phase == ReadyToBuild
      && (exists a :: a in after.history.activations && !Covers(a.seal.packetSha.packet, a.seal, after.d.graph))
  {
    var a := Activation(plain, seal, w.v, 0 in w.history.still);
    var after := Exec(w, Steps(0, 0));
    assert after.history.activations == [a];
    assert a in after.history.activations;
  }

  // ----- convergence after any deaths -----

  /** A first start of this packet is admissible. */
  predicate Startable(d: Durable, v: View, q: Request, packet: Packet) {
    && Begin(v, q) == Some(Waiting(q, packet))
    && packet.candidateBranch.Some? && packet.candidateBranch.value != ""
    && Sealable(d, v, q, packet, Head(v, packet.branch).value)
  }

  /** What calls that died anywhere may have left. */
  ghost predicate PartlyStarted(d: Durable, v: View, packet: Packet) {
    && d.phase in {AwaitingApproval, ReadyToBuild}
    && match d.seal
       case Malformed => false
       case Absent => d.phase == AwaitingApproval && d.graph.None?
       case Sealed(seal) =>
         && SealMatches(v, packet, seal) && seal.specSha == seal.baselineSha
         && (d.graph.Some? ==>
               packet.graph.Some?
               && d.graph.value == Graph(packet.graph.value, seal.baselineSha, seal.candidateBranch))
         && (d.phase == ReadyToBuild && packet.graph.Some? ==> d.graph.Some?)
  }

  /** What the call in the locks has drafted would fit. */
  predicate DraftFits(d: Durable, call: Call) {
    match call
    case Based(_, _, head) => d.specSha in {"", head}
    case Drafted(_, _, seal) => seal.specSha == seal.baselineSha
    case _ => true
  }

  ghost predicate Calm(w: World, d0: Durable, v: View, packet: Packet) {
    && Inv(w, d0) && AllSee(w) && w.calls.Keys <= w.history.still && PartlyStarted(w.d, v, packet)
    && w.v == v && v.packet == Some(packet)
    && w.d.specSha == d0.specSha && w.d.specBranch == d0.specBranch
    && (w.lock.Some? ==> DraftFits(w.d, w.calls[w.lock.value]))
  }

  lemma StepStaysCalm(d: Durable, v: View, call: Call, now: nat, packet: Packet)
    requires PartlyStarted(d, v, packet) && v.packet == Some(packet)
    requires Sees(d, v, call) && HolderFits(d, call) && DraftFits(d, call)
    requires Step(d, v, call, now).Goes?
    ensures var next := Step(d, v, call, now); PartlyStarted(next.d, v, packet) && DraftFits(next.d, next.call)
  {
  }

  lemma EventStaysCalm(w: World, d0: Durable, v: View, packet: Packet, e: Event)
    requires Calm(w, d0, v, packet) && !e.Changes? && !e.Moves?
    ensures Calm(Exec(w, e), d0, v, packet)
  {
    EventKeepsInvariant(w, d0, e);
    EventSees(w, e);
    if e.Steps? && w.lock == Some(e.id) && Step(w.d, w.v, w.calls[e.id], e.now).Goes? {
      StepStaysCalm(w.d, v, w.calls[e.id], e.now, packet);
      StepKeepsSpec(w.d, v, w.calls[e.id], e.now);
    }
  }

  lemma {:induction false} RunsStayCalm(w: World, d0: Durable, v: View, packet: Packet, es: seq<Event>)
    requires Calm(w, d0, v, packet) && forall e :: e in es ==> !e.Changes? && !e.Moves?
    ensures Calm(ExecAll(w, es), d0, v, packet)
  {
    if es != [] {
      RunsStayCalm(w, d0, v, packet, es[..|es| - 1]);
      EventStaysCalm(ExecAll(w, es[..|es| - 1]), d0, v, packet, es[|es| - 1]);
    }
  }

  /** A started run, under this seal. */
  ghost predicate Started(d: Durable, v: View, packet: Packet, seal: Seal) {
    PartlyStarted(d, v, packet) && d.seal == Sealed(seal) && d.phase == ReadyToBuild
  }

  lemma HoldingFinishes(d: Durable, v: View, packet: Packet, seal: Seal, now: nat, life: nat)
    requires PartlyStarted(d, v, packet) && d.seal == Sealed(seal) && seal.candidateBranch != "" && life >= 3
    ensures var (after, outcome) := Alone(d, v, Holding(packet, seal), now, life);
      outcome == Succeeded(seal) && Started(after, v, packet, seal)
  {
    var held := Step(d, v, Holding(packet, seal), now);
    assert held.Goes? && held.call == Materialised(packet, seal);
    var activated := Step(held.d, v, held.call, now);
    assert Alone(d, v, Holding(packet, seal), now, life) == Alone(held.d, v, held.call, now, life - 1);
    assert Alone(held.d, v, held.call, now, life - 1) == Alone(activated.d, v, activated.call, now, life - 2);
  }

  /** A sealed run is finished by the next call exactly when the checkout has no tracked changes. */
  lemma SealedRunResumes(d: Durable, v: View, q: Request, packet: Packet, seal: Seal, now: nat, life: nat)
    requires PartlyStarted(d, v, packet) && d.seal == Sealed(seal) && seal.candidateBranch != ""
    requires Begin(v, q) == Some(Waiting(q, packet)) && life >= 8
    ensures var (after, outcome) := Attempt(d, v, q, now, life);
      if v.dirty then after == d && outcome == Refused
      else outcome == Succeeded(seal) && Started(after, v, packet, seal) && (d.phase == ReadyToBuild ==> after == d)
  {
    assert Attempt(d, v, q, now, life) == Alone(d, v, Waiting(q, packet), now, life);
    assert Alone(d, v, Waiting(q, packet), now, life) == Alone(d, v, Entered(q, packet), now, life - 1);
    assert Alone(d, v, Entered(q, packet), now, life - 1) == Alone(d, v, Found(packet, seal), now, life - 2);
    assert Alone(d, v, Found(packet, seal), now, life - 2) == Alone(d, v, Matched(packet, seal), now, life - 3);
    if !v.dirty {
      if d.phase == AwaitingApproval {
        assert Alone(d, v, Matched(packet, seal), now, life - 3) == Alone(d, v, Holding(packet, seal), now, life - 4);
        HoldingFinishes(d, v, packet, seal, now, life - 4);
      } else {
        assert Alone(d, v, Matched(packet, seal), now, life - 3) == Alone(d, v, Activated(packet, seal), now, life - 4);
      }
    }
  }

  lemma UnsealedRunStarts(d: Durable, v: View, q: Request, packet: Packet, now: nat, life: nat)
    requires PartlyStarted(d, v, packet) && d.seal.Absent? && Startable(d, v, q, packet) && life >= 8
    ensures var (after, outcome) := Attempt(d, v, q, now, life);
      outcome.Succeeded? && Started(after, v, packet, outcome.seal)
  {
    var head := Head(v, packet.branch).value;
    var seal := Draft(d, q, packet, PacketSha(packet), head, packet.candidateBranch.value, now);
    assert Attempt(d, v, q, now, life) == Alone(d, v, Waiting(q, packet), now, life);
    assert Alone(d, v, Waiting(q, packet), now, life) == Alone(d, v, Entered(q, packet), now, life - 1);
    assert Alone(d, v, Entered(q, packet), now, life - 1) == Alone(d, v, Inspecting(q, packet), now, life - 2);
    assert Alone(d, v, Inspecting(q, packet), now, life - 2) == Alone(d, v, Based(q, packet, head), now, life - 3);
    assert Alone(d, v, Based(q, packet, head), now, life - 3) == Alone(d, v, Drafted(q, packet, seal), now, life - 4);
    var sealed := d.(seal := Sealed(seal));
    assert Alone(d, v, Drafted(q, packet, seal), now, life - 4)
        == Alone(sealed, v, Holding(packet, seal), now, life - 5);
    HoldingFinishes(sealed, v, packet, seal, now, life - 5);
  }

  /** Deaths anywhere are recovered: after any interleaving of calls that die where they like, with
      packet and source standing still, one more call starts the run, under the seal that is
      already there if there is one, and every later call returns it and changes nothing.  The one
      exception is exact: a seal cannot be resumed, though it could be made, while the source
      checkout has tracked changes on another branch than the baseline. */
  lemma StartConverges(w: World, es: seq<Event>, q: Request, packet: Packet, now: nat, life: nat)
    requires Initial(w) && w.d.seal.Absent? && w.d.phase == AwaitingApproval && w.d.graph.None?
    requires Startable(w.d, w.v, q, packet) && life >= 8
    requires forall e :: e in es ==> !e.Changes? && !e.Moves?
    ensures var mid := ExecAll(w, es).d;
      var (after, outcome) := Attempt(mid, w.v, q, now, life);
      && (outcome.Succeeded? <==> mid.seal.Absent? || !w.v.dirty)
      && (outcome.Succeeded? ==>
            && Started(after, w.v, packet, outcome.seal)
            && (mid.seal.Sealed? ==> mid.seal == after.seal)
            && (!w.v.dirty ==> Attempt(after, w.v, q, now + 1, life) == (after, outcome)))
  {
    RunsStayCalm(w, w.d, w.v, packet, es);
    var mid := ExecAll(w, es).d;
    if mid.seal.Sealed? {
      SealedRunResumes(mid, w.v, q, packet, mid.seal.seal, now, life);
    } else {
      UnsealedRunStarts(mid, w.v, q, packet, now, life);
    }
    var (after, outcome) := Attempt(mid, w.v, q, now, life);
    if outcome.Succeeded? {
      SealedRunResumes(after, w.v, q, packet, outcome.seal, now + 1, life);
    }
  }
}
