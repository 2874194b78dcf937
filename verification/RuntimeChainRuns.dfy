/**
 The runtime chain over every run of binds and resumes: it always resolves, what is bound never
 changes, and the two resolvers agree.
 */
module RuntimeChainRuns {
  import opened Wrappers
  import opened Crashes
  import opened RuntimeChain

  function Min(a: nat, b: nat): nat { if a < b then a else b }

  /** The identity after the first k migrations, in closed form. */
  function ClosedAt(c: Chain, k: nat): Resolved {
    if k == 0 || k !in c.migrations || c.migrations[k].identity.None? then BaseOf(c)
    else
      Resolved(c.migrations[k].identity.value, None,
               if k in c.receipts then OfReceipt(c.receipts[k]) else OfMigration(c.migrations[k]))
  }

  /** The k-th migration is a resume that follows from the one before it, and its receipt, if it
      has one, binds exactly its target. */
  predicate Fits(env: Evidence, c: Chain, k: nat)
    requires k >= 1 && k in c.migrations
  {
    var m := c.migrations[k];
    && m.schema == V2 && LocallyValid(env, m) && m.identity.Some?
    && Continues(c, m, k, ClosedAt(c, k - 1))
    && FollowsFrom(env, m, ClosedAt(c, k - 1))
    && (k in c.receipts ==> c.receipts[k] == Receipt(c.missionId, k, OfMigration(m), m.identity))
  }

  /** n migrations of which the first b are bound: all of them, or all but the last. */
  ghost predicate Inv(env: Evidence, c: Chain, n: nat, b: nat) {
    && b <= n <= b + 1 && b <= MAX_MIGRATIONS && n <= MAX_MIGRATIONS + 1
    && (forall k: nat :: k in c.migrations <==> 1 <= k <= n)
    && (forall k: nat :: k in c.receipts <==> 1 <= k <= b)
    && (n > 0 ==> c.base.Some?)
    && (c.base.Some? ==> c.base.value.missionId == c.missionId)
    && (forall k {:trigger Fits(env, c, k)} :: 1 <= k <= Min(n, MAX_MIGRATIONS) ==> Fits(env, c, k))
  }

  // ----- every such chain resolves -----

  /** What the mission resolver answers through a number of migrations. */
  function MissionAnswer(c: Chain, j: nat, b: nat): Resolution {
    Ok((if j <= b then ClosedAt(c, j) else ClosedAt(c, j).(tag := Some(j)), j))
  }

  lemma {:induction false} SourceHolds(env: Evidence, c: Chain, n: nat, b: nat, k: nat)
    requires Inv(env, c, n, b) && 1 <= k <= Min(n, MAX_MIGRATIONS)
    ensures SourceVerifies(env, c, c.migrations[k])
    decreases k, 0, 0
  {
    assert Fits(env, c, k);
    MissionResolves(env, c, n, b, k - 1);
  }

  lemma {:induction false} MissionStepsResolve(env: Evidence, c: Chain, n: nat, b: nat, sequence: nat, limit: nat)
    requires Inv(env, c, n, b) && limit <= MAX_MIGRATIONS
    requires sequence <= limit && sequence <= b
    ensures MissionFrom(env, c, ClosedAt(c, sequence), sequence, limit) == MissionAnswer(c, Min(limit, n), b)
    decreases limit, 1, limit - sequence
  {
    if sequence < limit && sequence + 1 <= n {
      assert Fits(env, c, sequence + 1);
      SourceHolds(env, c, n, b, sequence + 1);
      if sequence + 1 <= b {
        MissionStepsResolve(env, c, n, b, sequence + 1, limit);
      }
    }
  }

  /** The mission resolver succeeds through any number of migrations, in closed form. */
  lemma {:induction false} MissionResolves(env: Evidence, c: Chain, n: nat, b: nat, through: nat)
    requires Inv(env, c, n, b)
    ensures MissionRuntime(env, c, through) == MissionAnswer(c, Min(Min(through, MAX_MIGRATIONS), n), b)
    decreases through, 2, 0
  {
    MissionStepsResolve(env, c, n, b, 0, Min(through, MAX_MIGRATIONS));
  }

  // ----- the segment's view -----

  function StartOf(segment: Segment): nat {
    if segment.reference.Some? then segment.reference.value.sequence else 0
  }

  /** How far the segment's own migrations reach without a gap. */
  function LastOwn(c: Chain, segment: Segment, k: nat): (last: nat)
    ensures last >= k
    decreases MAX_MIGRATIONS - k
  {
    if k >= MAX_MIGRATIONS || k + 1 !in c.migrations || !OwnMigration(c.migrations[k + 1], segment) then k
    else LastOwn(c, segment, k + 1)
  }

  /** Every migration after the segment's own reference comes from its run. */
  predicate SourceOfTheRest(c: Chain, segment: Segment) {
    var last := LastOwn(c, segment, StartOf(segment));
    last >= MAX_MIGRATIONS || last + 1 !in c.migrations
  }

  function SegmentAnswer(c: Chain, j: nat): Resolution {
    Ok((ClosedAt(c, j).(tag := if j == 0 then None else Some(j)), j))
  }

  lemma FittingMigrationAnswers(env: Evidence, c: Chain, n: nat, b: nat, k: nat)
    requires Inv(env, c, n, b) && 1 <= k <= Min(n, MAX_MIGRATIONS)
    ensures FromMigration(c, c.migrations[k], k) == Ok(ClosedAt(c, k).(tag := Some(k)))
  {
    assert Fits(env, c, k);
  }

  lemma {:induction false} LastOwnIsThere(env: Evidence, c: Chain, n: nat, b: nat, segment: Segment, k: nat)
    requires Inv(env, c, n, b) && k <= Min(n, MAX_MIGRATIONS)
    ensures LastOwn(c, segment, k) <= Min(n, MAX_MIGRATIONS)
    decreases MAX_MIGRATIONS - k
  {
    if k < MAX_MIGRATIONS && k + 1 in c.migrations {
      LastOwnIsThere(env, c, n, b, segment, k + 1);
    }
  }

  lemma {:induction false} SegmentStepsResolve(env: Evidence, c: Chain, n: nat, b: nat, segment: Segment, k: nat)
    requires Inv(env, c, n, b) && k <= Min(n, MAX_MIGRATIONS)
    ensures SegmentFrom(env, c, segment, ClosedAt(c, k).(tag := if k == 0 then None else Some(k)), k)
         == SegmentAnswer(c, LastOwn(c, segment, k))
    decreases MAX_MIGRATIONS - k
  {
    if k < MAX_MIGRATIONS && k + 1 in c.migrations && OwnMigration(c.migrations[k + 1], segment) {
      assert Fits(env, c, k + 1);
      SourceHolds(env, c, n, b, k + 1);
      FittingMigrationAnswers(env, c, n, b, k + 1);
      SegmentStepsResolve(env, c, n, b, segment, k + 1);
    }
  }

  /** A segment whose reference stands resolves to the last of its own migrations. */
  lemma SegmentResolves(env: Evidence, c: Chain, n: nat, b: nat, segment: Segment)
    requires Inv(env, c, n, b) && SegmentStart(env, c, segment).Ok?
    requires StartOf(segment) <= n
    ensures SegmentRuntime(env, c, segment) == SegmentAnswer(c, LastOwn(c, segment, StartOf(segment)))
  {
    var k := StartOf(segment);
    if segment.reference.Some? {
      FittingMigrationAnswers(env, c, n, b, k);
    }
    SegmentStepsResolve(env, c, n, b, segment, k);
  }

  lemma StartIsOnChain(env: Evidence, c: Chain, n: nat, b: nat, segment: Segment)
    requires Inv(env, c, n, b) && SegmentRuntime(env, c, segment).Ok?
    ensures SegmentStart(env, c, segment).Ok? && StartOf(segment) <= Min(n, MAX_MIGRATIONS)
  {
  }

  lemma RestReachesTheEnd(env: Evidence, c: Chain, n: nat, b: nat, segment: Segment)
    requires Inv(env, c, n, b) && SourceOfTheRest(c, segment) && StartOf(segment) <= Min(n, MAX_MIGRATIONS)
    ensures LastOwn(c, segment, StartOf(segment)) == Min(n, MAX_MIGRATIONS)
  {
    LastOwnIsThere(env, c, n, b, segment, StartOf(segment));
  }

  /** The two resolvers agree: for a segment whose run is the source of every migration after its
      own reference, both give the same identity and the same digest. */
  lemma ResolversAgree(env: Evidence, c: Chain, n: nat, b: nat, segment: Segment)
    requires Inv(env, c, n, b) && SegmentRuntime(env, c, segment).Ok? && SourceOfTheRest(c, segment)
    ensures MissionRuntime(env, c, MAX_MIGRATIONS).Ok?
    ensures var mine, theirs := SegmentRuntime(env, c, segment).value, MissionRuntime(env, c, MAX_MIGRATIONS).value;
      mine.0.identity == theirs.0.identity && mine.0.sha == theirs.0.sha && mine.1 == theirs.1
  {
    StartIsOnChain(env, c, n, b, segment);
    RestReachesTheEnd(env, c, n, b, segment);
    SegmentResolves(env, c, n, b, segment);
    MissionResolves(env, c, n, b, MAX_MIGRATIONS);
  }

  // ----- runs -----

  datatype Event =
    | BindEvent(segment: Segment, payload: Payload)
    | PrepareEvent(segment: Segment, resume: Resume)

  function Exec(env: Evidence, c: Chain, e: Event): Chain {
    var r := match e
      case BindEvent(segment, payload) => Bind(env, c, segment, payload)
      case PrepareEvent(segment, resume) => Prepare(env, c, segment, resume);
    if r.Ok? then r.value else c
  }

  /** A resume that appends a migration within reach of the resolvers although it does not leave
      the capability identity the mission has just resolved to. */
  predicate StaleAppend(env: Evidence, c: Chain, e: Event) {
    && e.PrepareEvent? && Exec(env, c, e) != c
    && var active := MissionRuntime(env, c, MAX_MIGRATIONS);
    && active.Ok? && active.value.1 < MAX_MIGRATIONS
    && active.value.0.identity.capability != Leaving(env, e.resume)
  }

  function Executes(env: Evidence): (Chain, Event) -> Chain {
    (c: Chain, e: Event) => Exec(env, c, e)
  }

  function ExecAll(env: Evidence, c: Chain, es: seq<Event>): Chain {
    RunAll(Executes(env), c, es)
  }

  predicate NeverStale(env: Evidence, c: Chain, es: seq<Event>) {
    es == []
    || (NeverStale(env, c, es[..|es| - 1]) && !StaleAppend(env, ExecAll(env, c, es[..|es| - 1]), es[|es| - 1]))
  }

  /** A mission that has bound nothing yet. */
  function NewMission(missionId: string, generation: string): Chain {
    Chain(missionId, generation, None, map[], map[])
  }

  /** Nothing durable is removed or changed. */
  predicate Extends(c: Chain, d: Chain) {
    && d.missionId == c.missionId && d.missionGeneration == c.missionGeneration
    && (c.base.Some? ==> d.base == c.base)
    && (forall k :: k in c.migrations ==> k in d.migrations && d.migrations[k] == c.migrations[k])
    && (forall k :: k in c.receipts ==> k in d.receipts && d.receipts[k] == c.receipts[k])
  }

  /** The receipt that binds a migration to its own target. */
  function ReceiptOf(c: Chain, j: nat): Receipt
    requires j in c.migrations
  {
    Receipt(c.missionId, j, OfMigration(c.migrations[j]), c.migrations[j].identity)
  }

  /** What a bind writes: the base before any migration, else the receipt the migration names. */
  lemma BindWrites(env: Evidence, c: Chain, n: nat, b: nat, segment: Segment, p: Payload, j: nat)
    requires Inv(env, c, n, b) && Bind(env, c, segment, p).Ok?
    requires j <= Min(n, MAX_MIGRATIONS) && SegmentRuntime(env, c, segment) == SegmentAnswer(c, j)
    ensures j == 0 ==> Bind(env, c, segment, p).value == c.(base := Some(IdentityFor(c, p)))
    ensures j == 0 && c.base.Some? ==> Bind(env, c, segment, p).value == c
    ensures j > 0 ==>
      Bind(env, c, segment, p).value
      == c.(receipts := c.receipts[j := ReceiptOf(c, j)])
  {
    if j > 0 {
      assert Fits(env, c, j);
    }
  }

  /** What a segment can bind, in closed form: before any migration of its own, the mission's
      generation and only the identity already there, if any; afterwards exactly the target of the
      migration it resolves to. */
  lemma BindAcceptedExactlyWhen(env: Evidence, c: Chain, n: nat, b: nat, segment: Segment, p: Payload, j: nat)
    requires Inv(env, c, n, b) && j <= Min(n, MAX_MIGRATIONS)
    requires SegmentRuntime(env, c, segment) == SegmentAnswer(c, j)
    ensures Bind(env, c, segment, p).Ok? <==>
      if j == 0 then p.generation == c.missionGeneration && c.base in {None, Some(IdentityFor(c, p))}
      else c.migrations[j].identity == Some(IdentityFor(c, p))
  {
    if j > 0 {
      assert Fits(env, c, j);
    }
  }

  lemma BaseKeepsInvariant(env: Evidence, c: Chain, b: nat, identity: Identity)
    requires Inv(env, c, 0, b) && identity.missionId == c.missionId
    ensures Inv(env, c.(base := Some(identity)), 0, b)
  {
  }

  lemma ReceiptKeepsInvariant(env: Evidence, c: Chain, n: nat, b: nat, j: nat) returns (bound: nat)
    requires Inv(env, c, n, b) && 1 <= j <= Min(n, MAX_MIGRATIONS)
    ensures var d := c.(receipts := c.receipts[j := ReceiptOf(c, j)]);
      Inv(env, d, n, bound) && b <= bound && Extends(c, d)
  {
    assert Fits(env, c, j);
    bound := if j == b + 1 then j else b;
    var d := c.(receipts := c.receipts[j := ReceiptOf(c, j)]);
    forall k | 1 <= k <= Min(n, MAX_MIGRATIONS) ensures Fits(env, d, k) {
      assert Fits(env, c, k);
      if k > 1 {
        assert Fits(env, c, k - 1);
      }
    }
  }

  lemma BindKeepsInvariant(env: Evidence, c: Chain, n: nat, b: nat, segment: Segment, p: Payload)
    returns (bound: nat)
    requires Inv(env, c, n, b) && Bind(env, c, segment, p).Ok?
    ensures var d := Bind(env, c, segment, p).value;
      Inv(env, d, n, bound) && b <= bound && Extends(c, d)
  {
    StartIsOnChain(env, c, n, b, segment);
    SegmentResolves(env, c, n, b, segment);
    var j := LastOwn(c, segment, StartOf(segment));
    LastOwnIsThere(env, c, n, b, segment, StartOf(segment));
    BindWrites(env, c, n, b, segment, p, j);
    bound := b;
    if j > 0 {
      bound := ReceiptKeepsInvariant(env, c, n, b, j);
    } else if c.base.None? {
      BaseKeepsInvariant(env, c, b, IdentityFor(c, p));
    }
  }

  lemma AppendKeepsInvariant(env: Evidence, c: Chain, n: nat, m: Migration)
    requires Inv(env, c, n, n) && n <= MAX_MIGRATIONS && c.base.Some?
    requires n < MAX_MIGRATIONS ==>
      && m.schema == V2 && LocallyValid(env, m) && m.identity.Some?
      && Continues(c, m, n + 1, ClosedAt(c, n)) && FollowsFrom(env, m, ClosedAt(c, n))
    ensures var d := c.(migrations := c.migrations[n + 1 := m]);
      Inv(env, d, n + 1, n) && Extends(c, d)
  {
    var d := c.(migrations := c.migrations[n + 1 := m]);
    forall k | 1 <= k <= Min(n + 1, MAX_MIGRATIONS) ensures Fits(env, d, k) {
      if k <= n {
        assert Fits(env, c, k);
      }
    }
  }

  /** The capability identity the resume leaves is the mission's active one. */
  predicate LeavesActive(env: Evidence, c: Chain, n: nat, r: Resume) {
    ClosedAt(c, Min(n, MAX_MIGRATIONS)).identity.capability == Leaving(env, r)
  }

  lemma PrepareKeepsInvariant(env: Evidence, c: Chain, n: nat, b: nat, segment: Segment, r: Resume)
    returns (count: nat)
    requires Inv(env, c, n, b) && Prepare(env, c, segment, r).Ok?
    requires LeavesActive(env, c, n, r) || Prepare(env, c, segment, r).value == c || n >= MAX_MIGRATIONS
    ensures var d := Prepare(env, c, segment, r).value;
      Inv(env, d, count, b) && n <= count && Extends(c, d)
  {
    var d := Prepare(env, c, segment, r).value;
    count := n;
    if d != c {
      PreparedMigrationFits(env, c, n, b, segment, r);
      AppendKeepsInvariant(env, c, n, d.migrations[n + 1]);
      count := n + 1;
    }
  }

  /** A migration that a resume appends continues the chain, and follows from it exactly when the
      resume leaves the mission's active capability identity. */
  lemma PreparedMigrationFits(env: Evidence, c: Chain, n: nat, b: nat, segment: Segment, r: Resume)
    requires Inv(env, c, n, b)
    requires Prepare(env, c, segment, r).Ok? && Prepare(env, c, segment, r).value != c
    ensures b == n && c.base.Some?
    ensures n + 1 in Prepare(env, c, segment, r).value.migrations
    ensures var m := Prepare(env, c, segment, r).value.migrations[n + 1];
      && m.schema == V2 && LocallyValid(env, m) && m.identity.Some?
      && Continues(c, m, n + 1, ClosedAt(c, n))
      && Prepare(env, c, segment, r).value == c.(migrations := c.migrations[n + 1 := m])
      && (FollowsFrom(env, m, ClosedAt(c, n)) <==> LeavesActive(env, c, n, r))
  {
    MissionResolves(env, c, n, b, MAX_MIGRATIONS);
    var (active, sequence) := MissionRuntime(env, c, MAX_MIGRATIONS).value;
    PreparedByNext(env, c, segment, r, active, sequence);
    assert b == n == sequence;
    PreparedFollows(env, c, n, segment, r, MigrationFor(c, segment, active, n, r));
  }

  /** What a resume that changes anything was accepted on. */
  lemma PreparedByNext(env: Evidence, c: Chain, segment: Segment, r: Resume, active: Resolved, sequence: nat)
    requires MissionRuntime(env, c, MAX_MIGRATIONS) == Ok((active, sequence))
    requires Prepare(env, c, segment, r).Ok? && Prepare(env, c, segment, r).value != c
    ensures sequence > 0 ==> sequence in c.receipts
    ensures active.identity.generation == r.previousGeneration && active.identity.authority == Some(r.target.authority)
    ensures r.capabilityRef.None? ==> Some(r.target.capability) == active.identity.capability
    ensures SegmentRuntime(env, c, segment).Ok?
      && SegmentRuntime(env, c, segment).value.0.identity.capability == Leaving(env, r)
    ensures sequence == 0 ==> active.identity.authority.Some?
    ensures var m := MigrationFor(c, segment, active, sequence, r);
      && LocallyValid(env, m) && sequence + 1 !in c.migrations
      && Prepare(env, c, segment, r).value == c.(migrations := c.migrations[sequence + 1 := m])
  {
    SameEntry(c, sequence + 1, MigrationFor(c, segment, active, sequence, r));
  }

  lemma SameEntry(c: Chain, k: nat, m: Migration)
    ensures k in c.migrations && c.migrations[k] == m ==> c.(migrations := c.migrations[k := m]) == c
  {
    if k in c.migrations && c.migrations[k] == m {
      assert c.migrations[k := m] == c.migrations;
    }
  }

  lemma PreparedFollows(env: Evidence, c: Chain, n: nat, segment: Segment, r: Resume, m: Migration)
    requires n <= MAX_MIGRATIONS && m == MigrationFor(c, segment, ClosedAt(c, n), n, r) && LocallyValid(env, m)
    requires ClosedAt(c, n).identity.generation == r.previousGeneration
    requires ClosedAt(c, n).identity.authority == Some(r.target.authority)
    ensures FollowsFrom(env, m, ClosedAt(c, n)) <==> LeavesActive(env, c, n, r)
  {
  }

  /** An accepted resume leaves what its own segment resolves to, so a check before the call tells
      whether it will be stale: the segment's resolved capability identity is not the mission's. */
  lemma StaleExactlyWhenSegmentLags(env: Evidence, c: Chain, e: Event)
    requires e.PrepareEvent? && Exec(env, c, e) != c
    ensures MissionRuntime(env, c, MAX_MIGRATIONS).Ok? && SegmentRuntime(env, c, e.segment).Ok?
    ensures var mission, own := MissionRuntime(env, c, MAX_MIGRATIONS).value, SegmentRuntime(env, c, e.segment).value;
      StaleAppend(env, c, e) <==>
        mission.1 < MAX_MIGRATIONS && own.0.identity.capability != mission.0.identity.capability
  {
  }

  /** A segment whose run is the source of every migration after its reference is never stale. */
  lemma SourceOfTheRestLeavesActive(env: Evidence, c: Chain, n: nat, b: nat, e: Event)
    requires Inv(env, c, n, b) && e.PrepareEvent? && SourceOfTheRest(c, e.segment)
    ensures !StaleAppend(env, c, e)
  {
    if Exec(env, c, e) != c {
      StaleExactlyWhenSegmentLags(env, c, e);
      ResolversAgree(env, c, n, b, e.segment);
    }
  }

  lemma EventKeepsInvariant(env: Evidence, c: Chain, n: nat, b: nat, e: Event) returns (count: nat, bound: nat)
    requires Inv(env, c, n, b) && !StaleAppend(env, c, e)
    ensures Inv(env, Exec(env, c, e), count, bound) && n <= count && b <= bound && Extends(c, Exec(env, c, e))
  {
    count, bound := n, b;
    if Exec(env, c, e) != c {
      if e.BindEvent? {
        bound := BindKeepsInvariant(env, c, n, b, e.segment, e.payload);
      } else {
        MissionResolves(env, c, n, b, MAX_MIGRATIONS);
        PreparedMigrationFits(env, c, n, b, e.segment, e.resume);
        count := PrepareKeepsInvariant(env, c, n, b, e.segment, e.resume);
      }
    }
  }

  lemma {:induction false} RunsKeepInvariant(env: Evidence, c: Chain, n: nat, b: nat, es: seq<Event>)
    returns (count: nat, bound: nat)
    requires Inv(env, c, n, b) && NeverStale(env, c, es)
    ensures Inv(env, ExecAll(env, c, es), count, bound) && n <= count && b <= bound
    ensures Extends(c, ExecAll(env, c, es))
  {
    if es == [] {
      return n, b;
    }
    var mid := ExecAll(env, c, es[..|es| - 1]);
    count, bound := RunsKeepInvariant(env, c, n, b, es[..|es| - 1]);
    count, bound := EventKeepsInvariant(env, mid, count, bound, es[|es| - 1]);
  }

  // ----- a resolution depends on its own prefix alone -----

  /** The records up to a sequence number are the same. */
  ghost predicate SamePrefix(c: Chain, d: Chain, k: nat) {
    && c.missionId == d.missionId && c.missionGeneration == d.missionGeneration && c.base == d.base
    && (forall i: nat :: 1 <= i <= k ==> (i in c.migrations <==> i in d.migrations))
    && (forall i: nat :: 1 <= i <= k && i in c.migrations ==> c.migrations[i] == d.migrations[i])
    && (forall i: nat :: 1 <= i <= k ==> (i in c.receipts <==> i in d.receipts))
    && (forall i: nat :: 1 <= i <= k && i in c.receipts ==> c.receipts[i] == d.receipts[i])
  }

  lemma {:induction false} SourceReadsPrefix(env: Evidence, c: Chain, d: Chain, m: Migration, k: nat)
    requires SamePrefix(c, d, k) && m.sequence <= k + 1
    ensures SourceVerifies(env, c, m) == SourceVerifies(env, d, m)
    decreases m.sequence, 0, 0
  {
    if m.sequence >= 1 {
      MissionReadsPrefix(env, c, d, m.sequence - 1);
    }
  }

  lemma {:induction false} StepsReadPrefix(env: Evidence, c: Chain, d: Chain, at: Resolved, sequence: nat, limit: nat)
    requires SamePrefix(c, d, limit) && sequence <= limit
    ensures MissionFrom(env, c, at, sequence, limit) == MissionFrom(env, d, at, sequence, limit)
    decreases limit, 1, limit - sequence
  {
    if sequence < limit && sequence + 1 in c.migrations {
      var m := c.migrations[sequence + 1];
      if Continues(c, m, sequence + 1, at) {
        SourceReadsPrefix(env, c, d, m, sequence);
        if sequence + 1 in c.receipts && FromReceipt(c, m, sequence + 1).Ok? {
          StepsReadPrefix(env, c, d, FromReceipt(c, m, sequence + 1).value, sequence + 1, limit);
        }
      }
    }
  }

  /** The mission's runtime through k migrations is a function of the first k records. */
  lemma {:induction false} MissionReadsPrefix(env: Evidence, c: Chain, d: Chain, k: nat)
    requires SamePrefix(c, d, k)
    ensures MissionRuntime(env, c, k) == MissionRuntime(env, d, k)
    decreases k, 2, 0
  {
    StepsReadPrefix(env, c, d, BaseOf(c), 0, Min(k, MAX_MIGRATIONS));
  }

  lemma EventExtends(env: Evidence, c: Chain, e: Event)
    ensures Extends(c, Exec(env, c, e))
  {
  }

  lemma {:induction false} RunsExtend(env: Evidence, c: Chain, es: seq<Event>)
    ensures Extends(c, ExecAll(env, c, es))
  {
    if es != [] {
      RunsExtend(env, c, es[..|es| - 1]);
      EventExtends(env, ExecAll(env, c, es[..|es| - 1]), es[|es| - 1]);
    }
  }

  /** What is bound stays: over any run of binds and resumes from any segments, in any order, the
      identity and digest resolved through a bound prefix are the same, and so is the point where
      a segment sealed within that prefix starts. */
  lemma BoundPrefixNeverChanges(env: Evidence, c: Chain, es: seq<Event>, k: nat, segment: Segment)
    requires c.base.Some?
    requires forall i: nat :: 1 <= i <= k ==> i in c.migrations && i in c.receipts
    ensures MissionRuntime(env, ExecAll(env, c, es), k) == MissionRuntime(env, c, k)
    ensures StartOf(segment) <= k ==> SegmentStart(env, ExecAll(env, c, es), segment) == SegmentStart(env, c, segment)
  {
    var d := ExecAll(env, c, es);
    RunsExtend(env, c, es);
    MissionReadsPrefix(env, c, d, k);
    var start := StartOf(segment);
    if 1 <= start <= k && c.migrations[start].sequence == start {
      SourceReadsPrefix(env, c, d, c.migrations[start], k);
    }
  }

  /** Resolving further goes through the bound prefix first. */
  lemma {:induction false} MissionComposes(env: Evidence, c: Chain, at: Resolved, sequence: nat, middle: nat,
                                           limit: nat)
    requires sequence <= middle <= limit
    requires forall k: nat :: 1 <= k <= middle ==> k in c.migrations && k in c.receipts
    requires MissionFrom(env, c, at, sequence, middle).Ok?
    ensures var reached := MissionFrom(env, c, at, sequence, middle).value;
      reached.1 == middle && MissionFrom(env, c, at, sequence, limit) == MissionFrom(env, c, reached.0, middle, limit)
    decreases middle - sequence
  {
    if sequence < middle {
      var m := c.migrations[sequence + 1];
      MissionComposes(env, c, FromReceipt(c, m, sequence + 1).value, sequence + 1, middle, limit);
    }
  }

  /** The first n migrations are bound and resolve, and the next does not follow from them. */
  ghost predicate Broken(env: Evidence, c: Chain, n: nat) {
    && n < MAX_MIGRATIONS && c.base.Some?
    && (forall k: nat :: 1 <= k <= n ==> k in c.migrations && k in c.receipts)
    && MissionRuntime(env, c, n).Ok?
    && n + 1 in c.migrations && c.migrations[n + 1].sequence == n + 1
    && !SourceVerifies(env, c, c.migrations[n + 1])
  }

  lemma BrokenFails(env: Evidence, c: Chain, n: nat)
    requires Broken(env, c, n)
    ensures MissionRuntime(env, c, MAX_MIGRATIONS).Err?
  {
    MissionComposes(env, c, BaseOf(c), 0, n, MAX_MIGRATIONS);
  }

  lemma BrokenStays(env: Evidence, c: Chain, d: Chain, n: nat)
    requires Broken(env, c, n) && Extends(c, d)
    ensures Broken(env, d, n)
  {
    MissionReadsPrefix(env, c, d, n);
    SourceReadsPrefix(env, c, d, c.migrations[n + 1], n);
  }

  /** A migration that does not follow from a bound chain breaks it. */
  lemma StaleMigrationBreaks(env: Evidence, c: Chain, n: nat, m: Migration)
    requires Inv(env, c, n, n) && n < MAX_MIGRATIONS && c.base.Some?
    requires m.schema == V2 && m.identity.Some? && m.sequence == n + 1
    requires !FollowsFrom(env, m, ClosedAt(c, n))
    ensures Broken(env, c.(migrations := c.migrations[n + 1 := m]), n)
  {
    var d := c.(migrations := c.migrations[n + 1 := m]);
    MissionResolves(env, c, n, n, n);
    MissionReadsPrefix(env, c, d, n);
  }

  lemma StaleAppendBreaks(env: Evidence, c: Chain, n: nat, b: nat, e: Event)
    requires Inv(env, c, n, b) && StaleAppend(env, c, e)
    ensures Broken(env, Exec(env, c, e), n)
  {
    MissionResolves(env, c, n, b, MAX_MIGRATIONS);
    PreparedMigrationFits(env, c, n, b, e.segment, e.resume);
    StaleMigrationBreaks(env, c, n, Exec(env, c, e).migrations[n + 1]);
  }

  /** One stale append breaks a run for good. */
  lemma {:induction false} StaleRunsBreak(env: Evidence, c: Chain, n: nat, b: nat, es: seq<Event>) returns (k: nat)
    requires Inv(env, c, n, b) && !NeverStale(env, c, es)
    ensures Broken(env, ExecAll(env, c, es), k)
  {
    var front, last := es[..|es| - 1], es[|es| - 1];
    if NeverStale(env, c, front) {
      var count, bound := RunsKeepInvariant(env, c, n, b, front);
      StaleAppendBreaks(env, ExecAll(env, c, front), count, bound, last);
      k := count;
    } else {
      k := StaleRunsBreak(env, c, n, b, front);
      EventExtends(env, ExecAll(env, c, front), last);
      BrokenStays(env, ExecAll(env, c, front), ExecAll(env, c, es), k);
    }
  }

  /** A mission's chain resolves, after any run of binds and resumes from any segments, if and only
      if every migration a resume has appended left the capability identity that was active; and
      then all its migrations but possibly the last are bound. */
  lemma ReachableChainsResolve(env: Evidence, missionId: string, generation: string, es: seq<Event>)
    ensures var c := ExecAll(env, NewMission(missionId, generation), es);
      && (MissionRuntime(env, c, MAX_MIGRATIONS).Ok? <==> NeverStale(env, NewMission(missionId, generation), es))
      && (MissionRuntime(env, c, MAX_MIGRATIONS).Ok? ==> exists n, b :: Inv(env, c, n, b))
  {
    var c0 := NewMission(missionId, generation);
    var c := ExecAll(env, c0, es);
    assert Inv(env, c0, 0, 0);
    if NeverStale(env, c0, es) {
      var n, b := RunsKeepInvariant(env, c0, 0, 0, es);
      MissionResolves(env, c, n, b, MAX_MIGRATIONS);
    } else {
      var k := StaleRunsBreak(env, c0, 0, 0, es);
      BrokenFails(env, c, k);
    }
  }

  /** One step of that: the migration that a resume appends makes the mission unresolvable exactly
      when it does not leave the active capability identity. */
  lemma ResumeBreaksExactlyWhenStale(env: Evidence, c: Chain, n: nat, b: nat, segment: Segment, r: Resume)
    requires Inv(env, c, n, b) && n < MAX_MIGRATIONS
    requires Prepare(env, c, segment, r).Ok? && Prepare(env, c, segment, r).value != c
    ensures MissionRuntime(env, Prepare(env, c, segment, r).value, MAX_MIGRATIONS).Ok?
       <==> LeavesActive(env, c, n, r)
  {
    var d := Prepare(env, c, segment, r).value;
    PreparedMigrationFits(env, c, n, b, segment, r);
    if LeavesActive(env, c, n, r) {
      AppendKeepsInvariant(env, c, n, d.migrations[n + 1]);
      MissionResolves(env, d, n + 1, n, MAX_MIGRATIONS);
    } else {
      StaleMigrationBreaks(env, c, n, d.migrations[n + 1]);
      BrokenFails(env, d, n);
    }
  }

  /** A mission whose segment "b" binds, refreshes its capability from "x" to "y" without a new
      generation, and binds again.  Its successor "a" is sealed with the reference its parent was
      sealed with, which is none, so "a" still resolves to "x". */
  function Refreshed(): (c: Chain) {
    var first := Migration(V2, true, "m", 1, OfIdentity(Identity("m", "g", Some("p"), Some("x"))), "g", "g", Some("p"),
                           Some(Identity("m", "g", Some("p"), Some("y"))), Some(1), "b", "s");
    Chain("m", "g", Some(Identity("m", "g", Some("p"), Some("x"))), map[1 := first],
          map[1 := Receipt("m", 1, OfMigration(first), first.identity)])
  }

  function Refreshes(): Evidence {
    Evidence((m: Migration) => true, (reference: nat) =>
      if reference == 1 then Some(CapabilityEdge("x", "y", true)) else Some(CapabilityEdge("x", "z", true)),
      (capability: string) => capability)
  }

  const Parent := Segment("b", "", None)
  const Successor := Segment("a", "b", None)
  const Refresh := [
    BindEvent(Parent, Payload("g", "p", "x")),
    PrepareEvent(Parent, Resume("g", Payload("g", "p", "y"), Some(1), "s", "y")),
    BindEvent(Parent, Payload("g", "p", "y"))]

  lemma ExecAppends(env: Evidence, c: Chain, es: seq<Event>, e: Event)
    ensures ExecAll(env, c, es + [e]) == Exec(env, ExecAll(env, c, es), e)
  {
    assert (es + [e])[..|es|] == es;
  }

  lemma RefreshedIsSound(env: Evidence, c: Chain)
    requires env == Refreshes() && c == Refreshed()
    ensures Inv(env, c, 1, 1)
  {
    assert Fits(env, c, 1);
  }

  /** The parent's three events lead there. */
  lemma RefreshIsReached(env: Evidence)
    requires env == Refreshes()
    ensures ExecAll(env, NewMission("m", "g"), Refresh) == Refreshed()
  {
    var c0, full := NewMission("m", "g"), Refreshed();
    var c1, c2 := full.(migrations := map[], receipts := map[]), full.(receipts := map[]);
    ExecAppends(env, c0, [], Refresh[0]);
    ExecAppends(env, c0, [Refresh[0]], Refresh[1]);
    ExecAppends(env, c0, [Refresh[0], Refresh[1]], Refresh[2]);
    assert [] + [Refresh[0]] == [Refresh[0]] && [Refresh[0]] + [Refresh[1]] == [Refresh[0], Refresh[1]];
    assert [Refresh[0], Refresh[1]] + [Refresh[2]] == Refresh;
    assert Exec(env, c0, Refresh[0]) == c1;
    PrepareRefreshes(env, c1);
    BindsRefreshed(env, c2);
  }

  lemma PrepareRefreshes(env: Evidence, c: Chain)
    requires env == Refreshes() && c == Refreshed().(migrations := map[], receipts := map[])
    ensures Exec(env, c, Refresh[1]) == Refreshed().(receipts := map[])
  {
    MissionResolves(env, c, 0, 0, MAX_MIGRATIONS);
  }

  lemma BindsRefreshed(env: Evidence, c: Chain)
    requires env == Refreshes() && c == Refreshed().(receipts := map[])
    ensures Exec(env, c, Refresh[2]) == Refreshed()
  {
    assert Fits(env, c, 1);
    assert Inv(env, c, 1, 0);
    SegmentResolves(env, c, 1, 0, Parent);
    assert LastOwn(c, Parent, 1) == 1;
  }

  /** The successor cannot bind the identity the mission is running under; it can only bind the one
      its parent has left, which changes nothing. */
  lemma SuccessorBindsThePast(env: Evidence, c: Chain, p: Payload)
    requires env == Refreshes() && c == Refreshed()
    ensures MissionRuntime(env, c, MAX_MIGRATIONS).Ok?
    ensures Bind(env, c, Successor, p).Ok? <==> p == Payload("g", "p", "x")
    ensures MissionRuntime(env, c, MAX_MIGRATIONS).value.0.identity == IdentityFor(c, Payload("g", "p", "y"))
    ensures Bind(env, c, Successor, Payload("g", "p", "y")) == Err(Conflict)
    ensures Exec(env, c, BindEvent(Successor, Payload("g", "p", "x"))) == c
  {
    RefreshedIsSound(env, c);
    MissionResolves(env, c, 1, 1, MAX_MIGRATIONS);
    SuccessorResolves(env, c);
    BindAcceptedExactlyWhen(env, c, 1, 1, Successor, p, 0);
    BindAcceptedExactlyWhen(env, c, 1, 1, Successor, Payload("g", "p", "x"), 0);
  }

  lemma SuccessorResolves(env: Evidence, c: Chain)
    requires env == Refreshes() && c == Refreshed()
    ensures SegmentRuntime(env, c, Successor) == SegmentAnswer(c, 0)
  {
    RefreshedIsSound(env, c);
    SegmentResolves(env, c, 1, 1, Successor);
    assert LastOwn(c, Successor, 0) == 0;
  }

  lemma SuccessorResumes(env: Evidence, c: Chain, r: Resume)
    requires env == Refreshes() && c == Refreshed() && r == Resume("g", Payload("h", "p", "z"), Some(2), "t", "z")
    ensures MissionRuntime(env, c, MAX_MIGRATIONS).Ok?
    ensures Prepare(env, c, Successor, r).Ok? && Prepare(env, c, Successor, r).value != c
    ensures !LeavesActive(env, c, 1, r)
  {
    RefreshedIsSound(env, c);
    MissionResolves(env, c, 1, 1, MAX_MIGRATIONS);
    SuccessorResolves(env, c);
  }

  lemma SuccessorBreaksTheChain(env: Evidence, c: Chain, r: Resume)
    requires env == Refreshes() && c == Refreshed() && r == Resume("g", Payload("h", "p", "z"), Some(2), "t", "z")
    ensures Prepare(env, c, Successor, r).Ok?
    ensures MissionRuntime(env, Exec(env, c, PrepareEvent(Successor, r)), MAX_MIGRATIONS).Err?
  {
    RefreshedIsSound(env, c);
    SuccessorResumes(env, c, r);
    ResumeBreaksExactlyWhenStale(env, c, 1, 1, Successor, r);
  }

  /** The parent's events and the successor's bind. */
  lemma SuccessorIsReached(env: Evidence, p: Payload)
    requires env == Refreshes() && p == Payload("g", "p", "x")
    ensures ExecAll(env, NewMission("m", "g"), Refresh) == Refreshed() && Bind(env, Refreshed(), Successor, p).Ok?
    ensures ExecAll(env, NewMission("m", "g"), Refresh + [BindEvent(Successor, p)]) == Refreshed()
    ensures MissionRuntime(env, Refreshed(), MAX_MIGRATIONS).Ok?
  {
    RefreshIsReached(env);
    SuccessorBindsThePast(env, Refreshed(), p);
    ExecAppends(env, NewMission("m", "g"), Refresh, BindEvent(Successor, p));
  }

  /** The run, the successor's bind, and a resume of it that is accepted on a chain that resolves
      and breaks it. */
  predicate BreaksTheChain(env: Evidence, es: seq<Event>, p: Payload, r: Resume) {
    var c := ExecAll(env, NewMission("m", "g"), es);
    var bound := ExecAll(env, NewMission("m", "g"), es + [BindEvent(Successor, p)]);
    && Bind(env, c, Successor, p).Ok?
    && MissionRuntime(env, bound, MAX_MIGRATIONS).Ok? && Prepare(env, bound, Successor, r).Ok?
    && MissionRuntime(env, Exec(env, bound, PrepareEvent(Successor, r)), MAX_MIGRATIONS).Err?
  }

  lemma SuccessorDoes(env: Evidence, es: seq<Event>, p: Payload, r: Resume)
    requires env == Refreshes() && es == Refresh && p == Payload("g", "p", "x")
    requires r == Resume("g", Payload("h", "p", "z"), Some(2), "t", "z")
    ensures BreaksTheChain(env, es, p, r)
  {
    SuccessorIsReached(env, p);
    SuccessorBreaksTheChain(env, Refreshed(), r);
  }

  /** Such a resume happens: the live successor of a parent that refreshed its capability binds what
      its seal resolves to, its resume is accepted, and the mission no longer resolves. */
  lemma StaleResumeExists()
    ensures exists env, es, p, r :: BreaksTheChain(env, es, p, r)
  {
    SuccessorDoes(Refreshes(), Refresh, Payload("g", "p", "x"), Resume("g", Payload("h", "p", "z"), Some(2), "t", "z"));
  }
}
