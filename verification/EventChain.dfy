/**
 The hash-linked event log.  Appending chains on the hash recorded in the last event; verifying
 recomputes the chain from the first one.
 */
module EventChain {
  import opened Wrappers
  import opened Hashing

  /** The canonical JSON text of an event without its chain field: an object. */
  type Payload = s: string | s != "" && s[0] == '{' witness "{}"

  /** `chain` is the recorded chain field; empty when absent. */
  datatype Event = Event(payload: Payload, chain: string)

  /** Reads one field of an event's JSON object; empty when absent. */
  type FieldReader = (Payload, string) -> string

  // ----- the chain hash -----

  function ChainHash(h: Hash, events: seq<Event>): string {
    if events == [] then ""
    else h(ChainHash(h, events[..|events| - 1]) + events[|events| - 1].payload)
  }

  function Payloads(events: seq<Event>): seq<Payload> {
    seq(|events|, i requires 0 <= i < |events| => events[i].payload)
  }

  ghost predicate IsChainInput(h: Hash, events: seq<Event>, x: string) {
    exists k :: 0 <= k < |events| && x == ChainHash(h, events[..k]) + events[k].payload
  }

  /** Every string hashed while computing the chain. */
  ghost function ChainInputs(h: Hash, events: seq<Event>): iset<string> {
    iset x | IsChainInput(h, events, x)
  }

  /** The chain field of the last event that has one. */
  function RecordedChain(events: seq<Event>): Option<string> {
    if events == [] then None
    else if events[|events| - 1].chain != "" then Some(events[|events| - 1].chain)
    else RecordedChain(events[..|events| - 1])
  }

  /** The chain check of a log: nothing recorded yet, or the last recorded hash is the hash of
      everything in the log. */
  predicate ChainVerifies(h: Hash, events: seq<Event>) {
    RecordedChain(events).None? || RecordedChain(events).value == ChainHash(h, events)
  }

  /** Recomputes the chain over a list of events; the whole-log check and the check of a sealed
      prefix are this one loop. */
  method ComputeChainHash(h: Hash, events: seq<Event>) returns (chain: string)
    ensures chain == ChainHash(h, events)
  {
    chain := "";
    for i := 0 to |events|
      invariant chain == ChainHash(h, events[..i])
    {
      assert events[..i + 1][..i] == events[..i];
      chain := h(chain + events[i].payload);
    }
    assert events[..|events|] == events;
  }

  /** Scans the log from its end for the last event that records a field. */
  method LastRecordedFor(read: FieldReader, events: seq<Event>, key: string) returns (r: Option<string>)
    ensures r.None? <==> forall e :: e in events ==> read(e.payload, key) == ""
    ensures r.Some? ==> exists i :: 0 <= i < |events| && read(events[i].payload, key) == r.value != ""
                          && forall j :: i < j < |events| ==> read(events[j].payload, key) == ""
  {
    var i := |events|;
    while i > 0
      invariant 0 <= i <= |events|
      invariant forall j :: i <= j < |events| ==> read(events[j].payload, key) == ""
    {
      i := i - 1;
      var value := read(events[i].payload, key);
      if value != "" {
        assert events[i] in events;
        return Some(value);
      }
    }
    return None;
  }

  // ----- the log -----

  /** Every event records the chain hash of the log up to and including itself. */
  ghost predicate Intact(h: Hash, events: seq<Event>) {
    forall k {:trigger events[k]} :: 0 <= k < |events| ==> events[k].chain == ChainHash(h, events[..k + 1])
  }

  class EventLog {
    const h: Hash
    var events: seq<Event>

    constructor (h: Hash)
      ensures this.h == h && events == []
      ensures Intact(h, events)
    {
      this.h := h;
      events := [];
    }

    /** Appends one event to a log whose recorded tail is the hash of everything in it, and refuses
        any other log.  It chains on the recorded tail and not on the whole history; what it
        records is nevertheless what a verifier will recompute. */
    method Append(payload: Payload) returns (ok: bool)
      modifies this
      ensures ok <==> TailVerifies(h, old(events))
      ensures ok ==> events == old(events) + [Event(payload, ChainHash(h, events))]
      ensures ok ==> TailVerifies(h, events) && (Intact(h, old(events)) ==> Intact(h, events))
      ensures !ok ==> events == old(events)
    {
      var whole := ComputeChainHash(h, events);
      if events != [] && RecordedChain(events) != Some(whole) {
        return false;
      }
      var longer := Appended(h, events, payload);
      AppendedTail(h, events, payload);
      if Intact(h, events) {
        AppendKeepsIntact(h, events, payload, longer);
      }
      events := longer;
      return true;
    }

    /** The two chain checks made before a log is trusted: the log against its recorded tail, and
        a sealed prefix against the hash and state digest taken when it was sealed. */
    method VerifyPrefix(read: FieldReader, count: int, chainSha: string, stateSha: string) returns (ok: bool)
      ensures ok <==> PrefixVerifies(h, read, events, count, chainSha, stateSha)
    {
      if count < 1 || count > |events| {
        return false;
      }
      var prefix := ComputeChainHash(h, events[..count]);
      var whole := ComputeChainHash(h, events);
      return && prefix == chainSha
             && Some(whole) == RecordedChain(events)
             && read(events[count - 1].payload, "state_sha256") == stateSha;
    }
  }

  predicate PrefixVerifies(h: Hash, read: FieldReader, events: seq<Event>, count: int, chainSha: string,
                           stateSha: string)
  {
    && 1 <= count <= |events|
    && ChainHash(h, events[..count]) == chainSha
    && Some(ChainHash(h, events)) == RecordedChain(events)
    && read(events[count - 1].payload, "state_sha256") == stateSha
  }

  lemma RecordedIsChain(h: Hash, events: seq<Event>)
    requires Intact(h, events)
    ensures RecordedChain(events) == if events == [] then None else Some(ChainHash(h, events))
  {
    if events != [] {
      assert events[..|events|] == events;
      assert h(ChainHash(h, events[..|events| - 1]) + events[|events| - 1].payload) != "";
    }
  }

  /** A log that may be extended: empty, or recorded at its tail for what it is. */
  predicate TailVerifies(h: Hash, events: seq<Event>) {
    events == [] || RecordedChain(events) == Some(ChainHash(h, events))
  }

  /** The log after one more event, chained on the recorded tail. */
  function Appended(h: Hash, events: seq<Event>, payload: Payload): seq<Event> {
    var recorded := RecordedChain(events);
    events + [Event(payload, h((if recorded.Some? then recorded.value else "") + payload))]
  }

  function AppendedAll(h: Hash, events: seq<Event>, payloads: seq<Payload>): seq<Event> {
    if payloads == [] then events
    else Appended(h, AppendedAll(h, events, payloads[..|payloads| - 1]), payloads[|payloads| - 1])
  }

  lemma OneMoreHash(h: Hash, events: seq<Event>, e: Event)
    ensures ChainHash(h, events + [e]) == h(ChainHash(h, events) + e.payload)
    ensures e.chain != "" ==> RecordedChain(events + [e]) == Some(e.chain)
  {
    assert (events + [e])[..|events|] == events;
  }

  /** Appending to a log with a verified tail records the hash of the whole longer log. */
  lemma AppendedTail(h: Hash, events: seq<Event>, payload: Payload)
    requires TailVerifies(h, events)
    ensures var longer := Appended(h, events, payload);
      && longer == events + [Event(payload, ChainHash(h, longer))]
      && longer != [] && TailVerifies(h, longer)
  {
    var chain := h(ChainHash(h, events) + payload);
    assert chain != "";
    OneMoreHash(h, events, Event(payload, chain));
  }

  lemma {:induction false} AppendedAllTail(h: Hash, events: seq<Event>, payloads: seq<Payload>)
    requires TailVerifies(h, events)
    ensures events <= AppendedAll(h, events, payloads) && TailVerifies(h, AppendedAll(h, events, payloads))
  {
    if payloads != [] {
      var front := payloads[..|payloads| - 1];
      AppendedAllTail(h, events, front);
      AppendedTail(h, AppendedAll(h, events, front), payloads[|payloads| - 1]);
    }
  }

  lemma AppendKeepsIntact(h: Hash, events: seq<Event>, payload: Payload, longer: seq<Event>)
    requires Intact(h, events) && longer == events + [Event(payload, ChainHash(h, longer))]
    ensures Intact(h, longer)
  {
    forall k | 0 <= k < |longer| ensures longer[k].chain == ChainHash(h, longer[..k + 1]) {
      PrefixOfLonger(events, longer, k);
    }
  }

  lemma PrefixOfLonger(events: seq<Event>, longer: seq<Event>, k: nat)
    requires events <= longer && |longer| == |events| + 1 && k < |longer|
    ensures k < |events| ==> longer[k] == events[k] && longer[..k + 1] == events[..k + 1]
    ensures k == |events| ==> longer[..k + 1] == longer
  {
  }

  // ----- the chain binds the whole history -----

  /** A running hash is hex and a payload starts with a brace, so their concatenation splits in
      one way. */
  lemma ChainInputSplits(c: string, p: Payload, d: string, q: Payload)
    requires Hex(c) && Hex(d) && c + p == d + q
    ensures c == d && p == q
  {
    var s := c + p;
    assert s[|c|] == '{' && s[|d|] == '{';
    assert forall i :: 0 <= i < |c| ==> s[i] == c[i] && HexDigit(c[i]);
    assert forall i :: 0 <= i < |d| ==> s[i] == d[i] && HexDigit(d[i]);
    assert c == s[..|c|] && d == s[..|c|];
    assert p == s[|c|..] && q == s[|c|..];
  }

  lemma ChainHashIsHex(h: Hash, events: seq<Event>)
    ensures Hex(ChainHash(h, events))
    ensures ChainHash(h, events) == "" <==> events == []
  {
  }

  lemma FrontInput(h: Hash, events: seq<Event>, x: string)
    requires events != [] && IsChainInput(h, events[..|events| - 1], x)
    ensures IsChainInput(h, events, x)
  {
    var front := events[..|events| - 1];
    var k :| 0 <= k < |front| && x == ChainHash(h, front[..k]) + front[k].payload;
    assert front[..k] == events[..k];
  }

  lemma FrontInputs(h: Hash, events: seq<Event>)
    requires events != []
    ensures ChainInputs(h, events[..|events| - 1]) <= ChainInputs(h, events)
  {
    forall x | IsChainInput(h, events[..|events| - 1], x) ensures IsChainInput(h, events, x) {
      FrontInput(h, events, x);
    }
  }

  lemma CollisionCarriesOver(h: Hash, xs: iset<string>, ys: iset<string>, us: iset<string>, vs: iset<string>)
    requires Collide(h, xs, ys) && xs <= us && ys <= vs
    ensures Collide(h, us, vs)
  {
    var x, y :| x in xs && y in ys && x != y && h(x) == h(y);
    assert x in us && y in vs;
  }

  lemma LastHash(h: Hash, events: seq<Event>, front: seq<Event>, p: Payload)
    requires events != [] && front == events[..|events| - 1] && p == events[|events| - 1].payload
    ensures ChainHash(h, events) == h(ChainHash(h, front) + p)
    ensures Payloads(events) == Payloads(front) + [p]
  {
  }

  lemma LastInput(h: Hash, events: seq<Event>, front: seq<Event>, p: Payload)
    requires events != [] && front == events[..|events| - 1] && p == events[|events| - 1].payload
    ensures ChainHash(h, front) + p in ChainInputs(h, events)
  {
    assert IsChainInput(h, events, ChainHash(h, front) + p);
  }

  /** Two logs with the same chain hash carry the same events in the same order, whatever their
      lengths and whatever is recorded in their chain fields, unless two of the strings hashed for
      them collide. */
  lemma {:induction false} ChainBindsHistory(h: Hash, a: seq<Event>, b: seq<Event>)
    requires ChainHash(h, a) == ChainHash(h, b)
    ensures Payloads(a) == Payloads(b) || Collide(h, ChainInputs(h, a), ChainInputs(h, b))
  {
    ChainHashIsHex(h, a);
    ChainHashIsHex(h, b);
    if a != [] && b != [] {
      var front, other := a[..|a| - 1], b[..|b| - 1];
      var p, q := a[|a| - 1].payload, b[|b| - 1].payload;
      LastHash(h, a, front, p);
      LastHash(h, b, other, q);
      LastInput(h, a, front, p);
      LastInput(h, b, other, q);
      ChainHashIsHex(h, front);
      ChainHashIsHex(h, other);
      if ChainHash(h, front) + p == ChainHash(h, other) + q {
        ChainInputSplits(ChainHash(h, front), p, ChainHash(h, other), q);
        ChainBindsHistory(h, front, other);
        if Payloads(front) != Payloads(other) {
          FrontInputs(h, a);
          FrontInputs(h, b);
          CollisionCarriesOver(h, ChainInputs(h, front), ChainInputs(h, other), ChainInputs(h, a), ChainInputs(h, b));
        }
      }
    }
  }

  // ----- sealed prefixes -----

  /** A sealed prefix keeps verifying in any longer log whose recorded tail is its own hash,
      whatever the chain fields in between say. */
  lemma SealedPrefixSurvives(h: Hash, read: FieldReader, events: seq<Event>, longer: seq<Event>, count: int,
                             chainSha: string, stateSha: string)
    requires PrefixVerifies(h, read, events, count, chainSha, stateSha)
    requires events <= longer
    ensures PrefixVerifies(h, read, longer, count, chainSha, stateSha) <==> TailVerifies(h, longer)
  {
    assert longer[..count] == events[..count];
  }

  /** ... in particular after any number of appends. */
  lemma SealedPrefixSurvivesAppends(h: Hash, read: FieldReader, events: seq<Event>, payloads: seq<Payload>,
                                    count: int, chainSha: string, stateSha: string)
    requires PrefixVerifies(h, read, events, count, chainSha, stateSha)
    ensures PrefixVerifies(h, read, AppendedAll(h, events, payloads), count, chainSha, stateSha)
  {
    AppendedAllTail(h, events, payloads);
    SealedPrefixSurvives(h, read, events, AppendedAll(h, events, payloads), count, chainSha, stateSha);
  }

  /** ... and any log in which it verifies starts with the very events that were sealed. */
  lemma SealedPrefixIsUnique(h: Hash, read: FieldReader, events: seq<Event>, other: seq<Event>, count: int,
                             n: int, chainSha: string, stateSha: string)
    requires PrefixVerifies(h, read, events, count, chainSha, stateSha)
    requires PrefixVerifies(h, read, other, n, chainSha, stateSha)
    ensures || (n == count && Payloads(other[..n]) == Payloads(events[..count]))
            || Collide(h, ChainInputs(h, events[..count]), ChainInputs(h, other[..n]))
  {
    ChainBindsHistory(h, events[..count], other[..n]);
    if Payloads(other[..n]) == Payloads(events[..count]) {
      assert |Payloads(other[..n])| == n && |Payloads(events[..count])| == count;
    }
  }

  /** The limit of the check: a truncated intact log is itself intact and verifies, so only a
      hash kept outside the log can show that events were cut off its end. */
  lemma TruncationVerifies(h: Hash, events: seq<Event>, n: nat)
    requires Intact(h, events) && n <= |events|
    ensures Intact(h, events[..n]) && ChainVerifies(h, events[..n])
  {
    forall k | 0 <= k < n ensures events[..n][k].chain == ChainHash(h, events[..n][..k + 1]) {
      assert events[..n][..k + 1] == events[..k + 1];
    }
    RecordedIsChain(h, events[..n]);
  }

  // ----- which proofs verify -----

  /** The recorded tail is the last chain field that is not empty. */
  lemma {:induction false} RecordedIsLast(events: seq<Event>)
    ensures RecordedChain(events).None? <==> forall e :: e in events ==> e.chain == ""
    ensures RecordedChain(events).Some? ==>
              exists i :: 0 <= i < |events| && events[i].chain == RecordedChain(events).value != ""
                          && forall j :: i < j < |events| ==> events[j].chain == ""
  {
    if events != [] {
      var front := events[..|events| - 1];
      RecordedIsLast(front);
      assert events == front + [events[|events| - 1]];
      if events[|events| - 1].chain == "" && RecordedChain(front).Some? {
        var i :| 0 <= i < |front| && front[i].chain == RecordedChain(front).value != ""
                 && forall j :: i < j < |front| ==> front[j].chain == "";
        assert events[i].chain == RecordedChain(events).value;
        forall j | i < j < |events| ensures events[j].chain == "" {
          assert j < |front| ==> events[j] == front[j];
        }
      }
    }
  }

  /** In an intact log the proofs that verify are exactly those that name, for some event that is
      there, the chain field and the state digest recorded in it. */
  lemma IntactProofExactlyWhen(h: Hash, read: FieldReader, events: seq<Event>, count: int, chainSha: string,
                               stateSha: string)
    requires Intact(h, events)
    ensures PrefixVerifies(h, read, events, count, chainSha, stateSha) <==>
      && 1 <= count <= |events|
      && events[count - 1].chain == chainSha && read(events[count - 1].payload, "state_sha256") == stateSha
  {
    RecordedIsChain(h, events);
    if 1 <= count <= |events| {
      assert events[count - 1].chain == ChainHash(h, events[..count]);
    }
  }

  /** A log whose recorded tail is not its hash proves nothing, whatever is asked of it. */
  lemma ForgedLogProvesNothing(h: Hash, read: FieldReader, events: seq<Event>, count: int, chainSha: string,
                               stateSha: string)
    requires RecordedChain(events) != Some(ChainHash(h, events))
    ensures !PrefixVerifies(h, read, events, count, chainSha, stateSha)
  {
  }

  /** One event: its hash is that of its own text, and each further one hashes the hash before it. */
  lemma FirstHashes(h: Hash, first: Event, second: Event)
    ensures ChainHash(h, [first]) == h(first.payload)
    ensures ChainHash(h, [first, second]) == h(h(first.payload) + second.payload)
  {
    assert [first][..0] == [] && "" + first.payload == first.payload;
    assert [first, second][..1] == [first];
  }
}
