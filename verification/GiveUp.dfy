/** When the retry protocol gives up on a packet. A retry entry remembers a packet by its
    identifier, so whether giving up is earned depends on the identifiers of the packets that
    follow one another on a port; the main result says exactly how. */
module GiveUp {
  import opened Bytes
  import opened BinaryFrame
  import opened QueueSpec
  import opened Router
  import opened RetrySpec

  function Incompletes(trace: seq<Event>, port: nat, at: nat): nat {
    if trace == [] then 0
    else
      var last := trace[|trace| - 1];
      Incompletes(trace[..|trace| - 1], port, at) + One(last.RanIncomplete? && last.Concerns(port, at))
  }

  function SendFailures(trace: seq<Event>, port: nat, at: nat): nat {
    if trace == [] then 0
    else
      var last := trace[|trace| - 1];
      SendFailures(trace[..|trace| - 1], port, at) + One(last.SendFailed? && last.Concerns(port, at))
  }

  lemma CountsAfter(past: seq<Event>, ev: Event, port: nat, at: nat)
    ensures Incompletes(past + [ev], port, at)
      == Incompletes(past, port, at) + One(ev.RanIncomplete? && ev.Concerns(port, at))
    ensures SendFailures(past + [ev], port, at)
      == SendFailures(past, port, at) + One(ev.SendFailed? && ev.Concerns(port, at))
  {
  }

  predicate Untried(past: seq<Event>, port: nat, at: nat) {
    Incompletes(past, port, at) == 0 && SendFailures(past, port, at) == 0
  }

  predicate Exhausted(past: seq<Event>, port: nat, at: nat) {
    Incompletes(past, port, at) == 3 || SendFailures(past, port, at) == 3
  }

  /** Every giving up on the port comes after three incomplete executions or three failed
      sends of that very packet. */
  ghost predicate Earned(trace: seq<Event>, port: nat) {
    forall i :: 0 <= i < |trace| && trace[i].GaveUp? && trace[i].port == port ==>
      Exhausted(trace[..i], port, trace[i].at)
  }

  // ---- the packets that use the retry entry ----

  /** The identifier of a record that is for this node and has a routine. */
  function ServedId(c: Config, r: Record): Option<U32> {
    match Judge(c.node, r)
    case Mine(p) => if HasRoutine(c, p) then Some(p.id) else None
    case _ => None
  }

  function Ids(c: Config, records: seq<Record>): seq<U32> {
    if records == [] then []
    else
      match ServedId(c, records[0])
      case Some(id) => [id] + Ids(c, records[1..])
      case None => Ids(c, records[1..])
  }

  /** No identifier is zero, and no two that follow one another are the same. */
  ghost predicate Separated(ids: seq<U32>) {
    && (forall i :: 0 <= i < |ids| ==> ids[i] != 0)
    && (forall i :: 0 < i < |ids| ==> ids[i - 1] != ids[i])
  }

  /** Separated, also from the identifier that came before. */
  ghost predicate Follow(prev: U32, ids: seq<U32>) {
    Separated(ids) && (ids != [] ==> ids[0] != prev)
  }

  lemma FollowTail(prev: U32, ids: seq<U32>)
    requires Follow(prev, ids) && ids != []
    ensures Follow(ids[0], ids[1..])
  {
  }

  /** The records that a run adds to a port whose log ends at `end`. */
  function ArrivedOn(end: nat, actions: seq<Action>, port: nat): seq<Record>
    decreases actions
  {
    if actions == [] then []
    else
      match actions[0]
      case Arrive(to, payload, ts) =>
        if to == port && Storable(payload) then
          [Record(end, ts, payload)] + ArrivedOn(end + RequiredSize(|payload|), actions[1..], port)
        else ArrivedOn(end, actions[1..], port)
      case Run(_) => ArrivedOn(end, actions[1..], port)
  }

  /** Everything that waits on a port or will arrive there. */
  function Coming(q: PortQueue, actions: seq<Action>, port: nat): seq<Record> {
    q.records + ArrivedOn(q.end, actions, port)
  }

  // ---- separated identifiers: the retry entry tells the truth ----

  /** Not reached yet: behind the head, or still to arrive. */
  ghost predicate Ahead(q: PortQueue, at: nat) {
    at >= q.end || exists i :: 0 < i < |q.records| && q.records[i].at == at
  }

  ghost predicate AheadUntried(port: nat, q: PortQueue, past: seq<Event>) {
    forall at :: Ahead(q, at) ==> Untried(past, port, at)
  }

  function HeadId(c: Config, q: PortQueue): Option<U32> {
    if q.records == [] then None else ServedId(c, q.records[0])
  }

  /** If the entry names the head, its counters are what the head's attempts have left. */
  ghost predicate Counted(c: Config, port: nat, q: PortQueue, e: RetryEntry, past: seq<Event>) {
    HeadId(c, q).Some? ==>
      if e.id == HeadId(c, q).value then
        && e.processingLeft == MAX_RETRIES - Incompletes(past, port, q.records[0].at)
        && e.sendingLeft == MAX_RETRIES - SendFailures(past, port, q.records[0].at)
      else Untried(past, port, q.records[0].at)
  }

  /** The entry belongs to the head or to the last packet served before it, and tells the
      truth about the past. */
  ghost predicate Honest(c: Config, port: nat, q: PortQueue, e: RetryEntry, past: seq<Event>, prev: U32) {
    && Chained(q) && AheadUntried(port, q, past) && Counted(c, port, q, e, past)
    && (e.id == 0 || e.id == prev || HeadId(c, q) == Some(e.id))
  }

  /** An attempt at a packet: the events that the counters count. */
  predicate Attempted(ev: Event, port: nat, at: nat) {
    ev.Concerns(port, at) && (ev.RanIncomplete? || ev.SendFailed?)
  }

  lemma StaysUntried(port: nat, q: PortQueue, q': PortQueue, past: seq<Event>, ev: Event)
    requires AheadUntried(port, q, past)
    requires forall at :: Ahead(q', at) ==> Ahead(q, at)
    requires forall at :: Attempted(ev, port, at) ==> !Ahead(q, at)
    ensures AheadUntried(port, q', past + [ev])
  {
    forall at | Ahead(q', at) ensures Untried(past + [ev], port, at) {
      CountsAfter(past, ev, port, at);
    }
  }

  lemma HeadNotAhead(q: PortQueue)
    requires Chained(q) && q.records != []
    ensures !Ahead(q, q.records[0].at)
  {
  }

  /** What waits behind the head is not ahead any more once the head has gone. */
  lemma DropUntried(port: nat, q: PortQueue, past: seq<Event>, ev: Event)
    requires Chained(q) && q.records != [] && AheadUntried(port, q, past)
    requires forall at :: Attempted(ev, port, at) ==> !Ahead(q, at)
    ensures AheadUntried(port, DropHead(q), past + [ev])
    ensures |q.records| > 1 ==> Untried(past + [ev], port, q.records[1].at)
  {
    var q' := DropHead(q);
    assert forall i :: 0 <= i < |q'.records| ==> q'.records[i] == q.records[i + 1];
    assert forall at :: Ahead(q', at) ==> Ahead(q, at);
    StaysUntried(port, q, q', past, ev);
    if |q.records| > 1 {
      assert Ahead(q, q.records[1].at);
      CountsAfter(past, ev, port, q.records[1].at);
    }
  }

  /** The last identifier served once the head has gone. */
  function Last(c: Config, q: PortQueue, prev: U32): U32 {
    if HeadId(c, q).Some? then HeadId(c, q).value else prev
  }

  /** Removing the head leaves the entry honest about the next one. */
  lemma DropStaysHonest(c: Config, port: nat, q: PortQueue, e: RetryEntry, e': RetryEntry, past: seq<Event>,
      prev: U32, later: seq<Record>, ev: Event)
    requires Honest(c, port, q, e, past, prev) && q.records != [] && Follow(prev, Ids(c, q.records + later))
    requires (e' == e && (HeadId(c, q).Some? ==> e.id == HeadId(c, q).value)) || e' == NO_ENTRY
    requires forall at :: !Attempted(ev, port, at)
    ensures Honest(c, port, DropHead(q), e', past + [ev], Last(c, q, prev))
    ensures Follow(Last(c, q, prev), Ids(c, DropHead(q).records + later))
  {
    var q' := DropHead(q);
    DropUntried(port, q, past, ev);
    assert (q.records + later)[1..] == q'.records + later;
    if HeadId(c, q).Some? {
      FollowTail(prev, Ids(c, q.records + later));
    }
    if HeadId(c, q').Some? {
      assert Ids(c, q'.records + later)[0] == HeadId(c, q').value;
    }
    assert forall i :: 0 <= i < |q'.records| ==> q'.records[i] == q.records[i + 1];
  }

  /** Treating the head without removing it keeps its counters right. */
  lemma AttemptStaysHonest(c: Config, port: nat, q: PortQueue, e: RetryEntry, env: Env, past: seq<Event>, prev: U32)
    requires Honest(c, port, q, e, past, prev) && HeadPacket(c, q).Some?
    requires !Treat(c, HeadPacket(c, q).value, port, q.records[0].at, e, env).remove
    ensures var t := Treat(c, HeadPacket(c, q).value, port, q.records[0].at, e, env);
      Honest(c, port, q.(peeked := true), t.entry, past + [t.event], prev)
  {
    var head := q.records[0].at;
    var t := Treat(c, HeadPacket(c, q).value, port, head, e, env);
    var q' := q.(peeked := true);
    assert forall at :: Ahead(q', at) ==> Ahead(q, at);
    HeadNotAhead(q);
    StaysUntried(port, q, q', past, t.event);
    CountsAfter(past, t.event, port, head);
  }

  lemma TreatStaysHonest(c: Config, port: nat, q: PortQueue, e: RetryEntry, env: Env, past: seq<Event>,
      prev: U32, later: seq<Record>)
    requires Honest(c, port, q, e, past, prev) && HeadPacket(c, q).Some? && Follow(prev, Ids(c, q.records + later))
    ensures var t := Treat(c, HeadPacket(c, q).value, port, q.records[0].at, e, env);
      var q' := if t.remove then DropHead(q) else q.(peeked := true);
      var prev' := if t.remove then Last(c, q, prev) else prev;
      && Honest(c, port, q', t.entry, past + [t.event], prev') && Follow(prev', Ids(c, q'.records + later))
      && (t.event.GaveUp? ==> Exhausted(past, port, q.records[0].at))
  {
    var t := Treat(c, HeadPacket(c, q).value, port, q.records[0].at, e, env);
    if t.remove {
      DropStaysHonest(c, port, q, e, t.entry, past, prev, later, t.event);
    } else {
      AttemptStaysHonest(c, port, q, e, env, past, prev);
    }
    if t.event.GaveUp? {
      assert Ids(c, q.records + later)[0] == HeadId(c, q).value;
    }
  }

  lemma ArrivalStaysHonest(c: Config, port: nat, q: PortQueue, e: RetryEntry, payload: Payload, ts: U32,
      past: seq<Event>, prev: U32)
    requires Honest(c, port, q, e, past, prev) && Storable(payload)
    requires q.records == [] && HeadId(c, PushOn(q, payload, ts)).Some? ==>
      e.id != HeadId(c, PushOn(q, payload, ts)).value
    ensures Honest(c, port, PushOn(q, payload, ts), e, past, prev)
  {
    var q' := PushOn(q, payload, ts);
    assert forall i :: 0 <= i < |q.records| ==> q'.records[i] == q.records[i];
    assert forall at :: Ahead(q', at) ==> Ahead(q, at);
    if q.records == [] {
      assert Ahead(q, q.end);
    }
  }

  /** Events that are no attempt at this port's packets change nothing that is counted. */
  lemma IdleStaysHonest(c: Config, port: nat, q: PortQueue, e: RetryEntry, past: seq<Event>, prev: U32, ev: Event)
    requires Honest(c, port, q, e, past, prev) && Elsewhere(ev, port)
    ensures Honest(c, port, q, e, past + [ev], prev)
  {
    StaysUntried(port, q, q, past, ev);
    if q.records != [] {
      CountsAfter(past, ev, port, q.records[0].at);
    }
  }

  /** Honest so far, and separated in everything that is still to come. */
  ghost predicate OnTrack(c: Config, port: nat, q: PortQueue, e: RetryEntry, actions: seq<Action>, past: seq<Event>,
      prev: U32)
  {
    Honest(c, port, q, e, past, prev) && Follow(prev, Ids(c, Coming(q, actions, port)))
  }

  /** What arrives was still to come before it arrived. */
  lemma ArrivalWasComing(q: PortQueue, q': PortQueue, actions: seq<Action>, port: nat)
    requires actions != [] && actions[0].Arrive?
    requires q' == if actions[0].port == port && Storable(actions[0].payload)
                   then PushOn(q, actions[0].payload, actions[0].ts) else q
    ensures Coming(q', actions[1..], port) == Coming(q, actions, port)
  {
  }

  /** A packet that arrives at an empty port does not carry the entry's identifier. */
  lemma ArrivalIsNew(c: Config, port: nat, q: PortQueue, e: RetryEntry, actions: seq<Action>, past: seq<Event>,
      prev: U32, q': PortQueue)
    requires OnTrack(c, port, q, e, actions, past, prev) && q.records == []
    requires actions != [] && q'.records != [] && Coming(q', actions[1..], port) == Coming(q, actions, port)
    ensures HeadId(c, q').Some? ==> e.id != HeadId(c, q').value
  {
    assert Coming(q, actions, port)[0] == q'.records[0];
    assert HeadId(c, q').Some? ==> Ids(c, Coming(q, actions, port))[0] == HeadId(c, q').value;
  }

  lemma ArrivalStaysOnTrack(c: Config, port: nat, q: PortQueue, e: RetryEntry, q': PortQueue, actions: seq<Action>,
      past: seq<Event>, prev: U32)
    requires OnTrack(c, port, q, e, actions, past, prev) && actions != [] && actions[0].Arrive?
    requires PortAct(c, actions[0], port, q, e, q', e, Idle)
    ensures OnTrack(c, port, q', e, actions[1..], past + [Idle], prev)
  {
    var a := actions[0];
    ArrivalWasComing(q, q', actions, port);
    if a.port == port && Storable(a.payload) {
      if q.records == [] {
        ArrivalIsNew(c, port, q, e, actions, past, prev, q');
      }
      ArrivalStaysHonest(c, port, q, e, a.payload, a.ts, past, prev);
    }
    IdleStaysHonest(c, port, q', e, past, prev, Idle);
  }

  lemma CycleStaysOnTrack(c: Config, port: nat, q: PortQueue, e: RetryEntry, t: Turn, actions: seq<Action>,
      past: seq<Event>, prev: U32) returns (prev': U32)
    requires OnTrack(c, port, q, e, actions, past, prev) && actions != [] && actions[0].Run?
    requires PortCycle(c, actions[0].env, port, q, e, t.queue, t.entry, t.event)
    ensures OnTrack(c, port, t.queue, t.entry, actions[1..], past + [t.event], prev')
    ensures t.event.GaveUp? && t.event.port == port ==> Exhausted(past, port, t.event.at)
  {
    var later := ArrivedOn(q.end, actions, port);
    prev' := prev;
    if t.queue == q && t.entry == e && Elsewhere(t.event, port) {
      IdleStaysHonest(c, port, q, e, past, prev, t.event);
    } else if HeadPacket(c, q).Some? {
      TreatStaysHonest(c, port, q, e, actions[0].env, past, prev, later);
      if Treat(c, HeadPacket(c, q).value, port, q.records[0].at, e, actions[0].env).remove {
        prev' := Last(c, q, prev);
      }
    } else {
      DropStaysHonest(c, port, q, e, e, past, prev, later, t.event);
    }
  }

  /** One turn keeps the entry honest, and gives up only what has earned it. */
  lemma TurnStaysOnTrack(c: Config, port: nat, q: PortQueue, e: RetryEntry, turns: seq<Turn>, past: seq<Event>,
      prev: U32) returns (prev': U32)
    requires turns != [] && PortRun(c, port, q, e, turns) && OnTrack(c, port, q, e, Actions(turns), past, prev)
    ensures var t := turns[0];
      && OnTrack(c, port, t.queue, t.entry, Actions(turns[1..]), past + [t.event], prev')
      && (t.event.GaveUp? && t.event.port == port ==> Exhausted(past, port, t.event.at))
  {
    var t := turns[0];
    assert Actions(turns)[1..] == Actions(turns[1..]);
    prev' := prev;
    match t.action
    case Arrive(_, _, _) =>
      ArrivalStaysOnTrack(c, port, q, e, t.queue, Actions(turns), past, prev);
    case Run(_) =>
      prev' := CycleStaysOnTrack(c, port, q, e, t, Actions(turns), past, prev);
  }

  lemma Splice(past: seq<Event>, ev: Event, rest: seq<Event>, i: nat)
    requires 0 < i <= |rest| + 1
    ensures past + ([ev] + rest)[..i] == past + [ev] + rest[..i - 1]
  {
  }

  lemma {:induction false} EarnedAt(c: Config, port: nat, q: PortQueue, e: RetryEntry, turns: seq<Turn>,
      past: seq<Event>, prev: U32, i: nat)
    requires PortRun(c, port, q, e, turns) && OnTrack(c, port, q, e, Actions(turns), past, prev)
    requires i < |turns| && Events(turns)[i].GaveUp? && Events(turns)[i].port == port
    ensures var tr := Events(turns); Exhausted(past + tr[..i], port, tr[i].at)
    decreases turns
  {
    var t, tr := turns[0], Events(turns);
    assert tr == [t.event] + Events(turns[1..]);
    var prev' := TurnStaysOnTrack(c, port, q, e, turns, past, prev);
    if i == 0 {
      assert past + tr[..i] == past;
    } else {
      EarnedAt(c, port, t.queue, t.entry, turns[1..], past + [t.event], prev', i - 1);
      Splice(past, t.event, Events(turns[1..]), i);
    }
  }

  /** In every run of a port that starts with a clear entry, whatever arrives and whether or not
      the card answers: if the packets that are for this node and have a routine carry separated
      identifiers, giving up on them is earned. Every other removal is a sent answer, a routine
      without output, or the lack of a routine. */
  lemma PortGiveUpIsEarned(c: Config, port: nat, q: PortQueue, turns: seq<Turn>)
    requires Chained(q) && PortRun(c, port, q, NO_ENTRY, turns)
    requires Separated(Ids(c, Coming(q, Actions(turns), port)))
    ensures Earned(Events(turns), port)
  {
    if HeadId(c, q).Some? {
      assert Ids(c, Coming(q, Actions(turns), port))[0] == HeadId(c, q).value;
    }
    assert OnTrack(c, port, q, NO_ENTRY, Actions(turns), [], 0);
    var tr := Events(turns);
    forall i | 0 <= i < |tr| && tr[i].GaveUp? && tr[i].port == port
      ensures Exhausted(tr[..i], port, tr[i].at)
    {
      EarnedAt(c, port, q, NO_ENTRY, turns, [], 0, i);
      assert [] + tr[..i] == tr[..i];
    }
  }

  /** The same for the runs of a node. */
  lemma GiveUpIsEarned(c: Config, s: State, actions: seq<Action>, port: nat)
    requires IsPort(port) && WellFormed(s) && Distinct(c.node.ports) && s.retry[port] == NO_ENTRY
    requires Separated(Ids(c, Coming(s.queues[port], actions, port)))
    ensures Earned(Trace(c, s, actions), port)
  {
    NodeRunIsPortRun(c, s, actions, port);
    PortGiveUpIsEarned(c, port, s.queues[port], TurnsOf(c, s, actions, port));
  }
}
