/** The bounded retry protocol over the packet queue, as a state machine: packets arrive at
    any time, and each cycle lets the node deal with at most one delivered packet. The
    lemmas bound what any run can do to any packet. */
module RetrySpec {
  import opened Bytes
  import opened BinaryFrame
  import opened QueueSpec
  import opened Router

  const MAX_RETRIES := 3

  /** Attempt counters; the type itself rules out underflow. */
  type Attempts = n: int | 0 <= n <= MAX_RETRIES

  datatype RetryEntry = RetryEntry(id: U32, processingLeft: Attempts, sendingLeft: Attempts)

  const NO_ENTRY := RetryEntry(0, 0, 0)

  type RetryTable = t: seq<RetryEntry> | |t| == MAX_PORT + 1
    witness [NO_ENTRY, NO_ENTRY, NO_ENTRY, NO_ENTRY, NO_ENTRY]

  /** What running a routine gives: not ready, an error, or success with or without a packet. */
  datatype RoutineResult = Incomplete | Failure | Success(output: Option<Packet>)

  datatype State = State(queues: Ports, retry: RetryTable)

  /** What a cycle does not control: the routine's result and whether the port sends. */
  datatype Env = Env(result: RoutineResult, sendOk: bool)

  /** A node with its routine table: body tag, then payload tag, to a routine. */
  datatype Config = Config(node: Node, routines: map<Byte, map<Byte, nat>>)

  predicate HasRoutine(c: Config, p: Packet) {
    p.bodyTag in c.routines && p.payloadTag in c.routines[p.bodyTag]
  }

  /** What a cycle did with the packet it was given; each names the port and the record. */
  datatype Event =
    | Idle
    | NoRoutine(port: nat, at: nat, sent: bool)
    | Armed(port: nat, at: nat)
    | GaveUp(port: nat, at: nat)
    | RanIncomplete(port: nat, at: nat)
    | NoOutput(port: nat, at: nat)
    | SendFailed(port: nat, at: nat)
    | Answered(port: nat, at: nat)
  {
    predicate Concerns(p: nat, a: nat) { !Idle? && port == p && at == a }
    predicate Executed() { RanIncomplete? || NoOutput? || SendFailed? || Answered? }
    predicate Removes() { NoRoutine? || GaveUp? || NoOutput? || Answered? }
    predicate Responded() { Answered? || (NoRoutine? && sent) }
  }

  /** The runner's treatment of a delivered packet, given the port's retry entry. */
  datatype Treatment = Treatment(entry: RetryEntry, remove: bool, event: Event)

  function Treat(c: Config, p: Packet, port: nat, at: nat, e: RetryEntry, env: Env): Treatment {
    if !HasRoutine(c, p) then Treatment(e, true, NoRoutine(port, at, env.sendOk))
    else if e.id != p.id then Treatment(RetryEntry(p.id, MAX_RETRIES, MAX_RETRIES), false, Armed(port, at))
    else if e.processingLeft == 0 || e.sendingLeft == 0 then Treatment(NO_ENTRY, true, GaveUp(port, at))
    else if env.result.Incomplete? then
      Treatment(e.(processingLeft := e.processingLeft - 1), false, RanIncomplete(port, at))
    else if env.result == Success(None) then Treatment(e, true, NoOutput(port, at))
    else if env.sendOk then Treatment(NO_ENTRY, true, Answered(port, at))
    else Treatment(e.(sendingLeft := e.sendingLeft - 1), false, SendFailed(port, at))
  }

  /** A packet with attempts left is executed, and then: not finished, it stays with one execution
      less; finished without output, it goes; otherwise it goes as answered exactly when its answer
      was sent, also when the answer is an error, and stays with one sending less when not. */
  lemma ExecutedMeans(c: Config, p: Packet, port: nat, at: nat, e: RetryEntry, env: Env)
    requires HasRoutine(c, p) && e.id == p.id && e.processingLeft > 0 && e.sendingLeft > 0
    ensures var t := Treat(c, p, port, at, e, env);
      match env.result
      case Incomplete =>
        t == Treatment(RetryEntry(p.id, e.processingLeft - 1, e.sendingLeft), false, RanIncomplete(port, at))
      case Success(None) => t.remove && t.event == NoOutput(port, at)
      case _ =>
        t == if env.sendOk then Treatment(RetryEntry(0, 0, 0), true, Answered(port, at))
             else Treatment(RetryEntry(p.id, e.processingLeft, e.sendingLeft - 1), false, SendFailed(port, at))
  {
  }

  /** A packet that is not executed: without a routine it goes, and the entry stays; if the entry
      names another one it stays and gets three attempts of each kind; with none left it goes and
      the entry is cleared. */
  lemma NotExecutedMeans(c: Config, p: Packet, port: nat, at: nat, e: RetryEntry, env: Env)
    requires !HasRoutine(c, p) || e.id != p.id || e.processingLeft == 0 || e.sendingLeft == 0
    ensures var t := Treat(c, p, port, at, e, env);
      t == if !(p.bodyTag in c.routines && p.payloadTag in c.routines[p.bodyTag]) then
             Treatment(e, true, NoRoutine(port, at, env.sendOk))
           else if e.id != p.id then Treatment(RetryEntry(p.id, 3, 3), false, Armed(port, at))
           else Treatment(RetryEntry(0, 0, 0), true, GaveUp(port, at))
  {
  }

  /** What follows a dispatch: the treatment of the delivered packet if there is one. */
  function Settle(c: Config, retry: RetryTable, env: Env, v: Visit): (State, Event) {
    if v.delivery.Nothing? || !IsPort(v.delivery.port) || v.queues[v.delivery.port].records == [] then
      (State(v.queues, retry), Idle)
    else
      var port := v.delivery.port;
      var t := Treat(c, v.delivery.packet, port, v.queues[port].records[0].at, retry[port], env);
      (State(if t.remove then Step(v.queues, Skip(port)) else v.queues, retry[port := t.entry]), t.event)
  }

  /** One cycle: dispatch, then the treatment. */
  function Cycle(c: Config, s: State, env: Env): (State, Event) {
    Settle(c, s.retry, env, VisitPorts(c.node, s.queues, c.node.ports))
  }

  datatype Action = Arrive(port: nat, payload: Payload, ts: U32) | Run(env: Env)

  function Take(c: Config, s: State, a: Action): (State, Event) {
    match a
    case Arrive(port, payload, ts) => (s.(queues := Step(s.queues, Push(port, payload, ts, true))), Idle)
    case Run(env) => Cycle(c, s, env)
  }

  function Execute(c: Config, s: State, actions: seq<Action>): State
    decreases actions
  {
    if actions == [] then s else Execute(c, Take(c, s, actions[0]).0, actions[1..])
  }

  function Trace(c: Config, s: State, actions: seq<Action>): (trace: seq<Event>)
    ensures |trace| == |actions|
    decreases actions
  {
    if actions == [] then [] else [Take(c, s, actions[0]).1] + Trace(c, Take(c, s, actions[0]).0, actions[1..])
  }

  // ---- one port at a time ----

  /** Records follow one another in the log, all storable, and end where the port ends. */
  ghost predicate Chained(q: PortQueue) {
    && (forall i :: 0 <= i < |q.records| ==> Storable(q.records[i].payload))
    && (forall i, j :: 0 <= i < j < |q.records| ==> q.records[i].at < q.records[j].at)
    && (forall i :: 0 <= i < |q.records| ==> q.records[i].at < q.end)
  }

  ghost predicate WellFormed(s: State) {
    forall p :: IsPort(p) ==> Chained(s.queues[p])
  }

  function HeadPacket(c: Config, q: PortQueue): Option<Packet> {
    if q.records != [] && Judge(c.node, q.records[0]).Mine? then Some(Judge(c.node, q.records[0]).packet) else None
  }

  predicate Elsewhere(ev: Event, port: nat) { ev.Idle? || ev.port != port }

  /** Everything one cycle may do to one port: leave it, discard a head that is not for this
      node, or treat its head. */
  ghost predicate PortCycle(c: Config, env: Env, port: nat, q: PortQueue, e: RetryEntry,
      q': PortQueue, e': RetryEntry, ev: Event)
  {
    || (q' == q && e' == e && Elsewhere(ev, port))
    || (q.records != [] && HeadPacket(c, q) == None && q' == DropHead(q) && e' == e && Elsewhere(ev, port))
    || (HeadPacket(c, q).Some?
        && var t := Treat(c, HeadPacket(c, q).value, port, q.records[0].at, e, env);
           ev == t.event && e' == t.entry && q' == if t.remove then DropHead(q) else q.(peeked := true))
  }

  /** Why a packet goes, in any turn of any run: it was answered and the answer was sent; its
      routine succeeded without output; no routine is for it; or the entry that names it has
      nothing left. */
  lemma RemovalExplained(c: Config, env: Env, port: nat, q: PortQueue, e: RetryEntry,
      q': PortQueue, e': RetryEntry, ev: Event)
    requires PortCycle(c, env, port, q, e, q', e', ev) && !Elsewhere(ev, port)
    ensures HeadPacket(c, q).Some? && q.records != [] && ev.at == q.records[0].at
    ensures var p := HeadPacket(c, q).value;
      var gone := q'.records != q.records;
      && (gone ==> q'.records == q.records[1..])
      && (gone <==>
            || (ev.Answered? && env.sendOk && !env.result.Incomplete? && env.result != Success(None))
            || (ev.NoOutput? && env.result == Success(None))
            || (ev.NoRoutine? && !(p.bodyTag in c.routines && p.payloadTag in c.routines[p.bodyTag]))
            || (ev.GaveUp? && e.id == p.id && (e.processingLeft == 0 || e.sendingLeft == 0)))
  {
  }

  /** Everything one action may do to one port. */
  ghost predicate PortAct(c: Config, a: Action, port: nat, q: PortQueue, e: RetryEntry,
      q': PortQueue, e': RetryEntry, ev: Event)
  {
    match a
    case Run(env) => PortCycle(c, env, port, q, e, q', e', ev)
    case Arrive(to, payload, ts) =>
      ev.Idle? && e' == e && q' == if to == port && Storable(payload) then PushOn(q, payload, ts) else q
  }

  lemma ChainedIsStorable(s: State)
    requires WellFormed(s)
    ensures AllStorable(s.queues)
  {
  }

  lemma SkipPeeked(s: Ports, port: nat, q: PortQueue)
    requires IsPort(port) && s[port] == q.(peeked := true) && q.records != []
    ensures Step(s, Skip(port)) == s[port := DropHead(q)]
  {
  }

  /** What dispatch hands over when some head is for this node. */
  lemma DispatchDelivers(c: Config, s: State)
    requires WellFormed(s) && Distinct(c.node.ports)
    requires FirstMine(c.node, s.queues, c.node.ports) < |c.node.ports|
    ensures var v := VisitPorts(c.node, s.queues, c.node.ports);
      var p := c.node.ports[FirstMine(c.node, s.queues, c.node.ports)];
      && IsPort(p) && HeadPacket(c, s.queues[p]).Some?
      && v.delivery == Deliver(p, HeadPacket(c, s.queues[p]).value) && v.queues[p] == s.queues[p].(peeked := true)
  {
    ChainedIsStorable(s);
    VisitPortsDispatches(c.node, s.queues, c.node.ports);
  }

  /** The port whose packet a cycle treats; the others are as dispatch left them. */
  lemma CycleAtDelivery(c: Config, s: State, env: Env)
    requires WellFormed(s) && Distinct(c.node.ports)
    requires FirstMine(c.node, s.queues, c.node.ports) < |c.node.ports|
    ensures var (s', ev) := Cycle(c, s, env);
      var p := c.node.ports[FirstMine(c.node, s.queues, c.node.ports)];
      var queues := VisitPorts(c.node, s.queues, c.node.ports).queues;
      && IsPort(p) && !Elsewhere(ev, p)
      && PortCycle(c, env, p, s.queues[p], s.retry[p], s'.queues[p], s'.retry[p], ev)
      && forall k :: IsPort(k) && k != p ==> Elsewhere(ev, k) && s'.retry[k] == s.retry[k] && s'.queues[k] == queues[k]
  {
    DispatchDelivers(c, s);
    var ports := c.node.ports;
    var p := ports[FirstMine(c.node, s.queues, ports)];
    var v := VisitPorts(c.node, s.queues, ports);
    var q := s.queues[p];
    SkipPeeked(v.queues, p, q);
    var t := Treat(c, HeadPacket(c, q).value, p, q.records[0].at, s.retry[p], env);
    assert Cycle(c, s, env)
      == (State(if t.remove then v.queues[p := DropHead(q)] else v.queues, s.retry[p := t.entry]), t.event);
  }

  /** A port that dispatch passed by. */
  lemma CyclePassesBy(c: Config, s: State, env: Env, p: nat)
    requires WellFormed(s) && Distinct(c.node.ports) && IsPort(p)
    requires var v := VisitPorts(c.node, s.queues, c.node.ports);
      var (s', ev) := Cycle(c, s, env);
      s'.queues[p] == v.queues[p] && s'.retry[p] == s.retry[p] && Elsewhere(ev, p)
    requires forall i :: 0 <= i < |c.node.ports| && i == FirstMine(c.node, s.queues, c.node.ports) ==>
      c.node.ports[i] != p
    ensures var (s', ev) := Cycle(c, s, env);
      PortCycle(c, env, p, s.queues[p], s.retry[p], s'.queues[p], s'.retry[p], ev)
  {
    ChainedIsStorable(s);
    var ports := c.node.ports;
    VisitPortsDispatches(c.node, s.queues, ports);
    var n := FirstMine(c.node, s.queues, ports);
    var v := VisitPorts(c.node, s.queues, ports);
    if i :| 0 <= i < n && ports[i] == p {
      assert v.queues[ports[i]] == DropHead(s.queues[ports[i]]);
      NoneBeforeFirst(c.node, s.queues, ports, i);
    } else {
      assert v.queues[p] == s.queues[p];
    }
  }

  /** A cycle acts on each port in one of the three ways. */
  lemma CycleByPort(c: Config, s: State, env: Env)
    requires WellFormed(s) && Distinct(c.node.ports)
    ensures var (s', ev) := Cycle(c, s, env);
      forall p :: IsPort(p) ==> PortCycle(c, env, p, s.queues[p], s.retry[p], s'.queues[p], s'.retry[p], ev)
  {
    var n := FirstMine(c.node, s.queues, c.node.ports);
    if n < |c.node.ports| {
      CycleAtDelivery(c, s, env);
    } else {
      ChainedIsStorable(s);
      VisitPortsDispatches(c.node, s.queues, c.node.ports);
    }
    var (s', ev) := Cycle(c, s, env);
    forall p | IsPort(p)
      ensures PortCycle(c, env, p, s.queues[p], s.retry[p], s'.queues[p], s'.retry[p], ev)
    {
      if n == |c.node.ports| || c.node.ports[n] != p {
        CyclePassesBy(c, s, env, p);
      }
    }
  }

  lemma ActByPort(c: Config, s: State, a: Action)
    requires WellFormed(s) && Distinct(c.node.ports)
    ensures var (s', ev) := Take(c, s, a);
      forall p :: IsPort(p) ==> PortAct(c, a, p, s.queues[p], s.retry[p], s'.queues[p], s'.retry[p], ev)
  {
    if a.Run? {
      CycleByPort(c, s, a.env);
    }
  }

  lemma DropKeepsChain(q: PortQueue)
    requires Chained(q)
    ensures Chained(DropHead(q))
  {
    if q.records != [] {
      assert forall i :: 0 <= i < |q.records| - 1 ==> DropHead(q).records[i] == q.records[i + 1];
    }
  }

  lemma PushKeepsChain(q: PortQueue, payload: Payload, ts: U32)
    requires Chained(q) && Storable(payload)
    ensures Chained(PushOn(q, payload, ts))
  {
  }

  lemma PortActKeepsChain(c: Config, a: Action, port: nat, q: PortQueue, e: RetryEntry,
      q': PortQueue, e': RetryEntry, ev: Event)
    requires Chained(q) && PortAct(c, a, port, q, e, q', e', ev)
    ensures Chained(q')
  {
    match a
    case Arrive(to, payload, ts) =>
      if to == port && Storable(payload) {
        PushKeepsChain(q, payload, ts);
      }
    case Run(_) =>
      DropKeepsChain(q);
  }

  lemma ActKeepsWellFormed(c: Config, s: State, a: Action)
    requires WellFormed(s) && Distinct(c.node.ports)
    ensures WellFormed(Take(c, s, a).0)
  {
    ActByPort(c, s, a);
    var (s', ev) := Take(c, s, a);
    forall p | IsPort(p) ensures Chained(s'.queues[p]) {
      PortActKeepsChain(c, a, p, s.queues[p], s.retry[p], s'.queues[p], s'.retry[p], ev);
    }
  }

  // ---- how much attention a packet can still get ----

  /** How many more deliveries the head of a port can cause: 7 unarmed, 1 once out of attempts. */
  function Stage(c: Config, q: PortQueue, e: RetryEntry): (n: nat)
    ensures 1 <= n <= 7
  {
    var p := HeadPacket(c, q);
    if p == None || !HasRoutine(c, p.value) || e.id != p.value.id then 7
    else if e.processingLeft == 0 || e.sendingLeft == 0 then 1
    else e.processingLeft + e.sendingLeft
  }

  /** How many more deliveries the record at an offset can cause. */
  ghost function Budget(c: Config, q: PortQueue, e: RetryEntry, at: nat): nat {
    if q.records != [] && q.records[0].at == at then Stage(c, q, e)
    else if at >= q.end || exists i :: 0 < i < |q.records| && q.records[i].at == at then 7
    else 0
  }

  function ExecutionsLeft(budget: nat): nat {
    if budget == 0 then 0 else Min(5, budget - 1)
  }

  function One(b: bool): nat { if b then 1 else 0 }

  ghost predicate Shrinks(b: nat, b': nat, about: bool, ev: Event) {
    && b' + One(about) <= b <= 7
    && ExecutionsLeft(b') + One(about && ev.Executed()) <= ExecutionsLeft(b)
    && (about && ev.Removes() ==> b' == 0)
  }

  lemma TreatShrinks(c: Config, port: nat, q: PortQueue, e: RetryEntry, env: Env, at: nat)
    requires Chained(q) && HeadPacket(c, q).Some?
    ensures var t := Treat(c, HeadPacket(c, q).value, port, q.records[0].at, e, env);
      var q' := if t.remove then DropHead(q) else q.(peeked := true);
      Shrinks(Budget(c, q, e, at), Budget(c, q', t.entry, at), t.event.Concerns(port, at), t.event)
  {
    var t := Treat(c, HeadPacket(c, q).value, port, q.records[0].at, e, env);
    if t.remove {
      DropBudget(c, q, e, DropHead(q), t.entry, at);
    } else if q.records[0].at == at {
      assert Budget(c, q.(peeked := true), t.entry, at) == Stage(c, q.(peeked := true), t.entry);
    }
  }

  /** Every event about a record uses up some of its budget, and its removal all of it. */
  lemma BudgetShrinks(c: Config, a: Action, port: nat, q: PortQueue, e: RetryEntry,
      q': PortQueue, e': RetryEntry, ev: Event, at: nat)
    requires Chained(q) && PortAct(c, a, port, q, e, q', e', ev)
    ensures Shrinks(Budget(c, q, e, at), Budget(c, q', e', at), ev.Concerns(port, at), ev)
  {
    match a
    case Arrive(_, _, _) =>
      assert forall i :: 0 <= i < |q.records| ==> q'.records[i] == q.records[i];
    case Run(env) =>
      if HeadPacket(c, q).Some? {
        TreatShrinks(c, port, q, e, env, at);
      } else if q' != q {
        DropBudget(c, q, e, q', e', at);
      }
  }

  lemma DropBudget(c: Config, q: PortQueue, e: RetryEntry, q': PortQueue, e': RetryEntry, at: nat)
    requires Chained(q) && q.records != [] && q' == DropHead(q)
    ensures at == q.records[0].at ==> Budget(c, q', e', at) == 0
    ensures at != q.records[0].at ==> Budget(c, q', e', at) <= Budget(c, q, e, at)
  {
  }

  function Deliveries(trace: seq<Event>, port: nat, at: nat): nat {
    if trace == [] then 0 else One(trace[0].Concerns(port, at)) + Deliveries(trace[1..], port, at)
  }

  function Executions(trace: seq<Event>, port: nat, at: nat): nat {
    if trace == [] then 0
    else One(trace[0].Concerns(port, at) && trace[0].Executed()) + Executions(trace[1..], port, at)
  }

  function Removals(trace: seq<Event>, port: nat, at: nat): nat {
    if trace == [] then 0 else One(trace[0].Concerns(port, at) && trace[0].Removes()) + Removals(trace[1..], port, at)
  }

  // ---- runs of one port ----

  /** One action, and what it has left a port with. */
  datatype Turn = Turn(action: Action, queue: PortQueue, entry: RetryEntry, event: Event)

  /** A run as one port sees it: in every turn the action did no more than it may. That is all
      the results below need; it holds on every card, also on one whose reads fail. */
  ghost predicate PortRun(c: Config, port: nat, q: PortQueue, e: RetryEntry, turns: seq<Turn>)
    decreases turns
  {
    turns == []
    || (&& PortAct(c, turns[0].action, port, q, e, turns[0].queue, turns[0].entry, turns[0].event)
        && PortRun(c, port, turns[0].queue, turns[0].entry, turns[1..]))
  }

  function Actions(turns: seq<Turn>): seq<Action> {
    if turns == [] then [] else [turns[0].action] + Actions(turns[1..])
  }

  function Events(turns: seq<Turn>): (trace: seq<Event>)
    ensures |trace| == |turns|
  {
    if turns == [] then [] else [turns[0].event] + Events(turns[1..])
  }

  lemma {:induction false} RunWithinBudget(c: Config, port: nat, q: PortQueue, e: RetryEntry, turns: seq<Turn>, at: nat)
    requires Chained(q) && PortRun(c, port, q, e, turns)
    ensures var tr, b := Events(turns), Budget(c, q, e, at);
      && Deliveries(tr, port, at) <= b
      && Executions(tr, port, at) <= ExecutionsLeft(b)
      && Removals(tr, port, at) <= One(b > 0)
    decreases turns
  {
    if turns == [] {
    } else {
      var t := turns[0];
      PortActKeepsChain(c, t.action, port, q, e, t.queue, t.entry, t.event);
      BudgetShrinks(c, t.action, port, q, e, t.queue, t.entry, t.event, at);
      RunWithinBudget(c, port, t.queue, t.entry, turns[1..], at);
    }
  }

  lemma AnyBudgetAtMostSeven(c: Config, q: PortQueue, e: RetryEntry, at: nat)
    ensures Budget(c, q, e, at) <= 7
  {
  }

  /** Whatever arrives, whatever the routines, the ports and the card do: no packet is delivered
      more than 7 times, executed more than 5 times, or removed twice. */
  lemma PortPacketBounds(c: Config, port: nat, q: PortQueue, e: RetryEntry, turns: seq<Turn>, at: nat)
    requires Chained(q) && PortRun(c, port, q, e, turns)
    ensures var tr := Events(turns);
      Deliveries(tr, port, at) <= 7 && Executions(tr, port, at) <= 5 && Removals(tr, port, at) <= 1
  {
    RunWithinBudget(c, port, q, e, turns, at);
    AnyBudgetAtMostSeven(c, q, e, at);
  }

  lemma {:induction false} NoDeliveries(trace: seq<Event>, port: nat, at: nat)
    requires Deliveries(trace, port, at) == 0
    ensures forall i :: 0 <= i < |trace| ==> !trace[i].Concerns(port, at)
  {
    if trace == [] {
    } else {
      NoDeliveries(trace[1..], port, at);
      assert forall i :: 0 < i < |trace| ==> trace[i] == trace[1..][i - 1];
    }
  }

  lemma {:induction false} EventAt(turns: seq<Turn>, i: nat)
    requires i < |turns|
    ensures Events(turns)[i] == turns[i].event
  {
    if i == 0 {
    } else {
      EventAt(turns[1..], i - 1);
    }
  }

  /** One answer, and the last word: once a packet has been answered, or removed for any other
      reason, no later turn of the run is given it; so it has at most one sent response. */
  lemma {:induction false} PortRemovedIsFinal(c: Config, port: nat, q: PortQueue, e: RetryEntry, turns: seq<Turn>,
      at: nat, i: nat, j: nat)
    requires Chained(q) && PortRun(c, port, q, e, turns) && i < j < |turns|
    requires turns[i].event.Concerns(port, at) && (turns[i].event.Responded() || turns[i].event.Removes())
    ensures !turns[j].event.Concerns(port, at)
    decreases turns
  {
    var t := turns[0];
    PortActKeepsChain(c, t.action, port, q, e, t.queue, t.entry, t.event);
    if i == 0 {
      BudgetShrinks(c, t.action, port, q, e, t.queue, t.entry, t.event, at);
      RunWithinBudget(c, port, t.queue, t.entry, turns[1..], at);
      NoDeliveries(Events(turns[1..]), port, at);
      EventAt(turns[1..], j - 1);
    } else {
      PortRemovedIsFinal(c, port, t.queue, t.entry, turns[1..], at, i - 1, j - 1);
    }
  }

  // ---- runs of the whole node ----

  /** What a run of the node is for one port. */
  function TurnsOf(c: Config, s: State, actions: seq<Action>, port: nat): seq<Turn>
    requires IsPort(port)
    decreases actions
  {
    if actions == [] then []
    else
      var (s', ev) := Take(c, s, actions[0]);
      [Turn(actions[0], s'.queues[port], s'.retry[port], ev)] + TurnsOf(c, s', actions[1..], port)
  }

  lemma {:induction false} NodeRunIsPortRun(c: Config, s: State, actions: seq<Action>, port: nat)
    requires WellFormed(s) && Distinct(c.node.ports) && IsPort(port)
    ensures PortRun(c, port, s.queues[port], s.retry[port], TurnsOf(c, s, actions, port))
    ensures Events(TurnsOf(c, s, actions, port)) == Trace(c, s, actions)
    ensures Actions(TurnsOf(c, s, actions, port)) == actions
    decreases actions
  {
    if actions == [] {
    } else {
      var s' := Take(c, s, actions[0]).0;
      ActByPort(c, s, actions[0]);
      ActKeepsWellFormed(c, s, actions[0]);
      NodeRunIsPortRun(c, s', actions[1..], port);
      assert TurnsOf(c, s, actions, port)[1..] == TurnsOf(c, s', actions[1..], port);
    }
  }

  lemma PacketBounds(c: Config, s: State, actions: seq<Action>, port: nat, at: nat)
    requires WellFormed(s) && Distinct(c.node.ports) && IsPort(port)
    ensures var tr := Trace(c, s, actions);
      Deliveries(tr, port, at) <= 7 && Executions(tr, port, at) <= 5 && Removals(tr, port, at) <= 1
  {
    NodeRunIsPortRun(c, s, actions, port);
    PortPacketBounds(c, port, s.queues[port], s.retry[port], TurnsOf(c, s, actions, port), at);
  }

  lemma RemovedIsFinal(c: Config, s: State, actions: seq<Action>, port: nat, at: nat, i: nat)
    requires WellFormed(s) && Distinct(c.node.ports) && IsPort(port)
    requires i < |actions|
    requires Trace(c, s, actions)[i].Concerns(port, at)
    requires Trace(c, s, actions)[i].Responded() || Trace(c, s, actions)[i].Removes()
    ensures forall j :: i < j < |actions| ==> !Trace(c, s, actions)[j].Concerns(port, at)
  {
    var turns := TurnsOf(c, s, actions, port);
    NodeRunIsPortRun(c, s, actions, port);
    EventAt(turns, i);
    forall j | i < j < |actions| ensures !Trace(c, s, actions)[j].Concerns(port, at) {
      EventAt(turns, j);
      PortRemovedIsFinal(c, port, s.queues[port], s.retry[port], turns, at, i, j);
    }
  }

  // ---- arrivals inside a cycle ----

  function Arrived(r: (State, Event), port: nat, payload: Payload, ts: U32): (State, Event)
    requires IsPort(port)
  {
    (r.0.(queues := PushTo(r.0.queues, port, payload, ts)), r.1)
  }

  /** A packet that arrives while another one is being answered may as well arrive afterwards. */
  lemma ArrivalWhileAnswering(c: Config, retry: RetryTable, env: Env, v: Visit, port: nat, payload: Payload, ts: U32)
    requires IsPort(port)
    requires v.delivery.Deliver? ==> IsPort(v.delivery.port) && v.queues[v.delivery.port].records != []
    ensures Settle(c, retry, env, v.(queues := PushTo(v.queues, port, payload, ts)))
      == Arrived(Settle(c, retry, env, v), port, payload, ts)
  {
    if v.delivery.Deliver? {
      ArrivalBehindHeadCommutes(v.queues, v.delivery.port, port, payload, ts);
      assert PushTo(v.queues, port, payload, ts)[v.delivery.port].records[0] == v.queues[v.delivery.port].records[0];
    }
  }

  /** So a cycle during which a packet arrives, after the ports `xs` have had their turn and before
      the ports `ys` have, is in state and in event a cycle before or after which it arrives. */
  lemma ArrivalMovesOutOfCycle(c: Config, s: State, env: Env, xs: seq<nat>, ys: seq<nat>, port: nat,
      payload: Payload, ts: U32)
    requires IsPort(port) && c.node.ports == xs + ys && Distinct(c.node.ports)
    requires VisitPorts(c.node, s.queues, xs).delivery.Nothing?
    ensures var v := VisitPorts(c.node, s.queues, xs);
      var rest := VisitPorts(c.node, PushTo(v.queues, port, payload, ts), ys);
      Settle(c, s.retry, env, Before(v.relayed, rest))
        == if port in ys then Cycle(c, s.(queues := PushTo(s.queues, port, payload, ts)), env)
           else Arrived(Cycle(c, s, env), port, payload, ts)
  {
    ArrivalMovesOut(c.node, s.queues, xs, ys, port, payload, ts);
    if port !in ys {
      var calm := VisitPorts(c.node, s.queues, c.node.ports);
      DeliveryWaits(c.node, s.queues, c.node.ports);
      ArrivalWhileAnswering(c, s.retry, env, calm, port, payload, ts);
    }
  }

  // ---- progress ----

  /** 7 for every packet waiting behind the head, plus the head's stage. */
  function PortMeasure(c: Config, q: PortQueue, e: RetryEntry): nat {
    if q.records == [] then 0 else 7 * (|q.records| - 1) + Stage(c, q, e)
  }

  /** A port's share of the work left; a port that is not registered is never visited. */
  function Share(c: Config, s: State, port: nat): nat
    requires IsPort(port)
  {
    if port in c.node.ports then PortMeasure(c, s.queues[port], s.retry[port]) else 0
  }

  function Measure(c: Config, s: State): nat {
    Share(c, s, 1) + Share(c, s, 2) + Share(c, s, 3) + Share(c, s, 4)
  }

  lemma PortCycleMeasure(c: Config, env: Env, port: nat, q: PortQueue, e: RetryEntry,
      q': PortQueue, e': RetryEntry, ev: Event)
    requires PortCycle(c, env, port, q, e, q', e', ev)
    ensures PortMeasure(c, q', e') <= PortMeasure(c, q, e)
    ensures (q' != q || !Elsewhere(ev, port)) ==> PortMeasure(c, q', e') < PortMeasure(c, q, e)
  {
  }

  ghost predicate Touched(s: State, s': State, ev: Event, port: nat)
    requires IsPort(port)
  {
    s'.queues[port] != s.queues[port] || !Elsewhere(ev, port)
  }

  /** Some registered port has something waiting. */
  ghost predicate CanWork(c: Config, s: State) {
    exists p :: IsPort(p) && p in c.node.ports && s.queues[p].records != []
  }

  lemma DeliveryTouches(c: Config, s: State, env: Env)
    requires WellFormed(s) && Distinct(c.node.ports)
    requires FirstMine(c.node, s.queues, c.node.ports) < |c.node.ports|
    ensures var (s', ev) := Cycle(c, s, env);
      var port := c.node.ports[FirstMine(c.node, s.queues, c.node.ports)];
      IsPort(port) && port in c.node.ports && Touched(s, s', ev, port)
  {
    CycleAtDelivery(c, s, env);
  }

  lemma DiscardTouches(c: Config, s: State, env: Env, port: nat)
    requires WellFormed(s) && Distinct(c.node.ports)
    requires FirstMine(c.node, s.queues, c.node.ports) == |c.node.ports|
    requires IsPort(port) && port in c.node.ports && s.queues[port].records != []
    ensures var (s', ev) := Cycle(c, s, env); Touched(s, s', ev, port)
  {
    ChainedIsStorable(s);
    VisitPortsDispatches(c.node, s.queues, c.node.ports);
    assert Cycle(c, s, env).0.queues[port] == DropHead(s.queues[port]);
  }

  /** A cycle that can work touches some registered port. */
  lemma CycleTouches(c: Config, s: State, env: Env)
    requires WellFormed(s) && Distinct(c.node.ports) && CanWork(c, s)
    ensures var (s', ev) := Cycle(c, s, env);
      exists p :: IsPort(p) && p in c.node.ports && Touched(s, s', ev, p)
  {
    if FirstMine(c.node, s.queues, c.node.ports) < |c.node.ports| {
      DeliveryTouches(c, s, env);
    } else {
      var p: nat :| IsPort(p) && p in c.node.ports && s.queues[p].records != [];
      DiscardTouches(c, s, env, p);
    }
  }

  lemma SharesShrink(c: Config, s: State, s': State, p: nat)
    requires forall k :: IsPort(k) ==> Share(c, s', k) <= Share(c, s, k)
    requires IsPort(p) && Share(c, s', p) < Share(c, s, p)
    ensures Measure(c, s') < Measure(c, s)
  {
    assert Share(c, s', 1) <= Share(c, s, 1) && Share(c, s', 2) <= Share(c, s, 2);
    assert Share(c, s', 3) <= Share(c, s, 3) && Share(c, s', 4) <= Share(c, s, 4);
  }

  /** Progress, whatever ports a node has: while anything waits on one of them, every cycle
      decreases the measure. */
  lemma CycleDecreases(c: Config, s: State, env: Env)
    requires WellFormed(s) && Distinct(c.node.ports) && CanWork(c, s)
    ensures Measure(c, Cycle(c, s, env).0) < Measure(c, s)
  {
    var (s', ev) := Cycle(c, s, env);
    CycleByPort(c, s, env);
    CycleTouches(c, s, env);
    forall p | IsPort(p)
      ensures Share(c, s', p) <= Share(c, s, p)
      ensures p in c.node.ports && Touched(s, s', ev, p) ==> Share(c, s', p) < Share(c, s, p)
    {
      PortCycleMeasure(c, env, p, s.queues[p], s.retry[p], s'.queues[p], s'.retry[p], ev);
    }
    var p :| IsPort(p) && p in c.node.ports && Touched(s, s', ev, p);
    SharesShrink(c, s, s', p);
  }

  /** A port that is not registered is left as it is. */
  lemma UnregisteredUntouched(c: Config, s: State, env: Env, port: nat)
    requires WellFormed(s) && Distinct(c.node.ports) && IsPort(port) && port !in c.node.ports
    ensures var (s', ev) := Cycle(c, s, env); !Touched(s, s', ev, port) && s'.retry[port] == s.retry[port]
  {
    ChainedIsStorable(s);
    VisitPortsDispatches(c.node, s.queues, c.node.ports);
    if FirstMine(c.node, s.queues, c.node.ports) < |c.node.ports| {
      CycleAtDelivery(c, s, env);
    }
  }

  function Cycles(envs: seq<Env>): seq<Action> {
    seq(|envs|, i requires 0 <= i < |envs| => Run(envs[i]))
  }

  lemma CyclesFirst(envs: seq<Env>)
    requires envs != []
    ensures Cycles(envs) == [Run(envs[0])] + Cycles(envs[1..])
  {
  }

  /** What cycles alone leave behind once the work is done: nothing on the registered ports,
      and the other queues as they were. */
  ghost predicate Drained(c: Config, before: Ports, after: Ports) {
    forall p :: IsPort(p) ==>
      if p in c.node.ports then after[p].records == [] else after[p] == before[p]
  }

  lemma {:induction false} RegisteredDrain(c: Config, s: State, envs: seq<Env>)
    requires WellFormed(s) && Distinct(c.node.ports) && |envs| >= Measure(c, s)
    ensures Drained(c, s.queues, Execute(c, s, Cycles(envs)).queues)
    decreases envs
  {
    if envs == [] {
    } else {
      var s' := Cycle(c, s, envs[0]).0;
      CyclesFirst(envs);
      ActKeepsWellFormed(c, s, Run(envs[0]));
      if CanWork(c, s) {
        CycleDecreases(c, s, envs[0]);
      } else {
        IdleStaysIdle(c, s, envs[0]);
      }
      RegisteredDrain(c, s', envs[1..]);
      forall p | IsPort(p) && p !in c.node.ports ensures s'.queues[p] == s.queues[p] {
        UnregisteredUntouched(c, s, envs[0], p);
      }
    }
  }

  lemma EmptyPortStaysEmpty(c: Config, env: Env, port: nat, q: PortQueue, e: RetryEntry,
      q': PortQueue, e': RetryEntry, ev: Event)
    requires PortCycle(c, env, port, q, e, q', e', ev) && q.records == []
    ensures q'.records == []
  {
  }

  lemma IdleStaysIdle(c: Config, s: State, env: Env)
    requires WellFormed(s) && Distinct(c.node.ports) && !CanWork(c, s)
    ensures Measure(c, Cycle(c, s, env).0) == 0
  {
    CycleByPort(c, s, env);
    var (s', ev) := Cycle(c, s, env);
    forall p | IsPort(p) && p in c.node.ports ensures s'.queues[p].records == [] {
      EmptyPortStaysEmpty(c, env, p, s.queues[p], s.retry[p], s'.queues[p], s'.retry[p], ev);
    }
  }

  /** Everything drains: without new arrivals, as many cycles as the measure says leave all
      queues empty, whatever the routines return and whether or not the ports send, if and
      only if nothing waits on a port that the node does not have. */
  lemma QueuesDrain(c: Config, s: State, envs: seq<Env>)
    requires WellFormed(s) && Distinct(c.node.ports) && |envs| >= Measure(c, s)
    ensures Waiting(Execute(c, s, Cycles(envs)).queues) == 0
      <==> forall p :: IsPort(p) && s.queues[p].records != [] ==> p in c.node.ports
  {
    RegisteredDrain(c, s, envs);
    var after := Execute(c, s, Cycles(envs)).queues;
    assert Waiting(after) == 0 <==> forall p :: IsPort(p) ==> after[p].records == [];
  }
}
