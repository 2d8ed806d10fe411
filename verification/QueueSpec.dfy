/** The packet queue as its users see it: four independent FIFO queues of records.
    `Step` is one public operation; the lemmas speak about whole runs of operations. */
module QueueSpec {
  import opened Bytes
  import opened BinaryFrame

  const MAX_PORT := 4
  const MAX_PAYLOAD := 2040  // what fits, framed, in the 2048-byte shared buffer

  /** A stored packet; `at` is its byte offset in the port's log. */
  datatype Record = Record(at: nat, ts: U32, payload: Payload)

  /** One port: waiting records, whether the head has been looked at, and the log's end. */
  datatype PortQueue = PortQueue(records: seq<Record>, peeked: bool, end: nat)

  /** Index 0 is the unused port number 0. */
  type Ports = s: seq<PortQueue> | |s| == MAX_PORT + 1
    witness seq(MAX_PORT + 1, _ => PortQueue([], false, 0))

  predicate IsPort(port: int) { 1 <= port <= MAX_PORT }

  predicate Storable(payload: seq<Byte>) { 0 < |payload| <= MAX_PAYLOAD }

  /** A payload can be queued exactly when it is not empty and its frame fits 2048 bytes. */
  lemma StorableIffFits(payload: seq<Byte>)
    ensures Storable(payload) <==> payload != [] && RequiredSize(|payload|) <= 2048
  {
  }

  function Size(r: Record): nat { RequiredSize(|r.payload|) }

  // ---- operations on one port ----

  function PushOn(q: PortQueue, payload: Payload, ts: U32): PortQueue {
    PortQueue(q.records + [Record(q.end, ts, payload)], q.peeked, q.end + RequiredSize(|payload|))
  }

  function NextOn(q: PortQueue, max: nat, pop: bool): (PortQueue, Option<Record>) {
    if max == 0 || q.records == [] || |q.records[0].payload| > max then (q, None)
    else (if pop then PortQueue(q.records[1..], false, q.end) else q.(peeked := true), Some(q.records[0]))
  }

  function SkipOn(q: PortQueue): (PortQueue, bool) {
    if q.records == [] || !q.peeked then (q, false) else (PortQueue(q.records[1..], false, q.end), true)
  }

  const EMPTY := PortQueue([], false, 0)

  /** Peeking and then skipping is popping, in state and in what was seen. */
  lemma PeekThenSkipIsPop(q: PortQueue, max: nat)
    requires NextOn(q, max, false).1.Some?
    ensures SkipOn(NextOn(q, max, false).0) == (NextOn(q, max, true).0, true)
    ensures NextOn(q, max, false).1 == NextOn(q, max, true).1
  {
  }

  // ---- operations on the whole queue ----

  datatype Op =
    | Push(port: nat, payload: Payload, ts: U32, stored: bool)
    | Next(port: nat, max: nat, pop: bool)
    | NextAny(ports: seq<nat>, max: nat, pop: bool)
    | Skip(port: nat)
    | Clear(port: nat)
  {
    predicate Pops() { (Next? || NextAny?) && pop }
  }

  predicate PortEmpty(s: Ports, port: nat) { !IsPort(port) || s[port].records == [] }

  /** The first listed port that has something waiting; 0 when none has. */
  function FirstWaiting(s: Ports, ports: seq<nat>): (port: nat)
    ensures port != 0 ==> port in ports && !PortEmpty(s, port)
    ensures port == 0 ==> forall p :: p in ports ==> PortEmpty(s, p)
  {
    if ports == [] then 0
    else if PortEmpty(s, ports[0]) then FirstWaiting(s, ports[1..])
    else ports[0]
  }

  /** It is the first: every port listed before it has nothing waiting. */
  lemma {:induction false} FirstWaitingIsFirst(s: Ports, ports: seq<nat>)
    requires FirstWaiting(s, ports) != 0
    ensures exists i ::
      0 <= i < |ports| && ports[i] == FirstWaiting(s, ports) && forall k :: 0 <= k < i ==> PortEmpty(s, ports[k])
    decreases ports
  {
    if PortEmpty(s, ports[0]) {
      FirstWaitingIsFirst(s, ports[1..]);
      var i :| 0 <= i < |ports[1..]| && ports[1..][i] == FirstWaiting(s, ports)
        && forall k :: 0 <= k < i ==> PortEmpty(s, ports[1..][k]);
      assert ports[i + 1] == ports[1..][i] && forall k :: 0 < k < i + 1 ==> ports[k] == ports[1..][k - 1];
    } else {
      assert ports[0] == FirstWaiting(s, ports);
    }
  }

  /** The port an operation acts on in a state; 0 when it touches none. */
  function Target(s: Ports, op: Op): nat {
    match op
    case Push(port, payload, ts, stored) => if IsPort(port) && stored && Storable(payload) then port else 0
    case Next(port, _, _) => if IsPort(port) then port else 0
    case NextAny(ports, max, _) => if max == 0 then 0 else FirstWaiting(s, ports)
    case Skip(port) => if IsPort(port) then port else 0
    case Clear(port) => if IsPort(port) then port else 0
  }

  function Act(q: PortQueue, op: Op): PortQueue {
    match op
    case Push(_, payload, ts, _) => PushOn(q, payload, ts)
    case Next(_, max, pop) => NextOn(q, max, pop).0
    case NextAny(_, max, pop) => NextOn(q, max, pop).0
    case Skip(_) => SkipOn(q).0
    case Clear(_) => EMPTY
  }

  function Step(s: Ports, op: Op): Ports {
    var p := Target(s, op);
    if IsPort(p) then s[p := Act(s[p], op)] else s
  }

  /** The record handed to the caller by a peek or pop. */
  function Returned(s: Ports, op: Op): Option<Record> {
    var p := Target(s, op);
    if !IsPort(p) then None
    else match op
      case Next(_, max, pop) => NextOn(s[p], max, pop).1
      case NextAny(_, max, pop) => NextOn(s[p], max, pop).1
      case _ => None
  }

  /** The records an operation removes from a port. */
  function Removed(s: Ports, op: Op, port: nat): seq<Record> {
    if !IsPort(port) || Target(s, op) != port then []
    else match op
      case Push(_, _, _, _) => []
      case Clear(_) => s[port].records
      case _ => if |Act(s[port], op).records| < |s[port].records| then [s[port].records[0]] else []
  }

  function Payloads(records: seq<Record>): seq<Payload> {
    seq(|records|, i requires 0 <= i < |records| => records[i].payload)
  }

  // ---- runs ----

  function Run(s: Ports, ops: seq<Op>): Ports
    decreases ops
  {
    if ops == [] then s else Run(Step(s, ops[0]), ops[1..])
  }

  /** The payloads that pushes of the run left in a port, in order; a function of the operations alone. */
  function PushedTo(ops: seq<Op>, port: nat): seq<Payload> {
    if ops == [] then []
    else
      var kept := ops[0].Push? && ops[0].port == port && ops[0].stored && Storable(ops[0].payload);
      (if kept then [ops[0].payload] else []) + PushedTo(ops[1..], port)
  }

  function TakenFrom(s: Ports, ops: seq<Op>, port: nat): seq<Payload>
    decreases ops
  {
    if ops == [] then [] else Payloads(Removed(s, ops[0], port)) + TakenFrom(Step(s, ops[0]), ops[1..], port)
  }

  /** The payloads that pops of one port handed out, in order. */
  function PoppedFrom(s: Ports, ops: seq<Op>, port: nat): seq<Payload>
    decreases ops
  {
    if ops == [] then []
    else
      var r := Returned(s, ops[0]);
      var popped := ops[0].Pops() && Target(s, ops[0]) == port && r.Some?;
      (if popped then [r.value.payload] else []) + PoppedFrom(Step(s, ops[0]), ops[1..], port)
  }

  lemma DropConserves(q: PortQueue, after: PortQueue)
    requires after.records == q.records || (q.records != [] && after.records == q.records[1..])
    ensures Payloads(q.records)
      == Payloads(if |after.records| < |q.records| then [q.records[0]] else []) + Payloads(after.records)
  {
  }

  lemma StepConserves(s: Ports, op: Op, port: nat)
    requires IsPort(port)
    ensures Payloads(s[port].records) + PushedTo([op], port)
      == Payloads(Removed(s, op, port)) + Payloads(Step(s, op)[port].records)
  {
    assert [op][1..] == [];
    if op.Push? {
      assert Removed(s, op, port) == [];
    } else {
      assert PushedTo([op], port) == [];
      if Target(s, op) == port && !op.Clear? {
        DropConserves(s[port], Act(s[port], op));
      }
    }
  }

  lemma Regroup<T>(a: seq<T>, b: seq<T>, c: seq<T>, d: seq<T>, e: seq<T>, f: seq<T>, mid: seq<T>)
    requires a + b == d + mid && mid + c == e + f
    ensures a + (b + c) == (d + e) + f
  {
    assert a + (b + c) == (a + b) + c == d + (mid + c);
  }

  lemma PushedHead(op: Op, rest: seq<Op>, port: nat)
    ensures PushedTo([op] + rest, port) == PushedTo([op], port) + PushedTo(rest, port)
  {
  }

  /** Conservation and order, for every run: what was waiting followed by what was pushed is
      what was taken followed by what is still waiting. */
  lemma {:induction false} FifoConservation(s: Ports, ops: seq<Op>, port: nat)
    requires IsPort(port)
    ensures Payloads(s[port].records) + PushedTo(ops, port)
      == TakenFrom(s, ops, port) + Payloads(Run(s, ops)[port].records)
    decreases ops
  {
    if ops == [] {
    } else {
      var s' := Step(s, ops[0]);
      StepConserves(s, ops[0], port);
      FifoConservation(s', ops[1..], port);
      assert ops == [ops[0]] + ops[1..];
      PushedHead(ops[0], ops[1..], port);
      Regroup(Payloads(s[port].records), PushedTo([ops[0]], port), PushedTo(ops[1..], port),
        Payloads(Removed(s, ops[0], port)), TakenFrom(s', ops[1..], port), Payloads(Run(s, ops)[port].records),
        Payloads(s'[port].records));
    }
  }

  /** With no skip and no clear, the removed records are exactly the popped ones. */
  lemma {:induction false} TakenIsPopped(s: Ports, ops: seq<Op>, port: nat)
    requires IsPort(port)
    requires forall op :: op in ops ==> !op.Skip? && !op.Clear?
    ensures TakenFrom(s, ops, port) == PoppedFrom(s, ops, port)
    decreases ops
  {
    if ops == [] {
    } else {
      TakenIsPopped(Step(s, ops[0]), ops[1..], port);
    }
  }

  /** How a payload left a port. */
  datatype Leave = Popped(payload: Payload) | Skipped(payload: Payload) | Cleared(payload: Payload)

  function LeftBy(op: Op, payload: Payload): Leave {
    if op.Skip? then Skipped(payload) else if op.Clear? then Cleared(payload) else Popped(payload)
  }

  function Leaves(s: Ports, op: Op, port: nat): seq<Leave> {
    var gone := Payloads(Removed(s, op, port));
    seq(|gone|, i requires 0 <= i < |gone| => LeftBy(op, gone[i]))
  }

  /** Everything that leaves a port during a run, in order, each with how it left. */
  function Departures(s: Ports, ops: seq<Op>, port: nat): seq<Leave>
    decreases ops
  {
    if ops == [] then []
    else Leaves(s, ops[0], port) + Departures(Step(s, ops[0]), ops[1..], port)
  }

  function What(leaves: seq<Leave>): seq<Payload> {
    seq(|leaves|, i requires 0 <= i < |leaves| => leaves[i].payload)
  }

  function OnlyPopped(leaves: seq<Leave>): seq<Payload> {
    if leaves == [] then []
    else (if leaves[0].Popped? then [leaves[0].payload] else []) + OnlyPopped(leaves[1..])
  }

  lemma {:induction false} OnlyPoppedAppend(xs: seq<Leave>, ys: seq<Leave>)
    ensures OnlyPopped(xs + ys) == OnlyPopped(xs) + OnlyPopped(ys)
    decreases xs
  {
    if xs == [] {
      assert xs + ys == ys;
    } else {
      assert (xs + ys)[1..] == xs[1..] + ys;
      OnlyPoppedAppend(xs[1..], ys);
      Associate(if xs[0].Popped? then [xs[0].payload] else [], OnlyPopped(xs[1..]), OnlyPopped(ys));
    }
  }

  lemma {:induction false} NothingPopped(leaves: seq<Leave>)
    requires forall i :: 0 <= i < |leaves| ==> !leaves[i].Popped?
    ensures OnlyPopped(leaves) == []
    decreases leaves
  {
    if leaves == [] {
    } else {
      NothingPopped(leaves[1..]);
    }
  }

  /** One operation: what it pops is what it hands out by popping. */
  lemma StepPops(s: Ports, op: Op, port: nat)
    requires IsPort(port)
    ensures What(Leaves(s, op, port)) == Payloads(Removed(s, op, port))
    ensures OnlyPopped(Leaves(s, op, port))
      == (if op.Pops() && Target(s, op) == port && Returned(s, op).Some? then [Returned(s, op).value.payload] else [])
  {
    var gone, leaves := Payloads(Removed(s, op, port)), Leaves(s, op, port);
    if op.Skip? || op.Clear? {
      NothingPopped(leaves);
    } else if gone != [] {
      assert leaves == [Popped(gone[0])] && leaves[1..] == [];
    }
  }

  lemma WhatAppend(xs: seq<Leave>, ys: seq<Leave>)
    ensures What(xs + ys) == What(xs) + What(ys)
  {
  }

  lemma {:induction false} DeparturesExplained(s: Ports, ops: seq<Op>, port: nat)
    requires IsPort(port)
    ensures What(Departures(s, ops, port)) == TakenFrom(s, ops, port)
    ensures OnlyPopped(Departures(s, ops, port)) == PoppedFrom(s, ops, port)
    decreases ops
  {
    if ops == [] {
    } else {
      var rest := Departures(Step(s, ops[0]), ops[1..], port);
      DeparturesExplained(Step(s, ops[0]), ops[1..], port);
      StepPops(s, ops[0], port);
      OnlyPoppedAppend(Leaves(s, ops[0], port), rest);
      WhatAppend(Leaves(s, ops[0], port), rest);
    }
  }

  /** Queue law, for every run that starts empty: the pushed payloads, in order, are those that
      left, each popped, skipped or cleared, followed by those still waiting; the popped ones
      are exactly what pops handed out. Without skips and clears, pops return the pushes. */
  lemma PopsReturnPushesInOrder(s: Ports, ops: seq<Op>, port: nat)
    requires IsPort(port) && s[port].records == []
    ensures PushedTo(ops, port) == What(Departures(s, ops, port)) + Payloads(Run(s, ops)[port].records)
    ensures OnlyPopped(Departures(s, ops, port)) == PoppedFrom(s, ops, port)
    ensures (forall op :: op in ops ==> !op.Skip? && !op.Clear?) ==>
      PushedTo(ops, port) == PoppedFrom(s, ops, port) + Payloads(Run(s, ops)[port].records)
  {
    FifoConservation(s, ops, port);
    DeparturesExplained(s, ops, port);
    if forall op :: op in ops ==> !op.Skip? && !op.Clear? {
      TakenIsPopped(s, ops, port);
    }
    assert Payloads(s[port].records) + PushedTo(ops, port) == PushedTo(ops, port);
  }

  /** An operation on one port: an any-port peek or pop is one on the port it chose. */
  function OnPort(s: Ports, op: Op): Op {
    if op.NextAny? then Next(Target(s, op), op.max, op.pop) else op
  }

  /** The operations of a run that concern one port. */
  function OnlyPort(s: Ports, ops: seq<Op>, port: nat): seq<Op>
    decreases ops
  {
    if ops == [] then []
    else
      var own := OnPort(s, ops[0]).port == port;
      (if own then [OnPort(s, ops[0])] else []) + OnlyPort(Step(s, ops[0]), ops[1..], port)
  }

  /** Isolation: a port ends a run as if only the operations on it had happened. */
  lemma {:induction false} PortsAreIndependent(s: Ports, t: Ports, ops: seq<Op>, port: nat)
    requires IsPort(port) && s[port] == t[port]
    ensures Run(s, ops)[port] == Run(t, OnlyPort(s, ops, port))[port]
    decreases ops
  {
    if ops == [] {
    } else {
      var op := OnPort(s, ops[0]);
      var rest := OnlyPort(Step(s, ops[0]), ops[1..], port);
      if op.port == port {
        assert OnlyPort(s, ops, port) == [op] + rest;
        assert ([op] + rest)[1..] == rest;
        PortsAreIndependent(Step(s, ops[0]), Step(t, op), ops[1..], port);
      } else {
        assert OnlyPort(s, ops, port) == rest;
        PortsAreIndependent(Step(s, ops[0]), t, ops[1..], port);
      }
    }
  }

  // ---- what a skip removes ----

  /** The record most recently handed out from a port during a run, if any. */
  function LastSeen(s: Ports, ops: seq<Op>, port: nat, before: Option<Record>): Option<Record>
    decreases ops
  {
    if ops == [] then before
    else
      var r := Returned(s, ops[0]);
      LastSeen(Step(s, ops[0]), ops[1..], port, if Target(s, ops[0]) == port && r.Some? then r else before)
  }

  /** In every run a port marked as peeked has at its head the very record last handed out:
      so a skip that succeeds drops the packet its caller saw, never another one. */
  lemma {:induction false} PeekedHeadWasSeen(s: Ports, ops: seq<Op>, port: nat, before: Option<Record>)
    requires IsPort(port)
    requires s[port].peeked ==> s[port].records != [] && before == Some(s[port].records[0])
    ensures var q := Run(s, ops)[port];
      q.peeked ==> q.records != [] && LastSeen(s, ops, port, before) == Some(q.records[0])
    decreases ops
  {
    if ops == [] {
    } else {
      var r := Returned(s, ops[0]);
      PeekedHeadWasSeen(Step(s, ops[0]), ops[1..], port, if Target(s, ops[0]) == port && r.Some? then r else before);
    }
  }

  /** So in every run that starts with nothing seen, what a skip drops is the record that was last
      handed out from that port; a port that has handed out nothing since keeps its head. */
  lemma SkipDropsWhatWasSeen(s: Ports, ops: seq<Op>, port: nat)
    requires IsPort(port) && !s[port].peeked
    ensures var now := Run(s, ops);
      var after := Step(now, Skip(port));
      after == now || (now[port].records != [] && after[port].records == now[port].records[1..]
        && LastSeen(s, ops, port, None) == Some(now[port].records[0]))
  {
    PeekedHeadWasSeen(s, ops, port, None);
  }

  // ---- draining ----

  const ALL_PORTS: seq<nat> := [1, 2, 3, 4]

  function Waiting(s: Ports): nat {
    |s[1].records| + |s[2].records| + |s[3].records| + |s[4].records|
  }

  /** Repeats `popAny` until it returns nothing. */
  function DrainAll(s: Ports, max: nat): seq<Payload>
    decreases Waiting(s)
  {
    var r := Returned(s, NextAny(ALL_PORTS, max, true));
    if r.None? then [] else [r.value.payload] + DrainAll(Step(s, NextAny(ALL_PORTS, max, true)), max)
  }

  ghost predicate AllStorable(s: Ports) {
    forall p, i :: IsPort(p) && 0 <= i < |s[p].records| ==> Storable(s[p].records[i].payload)
  }

  /** Port order, not arrival order: draining gives port 1's queue, then 2's, 3's and 4's. */
  lemma {:induction false} DrainIsPortOrder(s: Ports, max: nat)
    requires AllStorable(s) && max >= MAX_PAYLOAD
    ensures DrainAll(s, max) == AllWaiting(s)
    decreases Waiting(s)
  {
    var op := NextAny(ALL_PORTS, max, true);
    if Returned(s, op).Some? {
      PopAnyTakesFirst(s, max);
      PopKeepsStorable(s, op);
      DrainIsPortOrder(Step(s, op), max);
    } else {
      NothingLeft(s, max);
    }
  }

  lemma PopKeepsStorable(s: Ports, op: Op)
    requires AllStorable(s) && op.NextAny?
    ensures AllStorable(Step(s, op))
  {
  }

  lemma NothingLeft(s: Ports, max: nat)
    requires AllStorable(s) && max >= MAX_PAYLOAD && Returned(s, NextAny(ALL_PORTS, max, true)) == None
    ensures AllWaiting(s) == []
  {
    FirstOfFour(s);
    var p := FirstWaiting(s, ALL_PORTS);
    assert IsPort(p) ==> Storable(s[p].records[0].payload);
    assert p == 0;
  }

  function AllWaiting(s: Ports): seq<Payload> {
    Payloads(s[1].records) + Payloads(s[2].records) + Payloads(s[3].records) + Payloads(s[4].records)
  }

  /** A pop takes the head of the first port that has one, and nothing else. */
  lemma PopsFirstWaiting(s: Ports, max: nat, p: nat)
    requires Returned(s, NextAny(ALL_PORTS, max, true)).Some? && p == Target(s, NextAny(ALL_PORTS, max, true))
    ensures var op := NextAny(ALL_PORTS, max, true);
      IsPort(p) && Payloads(s[p].records) == [Returned(s, op).value.payload] + Payloads(s[p].records[1..])
      && Step(s, op) == s[p := PortQueue(s[p].records[1..], false, s[p].end)]
    ensures (p > 1 ==> s[1].records == []) && (p > 2 ==> s[2].records == []) && (p > 3 ==> s[3].records == [])
  {
    FirstOfFour(s);
  }

  lemma PopAnyTakesFirst(s: Ports, max: nat)
    requires Returned(s, NextAny(ALL_PORTS, max, true)).Some?
    ensures var op := NextAny(ALL_PORTS, max, true);
      AllWaiting(s) == [Returned(s, op).value.payload] + AllWaiting(Step(s, op))
  {
    var op := NextAny(ALL_PORTS, max, true);
    var p := Target(s, op);
    PopsFirstWaiting(s, max, p);
    TakeFirst(p, Returned(s, op).value.payload,
      Payloads(s[1].records), Payloads(s[2].records), Payloads(s[3].records), Payloads(s[4].records),
      Payloads(s[p].records[1..]));
  }

  /** Taking the first element of a concatenation of four is taking it from the first part
      that has one. */
  lemma TakeFirst<T>(p: nat, x: T, a: seq<T>, b: seq<T>, c: seq<T>, d: seq<T>, rest: seq<T>)
    requires IsPort(p)
    requires (p > 1 ==> a == []) && (p > 2 ==> b == []) && (p > 3 ==> c == [])
    requires [x] + rest == if p == 1 then a else if p == 2 then b else if p == 3 then c else d
    ensures a + b + c + d == [x] + (
      if p == 1 then rest + b + c + d else if p == 2 then a + rest + c + d
      else if p == 3 then a + b + rest + d else a + b + c + rest)
  {
  }

  lemma FirstOfFour(s: Ports)
    ensures FirstWaiting(s, ALL_PORTS)
      == if s[1].records != [] then 1 else if s[2].records != [] then 2
         else if s[3].records != [] then 3 else if s[4].records != [] then 4 else 0
  {
    var four := if s[4].records != [] then 4 else 0;
    assert FirstWaiting(s, [4]) == four;
    var three := if s[3].records != [] then 3 else four;
    assert [3, 4][1..] == [4] && FirstWaiting(s, [3, 4]) == three;
    var two := if s[2].records != [] then 2 else three;
    assert [2, 3, 4][1..] == [3, 4] && FirstWaiting(s, [2, 3, 4]) == two;
    assert ALL_PORTS[1..] == [2, 3, 4];
  }
}
