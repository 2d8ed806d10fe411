/** Dispatch of queue heads: discard what cannot be used, relay what is for others, and
    hand over the first packet that is for this node. */
module Router {
  import opened Bytes
  import opened BinaryFrame
  import opened QueueSpec
  import PQ = PacketQueue

  const BROADCAST: Byte := 255
  const ORIGIN: Byte := 0

  datatype Routing = Routing(sender: U32, receiver: U32)

  /** A communication packet as far as dispatch looks into it. */
  datatype Packet = Packet(id: U32, routing: Option<Routing>, bodyTag: Byte, payloadTag: Byte, content: seq<Byte>)

  /** A registered port. The Iridium port reports data whenever any queue holds some. */
  datatype Port = Port(portType: nat, watchesAllQueues: bool)

  /** What a node fixes for dispatch: its decoder, its ports in order, and its address. */
  datatype Node = Node(decode: seq<Byte> -> Option<Packet>, ports: seq<nat>, local: Byte)

  datatype Verdict = Unusable | Foreign(packet: Packet) | Mine(packet: Packet)

  /** What this node makes of a stored record. A packet without an identifier is named after
      its place in the log. */
  function Judge(node: Node, r: Record): Verdict {
    match node.decode(r.payload)
    case None => Unusable
    case Some(p) =>
      if p.routing == None then Unusable
      else if p.routing.value.receiver % 0x100 !in {node.local, BROADCAST} then Foreign(p)
      else Mine(if p.id == 0 then p.(id := (r.at + 1) % 0x1_0000_0000) else p)
  }

  datatype Delivery = Nothing | Deliver(port: nat, packet: Packet)

  datatype Visit = Visit(queues: Ports, delivery: Delivery, relayed: seq<Packet>)

  const READ_SIZE: U16 := TMP_BUFFER_SIZE

  /** One port's turn: peek, judge, and skip unless the packet is for this node. */
  function VisitPort(node: Node, s: Ports, port: nat): Visit {
    var peek := Next(port, READ_SIZE, false);
    match Returned(s, peek)
    case None => Visit(s, Nothing, [])
    case Some(r) =>
      match Judge(node, r)
      case Mine(p) => Visit(Step(s, peek), Deliver(port, p), [])
      case Foreign(p) => Visit(Step(Step(s, peek), Skip(port)), Nothing, [p])
      case Unusable => Visit(Step(Step(s, peek), Skip(port)), Nothing, [])
  }

  function VisitPorts(node: Node, s: Ports, ports: seq<nat>): Visit
    decreases ports
  {
    if ports == [] then Visit(s, Nothing, [])
    else
      var v := VisitPort(node, s, ports[0]);
      if v.delivery.Deliver? then v
      else
        var rest := VisitPorts(node, v.queues, ports[1..]);
        rest.(relayed := v.relayed + rest.relayed)
  }

  // ---- what a visit does, said without the loop ----

  ghost predicate Distinct(ports: seq<nat>) {
    forall i, j :: 0 <= i < j < |ports| ==> ports[i] != ports[j]
  }

  predicate HeadIsMine(node: Node, s: Ports, port: nat) {
    IsPort(port) && s[port].records != [] && Judge(node, s[port].records[0]).Mine?
  }

  /** The packet at the head of a port, if it is there and for another node. */
  function ForeignHead(node: Node, s: Ports, port: nat): seq<Packet> {
    if !IsPort(port) || s[port].records == [] then []
    else
      match Judge(node, s[port].records[0])
      case Foreign(p) => [p]
      case _ => []
  }

  /** The foreign heads of the listed ports, in order. */
  function ForeignHeads(node: Node, s: Ports, ports: seq<nat>): seq<Packet> {
    if ports == [] then [] else ForeignHead(node, s, ports[0]) + ForeignHeads(node, s, ports[1..])
  }

  /** The first listed port whose head is for this node; the number of ports when none is. */
  function FirstMine(node: Node, s: Ports, ports: seq<nat>): (n: nat)
    ensures n <= |ports|
    ensures n < |ports| ==> HeadIsMine(node, s, ports[n])
  {
    if ports == [] || HeadIsMine(node, s, ports[0]) then 0 else 1 + FirstMine(node, s, ports[1..])
  }

  lemma {:induction false} NoneBeforeFirst(node: Node, s: Ports, ports: seq<nat>, i: nat)
    requires i < FirstMine(node, s, ports)
    ensures !HeadIsMine(node, s, ports[i])
    decreases ports
  {
    if i > 0 {
      NoneBeforeFirst(node, s, ports[1..], i - 1);
    }
  }

  function DropHead(q: PortQueue): PortQueue {
    if q.records == [] then q else PortQueue(q.records[1..], false, q.end)
  }

  /** The queues once the heads of the first `n` listed ports have been consumed and the head
      of the next one has been looked at; every other queue is untouched. */
  ghost predicate QueuesAfter(s: Ports, ports: seq<nat>, n: nat, queues: Ports)
    requires n <= |ports|
  {
    && (forall i :: 0 <= i < n && IsPort(ports[i]) ==> queues[ports[i]] == DropHead(s[ports[i]]))
    && (n < |ports| && IsPort(ports[n]) ==> queues[ports[n]] == s[ports[n]].(peeked := true))
    && (forall p :: IsPort(p) && (forall i :: 0 <= i < |ports| && i <= n ==> ports[i] != p) ==> queues[p] == s[p])
  }

  /** Dispatch, port by port: up to the first head for this node every waiting head is
      consumed, foreign ones relayed in order; that first head is delivered and stays where
      it is; every other queue is untouched. */
  ghost predicate Dispatched(node: Node, s: Ports, ports: seq<nat>, v: Visit) {
    var n := FirstMine(node, s, ports);
    && v.relayed == ForeignHeads(node, s, ports[..n])
    && v.delivery == (if n == |ports| then Nothing else Deliver(ports[n], Judge(node, s[ports[n]].records[0]).packet))
    && QueuesAfter(s, ports, n, v.queues)
  }

  lemma VisitPortOutcome(node: Node, s: Ports, port: nat)
    requires AllStorable(s)
    ensures var v := VisitPort(node, s, port);
      && (forall p :: IsPort(p) && p != port ==> v.queues[p] == s[p])
      && (HeadIsMine(node, s, port) ==>
            v == Visit(s[port := s[port].(peeked := true)], Deliver(port, Judge(node, s[port].records[0]).packet), []))
      && (!HeadIsMine(node, s, port) ==> v.delivery == Nothing && v.relayed == ForeignHead(node, s, port))
      && (!HeadIsMine(node, s, port) && IsPort(port) ==> v.queues[port] == DropHead(s[port]))
      && AllStorable(v.queues)
  {
    if IsPort(port) && s[port].records != [] {
      assert Storable(s[port].records[0].payload);
    }
  }

  lemma MineDispatches(node: Node, s: Ports, ports: seq<nat>)
    requires AllStorable(s) && ports != [] && HeadIsMine(node, s, ports[0])
    ensures Dispatched(node, s, ports, VisitPorts(node, s, ports))
  {
    VisitPortOutcome(node, s, ports[0]);
    assert FirstMine(node, s, ports) == 0 && ForeignHeads(node, s, ports[..0]) == [];
  }

  /** What a visit does to a waiting head, in terms of what it decodes to: a packet routed to this
      node's address or to 255 is delivered and stays, named after its place if it has no
      identifier; one routed elsewhere is relayed and goes; one that does not decode or has no
      routing just goes. */
  lemma HeadIsJudged(node: Node, s: Ports, port: nat)
    requires AllStorable(s) && IsPort(port) && s[port].records != []
    ensures var r, v := s[port].records[0], VisitPort(node, s, port);
      match node.decode(r.payload)
      case None => v.delivery == Nothing && v.relayed == [] && v.queues[port].records == s[port].records[1..]
      case Some(p) =>
        if p.routing == None then
          v.delivery == Nothing && v.relayed == [] && v.queues[port].records == s[port].records[1..]
        else if p.routing.value.receiver % 256 == node.local || p.routing.value.receiver % 256 == 255 then
          v.delivery == Deliver(port, p.(id := if p.id == 0 then (r.at + 1) % 0x1_0000_0000 else p.id))
          && v.relayed == [] && v.queues[port].records == s[port].records
        else v.delivery == Nothing && v.relayed == [p] && v.queues[port].records == s[port].records[1..]
  {
    assert Storable(s[port].records[0].payload);
  }

  lemma {:induction false} VisitPortsDispatches(node: Node, s: Ports, ports: seq<nat>)
    requires AllStorable(s) && Distinct(ports)
    ensures Dispatched(node, s, ports, VisitPorts(node, s, ports))
    decreases ports
  {
    if ports == [] {
    } else {
      VisitPortOutcome(node, s, ports[0]);
      if HeadIsMine(node, s, ports[0]) {
        MineDispatches(node, s, ports);
      } else {
        var v := VisitPort(node, s, ports[0]);
        VisitPortsDispatches(node, v.queues, ports[1..]);
        assert forall i :: 0 < i < |ports| ==> ports[i] == ports[1..][i - 1];
        SameHeads(node, s, v.queues, ports[1..]);
        SameHeads(node, s, v.queues, ports[1..][..FirstMine(node, s, ports[1..])]);
        DispatchedCons(node, s, ports, v, VisitPorts(node, v.queues, ports[1..]));
      }
    }
  }

  /** Judging ports depends only on their own queues. */
  lemma {:induction false} SameHeads(node: Node, s: Ports, t: Ports, ports: seq<nat>)
    requires forall i :: 0 <= i < |ports| && IsPort(ports[i]) ==> s[ports[i]] == t[ports[i]]
    ensures FirstMine(node, s, ports) == FirstMine(node, t, ports)
    ensures ForeignHeads(node, s, ports) == ForeignHeads(node, t, ports)
    decreases ports
  {
    if ports == [] {
    } else {
      assert forall i :: 0 <= i < |ports[1..]| ==> ports[1..][i] == ports[i + 1];
      SameHeads(node, s, t, ports[1..]);
    }
  }

  lemma QueuesAfterCons(s: Ports, t: Ports, ports: seq<nat>, m: nat, queues: Ports)
    requires ports != [] && Distinct(ports) && m <= |ports[1..]|
    requires forall p :: IsPort(p) && p != ports[0] ==> t[p] == s[p]
    requires IsPort(ports[0]) ==> t[ports[0]] == DropHead(s[ports[0]])
    requires QueuesAfter(t, ports[1..], m, queues)
    ensures QueuesAfter(s, ports, m + 1, queues)
  {
  }

  lemma DispatchedCons(node: Node, s: Ports, ports: seq<nat>, v: Visit, rest: Visit)
    requires ports != [] && Distinct(ports) && !HeadIsMine(node, s, ports[0])
    requires v.relayed == ForeignHead(node, s, ports[0])
    requires forall p :: IsPort(p) && p != ports[0] ==> v.queues[p] == s[p]
    requires IsPort(ports[0]) ==> v.queues[ports[0]] == DropHead(s[ports[0]])
    requires Dispatched(node, v.queues, ports[1..], rest)
    requires FirstMine(node, s, ports[1..]) == FirstMine(node, v.queues, ports[1..])
    requires var m := FirstMine(node, s, ports[1..]);
      ForeignHeads(node, s, ports[1..][..m]) == ForeignHeads(node, v.queues, ports[1..][..m])
    ensures Dispatched(node, s, ports, rest.(relayed := v.relayed + rest.relayed))
  {
    QueuesAfterCons(s, v.queues, ports, FirstMine(node, s, ports[1..]), rest.queues);
    FrontNotMine(node, s, ports);
    assert forall i :: 0 < i < |ports| ==> ports[i] == ports[1..][i - 1] != ports[0];
  }

  /** A first port without a packet for this node only puts its foreign head in front. */
  lemma FrontNotMine(node: Node, s: Ports, ports: seq<nat>)
    requires ports != [] && !HeadIsMine(node, s, ports[0])
    ensures var m := FirstMine(node, s, ports[1..]);
      FirstMine(node, s, ports) == m + 1
      && ForeignHeads(node, s, ports[..m + 1])
        == ForeignHead(node, s, ports[0]) + ForeignHeads(node, s, ports[1..][..m])
  {
    var m := FirstMine(node, s, ports[1..]);
    assert ports[..m + 1][1..] == ports[1..][..m];
  }

  /** All that a dispatch may do to a port, also on a card whose reads fail: leave it alone,
      consume a head that is not for this node, or deliver its head and mark it as seen. */
  ghost predicate PortVisited(node: Node, q: PortQueue, q': PortQueue, port: nat, d: Delivery) {
    if d.Deliver? && d.port == port then
      q.records != [] && Judge(node, q.records[0]) == Mine(d.packet) && q' == q.(peeked := true)
    else q' == q || (q.records != [] && !Judge(node, q.records[0]).Mine? && q' == DropHead(q))
  }

  ghost predicate AllVisited(node: Node, before: Ports, now: Ports, d: Delivery) {
    forall p :: IsPort(p) ==> PortVisited(node, before[p], now[p], p, d)
  }

  /** What one port's turn does to all the ports. */
  ghost predicate OneVisited(node: Node, before: Ports, now: Ports, port: nat, d: Delivery) {
    && (d.Deliver? ==> d.port == port)
    && (IsPort(port) ==> PortVisited(node, before[port], now[port], port, d))
    && forall p :: IsPort(p) && p != port ==> now[p] == before[p]
  }

  /** A head that has been peeked is delivered if it is for this node and skipped otherwise. */
  lemma PeekedIsVisited(node: Node, s: Ports, peeked: Ports, now: Ports, port: nat, d: Delivery)
    requires IsPort(port) && s[port].records != [] && peeked == s[port := s[port].(peeked := true)]
    requires match Judge(node, s[port].records[0])
      case Mine(p) => d == Deliver(port, p) && now == peeked
      case _ => d == Nothing && now == Step(peeked, Skip(port))
    ensures OneVisited(node, s, now, port, d)
    ensures Returned(s, Next(port, READ_SIZE, false)).Some? ==>
      VisitPort(node, s, port) == Visit(now, d, ForeignHead(node, s, port))
  {
  }

  /** Each port listed so far has had its turn, without a delivery, and the others none. */
  ghost predicate VisitedSoFar(node: Node, before: Ports, now: Ports, types: seq<nat>) {
    forall p :: IsPort(p) ==>
      if p in types then PortVisited(node, before[p], now[p], p, Nothing) else now[p] == before[p]
  }

  lemma OneMoreVisited(node: Node, before: Ports, was: Ports, now: Ports, types: seq<nat>, i: nat, d: Delivery)
    requires i < |types| && Distinct(types)
    requires VisitedSoFar(node, before, was, types[..i]) && OneVisited(node, was, now, types[i], d)
    ensures d.Nothing? ==> VisitedSoFar(node, before, now, types[..i + 1])
    ensures d.Deliver? ==> AllVisited(node, before, now, d)
  {
    assert types[i] !in types[..i] && types[..i + 1] == types[..i] + [types[i]];
  }

  // ---- arrivals during a dispatch ----

  function PushTo(s: Ports, port: nat, payload: Payload, ts: U32): Ports
    requires IsPort(port)
  {
    s[port := PushOn(s[port], payload, ts)]
  }

  /** A packet may arrive while another one is being relayed or answered. On a port that the rest
      of the visit does not look at, arriving before that rest or after it is the same. */
  lemma {:induction false} ArrivalElsewhereCommutes(node: Node, s: Ports, ports: seq<nat>, port: nat,
      payload: Payload, ts: U32)
    requires IsPort(port) && port !in ports
    ensures var v := VisitPorts(node, s, ports);
      VisitPorts(node, PushTo(s, port, payload, ts), ports) == v.(queues := PushTo(v.queues, port, payload, ts))
    decreases ports
  {
    if ports == [] {
    } else {
      var v := VisitPort(node, s, ports[0]);
      assert VisitPort(node, PushTo(s, port, payload, ts), ports[0])
        == v.(queues := PushTo(v.queues, port, payload, ts));
      ArrivalElsewhereCommutes(node, v.queues, ports[1..], port, payload, ts);
    }
  }

  /** While the head of a port is being dealt with, an arrival goes behind it if it is for that
      port; so it may as well come after the head has gone. */
  lemma ArrivalBehindHeadCommutes(s: Ports, head: nat, port: nat, payload: Payload, ts: U32)
    requires IsPort(head) && IsPort(port) && s[head].records != []
    ensures Step(PushTo(s, port, payload, ts), Skip(head)) == PushTo(Step(s, Skip(head)), port, payload, ts)
  {
    var q := s[head];
    assert PushOn(q, payload, ts).records[1..] == q.records[1..] + [Record(q.end, ts, payload)];
    assert Step(PushTo(s, port, payload, ts), Skip(head))[port] == PushTo(Step(s, Skip(head)), port, payload, ts)[port];
  }

  /** Whatever a visit delivers waits at the head of its port. */
  lemma {:induction false} DeliveryWaits(node: Node, s: Ports, ports: seq<nat>)
    ensures var v := VisitPorts(node, s, ports);
      v.delivery.Deliver? ==> IsPort(v.delivery.port) && v.queues[v.delivery.port].records != []
    decreases ports
  {
    if ports == [] {
    } else {
      DeliveryWaits(node, VisitPort(node, s, ports[0]).queues, ports[1..]);
    }
  }

  /** The outcome of relaying these first. */
  function Before(relayed: seq<Packet>, v: Visit): Visit { v.(relayed := relayed + v.relayed) }

  lemma BeforeTwice(a: seq<Packet>, b: seq<Packet>, v: Visit)
    ensures Before(a, Before(b, v)) == Before(a + b, v)
  {
    assert a + (b + v.relayed) == (a + b) + v.relayed;
  }

  lemma VisitPortsFirst(node: Node, s: Ports, ports: seq<nat>)
    requires ports != [] && VisitPort(node, s, ports[0]).delivery.Nothing?
    ensures var v := VisitPort(node, s, ports[0]);
      VisitPorts(node, s, ports) == Before(v.relayed, VisitPorts(node, v.queues, ports[1..]))
  {
  }

  lemma {:induction false} VisitPortsSplits(node: Node, s: Ports, xs: seq<nat>, ys: seq<nat>)
    requires VisitPorts(node, s, xs).delivery.Nothing?
    ensures var v := VisitPorts(node, s, xs);
      VisitPorts(node, s, xs + ys) == Before(v.relayed, VisitPorts(node, v.queues, ys))
    decreases xs
  {
    if xs == [] {
      assert xs + ys == ys;
      assert Before([], VisitPorts(node, s, ys)) == VisitPorts(node, s, ys);
    } else {
      var v := VisitPort(node, s, xs[0]);
      var rest := VisitPorts(node, v.queues, xs[1..]);
      VisitPortsFirst(node, s, xs);
      assert (xs + ys)[1..] == xs[1..] + ys;
      VisitPortsFirst(node, s, xs + ys);
      VisitPortsSplits(node, v.queues, xs[1..], ys);
      BeforeTwice(v.relayed, rest.relayed, VisitPorts(node, rest.queues, ys));
    }
  }

  /** So a dispatch during which a packet arrives, after the ports `xs` and before the ports
      `ys`, is a dispatch with the packet arriving before it or after it. */
  lemma ArrivalMovesOut(node: Node, s: Ports, xs: seq<nat>, ys: seq<nat>, port: nat, payload: Payload, ts: U32)
    requires IsPort(port) && Distinct(xs + ys) && VisitPorts(node, s, xs).delivery.Nothing?
    ensures var v := VisitPorts(node, s, xs);
      var rest := VisitPorts(node, PushTo(v.queues, port, payload, ts), ys);
      var whole := Before(v.relayed, rest);
      var calm := VisitPorts(node, s, xs + ys);
      whole == if port in ys then VisitPorts(node, PushTo(s, port, payload, ts), xs + ys)
               else calm.(queues := PushTo(calm.queues, port, payload, ts))
  {
    VisitPortsSplits(node, s, xs, ys);
    if port in ys {
      var j :| 0 <= j < |ys| && ys[j] == port;
      forall i | 0 <= i < |xs| ensures xs[i] != port {
        assert (xs + ys)[i] != (xs + ys)[|xs| + j];
      }
      ArrivalElsewhereCommutes(node, s, xs, port, payload, ts);
      VisitPortsSplits(node, PushTo(s, port, payload, ts), xs, ys);
    } else {
      ArrivalElsewhereCommutes(node, VisitPorts(node, s, xs).queues, ys, port, payload, ts);
    }
  }

  /** A packet to be sent through a port. */
  datatype Attempt = Attempt(port: nat, packet: Packet)

  /** Bytes that a port has been given to send, and whether it said that it sent them. */
  datatype Handover = Handover(port: nat, bytes: seq<Byte>, ok: bool)

  /** Relaying is one attempt per relayed port type, for each packet in turn. */
  function RelayAttempts(packets: seq<Packet>, relayedPorts: seq<nat>): seq<Attempt> {
    if packets == [] then []
    else
      var first := seq(|relayedPorts|, i requires 0 <= i < |relayedPorts| => Attempt(relayedPorts[i], packets[0]));
      first + RelayAttempts(packets[1..], relayedPorts)
  }

  lemma RelayOne(packet: Packet, relayedPorts: seq<nat>)
    ensures var all := RelayAttempts([packet], relayedPorts);
      |all| == |relayedPorts| && forall i :: 0 <= i < |all| ==> all[i] == Attempt(relayedPorts[i], packet)
  {
  }

  lemma {:induction false} RelayAttemptsAppend(xs: seq<Packet>, ys: seq<Packet>, relayedPorts: seq<nat>)
    ensures RelayAttempts(xs + ys, relayedPorts) == RelayAttempts(xs, relayedPorts) + RelayAttempts(ys, relayedPorts)
  {
    if xs == [] {
      assert xs + ys == ys;
    } else {
      assert (xs + ys)[1..] == xs[1..] + ys;
      RelayAttemptsAppend(xs[1..], ys, relayedPorts);
    }
  }

  /** The outcome of a dispatch loop that has already relayed some packets. */
  function Resumed(node: Node, s: Ports, ports: seq<nat>, relayed: seq<Packet>): Visit {
    var rest := VisitPorts(node, s, ports);
    rest.(relayed := relayed + rest.relayed)
  }

  lemma Resume(node: Node, s: Ports, ports: seq<nat>, i: nat, relayed: seq<Packet>)
    requires i < |ports|
    ensures var v := VisitPort(node, s, ports[i]);
      Resumed(node, s, ports[i..], relayed)
        == if v.delivery.Deliver? then v.(relayed := relayed + v.relayed)
           else Resumed(node, v.queues, ports[i + 1..], relayed + v.relayed)
  {
  }

  class Router {
    const queue: PQ.PacketQueue
    const ports: seq<Port>
    const relayedPorts: seq<nat>
    const decode: seq<Byte> -> Option<Packet>
    const encode: Packet -> Option<seq<Byte>>
    var shared: Packet            // the communication packet in shared memory
    ghost var attempts: seq<Attempt>
    ghost var outcomes: seq<bool>      // of each attempt
    ghost var handed: seq<Handover>    // what the ports have seen of them

    constructor (queue: PQ.PacketQueue, ports: seq<Port>, relayedPorts: seq<nat>,
        decode: seq<Byte> -> Option<Packet>, encode: Packet -> Option<seq<Byte>>, shared: Packet)
      ensures this.queue == queue && this.ports == ports && this.relayedPorts == relayedPorts
      ensures this.decode == decode && this.encode == encode && this.shared == shared
      ensures attempts == [] && outcomes == [] && handed == [] && Faithful()
    {
      this.queue, this.ports, this.relayedPorts := queue, ports, relayedPorts;
      this.decode, this.encode, this.shared := decode, encode, shared;
      attempts, outcomes, handed := [], [], [];
    }

    function PortTypes(): seq<nat> {
      seq(|ports|, i requires 0 <= i < |ports| => ports[i].portType)
    }

    function AsNode(local: Byte): Node {
      Node(decode, PortTypes(), local)
    }

    /** Whether a port has something to read: most look at their own queue, the Iridium port at
        all of them. */
    method Available(port: Port) returns (b: bool)
      requires queue.Valid()
      ensures b <==> if port.watchesAllQueues then Waiting(queue.q) > 0 else !PortEmpty(queue.q, port.portType)
      ensures !b ==> PortEmpty(queue.q, port.portType)
    {
      var empty;
      if port.watchesAllQueues {
        empty := queue.IsEmpty();
      } else {
        empty := queue.IsPortEmpty(port.portType);
      }
      return !empty;
    }

    /** The port's own `send`: it is given the first `n` bytes of the shared buffer, may use that
        buffer for what it receives, and decides about the outcome. */
    method HandOver(port: Port, n: nat) returns (ok: bool)
      requires queue.Wired() && n <= queue.tmp.Length
      modifies this`handed, queue.tmp
      ensures handed == old(handed) + [Handover(port.portType, old(queue.tmp[..n]), ok)]
    {
      ok := *;
      handed := handed + [Handover(port.portType, queue.tmp[..n], ok)];
      for i := 0 to queue.tmp.Length
        invariant handed == old(handed) + [Handover(port.portType, old(queue.tmp[..n]), ok)]
      {
        var b: Byte := *;
        queue.tmp[i] := b;
      }
    }

    /** There is a port of that type, and the packet's encoding fits the shared buffer. */
    predicate Sendable(a: Attempt) {
      a.port in PortTypes() && encode(a.packet).Some? && |encode(a.packet).value| <= TMP_BUFFER_SIZE
    }

    /** What the ports see of some attempts. */
    ghost function Wire(attempts: seq<Attempt>, outcomes: seq<bool>): seq<Handover>
      requires |attempts| == |outcomes|
    {
      if attempts == [] then []
      else
        var n := |attempts| - 1;
        var last := attempts[n];
        Wire(attempts[..n], outcomes[..n])
        + (if Sendable(last) then [Handover(last.port, encode(last.packet).value, outcomes[n])] else [])
    }

    lemma WireAppend(attempts: seq<Attempt>, outcomes: seq<bool>, a: Attempt, ok: bool)
      requires |attempts| == |outcomes|
      ensures Wire(attempts + [a], outcomes + [ok])
        == Wire(attempts, outcomes) + (if Sendable(a) then [Handover(a.port, encode(a.packet).value, ok)] else [])
    {
      assert (attempts + [a])[..|attempts|] == attempts && (outcomes + [ok])[..|outcomes|] == outcomes;
    }

    /** Every attempt that can be sent has reached its port, as its encoding and once, and counts as
        sent exactly when the port said so. */
    ghost predicate Faithful()
      reads this
    {
      && |outcomes| == |attempts| && handed == Wire(attempts, outcomes)
      && forall i :: 0 <= i < |attempts| && outcomes[i] ==> Sendable(attempts[i])
    }

    /** Encodes into the shared buffer and hands the bytes to the port of that type, whose
        own outcome is not ours to decide. */
    method SendToPort(port: nat, packet: Packet) returns (ok: bool)
      requires queue.Wired() && Faithful()
      modifies this`attempts, this`outcomes, this`handed, queue.tmp
      ensures attempts == old(attempts) + [Attempt(port, packet)] && outcomes == old(outcomes) + [ok]
      ensures handed == old(handed) +
        if port in PortTypes() && encode(packet).Some? && |encode(packet).value| <= TMP_BUFFER_SIZE
        then [Handover(port, encode(packet).value, ok)] else []
      ensures Faithful()
    {
      ok := TryPorts(port, packet);
      WireAppend(attempts, outcomes, Attempt(port, packet), ok);
      attempts, outcomes := attempts + [Attempt(port, packet)], outcomes + [ok];
    }

    method TryPorts(port: nat, packet: Packet) returns (ok: bool)
      requires queue.Wired()
      modifies this`handed, queue.tmp
      ensures handed == old(handed) +
        if Sendable(Attempt(port, packet)) then [Handover(port, encode(packet).value, ok)] else []
      ensures ok ==> Sendable(Attempt(port, packet))
    {
      var bytes := encode(packet);
      if bytes == None || |bytes.value| > TMP_BUFFER_SIZE { return false; }
      for i := 0 to |bytes.value|
        invariant queue.tmp[..i] == bytes.value[..i] && handed == old(handed)
      {
        queue.tmp[i] := bytes.value[i];
      }
      for i := 0 to |ports|
        invariant queue.tmp[..|bytes.value|] == bytes.value && handed == old(handed)
        invariant forall k :: 0 <= k < i ==> PortTypes()[k] != port
      {
        if ports[i].portType == port {
          assert PortTypes()[i] == port;
          ok := HandOver(ports[i], |bytes.value|);
          return;
        }
      }
      return false;
    }

    /** One attempt per relayed port type, in order, whatever the outcomes. */
    method RelayPacket(packet: Packet)
      requires queue.Wired() && Faithful()
      modifies this`attempts, this`outcomes, this`handed, queue.tmp
      ensures attempts == old(attempts) + RelayAttempts([packet], relayedPorts)
      ensures Faithful() && old(outcomes) <= outcomes && old(handed) <= handed
    {
      ghost var all := RelayAttempts([packet], relayedPorts);
      RelayOne(packet, relayedPorts);
      for i := 0 to |relayedPorts|
        invariant attempts == old(attempts) + all[..i]
        invariant Faithful() && old(outcomes) <= outcomes && old(handed) <= handed
      {
        var _ := SendToPort(relayedPorts[i], packet);
      }
      assert all[..|relayedPorts|] == all;
    }

    /** The state and the answer are those of a visit. */
    ghost predicate Follows(v: Visit, d: Delivery, before: seq<Attempt>)
      reads this, queue
    {
      && queue.q == v.queues && d == v.delivery
      && attempts == before + RelayAttempts(v.relayed, relayedPorts)
    }

    /** A delivery is the packet in shared memory, and its record is still at the head of its
        port, marked as seen. */
    ghost predicate Delivered(d: Delivery, node: Node)
      reads this, queue
    {
      d.Deliver? ==>
        && d.packet == shared && IsPort(d.port) && d.port in PortTypes()
        && queue.q[d.port].records != [] && queue.q[d.port].peeked
        && Judge(node, queue.q[d.port].records[0]) == Mine(shared)
    }

    /** Decides about the record just peeked into the shared buffer: keeps it at the head if it
        is for this node, and otherwise relays it if it is foreign and skips it. */
    method Dispatch(port: nat, n: nat, local: Byte) returns (d: Delivery)
      requires queue.Valid() && Faithful()
      requires IsPort(port) && queue.q[port].records != [] && queue.q[port].peeked
      requires n <= queue.tmp.Length && queue.tmp[..n] == queue.q[port].records[0].payload
      modifies this, queue, queue.tmp, queue.readOffset
      ensures queue.Valid() && Faithful()
      ensures var verdict := Judge(AsNode(local), old(queue.q)[port].records[0]);
        match verdict
        case Mine(p) => d == Deliver(port, p) && shared == p && queue.q == old(queue.q) && attempts == old(attempts)
        case Foreign(p) => d == Nothing && queue.q == Step(old(queue.q), Skip(port))
          && attempts == old(attempts) + RelayAttempts([p], relayedPorts)
        case Unusable => d == Nothing && queue.q == Step(old(queue.q), Skip(port)) && attempts == old(attempts)
    {
      d := Nothing;
      var decoded := decode(queue.tmp[..n]);
      if decoded == None {
        var skipped := SkipToNextPacket(port);
        assert skipped;
        return;
      }
      shared := decoded.value;
      if shared.routing == None {
        var skipped := SkipToNextPacket(port);
        assert skipped;
        return;
      }
      var receiver := shared.routing.value.receiver % 0x100;
      if receiver != local && receiver != BROADCAST {
        RelayPacket(shared);
        var skipped := SkipToNextPacket(port);
        assert skipped;
        return;
      }
      if shared.id == 0 {
        var offset := queue.GetReadOffset(port);
        assert queue.PortValid(port);
        shared := shared.(id := (offset + 1) % 0x1_0000_0000);
      }
      return Deliver(port, shared);
    }

    /** One port's turn in the dispatch loop. */
    method VisitOne(port: Port, local: Byte) returns (d: Delivery)
      requires queue.Valid() && Faithful() && port.portType in PortTypes()
      modifies this, queue, queue.tmp, queue.readOffset, queue.nextReadOffset
      ensures queue.Valid() && Faithful() && Delivered(d, AsNode(local))
      ensures OneVisited(AsNode(local), old(queue.q), queue.q, port.portType, d)
      ensures queue.storage.healthy ==> Follows(VisitPort(AsNode(local), old(queue.q), port.portType), d, old(attempts))
    {
      assert attempts + RelayAttempts([], relayedPorts) == attempts;
      var available := Available(port);
      if !available { return Nothing; }
      var n := queue.PeekNext(port.portType, queue.tmp, READ_SIZE);
      if n == 0 { return Nothing; }
      ghost var peeked := queue.q;
      d := Dispatch(port.portType, n, local);
      PeekedIsVisited(AsNode(local), old(queue.q), peeked, queue.q, port.portType, d);
    }

    /** What is left of a dispatch loop, once some packets have been relayed, ends in `whole`. */
    ghost predicate Pending(whole: Visit, node: Node, rest: seq<nat>, relayed: seq<Packet>, before: seq<Attempt>)
      reads this, queue
    {
      queue.storage.healthy ==>
        attempts == before + RelayAttempts(relayed, relayedPorts) && whole == Resumed(node, queue.q, rest, relayed)
    }

    /** Visits the registered ports in order until one delivers. Whether or not the card answers,
        it does no more to a port than a visit may; on a card that answers, it is the visit. */
    method PeekNextPacket(local: Byte) returns (d: Delivery)
      requires queue.Valid() && Faithful()
      modifies this, queue, queue.tmp, queue.readOffset, queue.nextReadOffset
      ensures queue.Valid() && Faithful() && Delivered(d, AsNode(local))
      ensures Distinct(PortTypes()) ==> AllVisited(AsNode(local), old(queue.q), queue.q, d)
      ensures queue.storage.healthy ==> Follows(VisitPorts(AsNode(local), old(queue.q), PortTypes()), d, old(attempts))
    {
      ghost var node, types := AsNode(local), PortTypes();
      ghost var whole := VisitPorts(node, queue.q, types);
      ghost var relayed: seq<Packet> := [];
      assert types[0..] == types && [] + whole.relayed == whole.relayed;
      for i := 0 to |ports|
        invariant queue.Valid() && Faithful()
        invariant Distinct(types) ==> VisitedSoFar(node, old(queue.q), queue.q, types[..i])
        invariant Pending(whole, node, types[i..], relayed, old(attempts))
      {
        ghost var was := queue.q;
        relayed, d := VisitNext(whole, node, types, i, relayed, old(attempts), local);
        if Distinct(types) { OneMoreVisited(node, old(queue.q), was, queue.q, types, i, d); }
        if d.Deliver? { return; }
      }
      assert types[|ports|..] == [] && relayed + [] == relayed && types[..|ports|] == types;
      return Nothing;
    }

    method VisitNext(ghost whole: Visit, ghost node: Node, ghost types: seq<nat>, i: nat, ghost relayed: seq<Packet>,
        ghost before: seq<Attempt>, local: Byte)
      returns (ghost relayed': seq<Packet>, d: Delivery)
      requires queue.Valid() && Faithful() && node == AsNode(local) && types == PortTypes() && i < |types|
      requires Pending(whole, node, types[i..], relayed, before)
      modifies this, queue, queue.tmp, queue.readOffset, queue.nextReadOffset
      ensures queue.Valid() && Faithful() && Delivered(d, node)
      ensures OneVisited(node, old(queue.q), queue.q, types[i], d)
      ensures d.Nothing? ==> Pending(whole, node, types[i + 1..], relayed', before)
      ensures d.Deliver? && queue.storage.healthy ==> Follows(whole, d, before)
    {
      assert types[i] == ports[i].portType;
      ghost var v := VisitPort(node, queue.q, types[i]);
      Resume(node, queue.q, types, i, relayed);
      RelayAttemptsAppend(relayed, v.relayed, relayedPorts);
      relayed' := relayed + v.relayed;
      d := VisitOne(ports[i], local);
      assert before + (RelayAttempts(relayed, relayedPorts) + RelayAttempts(v.relayed, relayedPorts))
        == before + RelayAttempts(relayed, relayedPorts) + RelayAttempts(v.relayed, relayedPorts);
    }

    method SkipToNextPacket(port: nat) returns (ok: bool)
      requires queue.Valid()
      modifies queue, queue.readOffset
      ensures queue.Valid() && queue.q == Step(old(queue.q), Skip(port))
      ensures ok == (IsPort(port) && SkipOn(old(queue.q)[port]).1)
    {
      ok := queue.SkipToNextPacket(port);
    }
  }
}
