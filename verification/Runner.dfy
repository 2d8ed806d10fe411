/** The runner: one incoming packet per call, with the retry table it updates in place. Its
    method is proved to be `RetrySpec.Cycle`, about which the run-wide results are proved. */
module Runner {
  import opened Bytes
  import opened QueueSpec
  import opened Router
  import opened RetrySpec
  import PQ = PacketQueue
  import Storage

  /** Records stored one after another are chained. */
  lemma {:induction false} StoredIsChained(file: seq<Byte>, from: nat, records: seq<Record>)
    requires PQ.Stored(file, from, records)
    ensures forall i :: 0 <= i < |records| ==> Storable(records[i].payload) && from <= records[i].at < |file|
    ensures forall i, j :: 0 <= i < j < |records| ==> records[i].at < records[j].at
    decreases |records|
  {
    if records == [] {
    } else {
      StoredIsChained(file, from + Size(records[0]), records[1..]);
      assert forall i :: 0 < i < |records| ==> records[i] == records[1..][i - 1];
    }
  }

  /** Only one port's entry changes, and that as the protocol treats a packet there. */
  ghost predicate Treats(c: Config, packet: Packet, port: nat, at: nat, before: RetryTable, env: Env,
      event: Event, after: seq<RetryEntry>)
  {
    IsPort(port) &&
    var t := Treat(c, packet, port, at, before[port], env);
    event == t.event && after == before[port := t.entry]
  }

  /** A visit that delivers, and then a treatment of what it delivered, is a cycle. */
  lemma CycleTreats(c: Config, s: State, env: Env, v: Visit, s': State, event: Event)
    requires v == VisitPorts(c.node, s.queues, c.node.ports) && v.delivery.Deliver?
    requires IsPort(v.delivery.port) && v.queues[v.delivery.port].records != []
    requires var port := v.delivery.port;
      var t := Treat(c, v.delivery.packet, port, v.queues[port].records[0].at, s.retry[port], env);
      && event == t.event && s'.retry == s.retry[port := t.entry]
      && s'.queues == if t.remove then Step(v.queues, Skip(port)) else v.queues
    ensures (s', event) == Cycle(c, s, env)
  {
  }

  /** A dispatch that delivers nothing has done to each port what a cycle may. */
  lemma IdleIsPortCycle(c: Config, s: State, env: Env, queues: Ports, p: nat)
    requires IsPort(p) && PortVisited(c.node, s.queues[p], queues[p], p, Nothing)
    ensures PortCycle(c, env, p, s.queues[p], s.retry[p], queues[p], s.retry[p], Idle)
  {
  }

  /** A dispatch that delivers, and then a treatment of what it delivered, have done to each
      port what a cycle may. */
  lemma TreatedIsPortCycle(c: Config, s: State, env: Env, v: Ports, d: Delivery, s': State, event: Event, p: nat)
    requires IsPort(p) && d.Deliver? && IsPort(d.port) && s.queues[d.port].records != []
    requires PortVisited(c.node, s.queues[p], v[p], p, d) && v[d.port] == s.queues[d.port].(peeked := true)
    requires var t := Treat(c, d.packet, d.port, s.queues[d.port].records[0].at, s.retry[d.port], env);
      && event == t.event && s'.retry == s.retry[d.port := t.entry]
      && s'.queues == if t.remove then Step(v, Skip(d.port)) else v
    ensures PortCycle(c, env, p, s.queues[p], s.retry[p], s'.queues[p], s'.retry[p], event)
  {
    SkipPeeked(v, d.port, s.queues[d.port]);
  }

  class NodeOperationRunner {
    const router: Router
    const routines: map<Byte, map<Byte, nat>>
    const errorPacket: Packet  // what the error builder leaves in shared memory
    const retry: array<RetryEntry>

    ghost predicate Valid()
      reads router, router.queue, router.queue.storage
      reads router.queue.writeOffset, router.queue.readOffset, router.queue.nextReadOffset
    {
      router.queue.Valid() && router.Faithful() && retry.Length == MAX_PORT + 1
    }

    constructor (router: Router, routines: map<Byte, map<Byte, nat>>, errorPacket: Packet)
      requires router.queue.Valid() && router.Faithful()
      ensures Valid() && fresh(retry)
      ensures this.router == router && this.routines == routines && this.errorPacket == errorPacket
      ensures Abstract() == State(router.queue.q, [NO_ENTRY, NO_ENTRY, NO_ENTRY, NO_ENTRY, NO_ENTRY])
    {
      this.router, this.routines, this.errorPacket := router, routines, errorPacket;
      retry := new RetryEntry[MAX_PORT + 1](_ => NO_ENTRY);
    }

    ghost function Abstract(): State
      requires retry.Length == MAX_PORT + 1
      reads retry, router.queue
    {
      State(router.queue.q, retry[..])
    }

    /** What the card and the offsets hold is always a state the protocol's results apply to. */
    lemma ValidIsWellFormed()
      requires Valid()
      ensures WellFormed(Abstract())
    {
      forall p | IsPort(p) ensures Chained(Abstract().queues[p]) {
        assert router.queue.PortValid(p);
        StoredIsChained(router.queue.storage.files[Storage.QueuePath(p)], router.queue.readOffset[p],
          router.queue.q[p].records);
      }
    }

    ghost function Configuration(local: U32): (c: Config)
      ensures c.node.local == local % 0x100 && c.node.decode == router.decode && c.routines == routines
    {
      Config(router.AsNode(local % 0x100), routines)
    }

    method FindRoutine(bodyTag: Byte, payloadTag: Byte) returns (routine: Option<nat>)
      ensures routine.Some? <==> bodyTag in routines && payloadTag in routines[bodyTag]
      ensures routine.Some? ==> routine.value == routines[bodyTag][payloadTag]
    {
      if bodyTag !in routines { return None; }
      var byPayload := routines[bodyTag];
      if payloadTag !in byPayload { return None; }
      return Some(byPayload[payloadTag]);
    }

    /** The packet a finished routine leaves to be sent; an error becomes an error packet. */
    method OutputOf(result: RoutineResult) returns (output: Option<Packet>)
      requires !result.Incomplete?
      ensures output == None <==> result == Success(None)
      ensures result.Success? ==> output == result.output
      ensures result.Failure? ==> output == Some(errorPacket)
    {
      match result
      case Success(packet) => output := packet;
      case Failure => output := Some(errorPacket);
    }

    /** What answers a packet: its routine's output or an error, under the packet's identifier. */
    function Response(packet: Packet, result: RoutineResult): Packet {
      match result
      case Success(Some(output)) => output.(id := packet.id)
      case _ => errorPacket.(id := packet.id)
    }

    /** Exactly one more packet was handed to a port: this one, readdressed, to this port; and
        `ok` is what became of it. */
    ghost predicate AttemptedLast(before: seq<Attempt>, port: nat, packet: Packet, ok: bool)
      reads router
    {
      && |router.outcomes| == |router.attempts| == |before| + 1 && before <= router.attempts
      && router.outcomes[|before|] == ok
      && router.attempts[|before|].port == port
      && router.attempts[|before|].packet.(routing := None) == packet.(routing := None)
    }

    /** What a treatment hands to ports: the response when there is one to send, an error packet
        when there is no routine, and otherwise nothing. */
    ghost predicate Handed(before: seq<Attempt>, event: Event, port: nat, packet: Packet, result: RoutineResult)
      reads router
    {
      if event.Answered? || event.SendFailed? then
        AttemptedLast(before, port, Response(packet, result), event.Answered?)
      else if event.NoRoutine? then AttemptedLast(before, port, errorPacket, event.sent)
      else router.attempts == before
    }

    /** The last packet handed to a port went to this one, under this identifier, and the port sent
        it or did not. */
    ghost predicate SentLast(port: nat, id: U32, ok: bool)
      reads router
    {
      && router.attempts != [] && |router.outcomes| == |router.attempts|
      && var n := |router.attempts| - 1;
         router.attempts[n].port == port && router.attempts[n].packet.id == id && router.outcomes[n] == ok
    }

    /** It had this packet's body. */
    ghost predicate LastCarries(packet: Packet)
      reads router
    {
      && router.attempts != []
      && var last := router.attempts[|router.attempts| - 1].packet;
         && last.bodyTag == packet.bodyTag && last.payloadTag == packet.payloadTag && last.content == packet.content
    }

    /** What an event says about sending is what happened: a packet counts as answered exactly when
        its port sent the answer, which carries the routine's output, or an error, under the
        packet's identifier. */
    ghost predicate SentFor(event: Event, port: nat, packet: Packet, result: RoutineResult)
      reads router
    {
      && (event.Answered? || event.SendFailed? ==>
            && SentLast(port, packet.id, event.Answered?)
            && (result.Success? ==> result.output.Some? && LastCarries(result.output.value))
            && (result.Failure? ==> LastCarries(errorPacket)))
      && (event.NoRoutine? ==> SentLast(port, errorPacket.id, event.sent) && LastCarries(errorPacket))
    }

    /** Readdresses a packet to whoever it came from and hands it to a port. */
    method SendResponsePacket(sender: U32, port: nat, packet: Packet) returns (ok: bool)
      requires Valid()
      modifies router`attempts, router`outcomes, router`handed, router.queue.tmp
      ensures Valid()
      ensures AttemptedLast(old(router.attempts), port, packet, ok)
    {
      var destination := if packet.routing.Some? then packet.routing.value.sender % 0x100 else ORIGIN;
      var addressed := packet.(routing := Some(Routing(sender % 0x100, destination)));
      ok := router.SendToPort(port, addressed);
    }

    method SkipPacketForPort(port: nat)
      requires Valid()
      modifies router.queue, router.queue.readOffset
      ensures Valid() && router.queue.q == Step(old(router.queue.q), Skip(port))
    {
      var _ := router.SkipToNextPacket(port);
    }

    /** Deals with what the routine gave for a packet that still has attempts left. */
    method Finish(port: nat, packet: Packet, local: U32, result: RoutineResult, ghost at: nat)
      returns (ghost event: Event, ghost sendOk: bool)
      requires Valid() && IsPort(port) && retry[port].processingLeft > 0 && retry[port].sendingLeft > 0
      requires HasRoutine(Configuration(local), packet) && retry[port].id == packet.id
      modifies retry, router`attempts, router`outcomes, router`handed
      modifies router.queue, router.queue.tmp, router.queue.readOffset
      ensures Valid()
      ensures var t := Treat(Configuration(local), packet, port, at, old(retry[port]), Env(result, sendOk));
        && event == t.event
        && retry[..] == old(retry[..])[port := t.entry]
        && router.queue.q == if t.remove then Step(old(router.queue.q), Skip(port)) else old(router.queue.q)
      ensures Handed(old(router.attempts), event, port, packet, result)
      ensures SentFor(event, port, packet, result)
    {
      sendOk := false;
      var entry := retry[port];
      if result.Incomplete? {
        retry[port] := entry.(processingLeft := entry.processingLeft - 1);
        return RanIncomplete(port, at), sendOk;
      }
      var output := OutputOf(result);
      if output == None {
        SkipPacketForPort(port);
        return NoOutput(port, at), sendOk;
      }
      event, sendOk := Respond(port, output.value.(id := packet.id), local, at);
    }

    /** Sends a response, and settles the port's entry and its head by how that went. */
    method Respond(port: nat, response: Packet, local: U32, ghost at: nat)
      returns (ghost event: Event, ghost sendOk: bool)
      requires Valid() && IsPort(port) && retry[port].sendingLeft > 0
      modifies retry, router`attempts, router`outcomes, router`handed
      modifies router.queue, router.queue.tmp, router.queue.readOffset
      ensures Valid() && AttemptedLast(old(router.attempts), port, response, sendOk)
      ensures event == if sendOk then Answered(port, at) else SendFailed(port, at)
      ensures retry[..] == old(retry[..])[port :=
        if sendOk then NO_ENTRY else old(retry[port]).(sendingLeft := old(retry[port]).sendingLeft - 1)]
      ensures router.queue.q == if sendOk then Step(old(router.queue.q), Skip(port)) else old(router.queue.q)
    {
      var entry := retry[port];
      var ok := SendResponsePacket(local, port, response);
      sendOk := ok;
      if !ok {
        retry[port] := entry.(sendingLeft := entry.sendingLeft - 1);
        return SendFailed(port, at), sendOk;
      }
      retry[port] := NO_ENTRY;
      SkipPacketForPort(port);
      return Answered(port, at), sendOk;
    }

    /** Runs the routine for a delivered packet, or not, as the port's retry entry says. */
    method Handle(port: nat, packet: Packet, local: U32, result: RoutineResult, ghost at: nat)
      returns (ghost event: Event, ghost sendOk: bool)
      requires Valid() && IsPort(port)
      modifies retry, router`attempts, router`outcomes, router`handed
      modifies router.queue, router.queue.tmp, router.queue.readOffset
      ensures Valid()
      ensures var t := Treat(Configuration(local), packet, port, at, old(retry[port]), Env(result, sendOk));
        && event == t.event
        && retry[..] == old(retry[..])[port := t.entry]
        && router.queue.q == if t.remove then Step(old(router.queue.q), Skip(port)) else old(router.queue.q)
      ensures Handed(old(router.attempts), event, port, packet, result)
      ensures SentFor(event, port, packet, result)
    {
      sendOk := false;
      var routine := FindRoutine(packet.bodyTag, packet.payloadTag);
      if routine == None {
        var ok := SendResponsePacket(local, port, errorPacket);
        sendOk := ok;
        SkipPacketForPort(port);
        return NoRoutine(port, at, sendOk), sendOk;
      }
      var entry := retry[port];
      if entry.id != packet.id {
        retry[port] := RetryEntry(packet.id, MAX_RETRIES, MAX_RETRIES);
        return Armed(port, at), sendOk;
      }
      if entry.processingLeft == 0 || entry.sendingLeft == 0 {
        retry[port] := NO_ENTRY;
        SkipPacketForPort(port);
        return GaveUp(port, at), sendOk;
      }
      event, sendOk := Finish(port, packet, local, result, at);
    }

    /** A cycle hands on the relays of its visit, then what the delivered packet's treatment sends. */
    ghost predicate HandedOn(v: Visit, before: seq<Attempt>, event: Event, result: RoutineResult)
      reads router
    {
      var relays := before + RelayAttempts(v.relayed, router.relayedPorts);
      match v.delivery
      case Nothing => router.attempts == relays
      case Deliver(port, packet) => Handed(relays, event, port, packet, result)
    }

    /** One cycle of incoming processing. On a card that answers, it is exactly a step of the
        protocol, for the outcome that the port's send really had; and what it hands to ports
        is the relays of dispatch, then at most one response. On any card it does to each port what
        a cycle may do to it, and what is delivered is treated as the protocol says. */
    method ProcessNextIncomingPacket(local: U32, result: RoutineResult)
      returns (ghost event: Event, ghost sendOk: bool, ghost given: Delivery, ghost at: nat)
      requires Valid()
      modifies retry, router, router.queue, router.queue.tmp, router.queue.readOffset, router.queue.nextReadOffset
      ensures Valid()
      ensures given.Nothing? ==> event.Idle? && retry[..] == old(retry[..])
      ensures given.Deliver? ==>
        Treats(Configuration(local), given.packet, given.port, at, old(retry[..]), Env(result, sendOk),
          event, retry[..])
      ensures given.Deliver? ==> SentFor(event, given.port, given.packet, result)
      ensures Distinct(router.PortTypes()) ==> forall p :: IsPort(p) ==>
        PortCycle(Configuration(local), Env(result, sendOk), p, old(router.queue.q)[p], old(retry[..])[p],
          router.queue.q[p], retry[..][p], event)
      ensures router.queue.storage.healthy ==>
        (Abstract(), event) == Cycle(Configuration(local), old(Abstract()), Env(result, sendOk))
      ensures router.queue.storage.healthy ==>
        HandedOn(VisitPorts(Configuration(local).node, old(router.queue.q), Configuration(local).node.ports),
          old(router.attempts), event, result)
    {
      ghost var c := Configuration(local);
      ghost var v := VisitPorts(c.node, router.queue.q, c.node.ports);
      var delivery := router.PeekNextPacket(local % 0x100);
      if delivery == Nothing {
        if Distinct(router.PortTypes()) {
          forall p | IsPort(p)
            ensures PortCycle(c, Env(result, false), p, old(router.queue.q)[p], old(retry[..])[p],
              router.queue.q[p], retry[..][p], Idle)
          {
            IdleIsPortCycle(c, old(Abstract()), Env(result, false), router.queue.q, p);
          }
        }
        return Idle, false, Nothing, 0;
      }
      given := delivery;
      at := router.queue.q[delivery.port].records[0].at;
      ghost var visited := router.queue.q;
      event, sendOk := Handle(delivery.port, delivery.packet, local, result, at);
      if Distinct(router.PortTypes()) {
        forall p | IsPort(p)
          ensures PortCycle(c, Env(result, sendOk), p, old(router.queue.q)[p], old(retry[..])[p],
            router.queue.q[p], retry[..][p], event)
        {
          TreatedIsPortCycle(c, old(Abstract()), Env(result, sendOk), visited, delivery, Abstract(), event, p);
        }
      }
      if router.queue.storage.healthy {
        CycleTreats(c, old(Abstract()), Env(result, sendOk), v, Abstract(), event);
      }
    }
  }
}
