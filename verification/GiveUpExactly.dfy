/** The other half of giving up: when identifiers are not separated, there is an environment
    in which a packet is given up too early. Together with `GiveUp` this says exactly for which
    queues giving up is earned in every environment. */
module GiveUpExactly {
  import opened Bytes
  import opened QueueSpec
  import opened Router
  import opened RetrySpec
  import opened GiveUp

  /** The place of the first record that uses the retry entry. */
  function FirstAt(c: Config, records: seq<Record>): nat
    requires Ids(c, records) != []
  {
    if ServedId(c, records[0]).Some? then records[0].at else FirstAt(c, records[1..])
  }

  /** The phases of an environment that makes a port give up too early: wait with a clear entry
      for two packets that share an identifier; let the first fail to complete once; remove it
      without an output; let the second use up what was left. */
  datatype Phase = Blank | Ready | Spoiled | Inherited

  /** What a phase says of the entry and of the attempts at the first served packet. */
  ghost predicate Fits(phase: Phase, e: RetryEntry, ids: seq<U32>, tried: nat)
    requires ids != []
  {
    match phase
    case Blank => e == NO_ENTRY && !Separated(ids) && tried == 0
    case Ready => e == RetryEntry(ids[0], MAX_RETRIES, MAX_RETRIES) && ids[0] != 0 && !Separated(ids) && tried == 0
    case Spoiled => e == RetryEntry(ids[0], 2, MAX_RETRIES) && |ids| > 1 && ids[1] == ids[0]
    case Inherited => e.id == ids[0] && e.sendingLeft == MAX_RETRIES && e.processingLeft + tried == 2
  }

  ghost predicate At(phase: Phase, c: Config, port: nat, q: PortQueue, e: RetryEntry, past: seq<Event>) {
    var ids := Ids(c, q.records);
    && Chained(q) && AheadUntried(port, q, past) && ids != []
    && SendFailures(past, port, FirstAt(c, q.records)) == 0
    && Fits(phase, e, ids, Incompletes(past, port, FirstAt(c, q.records)))
  }

  /** What the environment does in each phase, when the port's turn comes. */
  function Choose(phase: Phase, ids: seq<U32>): Env {
    match phase
    case Blank => Env(Incomplete, false)
    case Ready => if |ids| > 1 && ids[1] == ids[0] then Env(Incomplete, false) else Env(Failure, true)
    case Spoiled => Env(Success(None), false)
    case Inherited => Env(Incomplete, false)
  }

  function NextPhase(phase: Phase, ids: seq<U32>): Phase {
    match phase
    case Blank => Ready
    case Ready => if |ids| > 1 && ids[1] == ids[0] then Spoiled else Blank
    case Spoiled => Inherited
    case Inherited => Inherited
  }

  lemma NotSeparatedTail(ids: seq<U32>)
    requires !Separated(ids) && |ids| > 0 && ids[0] != 0 && (|ids| > 1 ==> ids[1] != ids[0])
    ensures |ids| > 1 && !Separated(ids[1..])
  {
    var i :| 0 <= i < |ids| && (ids[i] == 0 || (i > 0 && ids[i - 1] == ids[i]));
    assert i > 0 && ids[1..][i - 1] == ids[i] && (i > 1 ==> ids[1..][i - 2] == ids[i - 1]);
  }

  /** The first served record is the head or lies behind it. */
  lemma {:induction false} FirstAtWaits(c: Config, records: seq<Record>)
    requires Ids(c, records) != []
    ensures exists i :: 0 <= i < |records| && records[i].at == FirstAt(c, records)
    decreases records
  {
    if ServedId(c, records[0]).Some? {
      assert records[0].at == FirstAt(c, records);
    } else {
      FirstAtWaits(c, records[1..]);
      var i :| 0 <= i < |records[1..]| && records[1..][i].at == FirstAt(c, records[1..]);
      assert records[i + 1].at == FirstAt(c, records);
    }
  }

  /** A head that does not use the entry may go: nothing the phase speaks of changes. */
  lemma PassHead(phase: Phase, c: Config, port: nat, q: PortQueue, e: RetryEntry, past: seq<Event>, ev: Event)
    requires At(phase, c, port, q, e, past) && HeadId(c, q) == None
    requires forall at :: !Attempted(ev, port, at)
    ensures At(phase, c, port, DropHead(q), e, past + [ev])
  {
    DropUntried(port, q, past, ev);
    CountsAfter(past, ev, port, FirstAt(c, q.records));
    assert !Attempted(ev, port, FirstAt(c, q.records));
    assert FirstAt(c, DropHead(q).records) == FirstAt(c, q.records);
    assert Chained(DropHead(q)) by {
      assert forall i :: 0 <= i < |q.records| - 1 ==> DropHead(q).records[i] == q.records[i + 1];
    }
  }

  /** Once a served head has gone, the next one has not been tried. */
  lemma NextUntried(c: Config, port: nat, q: PortQueue, past: seq<Event>, ev: Event)
    requires Chained(q) && AheadUntried(port, q, past) && q.records != [] && Ids(c, q.records[1..]) != []
    requires forall at :: !Attempted(ev, port, at)
    ensures Chained(DropHead(q)) && AheadUntried(port, DropHead(q), past + [ev])
    ensures Untried(past + [ev], port, FirstAt(c, q.records[1..]))
  {
    DropUntried(port, q, past, ev);
    FirstAtWaits(c, q.records[1..]);
    var i :| 0 <= i < |q.records[1..]| && q.records[1..][i].at == FirstAt(c, q.records[1..]);
    assert q.records[i + 1] == q.records[1..][i] && Ahead(q, q.records[i + 1].at);
    CountsAfter(past, ev, port, q.records[i + 1].at);
    assert forall k :: 0 <= k < |q.records| - 1 ==> DropHead(q).records[k] == q.records[k + 1];
  }

  /** Trying the first served packet once more, in counters alone. */
  lemma ServeFits(phase: Phase, c: Config, p: Packet, port: nat, at: nat, e: RetryEntry, ids: seq<U32>, tried: nat)
    requires ids != [] && ids[0] == p.id && HasRoutine(c, p) && Fits(phase, e, ids, tried)
    requires !Treat(c, p, port, at, e, Choose(phase, ids)).remove
    ensures var t := Treat(c, p, port, at, e, Choose(phase, ids));
      !t.event.SendFailed? && Fits(NextPhase(phase, ids), t.entry, ids, tried + One(t.event.RanIncomplete?))
  {
  }

  /** A served head is tried and stays: the environment moves to its next phase. */
  lemma ServeKeeps(phase: Phase, c: Config, port: nat, q: PortQueue, e: RetryEntry, past: seq<Event>, t: Treatment)
    requires At(phase, c, port, q, e, past) && HeadId(c, q).Some? && !t.remove
    requires t == Treat(c, HeadPacket(c, q).value, port, q.records[0].at, e, Choose(phase, Ids(c, q.records)))
    ensures At(NextPhase(phase, Ids(c, q.records)), c, port, q.(peeked := true), t.entry, past + [t.event])
  {
    var ids, head, q' := Ids(c, q.records), q.records[0].at, q.(peeked := true);
    assert ids[0] == HeadId(c, q).value && FirstAt(c, q.records) == head;
    CountsAfter(past, t.event, port, head);
    ServeFits(phase, c, HeadPacket(c, q).value, port, head, e, ids, Incompletes(past, port, head));
    assert AheadUntried(port, q', past + [t.event]) by {
      HeadNotAhead(q);
      assert forall at :: Ahead(q', at) ==> Ahead(q, at);
      StaysUntried(port, q, q', past, t.event);
    }
  }

  /** A served head goes: the environment moves to its next phase, unless the packet has just
      been given up without having had its attempts. */
  lemma ServeDrops(phase: Phase, c: Config, port: nat, q: PortQueue, e: RetryEntry, past: seq<Event>, t: Treatment)
    requires At(phase, c, port, q, e, past) && HeadId(c, q).Some? && t.remove
    requires t == Treat(c, HeadPacket(c, q).value, port, q.records[0].at, e, Choose(phase, Ids(c, q.records)))
    ensures (t.event.GaveUp? && !Exhausted(past, port, q.records[0].at))
      || At(NextPhase(phase, Ids(c, q.records)), c, port, DropHead(q), t.entry, past + [t.event])
  {
    var ids := Ids(c, q.records);
    assert ids[0] == HeadId(c, q).value && FirstAt(c, q.records) == q.records[0].at;
    if !t.event.GaveUp? {
      assert ids[1..] == Ids(c, q.records[1..]);
      if phase == Ready { NotSeparatedTail(ids); }
      NextUntried(c, port, q, past, t.event);
    }
  }

  /** A cycle that is not about the port. */
  lemma WaitTurn(phase: Phase, c: Config, port: nat, q: PortQueue, e: RetryEntry, past: seq<Event>, ev: Event)
    requires At(phase, c, port, q, e, past) && Elsewhere(ev, port)
    ensures At(phase, c, port, q, e, past + [ev])
  {
    StaysUntried(port, q, q, past, ev);
    CountsAfter(past, ev, port, FirstAt(c, q.records));
  }

  /** Whatever a cycle does to the port, the trap stays set or has just sprung. */
  lemma Advance(phase: Phase, c: Config, port: nat, q: PortQueue, e: RetryEntry, q': PortQueue, e': RetryEntry,
      ev: Event, past: seq<Event>) returns (phase': Phase)
    requires At(phase, c, port, q, e, past)
    requires PortCycle(c, Choose(phase, Ids(c, q.records)), port, q, e, q', e', ev)
    ensures (ev.GaveUp? && ev.port == port && !Exhausted(past, port, ev.at))
      || At(phase', c, port, q', e', past + [ev])
  {
    phase' := phase;
    if q' == q && e' == e && Elsewhere(ev, port) {
      WaitTurn(phase, c, port, q, e, past, ev);
    } else if HeadId(c, q).Some? {
      var t := Treat(c, HeadPacket(c, q).value, port, q.records[0].at, e, Choose(phase, Ids(c, q.records)));
      if t.remove {
        ServeDrops(phase, c, port, q, e, past, t);
      } else {
        ServeKeeps(phase, c, port, q, e, past, t);
      }
      phase' := NextPhase(phase, Ids(c, q.records));
    } else {
      PassHead(phase, c, port, q, e, past, ev);
    }
  }

  /** Some giving up on the port was not earned. */
  ghost predicate Unearned(past: seq<Event>, trace: seq<Event>, port: nat) {
    exists i ::
      0 <= i < |trace| && trace[i].GaveUp? && trace[i].port == port && !Exhausted(past + trace[..i], port, trace[i].at)
  }

  lemma UnearnedLater(past: seq<Event>, ev: Event, rest: seq<Event>, port: nat)
    requires Unearned(past + [ev], rest, port)
    ensures Unearned(past, [ev] + rest, port)
  {
    var i :| 0 <= i < |rest| && rest[i].GaveUp? && rest[i].port == port
      && !Exhausted(past + [ev] + rest[..i], port, rest[i].at);
    Splice(past, ev, rest, i + 1);
    assert ([ev] + rest)[i + 1] == rest[i];
  }

  /** The environment gets there: the measure runs out, and the queue cannot empty first. */
  lemma {:induction false} ForceUnearned(phase: Phase, c: Config, s: State, port: nat, past: seq<Event>)
      returns (envs: seq<Env>)
    requires WellFormed(s) && Distinct(c.node.ports) && IsPort(port) && port in c.node.ports
    requires At(phase, c, port, s.queues[port], s.retry[port], past)
    ensures Unearned(past, Trace(c, s, Cycles(envs)), port)
    decreases Measure(c, s)
  {
    var env := Choose(phase, Ids(c, s.queues[port].records));
    var (s', ev) := Cycle(c, s, env);
    CycleByPort(c, s, env);
    var phase' := Advance(phase, c, port, s.queues[port], s.retry[port], s'.queues[port], s'.retry[port], ev, past);
    if ev.GaveUp? && ev.port == port && !Exhausted(past, port, ev.at) {
      envs := [env];
      CyclesFirst(envs);
      assert Trace(c, s, Cycles(envs))[0] == ev && past + Trace(c, s, Cycles(envs))[..0] == past;
    } else {
      assert CanWork(c, s);
      CycleDecreases(c, s, env);
      ActKeepsWellFormed(c, s, Run(env));
      var rest := ForceUnearned(phase', c, s', port, past + [ev]);
      envs := [env] + rest;
      CyclesFirst(envs);
      assert envs[1..] == rest && Cycles(envs)[1..] == Cycles(rest);
      UnearnedLater(past, ev, Trace(c, s', Cycles(rest)), port);
    }
  }

  lemma {:induction false} UnregisteredSilent(c: Config, s: State, envs: seq<Env>, port: nat)
    requires WellFormed(s) && Distinct(c.node.ports) && IsPort(port) && port !in c.node.ports
    ensures forall i :: 0 <= i < |envs| ==> Elsewhere(Trace(c, s, Cycles(envs))[i], port)
    decreases envs
  {
    if envs == [] {
    } else {
      var (s', ev) := Cycle(c, s, envs[0]);
      UnregisteredUntouched(c, s, envs[0], port);
      ActKeepsWellFormed(c, s, Run(envs[0]));
      CyclesFirst(envs);
      assert Cycles(envs)[1..] == Cycles(envs[1..]);
      UnregisteredSilent(c, s', envs[1..], port);
      assert Trace(c, s, Cycles(envs)) == [ev] + Trace(c, s', Cycles(envs[1..]));
    }
  }

  ghost predicate AlwaysEarned(c: Config, s: State, port: nat) {
    forall envs :: Earned(Trace(c, s, Cycles(envs)), port)
  }

  lemma {:induction false} CyclesBringNothing(end: nat, envs: seq<Env>, port: nat)
    ensures ArrivedOn(end, Cycles(envs), port) == []
    decreases envs
  {
    if envs == [] {
    } else {
      CyclesFirst(envs);
      assert Cycles(envs)[1..] == Cycles(envs[1..]);
      CyclesBringNothing(end, envs[1..], port);
    }
  }

  /** Exactly when giving up is fair: with a clear entry, whatever waits on the other ports,
      every environment earns its giving up on a registered port if and only if the waiting
      packets that are for this node and have a routine carry separated identifiers: none is
      zero and no two that follow one another are the same. */
  lemma GiveUpEarnedExactly(c: Config, s: State, port: nat)
    requires WellFormed(s) && Distinct(c.node.ports) && IsPort(port) && s.retry[port] == NO_ENTRY
    ensures AlwaysEarned(c, s, port) <==> port !in c.node.ports || Separated(Ids(c, s.queues[port].records))
  {
    if Separated(Ids(c, s.queues[port].records)) {
      forall envs ensures Earned(Trace(c, s, Cycles(envs)), port) {
        CyclesBringNothing(s.queues[port].end, envs, port);
        assert Coming(s.queues[port], Cycles(envs), port) == s.queues[port].records;
        GiveUpIsEarned(c, s, Cycles(envs), port);
      }
    } else if port !in c.node.ports {
      forall envs ensures Earned(Trace(c, s, Cycles(envs)), port) {
        UnregisteredSilent(c, s, envs, port);
      }
    } else {
      var envs := ForceUnearned(Blank, c, s, port, []);
      var tr := Trace(c, s, Cycles(envs));
      var i :| 0 <= i < |tr| && tr[i].GaveUp? && tr[i].port == port && !Exhausted([] + tr[..i], port, tr[i].at);
      assert [] + tr[..i] == tr[..i];
      assert !Earned(tr, port);
    }
  }

  /** Nothing waits but on this registered port. */
  ghost predicate Alone(c: Config, s: State, port: nat) {
    && WellFormed(s) && Distinct(c.node.ports) && IsPort(port) && port in c.node.ports
    && forall p :: IsPort(p) && p != port ==> s.queues[p].records == []
  }

  /** When nothing else waits, dispatch finds the port's head if it is for this node. */
  lemma AloneIsFirst(c: Config, s: State, port: nat)
    requires Alone(c, s, port) && HeadPacket(c, s.queues[port]).Some?
    ensures var n := FirstMine(c.node, s.queues, c.node.ports);
      n < |c.node.ports| && c.node.ports[n] == port
  {
    var n := FirstMine(c.node, s.queues, c.node.ports);
    var i :| 0 <= i < |c.node.ports| && c.node.ports[i] == port;
    if i < n {
      NoneBeforeFirst(c.node, s.queues, c.node.ports, i);
    }
  }

  lemma StaysAlone(c: Config, s: State, port: nat, env: Env)
    requires Alone(c, s, port)
    ensures Alone(c, Cycle(c, s, env).0, port)
  {
    var (s', ev) := Cycle(c, s, env);
    CycleByPort(c, s, env);
    ActKeepsWellFormed(c, s, Run(env));
    forall p | IsPort(p) && p != port ensures s'.queues[p].records == [] {
      EmptyPortStaysEmpty(c, env, p, s.queues[p], s.retry[p], s'.queues[p], s'.retry[p], ev);
    }
  }

  /** When nothing else waits, a cycle treats the head that is for this node. */
  lemma ServeOnly(c: Config, s: State, port: nat, env: Env, rest: seq<Env>) returns (s': State)
    requires Alone(c, s, port) && HeadPacket(c, s.queues[port]).Some?
    ensures var q := s.queues[port];
      var t := Treat(c, HeadPacket(c, q).value, port, q.records[0].at, s.retry[port], env);
      && Alone(c, s', port) && s'.retry[port] == t.entry
      && s'.queues[port].records == (if t.remove then q.records[1..] else q.records)
      && Trace(c, s, Cycles([env] + rest)) == [t.event] + Trace(c, s', Cycles(rest))
  {
    s' := Cycle(c, s, env).0;
    AloneIsFirst(c, s, port);
    CycleAtDelivery(c, s, env);
    StaysAlone(c, s, port, env);
    TraceFirst(c, s, env, rest);
  }

  lemma TraceFirst(c: Config, s: State, env: Env, rest: seq<Env>)
    ensures var (s', ev) := Cycle(c, s, env); Trace(c, s, Cycles([env] + rest)) == [ev] + Trace(c, s', Cycles(rest))
  {
    CyclesFirst([env] + rest);
    assert ([env] + rest)[1..] == rest && Cycles([env] + rest)[1..] == Cycles(rest);
  }

  const FAIL := Env(Incomplete, false)
  const NONE := Env(Success(None), false)

  /** A packet is armed, then fails to complete. */
  lemma ArmAndFail(c: Config, s: State, port: nat, first: Env, rest: seq<Env>) returns (s': State)
    requires Alone(c, s, port) && s.retry[port] == NO_ENTRY
    requires s.queues[port].records != []
    requires ServedId(c, s.queues[port].records[0]).Some? && ServedId(c, s.queues[port].records[0]) != Some(0)
    ensures var q := s.queues[port];
      && Alone(c, s', port) && s'.queues[port].records == q.records
      && s'.retry[port] == RetryEntry(ServedId(c, q.records[0]).value, 2, MAX_RETRIES)
      && Trace(c, s, Cycles([first] + ([FAIL] + rest)))
        == [Armed(port, q.records[0].at)] + ([RanIncomplete(port, q.records[0].at)] + Trace(c, s', Cycles(rest)))
  {
    var s1 := ServeOnly(c, s, port, first, [FAIL] + rest);
    s' := ServeOnly(c, s1, port, FAIL, rest);
  }

  /** It fails again, then yields no output, and leaves its entry behind. */
  lemma FailAndVanish(c: Config, s: State, port: nat, rest: seq<Env>) returns (s': State)
    requires Alone(c, s, port) && s.queues[port].records != []
    requires ServedId(c, s.queues[port].records[0]) == Some(s.retry[port].id)
    requires s.retry[port].processingLeft == 2 && s.retry[port].sendingLeft > 0
    ensures var q := s.queues[port];
      && Alone(c, s', port) && s'.queues[port].records == q.records[1..]
      && s'.retry[port] == s.retry[port].(processingLeft := 1)
      && Trace(c, s, Cycles([FAIL] + ([NONE] + rest)))
        == [RanIncomplete(port, q.records[0].at)] + ([NoOutput(port, q.records[0].at)] + Trace(c, s', Cycles(rest)))
  {
    var s1 := ServeOnly(c, s, port, FAIL, [NONE] + rest);
    s' := ServeOnly(c, s1, port, NONE, rest);
  }

  /** The next packet with that identifier is given up after one incomplete execution. */
  lemma SecondInherits(c: Config, s: State, port: nat, last: Env)
    requires Alone(c, s, port) && s.queues[port].records != []
    requires ServedId(c, s.queues[port].records[0]) == Some(s.retry[port].id)
    requires s.retry[port].processingLeft == 1 && s.retry[port].sendingLeft > 0
    ensures var at := s.queues[port].records[0].at;
      Trace(c, s, Cycles([FAIL] + ([last] + []))) == [RanIncomplete(port, at)] + ([GaveUp(port, at)] + [])
  {
    var s1 := ServeOnly(c, s, port, FAIL, [last] + []);
    var s2 := ServeOnly(c, s1, port, last, []);
  }

  /** A real run that gives up too early: two packets with one identifier, the first of which
      fails to complete twice and then yields no output; a single incomplete execution of the
      second is enough for it to be given up. */
  lemma RepeatedIdInheritsAttempts(c: Config, s: State, port: nat, first: Env, last: Env)
    requires Alone(c, s, port) && s.retry[port] == NO_ENTRY
    requires |s.queues[port].records| == 2
    requires ServedId(c, s.queues[port].records[0]) == ServedId(c, s.queues[port].records[1]) != None
    requires ServedId(c, s.queues[port].records[0]) != Some(0)
    ensures var x, y := s.queues[port].records[0].at, s.queues[port].records[1].at;
      Trace(c, s, Cycles([first, FAIL, FAIL, NONE, FAIL, last]))
        == [Armed(port, x), RanIncomplete(port, x), RanIncomplete(port, x), NoOutput(port, x),
            RanIncomplete(port, y), GaveUp(port, y)]
  {
    var s1 := ArmAndFail(c, s, port, first, [FAIL] + ([NONE] + ([FAIL] + ([last] + []))));
    var s2 := FailAndVanish(c, s1, port, [FAIL] + ([last] + []));
    SecondInherits(c, s2, port, last);
    assert [first] + ([FAIL] + ([FAIL] + ([NONE] + ([FAIL] + ([last] + []))))) == [first, FAIL, FAIL, NONE, FAIL, last];
  }
}
