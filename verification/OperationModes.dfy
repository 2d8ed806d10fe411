/** Operation modes and report timing: two counters that `run` advances. */
module OperationModes {
  import opened Bytes

  // ---- mode transitions ----

  /** An operation mode: the runs it lasts and the mode it leads to. */
  datatype Mode = Mode(id: nat, hasTransition: bool, duration: U32, target: nat)

  /** The mode that a lookup of each configured identifier gives. */
  function Table(list: seq<Mode>): map<nat, Mode> {
    if list == [] then map[] else Table(list[1..])[list[0].id := list[0]]
  }

  /** The first mode of a list with an identifier. */
  ghost predicate FirstWith(list: seq<Mode>, id: nat, i: nat) {
    i < |list| && list[i].id == id && forall k :: 0 <= k < i ==> list[k].id != id
  }

  lemma {:induction false} TableGivesFirst(list: seq<Mode>, id: nat, i: nat)
    requires FirstWith(list, id, i)
    ensures id in Table(list) && Table(list)[id] == list[i]
    decreases list
  {
    if i == 0 {
    } else {
      assert forall k :: 0 <= k < i - 1 ==> list[1..][k] == list[k + 1];
      TableGivesFirst(list[1..], id, i - 1);
    }
  }

  lemma {:induction false} TableOnlyListed(list: seq<Mode>, id: nat)
    requires forall k :: 0 <= k < |list| ==> list[k].id != id
    ensures id !in Table(list)
    decreases list
  {
    if list == [] {
    } else {
      TableOnlyListed(list[1..], id);
    }
  }

  /** The identifier that a transition looks up: the search takes eight bits. */
  function Target(m: Mode): nat { m.target % 0x100 }

  predicate Leads(modes: map<nat, Mode>, id: nat) {
    id in modes ==> modes[id].hasTransition && Target(modes[id]) in modes
  }

  /** Every mode has a transition, and it leads to a configured mode. */
  ghost predicate Closed(modes: map<nat, Mode>) {
    forall id :: Leads(modes, id)
  }

  /** The mode that a mode leads to. */
  function Next(modes: map<nat, Mode>, mode: nat): (next: nat)
    requires Closed(modes) && mode in modes
    ensures next in modes
  {
    assert Leads(modes, mode);
    Target(modes[mode])
  }

  /** The transition graph walked for `runs` runs, with `left` runs still to spend in `mode`.
      A mode entered on the way lasts its duration, and at least the run that enters it. */
  function Walk(modes: map<nat, Mode>, mode: nat, left: nat, runs: nat): nat
    requires Closed(modes) && mode in modes
    ensures Walk(modes, mode, left, runs) in modes
    decreases runs, left
  {
    if runs <= left then mode
    else
      var next := Next(modes, mode);
      Walk(modes, next, Stay(modes[next].duration) - 1, runs - left - 1)
  }

  function Stay(duration: nat): nat { if duration == 0 then 1 else duration }

  /** How many more runs the current mode is kept, told from the cycle counter. */
  function Left(duration: nat, cycleCount: nat): nat {
    if cycleCount >= duration then 0 else duration - cycleCount
  }

  lemma {:induction false} WalkOneRun(modes: map<nat, Mode>, mode: nat, left: nat, runs: nat)
    requires Closed(modes) && mode in modes && runs > 0
    ensures left > 0 ==> Walk(modes, mode, left, runs) == Walk(modes, mode, left - 1, runs - 1)
    ensures left == 0 ==>
      var next := Next(modes, mode);
      Walk(modes, mode, left, runs) == Walk(modes, next, Stay(modes[next].duration) - 1, runs - 1)
  {
  }

  /** A place on the walk: a mode and how many more runs it is kept. */
  datatype Spot = Spot(mode: nat, left: nat)

  function NextSpot(modes: map<nat, Mode>, p: Spot): (r: Spot)
    requires Closed(modes) && p.mode in modes
    ensures r.mode in modes
  {
    if p.left > 0 then Spot(p.mode, p.left - 1)
    else
      var next := Next(modes, p.mode);
      Spot(next, Stay(modes[next].duration) - 1)
  }

  /** The walk taken one run at a time. */
  function After(modes: map<nat, Mode>, p: Spot, runs: nat): (r: Spot)
    requires Closed(modes) && p.mode in modes
    ensures r.mode in modes
  {
    if runs == 0 then p else NextSpot(modes, After(modes, p, runs - 1))
  }

  lemma {:induction false} AfterFirst(modes: map<nat, Mode>, p: Spot, runs: nat)
    requires Closed(modes) && p.mode in modes
    ensures After(modes, p, runs + 1) == After(modes, NextSpot(modes, p), runs)
  {
    if runs == 0 {
      assert After(modes, p, 1) == NextSpot(modes, After(modes, p, 0));
    } else {
      AfterFirst(modes, p, runs - 1);
    }
  }

  /** Walking run by run gets to the mode that the walk of whole stays gives. */
  lemma {:induction false} WalkIsAfter(modes: map<nat, Mode>, p: Spot, runs: nat)
    requires Closed(modes) && p.mode in modes
    ensures Walk(modes, p.mode, p.left, runs) == After(modes, p, runs).mode
    decreases runs
  {
    if runs == 0 {
    } else {
      WalkOneRun(modes, p.mode, p.left, runs);
      WalkIsAfter(modes, NextSpot(modes, p), runs - 1);
      AfterFirst(modes, p, runs - 1);
    }
  }

  /** The k-th mode along the transition graph. */
  function NthMode(modes: map<nat, Mode>, mode: nat, k: nat): nat
    requires Closed(modes) && mode in modes
    decreases k
  {
    if k == 0 then mode else NthMode(modes, Next(modes, mode), k - 1)
  }

  /** The last run spent in the k-th mode: `first` runs in the one started from, then the
      duration of each later one, but never less than one run. */
  function LastRun(modes: map<nat, Mode>, mode: nat, first: nat, k: nat): nat
    requires Closed(modes) && mode in modes
    decreases k
  {
    if k == 0 then first
    else first + LastRun(modes, Next(modes, mode), Stay(modes[Next(modes, mode)].duration), k - 1)
  }

  /** Every later mode lasts its own duration, and a mode of no duration one run. */
  lemma {:induction false} SegmentLength(modes: map<nat, Mode>, mode: nat, first: nat, k: nat)
    requires Closed(modes) && mode in modes
    ensures NthMode(modes, mode, k + 1) in modes
    ensures var d := modes[NthMode(modes, mode, k + 1)].duration;
      LastRun(modes, mode, first, k + 1) == LastRun(modes, mode, first, k) + if d == 0 then 1 else d
    decreases k
  {
    var next := Next(modes, mode);
    if k == 0 {
      assert NthMode(modes, mode, 1) == NthMode(modes, next, 0) == next;
      assert LastRun(modes, mode, first, 1) == first + LastRun(modes, next, Stay(modes[next].duration), 0);
    } else {
      SegmentLength(modes, next, Stay(modes[next].duration), k - 1);
    }
  }

  /** The walk, segment by segment: between two last runs it is in the later mode. */
  lemma {:induction false} WalkSegments(modes: map<nat, Mode>, mode: nat, first: nat, k: nat, runs: nat)
    requires Closed(modes) && mode in modes
    requires k > 0 ==> LastRun(modes, mode, first, k - 1) < runs
    requires runs <= LastRun(modes, mode, first, k)
    ensures Walk(modes, mode, first, runs) == NthMode(modes, mode, k)
    decreases k
  {
    if k > 0 {
      var next := Next(modes, mode);
      var stay := Stay(modes[next].duration);
      assert first < runs;
      assert LastRun(modes, next, stay - 1, k - 1) == LastRun(modes, next, stay, k - 1) - 1;
      if k > 1 {
        assert LastRun(modes, next, stay - 1, k - 2) == LastRun(modes, next, stay, k - 2) - 1;
      }
      WalkSegments(modes, next, stay - 1, k - 1, runs - first - 1);
    }
  }

  class ModeRunner {
    const list: seq<Mode>  // as configured
    var current: Mode
    var cycleCount: U32
    ghost var runs: nat
    ghost var initial: nat

    ghost function Modes(): map<nat, Mode> { Table(list) }

    /** The mode is where the walk from the initial mode has got to, and where it goes next. */
    ghost predicate Valid()
      reads this
    {
      && Closed(Modes()) && initial in Modes() && current.id in Modes() && Modes()[current.id] == current
      && cycleCount <= Stay(current.duration)
      && After(Modes(), Spot(initial, Modes()[initial].duration), runs)
        == Spot(current.id, Left(current.duration, cycleCount))
    }

    constructor (list: seq<Mode>, active: Mode)
      requires Closed(Table(list)) && active.id in Table(list) && Table(list)[active.id] == active
      ensures Valid() && this.list == list && current == active && initial == active.id && cycleCount == 0 && runs == 0
    {
      this.list, current, initial, cycleCount, runs := list, active, active.id, 0, 0;
    }

    /** The first configured mode with an identifier. */
    method SearchForOperationMode(id: nat) returns (mode: Option<Mode>)
      ensures mode.Some? ==> exists i: nat :: FirstWith(list, id, i) && list[i] == mode.value
      ensures mode.Some? ==> mode.value.id == id && id in Modes() && Modes()[id] == mode.value
      ensures mode.None? ==> id !in Modes() && forall k :: 0 <= k < |list| ==> list[k].id != id
    {
      for i := 0 to |list|
        invariant forall k :: 0 <= k < i ==> list[k].id != id
      {
        if list[i].id == id {
          TableGivesFirst(list, id, i);
          return Some(list[i]);
        }
      }
      TableOnlyListed(list, id);
      return None;
    }

    /** Moves on once the mode has had its runs. When it cannot (`ok` is false) the device is
        restarted by the error handler. */
    method TryTransitionOpMode() returns (ok: bool)
      modifies this`current, this`cycleCount
      ensures ok == (old(current).hasTransition
        && (old(cycleCount) >= old(current).duration ==> Target(old(current)) in Modes()))
      ensures ok && old(cycleCount) >= old(current).duration ==>
        cycleCount == 0 && Target(old(current)) in Modes() && current == Modes()[Target(old(current))]
        && current.id == Target(old(current)) && (old(current).target < 0x100 ==> current.id == old(current).target)
      ensures !ok ==> current == old(current)
      ensures old(cycleCount) < old(current).duration ==> current == old(current) && cycleCount == old(cycleCount)
    {
      if !current.hasTransition { return false; }
      if cycleCount >= current.duration {
        cycleCount := 0;
        var next := SearchForOperationMode(Target(current));
        if next == None { return false; }
        current := next.value;
      }
      return true;
    }

    /** One run. After n runs the mode is the n-run walk of the transition graph, and the
        32-bit cycle counter never wraps. */
    method Run()
      requires Valid()
      modifies this
      ensures Valid() && runs == old(runs) + 1 && initial == old(initial)
      ensures current.id == Walk(Modes(), initial, Modes()[initial].duration, runs)
    {
      ghost var start := Spot(initial, Modes()[initial].duration);
      assert After(Modes(), start, runs + 1) == NextSpot(Modes(), After(Modes(), start, runs));
      WalkIsAfter(Modes(), start, runs + 1);
      assert Leads(Modes(), current.id);
      var _ := TryTransitionOpMode();
      cycleCount := cycleCount + 1;
      runs := runs + 1;
    }
  }

  // ---- report timing ----

  /** How a report attempt ends. */
  datatype Outcome = RoutineMissing | NotReady | NoPacket | SendFailed | Sent

  /** One call for one port: the minute, the period of the current mode's entry if it has one,
      and how an attempt would end. */
  datatype Call = Call(minute: nat, period: Option<nat>, outcome: Outcome)

  predicate Attempts(next: nat, call: Call) { call.period.Some? && call.minute == next }

  function NextMinute(next: nat, call: Call): nat {
    if !Attempts(next, call) then next
    else if call.outcome.NotReady? || call.outcome.SendFailed? then next + 1
    else next + call.period.value
  }

  /** The report minute in force at the i-th call. */
  function NextAt(next: nat, calls: seq<Call>, i: nat): nat
    requires i <= |calls|
  {
    if i == 0 then next else NextMinute(NextAt(next, calls, i - 1), calls[i - 1])
  }

  predicate AttemptsAt(next: nat, calls: seq<Call>, i: nat)
    requires i < |calls|
  {
    Attempts(NextAt(next, calls, i), calls[i])
  }

  /** Time does not run backwards, and periods are at least a minute. */
  ghost predicate Sane(calls: seq<Call>) {
    && (forall i, j :: 0 <= i < j < |calls| ==> calls[i].minute <= calls[j].minute)
    && (forall i :: 0 <= i < |calls| && calls[i].period.Some? ==> calls[i].period.value >= 1)
  }

  lemma {:induction false} NextNeverDecreases(next: nat, calls: seq<Call>, i: nat, j: nat)
    requires i <= j <= |calls|
    ensures NextAt(next, calls, i) <= NextAt(next, calls, j)
    decreases j
  {
    if i < j {
      NextNeverDecreases(next, calls, i, j - 1);
    }
  }

  /** Over any run: never two attempts in one minute, and after a sent report the next attempt
      is at least a period later. */
  lemma AttemptsAreSpaced(next: nat, calls: seq<Call>, i: nat, j: nat)
    requires Sane(calls) && i < j < |calls|
    requires AttemptsAt(next, calls, i) && AttemptsAt(next, calls, j)
    ensures calls[i].minute < calls[j].minute
    ensures calls[i].outcome.Sent? ==> calls[i].minute + calls[i].period.value <= calls[j].minute
  {
    assert NextAt(next, calls, i + 1) == NextMinute(NextAt(next, calls, i), calls[i]);
    NextNeverDecreases(next, calls, i + 1, j);
  }

  lemma {:induction false} NextStands(next: nat, calls: seq<Call>, i: nat, j: nat)
    requires i <= j <= |calls|
    requires forall k :: i <= k < j ==> calls[k].minute != NextAt(next, calls, i)
    ensures NextAt(next, calls, j) == NextAt(next, calls, i)
    decreases j
  {
    if i < j {
      NextStands(next, calls, i, j - 1);
    }
  }

  /** When the next attempt is due: a minute after one that was not ready or not sent, and a period
      after any other. The first call in that minute whose mode has an entry is an attempt, provided
      no call before it has come later than that minute. */
  lemma NextAttemptIsDue(next: nat, calls: seq<Call>, i: nat, j: nat)
    requires i < j < |calls| && AttemptsAt(next, calls, i) && calls[j].period.Some?
    requires calls[j].minute == calls[i].minute
      + if calls[i].outcome == NotReady || calls[i].outcome == SendFailed then 1 else calls[i].period.value
    requires forall k :: i < k < j ==> calls[k].minute < calls[j].minute
    ensures AttemptsAt(next, calls, j)
  {
    assert NextAt(next, calls, i + 1) == NextMinute(NextAt(next, calls, i), calls[i]);
    NextStands(next, calls, i + 1, j);
  }

  /** The comparison is for equality, so a minute that passes unvisited is never made up for:
      once the clock is past the report minute, this port does not report again. */
  lemma {:induction false} PassedIsForever(next: nat, calls: seq<Call>, i: nat, j: nat)
    requires Sane(calls) && i <= j < |calls|
    requires NextAt(next, calls, i) < calls[i].minute
    ensures NextAt(next, calls, j) == NextAt(next, calls, i) && !AttemptsAt(next, calls, j)
    decreases j
  {
    if i < j {
      PassedIsForever(next, calls, i, j - 1);
    }
  }

  /** Calls in every minute from 0 on, each with an entry for its mode. */
  ghost predicate EveryMinute(calls: seq<Call>) {
    && (|calls| > 0 ==> calls[0].minute == 0)
    && (forall i :: 0 < i < |calls| ==> calls[i].minute <= calls[i - 1].minute + 1)
    && (forall i :: 0 <= i < |calls| ==> calls[i].period.Some?)
  }

  /** With a call in every minute no slot is missed: after each call the report minute is
      ahead of the clock. */
  lemma {:induction false} NoSlotMissed(calls: seq<Call>, i: nat)
    requires Sane(calls) && EveryMinute(calls) && i < |calls|
    ensures calls[i].minute < NextAt(0, calls, i + 1)
    decreases i
  {
    if i > 0 {
      NoSlotMissed(calls, i - 1);
    }
    assert NextAt(0, calls, i + 1) == NextMinute(NextAt(0, calls, i), calls[i]);
  }

  /** Exactly when a port can still report: some later call can be an attempt if and only if
      the clock has not passed the report minute. */
  lemma CanStillReport(next: nat, minute: nat)
    ensures minute <= next <==>
      exists calls: seq<Call>, i: nat ::
        i < |calls| && Sane(calls) && calls[0].minute == minute && AttemptsAt(next, calls, i)
  {
    if minute <= next {
      var calls := [Call(minute, None, Sent), Call(next, Some(1), Sent)];
      assert NextAt(next, calls, 0) == next && NextAt(next, calls, 1) == next;
      assert AttemptsAt(next, calls, 1);
    }
    if calls: seq<Call>, i: nat :|
      i < |calls| && Sane(calls) && calls[0].minute == minute && AttemptsAt(next, calls, i)
    {
      if minute > next {
        PassedIsForever(next, calls, 0, i);
      }
    }
  }
}
