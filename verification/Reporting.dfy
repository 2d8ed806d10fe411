/** Periodic reports: the timer of each port, the status routine they share, and sending. */
module Reporting {
  import opened Bytes
  import opened CacheSpec
  import opened ModuleProxy
  import opened StatusReport
  import OperationModes

  lemma SetToSame(m: map<nat, nat>, port: nat)
    requires port in m
    ensures m[port := m[port]] == m
  {
  }

  class Reporter {
    const routine: StatusReportingRoutine
    const routineFound: bool  // whether the routine table has a status report routine
    var nextReportMinute: map<nat, nat>

    constructor (routine: StatusReportingRoutine, routineFound: bool, ports: set<nat>)
      ensures this.routine == routine && this.routineFound == routineFound
      ensures nextReportMinute == map port | port in ports :: 0
    {
      this.routine, this.routineFound := routine, routineFound;
      nextReportMinute := map port | port in ports :: 0;
    }

    ghost function Shared(): SharedPacket { routine.manager.proxy.shared }

    ghost function Cached(): Cache
      reads routine.manager.proxy
    {
      routine.manager.proxy.c
    }

    /** What a sent packet was: the modules of a report, in order, in which every device module that the
        episode's request covered has a value stored since that request. */
    ghost predicate FreshReport(entries: seq<Entry>, present: set<nat>, report: ReportType, openedAt: nat,
        covered: set<nat>)
      reads routine.manager.proxy
    {
      && KeysOf(entries) == ReportedCodes(routine.manager.kind, present, report.modules)
      && AllStoredSince(routine.manager.kind, Cached(), entries, openedAt, covered)
    }

    /** The shared packet, which is what has been sent, is a fresh report. */
    ghost predicate SentFresh(report: Option<ReportType>, present: set<nat>, openedAt: nat, covered: set<nat>)
      reads routine.manager.proxy, routine.manager.proxy.shared
    {
      && report.Some? && routine.manager.proxy.shared.body == Report
      && FreshReport(routine.manager.proxy.shared.entries, present, report.value, openedAt, covered)
    }

    /** The shared packet has gone to this port, last, and the port sent it or did not; before that
        nothing but requests went out. */
    ghost predicate SentLast(before: seq<Sending>, port: nat, ok: bool)
      reads routine.manager.proxy.shared
    {
      var shared := routine.manager.proxy.shared;
      && |shared.sent| > |before|
      && var n := |shared.sent| - 1;
         shared.sent[n] == Sending(port, shared.body, shared.entries, shared.requested, ok)
         && OnlyRequests(before, shared.sent[..n])
    }

    /** Every device module of a list is fresh. */
    ghost predicate Ready(c: Cache, modules: seq<nat>) {
      AllDeviceFresh(routine.manager.kind, c, modules)
    }

    /** The attempt itself. An episode stays open until something has been sent or no packet
        came of it. What is sent in an open episode is a fresh report; the attempt that opened
        it can only have sent the request's packet. On a card that answers, there is something to
        send exactly when every requested device module is fresh. */
    method Attempt(port: nat, config: Configuration)
      returns (outcome: OperationModes.Outcome, ghost report: Option<ReportType>)
      requires routine.Valid()
      modifies routine, routine.manager.proxy, routine.manager.proxy.tmp, routine.manager.proxy.readOffset,
        routine.manager.proxy.shared
      ensures routine.Valid()
      ensures outcome.RoutineMissing? <==> !routineFound
      ensures outcome.Sent? || outcome.SendFailed? || outcome.NotReady? ==> report.Some?
      ensures outcome.Sent? && old(routine.didRequest) ==>
        SentFresh(report, config.present, old(routine.openedAt), old(routine.covered))
      ensures outcome.Sent? && old(routine.didRequest) && old(routine.WhollyCovered(report.value.modules)) ==>
        SentFresh(report, config.present, old(routine.openedAt), routine.Keys(routine.manager.proxy.shared.entries))
      ensures if outcome.Sent? || outcome.SendFailed? then SentLast(old(Shared().sent), port, outcome.Sent?)
              else OnlyRequests(old(Shared().sent), Shared().sent)
      ensures outcome.Sent? && !old(routine.didRequest) ==> routine.manager.proxy.shared.body != Report
      ensures outcome.Sent? || outcome.NoPacket? ==> !routine.didRequest
      ensures outcome.NotReady? || outcome.SendFailed? ==> routine.didRequest
      ensures routine.manager.proxy.storage.healthy && report.Some? ==>
        (outcome.NotReady? <==> !Ready(old(routine.AfterRequest(report.value.modules)), report.value.modules))
      ensures old(routine.didRequest) && routine.didRequest ==>
        routine.openedAt == old(routine.openedAt) && routine.covered == old(routine.covered)
    {
      report := None;
      if !routineFound { return OperationModes.RoutineMissing, None; }
      var status, type_, added := routine.Execute(config);
      report := type_;
      if status == Incomplete { return OperationModes.NotReady, report; }
      if status == Failure {  // without an input packet, no error packet is built either
        routine.Reset();
        return OperationModes.NoPacket, report;
      }
      var sendOk := routine.manager.proxy.shared.Send(port);
      if !sendOk { return OperationModes.SendFailed, report; }
      routine.Reset();
      return OperationModes.Sent, report;
    }

    /** One port's turn: attempt a report if its minute has come, and set its next minute by
        how that ended; the other ports' minutes stay. */
    method TryReport(port: nat, currentMinute: nat, period: Option<nat>, config: Configuration)
        returns (ghost call: OperationModes.Call, ghost report: Option<ReportType>)
      requires routine.Valid() && port in nextReportMinute
      modifies this, routine, routine.manager.proxy, routine.manager.proxy.tmp, routine.manager.proxy.readOffset,
        routine.manager.proxy.shared
      ensures routine.Valid()
      ensures call.minute == currentMinute && call.period == period
      ensures nextReportMinute
        == old(nextReportMinute)[port := OperationModes.NextMinute(old(nextReportMinute)[port], call)]
      ensures OperationModes.Attempts(old(nextReportMinute)[port], call) && call.outcome.Sent? ==>
        old(routine.didRequest) ==> SentFresh(report, config.present, old(routine.openedAt), old(routine.covered))
      ensures !OperationModes.Attempts(old(nextReportMinute)[port], call) ==>
        Cached() == old(Cached()) && routine.didRequest == old(routine.didRequest) && unchanged(Shared())
      ensures OperationModes.Attempts(old(nextReportMinute)[port], call) ==>
        if call.outcome.Sent? || call.outcome.SendFailed? then SentLast(old(Shared().sent), port, call.outcome.Sent?)
        else OnlyRequests(old(Shared().sent), Shared().sent)
    {
      call, report := OperationModes.Call(currentMinute, period, OperationModes.Sent), None;
      if period == None || currentMinute != nextReportMinute[port] {
        SetToSame(nextReportMinute, port);
        return;
      }
      var outcome, type_ := Attempt(port, config);
      report := type_;
      call := OperationModes.Call(currentMinute, period, outcome);
      var retrySoon := outcome.NotReady? || outcome.SendFailed?;
      var next := nextReportMinute[port] + if retrySoon then 1 else period.value;
      assert next == OperationModes.NextMinute(old(nextReportMinute)[port], call);
      nextReportMinute := nextReportMinute[port := next];
    }
  }
}
