/** Collecting modules for a report, and the report episode: one request for fresh values,
    then attempts until a report has been sent. */
module StatusReport {
  import opened Bytes
  import opened CacheSpec
  import opened ModuleProxy

  /** Where a module's value comes from. */
  datatype Kind = Device | Local | Configured | Unsupported

  datatype Status = Success | Incomplete | Failure

  /** The requested modules that a report holds, in order: those of the device, those read on the
      spot, and those of the node's configuration that are present there. */
  function ReportedCodes(kind: nat -> Kind, present: set<nat>, list: seq<nat>): seq<nat> {
    if list == [] then []
    else
      var holds := kind(list[0]).Device? || kind(list[0]).Local? || (kind(list[0]).Configured? && list[0] in present);
      (if holds then [list[0]] else []) + ReportedCodes(kind, present, list[1..])
  }

  /** The codes of a report's entries, in order. */
  function KeysOf(entries: seq<Entry>): seq<nat> {
    seq(|entries|, i requires 0 <= i < |entries| => entries[i].key)
  }

  lemma {:induction false} ReportedCodesAppend(kind: nat -> Kind, present: set<nat>, list: seq<nat>, code: nat)
    ensures ReportedCodes(kind, present, list + [code])
      == ReportedCodes(kind, present, list) + ReportedCodes(kind, present, [code])
  {
    if list == [] {
      assert list + [code] == [code] && ReportedCodes(kind, present, []) == [];
    } else {
      assert (list + [code])[1..] == list[1..] + [code];
      ReportedCodesAppend(kind, present, list[1..], code);
      Associate(ReportedCodes(kind, present, [list[0]]), ReportedCodes(kind, present, list[1..]),
        ReportedCodes(kind, present, [code]));
      assert [list[0]][1..] == [] && ReportedCodes(kind, present, []) == [];
    }
  }

  /** The value was stored under its code, at or after place `since` of the history. */
  ghost predicate StoredSince(c: Cache, e: Entry, since: nat) {
    exists i: nat :: since <= i < |c.log| && c.log[i] == e.value && e.value.which == e.key
  }

  ghost predicate AllFresh(kind: nat -> Kind, c: Cache, entries: seq<Entry>) {
    forall e :: e in entries && kind(e.key).Device? ==> IsCode(c, e.key) && StoredSince(c, e, c.invalidated[e.key])
  }

  predicate IsFresh(c: Cache, code: nat) { IsCode(c, code) && c.current[code].Some? }

  lemma FoundIffFresh(c: Cache, code: nat)
    requires Coherent(c)
    ensures Found(c, code).Some? <==> IsFresh(c, code)
    ensures IsFresh(c, code) ==> StoredSince(c, Entry(code, c.log[Found(c, code).value]), c.invalidated[code])
  {
  }

  predicate Single(added: seq<Entry>, code: nat) { |added| == 1 && added[0].key == code }

  lemma KeysOfOne(kind: nat -> Kind, present: set<nat>, code: nat, added: seq<Entry>)
    requires kind(code).Device? || kind(code).Local? ==> Single(added, code)
    requires kind(code).Configured? ==> if code in present then Single(added, code) else added == []
    requires kind(code).Unsupported? ==> added == []
    ensures KeysOf(added) == ReportedCodes(kind, present, [code])
  {
    assert [code][1..] == [] && ReportedCodes(kind, present, []) == [];
  }

  lemma LookupsAdvance(c: Cache, code: nat)
    requires Coherent(c)
    ensures var forgotten := Apply(c, Forget(code));
      Advanced(c, forgotten) && Advanced(c, Apply(forgotten, Invalidate(code)))
  {
    ApplyKeepsCoherent(c, Forget(code));
    ApplyKeepsCoherent(Apply(c, Forget(code)), Invalidate(code));
  }

  lemma LookupFound(kind: nat -> Kind, c: Cache, code: nat)
    requires Coherent(c) && Found(c, code).Some?
    ensures SameHistory(c, Apply(c, Get(code)))
    ensures AllFresh(kind, Apply(c, Get(code)), [Entry(code, c.log[Found(c, code).value])])
  {
  }

  class ModuleManager {
    const proxy: ModuleProxy
    const kind: nat -> Kind

    constructor (proxy: ModuleProxy, kind: nat -> Kind)
      ensures this.proxy == proxy && this.kind == kind
    {
      this.proxy, this.kind := proxy, kind;
    }

    ghost predicate Valid()
      reads proxy, proxy.storage, proxy.writeOffset, proxy.readOffset
    {
      && proxy.Valid() && proxy.Lawful()
      && forall code: nat :: kind(code).Device? ==> 1 <= code < proxy.codes
    }

    /** The cache once a request for these modules has gone out. */
    ghost function Requested(list: seq<nat>): Cache
      requires proxy.codes >= 1
      reads proxy
    {
      if proxy.devicePort == None then proxy.c else InvalidateAll(proxy.c, list[..Min(|list|, proxy.codes - 1)])
    }

    method RequestUpdatedModules(list: seq<nat>) returns (ok: bool)
      requires Valid()
      modifies proxy, proxy.readOffset, proxy.shared
      ensures OnlyRequests(old(proxy.shared.sent), proxy.shared.sent)
      ensures Valid() && proxy.shared.body == Request
      ensures proxy.c == old(Requested(list))
      ensures proxy.RequestSent(old(proxy.shared.sent), list[..Min(|list|, proxy.codes - 1)], ok)
    {
      ok := proxy.RequestMultipleModules(list);
    }

    method Sample() returns (w: Wrapper)
    {
      w := *;
    }

    /** The shared packet still has its body, with these entries added. */
    ghost predicate Appended(body: Body, before: seq<Entry>, added: seq<Entry>)
      reads proxy.shared
    {
      proxy.shared.body == body && proxy.shared.entries == before + added
    }

    /** A module that lives on the device: its fresh value, or a request for one. */
    method GetDeviceModule(code: nat) returns (ok: bool, ghost added: seq<Entry>)
      requires Valid() && kind(code).Device?
      modifies proxy, proxy.tmp, proxy.readOffset, proxy.shared
      ensures OnlyRequests(old(proxy.shared.sent), proxy.shared.sent)
      ensures Valid()
      ensures ok ==> Appended(old(proxy.shared.body), old(proxy.shared.entries), added)
      ensures ok ==> SameHistory(old(proxy.c), proxy.c)
      ensures ok ==> Single(added, code) && AllFresh(kind, proxy.c, added) && IsFresh(old(proxy.c), code)
      ensures !ok ==> proxy.shared.body == Request && Advanced(old(proxy.c), proxy.c)
      ensures proxy.storage.healthy && !ok ==> !IsFresh(old(proxy.c), code)
    {
      FoundIffFresh(proxy.c, code);
      ghost var c := proxy.c;
      var value := proxy.GetIfFreshOrRequestFromDevice(code);
      if value == None {
        LookupsAdvance(c, code);
        return false, [];
      }
      LookupFound(kind, c, code);
      added := [Entry(code, value.value)];
      proxy.shared.Append(Entry(code, value.value));
      return true, added;
    }

    /** Appends one module to the report; false when its value is not fresh yet. */
    method GetModule(code: nat, present: set<nat>) returns (ok: bool, ghost added: seq<Entry>)
      requires Valid()
      modifies proxy, proxy.tmp, proxy.readOffset, proxy.shared
      ensures OnlyRequests(old(proxy.shared.sent), proxy.shared.sent)
      ensures Valid()
      ensures ok ==> Appended(old(proxy.shared.body), old(proxy.shared.entries), added)
      ensures ok ==> SameHistory(old(proxy.c), proxy.c)
      ensures ok ==> (added == [] || Single(added, code)) && AllFresh(kind, proxy.c, added)
      ensures ok && (kind(code).Device? || kind(code).Local?) ==> Single(added, code)
      ensures ok && kind(code).Configured? ==> if code in present then Single(added, code) else added == []
      ensures ok && kind(code).Unsupported? ==> added == []
      ensures ok && kind(code).Device? ==> IsFresh(old(proxy.c), code)
      ensures !ok ==> kind(code).Device? && proxy.shared.body == Request && Advanced(old(proxy.c), proxy.c)
      ensures proxy.storage.healthy && !ok ==> !IsFresh(old(proxy.c), code)
    {
      if kind(code).Device? {
        ok, added := GetDeviceModule(code);
        return;
      }
      var w := Sample();
      if kind(code).Local? || (kind(code).Configured? && code in present) {
        proxy.shared.Append(Entry(code, w));
        return true, [Entry(code, w)];
      }
      return true, [];
    }

    /** Collects the requested modules in order, until one from the device is not fresh.
        Success means every requested device module is there, each with a value stored since
        its last invalidation. */
    method GetModules(list: seq<nat>, present: set<nat>) returns (status: Status, ghost added: seq<Entry>)
      requires Valid()
      modifies proxy, proxy.tmp, proxy.readOffset, proxy.shared
      ensures OnlyRequests(old(proxy.shared.sent), proxy.shared.sent)
      ensures Valid() && status != Failure
      ensures status == Success ==> Collected(kind, present, old(proxy.c), proxy.c, list, added)
      ensures status == Success ==> Appended(old(proxy.shared.body), old(proxy.shared.entries), added)
      ensures status == Incomplete ==> proxy.shared.body == Request && Advanced(old(proxy.c), proxy.c)
      ensures status == Incomplete && proxy.storage.healthy ==> !AllDeviceFresh(kind, old(proxy.c), list)
    {
      added := [];
      for i := 0 to |list|
        invariant Valid()
        invariant Appended(old(proxy.shared.body), old(proxy.shared.entries), added)
        invariant OnlyRequests(old(proxy.shared.sent), proxy.shared.sent)
        invariant Collected(kind, present, old(proxy.c), proxy.c, list[..i], added)
      {
        var ok;
        ok, added := CollectNext(old(proxy.c), list[..i], list[i], present, added,
          old(proxy.shared.body), old(proxy.shared.entries));
        if !ok { return Incomplete, added; }
        TakeOneMore(list, i);
      }
      assert list[..|list|] == list;
      return Success, added;
    }

    /** One turn of the collecting loop. */
    method CollectNext(ghost start: Cache, ghost done: seq<nat>, code: nat, present: set<nat>,
        ghost before: seq<Entry>, ghost body: Body, ghost entries: seq<Entry>)
      returns (ok: bool, ghost added: seq<Entry>)
      requires Valid() && Collected(kind, present, start, proxy.c, done, before) && Appended(body, entries, before)
      modifies proxy, proxy.tmp, proxy.readOffset, proxy.shared
      ensures OnlyRequests(old(proxy.shared.sent), proxy.shared.sent)
      ensures Valid()
      ensures ok ==> Collected(kind, present, start, proxy.c, done + [code], added) && Appended(body, entries, added)
      ensures !ok ==> kind(code).Device? && proxy.shared.body == Request && Advanced(start, proxy.c)
      ensures proxy.storage.healthy && !ok ==> !IsFresh(start, code)
    {
      ghost var c := proxy.c;
      ghost var more;
      ok, more := GetModule(code, present);
      added := before + more;
      if ok {
        KeysOfOne(kind, present, code, more);
        CollectedStep(kind, present, start, c, proxy.c, done, code, before, more);
        Associate(entries, before, more);
      } else {
        SameThenAdvanced(start, c, proxy.c, code);
      }
    }
  }

  /** Nothing stored, nothing invalidated, and the same codes are fresh. */
  ghost predicate SameHistory(c: Cache, d: Cache) {
    d.log == c.log && d.current == c.current && d.invalidated == c.invalidated
  }

  ghost predicate AllDeviceFresh(kind: nat -> Kind, c: Cache, list: seq<nat>) {
    forall code :: code in list && kind(code).Device? ==> IsFresh(c, code)
  }

  /** A report without device modules is always ready, also in the attempt that opens an episode. */
  lemma NoDeviceCodesReady(kind: nat -> Kind, c: Cache, list: seq<nat>)
    requires forall i :: 0 <= i < |list| ==> !kind(list[i]).Device?
    ensures AllDeviceFresh(kind, c, list)
  {
  }

  /** After part of a list: nothing but lookups has happened, and the entries are the modules of
      that part that a report holds, those of the device each fresh. */
  ghost predicate Collected(kind: nat -> Kind, present: set<nat>, start: Cache, now: Cache, list: seq<nat>,
      added: seq<Entry>)
  {
    && SameHistory(start, now)
    && KeysOf(added) == ReportedCodes(kind, present, list) && AllFresh(kind, now, added)
    && AllDeviceFresh(kind, start, list)
  }

  lemma SameThenAdvanced(a: Cache, b: Cache, c: Cache, code: nat)
    requires SameHistory(a, b) && Advanced(b, c)
    ensures Advanced(a, c) && (IsFresh(a, code) <==> IsFresh(b, code))
  {
  }

  lemma CollectedStep(kind: nat -> Kind, present: set<nat>, start: Cache, before: Cache, now: Cache, list: seq<nat>,
      code: nat, added: seq<Entry>, more: seq<Entry>)
    requires Collected(kind, present, start, before, list, added) && SameHistory(before, now)
    requires KeysOf(more) == ReportedCodes(kind, present, [code]) && AllFresh(kind, now, more)
    requires kind(code).Device? ==> IsFresh(before, code)
    ensures Collected(kind, present, start, now, list + [code], added + more)
  {
    ReportedCodesAppend(kind, present, list, code);
    assert KeysOf(added + more) == KeysOf(added) + KeysOf(more);
    forall e | e in added && kind(e.key).Device?
      ensures IsCode(now, e.key) && StoredSince(now, e, now.invalidated[e.key])
    {
      assert StoredSince(before, e, before.invalidated[e.key]);
    }
  }

  /** The history has only grown, and invalidations have only moved forward. */
  ghost predicate Advanced(c: Cache, d: Cache) {
    && Coherent(d) && c.log <= d.log && |d.current| == |c.current|
    && forall code: nat :: IsCode(c, code) ==> IsCode(d, code) && c.invalidated[code] <= d.invalidated[code]
  }

  // ---- the routine ----

  datatype ReportType = ReportType(id: nat, modules: seq<nat>)

  /** The configured modes are given by identifier and report type; `present` are the module codes
      for which the configuration has a part. */
  datatype Configuration = Configuration(
    activeMode: nat, modes: Option<seq<(nat, nat)>>, reportTypes: Option<seq<ReportType>>, present: set<nat>)

  /** An episode opened at a place of the history for some codes: each of them has been
      invalidated since. */
  ghost predicate Episode(c: Cache, openedAt: nat, covered: set<nat>) {
    && openedAt <= |c.log|
    && forall code :: code in covered ==> IsCode(c, code) && openedAt <= c.invalidated[code]
  }

  /** Nothing that happens to the cache closes an episode. */
  lemma {:induction false} EpisodeStaysOpen(c: Cache, ops: seq<Op>, openedAt: nat, covered: set<nat>)
    requires Coherent(c) && Episode(c, openedAt, covered)
    ensures Episode(Run(c, ops), openedAt, covered)
  {
    RunKeepsCoherent(c, ops);
    forall code | code in covered ensures IsCode(Run(c, ops), code) && openedAt <= Run(c, ops).invalidated[code] {
      InvalidationsOnlyAdvance(c, ops, code);
    }
  }

  /** What the opening request must cover: a fresh module that it leaves out can be reported
      with a value stored before the episode. */
  lemma {:induction false} LeftOutIsStale(c: Cache, codes: seq<nat>, code: nat)
    requires Coherent(c) && code !in codes && IsFresh(c, code)
    ensures var d := InvalidateAll(c, codes);
      IsFresh(d, code) && Found(d, code).Some? && Found(d, code).value < |c.log| == |d.log|
    decreases codes
  {
    if codes == [] {
    } else {
      ApplyKeepsCoherent(c, Invalidate(codes[0]));
      LeftOutIsStale(Apply(c, Invalidate(codes[0])), codes[1..], code);
    }
  }

  /** Whatever happens next, no lookup of the code returns a value from before `since`. */
  ghost predicate NeverStale(c: Cache, code: nat, since: nat) {
    forall ops :: Found(Run(c, ops), code).Some? ==> since <= Found(Run(c, ops), code).value
  }

  /** Exactly the codes that the opening request lists are safe: for a module that was fresh,
      no later lookup can return a value from before the episode if and only if it was listed. */
  lemma ListedIffNeverStale(c: Cache, codes: seq<nat>, code: nat)
    requires Coherent(c) && IsFresh(c, code)
    ensures code in codes <==> NeverStale(InvalidateAll(c, codes), code, |c.log|)
  {
    var d := InvalidateAll(c, codes);
    if code in codes {
      forall ops | Found(Run(d, ops), code).Some? ensures |c.log| <= Found(Run(d, ops), code).value {
        EpisodeIsFresh(c, codes, ops, code);
      }
    } else {
      LeftOutIsStale(c, codes, code);
      var none: seq<Op> := [];
      assert Run(d, none) == d;
    }
  }

  ghost function LegalCodes(list: seq<nat>, bound: nat): set<nat> {
    set code | code in list && 1 <= code < bound
  }

  /** Invalidating a list opens an episode for its legal codes, none of which is fresh then. */
  lemma OpenEpisode(c: Cache, list: seq<nat>)
    requires Coherent(c)
    ensures var d, codes := InvalidateAll(c, list), LegalCodes(list, |c.current|);
      Episode(d, |c.log|, codes) && forall code :: code in codes ==> !IsFresh(d, code)
  {
    InvalidateAllMarks(c, list);
    var d := InvalidateAll(c, list);
    forall code | code in LegalCodes(list, |c.current|)
      ensures IsCode(d, code) && |c.log| <= d.invalidated[code] && !IsFresh(d, code)
    {
      assert IsCode(c, code);
      FoundIffFresh(d, code);
    }
  }

  /** Every device entry carries a value stored at or after a place of the history. */
  ghost predicate AllStoredSince(kind: nat -> Kind, c: Cache, entries: seq<Entry>, since: nat, keys: set<nat>) {
    forall e :: e in entries && kind(e.key).Device? && e.key in keys ==> StoredSince(c, e, since)
  }

  lemma CollectedInEpisode(kind: nat -> Kind, present: set<nat>, start: Cache, now: Cache, list: seq<nat>,
      entries: seq<Entry>, openedAt: nat, covered: set<nat>)
    requires Collected(kind, present, start, now, list, entries) && Episode(now, openedAt, covered)
    ensures AllStoredSince(kind, now, entries, openedAt, covered)
  {
    forall e | e in entries && kind(e.key).Device? && e.key in covered ensures StoredSince(now, e, openedAt) {
      assert StoredSince(now, e, now.invalidated[e.key]);
    }
  }

  lemma {:induction false} ReportedIsListed(kind: nat -> Kind, present: set<nat>, list: seq<nat>, code: nat)
    requires code in ReportedCodes(kind, present, list)
    ensures code in list
    decreases list
  {
    if code in ReportedCodes(kind, present, list[1..]) {
      ReportedIsListed(kind, present, list[1..], code);
    }
  }

  /** Every entry is for a requested module. */
  lemma EntryIsListed(kind: nat -> Kind, present: set<nat>, list: seq<nat>, entries: seq<Entry>, e: Entry)
    requires KeysOf(entries) == ReportedCodes(kind, present, list) && e in entries
    ensures e.key in list
  {
    var i :| 0 <= i < |entries| && entries[i] == e;
    assert KeysOf(entries)[i] == e.key;
    ReportedIsListed(kind, present, list, e.key);
  }

  /** The report property, over a whole episode: a request for the modules of a report, then any
      sequence of stores, lookups, further requests and failed attempts, then a successful
      collection of the same modules. Every device entry carries a value stored since the
      request. */
  lemma ReportIsFresh(kind: nat -> Kind, present: set<nat>, c: Cache, modules: seq<nat>, ops: seq<Op>, now: Cache,
      entries: seq<Entry>)
    requires Coherent(c) && forall code: nat :: kind(code).Device? ==> 1 <= code < |c.current|
    requires Collected(kind, present, Run(InvalidateAll(c, modules), ops), now, modules, entries)
    ensures forall e :: e in entries && kind(e.key).Device? ==> StoredSince(now, e, |c.log|)
  {
    var covered := LegalCodes(modules, |c.current|);
    OpenEpisode(c, modules);
    InvalidateAllMarks(c, modules);
    EpisodeStaysOpen(InvalidateAll(c, modules), ops, |c.log|, covered);
    CollectedInEpisode(kind, present, Run(InvalidateAll(c, modules), ops), now, modules, entries, |c.log|, covered);
    forall e | e in entries && kind(e.key).Device? ensures StoredSince(now, e, |c.log|) {
      EntryIsListed(kind, present, modules, entries, e);
    }
  }

  class StatusReportingRoutine {
    const manager: ModuleManager
    var didRequest: bool
    ghost var openedAt: nat
    ghost var covered: set<nat>

    constructor (manager: ModuleManager)
      ensures this.manager == manager && !didRequest
    {
      this.manager, didRequest, openedAt, covered := manager, false, 0, {};
    }

    ghost predicate Valid()
      reads this, manager.proxy, manager.proxy.storage, manager.proxy.writeOffset, manager.proxy.readOffset
    {
      manager.Valid() && (didRequest ==> Episode(manager.proxy.c, openedAt, covered))
    }

    method Reset()
      requires Valid()
      modifies this`didRequest
      ensures Valid() && !didRequest
    {
      didRequest := false;
    }

    /** The first configured mode with the active identifier. */
    ghost predicate FirstActive(config: Configuration, i: nat) {
      && config.modes.Some? && i < |config.modes.value| && config.modes.value[i].0 == config.activeMode
      && forall k :: 0 <= k < i ==> config.modes.value[k].0 != config.activeMode
    }

    /** The first of some report types with an identifier. */
    ghost predicate FirstType(types: seq<ReportType>, id: nat, t: nat) {
      t < |types| && types[t].id == id && forall k :: 0 <= k < t ==> types[k].id != id
    }

    /** The report type of the active mode: the first mode with the active identifier, then
        the first report type it names. */
    method GetCurrentReportingConfiguration(config: Configuration) returns (r: Option<ReportType>)
      ensures r.Some? ==> config.modes.Some? && config.reportTypes.Some? && exists i: nat, t: nat ::
        && FirstActive(config, i) && FirstType(config.reportTypes.value, config.modes.value[i].1, t)
        && config.reportTypes.value[t] == r.value
      ensures r.None? && config.reportTypes.Some? ==>
        forall i: nat, t :: FirstActive(config, i) && t in config.reportTypes.value ==> t.id != config.modes.value[i].1
    {
      if config.modes == None || config.reportTypes == None { return None; }
      var modes, types := config.modes.value, config.reportTypes.value;
      var m: nat := 0;
      while m < |modes| && modes[m].0 != config.activeMode
        invariant m <= |modes| && forall k :: 0 <= k < m ==> modes[k].0 != config.activeMode
      {
        m := m + 1;
      }
      if m == |modes| {
        assert forall i: nat :: !FirstActive(config, i);
        return None;
      }
      var t: nat := 0;
      while t < |types| && types[t].id != modes[m].1
        invariant t <= |types| && forall k :: 0 <= k < t ==> types[k].id != modes[m].1
      {
        t := t + 1;
      }
      assert FirstActive(config, m);
      if t == |types| {
        assert forall i: nat :: FirstActive(config, i) ==> i == m;
        return None;
      }
      assert FirstType(types, modes[m].1, t);
      return Some(types[t]);
    }

    /** The codes that a request for these modules really invalidates. */
    ghost function Covered(modules: seq<nat>): set<nat>
      requires manager.proxy.codes >= 1
    {
      if manager.proxy.devicePort == None then {}
      else LegalCodes(modules[..Min(|modules|, manager.proxy.codes - 1)], manager.proxy.codes)
    }

    /** The cache from which an attempt collects: after the request, if it is still to be made. */
    ghost function AfterRequest(modules: seq<nat>): Cache
      requires manager.proxy.codes >= 1
      reads this, manager.proxy
    {
      if didRequest then manager.proxy.c else manager.Requested(modules)
    }

    /** The open episode's request was for these modules, all of them, to a device with a port. */
    ghost predicate WhollyCovered(modules: seq<nat>)
      requires manager.proxy.codes >= 1
      reads this, manager.proxy
    {
      manager.proxy.devicePort.Some? && |modules| < manager.proxy.codes && covered == Covered(modules)
    }

    ghost function Keys(entries: seq<Entry>): set<nat> { set e | e in entries :: e.key }

    /** Then every device entry of a report is covered. */
    lemma WholeReport(modules: seq<nat>, present: set<nat>, start: Cache, entries: seq<Entry>)
      requires Valid() && WhollyCovered(modules)
      requires Collected(manager.kind, present, start, manager.proxy.c, modules, entries)
      requires AllStoredSince(manager.kind, manager.proxy.c, entries, openedAt, covered)
      ensures AllStoredSince(manager.kind, manager.proxy.c, entries, openedAt, Keys(entries))
    {
      assert modules[..|modules|] == modules;
      forall e | e in entries && manager.kind(e.key).Device? ensures e.key in covered {
        EntryIsListed(manager.kind, present, modules, entries, e);
      }
    }

    /** Opens an episode, with one request, unless one is open. */
    method RequestOnce(modules: seq<nat>) returns (ghost ok: bool)
      requires Valid() && manager.proxy.codes >= 1
      modifies this, manager.proxy, manager.proxy.readOffset, manager.proxy.shared
      ensures OnlyRequests(old(manager.proxy.shared.sent), manager.proxy.shared.sent)
      ensures Valid() && didRequest
      ensures old(didRequest) ==> openedAt == old(openedAt) && covered == old(covered)
      ensures manager.proxy.c == old(AfterRequest(modules))
      ensures old(didRequest) ==> unchanged(manager.proxy.shared)
      ensures !old(didRequest) ==> covered == Covered(modules) && openedAt == |old(manager.proxy.c).log|
      ensures !old(didRequest) ==> manager.proxy.shared.body == Request
      ensures !old(didRequest) ==> manager.proxy.RequestSent(
        old(manager.proxy.shared.sent), modules[..Min(|modules|, manager.proxy.codes - 1)], ok)
      ensures !old(didRequest) ==> forall code :: code in covered ==> !IsFresh(manager.proxy.c, code)
    {
      if didRequest { return false; }
      OpenEpisode(manager.proxy.c, modules[..Min(|modules|, manager.proxy.codes - 1)]);
      openedAt, covered := |manager.proxy.c.log|, Covered(modules);
      var requestOk := manager.RequestUpdatedModules(modules);
      ok := requestOk;
      didRequest := true;
    }

    /** Collects a report's modules in an open episode. */
    method Collect(modules: seq<nat>, present: set<nat>) returns (status: Status, ghost added: seq<Entry>)
      requires Valid() && didRequest
      modifies manager.proxy, manager.proxy.tmp, manager.proxy.readOffset, manager.proxy.shared
      ensures OnlyRequests(old(manager.proxy.shared.sent), manager.proxy.shared.sent)
      ensures Valid() && status != Failure
      ensures status == Success ==> KeysOf(added) == ReportedCodes(manager.kind, present, modules)
      ensures status == Success ==> AllStoredSince(manager.kind, manager.proxy.c, added, openedAt, covered)
      ensures status == Success && WhollyCovered(modules) ==>
        AllStoredSince(manager.kind, manager.proxy.c, added, openedAt, Keys(added))
      ensures status == Success ==>
        manager.Appended(old(manager.proxy.shared.body), old(manager.proxy.shared.entries), added)
      ensures status == Success ==> AllDeviceFresh(manager.kind, old(manager.proxy.c), modules)
      ensures status == Incomplete && manager.proxy.storage.healthy ==>
        !AllDeviceFresh(manager.kind, old(manager.proxy.c), modules)
    {
      ghost var start := manager.proxy.c;
      status, added := manager.GetModules(modules, present);
      if status == Success {
        CollectedInEpisode(manager.kind, present, start, manager.proxy.c, modules, added, openedAt, covered);
        if WhollyCovered(modules) { WholeReport(modules, present, start, added); }
      }
    }

    /** One attempt at a report. A report that succeeds holds every requested device module,
        and for those the opening request covered only values stored since that request; so for
        all of them, when the request was for this report's modules and there are not too many. The
        attempt that opens an episode cannot leave a report: the request has taken over the
        shared packet; and if the request covered a device module it does not succeed. On a card
        that answers, an attempt succeeds exactly when every requested device module is fresh. */
    method Execute(config: Configuration)
      returns (status: Status, ghost report: Option<ReportType>, ghost added: seq<Entry>)
      requires Valid()
      modifies this, manager.proxy, manager.proxy.tmp, manager.proxy.readOffset, manager.proxy.shared
      ensures OnlyRequests(old(manager.proxy.shared.sent), manager.proxy.shared.sent)
      ensures Valid()
      ensures status == Failure <==> report == None
      ensures report.Some? ==> didRequest
      ensures report.None? ==> didRequest == old(didRequest)
      ensures old(didRequest) ==> openedAt == old(openedAt) && covered == old(covered)
      ensures !old(didRequest) && report.Some? ==>
        covered == Covered(report.value.modules) && openedAt == |old(manager.proxy.c).log|
      ensures status == Success ==>
        KeysOf(added) == ReportedCodes(manager.kind, config.present, report.value.modules)
      ensures status == Success ==> AllStoredSince(manager.kind, manager.proxy.c, added, openedAt, covered)
      ensures status == Success && WhollyCovered(report.value.modules) ==>
        AllStoredSince(manager.kind, manager.proxy.c, added, openedAt, Keys(added))
      ensures status == Success ==> (manager.proxy.shared.body == Report <==> old(didRequest))
      ensures status == Success && old(didRequest) ==> manager.proxy.shared.entries == added
      ensures manager.proxy.storage.healthy && report.Some? ==>
        var modules := report.value.modules;
        status == Success <==> AllDeviceFresh(manager.kind, old(AfterRequest(modules)), modules)
      ensures status == Success && !old(didRequest) ==>
        forall code :: code in report.value.modules && manager.kind(code).Device? ==> code !in covered
    {
      var reportType := GetCurrentReportingConfiguration(config);
      report := reportType;
      added := [];
      if reportType == None { return Failure, None, []; }
      var modules := reportType.value.modules;
      manager.proxy.shared.BeginReport();
      var _ := RequestOnce(modules);
      status, added := Collect(modules, config.present);
    }
  }
}
