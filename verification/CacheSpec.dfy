/** The module cache as a history: every stored value has a place in one growing log, and
    freshness is about places in it. The lemmas speak about all operation sequences. */
module CacheSpec {
  import opened Bytes

  /** A module's value under its code. */
  datatype Wrapper = Wrapper(which: nat, data: seq<Byte>)

  /** `current` gives, per code, the log place of the stored value that counts as fresh;
      `slot` the place of the value held in memory; `invalidated` how long the log was when
      the code was last invalidated. Codes run from 1 to |current| - 1. */
  datatype Cache = Cache(log: seq<Wrapper>, current: seq<Option<nat>>, slot: Option<nat>, invalidated: seq<nat>)

  datatype Op =
    | Store(w: Wrapper)
    | Invalidate(code: nat)
    | Get(code: nat)
    | Forget(code: nat)  // a value that could not be read back is given up

  predicate IsCode(c: Cache, code: nat) { 1 <= code < |c.current| && |c.invalidated| == |c.current| }

  /** Fresh values were stored under their code after its last invalidation, and the value
      held in memory belongs to a fresh code. */
  ghost predicate Coherent(c: Cache) {
    && |c.invalidated| == |c.current|
    && (forall code: nat :: IsCode(c, code) ==> c.invalidated[code] <= |c.log|)
    && (forall code: nat :: IsCode(c, code) && c.current[code].Some? ==>
          && c.invalidated[code] <= c.current[code].value < |c.log|
          && c.log[c.current[code].value].which == code)
    && (c.slot.Some? ==>
          && c.slot.value < |c.log| && IsCode(c, c.log[c.slot.value].which)
          && c.current[c.log[c.slot.value].which].Some?
          && c.invalidated[c.log[c.slot.value].which] <= c.slot.value <= c.current[c.log[c.slot.value].which].value)
  }

  predicate SlotHolds(c: Cache, code: nat) {
    c.slot.Some? && c.slot.value < |c.log| && c.log[c.slot.value].which == code
  }

  /** The place of the value a `getIfFresh` returns. */
  function Found(c: Cache, code: nat): Option<nat> {
    if SlotHolds(c, code) then c.slot
    else if IsCode(c, code) then c.current[code]
    else None
  }

  function Apply(c: Cache, op: Op): Cache {
    match op
    case Store(w) =>
      if !IsCode(c, w.which) then c
      else c.(log := c.log + [w], current := c.current[w.which := Some(|c.log|)])
    case Invalidate(code) =>
      if !IsCode(c, code) then c
      else c.(current := c.current[code := None], slot := None, invalidated := c.invalidated[code := |c.log|])
    case Get(code) => if Found(c, code).Some? then c.(slot := Found(c, code)) else c
    case Forget(code) =>
      if !IsCode(c, code) || SlotHolds(c, code) then c else c.(current := c.current[code := None])
  }

  function Run(c: Cache, ops: seq<Op>): Cache {
    if ops == [] then c else Apply(Run(c, ops[..|ops| - 1]), ops[|ops| - 1])
  }

  lemma ApplyKeepsCoherent(c: Cache, op: Op)
    requires Coherent(c)
    ensures Coherent(Apply(c, op)) && |Apply(c, op).current| == |c.current| && c.log <= Apply(c, op).log
  {
  }

  lemma {:induction false} RunKeepsCoherent(c: Cache, ops: seq<Op>)
    requires Coherent(c)
    ensures Coherent(Run(c, ops)) && |Run(c, ops).current| == |c.current| && c.log <= Run(c, ops).log
  {
    if ops == [] {
    } else {
      RunKeepsCoherent(c, ops[..|ops| - 1]);
      ApplyKeepsCoherent(Run(c, ops[..|ops| - 1]), ops[|ops| - 1]);
    }
  }

  // ---- what a value returned after a run can be, told from the operations alone ----

  predicate Accepted(codes: nat, op: Op) { op.Store? && 1 <= op.w.which < codes }

  function Stores(codes: nat, ops: seq<Op>): nat {
    if ops == [] then 0
    else Stores(codes, ops[..|ops| - 1]) + if Accepted(codes, ops[|ops| - 1]) then 1 else 0
  }

  /** How many stores happened before a code's last invalidation in the run. */
  function StoresBeforeInvalidation(codes: nat, ops: seq<Op>, code: nat): nat {
    if ops == [] then 0
    else if ops[|ops| - 1] == Invalidate(code) then Stores(codes, ops[..|ops| - 1])
    else StoresBeforeInvalidation(codes, ops[..|ops| - 1], code)
  }

  function Fresh(codes: nat): Cache
    requires codes >= 1
  {
    Cache([], seq(codes, _ => None), None, seq(codes, _ => 0))
  }

  /** The place of a code's newest value, unless an invalidation or a failed read came after it.
      No read takes place, so none can fail, while the value is held in memory. */
  function NewestStore(codes: nat, ops: seq<Op>, code: nat): Option<nat>
    requires codes >= 1
  {
    if ops == [] then None
    else
      var last, before := ops[|ops| - 1], ops[..|ops| - 1];
      if Accepted(codes, last) && last.w.which == code then Some(Stores(codes, before))
      else if last == Invalidate(code) then None
      else if last == Forget(code) && !SlotHolds(Run(Fresh(codes), before), code) then None
      else NewestStore(codes, before, code)
  }

  lemma {:induction false} RunCounts(codes: nat, ops: seq<Op>)
    requires codes >= 1
    ensures var c := Run(Fresh(codes), ops);
      && |c.current| == codes && Coherent(c) && |c.log| == Stores(codes, ops)
      && forall code: nat :: IsCode(c, code) ==> c.invalidated[code] == StoresBeforeInvalidation(codes, ops, code)
  {
    RunKeepsCoherent(Fresh(codes), ops);
    if ops == [] {
    } else {
      RunCounts(codes, ops[..|ops| - 1]);
    }
  }

  /** Never stale across an invalidation: in every run, whatever a code's lookup returns was
      stored under that code, after the code's last invalidation. */
  lemma NeverBeforeInvalidation(codes: nat, ops: seq<Op>, code: nat)
    requires codes >= 1 && 1 <= code < codes
    requires Found(Run(Fresh(codes), ops), code).Some?
    ensures var c, i := Run(Fresh(codes), ops), Found(Run(Fresh(codes), ops), code).value;
      StoresBeforeInvalidation(codes, ops, code) <= i < |c.log| && c.log[i].which == code
  {
    RunCounts(codes, ops);
  }

  /** The value held in memory has been overtaken: its code was stored again since it was
      loaded, and it has been neither invalidated nor replaced by another lookup. */
  predicate Overtaken(codes: nat, ops: seq<Op>, code: nat)
    requires codes >= 1
  {
    if ops == [] then false
    else
      var last, before := ops[|ops| - 1], ops[..|ops| - 1];
      var c := Run(Fresh(codes), before);
      if Accepted(codes, last) && last.w.which == code then SlotHolds(c, code)
      else if last.Invalidate? && 1 <= last.code < codes then false
      else if last.Get? && last.code != code && Found(c, last.code).Some? then false
      else Overtaken(codes, before, code)
  }

  lemma {:induction false} TracksNewest(codes: nat, ops: seq<Op>, code: nat)
    requires codes >= 1 && 1 <= code < codes
    ensures var c := Run(Fresh(codes), ops);
      && IsCode(c, code) && c.current[code] == NewestStore(codes, ops, code)
      && (Overtaken(codes, ops, code) <==> SlotHolds(c, code) && c.slot != c.current[code])
  {
    RunCounts(codes, ops);
    if ops == [] {
    } else {
      RunCounts(codes, ops[..|ops| - 1]);
      TracksNewest(codes, ops[..|ops| - 1], code);
    }
  }

  /** Exactly when a lookup is up to date, over all operation sequences: it returns the newest
      value stored since the last invalidation, and nothing when there is none, if and only if
      the value held in memory has not been overtaken. */
  lemma LookupIsNewest(codes: nat, ops: seq<Op>, code: nat)
    requires codes >= 1 && 1 <= code < codes
    ensures Found(Run(Fresh(codes), ops), code) == NewestStore(codes, ops, code) <==> !Overtaken(codes, ops, code)
  {
    TracksNewest(codes, ops, code);
  }

  /** The exception is real: after store, lookup, store of one code, the lookup still returns
      the first value although the second is newer. */
  lemma StoreOverSlotIsNotSeen(w: Wrapper, newer: Wrapper)
    requires w.which == newer.which == 1
    ensures var ops := [Store(w), Get(1), Store(newer)];
      Found(Run(Fresh(2), ops), 1) == Some(0) && NewestStore(2, ops, 1) == Some(1)
  {
    var one, two, ops := [Store(w)], [Store(w), Get(1)], [Store(w), Get(1), Store(newer)];
    assert one[..0] == [] && two[..1] == one && ops[..2] == two;
    assert Stores(2, []) == 0 && Stores(2, one) == 1;
    assert Stores(2, two) == 1;
    assert Run(Fresh(2), one) == Apply(Fresh(2), Store(w));
    assert Run(Fresh(2), two) == Apply(Run(Fresh(2), one), Get(1));
    assert Run(Fresh(2), two).slot == Some(0);
  }

  // ---- report episodes ----

  function InvalidateAll(c: Cache, codes: seq<nat>): Cache
    decreases codes
  {
    if codes == [] then c else InvalidateAll(Apply(c, Invalidate(codes[0])), codes[1..])
  }

  lemma {:induction false} InvalidateAllMarks(c: Cache, codes: seq<nat>)
    requires Coherent(c)
    ensures var d := InvalidateAll(c, codes);
      && Coherent(d) && d.log == c.log && |d.current| == |c.current|
      && (forall code: nat :: IsCode(c, code) ==> c.invalidated[code] <= d.invalidated[code])
      && (forall code: nat :: code in codes && IsCode(c, code) ==>
            d.invalidated[code] == |c.log| && Found(d, code) == None)
    decreases codes
  {
    if codes == [] {
    } else {
      var next := Apply(c, Invalidate(codes[0]));
      ApplyKeepsCoherent(c, Invalidate(codes[0]));
      InvalidateAllMarks(next, codes[1..]);
      if IsCode(c, codes[0]) { InvalidatedStays(next, codes[1..], codes[0]); }
    }
  }

  lemma {:induction false} InvalidatedStays(c: Cache, codes: seq<nat>, code: nat)
    requires Coherent(c) && IsCode(c, code) && c.invalidated[code] == |c.log| && Found(c, code) == None
    ensures var d := InvalidateAll(c, codes);
      IsCode(d, code) && d.invalidated[code] == |d.log| == |c.log| && Found(d, code) == None
    decreases codes
  {
    if codes == [] {
    } else {
      ApplyKeepsCoherent(c, Invalidate(codes[0]));
      InvalidatedStays(Apply(c, Invalidate(codes[0])), codes[1..], code);
    }
  }

  lemma {:induction false} InvalidationsOnlyAdvance(c: Cache, ops: seq<Op>, code: nat)
    requires Coherent(c) && IsCode(c, code)
    ensures var d := Run(c, ops); IsCode(d, code) && c.invalidated[code] <= d.invalidated[code] <= |d.log|
  {
    RunKeepsCoherent(c, ops);
    if ops == [] {
    } else {
      InvalidationsOnlyAdvance(c, ops[..|ops| - 1], code);
      RunKeepsCoherent(c, ops[..|ops| - 1]);
    }
  }

  /** Freshness over an episode: once a set of modules has been invalidated, whatever happens
      next (stores, further requests, lookups, failed reads), a value found for one of them
      was stored after that point. */
  lemma EpisodeIsFresh(c: Cache, codes: seq<nat>, ops: seq<Op>, code: nat)
    requires Coherent(c) && code in codes && IsCode(c, code)
    ensures var d := Run(InvalidateAll(c, codes), ops);
      Found(d, code).Some? ==> |c.log| <= Found(d, code).value < |d.log| && d.log[Found(d, code).value].which == code
  {
    InvalidateAllMarks(c, codes);
    var d := InvalidateAll(c, codes);
    RunKeepsCoherent(d, ops);
    InvalidationsOnlyAdvance(d, ops, code);
  }
}
