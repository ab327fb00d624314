/** What holds of the GRANDPA light client after every run. */
module GrandpaRuns {
  import opened Wrappers
  import opened RingBuffer
  import opened GrandpaPallet

  datatype Step =
    | BlockStart
    | BlockEnd
    | Initialize(isOwner: bool, data: InitializationData)
    | Submit(call: Call)
    | ForceSet(forcedBy: bool, setId: SetId, authorities: seq<Authority>, header: Header)
    | SetOperatingMode(halted: bool)

  /** What the pallet was initialized with, or forced to. */
  datatype Base = Base(authoritySet: AuthoritySet, header: Header)

  /** The pallet, the headers that were ever imported, its latest base, the submissions accepted since,
      and the numbers of refunds, and of accepted submissions that deserve one, since the current block
      started. */
  datatype History = History(
    state: State, imports: seq<Header>, base: Option<Base>, accepted: seq<Call>, refunds: nat, deserving: nat)

  function Apply(config: Config, h: History, step: Step): History
    requires 0 < config.headersToKeep
  {
    match step
    case BlockStart => h.(state := h.state.(freeHeadersRemaining := Some(config.maxFreeHeadersPerBlock)),
                           refunds := 0, deserving := 0)
    case BlockEnd => h.(state := h.state.(freeHeadersRemaining := None))
    case Initialize(isOwner, data) =>
      if MayInitialize(config, h.state, isOwner, data)
      then h.(state := AfterInitialize(config, h.state, data), imports := h.imports + [data.header], accepted := [],
              base := Some(Base(AuthoritySet(data.authorities, data.setId), data.header)))
      else h
    case Submit(call) =>
      if SubmitError(config, h.state, call).None?
      then h.(state := AfterSubmit(config, h.state, call), imports := h.imports + [call.header],
              accepted := h.accepted + [call],
              refunds := h.refunds + (if Refunded(config, h.state, call) then 1 else 0),
              deserving := h.deserving + if DeservesRefund(config, h.state.best.value.number, call) then 1 else 0)
      else h
    case ForceSet(forcedBy, setId, authorities, header) =>
      if forcedBy && |authorities| <= config.maxAuthorities
      then h.(state := AfterForceSet(config, h.state, authorities, setId, header),
              imports := h.imports + [header], accepted := [],
              base := Some(Base(AuthoritySet(authorities, setId), header)))
      else h
    case SetOperatingMode(halted) => h.(state := h.state.(halted := halted))
  }

  function Run(config: Config, steps: seq<Step>): History
    requires 0 < config.headersToKeep
  {
    if steps == [] then History(Genesis(), [], None, [], 0, 0)
    else Apply(config, Run(config, steps[..|steps| - 1]), steps[|steps| - 1])
  }

  ghost predicate NeverForced(steps: seq<Step>) {
    forall i :: 0 <= i < |steps| ==> !steps[i].ForceSet?
  }

  // ---------- With forced states

  /** However states are forced, at most `headersToKeep` headers are kept, each with its hash in
      the ring. */
  lemma {:induction false} KeepsAtMost(config: Config, steps: seq<Step>)
    requires 0 < config.headersToKeep
    ensures
      var state := Run(config, steps).state;
      && Bounded(config.headersToKeep, RingOf(state))
      && |state.headers| <= config.headersToKeep
  {
    if steps != [] {
      var h := Run(config, steps[..|steps| - 1]);
      KeepsAtMost(config, steps[..|steps| - 1]);
      StepBounded(config, h, steps[|steps| - 1]);
      ItemsAtMostSize(config.headersToKeep, RingOf(Run(config, steps).state));
    }
  }

  lemma StepBounded(config: Config, h: History, step: Step)
    requires 0 < config.headersToKeep && Bounded(config.headersToKeep, RingOf(h.state))
    ensures Bounded(config.headersToKeep, RingOf(Apply(config, h, step).state))
  {
    match step
    case Initialize(_, data) =>
      var (hash, stored) := EntryOf(data.header);
      InsertBounded(config.headersToKeep, RingOf(h.state.(pointer := 0)), hash, stored);
    case Submit(call) =>
      var (hash, stored) := EntryOf(call.header);
      InsertBounded(config.headersToKeep, RingOf(h.state), hash, stored);
    case ForceSet(_, _, _, header) =>
      var (hash, stored) := EntryOf(header);
      InsertBounded(config.headersToKeep, RingOf(h.state), hash, stored);
    case _ =>
  }

  /** A forced best header is among the kept ones if and only if the ring does not overwrite its
      own hash with it. */
  lemma ForcedHeaderIsKept(config: Config, steps: seq<Step>, authorities: seq<Authority>, setId: SetId, header: Header)
    requires 0 < config.headersToKeep
    ensures
      var state := Run(config, steps).state;
      var after := AfterForceSet(config, state, authorities, setId, header);
      && after.best == Some(HeaderId(header.number, HashOf(header)))
      && (HashOf(header) in after.headers <==>
            !(state.pointer in state.hashes && state.hashes[state.pointer] == HashOf(header)))
  {
  }

  /** The header that a step imports, if it does. */
  function ImportedBy(config: Config, state: State, step: Step): Option<Header> {
    match step
    case Initialize(isOwner, data) => if MayInitialize(config, state, isOwner, data) then Some(data.header) else None
    case Submit(call) => if SubmitError(config, state, call).None? then Some(call.header) else None
    case ForceSet(forcedBy, _, authorities, header) =>
      if forcedBy && |authorities| <= config.maxAuthorities then Some(header) else None
    case _ => None
  }

  /** The step imports a header whose hash is the one that the ring overwrites next. */
  predicate OverwritesItself(config: Config, state: State, step: Step) {
    && (step.Submit? || step.ForceSet?)
    && var header := ImportedBy(config, state, step);
       header.Some? && state.pointer in state.hashes && state.hashes[state.pointer] == HashOf(header.value)
  }

  ghost predicate BestIsKept(state: State) {
    state.best.Some? ==> state.best.value.hash in state.headers
  }

  ghost predicate NeverOverwritesItself(config: Config, steps: seq<Step>)
    requires 0 < config.headersToKeep
  {
    steps == [] ||
    var before := steps[..|steps| - 1];
    NeverOverwritesItself(config, before) && !OverwritesItself(config, Run(config, before).state, steps[|steps| - 1])
  }

  /** The best header is kept, now and after every beginning of the run. */
  ghost predicate AlwaysKept(config: Config, steps: seq<Step>)
    requires 0 < config.headersToKeep
  {
    && BestIsKept(Run(config, steps).state)
    && (steps != [] ==> AlwaysKept(config, steps[..|steps| - 1]))
  }

  ghost predicate Uninitialized(state: State) {
    state.best.None? && state.hashes == map[] && state.headers == map[] && state.pointer == 0
  }

  /** An imported header is kept if and only if the ring does not overwrite its own hash with it. */
  lemma InsertKeepsBest(config: Config, state: State, header: Header)
    requires 0 < config.headersToKeep
    ensures BestIsKept(AfterInsert(config, state, header)) <==>
            !(state.pointer in state.hashes && state.hashes[state.pointer] == HashOf(header))
  {
  }

  lemma StepKeepsBest(config: Config, h: History, step: Step)
    requires 0 < config.headersToKeep
    requires h.state.best.None? ==> Uninitialized(h.state)
    ensures
      var after := Apply(config, h, step).state;
      && (after.best.None? ==> Uninitialized(after))
      && (BestIsKept(h.state) ==> (BestIsKept(after) <==> !OverwritesItself(config, h.state, step)))
  {
    match step
    case Initialize(_, data) =>
      InsertKeepsBest(config, h.state.(pointer := 0), data.header);
    case Submit(call) =>
      InsertKeepsBest(config, h.state, call.header);
    case ForceSet(_, _, _, header) =>
      InsertKeepsBest(config, h.state, header);
    case _ =>
  }

  lemma {:induction false} UninitializedUntilBest(config: Config, steps: seq<Step>)
    requires 0 < config.headersToKeep
    ensures Run(config, steps).state.best.None? ==> Uninitialized(Run(config, steps).state)
  {
    if steps != [] {
      var before := steps[..|steps| - 1];
      UninitializedUntilBest(config, before);
      StepKeepsBest(config, Run(config, before), steps[|steps| - 1]);
    }
  }

  /** Over every run, with states forced in between: the best header is always among the kept ones if and
      only if no submitted or forced header finds its own hash in the slot that the ring overwrites. */
  lemma {:induction false} BestIsKeptExactly(config: Config, steps: seq<Step>)
    requires 0 < config.headersToKeep
    ensures AlwaysKept(config, steps) <==> NeverOverwritesItself(config, steps)
  {
    if steps != [] {
      var before := steps[..|steps| - 1];
      BestIsKeptExactly(config, before);
      UninitializedUntilBest(config, before);
      StepKeepsBest(config, Run(config, before), steps[|steps| - 1]);
      assert AlwaysKept(config, before) ==> BestIsKept(Run(config, before).state);
    }
  }

  /** Forcing the same header twice into a ring of one slot loses it. */
  lemma ForcedTwiceIsLost(config: Config, authorities: seq<Authority>, header: Header)
    requires config.headersToKeep == 1 && |authorities| <= config.maxAuthorities
    ensures
      var force := ForceSet(true, 0, authorities, header);
      var state := Run(config, [force, force]).state;
      state.best == Some(HeaderId(header.number, HashOf(header))) && state.headers == map[]
  {
    var force := ForceSet(true, 0, authorities, header);
    assert [force, force][..1] == [force] && [force][..0] == [];
    var h := Run(config, [force]);
    assert h == Apply(config, Run(config, []), force);
    assert Run(config, [force, force]) == Apply(config, h, force);
  }

  lemma RunStep(config: Config, steps: seq<Step>, step: Step)
    requires 0 < config.headersToKeep
    ensures Run(config, steps + [step]) == Apply(config, Run(config, steps), step)
  {
    assert (steps + [step])[..|steps|] == steps;
  }

  /** Forcing a header into a ring of two slots. */
  lemma ForceOfTwo(config: Config, h: History, authorities: seq<Authority>, header: Header)
    requires config.headersToKeep == 2 && |authorities| <= config.maxAuthorities
    requires h.state.pointer < 2 && h.state.pointer !in h.state.hashes
    ensures
      var state := Apply(config, h, ForceSet(true, 0, authorities, header)).state;
      && state.best == Some(HeaderId(header.number, HashOf(header)))
      && state.authoritySet == AuthoritySet(authorities, 0)
      && state.pointer == 1 - h.state.pointer
      && state.hashes == h.state.hashes[h.state.pointer := HashOf(header)]
      && HashOf(header) in state.headers
  {
    NextSlot(h.state.pointer, 2);
  }

  /** The state after a header and a lower one have been forced into a ring of two slots. */
  lemma ForcedBack(config: Config, authorities: seq<Authority>, high: Header, low: Header)
    requires config.headersToKeep == 2 && |authorities| <= config.maxAuthorities && low != high
    ensures
      var up, down := ForceSet(true, 0, authorities, high), ForceSet(true, 0, authorities, low);
      var steps := [up] + [down] + [SetOperatingMode(false)];
      var state := Run(config, steps).state;
      && !state.halted && state.best == Some(HeaderId(low.number, HashOf(low)))
      && state.authoritySet == AuthoritySet(authorities, 0)
      && state.pointer == 0 && state.hashes == map[0 := HashOf(high), 1 := HashOf(low)]
      && BestIsKept(state)
  {
    var up, down := ForceSet(true, 0, authorities, high), ForceSet(true, 0, authorities, low);
    var on := SetOperatingMode(false);
    assert [] + [up] == [up];
    RunStep(config, [], up);
    ForceOfTwo(config, Run(config, []), authorities, high);
    RunStep(config, [up], down);
    ForceOfTwo(config, Run(config, [up]), authorities, low);
    RunStep(config, [up] + [down], on);
  }

  /** After a state was forced back, a header that is submitted again is lost: it is the best one, but it
      is not among the kept ones. */
  lemma ResubmittedIsLost(
    config: Config, authorities: seq<Authority>, high: Header, low: Header, justification: Justification)
    returns (steps: seq<Step>)
    requires config.headersToKeep == 2 && |authorities| <= config.maxAuthorities && low.number < high.number
    requires config.validVoters(AuthoritySet(authorities, 0))
    requires config.justifies(justification, high, AuthoritySet(authorities, 0))
    requires EnactError(config, 0, high).None?
    ensures
      var state := Run(config, steps).state;
      state.best == Some(HeaderId(high.number, HashOf(high))) && HashOf(high) !in state.headers
  {
    var up, down := ForceSet(true, 0, authorities, high), ForceSet(true, 0, authorities, low);
    var on := SetOperatingMode(false);
    var before := [up] + [down] + [on];
    var submit := Submit(Call(high, justification, 0));
    ForcedBack(config, authorities, high, low);
    RunStep(config, before, submit);
    steps := before + [submit];
  }

  // ---------- The kept headers

  ghost function Entries(headers: seq<Header>): (r: seq<(HeaderHash, StoredHeaderData)>)
    ensures |r| == |headers|
    ensures forall i :: 0 <= i < |r| ==> r[i] == EntryOf(headers[i])
  {
    if headers == [] then [] else Entries(headers[..|headers| - 1]) + [EntryOf(headers[|headers| - 1])]
  }

  /** The storage is what inserting the imported headers one by one makes of a ring. */
  ghost predicate StoresRing(config: Config, h: History)
    requires 0 < config.headersToKeep
  {
    && RingOf(h.state) == InsertAll(config.headersToKeep, Entries(h.imports))
    && (h.state.best.None? ==> h.imports == [])
  }

  lemma EntriesStep(headers: seq<Header>, header: Header)
    ensures Entries(headers + [header]) == Entries(headers) + [EntryOf(header)]
    ensures Entries(headers + [header])[..|headers|] == Entries(headers)
  {
    assert (headers + [header])[..|headers|] == headers;
  }

  lemma RingStep(config: Config, headers: seq<Header>, header: Header)
    requires 0 < config.headersToKeep
    ensures
      var (hash, stored) := EntryOf(header);
      InsertAll(config.headersToKeep, Entries(headers + [header])) ==
      Insert(config.headersToKeep, InsertAll(config.headersToKeep, Entries(headers)), hash, stored)
  {
    EntriesStep(headers, header);
  }

  /** A step inserts the header that it imports, and nothing else. */
  lemma StepInserts(config: Config, h: History, step: Step)
    requires 0 < config.headersToKeep && (h.state.best.None? ==> h.state.pointer == 0)
    ensures
      var after, header := Apply(config, h, step), ImportedBy(config, h.state, step);
      if header.None? then after.imports == h.imports && RingOf(after.state) == RingOf(h.state)
      else
        var (hash, stored) := EntryOf(header.value);
        && after.imports == h.imports + [header.value] && after.state.best.Some?
        && RingOf(after.state) == Insert(config.headersToKeep, RingOf(h.state), hash, stored)
  {
  }

  lemma StepStoresRing(config: Config, h: History, step: Step)
    requires 0 < config.headersToKeep && StoresRing(config, h)
    ensures StoresRing(config, Apply(config, h, step))
  {
    var header := ImportedBy(config, h.state, step);
    StepInserts(config, h, step);
    if header.Some? {
      RingStep(config, h.imports, header.value);
    } else {
      StillNoBest(config, h, step);
    }
  }

  lemma StillNoBest(config: Config, h: History, step: Step)
    requires 0 < config.headersToKeep && ImportedBy(config, h.state, step).None?
    ensures Apply(config, h, step).state.best == h.state.best
  {
  }

  lemma {:induction false} RingHolds(config: Config, steps: seq<Step>)
    requires 0 < config.headersToKeep
    ensures StoresRing(config, Run(config, steps))
  {
    if steps != [] {
      RingHolds(config, steps[..|steps| - 1]);
      StepStoresRing(config, Run(config, steps[..|steps| - 1]), steps[|steps| - 1]);
    }
  }

  /** The kept headers are the last imported ones, now and after every beginning of the run. */
  ghost predicate AlwaysKeepsLast(config: Config, steps: seq<Step>)
    requires 0 < config.headersToKeep
  {
    && HoldsLast(config.headersToKeep, Run(config, steps).state.headers, Entries(Run(config, steps).imports))
    && (steps != [] ==> AlwaysKeepsLast(config, steps[..|steps| - 1]))
  }

  lemma {:induction false} AlwaysKeepsRing(config: Config, steps: seq<Step>)
    requires 0 < config.headersToKeep
    ensures AlwaysKeepsLast(config, steps) <==>
            AlwaysHoldsLast(config.headersToKeep, Entries(Run(config, steps).imports))
  {
    RingHolds(config, steps);
    if steps != [] {
      var before := steps[..|steps| - 1];
      RingHolds(config, before);
      AlwaysKeepsRing(config, before);
      ImportsGrow(config, Run(config, before), steps[|steps| - 1]);
    }
  }

  lemma ImportsGrow(config: Config, h: History, step: Step)
    requires 0 < config.headersToKeep && StoresRing(config, h)
    ensures
      var before, after := Entries(h.imports), Entries(Apply(config, h, step).imports);
      after == before || (after != [] && after[..|after| - 1] == before)
  {
    StepInserts(config, h, step);
    var header := ImportedBy(config, h.state, step);
    if header.Some? {
      EntriesStep(h.imports, header.value);
    }
  }

  /** Over every run, with states forced in between: the kept headers are always exactly the last
      `headersToKeep` imported ones, if and only if no header is imported again before the ring has gone
      round. */
  lemma KeepsLastExactlyInRuns(config: Config, steps: seq<Step>)
    requires 0 < config.headersToKeep
    ensures AlwaysKeepsLast(config, steps) <==>
            NoEarlyRepeat(config.headersToKeep, Entries(Run(config, steps).imports))
  {
    AlwaysKeepsRing(config, steps);
    KeepsLastExactly(config.headersToKeep, Entries(Run(config, steps).imports));
  }

  // ---------- Since the latest base

  /** The headers that were imported since the latest base, its header first. */
  ghost function Imported(h: History): seq<Header>
    requires h.base.Some?
  {
    [h.base.value.header] + seq(|h.accepted|, i requires 0 <= i < |h.accepted| => h.accepted[i].header)
  }

  /** Numbers strictly increase and the best header is the last imported one. */
  ghost predicate NumbersIncrease(h: History) {
    if h.base.None? then h.state.best.None?
    else
      var headers := Imported(h);
      && h.state.best == Some(HeaderId(headers[|headers| - 1].number, HashOf(headers[|headers| - 1])))
      && forall i, j :: 0 <= i < j < |headers| ==> headers[i].number < headers[j].number
  }

  lemma ImportedGrows(h: History, call: Call)
    requires h.base.Some?
    ensures Imported(h.(accepted := h.accepted + [call])) == Imported(h) + [call.header]
  {
  }

  lemma StepIncreases(config: Config, h: History, step: Step)
    requires 0 < config.headersToKeep
    requires NumbersIncrease(h)
    ensures NumbersIncrease(Apply(config, h, step))
  {
    var h' := Apply(config, h, step);
    if step.Submit? && SubmitError(config, h.state, step.call).None? {
      ImportedGrows(h, step.call);
      assert Imported(h') == Imported(h.(accepted := h'.accepted));
    } else if step.ForceSet? && h' != h {
      assert Imported(h') == [step.header];
    } else if h.base.Some? {
      assert Imported(h') == Imported(h);
    }
  }

  /** In runs without forced states, what was ever imported is what was imported since the base. */
  ghost predicate OneBase(h: History) {
    if h.base.None? then h.imports == [] && h.state.best.None? else h.imports == Imported(h)
  }

  lemma {:induction false} OneBaseHolds(config: Config, steps: seq<Step>)
    requires 0 < config.headersToKeep && NeverForced(steps)
    ensures OneBase(Run(config, steps)) && NumbersIncrease(Run(config, steps))
  {
    if steps != [] {
      var h, step := Run(config, steps[..|steps| - 1]), steps[|steps| - 1];
      OneBaseHolds(config, steps[..|steps| - 1]);
      StepIncreases(config, h, step);
      if step.Submit? && SubmitError(config, h.state, step.call).None? {
        ImportedGrows(h, step.call);
        assert Imported(Apply(config, h, step)) == Imported(h.(accepted := h.accepted + [step.call]));
      } else if h.base.Some? {
        assert Imported(Apply(config, h, step)) == Imported(h);
      }
    }
  }

  /** The header is kept with its number and state root. */
  ghost predicate Keeps(state: State, header: Header) {
    && HashOf(header) in state.headers
    && state.headers[HashOf(header)].number == header.number
    && state.headers[HashOf(header)].stateRoot == header.stateRoot
  }

  /** Without forced states the kept headers are exactly the last `headersToKeep` imported ones, each with its
      number and state root; their numbers strictly increase, and the best header is the newest and is
      kept. */
  lemma KeepsLastHeaders(config: Config, steps: seq<Step>)
    requires 0 < config.headersToKeep && NeverForced(steps)
    requires Run(config, steps).base.Some?
    ensures
      var h := Run(config, steps);
      && HoldsLast(config.headersToKeep, h.state.headers, Entries(h.imports))
      && (forall i :: Oldest(|h.imports|, config.headersToKeep) <= i < |h.imports| ==> Keeps(h.state, h.imports[i]))
      && (forall i, j :: 0 <= i < j < |h.imports| ==> h.imports[i].number < h.imports[j].number)
      && h.imports != [] && h.state.best.Some?
      && h.state.best.value.hash == HashOf(h.imports[|h.imports| - 1])
      && h.state.best.value.hash in h.state.headers
  {
    RingHolds(config, steps);
    OneBaseHolds(config, steps);
    RingKeepsLast(config, Run(config, steps));
  }

  lemma RingKeepsLast(config: Config, h: History)
    requires 0 < config.headersToKeep && h.imports != [] && StoresRing(config, h)
    requires forall i, j :: 0 <= i < j < |h.imports| ==> h.imports[i].number < h.imports[j].number
    ensures HoldsLast(config.headersToKeep, h.state.headers, Entries(h.imports))
    ensures HashOf(h.imports[|h.imports| - 1]) in h.state.headers
    ensures forall i :: Oldest(|h.imports|, config.headersToKeep) <= i < |h.imports| ==> Keeps(h.state, h.imports[i])
  {
    var entries := Entries(h.imports);
    assert DistinctKeys(entries) by {
      forall i, j | 0 <= i < j < |entries|
        ensures entries[i].0 != entries[j].0
      {
        assert h.imports[i].number < h.imports[j].number;
      }
    }
    KeepsLast(config.headersToKeep, entries);
    forall i | Oldest(|h.imports|, config.headersToKeep) <= i < |h.imports|
      ensures Keeps(h.state, h.imports[i])
    {
      assert entries[i] == EntryOf(h.imports[i]);
    }
    assert entries[|entries| - 1].0 in h.state.headers;
  }

  // ---------- The hand-off between authority sets

  ghost predicate Changes(call: Call) {
    FindScheduledChange(call.header.digest).Some?
  }

  ghost function ChangeCount(accepted: seq<Call>): nat {
    if accepted == [] then 0
    else ChangeCount(accepted[..|accepted| - 1]) + if Changes(accepted[|accepted| - 1]) then 1 else 0
  }

  /** The authorities that the latest change among `accepted` installs, or the first ones. */
  ghost function LatestAuthorities(first: seq<Authority>, accepted: seq<Call>): seq<Authority> {
    if accepted == [] then first
    else
      var last := accepted[|accepted| - 1];
      if Changes(last) then FindScheduledChange(last.header.digest).value.nextAuthorities
      else LatestAuthorities(first, accepted[..|accepted| - 1])
  }

  /** The authorities of the latest change, under an id that counts the changes. */
  ghost function InstalledSet(first: AuthoritySet, accepted: seq<Call>): AuthoritySet {
    AuthoritySet(LatestAuthorities(first.authorities, accepted), (first.setId + ChangeCount(accepted)) % SET_IDS)
  }

  ghost predicate HandedOff(config: Config, h: History) {
    if h.base.None? then h.accepted == [] && h.state.best.None?
    else
      && h.state.best.Some?
      && h.state.authoritySet == InstalledSet(h.base.value.authoritySet, h.accepted)
      && ChainJustified(config, h.base.value.authoritySet, h.accepted)
  }

  /** The set has signed the header, under the id that the submission names, and the change in
      the header takes effect without delay. */
  ghost predicate JustifiedBy(config: Config, call: Call, authoritySet: AuthoritySet) {
    && call.currentSetId == authoritySet.setId
    && config.justifies(call.justification, call.header, authoritySet)
    && (Changes(call) ==> FindScheduledChange(call.header.digest).value.delay == 0)
  }

  lemma AcceptedIsJustified(config: Config, state: State, call: Call)
    requires SubmitError(config, state, call).None?
    ensures state.best.Some? && JustifiedBy(config, call, state.authoritySet)
  {
  }

  lemma InstalledStep(first: AuthoritySet, accepted: seq<Call>, call: Call)
    ensures InstalledSet(first, accepted + [call]) == AfterChange(InstalledSet(first, accepted), call.header)
  {
    assert (accepted + [call])[..|accepted|] == accepted;
  }

  ghost predicate ChainJustified(config: Config, first: AuthoritySet, accepted: seq<Call>) {
    forall i :: 0 <= i < |accepted| ==> JustifiedBy(config, accepted[i], InstalledSet(first, accepted[..i]))
  }

  lemma ChainGrows(config: Config, first: AuthoritySet, accepted: seq<Call>, call: Call)
    requires ChainJustified(config, first, accepted)
    requires JustifiedBy(config, call, InstalledSet(first, accepted))
    ensures ChainJustified(config, first, accepted + [call])
  {
    forall i | 0 <= i <= |accepted|
      ensures JustifiedBy(config, (accepted + [call])[i], InstalledSet(first, (accepted + [call])[..i]))
    {
      assert (accepted + [call])[..i] == accepted[..i];
      assert i == |accepted| ==> accepted[..i] == accepted;
    }
  }

  lemma StepHandsOff(config: Config, h: History, step: Step)
    requires 0 < config.headersToKeep
    requires HandedOff(config, h)
    ensures HandedOff(config, Apply(config, h, step))
  {
    if step.Submit? && SubmitError(config, h.state, step.call).None? {
      AcceptedIsJustified(config, h.state, step.call);
      InstalledStep(h.base.value.authoritySet, h.accepted, step.call);
      ChainGrows(config, h.base.value.authoritySet, h.accepted, step.call);
    }
  }

  lemma {:induction false} HandOffHolds(config: Config, steps: seq<Step>)
    requires 0 < config.headersToKeep
    ensures HandedOff(config, Run(config, steps)) && NumbersIncrease(Run(config, steps))
  {
    if steps != [] {
      var before, last := steps[..|steps| - 1], steps[|steps| - 1];
      HandOffHolds(config, before);
      StepHandsOff(config, Run(config, before), last);
      StepIncreases(config, Run(config, before), last);
    }
  }

  /** The hand-off chain, since the pallet was initialized or its state was last forced: numbers strictly
      increase, each accepted header is justified by the set that the latest change before it
      installed, and the set id counts the accepted changes. */
  lemma HandOffChain(config: Config, steps: seq<Step>)
    requires 0 < config.headersToKeep
    requires Run(config, steps).base.Some?
    ensures
      var h := Run(config, steps);
      var first, headers := h.base.value.authoritySet, Imported(h);
      && (forall i :: 0 <= i < |h.accepted| ==>
            JustifiedBy(config, h.accepted[i], InstalledSet(first, h.accepted[..i])))
      && h.state.authoritySet == InstalledSet(first, h.accepted)
      && (forall i, j :: 0 <= i < j < |headers| ==> headers[i].number < headers[j].number)
      && h.state.best.Some? && h.state.best.value.hash == HashOf(headers[|headers| - 1])
  {
    HandOffHolds(config, steps);
  }

  // ---------- Free headers

  /** Within a block, the refunds so far and the remaining free headers add up to the limit, and of the
      submissions that deserve a refund as many got one as the limit allows. */
  ghost predicate RefundsAddUp(config: Config, h: History) {
    && (h.state.freeHeadersRemaining.Some? ==>
          && h.refunds + h.state.freeHeadersRemaining.value == config.maxFreeHeadersPerBlock
          && h.refunds == if h.deserving < config.maxFreeHeadersPerBlock then h.deserving
                          else config.maxFreeHeadersPerBlock)
    && h.refunds <= config.maxFreeHeadersPerBlock
  }

  lemma {:induction false} RefundsAreBounded(config: Config, steps: seq<Step>)
    requires 0 < config.headersToKeep
    ensures RefundsAddUp(config, Run(config, steps))
  {
    if steps != [] {
      RefundsAreBounded(config, steps[..|steps| - 1]);
      StepRefunds(config, Run(config, steps[..|steps| - 1]), steps[|steps| - 1]);
    }
  }

  lemma StepRefunds(config: Config, h: History, step: Step)
    requires 0 < config.headersToKeep && RefundsAddUp(config, h)
    ensures RefundsAddUp(config, Apply(config, h, step))
  {
    if step.Submit? && SubmitError(config, h.state, step.call).None? {
      RefundedExactly(config, h.state, step.call);
    }
  }

  /** Without an interval of free headers, a call for an ordinary header that wants to be free passes the
      check of the extension right after the start of a block, and is not refunded. */
  lemma FreeCallIsCharged(config: Config, data: InitializationData, call: Call)
    requires 0 < config.headersToKeep && 0 < config.maxFreeHeadersPerBlock && config.freeHeadersInterval.None?
    requires |data.authorities| <= config.maxAuthorities
    requires data.header.number < call.header.number && call.currentSetId == data.setId
    requires FindScheduledChange(call.header.digest).None? && CallInfoOf(config, call, true).FitsLimits()
    ensures
      var state, info := Run(config, [Initialize(true, data)] + [BlockStart]).state, CallInfoOf(config, call, true);
      && CheckObsoleteFromExtension(config, state, info).Ok?
      && !MayRefund(config, state, info, call.header.number - data.header.number)
  {
    RunStep(config, [], Initialize(true, data));
    assert [] + [Initialize(true, data)] == [Initialize(true, data)];
    RunStep(config, [Initialize(true, data)], BlockStart);
  }
}
