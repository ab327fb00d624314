/** The GRANDPA light client: finalized headers of the bridged chain, the hand-off between
    authority sets, and the refunds for free headers (bridges/modules/grandpa/src/lib.rs,
    bridges/modules/grandpa/src/call_ext.rs). Justification checks are given functions. */
module GrandpaPallet {
  import opened Wrappers
  import opened RingBuffer

  type Authority(==, !new)
  type Root(==, !new)
  type Justification(==, !new)
  type HeaderRest(==, !new)

  /** The GRANDPA logs of a header digest, in order. */
  datatype ConsensusLog =
    | ScheduledChange(delay: nat, nextAuthorities: seq<Authority>)
    | ForcedChange(median: nat, forcedDelay: nat, forcedAuthorities: seq<Authority>)
    | OtherLog

  datatype Header = Header(number: nat, stateRoot: Root, digest: seq<ConsensusLog>, rest: HeaderRest)

  /** The hash of a header; different headers have different hashes. */
  datatype HeaderHash = HashOf(header: Header)

  datatype HeaderId = HeaderId(number: nat, hash: HeaderHash)

  datatype StoredHeaderData = StoredHeaderData(number: nat, stateRoot: Root)

  const SET_IDS: nat := 0x1_0000_0000_0000_0000

  /** The number of an authority set, a 64-bit word. */
  type SetId = n: nat | n < SET_IDS

  datatype AuthoritySet = AuthoritySet(authorities: seq<Authority>, setId: SetId)

  /** What the pallet takes from the runtime and from the justification library. */
  datatype Config = Config(
    maxFreeHeadersPerBlock: nat, freeHeadersInterval: Option<nat>, headersToKeep: nat, maxAuthorities: nat,
    overflowChecks: bool,
    validVoters: AuthoritySet -> bool,
    justifies: (Justification, Header, AuthoritySet) -> bool,
    extraWeight: (Header, Justification) -> nat,
    extraSize: (Header, Justification) -> nat)

  datatype Error =
    | InvalidJustification
    | InvalidAuthoritySet
    | OldHeader
    | UnsupportedScheduledChange
    | NotInitialized
    | AlreadyInitialized
    | TooManyAuthoritiesInSet
    | InvalidAuthoritySetId
    | FreeHeadersLimitExceded
    | BelowFreeHeaderInterval
    | HeaderOverflowLimits
    | PalletHalted
    | BadOrigin
    | ArithmeticOverflow

  datatype State = State(
    initialHash: Option<HeaderHash>, best: Option<HeaderId>,
    hashes: map<nat, HeaderHash>, pointer: nat, headers: map<HeaderHash, StoredHeaderData>,
    authoritySet: AuthoritySet, freeHeadersRemaining: Option<nat>, halted: bool)

  datatype InitializationData = InitializationData(
    header: Header, authorities: seq<Authority>, setId: SetId, halted: bool)

  datatype Call = Call(header: Header, justification: Justification, currentSetId: SetId)

  // ---------- Authority set changes

  function FindForcedChange(digest: seq<ConsensusLog>): Option<ConsensusLog> {
    if digest != [] && digest[0].ForcedChange? then Some(digest[0]) else None
  }

  /** Log `k` is the first scheduled change of the digest. */
  ghost predicate FirstChangeAt(digest: seq<ConsensusLog>, k: int) {
    0 <= k < |digest| && digest[k].ScheduledChange? && forall j :: 0 <= j < k ==> !digest[j].ScheduledChange?
  }

  lemma FirstChangeInRest(digest: seq<ConsensusLog>)
    requires digest != [] && !digest[0].ScheduledChange?
    ensures forall k :: FirstChangeAt(digest[1..], k) ==> FirstChangeAt(digest, k + 1)
  {
    forall k | FirstChangeAt(digest[1..], k)
      ensures FirstChangeAt(digest, k + 1)
    {
      assert forall j :: 0 < j < k + 1 ==> digest[j] == digest[1..][j - 1];
    }
  }

  function FindScheduledChange(digest: seq<ConsensusLog>): (r: Option<ConsensusLog>)
    ensures r.Some? ==> r.value.ScheduledChange? && exists k :: FirstChangeAt(digest, k) && digest[k] == r.value
    ensures r.None? ==> forall k :: !FirstChangeAt(digest, k)
  {
    if digest == [] then None
    else if digest[0].ScheduledChange? then assert FirstChangeAt(digest, 0); Some(digest[0])
    else FirstChangeInRest(digest); NoneInRest(digest); FindScheduledChange(digest[1..])
  }

  lemma NoneInRest(digest: seq<ConsensusLog>)
    requires digest != [] && !digest[0].ScheduledChange?
    ensures forall k :: FirstChangeAt(digest, k) ==> FirstChangeAt(digest[1..], k - 1)
  {
  }

  function NextSetId(setId: SetId): SetId {
    if setId + 1 < SET_IDS then setId + 1 else 0
  }

  /** Why the change in a header cannot be enacted, if it cannot. */
  function EnactError(config: Config, setId: SetId, header: Header): Option<Error> {
    if FindForcedChange(header.digest).Some? then Some(UnsupportedScheduledChange)
    else
      match FindScheduledChange(header.digest)
      case None => None
      case Some(change) =>
        if change.delay != 0 then Some(UnsupportedScheduledChange)
        else if config.overflowChecks && setId + 1 == SET_IDS then Some(ArithmeticOverflow)
        else if |change.nextAuthorities| > config.maxAuthorities then Some(TooManyAuthoritiesInSet)
        else None
  }

  /** The set that the change in a header installs, if there is one. */
  function NewSet(setId: SetId, header: Header): Option<AuthoritySet> {
    match FindScheduledChange(header.digest)
    case None => None
    case Some(change) => Some(AuthoritySet(change.nextAuthorities, NextSetId(setId)))
  }

  function AfterChange(current: AuthoritySet, header: Header): AuthoritySet {
    match NewSet(current.setId, header)
    case None => current
    case Some(changed) => changed
  }

  /** The changes of a header can be enacted if and only if its first GRANDPA log is no forced change, and its
      first scheduled change, if any, is without delay, fits, and finds a next set id. Otherwise the
      error names the first reason. */
  lemma EnactedExactly(config: Config, setId: SetId, header: Header)
    ensures
      var forcedFirst := header.digest != [] && header.digest[0].ForcedChange?;
      var delayed := exists k :: FirstChangeAt(header.digest, k) && header.digest[k].delay != 0;
      var large :=
        exists k :: FirstChangeAt(header.digest, k) && config.maxAuthorities < |header.digest[k].nextAuthorities|;
      var overflows := config.overflowChecks && setId + 1 == SET_IDS && exists k :: FirstChangeAt(header.digest, k);
      var error := EnactError(config, setId, header);
      && (error == None <==> !forcedFirst && !delayed && !overflows && !large)
      && (error == Some(UnsupportedScheduledChange) <==> forcedFirst || delayed)
      && (error == Some(ArithmeticOverflow) <==> !forcedFirst && !delayed && overflows)
      && (error == Some(TooManyAuthoritiesInSet) <==> !forcedFirst && !delayed && !overflows && large)
  {
    var found := FindScheduledChange(header.digest);
    if found.Some? {
      var first :| FirstChangeAt(header.digest, first) && header.digest[first] == found.value;
      assert forall k :: FirstChangeAt(header.digest, k) ==> k == first;
    }
  }

  /** A header with a forced change is accepted all the same if and only if the forced change is not
      the first GRANDPA log and the first scheduled change, if any, can be enacted. */
  lemma ForcedChangeIsAccepted(config: Config, setId: SetId, header: Header, forcedAt: nat)
    requires forcedAt < |header.digest| && header.digest[forcedAt].ForcedChange?
    ensures EnactError(config, setId, header).None? <==>
            && !header.digest[0].ForcedChange?
            && forall k :: FirstChangeAt(header.digest, k) ==>
                 && header.digest[k].delay == 0 && |header.digest[k].nextAuthorities| <= config.maxAuthorities
                 && !(config.overflowChecks && setId + 1 == SET_IDS)
  {
    EnactedExactly(config, setId, header);
  }

  /** So a forced change behind a scheduled one goes unnoticed. */
  lemma HiddenForcedChange(config: Config, header: Header, authorities: seq<Authority>, forced: ConsensusLog)
    requires forced.ForcedChange? && |authorities| <= config.maxAuthorities
    ensures EnactError(config, 0, header.(digest := [ScheduledChange(0, authorities), forced])) == None
  {
    ForcedChangeIsAccepted(config, 0, header.(digest := [ScheduledChange(0, authorities), forced]), 1);
  }

  // ---------- Obsolescence and refunds

  /** How far the header is ahead of the best one, or why it is refused. */
  function CheckObsolete(state: State, number: nat, currentSetId: Option<SetId>): Result<nat, Error> {
    if state.best.None? then Err(NotInitialized)
    else if number <= state.best.value.number then Err(OldHeader)
    else if currentSetId.Some? && currentSetId.value != state.authoritySet.setId then Err(InvalidAuthoritySetId)
    else Ok(number - state.best.value.number)
  }

  datatype CallInfo = CallInfo(
    blockNumber: nat, currentSetId: Option<SetId>, isMandatory: bool, isFreeExecutionExpected: bool,
    extraWeight: nat, extraSize: nat)
  {
    predicate FitsLimits() {
      extraWeight == 0 && extraSize == 0
    }
  }

  function CallInfoOf(config: Config, call: Call, isFreeExecutionExpected: bool): CallInfo {
    CallInfo(call.header.number, Some(call.currentSetId), FindScheduledChange(call.header.digest).Some?,
             isFreeExecutionExpected, config.extraWeight(call.header, call.justification),
             config.extraSize(call.header, call.justification))
  }

  predicate HasFreeHeaderSlots(state: State) {
    state.freeHeadersRemaining.None? || state.freeHeadersRemaining.value > 0
  }

  /** The check of the transaction extension, made before the call. */
  function CheckObsoleteFromExtension(config: Config, state: State, info: CallInfo): Result<nat, Error> {
    match CheckObsolete(state, info.blockNumber, info.currentSetId)
    case Err(error) => Err(error)
    case Ok(improvedBy) =>
      if !info.isFreeExecutionExpected then Ok(improvedBy)
      else if !HasFreeHeaderSlots(state) then Err(FreeHeadersLimitExceded)
      else if !info.isMandatory && config.freeHeadersInterval.Some? && improvedBy < config.freeHeadersInterval.value
      then Err(BelowFreeHeaderInterval)
      else if !info.FitsLimits() then Err(HeaderOverflowLimits)
      else Ok(improvedBy)
  }

  /** The decision of the call itself to refund its fee. */
  predicate MayRefund(config: Config, state: State, info: CallInfo, improvedBy: nat) {
    && state.freeHeadersRemaining.Some? && state.freeHeadersRemaining.value != 0
    && info.FitsLimits()
    && (info.isMandatory || (config.freeHeadersInterval.Some? && improvedBy >= config.freeHeadersInterval.value))
  }

  /** The two separately written predicates disagree, for a call that wants to be free and whose
      header is not obsolete, exactly when it fits the limits and either runs outside of a block,
      or is an ordinary header and no interval of free headers is configured. So inside a block
      with an interval configured, a call passes the extension if and only if it is refunded. */
  lemma ExtensionAgreesWithRefund(config: Config, state: State, call: Call)
    requires CheckObsolete(state, call.header.number, Some(call.currentSetId)).Ok?
    ensures
      var info := CallInfoOf(config, call, true);
      var improvedBy := call.header.number - state.best.value.number;
      var passes := CheckObsoleteFromExtension(config, state, info).Ok?;
      var refunded := MayRefund(config, state, info, improvedBy);
      && (refunded ==> passes)
      && (passes != refunded <==>
            info.FitsLimits() &&
            if state.freeHeadersRemaining.None?
            then info.isMandatory || config.freeHeadersInterval.None? || config.freeHeadersInterval.value <= improvedBy
            else 0 < state.freeHeadersRemaining.value && !info.isMandatory && config.freeHeadersInterval.None?)
      && (state.freeHeadersRemaining.Some? && config.freeHeadersInterval.Some? ==> (passes <==> refunded))
  {
  }

  /** The header changes the authorities; it has to be imported before any later one. */
  predicate Mandatory(header: Header) {
    exists k :: 0 <= k < |header.digest| && header.digest[k].ScheduledChange?
  }

  lemma {:induction false} ScheduledIsFound(digest: seq<ConsensusLog>, k: nat)
    requires k < |digest| && digest[k].ScheduledChange?
    ensures FindScheduledChange(digest).Some?
  {
    if !digest[0].ScheduledChange? {
      ScheduledIsFound(digest[1..], k - 1);
    }
  }

  lemma MandatoryIsFound(header: Header)
    ensures Mandatory(header) <==> FindScheduledChange(header.digest).Some?
  {
    if k :| 0 <= k < |header.digest| && header.digest[k].ScheduledChange? {
      ScheduledIsFound(header.digest, k);
    }
  }

  /** The call needs nothing beyond the limits, and its header is mandatory or far enough ahead. */
  predicate DeservesRefund(config: Config, best: nat, call: Call) {
    && config.extraWeight(call.header, call.justification) == 0
    && config.extraSize(call.header, call.justification) == 0
    && (|| Mandatory(call.header)
        || (config.freeHeadersInterval.Some? && best + config.freeHeadersInterval.value <= call.header.number))
  }

  /** What the extension answers to a call whose header is not obsolete. */
  ghost predicate AnswersFresh(config: Config, state: State, call: Call, wantsFree: bool, answer: Result<nat, Error>)
    requires state.best.Some?
  {
    var best := state.best.value.number;
    var taken := state.freeHeadersRemaining == Some(0);
    var tooClose := && !Mandatory(call.header) && config.freeHeadersInterval.Some?
                    && call.header.number < best + config.freeHeadersInterval.value;
    var large := || config.extraWeight(call.header, call.justification) != 0
                 || config.extraSize(call.header, call.justification) != 0;
    && (answer.Ok? <==> !(wantsFree && (taken || tooClose || large)))
    && (answer.Ok? ==> best + answer.value == call.header.number)
    && (answer == Err(FreeHeadersLimitExceded) <==> wantsFree && taken)
    && (answer == Err(BelowFreeHeaderInterval) <==> wantsFree && !taken && tooClose)
    && (answer == Err(HeaderOverflowLimits) <==> wantsFree && !taken && !tooClose && large)
  }

  /** The check of the extension refuses an obsolete header. To any other it answers with the improvement unless
      the call wants to be free and no slot is left, or its header is neither mandatory nor far enough
      ahead, or the call does not fit the limits. */
  lemma ExtensionAnswers(config: Config, state: State, call: Call, wantsFree: bool)
    ensures
      var answer := CheckObsoleteFromExtension(config, state, CallInfoOf(config, call, wantsFree));
      var obsolete := CheckObsolete(state, call.header.number, Some(call.currentSetId));
      if obsolete.Err? then answer == obsolete
      else AnswersFresh(config, state, call, wantsFree, answer)
  {
    MandatoryIsFound(call.header);
  }

  /** A header is obsolete exactly when it is not ahead of the best one or names another set. */
  lemma ObsoleteExactly(state: State, call: Call)
    ensures
      var answer := CheckObsolete(state, call.header.number, Some(call.currentSetId));
      && (answer == Err(NotInitialized) <==> state.best == None)
      && (answer == Err(OldHeader) <==> state.best.Some? && call.header.number <= state.best.value.number)
      && (answer == Err(InvalidAuthoritySetId) <==>
            && state.best.Some? && state.best.value.number < call.header.number
            && call.currentSetId != state.authoritySet.setId)
      && (answer.Ok? <==>
            && state.best.Some? && state.best.value.number < call.header.number
            && call.currentSetId == state.authoritySet.setId)
      && (answer.Ok? ==> state.best.value.number + answer.value == call.header.number)
  {
  }

  // ---------- What the calls compute

  function RingOf(state: State): Ring<HeaderHash, StoredHeaderData> {
    Ring(state.hashes, state.pointer, state.headers)
  }

  function EntryOf(header: Header): (HeaderHash, StoredHeaderData) {
    (HashOf(header), StoredHeaderData(header.number, header.stateRoot))
  }

  function AfterInsert(config: Config, state: State, header: Header): State
    requires 0 < config.headersToKeep
  {
    var (hash, stored) := EntryOf(header);
    var ring := Insert(config.headersToKeep, RingOf(state), hash, stored);
    state.(best := Some(HeaderId(header.number, hash)),
           hashes := ring.slots, pointer := ring.next, headers := ring.items)
  }

  /** Why a submission is refused, if it is. */
  function SubmitError(config: Config, state: State, call: Call): Option<Error> {
    if state.halted then Some(PalletHalted)
    else
      match CheckObsolete(state, call.header.number, Some(call.currentSetId))
      case Err(error) => Some(error)
      case Ok(_) =>
        if !config.validVoters(state.authoritySet) then Some(InvalidAuthoritySet)
        else if !config.justifies(call.justification, call.header, state.authoritySet) then Some(InvalidJustification)
        else EnactError(config, state.authoritySet.setId, call.header)
  }

  predicate Refunded(config: Config, state: State, call: Call)
    requires state.best.Some? && state.best.value.number <= call.header.number
  {
    MayRefund(config, state, CallInfoOf(config, call, false), call.header.number - state.best.value.number)
  }

  /** An accepted submission is refunded if and only if a free header remains in the block and the call
      deserves it. */
  lemma RefundedExactly(config: Config, state: State, call: Call)
    requires state.best.Some? && state.best.value.number <= call.header.number
    ensures Refunded(config, state, call) <==>
            && state.freeHeadersRemaining.Some? && 0 < state.freeHeadersRemaining.value
            && DeservesRefund(config, state.best.value.number, call)
  {
    MandatoryIsFound(call.header);
  }

  /** A submission is accepted if and only if the pallet is not halted, the header is not obsolete, its
      justification is one of valid voters, and its changes can be enacted. Otherwise the error names the
      first reason. */
  lemma SubmitAnswers(config: Config, state: State, call: Call, error: Error)
    ensures
      var answer := SubmitError(config, state, call);
      var obsolete := CheckObsolete(state, call.header.number, Some(call.currentSetId));
      var voters := config.validVoters(state.authoritySet);
      var justified := config.justifies(call.justification, call.header, state.authoritySet);
      var enact := EnactError(config, state.authoritySet.setId, call.header);
      && (answer == None <==> !state.halted && obsolete.Ok? && voters && justified && enact == None)
      && (answer == Some(error) <==>
            || (error == PalletHalted && state.halted)
            || (!state.halted && obsolete == Err(error))
            || (error == InvalidAuthoritySet && !state.halted && obsolete.Ok? && !voters)
            || (error == InvalidJustification && !state.halted && obsolete.Ok? && voters && !justified)
            || (!state.halted && obsolete.Ok? && voters && justified && enact == Some(error)))
  {
  }

  function AfterFreeHeader(remaining: Option<nat>): Option<nat> {
    if remaining.Some? && remaining.value > 0 then Some(remaining.value - 1) else remaining
  }

  function AfterSubmit(config: Config, state: State, call: Call): State
    requires 0 < config.headersToKeep && SubmitError(config, state, call).None?
  {
    var changed := state.(
      authoritySet := AfterChange(state.authoritySet, call.header),
      freeHeadersRemaining := if Refunded(config, state, call) then AfterFreeHeader(state.freeHeadersRemaining)
                              else state.freeHeadersRemaining);
    AfterInsert(config, changed, call.header)
  }

  predicate MayInitialize(config: Config, state: State, isOwner: bool, data: InitializationData) {
    isOwner && state.best.None? && |data.authorities| <= config.maxAuthorities
  }

  function AfterInitialize(config: Config, state: State, data: InitializationData): State
    requires 0 < config.headersToKeep
  {
    AfterInsert(config, state.(initialHash := Some(HashOf(data.header)), pointer := 0), data.header).(
      authoritySet := AuthoritySet(data.authorities, data.setId), halted := data.halted)
  }

  function AfterForceSet(
    config: Config, state: State, authorities: seq<Authority>, setId: SetId, header: Header): State
    requires 0 < config.headersToKeep
  {
    AfterInsert(config, state.(authoritySet := AuthoritySet(authorities, setId)), header)
  }

  // ---------- The pallet object

  datatype SubmitReport = SubmitReport(refunded: bool, newSet: Option<AuthoritySet>)

  class Pallet {
    const config: Config
    var initialHash: Option<HeaderHash>
    var best: Option<HeaderId>
    var hashes: map<nat, HeaderHash>
    var pointer: nat
    var headers: map<HeaderHash, StoredHeaderData>
    var authoritySet: AuthoritySet
    var freeHeadersRemaining: Option<nat>
    var halted: bool

    ghost function View(): State
      reads this
    {
      State(initialHash, best, hashes, pointer, headers, authoritySet, freeHeadersRemaining, halted)
    }

    /** A pallet that has not been initialized is halted. */
    constructor (config: Config)
      ensures this.config == config
      ensures View() == Genesis() && halted && best.None?
    {
      this.config := config;
      initialHash, best, hashes, pointer, headers := None, None, map[], 0, map[];
      authoritySet, freeHeadersRemaining, halted := AuthoritySet([], 0), None, true;
    }

    method OnInitialize()
      modifies this
      ensures View() == old(View()).(freeHeadersRemaining := Some(config.maxFreeHeadersPerBlock))
    {
      freeHeadersRemaining := Some(config.maxFreeHeadersPerBlock);
    }

    method OnFinalize()
      modifies this
      ensures View() == old(View()).(freeHeadersRemaining := None)
    {
      freeHeadersRemaining := None;
    }

    /** Writes a verified header and prunes the one whose slot it takes. */
    method InsertHeader(header: Header)
      requires 0 < config.headersToKeep
      modifies this
      ensures View() == AfterInsert(config, old(View()), header)
    {
      var hash, index: nat := HashOf(header), pointer;
      var pruning := if index in hashes then Some(hashes[index]) else None;
      best := Some(HeaderId(header.number, hash));
      headers := headers[hash := StoredHeaderData(header.number, header.stateRoot)];
      hashes := hashes[index := hash];
      pointer := (index + 1) % config.headersToKeep;
      if pruning.Some? {
        headers := headers - {pruning.value};
      }
    }

    method SaveAuthoritiesSet(newSetId: SetId, newAuthorities: seq<Authority>)
      returns (r: Result<Option<AuthoritySet>, Error>)
      modifies this
      ensures r == if |newAuthorities| <= config.maxAuthorities
                   then Ok(Some(AuthoritySet(newAuthorities, newSetId))) else Err(TooManyAuthoritiesInSet)
      ensures View() == if r.Ok? then old(View()).(authoritySet := r.value.value) else old(View())
    {
      if |newAuthorities| > config.maxAuthorities {
        return Err(TooManyAuthoritiesInSet);
      }
      authoritySet := AuthoritySet(newAuthorities, newSetId);
      return Ok(Some(authoritySet));
    }

    /** Enacts the scheduled change of a header at once, and reports the new set. */
    method TryEnactAuthorityChange(header: Header) returns (r: Result<Option<AuthoritySet>, Error>)
      modifies this
      ensures r == match EnactError(config, old(authoritySet).setId, header)
                   case None => Ok(NewSet(old(authoritySet).setId, header))
                   case Some(error) => Err(error)
      ensures View() == if r.Ok? then old(View()).(authoritySet := AfterChange(old(authoritySet), header))
                        else old(View())
    {
      if FindForcedChange(header.digest).Some? {
        return Err(UnsupportedScheduledChange);
      }
      var change := FindScheduledChange(header.digest);
      if change.Some? {
        if change.value.delay != 0 {
          return Err(UnsupportedScheduledChange);
        }
        if config.overflowChecks && authoritySet.setId + 1 == SET_IDS {
          return Err(ArithmeticOverflow);
        }
        r := SaveAuthoritiesSet(NextSetId(authoritySet.setId), change.value.nextAuthorities);
        return;
      }
      return Ok(None);
    }

    method Initialize(isOwner: bool, data: InitializationData) returns (r: Result<(), Error>)
      requires 0 < config.headersToKeep
      modifies this
      ensures r.Ok? <==> MayInitialize(config, old(View()), isOwner, data)
      ensures View() == if r.Ok? then AfterInitialize(config, old(View()), data) else old(View())
      ensures r.Ok? ==>
                && initialHash == Some(HashOf(data.header)) && halted == data.halted
                && best == Some(HeaderId(data.header.number, HashOf(data.header)))
                && authoritySet == AuthoritySet(data.authorities, data.setId)
      ensures r == Err(BadOrigin) <==> !isOwner
      ensures r == Err(AlreadyInitialized) <==> isOwner && old(best).Some?
      ensures r == Err(TooManyAuthoritiesInSet) <==>
              isOwner && old(best).None? && config.maxAuthorities < |data.authorities|
    {
      if !isOwner {
        return Err(BadOrigin);
      }
      if best.Some? {
        return Err(AlreadyInitialized);
      }
      if |data.authorities| > config.maxAuthorities {
        return Err(TooManyAuthoritiesInSet);
      }
      initialHash := Some(HashOf(data.header));
      pointer := 0;
      InsertHeader(data.header);
      authoritySet := AuthoritySet(data.authorities, data.setId);
      halted := data.halted;
      return Ok(());
    }

    /** Imports a justified header; reports whether its fee is refunded and the set that it installs. A
        refused submission changes nothing, even before any rollback. */
    method SubmitFinalityProofEx(call: Call) returns (r: Result<SubmitReport, Error>)
      requires 0 < config.headersToKeep
      modifies this
      ensures r.Err? <==> SubmitError(config, old(View()), call).Some?
      ensures r.Err? ==> SubmitError(config, old(View()), call) == Some(r.error) && View() == old(View())
      ensures r.Ok? ==>
                && r.value.refunded == Refunded(config, old(View()), call)
                && (r.value.refunded <==>
                      && old(freeHeadersRemaining).Some? && 0 < old(freeHeadersRemaining).value
                      && DeservesRefund(config, old(best).value.number, call))
                && r.value.newSet == NewSet(old(authoritySet).setId, call.header)
                && View() == AfterSubmit(config, old(View()), call)
    {
      if halted {
        return Err(PalletHalted);
      }
      var obsolete := CheckObsolete(
        State(initialHash, best, hashes, pointer, headers, authoritySet, freeHeadersRemaining, halted),
        call.header.number, Some(call.currentSetId));
      if obsolete.Err? {
        return Err(obsolete.error);
      }
      if !config.validVoters(authoritySet) {
        return Err(InvalidAuthoritySet);
      }
      if !config.justifies(call.justification, call.header, authoritySet) {
        return Err(InvalidJustification);
      }
      var enacted := TryEnactAuthorityChange(call.header);
      if enacted.Err? {
        return Err(enacted.error);
      }
      RefundedExactly(config, old(View()), call);
      var refund := MayRefund(
        config, State(initialHash, best, hashes, pointer, headers, authoritySet, freeHeadersRemaining, halted),
        CallInfoOf(config, call, false), obsolete.value);
      if refund {
        freeHeadersRemaining := AfterFreeHeader(freeHeadersRemaining);
      }
      InsertHeader(call.header);
      return Ok(SubmitReport(refund, enacted.value));
    }

    method ForceSetPalletState(isOwner: bool, newSetId: SetId, newAuthorities: seq<Authority>, newBest: Header)
      returns (r: Result<(), Error>)
      requires 0 < config.headersToKeep
      modifies this
      ensures r.Ok? <==> isOwner && |newAuthorities| <= config.maxAuthorities
      ensures r == Err(BadOrigin) <==> !isOwner
      ensures r.Err? && isOwner ==> r.error == TooManyAuthoritiesInSet
      ensures r.Ok? ==>
                && best == Some(HeaderId(newBest.number, HashOf(newBest)))
                && authoritySet == AuthoritySet(newAuthorities, newSetId)
      ensures View() == if r.Ok? then AfterForceSet(config, old(View()), newAuthorities, newSetId, newBest)
                        else old(View())
    {
      if !isOwner {
        return Err(BadOrigin);
      }
      var saved := SaveAuthoritiesSet(newSetId, newAuthorities);
      if saved.Err? {
        return Err(saved.error);
      }
      InsertHeader(newBest);
      return Ok(());
    }
  }

  function Genesis(): State {
    State(None, None, map[], 0, map[], AuthoritySet([], 0), None, true)
  }
}
