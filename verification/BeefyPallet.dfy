/** The BEEFY light client: commitments of the bridged chain, rate limited and kept in a ring
    (bridges/modules/beefy/src/lib.rs). */
module BeefyPallet {
  import opened Wrappers
  import opened BeefyVerification
  import opened RingBuffer

  datatype ImportedCommitment = ImportedCommitment(parentNumber: nat, parentHash: Hash, mmrRoot: Hash)

  datatype ImportedInfo = ImportedInfo(bestBlockNumber: nat, nextBlockNumberIndex: nat)

  datatype InitializationData = InitializationData(halted: bool, bestBlockNumber: nat, authoritySet: AuthoritySetInfo)

  datatype Submission = Submission(
    signed: SignedCommitment, validatorSet: ValidatorSet, mmrLeaf: MmrLeaf, mmrProof: MmrProof)

  datatype Config = Config(maxRequests: nat, commitmentsToKeep: nat, crypto: Crypto)

  datatype State = State(
    requestCount: nat, info: Option<ImportedInfo>, blockNumbers: map<nat, nat>,
    commitments: map<nat, ImportedCommitment>, authoritySet: AuthoritySetInfo, halted: bool)

  // ---------- What the calls compute

  ghost predicate Accepts(config: Config, state: State, submission: Submission) {
    && !state.halted
    && state.requestCount < config.maxRequests
    && state.info.Some?
    && state.info.value.bestBlockNumber < submission.signed.commitment.blockNumber
    && Committed(config.crypto, submission.signed, state.authoritySet, submission.validatorSet)
    && config.crypto.verifyLeaf(submission.mmrLeaf, submission.mmrProof, submission.signed.commitment.mmrRoot.value)
  }

  function EntryOf(submission: Submission): (nat, ImportedCommitment)
    requires submission.signed.commitment.mmrRoot.Some?
  {
    (submission.signed.commitment.blockNumber,
     ImportedCommitment(submission.mmrLeaf.parentNumber, submission.mmrLeaf.parentHash,
                        submission.signed.commitment.mmrRoot.value))
  }

  function RingOf(state: State): Ring<nat, ImportedCommitment>
    requires state.info.Some?
  {
    Ring(state.blockNumbers, state.info.value.nextBlockNumberIndex, state.commitments)
  }

  function NextAuthoritySet(current: AuthoritySetInfo, leaf: MmrLeaf): AuthoritySetInfo {
    if leaf.nextAuthoritySet.id > current.id then leaf.nextAuthoritySet else current
  }

  function AfterSubmit(config: Config, state: State, submission: Submission): State
    requires state.info.Some? && submission.signed.commitment.mmrRoot.Some? && 0 < config.commitmentsToKeep
  {
    var (number, imported) := EntryOf(submission);
    var ring := Insert(config.commitmentsToKeep, RingOf(state), number, imported);
    State(state.requestCount + 1, Some(ImportedInfo(number, ring.next)), ring.slots, ring.items,
          NextAuthoritySet(state.authoritySet, submission.mmrLeaf), state.halted)
  }

  predicate MayInitialize(state: State, isOwner: bool, data: InitializationData) {
    isOwner && state.info.None? && data.authoritySet.len != 0
  }

  function AfterInitialize(state: State, data: InitializationData): State {
    state.(info := Some(ImportedInfo(data.bestBlockNumber, 0)),
           authoritySet := data.authoritySet, halted := data.halted)
  }

  function AfterBlockStart(state: State): State {
    state.(requestCount := if state.requestCount == 0 then 0 else state.requestCount - 1)
  }

  // ---------- The pallet object

  class Pallet {
    const config: Config
    var requestCount: nat
    var info: Option<ImportedInfo>
    var blockNumbers: map<nat, nat>
    var commitments: map<nat, ImportedCommitment>
    var authoritySet: AuthoritySetInfo
    var halted: bool

    ghost function View(): State
      reads this
    {
      State(requestCount, info, blockNumbers, commitments, authoritySet, halted)
    }

    /** A pallet that has not been initialized is halted. */
    constructor (config: Config, defaultSet: AuthoritySetInfo)
      ensures this.config == config
      ensures View() == Genesis(defaultSet) && halted && info.None?
    {
      this.config := config;
      requestCount, info, blockNumbers, commitments := 0, None, map[], map[];
      authoritySet, halted := defaultSet, true;
    }

    method OnInitialize()
      modifies this
      ensures View() == AfterBlockStart(old(View()))
    {
      if requestCount > 0 {
        requestCount := requestCount - 1;
      }
    }

    method Initialize(isOwner: bool, data: InitializationData) returns (r: Result<(), Error>)
      modifies this
      ensures r.Ok? <==> MayInitialize(old(View()), isOwner, data)
      ensures View() == if r.Ok? then AfterInitialize(old(View()), data) else old(View())
      ensures r.Ok? ==>
                && info == Some(ImportedInfo(data.bestBlockNumber, 0))
                && authoritySet == data.authoritySet && halted == data.halted
      ensures r == Err(BadOrigin) <==> !isOwner
      ensures r == Err(AlreadyInitialized) <==> isOwner && old(info).Some?
      ensures r == Err(InvalidInitialAuthoritySet) <==> isOwner && old(info).None? && data.authoritySet.len == 0
    {
      if !isOwner {
        return Err(BadOrigin);
      }
      if info.Some? {
        return Err(AlreadyInitialized);
      }
      if data.authoritySet.len == 0 {
        return Err(InvalidInitialAuthoritySet);
      }
      authoritySet := data.authoritySet;
      halted := data.halted;
      info := Some(ImportedInfo(data.bestBlockNumber, 0));
      return Ok(());
    }

    /** Imports a commitment to a better block. A refused one changes nothing. */
    method SubmitCommitment(submission: Submission) returns (r: Result<(), Error>)
      requires 0 < config.commitmentsToKeep
      modifies this
      ensures r.Ok? <==> Accepts(config, old(View()), submission)
      ensures View() == if r.Ok? then AfterSubmit(config, old(View()), submission) else old(View())
      ensures r == Err(PalletHalted) <==> old(halted)
      ensures r == Err(TooManyRequests) <==> !old(halted) && config.maxRequests <= old(requestCount)
      ensures r == Err(NotInitialized) <==> !old(halted) && old(requestCount) < config.maxRequests && old(info).None?
      ensures r == Err(OldCommitment) <==>
              && !old(halted) && old(requestCount) < config.maxRequests && old(info).Some?
              && submission.signed.commitment.blockNumber <= old(info).value.bestBlockNumber
      ensures r == Err(MmrProofVerificationFailed) <==>
              && !old(halted) && old(requestCount) < config.maxRequests && old(info).Some?
              && old(info).value.bestBlockNumber < submission.signed.commitment.blockNumber
              && Committed(config.crypto, submission.signed, old(authoritySet), submission.validatorSet)
              && !config.crypto.verifyLeaf(
                    submission.mmrLeaf, submission.mmrProof, submission.signed.commitment.mmrRoot.value)
    {
      if halted {
        return Err(PalletHalted);
      }
      if requestCount >= config.maxRequests {
        return Err(TooManyRequests);
      }
      if info.None? {
        return Err(NotInitialized);
      }
      var number := submission.signed.commitment.blockNumber;
      if number <= info.value.bestBlockNumber {
        return Err(OldCommitment);
      }
      var verified := VerifyCommitment(config.crypto, submission.signed, authoritySet, submission.validatorSet);
      if verified.Err? {
        return Err(verified.error);
      }
      if !config.crypto.verifyLeaf(submission.mmrLeaf, submission.mmrProof, verified.value) {
        return Err(MmrProofVerificationFailed);
      }
      requestCount := requestCount + 1;
      if submission.mmrLeaf.nextAuthoritySet.id > authoritySet.id {
        authoritySet := submission.mmrLeaf.nextAuthoritySet;
      }
      var index: nat := info.value.nextBlockNumberIndex;
      var toPrune := if index in blockNumbers then Some(blockNumbers[index]) else None;
      commitments := commitments[number := ImportedCommitment(
        submission.mmrLeaf.parentNumber, submission.mmrLeaf.parentHash, verified.value)];
      blockNumbers := blockNumbers[index := number];
      info := Some(ImportedInfo(number, (index + 1) % config.commitmentsToKeep));
      if toPrune.Some? {
        commitments := commitments - {toPrune.value};
      }
      return Ok(());
    }
  }

  // ---------- Runs

  datatype Step =
    | BlockStart
    | Initialize(isOwner: bool, data: InitializationData)
    | Submit(submission: Submission)
    | SetOperatingMode(halted: bool)

  /** The pallet, the set that it was initialized with, the accepted submissions in order, and the
      authority set that was current when each of them was accepted. */
  datatype History = History(
    state: State, initial: Option<AuthoritySetInfo>, accepted: seq<Submission>, sets: seq<AuthoritySetInfo>)

  function Genesis(defaultSet: AuthoritySetInfo): State {
    State(0, None, map[], map[], defaultSet, true)
  }

  ghost function Apply(config: Config, h: History, step: Step): History
    requires 0 < config.commitmentsToKeep
  {
    match step
    case BlockStart => h.(state := AfterBlockStart(h.state))
    case Initialize(isOwner, data) =>
      if MayInitialize(h.state, isOwner, data)
      then h.(state := AfterInitialize(h.state, data), initial := Some(data.authoritySet))
      else h
    case Submit(submission) =>
      if Accepts(config, h.state, submission)
      then h.(state := AfterSubmit(config, h.state, submission),
              accepted := h.accepted + [submission], sets := h.sets + [h.state.authoritySet])
      else h
    case SetOperatingMode(halted) => h.(state := h.state.(halted := halted))
  }

  ghost function Continue(config: Config, h: History, steps: seq<Step>): History
    requires 0 < config.commitmentsToKeep
  {
    if steps == [] then h
    else Apply(config, Continue(config, h, steps[..|steps| - 1]), steps[|steps| - 1])
  }

  ghost function Run(config: Config, defaultSet: AuthoritySetInfo, steps: seq<Step>): History
    requires 0 < config.commitmentsToKeep
  {
    Continue(config, History(Genesis(defaultSet), None, [], []), steps)
  }

  ghost predicate AllRooted(accepted: seq<Submission>) {
    forall i :: 0 <= i < |accepted| ==> accepted[i].signed.commitment.mmrRoot.Some?
  }

  ghost function Entries(accepted: seq<Submission>): (r: seq<(nat, ImportedCommitment)>)
    requires AllRooted(accepted)
    ensures |r| == |accepted|
    ensures forall i :: 0 <= i < |r| ==> r[i] == EntryOf(accepted[i])
  {
    if accepted == [] then []
    else Entries(accepted[..|accepted| - 1]) + [EntryOf(accepted[|accepted| - 1])]
  }

  function NumberOf(submission: Submission): nat {
    submission.signed.commitment.blockNumber
  }

  /** The storage is what inserting the accepted submissions one by one makes of a ring. */
  ghost predicate StoresRing(config: Config, h: History)
    requires 0 < config.commitmentsToKeep
  {
    && AllRooted(h.accepted)
    && (h.state.info.None? ==> h.accepted == [] && h.state.blockNumbers == map[] && h.state.commitments == map[])
    && (h.state.info.Some? ==> RingOf(h.state) == InsertAll(config.commitmentsToKeep, Entries(h.accepted)))
  }

  ghost predicate NumbersIncrease(h: History) {
    && (forall i, j :: 0 <= i < j < |h.accepted| ==> NumberOf(h.accepted[i]) < NumberOf(h.accepted[j]))
    && (h.accepted != [] ==>
          h.state.info.Some? && NumberOf(h.accepted[|h.accepted| - 1]) == h.state.info.value.bestBlockNumber)
  }

  /** A later set has a greater id, or is the same set. */
  predicate NotBefore(earlier: AuthoritySetInfo, later: AuthoritySetInfo) {
    earlier.id < later.id || earlier == later
  }

  /** The leaf belongs to the root that the submission commits to. */
  predicate LeafIsProved(crypto: Crypto, submission: Submission) {
    && submission.signed.commitment.mmrRoot.Some?
    && crypto.verifyLeaf(submission.mmrLeaf, submission.mmrProof, submission.signed.commitment.mmrRoot.value)
  }

  ghost predicate CommittedBySets(config: Config, h: History) {
    && |h.sets| == |h.accepted|
    && (forall i :: 0 <= i < |h.accepted| ==>
          && Committed(config.crypto, h.accepted[i].signed, h.sets[i], h.accepted[i].validatorSet)
          && LeafIsProved(config.crypto, h.accepted[i]))
    && (h.state.info.None? ==> h.accepted == [])
    && (forall i, j :: 0 <= i < j < |h.sets| ==> NotBefore(h.sets[i], h.sets[j]))
    && (forall i :: 0 <= i < |h.sets| ==> NotBefore(h.sets[i], h.state.authoritySet))
  }

  lemma StepStoresRing(config: Config, h: History, step: Step)
    requires 0 < config.commitmentsToKeep && StoresRing(config, h)
    ensures StoresRing(config, Apply(config, h, step))
  {
    if step.Submit? && Accepts(config, h.state, step.submission) {
      var h' := Apply(config, h, step);
      assert h'.accepted[..|h'.accepted| - 1] == h.accepted;
      var entries := Entries(h'.accepted);
      assert entries[..|entries| - 1] == Entries(h.accepted);
    }
  }

  lemma StepIncreases(config: Config, h: History, step: Step)
    requires 0 < config.commitmentsToKeep && NumbersIncrease(h)
    ensures NumbersIncrease(Apply(config, h, step))
  {
  }

  lemma StepCommitted(config: Config, h: History, step: Step)
    requires 0 < config.commitmentsToKeep && CommittedBySets(config, h)
    ensures CommittedBySets(config, Apply(config, h, step))
  {
  }

  ghost predicate Inv(config: Config, h: History)
    requires 0 < config.commitmentsToKeep
  {
    && StoresRing(config, h) && NumbersIncrease(h) && CommittedBySets(config, h)
    && h.state.requestCount <= config.maxRequests
  }

  lemma StepKeepsInv(config: Config, h: History, step: Step)
    requires 0 < config.commitmentsToKeep && Inv(config, h)
    ensures Inv(config, Apply(config, h, step))
  {
    StepStoresRing(config, h, step);
    StepIncreases(config, h, step);
    StepCommitted(config, h, step);
    StepCounts(config, h, step);
  }

  lemma StepCounts(config: Config, h: History, step: Step)
    requires 0 < config.commitmentsToKeep && h.state.requestCount <= config.maxRequests
    ensures Apply(config, h, step).state.requestCount <= config.maxRequests
  {
  }

  lemma {:induction false} InvHolds(config: Config, defaultSet: AuthoritySetInfo, steps: seq<Step>)
    requires 0 < config.commitmentsToKeep
    ensures Inv(config, Run(config, defaultSet, steps))
  {
    if steps != [] {
      InvHolds(config, defaultSet, steps[..|steps| - 1]);
      StepKeepsInv(config, Run(config, defaultSet, steps[..|steps| - 1]), steps[|steps| - 1]);
    }
  }

  // ---------- What holds after every run

  /** The commitment is kept with the parent block of its leaf and with its MMR root. */
  ghost predicate Imports(commitments: map<nat, ImportedCommitment>, submission: Submission) {
    && NumberOf(submission) in commitments
    && var kept := commitments[NumberOf(submission)];
       && kept.parentNumber == submission.mmrLeaf.parentNumber && kept.parentHash == submission.mmrLeaf.parentHash
       && submission.signed.commitment.mmrRoot == Some(kept.mmrRoot)
  }

  /** The imported commitments are exactly the last `commitmentsToKeep` accepted ones, each with the parent
      block of its leaf and its MMR root, and the best block is the newest of them. */
  lemma KeepsLastCommitments(config: Config, defaultSet: AuthoritySetInfo, steps: seq<Step>)
    requires 0 < config.commitmentsToKeep
    ensures
      var h := Run(config, defaultSet, steps);
      && AllRooted(h.accepted)
      && HoldsLast(config.commitmentsToKeep, h.state.commitments, Entries(h.accepted))
      && (forall i :: Oldest(|h.accepted|, config.commitmentsToKeep) <= i < |h.accepted| ==>
            Imports(h.state.commitments, h.accepted[i]))
      && (h.accepted != [] ==>
            && h.state.info.Some?
            && h.state.info.value.bestBlockNumber == NumberOf(h.accepted[|h.accepted| - 1])
            && h.state.info.value.bestBlockNumber in h.state.commitments)
  {
    InvHolds(config, defaultSet, steps);
    RingKeepsLast(config, Run(config, defaultSet, steps));
  }

  lemma RingKeepsLast(config: Config, h: History)
    requires 0 < config.commitmentsToKeep && StoresRing(config, h) && NumbersIncrease(h)
    ensures HoldsLast(config.commitmentsToKeep, h.state.commitments, Entries(h.accepted))
    ensures forall i :: Oldest(|h.accepted|, config.commitmentsToKeep) <= i < |h.accepted| ==>
              Imports(h.state.commitments, h.accepted[i])
    ensures h.accepted != [] ==> NumberOf(h.accepted[|h.accepted| - 1]) in h.state.commitments
  {
    var entries := Entries(h.accepted);
    assert forall i :: 0 <= i < |entries| ==> entries[i].0 == NumberOf(h.accepted[i]);
    KeepsLast(config.commitmentsToKeep, entries);
    HeldIsImported(config, h);
    if h.accepted != [] {
      assert entries[|entries| - 1].0 in h.state.commitments;
    }
  }

  lemma HeldIsImported(config: Config, h: History)
    requires AllRooted(h.accepted)
    requires HoldsLast(config.commitmentsToKeep, h.state.commitments, Entries(h.accepted))
    ensures forall i :: Oldest(|h.accepted|, config.commitmentsToKeep) <= i < |h.accepted| ==>
              Imports(h.state.commitments, h.accepted[i])
  {
    forall i | Oldest(|h.accepted|, config.commitmentsToKeep) <= i < |h.accepted|
      ensures Imports(h.state.commitments, h.accepted[i])
    {
      assert Entries(h.accepted)[i] == EntryOf(h.accepted[i]);
    }
  }

  /** Every accepted commitment is committed to by the authority set that was current then, its leaf is
      proved by its root, and that set is the same as the current one or has a smaller id. */
  lemma AcceptedIsCommitted(config: Config, defaultSet: AuthoritySetInfo, steps: seq<Step>, i: nat)
    requires 0 < config.commitmentsToKeep
    requires i < |Run(config, defaultSet, steps).accepted|
    ensures
      var h := Run(config, defaultSet, steps);
      && |h.sets| == |h.accepted|
      && Committed(config.crypto, h.accepted[i].signed, h.sets[i], h.accepted[i].validatorSet)
      && LeafIsProved(config.crypto, h.accepted[i])
      && NotBefore(h.sets[i], h.state.authoritySet)
  {
    InvHolds(config, defaultSet, steps);
  }

  /** Accepted block numbers strictly increase, and a later commitment was checked against the same
      authority set or one with a greater id. */
  lemma AcceptedChain(config: Config, defaultSet: AuthoritySetInfo, steps: seq<Step>, i: nat, j: nat)
    requires 0 < config.commitmentsToKeep
    requires i < j < |Run(config, defaultSet, steps).accepted|
    ensures
      var h := Run(config, defaultSet, steps);
      && |h.sets| == |h.accepted|
      && NumberOf(h.accepted[i]) < NumberOf(h.accepted[j])
      && NotBefore(h.sets[i], h.sets[j])
  {
    InvHolds(config, defaultSet, steps);
  }

  // ---------- The hand-off between authority sets

  function Announced(submission: Submission): AuthoritySetInfo {
    submission.mmrLeaf.nextAuthoritySet
  }

  /** The set is announced by submission `i`, under a greater id than all before it and than the first one. */
  ghost predicate AnnouncedFirst(
    first: AuthoritySetInfo, accepted: seq<Submission>, authoritySet: AuthoritySetInfo, i: int)
  {
    && 0 <= i < |accepted| && Announced(accepted[i]) == authoritySet
    && first.id < authoritySet.id
    && forall j :: 0 <= j < i ==> Announced(accepted[j]).id < authoritySet.id
  }

  /** Of the first set and the announced ones, this is the one with the greatest id, the earliest of these. */
  ghost predicate IsGreatest(first: AuthoritySetInfo, accepted: seq<Submission>, authoritySet: AuthoritySetInfo) {
    && (forall j :: 0 <= j < |accepted| ==> Announced(accepted[j]).id <= authoritySet.id)
    && (authoritySet == first || exists i :: AnnouncedFirst(first, accepted, authoritySet, i))
  }

  lemma GreatestStep(first: AuthoritySetInfo, accepted: seq<Submission>, current: AuthoritySetInfo, next: Submission)
    requires IsGreatest(first, accepted, current)
    ensures IsGreatest(first, accepted + [next], NextAuthoritySet(current, next.mmrLeaf))
  {
    var after := accepted + [next];
    assert after[|accepted|] == next;
    if Announced(next).id > current.id {
      assert AnnouncedFirst(first, after, Announced(next), |accepted|);
    } else if i :| AnnouncedFirst(first, accepted, current, i) {
      assert AnnouncedFirst(first, after, current, i);
    }
  }

  /** The set after submission `i`. */
  ghost function SetAfter(h: History, i: int): AuthoritySetInfo {
    if 0 <= i + 1 < |h.sets| then h.sets[i + 1] else h.state.authoritySet
  }

  /** Submission `i` hands over to the set that it announces exactly when that has a greater id. */
  ghost predicate Succeeds(h: History, i: int)
    requires 0 <= i < |h.sets| == |h.accepted|
  {
    var current, announced := h.sets[i], Announced(h.accepted[i]);
    SetAfter(h, i) == if current.id < announced.id then announced else current
  }

  /** Each accepted commitment was checked against the greatest set that was announced before it, and so
      will the next one be. */
  ghost predicate HandedOff(h: History) {
    && |h.sets| == |h.accepted|
    && if h.initial.None? then h.state.info.None? && h.accepted == []
       else && h.state.info.Some?
            && IsGreatest(h.initial.value, h.accepted, h.state.authoritySet)
            && forall i :: 0 <= i < |h.sets| ==>
                 IsGreatest(h.initial.value, h.accepted[..i], h.sets[i]) && Succeeds(h, i)
  }

  lemma StepHandsOff(config: Config, h: History, step: Step)
    requires 0 < config.commitmentsToKeep && HandedOff(h)
    ensures HandedOff(Apply(config, h, step))
  {
    if step.Submit? && Accepts(config, h.state, step.submission) {
      var first, after := h.initial.value, h.accepted + [step.submission];
      GreatestStep(first, h.accepted, h.state.authoritySet, step.submission);
      forall i | 0 <= i < |h.sets| + 1
        ensures IsGreatest(first, after[..i], (h.sets + [h.state.authoritySet])[i])
      {
        assert after[..i] == h.accepted[..i];
        assert i == |h.accepted| ==> h.accepted[..i] == h.accepted;
      }
      SuccessionGrows(config, h, step.submission);
    }
  }

  lemma SuccessionGrows(config: Config, h: History, submission: Submission)
    requires 0 < config.commitmentsToKeep && Accepts(config, h.state, submission)
    requires |h.sets| == |h.accepted| && forall i :: 0 <= i < |h.sets| ==> Succeeds(h, i)
    ensures
      var after := Apply(config, h, Submit(submission));
      |after.sets| == |after.accepted| && forall i :: 0 <= i < |after.sets| ==> Succeeds(after, i)
  {
    var after := Apply(config, h, Submit(submission));
    forall i | 0 <= i < |after.sets|
      ensures Succeeds(after, i)
    {
      if i < |h.sets| {
        assert Succeeds(h, i) && SetAfter(after, i) == SetAfter(h, i);
      }
    }
  }

  /** The hand-off, in every run since the initialization: every accepted commitment was checked against the
      set with the greatest id among the initial one and those that were announced before, and the
      current set is the greatest of all. So no set that was announced is ever passed over. */
  lemma {:induction false} HandOffHolds(config: Config, defaultSet: AuthoritySetInfo, steps: seq<Step>)
    requires 0 < config.commitmentsToKeep
    ensures HandedOff(Run(config, defaultSet, steps))
  {
    if steps != [] {
      HandOffHolds(config, defaultSet, steps[..|steps| - 1]);
      StepHandsOff(config, Run(config, defaultSet, steps[..|steps| - 1]), steps[|steps| - 1]);
    }
  }

  /** Two accepted commitments that name the same authority set id were checked against the same
      validators, and more than a third of those signed both. */
  lemma SameSetSharesSigners(config: Config, defaultSet: AuthoritySetInfo, steps: seq<Step>, i: nat, j: nat)
    requires 0 < config.commitmentsToKeep
    requires i < j < |Run(config, defaultSet, steps).accepted|
    requires forall a, b :: config.crypto.keysetRoot(a) == config.crypto.keysetRoot(b) ==> a == b
    ensures
      var first, second := Run(config, defaultSet, steps).accepted[i], Run(config, defaultSet, steps).accepted[j];
      var n := |first.validatorSet.validators|;
      first.signed.commitment.validatorSetId == second.signed.commitment.validatorSetId && 0 < n ==>
        && first.validatorSet == second.validatorSet
        && (n - 1) / 3 < |Signers(config.crypto, first.signed, first.validatorSet.validators) *
                          Signers(config.crypto, second.signed, first.validatorSet.validators)|
  {
    AcceptedChain(config, defaultSet, steps, i, j);
    AcceptedIsCommitted(config, defaultSet, steps, i);
    AcceptedIsCommitted(config, defaultSet, steps, j);
    var h := Run(config, defaultSet, steps);
    var first, second := h.accepted[i], h.accepted[j];
    if first.signed.commitment.validatorSetId == second.signed.commitment.validatorSetId && 0 < h.sets[i].len {
      QuorumsIntersect(config.crypto, h.sets[i], first.signed, first.validatorSet, second.signed, second.validatorSet);
    }
  }

  ghost function BlockStarts(steps: seq<Step>): nat {
    if steps == [] then 0
    else BlockStarts(steps[..|steps| - 1]) + if steps[|steps| - 1].BlockStart? then 1 else 0
  }

  lemma {:induction false} RequestsAreCounted(config: Config, h: History, more: seq<Step>)
    requires 0 < config.commitmentsToKeep && h.state.requestCount <= config.maxRequests
    ensures
      var after := Continue(config, h, more);
      && |h.accepted| <= |after.accepted|
      && h.state.requestCount + |after.accepted| - |h.accepted| <= after.state.requestCount + BlockStarts(more)
      && after.state.requestCount <= config.maxRequests
  {
    if more != [] {
      RequestsAreCounted(config, h, more[..|more| - 1]);
    }
  }

  lemma {:induction false} ContinueRun(config: Config, defaultSet: AuthoritySetInfo, steps: seq<Step>, n: nat)
    requires 0 < config.commitmentsToKeep && n <= |steps|
    ensures Continue(config, Run(config, defaultSet, steps[..n]), steps[n..]) == Run(config, defaultSet, steps)
  {
    if n == |steps| {
      assert steps[..n] == steps;
    } else {
      var before := steps[..|steps| - 1];
      ContinueRun(config, defaultSet, before, n);
      assert before[..n] == steps[..n] && steps[n..][..|steps| - n - 1] == before[n..];
    }
  }

  /** The accepted submissions since step `n` that no later block start has given back. */
  ghost function NotGivenBack(config: Config, defaultSet: AuthoritySetInfo, steps: seq<Step>, n: nat): int
    requires 0 < config.commitmentsToKeep && n <= |steps|
  {
    |Run(config, defaultSet, steps).accepted| - |Run(config, defaultSet, steps[..n]).accepted| - BlockStarts(steps[n..])
  }

  lemma NotGivenBackStep(config: Config, defaultSet: AuthoritySetInfo, before: seq<Step>, step: Step, n: nat)
    requires 0 < config.commitmentsToKeep && n <= |before|
    ensures
      var h := Run(config, defaultSet, before);
      NotGivenBack(config, defaultSet, before + [step], n) ==
      NotGivenBack(config, defaultSet, before, n) + |Apply(config, h, step).accepted| - |h.accepted| -
      if step.BlockStart? then 1 else 0
  {
    var steps := before + [step];
    assert steps[..|before|] == before && steps[..n] == before[..n];
    assert steps[n..][..|before| - n] == before[n..];
  }

  /** After every run the request count is the largest number, over all beginnings of the run, of
      submissions accepted since that later block starts have not given back. */
  lemma {:induction false} RequestCountExactly(config: Config, defaultSet: AuthoritySetInfo, steps: seq<Step>)
    returns (since: nat)
    requires 0 < config.commitmentsToKeep
    ensures since <= |steps|
    ensures
      var count := Run(config, defaultSet, steps).state.requestCount;
      && count == NotGivenBack(config, defaultSet, steps, since)
      && forall n: nat :: n <= |steps| ==> NotGivenBack(config, defaultSet, steps, n) <= count
  {
    if steps == [] {
      since := 0;
    } else {
      var before, step := steps[..|steps| - 1], steps[|steps| - 1];
      assert steps == before + [step];
      since := RequestCountExactly(config, defaultSet, before);
      NotGivenBackStep(config, defaultSet, before, step, since);
      if step.BlockStart? && Run(config, defaultSet, before).state.requestCount == 0 {
        since := |steps|;
        assert steps[..since] == steps && steps[since..] == [];
      }
      assert Run(config, defaultSet, steps) == Apply(config, Run(config, defaultSet, before), step);
    }
    forall n: nat | n <= |steps|
      ensures NotGivenBack(config, defaultSet, steps, n) <= Run(config, defaultSet, steps).state.requestCount
    {
      InvHolds(config, defaultSet, steps[..n]);
      RequestsAreCounted(config, Run(config, defaultSet, steps[..n]), steps[n..]);
      ContinueRun(config, defaultSet, steps, n);
    }
  }

  /** The rate limit is a leaky bucket: from a reachable state, any continuation accepts at most
      the free requests plus one per block that starts. */
  lemma LeakyBucket(config: Config, defaultSet: AuthoritySetInfo, steps: seq<Step>, more: seq<Step>)
    requires 0 < config.commitmentsToKeep
    ensures
      var h := Run(config, defaultSet, steps);
      var after := Continue(config, h, more);
      |after.accepted| - |h.accepted| <= config.maxRequests - h.state.requestCount + BlockStarts(more)
  {
    InvHolds(config, defaultSet, steps);
    RequestsAreCounted(config, Run(config, defaultSet, steps), more);
  }
}
