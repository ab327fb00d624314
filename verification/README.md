# Bridge lanes, light clients and the statement table, in Dafny

This project models four parts of the repository and proves what they are for.

**Message lanes** (`LaneTypes`, `LaneStorage`, `InboundLanes`, `OutboundLanes`, `MessageProofs`,
`Rewards`, `MessagesPallet`, `MessagesCallExt`, `Bridge`, `BridgeTheorems`, `BridgeStorage`,
`BridgeProgress`, `BridgeRewards`, `BridgeExhaustion`, `BridgeRefinement`, `LaneClosing`,
`BridgeLives`, `BridgeReopening`). A lane carries messages from a source chain to a target chain.
Nothing connects the two but relayers, who may carry a proof of any past state of one chain to the
other, in any order and as often as they like. `Bridge` is the two-chain step system: its steps are
sending, delivering with any past source state, confirming with any past target state, pruning, and
opening or closing either end; a step that the pallets refuse changes nothing. One invariant is proved
to hold after every run, and the results are drawn from it: exactly-once delivery in order, the order
of the four nonces, what a genuine confirmation yields, and freedom from deadlock (`BridgeTheorems`),
storage that agrees with its counters (`BridgeStorage`), progress (`BridgeProgress`), and rewards that
match deliveries (`BridgeRewards`). The lane objects and the pallet are classes that update storage in
place; each method is proved against the functions that the step system uses, what these functions
compute for any input is said by theorems of their own, and `BridgeRefinement` couples two pallets and
proves that their calls are the steps of a run.
`BridgeLives` and `BridgeReopening` let both ends be closed and opened again under the same id, and
let nonces wrap around.

**The BEEFY light client** (`BeefyVerification`, `BeefyPallet`): the signature loop and its quorum,
the ring of imported commitments, the succession of authority sets and the rate limit.

**The GRANDPA light client** (`GrandpaPallet`, `GrandpaRuns`): header import, the hand-off between
authority sets, forced states, and the refunds for free headers. Both light clients prune with the
scheme of `RingBuffer`.

**The statement table** (`StatementTable`, `StatementTableRuns`, `StatementTableTheorems`,
`MisbehaviorDrain`): what the table knows after any sequence of imports is expressed over the
imported statements alone (which candidate is known for which group, which votes count, who offends)
and the table is proved to agree with it. The draining iterator is proved to give out everything.

Runs are folds over sequences of steps, so a statement about `Run(..., steps)` is about every
reachable state. Abstract types stand for account ids, payloads, hashes, signatures and so on.

Incrementing a counter past the largest word aborts the call in builds with overflow checks (the
testnet and development profiles) and wraps around in others (the production profile); pallets take
the kind of build as a parameter.

## Where a stated property fails

- The received counter saturates at the largest 64-bit nonce. Without overflow checks a run can get
  there (`ReachCaughtUp`), and then a genuine proof can be refused (`LargestNonceIsRefused`, exact condition
  in `GenuineProofsConfirm`) or the largest nonce can be confirmed and paid for again
  (`LargestNonceIsPaidTwice`, exact condition in `RepeatsExactly`). Rewards are right if and only if
  the latter does not happen (`PaidOnceExactly`, `RewardsMatchDeliveries`).
- The function that prunes the oldest message does not check for a queue. Called on an empty one, it
  lets the next message be stored below the oldest unpruned nonce (`PruningAnEmptyQueue`, exact
  conditions in `PruningNeedsAQueue` and, over runs, `NothingBelowExactly`). Its only caller, the
  closing of a bridge, prunes queued messages only (`PruneQueue`).
- The oldest unpruned nonce is documented as that of the oldest message not yet pruned. It is not when
  messages were pruned ahead of a confirmation of earlier ones, which moves it back (`OldestMovesBack`, exact
  condition in `OldestIsExact`).
- In a build without overflow checks the generated nonce can wrap around and fall below the received one
  (`ReceivedIsForgotten`, exact condition in `ReceivedGeneratedExactly`).
- A lane that is closed can be opened again under the same id; it starts again at the first nonce,
  while proofs of its earlier life stay genuine. In a build without overflow checks a lane also starts
  again when it has used up its nonces. Exactly-once delivery then holds if and only if every delivery
  takes messages that were sent under these nonces in the same life (`ExactlyOnceIffProofsFit`); it
  can fail in both ways (`OldProofIsDelivered`, `ReusedNonceIsDelivered`). If each end takes proofs of
  its own life only and no nonce wraps around, it holds (`OwnProofsFit`).
- A GRANDPA header is lost when the ring overwrites its own hash with it: when it is forced
  (`ForcedTwiceIsLost`, exact condition in `ForcedHeaderIsKept`), and when it is submitted again after
  a state was forced back (`ResubmittedIsLost`). Over every run, `BestIsKeptExactly` says exactly when
  the best header is kept, and `KeepsLastExactlyInRuns` when the kept headers are the last ones.
- The documentation of the digest reader says that headers with a forced change are not accepted;
  the code looks at the first GRANDPA log only (`HiddenForcedChange`, exact condition in
  `ForcedChangeIsAccepted`). The model follows the code.
- When a candidate is seconded for a second group by somebody who is not in the first one, the table
  records a validity statement of that signer, whether it was made or not
  (`UnmadeStatementIsRecorded`). `RecordsUnmadeStatement` gives the exact condition for one import,
  `RecordsWereMade` for all records of an authority.
- The check of the GRANDPA transaction extension and the refund decision disagree outside of blocks
  and where no interval of free headers is configured (`FreeCallIsCharged`, exact condition in
  `ExtensionAgreesWithRefund`).
- The draining iterator ends early when an authority has an empty list (`EndsEarlyExactlyAtGap`);
  no reachable table has one (`NoEmptyRecordsEver`).

## Model

| member | source | states |
|---|---|---|
| `LaneTypes.SaturatingLen` | `bridges/primitives/runtime/src/lib.rs:514-520` | counts an inclusive range: zero exactly for an empty one, otherwise `first + r == last + 1` unless saturated |
| `LaneStorage.PalletStorage.CreateInboundLane` | `bridges/modules/messages/src/lanes_manager.rs:69-85` | opens a lane exactly when there is none of that id, and reports an existing one or, with the new lane in place, an inactive dispatcher |
| `LaneStorage.PalletStorage.CreateOutboundLane` | `bridges/modules/messages/src/lanes_manager.rs:88-101` | the same for outbound lanes |
| `InboundLanes.InboundLane.constructor` | `bridges/modules/messages/src/lanes_manager.rs:144-177` | the cached data is the stored data |
| `InboundLanes.InboundLane.SetData` | `bridges/modules/messages/src/lanes_manager.rs:217-220` | cache and storage change together, no other lane does |
| `InboundLanes.InboundLane.SetState` | `bridges/modules/messages/src/inbound_lane.rs:138-142` | only the state of the lane changes |
| `InboundLanes.InboundLane.Purge` | `bridges/modules/messages/src/lanes_manager.rs:222-224` | removes this lane and no other |
| `InboundLanes.InboundLane.ReceiveStateUpdate` | `bridges/modules/messages/src/inbound_lane.rs:145-183` | the loop and the trimming compute `AfterStateUpdate`; the result is the new confirmed nonce exactly when the update applies |
| `InboundLanes.InboundLane.ReceiveMessage` | `bridges/modules/messages/src/inbound_lane.rs:186-229` | accepts exactly the next nonce within both limits, dispatches it and nothing else, and notes the relayer; every refusal changes nothing |
| `InboundLanes.OwnedRange` | `bridges/primitives/messages/src/lib.rs:201-300` | in a gapless relayers deque exactly the nonces above the confirmed and up to the last delivered one have a relayer |
| `InboundLanes.ExactlyOneEntry` | `bridges/primitives/messages/src/lib.rs:201-300` | each of those nonces lies in exactly one entry |
| `InboundLanes.StateUpdateKeepsPartition` | `bridges/modules/messages/src/inbound_lane.rs:145-183` | a state update keeps the deque a partition within both limits, keeps the relayer of every message that stays unconfirmed and forgets exactly the confirmed ones |
| `InboundLanes.MessageKeepsPartition` | `bridges/modules/messages/src/inbound_lane.rs:186-229` | a dispatched message extends the partition by its nonce for its relayer; any other message leaves the lane unchanged |
| `InboundLanes.ReceptionExactly` | `bridges/modules/messages/src/inbound_lane.rs:186-207` | in a well-formed lane the next message and no other is dispatched, if a relayer entry and a message slot are free; which answer names which obstacle |
| `InboundLanes.SummaryMeans` | `bridges/primitives/messages/src/lib.rs:447-460` | the summary of a lane gives the number of unconfirmed messages, and the least number of confirmations that frees a relayer entry |
| `InboundLanes.BatchKeepsPartition` | `bridges/modules/messages/src/lib.rs:286-332` | a batch appends a run of consecutive messages, all for its relayer, and keeps the partition |
| `InboundLanes.BatchClosedForm` | `bridges/modules/messages/src/lib.rs:286-332` | delivering a range message by message equals a closed form: how far the lane gets, how many entries it adds, and which slice of the range it dispatches |
| `OutboundLanes.EnsureUnrewardedRelayersAreCorrect` | `bridges/modules/messages/src/outbound_lane.rs:197-222` | the early-exit loop reports the first defect of the relayers vector |
| `OutboundLanes.RelayersErrorFree` | `bridges/modules/messages/src/outbound_lane.rs:197-222` | the check passes exactly for gapless runs of non-empty entries that end at or below the latest nonce |
| `OutboundLanes.AnswersFirstDefect` | `bridges/modules/messages/src/outbound_lane.rs:197-222` | for any relayers vector: the check passes if and only if no entry has a defect, and otherwise answers with the defect of the first entry that has one |
| `OutboundLanes.ConfirmationExactly` | `bridges/modules/messages/src/outbound_lane.rs:133-177` | for any lane and proof below the largest nonce: messages are newly confirmed if and only if they were generated and not received, are no more than allowed, and the relayers are a gapless run up to the delivered nonce; exactly which failure gives which error |
| `OutboundLanes.ConfirmationAtTheEnd` | `bridges/modules/messages/src/outbound_lane.rs:140-146` | the same once the largest nonce is received |
| `OutboundLanes.OutboundLane.SendMessage` | `bridges/modules/messages/src/outbound_lane.rs:121-130` | stores the payload under the next nonce and changes no other lane; at the largest nonce it wraps around, or changes nothing in a build with overflow checks |
| `OutboundLanes.OutboundLane.RemoveMessages` | `bridges/modules/messages/src/outbound_lane.rs:167-169` | removes exactly the payloads of the range |
| `OutboundLanes.OutboundLane.ConfirmDelivery` | `bridges/modules/messages/src/outbound_lane.rs:133-177` | the result and the new lane state, for every outcome; a refusal changes nothing |
| `OutboundLanes.OutboundLane.RemoveOldestUnprunedMessage` | `bridges/modules/messages/src/outbound_lane.rs:180-185` | removes the payload of the oldest unpruned nonce and moves that nonce on; fails exactly when the increment is aborted |
| `OutboundLanes.OutboundLane.SetState` | `bridges/modules/messages/src/outbound_lane.rs:106-110` | only the state of the lane changes |
| `OutboundLanes.OutboundLane.Purge` | `bridges/modules/messages/src/lanes_manager.rs:282-284` | removes this lane and no other |
| `MessageProofs.VerifyMessagesProof` | `bridges/modules/messages/src/proofs.rs:46-102` | accepts exactly the proofs whose declared count matches the range, from which every message of the range can be read, that are not empty and that hold nothing unread; returns those messages in nonce order; each error if and only if its check is the first to fail |
| `Rewards.CalcRelayersRewards` | `bridges/primitives/messages/src/lib.rs:507-525` | credits each relayer with the overlap of its entries with the confirmed range, and no one with nothing |
| `Rewards.RewardIsCount` | `bridges/primitives/messages/src/lib.rs:507-525` | over a partition with true deliverers the credit of a relayer is the number of messages of the range that this relayer delivered |
| `MessagesPallet.Pallet.CheckActiveInboundLane` | `bridges/modules/messages/src/lanes_manager.rs:144-177` | which of the three conditions an inbound lane has to meet, and the error for each |
| `MessagesPallet.Pallet.CheckDelivery` | `bridges/modules/messages/src/lib.rs:221-263` | passes exactly when pallet, count, proof and lane are in order; which error names which failure |
| `MessagesPallet.Pallet.ReceiveMessagesProof` | `bridges/modules/messages/src/lib.rs:214-354` | succeeds exactly when the checks pass and the declared weight pays for every message; then the lane, the dispatched messages, the counts and the refunded weight are exactly those of the specification; any failure leaves the storage as it was, and which error names which failure |
| `MessagesPallet.Pallet.DeliverOnLane` | `bridges/modules/messages/src/lib.rs:272-332` | the lane state is taken before the messages |
| `MessagesPallet.Pallet.DeliverAll` | `bridges/modules/messages/src/lib.rs:286-332` | the loop delivers the batch, counts the valid messages, and never lets the remaining weight underflow |
| `MessagesPallet.Pallet.DeliverNext` | `bridges/modules/messages/src/lib.rs:305-309` | one message continues the batch |
| `MessagesPallet.WeightIsConserved` | `bridges/modules/messages/src/lib.rs:293-331` | declared weight plus what the messages give back equals the weight of the batch plus what is left |
| `MessagesPallet.TotalWeightSuffices` | `bridges/modules/messages/src/lib.rs:293-304` | declaring the weight of the whole batch is always enough |
| `MessagesPallet.SpentOnDispatchedOnly` | `bridges/modules/messages/src/lib.rs:305-331` | weight is spent on dispatched messages only: the batch gives back all of its weight, and leaves all of the declared weight, but for what those have used |
| `MessagesPallet.ExtraIsFreeEntries` | `bridges/modules/messages/src/lanes_manager.rs:187-195` | the proof size that is given back is the length of the free relayer entries |
| `MessagesPallet.EnqueuedIsTheQueue` | `bridges/primitives/messages/src/lib.rs:501-503` | the number of enqueued messages is what is generated and not received; computing it is aborted exactly at the largest nonce in a build with overflow checks |
| `MessagesPallet.Pallet.ReceiveMessagesDeliveryProof` | `bridges/modules/messages/src/lib.rs:362-446` | succeeds exactly when the declared relayers state matches the proved lane, the confirmation is in order and no increment is aborted; then lane, storage, rewards, the announced queue length and the relayers state that is charged for are those of the specification; any failure leaves the storage as it was |
| `MessagesPallet.ChargedForNewMessages` | `bridges/modules/messages/src/lib.rs:413-421` | a confirmation is charged for the messages that it newly confirms, however many the proof lists, and for the rewarded relayers, as far as the proof lists them |
| `MessagesPallet.Pallet.ValidateMessage` | `bridges/modules/messages/src/lib.rs:688-705` | exactly when sending is in order, and the error for each reason why not |
| `MessagesPallet.Pallet.SendMessage` | `bridges/modules/messages/src/lib.rs:688-730` | succeeds exactly on a normally operating pallet with an open lane, a payload that fits and no aborted increment; assigns the next nonce, reports the queue length and changes no other lane; which error names which failure |
| `MessagesPallet.Pallet.TryState` | `bridges/modules/messages/src/lib.rs:623-667` | passes exactly when no lane stores a message among the sampled nonces below its oldest unpruned one |
| `MessagesPallet.Pallet.SamplePruned` | `bridges/modules/messages/src/lib.rs:629-650` | the sample of one lane |
| `MessagesCallExt.StateUpdateFreesSlots` | `bridges/modules/messages/src/call_ext.rs:231-245` | a state update frees message slots exactly when it applies, and frees no relayer slot without freeing a message slot |
| `MessagesCallExt.ObsoleteExactly` | `bridges/primitives/messages/src/call_info.rs:103-124` | a call with messages passes the obsolescence check exactly when they continue what is delivered, and one without messages exactly when the lane would refuse the next message of any relayer |
| `MessagesCallExt.EmptyDeliverySuccess` | `bridges/modules/messages/src/call_ext.rs:42-70` | a call without messages counts as successful exactly when its lane state was applied |
| `MessagesCallExt.DeliverySuccess` | `bridges/modules/messages/src/call_ext.rs:42-70` | a call that is not obsolete counts as successful exactly when every one of its messages was dispatched |
| `MessagesCallExt.ConfirmationSuccess` | `bridges/primitives/messages/src/call_info.rs:103-136` | in every run, unless the info of the call cannot be computed, a genuine confirmation passes the obsolescence check exactly when it confirms something new; then it counts as successful, and would not if it had changed nothing |
| `Bridge.InvHolds` | `bridges/modules/messages/src/lib.rs:214-446` | the two-chain invariant holds after every run of sends, deliveries of any past source state, confirmations of any past target state, state changes and prunings |
| `Bridge.StepKeepsInv` | `bridges/modules/messages/src/lib.rs:214-446` | every step keeps the invariant |
| `Bridge.GenuineConfirmation` | `bridges/modules/messages/src/outbound_lane.rs:133-177` | what confirming any past target state yields, the largest nonce included |
| `BridgeTheorems.ExactlyOnceInOrder` | `bridges/modules/messages/src/inbound_lane.rs:186-229` | after every run the dispatched messages are the first sent ones, each once, in order, under its own nonce |
| `BridgeTheorems.LogsOnlyGrow` | `bridges/modules/messages/src/lib.rs:214-446` | nothing that was sent, dispatched, delivered or paid is ever rewritten |
| `BridgeTheorems.NoncesAreOrdered` | `bridges/modules/messages/src/inbound_lane.rs:149-158` | confirmed, received, delivered and generated nonces are ordered in every reachable state, and no past lane state claims more than is delivered, so the branch marked as impossible is never taken |
| `BridgeTheorems.RelayersPartition` | `bridges/primitives/messages/src/lib.rs:201-300` | in every reachable state each unconfirmed nonce lies in exactly one entry and both limits hold |
| `BridgeTheorems.GenuineProofsConfirm` | `bridges/modules/messages/src/outbound_lane.rs:133-177` | for every run and past target state, what a genuine delivery proof confirms; it is refused if and only if the largest nonce is received already and the proof shows it again without an unrewarded relayer |
| `BridgeRewards.RepeatsExactly` | `bridges/modules/messages/src/outbound_lane.rs:140-146` | a genuine confirmation repeats one if and only if the largest nonce is received already and the proof shows it again with an unrewarded relayer |
| `BridgeRewards.EachReceivedMessageIsPaidOnce` | `bridges/modules/messages/src/lib.rs:397-411` | in a run without a repeated confirmation a nonce is in a confirmed range exactly when it is received, in one range only, and there exactly one entry lists it, naming the relayer who delivered it |
| `BridgeRewards.PaidOnceExactly` | `bridges/modules/messages/src/lib.rs:397-411` | over every run no message is paid for twice if and only if no confirmation repeats one |
| `BridgeRewards.RewardsMatchDeliveries` | `bridges/primitives/messages/src/lib.rs:507-525` | over every run each relayer is credited with exactly the received messages that this relayer delivered, if and only if no confirmation repeats one |
| `BridgeExhaustion.ReachCaughtUp` | `bridges/modules/messages/src/lib.rs:214-446` | every nonce can be reached by a run, without a repeated confirmation |
| `BridgeExhaustion.LargestNonceIsPaidTwice` | `bridges/modules/messages/src/outbound_lane.rs:140-146` | a run after which the largest nonce is confirmed and paid for again |
| `BridgeExhaustion.LargestNonceIsRefused` | `bridges/modules/messages/src/outbound_lane.rs:140-146` | a run after which a genuine proof is refused |
| `BridgeTheorems.AlwaysUnblockable` | `bridges/modules/messages/src/lib.rs:262-282` | from every reachable state with an open target lane, one confirmation and one empty delivery free every slot |
| `BridgeProgress.AllProvable` | `bridges/modules/messages/src/proofs.rs:71-82` | over every run, whatever was pruned, each message that was sent is in a past source state from which it can be proved |
| `BridgeProgress.EverythingCanBeDelivered` | `bridges/modules/messages/src/lib.rs:214-446` | from every reachable state with an open target end and room for one message, some continuation dispatches everything that was sent |
| `BridgeStorage.StoresExactlyTheQueue` | `bridges/modules/messages/src/outbound_lane.rs:121-177` | over every run the stored nonces are always exactly the generated ones that are not yet received, if and only if no explicit pruning takes one of them |
| `BridgeStorage.NothingBelowExactly` | `bridges/modules/messages/src/outbound_lane.rs:121-185` | over every run nothing is ever stored below the oldest unpruned nonce, if and only if no message is sent while that nonce is beyond the next one |
| `BridgeStorage.PruningQueuedIsSafe` | `bridges/modules/xcm-bridge-hub/src/lib.rs:368-377` | pruning queued messages only is enough for that |
| `BridgeStorage.NothingStoredBelowOldest` | `bridges/modules/messages/src/outbound_lane.rs:180-185` | with prunings of non-empty queues nothing is stored below the oldest unpruned nonce |
| `BridgeStorage.OldestIsExact` | `bridges/primitives/messages/src/lib.rs:464-472` | over every run the stored nonces are always exactly those from the oldest unpruned to the latest generated one, if and only if no message is sent below that nonce, the largest nonce is neither pruned nor confirmed, and no confirmation ends before what is pruned already |
| `BridgeStorage.OldestMovesBack` | `bridges/modules/messages/src/outbound_lane.rs:171-174` | a run in which a confirmation moves the oldest unpruned nonce back to a message that is gone |
| `BridgeStorage.SamplingFindsNothing` | `bridges/modules/messages/src/lib.rs:623-667` | then the storage check passes |
| `BridgeStorage.PruningNeedsAQueue` | `bridges/modules/messages/src/outbound_lane.rs:180-185` | after a pruning the next message is stored at or above the oldest unpruned nonce if and only if the queue was not empty or that nonce wraps around |
| `BridgeStorage.PruningAnEmptyQueue` | `bridges/modules/messages/src/outbound_lane.rs:180-185` | a run of two steps in which pruning an empty queue breaks the property |
| `LaneClosing.PrunesFromTheOldest` | `bridges/modules/messages/src/outbound_lane.rs:180-185` | prunings take the queued messages one by one, from the oldest on |
| `LaneClosing.PruneQueue` | `bridges/modules/xcm-bridge-hub/src/lib.rs:368-377` | prunes as many queued messages as it may, and changes no other lane; fails if and only if it reaches the largest nonce in a build with overflow checks |
| `LaneClosing.CloseLanes` | `bridges/modules/xcm-bridge-hub/src/lib.rs:359-410` | exactly when the call succeeds and which error it returns otherwise; while messages remain both lanes are marked as closed, otherwise both are removed; a failing call changes nothing |
| `LaneClosing.PurgedExactly` | `bridges/modules/xcm-bridge-hub/src/lib.rs:379-410` | the lanes go if and only if the call may prune the whole queue, unless the queue ends at the largest nonce |
| `BridgeLives.DeliveryKeepsOrder` | `bridges/modules/messages/src/inbound_lane.rs:186-229` | a delivery of whatever proof keeps exactly-once delivery if and only if every message that the lane takes was sent under its nonce in that life |
| `BridgeLives.ExactlyOnceIffProofsFit` | `bridges/modules/messages/src/lanes_manager.rs:69-101` | however the ends are closed and reopened, whether or not nonces wrap around, and with proofs and confirmations of any life: delivery is always exactly once and in order in every life, if and only if every delivery fits its life |
| `BridgeLives.ReceivedGeneratedExactly` | `bridges/modules/messages/src/outbound_lane.rs:147-149` | with confirmations of any life: in every life the received nonce is always at most the generated one, if and only if the nonces never wrap around after messages were received; so always in a build with overflow checks |
| `BridgeReopening.ExactlyOnceInEveryLife` | `bridges/modules/messages/src/lanes_manager.rs:69-101` | if each end takes proofs of its own life only and no nonce wraps around, every life is a run of a lane that was never reopened |
| `BridgeReopening.OwnProofsFit` | `bridges/modules/messages/src/lanes_manager.rs:69-101` | such proofs fit |
| `BridgeReopening.LifeStepIsSound` | `bridges/modules/messages/src/lanes_manager.rs:69-101` | every such step keeps each life a run |
| `BridgeReopening.NothingLeftBehind` | `bridges/modules/xcm-bridge-hub/src/lib.rs:408-410` | a lane whose queue is empty leaves no stored message to its next life |
| `BridgeReopening.OldProofIsDelivered` | `bridges/modules/messages/src/lanes_manager.rs:222-224` | a run in which a genuine proof of an earlier life delivers a message that its own life never sent |
| `BridgeReopening.ReusedNonceIsDelivered` | `bridges/modules/messages/src/outbound_lane.rs:121-130` | without overflow checks, a run that uses up the nonces and sends on, after which a later message is delivered in place of the first one |
| `BridgeReopening.ReceivedIsForgotten` | `bridges/modules/messages/src/outbound_lane.rs:121-130` | without overflow checks, a run after which more messages are received than generated |
| `BridgeRefinement.Chains.SendFrom` | `bridges/modules/messages/src/lib.rs:688-730` | what a source pallet that agrees with a world makes of a message: a send step of that world, refused exactly when the step is |
| `BridgeRefinement.Chains.Send` | `bridges/modules/messages/src/lib.rs:688-730` | sending on the source pallet is the send step, unless the lane wraps around; then it goes on at nonce zero |
| `BridgeRefinement.Chains.Deliver` | `bridges/modules/messages/src/lib.rs:214-354` | delivering a proof of any past source state to the target pallet is the delivery step, admitted by mode, dispatcher and declared weight, and succeeds exactly when the step is taken |
| `BridgeRefinement.Chains.DeliverElsewhere` | `bridges/modules/messages/src/lib.rs:214-354` | a delivery on another lane does not matter |
| `BridgeRefinement.Chains.Confirm` | `bridges/modules/messages/src/lib.rs:362-446` | confirming any past target state on the source pallet is the confirmation step, and the rewards are those of its payment |
| `BridgeRefinement.Chains.PruneOldest` | `bridges/modules/messages/src/outbound_lane.rs:180-185` | pruning is the pruning step, which an aborted increment does not admit |
| `BridgeRefinement.Chains.SetSourceState` | `bridges/modules/messages/src/outbound_lane.rs:106-110` | changing the state of the outbound lane is the step of that name |
| `BridgeRefinement.Chains.SetTargetState` | `bridges/modules/messages/src/inbound_lane.rs:138-142` | changing the state of the inbound lane is the step of that name |
| `BridgeRefinement.Chains.DispatchedIsWhatWasSent` | `bridges/modules/messages/src/lib.rs:214-354` | whatever calls were made, on this lane or another, what the target pallet has dispatched on the lane is a prefix of what the source pallet accepted on it, and the stored counters of the two are ordered |
| `RingBuffer.InsertBounded` | `bridges/modules/grandpa/src/lib.rs:704-720` | inserting any key keeps the ring within its size; the new item is there unless its own key was overwritten |
| `RingBuffer.ItemsAtMostSize` | `bridges/modules/grandpa/src/lib.rs:704-720` | a bounded ring never holds more items than its size |
| `RingBuffer.KeepsLastExactly` | `bridges/modules/grandpa/src/lib.rs:704-720` | the scheme always holds exactly the last entries, the newest included, if and only if no key comes again before the ring has gone round |
| `RingBuffer.KeepsLast` | `bridges/modules/grandpa/src/lib.rs:704-720` | with keys that do not repeat the scheme holds exactly the last entries |
| `BeefyVerification.VerifySignatures` | `bridges/modules/beefy/src/utils.rs:59-94` | the loop with early exit accepts if and only if fewer than a third of the verifying signatures are missing, or there are no validators |
| `BeefyVerification.RequiredIsQuorum` | `bridges/modules/beefy/src/utils.rs:55-57` | so many signatures are required as leave fewer than a third of the validators missing, and not one more |
| `BeefyVerification.ToleratedFaults` | `bridges/modules/beefy/src/utils.rs:55-57` | the number `f` of validators out of `n` that may be missing satisfies `3f < n <= 3(f + 1)` |
| `BeefyVerification.VerifyAuthoritySet` | `bridges/modules/beefy/src/utils.rs:33-48` | accepts exactly the expected set, and which error names which mismatch |
| `BeefyVerification.VerifyCommitment` | `bridges/modules/beefy/src/utils.rs:107-126` | accepts exactly the commitments of the expected set that carry an MMR root and miss fewer than a third of the signatures; which failure gives which error |
| `BeefyVerification.QuorumsIntersect` | `bridges/modules/beefy/src/utils.rs:55-94` | two commitments that one set committed to share more than `(n - 1) / 3` validators |
| `BeefyPallet.Pallet.OnInitialize` | `bridges/modules/beefy/src/lib.rs:132-138` | each block gives one request back |
| `BeefyPallet.Pallet.Initialize` | `bridges/modules/beefy/src/lib.rs:156-167` | when initialization is possible, the error for each reason why not, and the state it leaves |
| `BeefyPallet.Pallet.SubmitCommitment` | `bridges/modules/beefy/src/lib.rs:200-273` | accepts exactly better, properly committed blocks with a proved leaf within the rate limit; the new state; a refusal changes nothing; which failure gives which error |
| `BeefyPallet.InvHolds` | `bridges/modules/beefy/src/lib.rs:200-273` | the invariant holds after every run |
| `BeefyPallet.KeepsLastCommitments` | `bridges/modules/beefy/src/lib.rs:239-264` | the imported commitments are exactly the last accepted ones that fit the ring, each with the parent block of its leaf and its MMR root, and the best block is the newest of them |
| `BeefyPallet.AcceptedIsCommitted` | `bridges/modules/beefy/src/lib.rs:213-264` | every accepted commitment is committed to by the set current then, which is not ahead of the current one, and its root proves its leaf |
| `BeefyPallet.AcceptedChain` | `bridges/modules/beefy/src/lib.rs:213-264` | accepted block numbers strictly increase, and sets only move forward |
| `BeefyPallet.HandOffHolds` | `bridges/modules/beefy/src/lib.rs:235-237` | in every run since the initialization, each accepted commitment was checked against the set of the greatest id among the initial one and those announced before it, and the current set is the greatest of all; a submission hands over to the set that it announces exactly when that has a greater id |
| `BeefyPallet.SameSetSharesSigners` | `bridges/modules/beefy/src/utils.rs:55-94` | two accepted commitments of one set id were checked against the same validators, more than a third of which signed both |
| `BeefyPallet.RequestsAreCounted` | `bridges/modules/beefy/src/lib.rs:213-233` | accepted requests are paid for by the counter and by block starts |
| `BeefyPallet.RequestCountExactly` | `bridges/modules/beefy/src/lib.rs:132-138` | after every run the request count is the largest number, over all its beginnings, of submissions accepted since that later block starts have not given back |
| `BeefyPallet.LeakyBucket` | `bridges/modules/beefy/src/lib.rs:132-138` | from every reachable state a continuation accepts at most the free requests plus one per block start |
| `GrandpaPallet.FindScheduledChange` | `bridges/primitives/header-chain/src/lib.rs:169-181` | finds the first scheduled change of the digest, or that there is none |
| `GrandpaPallet.EnactedExactly` | `bridges/modules/grandpa/src/lib.rs:611-642` | the changes of any header can be enacted if and only if its first GRANDPA log is no forced change and its first scheduled change, if any, is without delay, fits and finds a next set id; which failure gives which error |
| `GrandpaPallet.ForcedChangeIsAccepted` | `bridges/primitives/header-chain/src/lib.rs:185-194` | a header with a forced change is accepted if and only if that is not its first GRANDPA log and its first scheduled change, if any, can be enacted |
| `GrandpaPallet.HiddenForcedChange` | `bridges/primitives/header-chain/src/lib.rs:185-194` | a forced change behind a scheduled one goes unnoticed |
| `GrandpaPallet.ExtensionAgreesWithRefund` | `bridges/modules/grandpa/src/call_ext.rs:75-125` | exactly when the check of the extension and the refund decision disagree; inside a block with an interval configured they agree |
| `GrandpaPallet.ExtensionAnswers` | `bridges/modules/grandpa/src/call_ext.rs:75-125` | in terms of header, state and configuration: exactly when the extension lets a call pass, and which error it gives otherwise |
| `GrandpaPallet.ObsoleteExactly` | `bridges/modules/grandpa/src/call_ext.rs:134-177` | exactly when a header is obsolete and why |
| `GrandpaPallet.RefundedExactly` | `bridges/modules/grandpa/src/lib.rs:563-602` | a submission is refunded if and only if a free header remains in the block, the call needs no extra weight or size, and the header carries a scheduled change or is as far ahead as the configured interval |
| `GrandpaPallet.SubmitAnswers` | `bridges/modules/grandpa/src/lib.rs:284-320` | a submission is accepted if and only if every check passes; the error is that of the first check that fails |
| `GrandpaPallet.Pallet.OnInitialize` | `bridges/modules/grandpa/src/lib.rs:153-156` | each block starts with the full number of free headers |
| `GrandpaPallet.Pallet.OnFinalize` | `bridges/modules/grandpa/src/lib.rs:158-160` | outside of a block there is no count of free headers |
| `GrandpaPallet.Pallet.InsertHeader` | `bridges/modules/grandpa/src/lib.rs:704-720` | the header goes into the ring and becomes the best one |
| `GrandpaPallet.Pallet.SaveAuthoritiesSet` | `bridges/modules/grandpa/src/lib.rs:645-668` | stores and returns the set; one that is too large is refused and changes nothing |
| `GrandpaPallet.Pallet.TryEnactAuthorityChange` | `bridges/modules/grandpa/src/lib.rs:611-642` | which changes are refused; an enacted one replaces the authorities, increments the set id and is returned |
| `GrandpaPallet.Pallet.Initialize` | `bridges/modules/grandpa/src/lib.rs:724-750` | when initialization is possible, the error for each reason why not, and the state it leaves |
| `GrandpaPallet.Pallet.SubmitFinalityProofEx` | `bridges/modules/grandpa/src/lib.rs:284-363` | the first failing check decides the error, and a failing submission changes nothing even before a rollback; otherwise the new state, the set that is installed, and a refund exactly when a free header remains and the call deserves it |
| `GrandpaPallet.Pallet.ForceSetPalletState` | `bridges/modules/grandpa/src/lib.rs:376-399` | the new set and best header, for the owner and a set that fits only |
| `GrandpaRuns.KeepsAtMost` | `bridges/modules/grandpa/src/lib.rs:376-399` | with states forced in between, at most the configured number of headers is kept, each with its hash in the ring |
| `GrandpaRuns.ForcedHeaderIsKept` | `bridges/modules/grandpa/src/lib.rs:376-399` | a forced best header is kept if and only if the ring does not overwrite its own hash with it |
| `GrandpaRuns.ForcedTwiceIsLost` | `bridges/modules/grandpa/src/lib.rs:376-399` | a run in which a forced header is not among the kept ones |
| `GrandpaRuns.BestIsKeptExactly` | `bridges/modules/grandpa/src/lib.rs:704-720` | over every run, forced states included, the best header is always among the kept ones if and only if no submitted or forced header finds its own hash in the slot that the ring overwrites |
| `GrandpaRuns.ResubmittedIsLost` | `bridges/modules/grandpa/src/lib.rs:704-720` | a run in which a header that is submitted again after a state was forced back is not among the kept ones |
| `GrandpaRuns.KeepsLastExactlyInRuns` | `bridges/modules/grandpa/src/lib.rs:704-720` | over every run, forced states included, the kept headers are always exactly the last imported ones if and only if no header is imported again before the ring has gone round |
| `GrandpaRuns.RingHolds` | `bridges/modules/grandpa/src/lib.rs:704-720` | in every run the storage is the ring of the imported headers |
| `GrandpaRuns.KeepsLastHeaders` | `bridges/modules/grandpa/src/lib.rs:704-720` | without forced states the kept headers are exactly the last imported ones, each with its number and state root, strictly increasing, with the best header the newest |
| `GrandpaRuns.HandOffChain` | `bridges/modules/grandpa/src/lib.rs:611-668` | in every run, since the initialization or the latest forced state: numbers strictly increase, each accepted header is justified by the set that the latest change before it installed, and the set id counts the changes |
| `GrandpaRuns.RefundsAreBounded` | `bridges/modules/grandpa/src/lib.rs:549-602` | in every run, within a block: refunds and remaining free headers add up to the limit, and of the accepted submissions that deserve a refund as many got one as the limit allows |
| `GrandpaRuns.FreeCallIsCharged` | `bridges/modules/grandpa/src/lib.rs:563-602` | a run after which a call that wants to be free passes the extension and is not refunded |
| `StatementTable.Table.ImportStatement` | `polkadot/statement-table/src/generic.rs:322-347` | the new table and the answer; a misbehaviour is recorded under its signer |
| `StatementTable.Table.ImportCandidate` | `polkadot/statement-table/src/generic.rs:366-420` | a candidate is opened by its first seconding member and counts as a vote |
| `StatementTable.Table.Vote` | `polkadot/statement-table/src/generic.rs:422-486` | what a vote is answered with and what it changes |
| `StatementTable.Attested` | `polkadot/statement-table/src/generic.rs:227-252` | there is an attestation exactly when there are enough votes, and it lists every vote once, as implicit exactly when the vote seconded the candidate |
| `StatementTable.ThresholdIsEnough` | `polkadot/primitives/src/v9/mod.rs:1542-1547` | the threshold is reached exactly when the minimum has voted or as many as the group has members; for a group of unknown size, only at the largest word |
| `StatementTable.Table.GetAttestedCandidate` | `polkadot/statement-table/src/generic.rs:300-313` | the same for a known candidate: exactly when the minimum has voted, or as many as its group has members |
| `StatementTable.Table.DrainMisbehaviors` | `polkadot/statement-table/src/generic.rs:362-364` | the table loses all misbehaviour and the iterator has it |
| `StatementTable.DrainMisbehaviors.MaybeItem` | `polkadot/statement-table/src/generic.rs:507-530` | the next record of the authority in progress, in recording order |
| `StatementTable.DrainMisbehaviors.Advance` | `polkadot/statement-table/src/generic.rs:541-544` | takes up the next authority, reversing its records |
| `StatementTable.DrainMisbehaviors.Next` | `polkadot/statement-table/src/generic.rs:532-546` | gives out the first of what is left before an authority without records |
| `StatementTable.Collect` | `polkadot/node/core/backing/src/lib.rs:1720` | collecting takes exactly what is left before an authority without records |
| `StatementTableRuns.ImportCases` | `polkadot/statement-table/src/generic.rs:322-486` | the cases of an import, for any table whose proposals are known |
| `StatementTableRuns.CandidatesStep` | `polkadot/statement-table/src/generic.rs:366-420` | candidates and their groups keep reflecting the log |
| `StatementTableRuns.VotesStep` | `polkadot/statement-table/src/generic.rs:422-486` | the votes keep reflecting the log |
| `StatementTableRuns.MisbehaviorStep` | `polkadot/statement-table/src/generic.rs:340-347` | the misbehaviour keeps reflecting the log |
| `StatementTableTheorems.TableReflectsLog` | `polkadot/statement-table/src/generic.rs:322-486` | after every run the table shows the candidates with the group of their first seconding, the first vote of each voter, and the misbehaviour |
| `StatementTableTheorems.ProposalsAreFirst` | `polkadot/statement-table/src/generic.rs:366-405` | after every run the table notes for each authority the candidates that it has seconded for its groups, in order, once each, with the signature of the first time |
| `StatementTableTheorems.MisbehaviorIsSoundAndComplete` | `polkadot/statement-table/src/generic.rs:366-486` | after every run exactly the signers of unauthorized statements or of two different votes on one candidate are flagged, and every record is backed by their own statements |
| `StatementTableTheorems.EveryOffenceIsRecorded` | `polkadot/statement-table/src/generic.rs:340-347` | an authority has as many records as it committed offences |
| `StatementTableTheorems.RecordsUnmadeStatement` | `polkadot/statement-table/src/generic.rs:436-448` | after every run, exactly when an import is recorded as an unauthorized statement that nobody has made |
| `StatementTableTheorems.UnmadeStatementIsRecorded` | `polkadot/statement-table/src/generic.rs:436-448` | two imports after which such a statement is recorded |
| `StatementTableTheorems.RecordsOnlyGrow` | `polkadot/statement-table/src/generic.rs:340-347` | imports only add to the records of an authority |
| `StatementTableTheorems.RecordsWereMade` | `polkadot/statement-table/src/generic.rs:366-486` | with distinct digests every record of an authority quotes imported statements to the letter, if and only if the log lacks none of the statements recorded for its mistaken events |
| `StatementTableTheorems.VotesAreFirstVotes` | `polkadot/statement-table/src/generic.rs:451-485` | the table holds exactly one vote of each voter, its first |
| `StatementTableTheorems.AttestedExactly` | `polkadot/statement-table/src/generic.rs:300-313` | after every run a candidate is attested exactly when it is known and as many different members of its group have voted as the minimum demands, or as the group has members |
| `StatementTableTheorems.AttestedByMinimumOrAll` | `polkadot/statement-table/src/generic.rs:300-313` | after every run, for a group with given members, a candidate is attested exactly when the minimum of them has voted or all of them have |
| `StatementTableTheorems.VotersAreMembers` | `polkadot/statement-table/src/generic.rs:436-448` | only members of the group of a candidate have votes on it |
| `StatementTableTheorems.VotesOnlyGrow` | `polkadot/statement-table/src/generic.rs:451-485` | further imports change neither the group nor a vote |
| `StatementTableTheorems.AttestedForGood` | `polkadot/statement-table/src/generic.rs:300-313` | an attested candidate stays attested under further imports |
| `StatementTableTheorems.SummariesNumberTheVotes` | `polkadot/statement-table/src/generic.rs:255-261` | the summaries returned for a candidate number its votes one by one, up to the votes it has |
| `MisbehaviorDrain.EndsEarlyExactlyAtGap` | `polkadot/statement-table/src/generic.rs:536-540` | the iterator leaves records behind if and only if an authority without records comes before one with records |
| `MisbehaviorDrain.EverythingOf` | `polkadot/statement-table/src/generic.rs:496-513` | in any order of the authorities, the records of each come out in recording order |
| `MisbehaviorDrain.NoEmptyRecordsEver` | `polkadot/statement-table/src/generic.rs:340-346` | after every run of imports and drains no authority has an empty list of records |
| `MisbehaviorDrain.DrainingGivesOutEverything` | `polkadot/statement-table/src/generic.rs:496-546` | so draining gives out every record once, those of one authority in recording order |
| `MisbehaviorDrain.RecordsSinceDrain` | `polkadot/statement-table/src/generic.rs:362-364` | after every run of imports and drains the table has the votes of all imports and exactly the records added since the latest drain |
| `MisbehaviorDrain.DrainReportsNewOffences` | `polkadot/statement-table/src/generic.rs:362-364` | every drain reports exactly what was recorded since the previous one, as many records of each authority as it has committed offences since |

## Left out

- BridgeRefinement.Chains.Send: a lane that wraps around leaves the runs of `Bridge`; what holds of it then is said in `BridgeLives` only.
- BridgeProgress.EverythingCanBeDelivered: as everywhere in the model of the bridge, any past state of the other chain can be proved; that a light client keeps a bounded number of headers is not taken into account.
- MessagesPallet.Pallet.SendMessage: validation and sending happen back to back; whether a payload fits the size limit is a parameter.
- MessagesPallet.Pallet.ReceiveMessagesProof: what a message costs and gives back, the declared weight of the call and the length of a relayer entry are parameters; encoded lengths are unbounded numbers.
- MessagesPallet.Pallet.ReceiveMessagesDeliveryProof: the actual weight is a function of the relayers state that is reported as charged for; rewards are computed, not paid, and how many relayers were rewarded is a parameter.
- MessageProofs.VerifyMessagesProof: a storage proof is the set of entries that can be read from it; tries, header lookup and decoding are left out, and an unused trie node is an entry that nobody reads.
- BeefyPallet.Pallet.SubmitCommitment: requires room for at least one commitment, without which the source would divide by zero; the same holds of the GRANDPA header ring.
- BeefyVerification.QuorumsIntersect: takes the keyset root of a validator list to be collision free.
- StatementTableTheorems.RecordsWereMade: takes candidate digests to be collision free; `MisbehaviorIsSoundAndComplete` does not.
- LaneClosing.CloseLanes: the bridge and its deposit, which the call also settles, are not modelled.
- Events, origins other than the owner, changes of owner, benchmarks, migrations.
- Merkle tries, MMR proofs, signatures and justifications: given functions or predicates.
- The deprecated GRANDPA call without a set id, and the success check of GRANDPA calls after dispatch.
- The parachains light client, relayer payments beyond their amounts, and the XCM side of the bridge.
- Taking apart attested candidates and misbehaviour reports into their parts.
- Erasure coding, the node services, and everything outside the bridge and the statement table.
