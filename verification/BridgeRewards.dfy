/** The payments of a lane over every run: who is credited for which message, and exactly when a
    message is paid for twice. */
module BridgeRewards {
  import opened LaneTypes
  import opened InboundLanes
  import opened OutboundLanes
  import opened Rewards
  import opened Bridge
  import opened BridgeTheorems

  /** Where the payments end. */
  ghost function PaidUpTo(payments: seq<Payment>): nat {
    if payments == [] then 0 else payments[|payments| - 1].range.end
  }

  /** Each payment is for a non-empty range that starts right after the previous one. */
  ghost predicate InOrder(payments: seq<Payment>) {
    payments == [] ||
    (var front, last := payments[..|payments| - 1], payments[|payments| - 1];
     InOrder(front) && last.range.begin == PaidUpTo(front) + 1 && last.range.begin <= last.range.end)
  }

  /** The relayers of the payment partition a range that includes the paid one and ends with it,
      and they name the true deliverers. */
  ghost predicate Covers(payment: Payment, log: seq<AccountId>) {
    && payment.proved.lastConfirmed < payment.range.begin
    && payment.range.end == payment.proved.LastDelivered()
    && Consecutive(payment.proved.relayers, payment.proved.lastConfirmed)
    && Attributed(payment.proved.relayers, payment.proved.lastConfirmed, log)
  }

  ghost predicate PaidInOrder(payments: seq<Payment>, log: seq<AccountId>) {
    && InOrder(payments)
    && forall k :: 0 <= k < |payments| ==> Covers(payments[k], log)
  }

  /** The payments follow each other up to the received nonce, and each names the true deliverers. */
  ghost predicate PaidUp(w: World) {
    PaidInOrder(w.payments, w.deliveredBy) && PaidUpTo(w.payments) == w.source.data.latestReceived
  }

  // ---------- Repeated confirmations

  /** Confirming the proved state would confirm received messages once more. */
  predicate Repeats(w: World, proved: InboundLaneData) {
    var found := ConfirmationOf(w.source.data, proved);
    found.Ok? && found.value.Some? && found.value.value.begin <= w.source.data.latestReceived
  }

  predicate RepeatsAt(w: World, step: Step) {
    && step.Confirm? && CanConfirm(w, step.targetSnapshot, step.relayersState, step.admitted)
    && Repeats(w, w.targetPast[step.targetSnapshot])
  }

  /** A genuine confirmation repeats one exactly when the largest nonce is received already and the
      proof shows it again with an unrewarded relayer. */
  lemma RepeatsExactly(limits: Limits, w: World, snapshot: nat)
    requires Inv(limits, w) && snapshot < |w.targetPast|
    ensures
      var proved := w.targetPast[snapshot];
      Repeats(w, proved) <==>
        w.source.data.latestReceived == MAX_NONCE == proved.LastDelivered() && proved.relayers != []
  {
    GenuineConfirmation(limits, w, snapshot);
  }

  ghost predicate NeverRepeats(limits: Limits, steps: seq<Step>) {
    steps == [] ||
    var before, last := steps[..|steps| - 1], steps[|steps| - 1];
    NeverRepeats(limits, before) && !RepeatsAt(Run(limits, before), last)
  }

  // ---------- Payments in order

  lemma LongerLogKeepsPayments(payments: seq<Payment>, log: seq<AccountId>, more: seq<AccountId>)
    requires PaidInOrder(payments, log)
    ensures PaidInOrder(payments, log + more)
  {
    forall k | 0 <= k < |payments|
      ensures Covers(payments[k], log + more)
    {
      assert Covers(payments[k], log);
      LongerLog(payments[k].proved.relayers, payments[k].proved.lastConfirmed, log, more);
    }
  }

  lemma NextPayment(payments: seq<Payment>, payment: Payment, log: seq<AccountId>)
    requires PaidInOrder(payments, log) && Covers(payment, log)
    requires payment.range.begin == PaidUpTo(payments) + 1 && payment.range.begin <= payment.range.end
    ensures PaidInOrder(payments + [payment], log) && PaidUpTo(payments + [payment]) == payment.range.end
  {
    assert (payments + [payment])[..|payments|] == payments;
  }

  lemma PaymentKeepsOrder(limits: Limits, w: World, snapshot: nat)
    requires Inv(limits, w) && snapshot < |w.targetPast|
    requires PaidUp(w) && !Repeats(w, w.targetPast[snapshot])
    ensures PaidUp(AfterConfirm(w, w.targetPast[snapshot]))
  {
    var proved, received := w.targetPast[snapshot], w.source.data.latestReceived;
    GenuineConfirmation(limits, w, snapshot);
    assert TargetKnown(limits, w, proved);
    if received < proved.LastDelivered() {
      NextPayment(w.payments, Payment(DeliveredMessages(received + 1, proved.LastDelivered()), proved), w.deliveredBy);
    } else {
      assert w.payments + [] == w.payments;
    }
  }

  lemma StepKeepsPaid(limits: Limits, w: World, step: Step)
    requires Inv(limits, w) && PaidUp(w) && !RepeatsAt(w, step)
    ensures PaidUp(Apply(limits, w, step))
  {
    if step.Confirm? && CanConfirm(w, step.targetSnapshot, step.relayersState, step.admitted) {
      PaymentKeepsOrder(limits, w, step.targetSnapshot);
    } else if step.Deliver? {
      LongerLogKeepsPayments(w.payments, w.deliveredBy, Apply(limits, w, step).deliveredBy[|w.deliveredBy|..]);
      DeliveriesOnlyAdd(limits, w, step);
    }
  }

  /** Other than by a confirmation, only the log of deliveries can grow. */
  lemma DeliveriesOnlyAdd(limits: Limits, w: World, step: Step)
    requires step.Deliver?
    ensures
      var w' := Apply(limits, w, step);
      && w'.payments == w.payments && w'.source == w.source
      && |w.deliveredBy| <= |w'.deliveredBy|
      && w'.deliveredBy == w.deliveredBy + w'.deliveredBy[|w.deliveredBy|..]
  {
  }

  lemma {:induction false} PaidUpHolds(limits: Limits, steps: seq<Step>)
    requires NeverRepeats(limits, steps)
    ensures PaidUp(Run(limits, steps))
  {
    if steps != [] {
      var before := steps[..|steps| - 1];
      PaidUpHolds(limits, before);
      InvHolds(limits, before);
      StepKeepsPaid(limits, Run(limits, before), steps[|steps| - 1]);
    }
  }

  // ---------- Each message is paid for once

  ghost predicate InPayment(payments: seq<Payment>, k: int, nonce: nat) {
    0 <= k < |payments| && payments[k].range.Contains(nonce)
  }

  lemma {:induction false} PaidRanges(payments: seq<Payment>, nonce: nat)
    requires InOrder(payments)
    ensures (exists k :: InPayment(payments, k, nonce)) <==> 0 < nonce <= PaidUpTo(payments)
  {
    if payments != [] {
      var last := |payments| - 1;
      var front := payments[..last];
      PaidRanges(front, nonce);
      if k :| InPayment(payments, k, nonce) {
        assert k < last ==> InPayment(front, k, nonce);
      }
      if 0 < nonce <= PaidUpTo(front) {
        var k :| InPayment(front, k, nonce);
        assert InPayment(payments, k, nonce);
      } else if 0 < nonce <= PaidUpTo(payments) {
        assert InPayment(payments, last, nonce);
      }
    }
  }

  lemma {:induction false} PaidOnce(payments: seq<Payment>, nonce: nat, k: int, l: int)
    requires InOrder(payments)
    requires InPayment(payments, k, nonce) && InPayment(payments, l, nonce)
    ensures k == l
  {
    var last := |payments| - 1;
    var front := payments[..last];
    PaidRanges(front, nonce);
    assert k < last ==> InPayment(front, k, nonce);
    assert l < last ==> InPayment(front, l, nonce);
    if k < last && l < last {
      PaidOnce(front, nonce, k, l);
    }
  }

  /** Exactly one entry of the payment lists the nonce, and it names the relayer who delivered it. */
  ghost predicate CreditsDeliverer(payment: Payment, nonce: nat, log: seq<AccountId>) {
    var relayers := payment.proved.relayers;
    && 0 < nonce <= |log|
    && (exists i :: Lists(relayers, i, nonce))
    && (forall i :: Lists(relayers, i, nonce) ==> relayers[i].relayer == log[nonce - 1])
    && (forall i, j :: Lists(relayers, i, nonce) && Lists(relayers, j, nonce) ==> i == j)
  }

  /** Reward attribution: in a run without a repeated confirmation a nonce is in a confirmed range
      exactly when it is received, in one range only, and that payment credits the relayer who
      delivered it. */
  lemma EachReceivedMessageIsPaidOnce(limits: Limits, steps: seq<Step>, nonce: nat)
    requires NeverRepeats(limits, steps)
    ensures
      var w := Run(limits, steps);
      && ((exists k :: InPayment(w.payments, k, nonce)) <==> 0 < nonce <= w.source.data.latestReceived)
      && (forall k, l :: InPayment(w.payments, k, nonce) && InPayment(w.payments, l, nonce) ==> k == l)
      && (forall k :: InPayment(w.payments, k, nonce) ==> CreditsDeliverer(w.payments[k], nonce, w.deliveredBy))
  {
    PaidUpHolds(limits, steps);
    var w := Run(limits, steps);
    PaidRanges(w.payments, nonce);
    forall k, l | InPayment(w.payments, k, nonce) && InPayment(w.payments, l, nonce)
      ensures k == l
    {
      PaidOnce(w.payments, nonce, k, l);
    }
    forall k | InPayment(w.payments, k, nonce)
      ensures CreditsDeliverer(w.payments[k], nonce, w.deliveredBy)
    {
      var payment := w.payments[k];
      assert Covers(payment, w.deliveredBy);
      ExactlyOneEntry(payment.proved.relayers, payment.proved.lastConfirmed, nonce);
    }
  }

  ghost predicate NothingPaidTwice(payments: seq<Payment>) {
    forall nonce: nat, k, l :: InPayment(payments, k, nonce) && InPayment(payments, l, nonce) ==> k == l
  }

  lemma {:induction false} RepeatIsPaidTwice(limits: Limits, steps: seq<Step>)
    requires !NeverRepeats(limits, steps)
    ensures !NothingPaidTwice(Run(limits, steps).payments)
  {
    var before, last := steps[..|steps| - 1], steps[|steps| - 1];
    var w, w' := Run(limits, before), Run(limits, steps);
    StepExtends(limits, w, last);
    if !NeverRepeats(limits, before) {
      RepeatIsPaidTwice(limits, before);
      var nonce: nat, k, l :| InPayment(w.payments, k, nonce) && InPayment(w.payments, l, nonce) && k != l;
      assert InPayment(w'.payments, k, nonce) && InPayment(w'.payments, l, nonce);
    } else {
      PaidUpHolds(limits, before);
      InvHolds(limits, before);
      RepeatsExactly(limits, w, last.targetSnapshot);
      var nonce := w.source.data.latestReceived;
      PaidRanges(w.payments, nonce);
      var k :| InPayment(w.payments, k, nonce);
      assert InPayment(w'.payments, k, nonce) && InPayment(w'.payments, |w.payments|, nonce);
    }
  }

  lemma InOrderPaysOnce(payments: seq<Payment>)
    requires InOrder(payments)
    ensures NothingPaidTwice(payments)
  {
    forall nonce: nat, k, l | InPayment(payments, k, nonce) && InPayment(payments, l, nonce)
      ensures k == l
    {
      PaidOnce(payments, nonce, k, l);
    }
  }

  /** No message is paid for twice if and only if no confirmation of the run repeats one. */
  lemma PaidOnceExactly(limits: Limits, steps: seq<Step>)
    ensures NothingPaidTwice(Run(limits, steps).payments) <==> NeverRepeats(limits, steps)
  {
    if NeverRepeats(limits, steps) {
      PaidUpHolds(limits, steps);
      InOrderPaysOnce(Run(limits, steps).payments);
    } else {
      RepeatIsPaidTwice(limits, steps);
    }
  }

  // ---------- Credits match deliveries

  /** What `who` is credited with over all payments. */
  ghost function TotalReward(payments: seq<Payment>, who: AccountId): nat {
    if payments == [] then 0
    else
      var payment := payments[|payments| - 1];
      TotalReward(payments[..|payments| - 1], who) + RewardOf(payment.proved.relayers, payment.range, who)
  }

  lemma {:induction false} TotalRewardIsCount(payments: seq<Payment>, log: seq<AccountId>, who: AccountId)
    requires PaidInOrder(payments, log)
    ensures PaidUpTo(payments) <= |log|
    ensures TotalReward(payments, who) == CountBy(log, 1, PaidUpTo(payments), who)
  {
    if payments != [] {
      var last := |payments| - 1;
      var front := payments[..last];
      TotalRewardIsCount(front, log, who);
      var payment := payments[last];
      assert Covers(payment, log);
      RewardIsCount(payment.proved.relayers, payment.proved.lastConfirmed, log, payment.range, who);
      CountSplit(log, 1, PaidUpTo(front), PaidUpTo(payments), who);
    }
  }

  /** Every relayer is credited with exactly the received messages that this relayer delivered. */
  ghost predicate RewardsMatch(w: World) {
    && w.source.data.latestReceived <= |w.deliveredBy|
    && forall who :: TotalReward(w.payments, who) == CountBy(w.deliveredBy, 1, w.source.data.latestReceived, who)
  }

  /** Some relayer is credited with more than that, and nothing more can be received. */
  ghost predicate Overpaid(w: World) {
    && w.source.data.latestReceived == MAX_NONCE == |w.deliveredBy|
    && exists who :: TotalReward(w.payments, who) > CountBy(w.deliveredBy, 1, w.source.data.latestReceived, who)
  }

  lemma {:induction false} MorePaymentsMoreReward(payments: seq<Payment>, more: seq<Payment>, who: AccountId)
    requires payments <= more
    ensures TotalReward(payments, who) <= TotalReward(more, who)
  {
    if |payments| < |more| {
      MorePaymentsMoreReward(payments, more[..|more| - 1], who);
    } else {
      assert payments == more;
    }
  }

  lemma OverpaidStays(limits: Limits, w: World, step: Step)
    requires Inv(limits, w) && Overpaid(w)
    ensures Overpaid(Apply(limits, w, step))
  {
    var w' := Apply(limits, w, step);
    StepExtends(limits, w, step);
    StepKeepsInv(limits, w, step);
    assert SourceKnown(w', w'.sourcePast[|w.sourcePast| - 1]);
    assert w'.deliveredBy == w.deliveredBy;
    var who :| TotalReward(w.payments, who) > CountBy(w.deliveredBy, 1, w.source.data.latestReceived, who);
    MorePaymentsMoreReward(w.payments, w'.payments, who);
  }

  /** The payment of the last delivered message alone credits its deliverer. */
  lemma LastMessageIsCredited(proved: InboundLaneData, log: seq<AccountId>)
    requires Consecutive(proved.relayers, proved.lastConfirmed) && proved.relayers != []
    requires Attributed(proved.relayers, proved.lastConfirmed, log) && proved.LastDelivered() == |log|
    ensures 0 < |log| <= MAX_NONCE
    ensures RewardOf(proved.relayers, DeliveredMessages(|log|, |log|), log[|log| - 1]) == 1
  {
    OwnedRange(proved.relayers, proved.lastConfirmed);
    RewardIsCount(proved.relayers, proved.lastConfirmed, log, DeliveredMessages(|log|, |log|), log[|log| - 1]);
  }

  lemma RepeatOverpays(limits: Limits, w: World, step: Step)
    requires Inv(limits, w) && PaidUp(w) && RepeatsAt(w, step)
    ensures Overpaid(Apply(limits, w, step))
  {
    var w', proved := Apply(limits, w, step), w.targetPast[step.targetSnapshot];
    var n := |w.deliveredBy|;
    RepeatsExactly(limits, w, step.targetSnapshot);
    GenuineConfirmation(limits, w, step.targetSnapshot);
    assert TargetKnown(limits, w, proved);
    LastMessageIsCredited(proved, w.deliveredBy);
    assert w'.payments == w.payments + [Payment(DeliveredMessages(n, n), proved)];
    assert w'.payments[..|w.payments|] == w.payments;
    TotalRewardIsCount(w.payments, w.deliveredBy, w.deliveredBy[n - 1]);
  }

  lemma {:induction false} RepeatIsOverpaid(limits: Limits, steps: seq<Step>)
    requires !NeverRepeats(limits, steps)
    ensures Overpaid(Run(limits, steps))
  {
    var before, last := steps[..|steps| - 1], steps[|steps| - 1];
    InvHolds(limits, before);
    if !NeverRepeats(limits, before) {
      RepeatIsOverpaid(limits, before);
      OverpaidStays(limits, Run(limits, before), last);
    } else {
      PaidUpHolds(limits, before);
      RepeatOverpays(limits, Run(limits, before), last);
    }
  }

  /** Conservation of rewards: over a run every relayer is credited with exactly the received
      messages that this relayer delivered, if and only if no confirmation repeats one. */
  lemma RewardsMatchDeliveries(limits: Limits, steps: seq<Step>)
    ensures RewardsMatch(Run(limits, steps)) <==> NeverRepeats(limits, steps)
  {
    var w := Run(limits, steps);
    if NeverRepeats(limits, steps) {
      InvHolds(limits, steps);
      PaidUpHolds(limits, steps);
      forall who
        ensures TotalReward(w.payments, who) == CountBy(w.deliveredBy, 1, w.source.data.latestReceived, who)
      {
        TotalRewardIsCount(w.payments, w.deliveredBy, who);
      }
    } else {
      RepeatIsOverpaid(limits, steps);
    }
  }
}
