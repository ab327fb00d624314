/** How many delivered messages each relayer is paid for, per confirmation and over a run
    (bridges/primitives/messages/src/lib.rs). */
module Rewards {
  import opened Wrappers
  import opened LaneTypes
  import opened InboundLanes

  /** The number of nonces of `entry` inside `range`. */
  function Overlap(entry: DeliveredMessages, range: DeliveredMessages): nat {
    var begin := if entry.begin < range.begin then range.begin else entry.begin;
    var end := if entry.end < range.end then entry.end else range.end;
    if begin <= end then end - begin + 1 else 0
  }

  /** What `relayers` credit to `who` for the messages of `range`. */
  function RewardOf(relayers: seq<UnrewardedRelayer>, range: DeliveredMessages, who: AccountId): nat {
    if relayers == [] then 0
    else
      var entry := relayers[|relayers| - 1];
      RewardOf(relayers[..|relayers| - 1], range, who) +
      if entry.relayer == who then Overlap(entry.messages, range) else 0
  }

  function Get(rewards: map<AccountId, nat>, who: AccountId): nat {
    if who in rewards then rewards[who] else 0
  }

  /** Credits every entry's share of the confirmed range to its relayer. */
  method CalcRelayersRewards(relayers: seq<UnrewardedRelayer>, range: DeliveredMessages)
    returns (rewards: map<AccountId, nat>)
    ensures forall who :: Get(rewards, who) == RewardOf(relayers, range, who)
    ensures forall who :: who in rewards ==> 0 < rewards[who]
    ensures |rewards| <= |relayers|
  {
    rewards := map[];
    for i := 0 to |relayers|
      invariant forall who :: Get(rewards, who) == RewardOf(relayers[..i], range, who)
      invariant forall who :: who in rewards ==> 0 < rewards[who]
      invariant |rewards| <= i
    {
      var entry := relayers[i];
      var begin := if entry.messages.begin < range.begin then range.begin else entry.messages.begin;
      var end := if entry.messages.end < range.end then entry.messages.end else range.end;
      assert relayers[..i + 1][..i] == relayers[..i];
      if begin <= end {
        rewards := rewards[entry.relayer := Get(rewards, entry.relayer) + (end - begin + 1)];
      }
    }
    assert relayers[..|relayers|] == relayers;
  }

  /** How many of the nonces `first..=last` were delivered by `who`; `log[n - 1]` delivered `n`. */
  ghost function CountBy(log: seq<AccountId>, first: nat, last: int, who: AccountId): nat
    requires 1 <= first && last <= |log|
    decreases last
  {
    if last < first then 0
    else CountBy(log, first, last - 1, who) + if log[last - 1] == who then 1 else 0
  }

  lemma {:induction false} CountSplit(log: seq<AccountId>, first: nat, middle: int, last: int, who: AccountId)
    requires 1 <= first && first <= middle + 1 && middle <= last <= |log|
    ensures CountBy(log, first, last, who) == CountBy(log, first, middle, who) + CountBy(log, middle + 1, last, who)
    decreases last
  {
    if middle < last {
      CountSplit(log, first, middle, last - 1, who);
    }
  }

  lemma {:induction false} CountSame(log: seq<AccountId>, first: nat, last: int, owner: AccountId, who: AccountId)
    requires 1 <= first && last <= |log|
    requires forall i :: first - 1 <= i < last ==> log[i] == owner
    ensures CountBy(log, first, last, who) ==
            if first <= last && owner == who then last - first + 1 else 0
    decreases last
  {
    if first <= last {
      CountSame(log, first, last - 1, owner, who);
    }
  }

  /** The log `log` names the owner of every nonce that the entries list. */
  ghost predicate Attributed(relayers: seq<UnrewardedRelayer>, confirmed: nat, log: seq<AccountId>) {
    && Last(relayers, confirmed) <= |log|
    && forall n: nat :: confirmed < n <= Last(relayers, confirmed) ==> OwnerOf(relayers, n) == Some(log[n - 1])
  }

  lemma {:induction false} SplitLast(relayers: seq<UnrewardedRelayer>, confirmed: nat)
    requires Consecutive(relayers, confirmed) && relayers != []
    ensures
      var front, entry := relayers[..|relayers| - 1], relayers[|relayers| - 1];
      && Consecutive(front, confirmed)
      && entry.messages.begin == Last(front, confirmed) + 1
      && entry.messages.begin <= entry.messages.end
      && forall n: nat :: OwnerOf(relayers, n) ==
           if entry.messages.Contains(n) then Some(entry.relayer) else OwnerOf(front, n)
  {
    OwnedRange(relayers, confirmed);
    if |relayers| > 1 {
      SplitLast(relayers[1..], relayers[0].messages.end);
      OwnedRange(relayers[1..], relayers[0].messages.end);
      var front := relayers[..|relayers| - 1];
      assert relayers[1..][..|relayers| - 2] == front[1..];
      assert relayers[1..][|relayers| - 2] == relayers[|relayers| - 1];
      OwnedRange(front[1..], relayers[0].messages.end);
    }
  }

  /** A confirmed range is credited to each relayer exactly as often as the log names them in it. */
  lemma {:induction false} RewardIsCount(
    relayers: seq<UnrewardedRelayer>, confirmed: nat, log: seq<AccountId>, range: DeliveredMessages, who: AccountId)
    requires Consecutive(relayers, confirmed) && Attributed(relayers, confirmed, log)
    ensures
      var first := if range.begin <= confirmed then confirmed + 1 else range.begin;
      var last := if range.end <= Last(relayers, confirmed) then range.end else Last(relayers, confirmed);
      RewardOf(relayers, range, who) == CountBy(log, first, last, who)
  {
    if relayers != [] {
      var front, entry := relayers[..|relayers| - 1], relayers[|relayers| - 1];
      SplitLast(relayers, confirmed);
      OwnedRange(front, confirmed);
      var first := if range.begin <= confirmed then confirmed + 1 else range.begin;
      var last := if range.end <= entry.messages.end then range.end else entry.messages.end;
      var middle := if range.end <= Last(front, confirmed) then range.end else Last(front, confirmed);
      assert Attributed(front, confirmed, log) by {
        forall n: nat | confirmed < n <= Last(front, confirmed)
          ensures OwnerOf(front, n) == Some(log[n - 1])
        {
          assert OwnerOf(relayers, n) == Some(log[n - 1]);
        }
      }
      RewardIsCount(front, confirmed, log, range, who);
      var begin := if entry.messages.begin < range.begin then range.begin else entry.messages.begin;
      forall i | begin - 1 <= i < last
        ensures log[i] == entry.relayer
      {
        assert OwnerOf(relayers, i + 1) == Some(log[i]);
      }
      CountSame(log, begin, last, entry.relayer, who);
      if first <= middle + 1 {
        CountSplit(log, first, middle, last, who);
      }
    }
  }
}
