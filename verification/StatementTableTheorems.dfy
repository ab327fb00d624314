/** What holds of the statement table after every run of imports. */
module StatementTableTheorems {
  import opened Wrappers
  import opened StatementTable
  import opened StatementTableRuns
  import SetSizes

  /** After every run the table is the picture of the imported statements: the candidates and their
      groups, the first vote of each voter, and the misbehaviour. */
  lemma {:induction false} TableReflectsLog(ctx: Context, log: seq<Event>)
    ensures
      var table := Run(ctx, log).table;
      ReflectsCandidates(ctx, table, log) && ReflectsVotes(ctx, table, log) && ReflectsMisbehavior(ctx, table, log)
  {
    if log == [] {
      EmptyTableReflects(ctx);
    } else {
      var n := |log| - 1;
      var before := Run(ctx, log[..n]).table;
      TableReflectsLog(ctx, log[..n]);
      assert log == log[..n] + [log[n]];
      CandidatesStep(ctx, before, log[..n], log[n]);
      VotesStep(ctx, before, log[..n], log[n]);
      MisbehaviorStep(ctx, before, log[..n], log[n]);
    }
  }

  lemma EmptyTableReflects(ctx: Context)
    ensures ReflectsCandidates(ctx, EmptyTable(), []) && ReflectsVotes(ctx, EmptyTable(), [])
    ensures ReflectsMisbehavior(ctx, EmptyTable(), [])
  {
  }

  // ---------- Proposals

  predicate ProposesAt(ctx: Context, log: seq<Event>, i: int, who: AuthorityId, digest: Digest) {
    0 <= i < |log| && log[i].signed.sender == who && Introduces(ctx, log[i], digest)
  }

  ghost predicate Proposes(ctx: Context, log: seq<Event>, who: AuthorityId, digest: Digest) {
    exists i :: ProposesAt(ctx, log, i, who, digest)
  }

  /** The candidates that an authority has seconded for its groups, in order, each with the signature of the
      first time. */
  ghost function FirstProposals(ctx: Context, log: seq<Event>, who: AuthorityId): seq<(Digest, Signature)> {
    if log == [] then []
    else
      var past, last := log[..|log| - 1], log[|log| - 1];
      var digest := DigestOf(ctx, last);
      FirstProposals(ctx, past, who) +
      if last.signed.sender == who && Introduces(ctx, last, digest) && !Proposes(ctx, past, who, digest)
      then [(digest, last.signed.signature)]
      else []
  }

  lemma ProposesStep(ctx: Context, log: seq<Event>, event: Event, who: AuthorityId, digest: Digest)
    ensures Proposes(ctx, log + [event], who, digest) <==>
            Proposes(ctx, log, who, digest) || (event.signed.sender == who && Introduces(ctx, event, digest))
  {
    var after := log + [event];
    if i :| ProposesAt(ctx, log, i, who, digest) {
      assert ProposesAt(ctx, after, i, who, digest);
    }
    if event.signed.sender == who && Introduces(ctx, event, digest) {
      assert ProposesAt(ctx, after, |log|, who, digest);
    }
    if i :| ProposesAt(ctx, after, i, who, digest) {
      assert i < |log| ==> ProposesAt(ctx, log, i, who, digest);
    }
  }

  /** What an import makes of the proposals. */
  lemma ImportProposes(ctx: Context, table: TableState, event: Event, who: AuthorityId, digest: Digest)
    ensures
      var after, proposed := Import(ctx, table, event.group, event.signed).0, DigestOf(ctx, event);
      var isNew := event.signed.sender == who && Introduces(ctx, event, proposed) && !HasProposed(table, who, proposed);
      && Proposals(after, who) == Proposals(table, who) + (if isNew then [(proposed, event.signed.signature)] else [])
      && (HasProposed(after, who, digest) <==> HasProposed(table, who, digest) || (isNew && digest == proposed))
  {
    var after, proposed := Import(ctx, table, event.group, event.signed).0, DigestOf(ctx, event);
    var before := Proposals(table, who);
    assert Proposals(after, who) == before ||
           Proposals(after, who) == before + [(proposed, event.signed.signature)];
    if Proposals(after, who) != before {
      AppendedDigest(before, (proposed, event.signed.signature), digest);
    }
  }

  lemma AppendedDigest(list: seq<(Digest, Signature)>, entry: (Digest, Signature), digest: Digest)
    ensures
      (exists i :: 0 <= i < |list + [entry]| && (list + [entry])[i].0 == digest) <==>
      (exists i :: 0 <= i < |list| && list[i].0 == digest) || entry.0 == digest
  {
    var after := list + [entry];
    assert after[|list|] == entry;
    if i :| 0 <= i < |list| && list[i].0 == digest {
      assert after[i].0 == digest;
    }
  }

  /** After every run the table notes for each authority the candidates that it has seconded for its groups, in
      order, once each, with the signature of the first time. */
  lemma {:induction false} ProposalsAreFirst(ctx: Context, log: seq<Event>, who: AuthorityId, digest: Digest)
    ensures
      var table := Run(ctx, log).table;
      && Proposals(table, who) == FirstProposals(ctx, log, who)
      && (HasProposed(table, who, digest) <==> Proposes(ctx, log, who, digest))
  {
    if log != [] {
      var past, last := log[..|log| - 1], log[|log| - 1];
      assert log == past + [last];
      ProposalsAreFirst(ctx, past, who, digest);
      ProposalsAreFirst(ctx, past, who, DigestOf(ctx, last));
      ProposesStep(ctx, past, last, who, digest);
      ImportProposes(ctx, Run(ctx, past).table, last, who, digest);
    }
  }

  // ---------- Misbehaviour

  /** An authority is flagged exactly when it made a statement it was not entitled to or two
      different votes on one candidate, and every record is backed by its own statements. */
  lemma MisbehaviorIsSoundAndComplete(ctx: Context, log: seq<Event>, who: AuthorityId)
    ensures
      var records := Run(ctx, log).table.misbehavior;
      && (who in records <==> Offends(ctx, log, who))
      && (who in records ==>
            && records[who] != []
            && forall i :: 0 <= i < |records[who]| ==> Backed(ctx, log, who, records[who][i]))
  {
    TableReflectsLog(ctx, log);
    assert RecordsReflected(ctx, Run(ctx, log).table, log, who);
  }

  /** After `log`, the event is an offence of its signer: a statement without entitlement, or a vote
      that differs from the signer's first one on the candidate. */
  ghost predicate OffendsNow(ctx: Context, log: seq<Event>, event: Event) {
    var who, digest, after := event.signed.sender, DigestOf(ctx, event), log + [event];
    || Unauthorized(ctx, after, |log|, who)
    || (&& Counted(ctx, after, |log|, who, digest)
        && exists vote :: vote != VoteOf(event) && FirstVote(ctx, log, who, digest, vote))
  }

  ghost function OffenceCount(ctx: Context, log: seq<Event>, who: AuthorityId): nat {
    if log == [] then 0
    else
      var past, last := log[..|log| - 1], log[|log| - 1];
      OffenceCount(ctx, past, who) + if last.signed.sender == who && OffendsNow(ctx, past, last) then 1 else 0
  }

  function RecordsFor(table: TableState, who: AuthorityId): seq<Misbehavior> {
    if who in table.misbehavior then table.misbehavior[who] else []
  }

  lemma OffenceIsInLog(ctx: Context, table: TableState, log: seq<Event>, event: Event)
    requires ReflectsCandidates(ctx, table, log) && ReflectsVotes(ctx, table, log)
    ensures IsOffence(ctx, table, event) <==> OffendsNow(ctx, log, event)
  {
    var who, digest := event.signed.sender, DigestOf(ctx, event);
    CandidatesStep(ctx, table, log, event);
    assert GroupOf(Opened(ctx, table, event), digest) == GroupIn(ctx, log + [event], digest);
    NewStanding(ctx, log, event, who, digest);
    var votes := VotesOn(table, digest);
    assert VoteReflected(ctx, votes, log, digest, who);
    forall vote | FirstVote(ctx, log, who, digest, vote)
      ensures who in votes && votes[who] == vote
    {
      assert who in votes;
      OneFirstVote(ctx, log, who, digest, vote, votes[who]);
    }
  }

  lemma OneFirstVote(ctx: Context, log: seq<Event>, who: AuthorityId, digest: Digest, a: ValidityVote, b: ValidityVote)
    requires FirstVote(ctx, log, who, digest, a) && FirstVote(ctx, log, who, digest, b)
    ensures a == b
  {
  }

  /** Every offence is recorded once: an authority has as many records as offences. */
  lemma {:induction false} EveryOffenceIsRecorded(ctx: Context, log: seq<Event>, who: AuthorityId)
    ensures |RecordsFor(Run(ctx, log).table, who)| == OffenceCount(ctx, log, who)
  {
    if log != [] {
      var past, last := log[..|log| - 1], log[|log| - 1];
      var table := Run(ctx, past).table;
      EveryOffenceIsRecorded(ctx, past, who);
      TableReflectsLog(ctx, past);
      OffenceIsInLog(ctx, table, past, last);
      RecordStep(ctx, table, past, last);
    }
  }

  /** The recorded statements are, to the letter, statements that were imported. */
  ghost predicate Made(log: seq<Event>, who: AuthorityId, misbehavior: Misbehavior) {
    match misbehavior
    case IssuedAndValidity(candidate, issued, digest, valid) =>
      && Imports(log, SignedStatement(Seconded(candidate), issued, who))
      && Imports(log, SignedStatement(Valid(digest), valid, who))
    case UnauthorizedStatement(signed) => signed.sender == who && Imports(log, signed)
    case DoubleSignSeconded(candidate, first, second) =>
      && first != second
      && Imports(log, SignedStatement(Seconded(candidate), first, who))
      && Imports(log, SignedStatement(Seconded(candidate), second, who))
    case DoubleSignValidity(digest, first, second) =>
      && first != second
      && Imports(log, SignedStatement(Valid(digest), first, who))
      && Imports(log, SignedStatement(Valid(digest), second, who))
  }

  lemma SaidSecondedWasImported(
    ctx: Context, log: seq<Event>, who: AuthorityId, candidate: Candidate, signature: Signature)
    requires forall c, d :: ctx.digestOf(c) == ctx.digestOf(d) ==> c == d
    requires Said(ctx, log, who, ctx.digestOf(candidate), Issued(signature))
    ensures Imports(log, SignedStatement(Seconded(candidate), signature, who))
  {
  }

  lemma SaidValidWasImported(ctx: Context, log: seq<Event>, who: AuthorityId, digest: Digest, signature: Signature)
    requires Said(ctx, log, who, digest, Explicit(signature))
    ensures Imports(log, SignedStatement(Valid(digest), signature, who))
  {
  }

  lemma InTurnSaysBoth(
    ctx: Context, log: seq<Event>, who: AuthorityId, digest: Digest, first: ValidityVote, second: ValidityVote)
    requires SaidInTurn(ctx, log, who, digest, first, second)
    ensures Said(ctx, log, who, digest, first) && Said(ctx, log, who, digest, second)
  {
  }

  lemma {:induction false} RecordsOnlyGrow(ctx: Context, log: seq<Event>, n: nat, who: AuthorityId)
    requires n <= |log|
    ensures RecordsFor(Run(ctx, log[..n]).table, who) <= RecordsFor(Run(ctx, log).table, who)
  {
    if n == |log| {
      assert log[..n] == log;
    } else {
      var past, last := log[..|log| - 1], log[|log| - 1];
      RecordsOnlyGrow(ctx, past, n, who);
      assert past[..n] == log[..n];
      TableReflectsLog(ctx, past);
      RecordStep(ctx, Run(ctx, past).table, past, last);
    }
  }

  /** The event seconds a candidate for a group of the signer, the candidate has another group that the
      signer is not in, and the signer has not stated its validity with this signature. */
  ghost predicate Unmade(ctx: Context, log: seq<Event>, event: Event) {
    var who, digest := event.signed.sender, DigestOf(ctx, event);
    var group := GroupIn(ctx, log, digest);
    && Introduces(ctx, event, digest)
    && group.Some? && !ctx.isMemberOf(who, group.value)
    && !Imports(log, SignedStatement(Valid(digest), event.signed.signature, who))
  }

  lemma ImportedOrNew(log: seq<Event>, event: Event, signed: SignedStatement)
    ensures Imports(log + [event], signed) <==> Imports(log, signed) || event.signed == signed
  {
    assert (log + [event])[|log|] == event;
    if Imports(log, signed) {
      var k :| 0 <= k < |log| && log[k].signed == signed;
      assert (log + [event])[k].signed == signed;
    }
    if k :| 0 <= k < |log| + 1 && (log + [event])[k].signed == signed {
      assert k < |log| ==> log[k].signed == signed;
    }
  }

  /** An import is answered with an unauthorized statement exactly when its signer was not entitled to
      it. */
  lemma AnswerToUnentitled(ctx: Context, table: TableState, event: Event)
    requires ProposalsAreKnown(table)
    ensures
      var result := Imported(ctx, table, event.group, event.signed).1;
      && (Unentitled(ctx, table, event) <==> result.Err? && result.error.UnauthorizedStatement?)
      && (Unentitled(ctx, table, event) ==> result.error == UnentitledRecord(ctx, event))
  {
  }

  lemma UnentitledIsUnmade(ctx: Context, table: TableState, log: seq<Event>, event: Event)
    requires ReflectsCandidates(ctx, table, log)
    ensures
      Unmade(ctx, log, event) <==>
        Unentitled(ctx, table, event) && !Imports(log + [event], UnentitledRecord(ctx, event).statement)
  {
    var digest := DigestOf(ctx, event);
    assert GroupOf(table, digest) == GroupIn(ctx, log, digest);
    OpenedTable(ctx, table, event, digest);
    ImportedOrNew(log, event, UnentitledRecord(ctx, event).statement);
  }

  /** Exactly when the table records an unauthorized statement that nobody has made. */
  lemma RecordsUnmadeStatement(ctx: Context, log: seq<Event>, event: Event)
    ensures
      var result := Imported(ctx, Run(ctx, log).table, event.group, event.signed).1;
      Unmade(ctx, log, event) <==>
        result.Err? && result.error.UnauthorizedStatement? && !Imports(log + [event], result.error.statement)
  {
    CandidatesReflected(ctx, log);
    AnswerToUnentitled(ctx, Run(ctx, log).table, event);
    UnentitledIsUnmade(ctx, Run(ctx, log).table, log, event);
  }

  /** Two events suffice: a candidate is seconded for one group and then, by somebody who is not in that
      group, for another. */
  lemma UnmadeStatementIsRecorded(
    ctx: Context, candidate: Candidate, first: GroupId, second: GroupId, a: AuthorityId, b: AuthorityId,
    s: Signature, t: Signature)
    requires ctx.isMemberOf(a, first) && ctx.isMemberOf(b, second) && !ctx.isMemberOf(b, first)
    ensures
      var log := [Event(first, SignedStatement(Seconded(candidate), s, a)),
                  Event(second, SignedStatement(Seconded(candidate), t, b))];
      var unmade := SignedStatement(Valid(ctx.digestOf(candidate)), t, b);
      RecordsFor(Run(ctx, log).table, b) == [UnauthorizedStatement(unmade)] && !Imports(log, unmade)
  {
    var one := Event(first, SignedStatement(Seconded(candidate), s, a));
    var two := Event(second, SignedStatement(Seconded(candidate), t, b));
    assert [one, two][..1] == [one] && [one][..0] == [];
    assert Run(ctx, [one]) == Apply(ctx, Run(ctx, []), one);
    assert Run(ctx, [one, two]) == Apply(ctx, Run(ctx, [one]), two);
    var digest := ctx.digestOf(candidate);
    assert Run(ctx, [one]).table.candidateVotes[digest].groupId == first;
  }

  /** The log lacks the statement that is recorded for event `i`. */
  ghost predicate Lacks(ctx: Context, log: seq<Event>, i: int, who: AuthorityId) {
    exists signed :: Mistaken(ctx, log, i, who, signed) && !Imports(log, signed)
  }

  /** What is recorded for a mistaken event stays recorded. */
  lemma MistakenIsRecorded(ctx: Context, log: seq<Event>, i: int, who: AuthorityId, signed: SignedStatement)
    requires Mistaken(ctx, log, i, who, signed)
    ensures UnauthorizedStatement(signed) in RecordsFor(Run(ctx, log).table, who)
  {
    var past, event, table := log[..i], log[i], Run(ctx, log[..i]).table;
    var digest := DigestOf(ctx, event);
    assert log[..i + 1] == past + [event] && log[..i + 1][..i] == past;
    TableReflectsLog(ctx, past);
    CandidatesStep(ctx, table, past, event);
    assert GroupOf(Opened(ctx, table, event), digest) == GroupIn(ctx, past + [event], digest);
    ImportCases(ctx, table, event);
    var records := RecordsFor(Run(ctx, log[..i + 1]).table, who);
    assert records[|records| - 1] == UnauthorizedStatement(signed);
    RecordsOnlyGrow(ctx, log, i + 1, who);
    assert RecordsFor(Run(ctx, log).table, who)[|records| - 1] == UnauthorizedStatement(signed);
  }

  lemma BackedIsMade(ctx: Context, log: seq<Event>, who: AuthorityId, misbehavior: Misbehavior)
    requires forall c, d :: ctx.digestOf(c) == ctx.digestOf(d) ==> c == d
    requires Backed(ctx, log, who, misbehavior) && forall i :: !Lacks(ctx, log, i, who)
    ensures Made(log, who, misbehavior)
  {
    match misbehavior
    case IssuedAndValidity(candidate, issued, digest, valid) =>
      SaidSecondedWasImported(ctx, log, who, candidate, issued);
      SaidValidWasImported(ctx, log, who, digest, valid);
    case UnauthorizedStatement(signed) =>
      forall i | Mistaken(ctx, log, i, who, signed)
        ensures Imports(log, signed)
      {
        assert !Lacks(ctx, log, i, who);
      }
    case DoubleSignSeconded(candidate, first, second) =>
      InTurnSaysBoth(ctx, log, who, ctx.digestOf(candidate), Issued(first), Issued(second));
      SaidSecondedWasImported(ctx, log, who, candidate, first);
      SaidSecondedWasImported(ctx, log, who, candidate, second);
    case DoubleSignValidity(digest, first, second) =>
      InTurnSaysBoth(ctx, log, who, digest, Explicit(first), Explicit(second));
      SaidValidWasImported(ctx, log, who, digest, first);
      SaidValidWasImported(ctx, log, who, digest, second);
  }

  /** With distinct digests, every record of an authority quotes imported statements if and only if the
      log lacks none of the statements that are recorded for its mistaken events. */
  lemma RecordsWereMade(ctx: Context, log: seq<Event>, who: AuthorityId)
    requires forall c, d :: ctx.digestOf(c) == ctx.digestOf(d) ==> c == d
    ensures
      var records := RecordsFor(Run(ctx, log).table, who);
      (forall m :: m in records ==> Made(log, who, m)) <==> forall i :: !Lacks(ctx, log, i, who)
  {
    var records := RecordsFor(Run(ctx, log).table, who);
    MisbehaviorIsSoundAndComplete(ctx, log, who);
    if i :| Lacks(ctx, log, i, who) {
      var signed :| Mistaken(ctx, log, i, who, signed) && !Imports(log, signed);
      MistakenIsRecorded(ctx, log, i, who, signed);
      assert !Made(log, who, UnauthorizedStatement(signed));
    } else {
      forall m | m in records
        ensures Made(log, who, m)
      {
        BackedIsMade(ctx, log, who, m);
      }
    }
  }

  // ---------- Attestation

  /** The authorities with a counted vote on the candidate. */
  function Voters(ctx: Context, log: seq<Event>, digest: Digest): set<AuthorityId> {
    set i | 0 <= i < |log| && Counted(ctx, log, i, log[i].signed.sender, digest) :: log[i].signed.sender
  }

  /** The table holds one vote of each voter, its first. */
  lemma VotesAreFirstVotes(ctx: Context, log: seq<Event>, digest: Digest)
    ensures
      var votes := VotesOn(Run(ctx, log).table, digest);
      && votes.Keys == Voters(ctx, log, digest)
      && forall who :: who in votes ==> FirstVote(ctx, log, who, digest, votes[who])
  {
    TableReflectsLog(ctx, log);
    var table := Run(ctx, log).table;
    var votes := VotesOn(table, digest);
    forall who
      ensures who in votes <==> who in Voters(ctx, log, digest)
      ensures who in votes ==> FirstVote(ctx, log, who, digest, votes[who])
    {
      assert VoteReflected(ctx, votes, log, digest, who);
      if who in votes {
        var i :| Counted(ctx, log, i, who, digest);
        assert log[i].signed.sender == who;
      }
    }
  }

  /** A candidate is attested exactly when it is known and enough different members of its group,
      the group it was first seconded for, have voted on it. */
  lemma AttestedExactly(ctx: Context, log: seq<Event>, digest: Digest, minimumBackingVotes: nat)
    ensures
      var group := GroupIn(ctx, log, digest);
      IsAttested(ctx, Run(ctx, log).table, digest, minimumBackingVotes) <==>
        group.Some? && EnoughVotes(ctx, group.value, minimumBackingVotes, |Voters(ctx, log, digest)|)
  {
    TableReflectsLog(ctx, log);
    VotesAreFirstVotes(ctx, log, digest);
    var table := Run(ctx, log).table;
    assert GroupOf(table, digest) == GroupIn(ctx, log, digest);
    assert |VotesOn(table, digest)| == |VotesOn(table, digest).Keys|;
  }

  /** Only members of the group of a candidate vote on it. */
  lemma VotersAreMembers(ctx: Context, log: seq<Event>, digest: Digest, who: AuthorityId)
    requires who in Voters(ctx, log, digest)
    ensures Member(ctx, who, GroupIn(ctx, log, digest))
  {
    var i :| 0 <= i < |log| && Counted(ctx, log, i, log[i].signed.sender, digest) && log[i].signed.sender == who;
    GroupStays(ctx, log, i + 1, digest);
  }

  lemma {:induction false} GroupStays(ctx: Context, log: seq<Event>, n: nat, digest: Digest)
    requires n <= |log| && GroupIn(ctx, log[..n], digest).Some?
    ensures GroupIn(ctx, log, digest) == GroupIn(ctx, log[..n], digest)
  {
    if n < |log| {
      assert log[..|log| - 1][..n] == log[..n];
      GroupStays(ctx, log[..|log| - 1], n, digest);
    } else {
      assert log[..n] == log;
    }
  }

  /** A candidate of a group with these members is attested exactly when the minimum of them has voted or
      all of them have, so it can always be attested, however large the minimum is. */
  lemma AttestedByMinimumOrAll(
    ctx: Context, log: seq<Event>, digest: Digest, minimumBackingVotes: nat, group: GroupId, members: set<AuthorityId>)
    requires GroupIn(ctx, log, digest) == Some(group)
    requires forall who :: who in members <==> ctx.isMemberOf(who, group)
    requires ctx.groupSize(group) == Some(|members|)
    ensures
      var voters := Voters(ctx, log, digest);
      && voters <= members
      && (IsAttested(ctx, Run(ctx, log).table, digest, minimumBackingVotes) <==>
            minimumBackingVotes <= |voters| || voters == members)
  {
    var voters := Voters(ctx, log, digest);
    forall who | who in voters
      ensures who in members
    {
      VotersAreMembers(ctx, log, digest, who);
    }
    AttestedExactly(ctx, log, digest, minimumBackingVotes);
    if |members| <= |voters| {
      SetSizes.SameSize(voters, members);
    }
  }

  /** The later table has the group and every vote of the candidate that the earlier one has. */
  ghost predicate KeepsCandidate(before: TableState, after: TableState, digest: Digest) {
    && (digest in before.candidateVotes ==> GroupOf(after, digest) == GroupOf(before, digest))
    && |VotesOn(before, digest)| <= |VotesOn(after, digest)|
    && forall who :: who in VotesOn(before, digest) ==>
         who in VotesOn(after, digest) && VotesOn(after, digest)[who] == VotesOn(before, digest)[who]
  }

  lemma ImportKeepsVotes(ctx: Context, table: TableState, event: Event, digest: Digest)
    requires ProposalsAreKnown(table)
    ensures KeepsCandidate(table, Import(ctx, table, event.group, event.signed).0, digest)
  {
    ImportKeepsCandidates(ctx, table, event, digest);
    OpenedTable(ctx, table, event, digest);
  }

  lemma KeepsCandidateTransitive(a: TableState, b: TableState, c: TableState, digest: Digest)
    requires KeepsCandidate(a, b, digest) && KeepsCandidate(b, c, digest)
    ensures KeepsCandidate(a, c, digest)
  {
  }

  lemma NextImportKeepsVotes(ctx: Context, log: seq<Event>, event: Event, digest: Digest)
    ensures KeepsCandidate(Run(ctx, log).table, Run(ctx, log + [event]).table, digest)
  {
    assert (log + [event])[..|log|] == log;
    CandidatesReflected(ctx, log);
    ImportKeepsVotes(ctx, Run(ctx, log).table, event, digest);
  }

  /** Further imports change neither the group of a candidate nor a vote on it. */
  lemma {:induction false} VotesOnlyGrow(ctx: Context, log: seq<Event>, more: seq<Event>, digest: Digest)
    ensures KeepsCandidate(Run(ctx, log).table, Run(ctx, log + more).table, digest)
    decreases |more|
  {
    if more == [] {
      assert log + more == log;
    } else {
      var next := log + [more[0]];
      assert next + more[1..] == log + more;
      NextImportKeepsVotes(ctx, log, more[0], digest);
      VotesOnlyGrow(ctx, next, more[1..], digest);
      KeepsCandidateTransitive(Run(ctx, log).table, Run(ctx, next).table, Run(ctx, log + more).table, digest);
    }
  }

  lemma AttestedForGood(ctx: Context, log: seq<Event>, more: seq<Event>, digest: Digest, minimumBackingVotes: nat)
    requires IsAttested(ctx, Run(ctx, log).table, digest, minimumBackingVotes)
    ensures IsAttested(ctx, Run(ctx, log + more).table, digest, minimumBackingVotes)
  {
    VotesOnlyGrow(ctx, log, more, digest);
  }

  // ---------- Summaries

  function SummariesFor(summaries: seq<Summary>, digest: Digest): seq<Summary> {
    if summaries == [] then []
    else
      var n := |summaries| - 1;
      SummariesFor(summaries[..n], digest) + if summaries[n].candidate == digest then [summaries[n]] else []
  }

  lemma SummariesStep(summaries: seq<Summary>, summary: Summary, digest: Digest)
    ensures SummariesFor(summaries + [summary], digest) ==
            SummariesFor(summaries, digest) + if summary.candidate == digest then [summary] else []
  {
  }

  /** An import returns a summary exactly when it adds a vote, and the summary counts it. */
  lemma SummaryCountsVote(ctx: Context, table: TableState, event: Event, digest: Digest)
    requires ProposalsAreKnown(table)
    ensures
      var (after, summary) := Import(ctx, table, event.group, event.signed);
      if summary.Some? && summary.value.candidate == digest
      then && summary.value.validityVotes == |VotesOn(table, digest)| + 1 == |VotesOn(after, digest)|
           && GroupOf(after, digest) == Some(summary.value.groupId)
      else |VotesOn(after, digest)| == |VotesOn(table, digest)|
  {
    ImportCases(ctx, table, event);
    ImportKeepsCandidates(ctx, table, event, digest);
  }

  /** The summaries of a candidate number its votes one by one, up to the votes it has. */
  ghost predicate Numbers(summaries: seq<Summary>, votes: nat, group: Option<GroupId>) {
    && |summaries| == votes
    && forall k :: 0 <= k < |summaries| ==> summaries[k].validityVotes == k + 1 && group == Some(summaries[k].groupId)
  }

  lemma NumbersExtend(
    summaries: seq<Summary>, summary: Option<Summary>, digest: Digest,
    votes: nat, newVotes: nat, group: Option<GroupId>, newGroup: Option<GroupId>)
    requires Numbers(SummariesFor(summaries, digest), votes, group)
    requires group.Some? ==> newGroup == group
    requires if summary.Some? && summary.value.candidate == digest
             then summary.value.validityVotes == votes + 1 == newVotes && newGroup == Some(summary.value.groupId)
             else newVotes == votes
    ensures
      var after := if summary.Some? then summaries + [summary.value] else summaries;
      Numbers(SummariesFor(after, digest), newVotes, newGroup)
  {
    if summary.Some? {
      SummariesStep(summaries, summary.value, digest);
    }
  }

  /** So do the summaries of the run for the candidate. */
  ghost predicate SummariesNumber(ctx: Context, h: History, log: seq<Event>, digest: Digest) {
    Numbers(SummariesFor(h.summaries, digest), |VotesOn(h.table, digest)|, GroupIn(ctx, log, digest))
  }

  lemma SummariesNumberStep(ctx: Context, h: History, log: seq<Event>, event: Event, digest: Digest)
    requires ReflectsCandidates(ctx, h.table, log)
    requires SummariesNumber(ctx, h, log, digest)
    ensures SummariesNumber(ctx, Apply(ctx, h, event), log + [event], digest)
  {
    var (table, summary) := Import(ctx, h.table, event.group, event.signed);
    CandidatesStep(ctx, h.table, log, event);
    assert GroupOf(table, digest) == GroupIn(ctx, log + [event], digest);
    GroupStep(ctx, log, event, digest);
    SummaryCountsVote(ctx, h.table, event, digest);
    NumbersExtend(h.summaries, summary, digest, |VotesOn(h.table, digest)|, |VotesOn(table, digest)|,
                  GroupIn(ctx, log, digest), GroupIn(ctx, log + [event], digest));
  }

  lemma {:induction false} SummariesNumberTheVotes(ctx: Context, log: seq<Event>, digest: Digest)
    ensures SummariesNumber(ctx, Run(ctx, log), log, digest)
  {
    if log != [] {
      var n := |log| - 1;
      SummariesNumberTheVotes(ctx, log[..n], digest);
      CandidatesReflected(ctx, log[..n]);
      SummariesNumberStep(ctx, Run(ctx, log[..n]), log[..n], log[n], digest);
      assert log == log[..n] + [log[n]];
    }
  }

  lemma CandidatesReflected(ctx: Context, log: seq<Event>)
    ensures ReflectsCandidates(ctx, Run(ctx, log).table, log)
  {
    TableReflectsLog(ctx, log);
  }
}
