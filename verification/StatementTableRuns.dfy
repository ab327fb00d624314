/** What the statement table says about the statements that were imported into it, after every
    run of imports with a fixed context. */
module StatementTableRuns {
  import opened Wrappers
  import opened StatementTable

  datatype Event = Event(group: GroupId, signed: SignedStatement)

  /** The table and the summaries that the imports have returned. */
  datatype History = History(table: TableState, summaries: seq<Summary>)

  function Apply(ctx: Context, h: History, event: Event): History {
    var (table, summary) := Import(ctx, h.table, event.group, event.signed);
    History(table, if summary.Some? then h.summaries + [summary.value] else h.summaries)
  }

  function Run(ctx: Context, log: seq<Event>): History {
    if log == [] then History(EmptyTable(), [])
    else Apply(ctx, Run(ctx, log[..|log| - 1]), log[|log| - 1])
  }

  // ---------- What the log says, without a table

  function DigestOf(ctx: Context, event: Event): Digest {
    match event.signed.statement
    case Seconded(candidate) => ctx.digestOf(candidate)
    case Valid(digest) => digest
  }

  function VoteOf(event: Event): ValidityVote {
    if event.signed.statement.Seconded? then Issued(event.signed.signature) else Explicit(event.signed.signature)
  }

  /** A candidate is seconded for a group that the signer is not in. */
  predicate Refused(ctx: Context, event: Event) {
    event.signed.statement.Seconded? && !ctx.isMemberOf(event.signed.sender, event.group)
  }

  /** The event makes the candidate with this digest known. */
  predicate Introduces(ctx: Context, event: Event, digest: Digest) {
    event.signed.statement.Seconded? && DigestOf(ctx, event) == digest && !Refused(ctx, event)
  }

  /** The group of a candidate: that of the first event that makes it known. */
  function GroupIn(ctx: Context, log: seq<Event>, digest: Digest): Option<GroupId> {
    if log == [] then None
    else
      var last := log[|log| - 1];
      var earlier := GroupIn(ctx, log[..|log| - 1], digest);
      if earlier.Some? then earlier
      else if Introduces(ctx, last, digest) then Some(last.group)
      else None
  }

  predicate Member(ctx: Context, who: AuthorityId, group: Option<GroupId>) {
    group.Some? && ctx.isMemberOf(who, group.value)
  }

  /** Event `i` is a vote of `who` on a candidate that is known by then, in whose group `who` is. */
  predicate Counted(ctx: Context, log: seq<Event>, i: int, who: AuthorityId, digest: Digest) {
    && 0 <= i < |log|
    && log[i].signed.sender == who && DigestOf(ctx, log[i]) == digest
    && !Refused(ctx, log[i])
    && Member(ctx, who, GroupIn(ctx, log[..i + 1], digest))
  }

  /** Event `i` is a statement of `who` for a group, or about a candidate of a group, that `who` is not in. */
  predicate Unauthorized(ctx: Context, log: seq<Event>, i: int, who: AuthorityId) {
    && 0 <= i < |log|
    && log[i].signed.sender == who
    && (|| Refused(ctx, log[i])
        || (var group := GroupIn(ctx, log[..i + 1], DigestOf(ctx, log[i]));
            group.Some? && !ctx.isMemberOf(who, group.value)))
  }

  /** Two votes of `who` on one candidate differ in form or in signature. */
  predicate Conflict(ctx: Context, log: seq<Event>, i: int, j: int, who: AuthorityId, digest: Digest) {
    && Counted(ctx, log, i, who, digest)
    && Counted(ctx, log, j, who, digest)
    && VoteOf(log[i]) != VoteOf(log[j])
  }

  ghost predicate Offends(ctx: Context, log: seq<Event>, who: AuthorityId) {
    || (exists i :: Unauthorized(ctx, log, i, who))
    || (exists i, j, digest :: Conflict(ctx, log, i, j, who, digest))
  }

  /** `vote` is the first counted vote of `who` on the candidate. */
  ghost predicate FirstVote(ctx: Context, log: seq<Event>, who: AuthorityId, digest: Digest, vote: ValidityVote) {
    exists i ::
      && Counted(ctx, log, i, who, digest)
      && VoteOf(log[i]) == vote
      && forall k :: k < i ==> !Counted(ctx, log, k, who, digest)
  }

  /** Event `k` is a statement of `who` of this form and signature about the candidate. */
  predicate SaidAt(ctx: Context, log: seq<Event>, k: int, who: AuthorityId, digest: Digest, vote: ValidityVote) {
    0 <= k < |log| && log[k].signed.sender == who && DigestOf(ctx, log[k]) == digest && VoteOf(log[k]) == vote
  }

  ghost predicate Said(ctx: Context, log: seq<Event>, who: AuthorityId, digest: Digest, vote: ValidityVote) {
    exists k :: SaidAt(ctx, log, k, who, digest, vote)
  }

  /** `who` has made both statements, the first one first. */
  ghost predicate SaidInTurn(
    ctx: Context, log: seq<Event>, who: AuthorityId, digest: Digest, first: ValidityVote, second: ValidityVote)
  {
    exists i, j :: i < j && SaidAt(ctx, log, i, who, digest, first) && SaidAt(ctx, log, j, who, digest, second)
  }

  ghost predicate Imports(log: seq<Event>, signed: SignedStatement) {
    exists k :: 0 <= k < |log| && log[k].signed == signed
  }

  /** Event `i` seconds a candidate for a group of the signer, but the candidate has another group that
      the signer is not in; `signed` is the statement that is recorded for it. */
  predicate Mistaken(ctx: Context, log: seq<Event>, i: int, who: AuthorityId, signed: SignedStatement) {
    && Unauthorized(ctx, log, i, who) && !Refused(ctx, log[i]) && log[i].signed.statement.Seconded?
    && signed == SignedStatement(Valid(DigestOf(ctx, log[i])), log[i].signed.signature, who)
  }

  /** The misbehaviour is proved by statements that `who` has made. Only where a candidate has another
      group may a statement of validity stand for one that seconded the candidate. */
  ghost predicate Backed(ctx: Context, log: seq<Event>, who: AuthorityId, misbehavior: Misbehavior) {
    match misbehavior
    case IssuedAndValidity(candidate, issued, digest, valid) =>
      && ctx.digestOf(candidate) == digest
      && Said(ctx, log, who, digest, Issued(issued)) && Said(ctx, log, who, digest, Explicit(valid))
    case UnauthorizedStatement(signed) =>
      && signed.sender == who
      && (Imports(log, signed) || exists i :: Mistaken(ctx, log, i, who, signed))
    case DoubleSignSeconded(candidate, first, second) =>
      first != second && SaidInTurn(ctx, log, who, ctx.digestOf(candidate), Issued(first), Issued(second))
    case DoubleSignValidity(digest, first, second) =>
      first != second && SaidInTurn(ctx, log, who, digest, Explicit(first), Explicit(second))
  }

  // ---------- The table reflects the log

  function GroupOf(table: TableState, digest: Digest): Option<GroupId> {
    if digest in table.candidateVotes then Some(table.candidateVotes[digest].groupId) else None
  }

  function VotesOn(table: TableState, digest: Digest): map<AuthorityId, ValidityVote> {
    if digest in table.candidateVotes then table.candidateVotes[digest].validityVotes else map[]
  }

  ghost predicate ProposalsAreKnown(table: TableState) {
    forall who, d :: HasProposed(table, who, d) ==> d in table.candidateVotes
  }

  ghost predicate ReflectsCandidates(ctx: Context, table: TableState, log: seq<Event>) {
    && (forall d :: GroupOf(table, d) == GroupIn(ctx, log, d))
    && (forall d :: d in table.candidateVotes ==> ctx.digestOf(table.candidateVotes[d].candidate) == d)
    && ProposalsAreKnown(table)
  }

  /** `who` has a vote in the map exactly when one is counted, and then the first one. */
  ghost predicate VoteReflected(
    ctx: Context, votes: map<AuthorityId, ValidityVote>, log: seq<Event>, d: Digest, who: AuthorityId)
  {
    if who in votes then FirstVote(ctx, log, who, d, votes[who])
    else forall i :: !Counted(ctx, log, i, who, d)
  }

  ghost predicate ReflectsVotes(ctx: Context, table: TableState, log: seq<Event>) {
    forall d, who :: VoteReflected(ctx, VotesOn(table, d), log, d, who)
  }

  ghost predicate RecordsReflected(ctx: Context, table: TableState, log: seq<Event>, who: AuthorityId) {
    && (who in table.misbehavior <==> Offends(ctx, log, who))
    && (who in table.misbehavior ==>
          && table.misbehavior[who] != []
          && forall i :: 0 <= i < |table.misbehavior[who]| ==> Backed(ctx, log, who, table.misbehavior[who][i]))
  }

  ghost predicate ReflectsMisbehavior(ctx: Context, table: TableState, log: seq<Event>) {
    forall who :: RecordsReflected(ctx, table, log, who)
  }

  // ---------- One more event

  lemma GroupStep(ctx: Context, log: seq<Event>, event: Event, digest: Digest)
    ensures
      var earlier := GroupIn(ctx, log, digest);
      GroupIn(ctx, log + [event], digest) ==
      if earlier.Some? then earlier else if Introduces(ctx, event, digest) then Some(event.group) else None
  {
  }

  /** Earlier events keep their standing. */
  lemma StandingStays(ctx: Context, log: seq<Event>, event: Event, i: int, who: AuthorityId, digest: Digest)
    requires i != |log|
    ensures Counted(ctx, log + [event], i, who, digest) <==> Counted(ctx, log, i, who, digest)
    ensures Unauthorized(ctx, log + [event], i, who) <==> Unauthorized(ctx, log, i, who)
    ensures 0 <= i < |log| ==> (log + [event])[i] == log[i]
  {
    if 0 <= i < |log| {
      assert (log + [event])[..i + 1] == log[..i + 1];
    }
  }

  /** The standing of the new event depends on the group that its candidate then has. */
  lemma NewStanding(ctx: Context, log: seq<Event>, event: Event, who: AuthorityId, digest: Digest)
    ensures
      var after, group := log + [event], GroupIn(ctx, log + [event], digest);
      && after[|log|] == event
      && (Counted(ctx, after, |log|, who, digest) <==>
            && event.signed.sender == who && DigestOf(ctx, event) == digest && !Refused(ctx, event)
            && Member(ctx, who, group))
      && (DigestOf(ctx, event) == digest ==>
            (Unauthorized(ctx, after, |log|, who) <==>
               && event.signed.sender == who
               && (Refused(ctx, event) || (group.Some? && !ctx.isMemberOf(who, group.value)))))
  {
    assert (log + [event])[..|log| + 1] == log + [event];
  }

  lemma FirstVoteStays(
    ctx: Context, log: seq<Event>, event: Event, who: AuthorityId, digest: Digest, vote: ValidityVote)
    requires FirstVote(ctx, log, who, digest, vote)
    ensures FirstVote(ctx, log + [event], who, digest, vote)
  {
    var i :|
      && Counted(ctx, log, i, who, digest)
      && VoteOf(log[i]) == vote
      && forall k :: k < i ==> !Counted(ctx, log, k, who, digest);
    StandingStays(ctx, log, event, i, who, digest);
    forall k | k < i
      ensures !Counted(ctx, log + [event], k, who, digest)
    {
      StandingStays(ctx, log, event, k, who, digest);
    }
  }

  lemma SaidStays(ctx: Context, log: seq<Event>, event: Event, who: AuthorityId, digest: Digest, vote: ValidityVote)
    ensures Said(ctx, log, who, digest, vote) ==> Said(ctx, log + [event], who, digest, vote)
  {
    if k :| SaidAt(ctx, log, k, who, digest, vote) {
      assert SaidAt(ctx, log + [event], k, who, digest, vote);
    }
  }

  lemma SaidInTurnStays(
    ctx: Context, log: seq<Event>, event: Event, who: AuthorityId, digest: Digest,
    first: ValidityVote, second: ValidityVote)
    requires SaidInTurn(ctx, log, who, digest, first, second)
    ensures SaidInTurn(ctx, log + [event], who, digest, first, second)
  {
    var i, j :| i < j && SaidAt(ctx, log, i, who, digest, first) && SaidAt(ctx, log, j, who, digest, second);
    assert SaidAt(ctx, log + [event], i, who, digest, first) && SaidAt(ctx, log + [event], j, who, digest, second);
  }

  lemma UnauthorizedBackedStays(ctx: Context, log: seq<Event>, event: Event, who: AuthorityId, signed: SignedStatement)
    requires Backed(ctx, log, who, UnauthorizedStatement(signed))
    ensures Backed(ctx, log + [event], who, UnauthorizedStatement(signed))
  {
    var after := log + [event];
    if Imports(log, signed) {
      var k :| 0 <= k < |log| && log[k].signed == signed;
      assert after[k] == log[k];
    } else {
      var i :| Mistaken(ctx, log, i, who, signed);
      StandingStays(ctx, log, event, i, who, DigestOf(ctx, event));
      assert Mistaken(ctx, after, i, who, signed);
    }
  }

  lemma BackedStays(ctx: Context, log: seq<Event>, event: Event, who: AuthorityId, misbehavior: Misbehavior)
    requires Backed(ctx, log, who, misbehavior)
    ensures Backed(ctx, log + [event], who, misbehavior)
  {
    match misbehavior
    case IssuedAndValidity(_, issued, digest, valid) =>
      SaidStays(ctx, log, event, who, digest, Issued(issued));
      SaidStays(ctx, log, event, who, digest, Explicit(valid));
    case UnauthorizedStatement(signed) =>
      UnauthorizedBackedStays(ctx, log, event, who, signed);
    case DoubleSignSeconded(candidate, first, second) =>
      SaidInTurnStays(ctx, log, event, who, ctx.digestOf(candidate), Issued(first), Issued(second));
    case DoubleSignValidity(digest, first, second) =>
      SaidInTurnStays(ctx, log, event, who, digest, Explicit(first), Explicit(second));
  }

  // ---------- What one import does

  /** The table with the candidate of an event known, where the event makes it known. */
  function Opened(ctx: Context, table: TableState, event: Event): TableState {
    if event.signed.statement.Seconded? && !Refused(ctx, event)
    then
      var signed := event.signed;
      AfterProposal(ctx, table, signed.sender, signed.statement.candidate, signed.signature, event.group)
    else table
  }

  lemma OpenedKeepsProposals(ctx: Context, table: TableState, event: Event)
    requires ProposalsAreKnown(table)
    ensures ProposalsAreKnown(Opened(ctx, table, event))
  {
    var ready, digest, sender := Opened(ctx, table, event), DigestOf(ctx, event), event.signed.sender;
    forall who, d | HasProposed(ready, who, d)
      ensures d in ready.candidateVotes
    {
      if ready != table && who == sender && d != digest {
        var i :| 0 <= i < |ready.authorityData[who]| && ready.authorityData[who][i].0 == d;
        assert Proposals(table, who)[i].0 == d;
        assert HasProposed(table, who, d);
      } else if ready == table || who != sender {
        assert HasProposed(table, who, d);
      }
    }
  }

  /** Opening adds the candidate of the event, and no vote. */
  lemma OpenedTable(ctx: Context, table: TableState, event: Event, d: Digest)
    requires ProposalsAreKnown(table)
    ensures
      var ready := Opened(ctx, table, event);
      && ready.misbehavior == table.misbehavior
      && VotesOn(ready, d) == VotesOn(table, d)
      && (d in table.candidateVotes ==> d in ready.candidateVotes && ready.candidateVotes[d] == table.candidateVotes[d])
      && (d !in table.candidateVotes && !Introduces(ctx, event, d) ==> d !in ready.candidateVotes)
      && (d !in table.candidateVotes && Introduces(ctx, event, d) ==>
            && d in ready.candidateVotes
            && ready.candidateVotes[d] == CandidateData(event.group, event.signed.statement.candidate, map[]))
  {
  }

  /** The import records a statement that its signer was not entitled to. */
  predicate Unentitled(ctx: Context, table: TableState, event: Event) {
    var group := GroupOf(Opened(ctx, table, event), DigestOf(ctx, event));
    Refused(ctx, event) || (group.Some? && !ctx.isMemberOf(event.signed.sender, group.value))
  }

  /** The vote counts: the candidate is known, or becomes known with it, and the signer is in its group. */
  predicate Counts(ctx: Context, table: TableState, event: Event) {
    !Refused(ctx, event) && Member(ctx, event.signed.sender, GroupOf(Opened(ctx, table, event), DigestOf(ctx, event)))
  }

  /** What is recorded for a statement that the signer was not entitled to. */
  function UnentitledRecord(ctx: Context, event: Event): Misbehavior {
    UnauthorizedStatement(
      if Refused(ctx, event) then event.signed
      else SignedStatement(Valid(DigestOf(ctx, event)), event.signed.signature, event.signed.sender))
  }

  /** An import flags an unauthorized statement, ignores a vote on an unknown candidate, and
      otherwise notes the first vote, ignores its repetition and flags a different one. */
  lemma ImportCases(ctx: Context, table: TableState, event: Event)
    requires ProposalsAreKnown(table)
    ensures
      var sender, digest, vote := event.signed.sender, DigestOf(ctx, event), VoteOf(event);
      var ready, votes := Opened(ctx, table, event), VotesOn(table, digest);
      var (after, summary) := Import(ctx, table, event.group, event.signed);
      if Unentitled(ctx, table, event)
      then after == Flagged(ready, sender, UnentitledRecord(ctx, event)) && summary.None?
      else if !Counts(ctx, table, event) then after == ready && summary.None?
      else
        && digest in ready.candidateVotes
        && if sender !in votes
           then && after == WithVote(ready, sender, digest, vote)
                && summary == Some(Summary(digest, ready.candidateVotes[digest].groupId, |votes| + 1))
           else if votes[sender] == vote then after == ready && summary.None?
           else
             var candidate := ready.candidateVotes[digest].candidate;
             && after == Flagged(ready, sender, DoubleVote(candidate, digest, votes[sender], vote))
             && summary.None?
  {
    OpenedTable(ctx, table, event, DigestOf(ctx, event));
  }

  // ---------- The table keeps reflecting the log

  /** The import changes no candidate after opening it, but for one vote. */
  lemma ImportKeepsCandidates(ctx: Context, table: TableState, event: Event, d: Digest)
    requires ProposalsAreKnown(table)
    ensures
      var ready, after := Opened(ctx, table, event), Import(ctx, table, event.group, event.signed).0;
      && after.authorityData == ready.authorityData
      && GroupOf(after, d) == GroupOf(ready, d)
      && (d in after.candidateVotes ==> after.candidateVotes[d].candidate == ready.candidateVotes[d].candidate)
      && VotesOn(after, d) ==
         if DigestOf(ctx, event) == d && Counts(ctx, table, event) && event.signed.sender !in VotesOn(table, d)
         then VotesOn(table, d)[event.signed.sender := VoteOf(event)]
         else VotesOn(table, d)
  {
    ImportCases(ctx, table, event);
    OpenedTable(ctx, table, event, d);
  }

  lemma CandidatesStep(ctx: Context, table: TableState, log: seq<Event>, event: Event)
    requires ReflectsCandidates(ctx, table, log)
    ensures ReflectsCandidates(ctx, Import(ctx, table, event.group, event.signed).0, log + [event])
    ensures forall d :: GroupOf(Opened(ctx, table, event), d) == GroupIn(ctx, log + [event], d)
  {
    var ready, after := Opened(ctx, table, event), Import(ctx, table, event.group, event.signed).0;
    OpenedKeepsProposals(ctx, table, event);
    forall d
      ensures GroupOf(ready, d) == GroupIn(ctx, log + [event], d) && GroupOf(after, d) == GroupOf(ready, d)
      ensures d in after.candidateVotes ==> ctx.digestOf(after.candidateVotes[d].candidate) == d
    {
      assert GroupOf(table, d) == GroupIn(ctx, log, d);
      GroupStep(ctx, log, event, d);
      OpenedTable(ctx, table, event, d);
      ImportKeepsCandidates(ctx, table, event, d);
    }
    forall who, d | HasProposed(after, who, d)
      ensures d in after.candidateVotes
    {
      ImportKeepsCandidates(ctx, table, event, d);
      assert HasProposed(ready, who, d);
      assert GroupOf(after, d) == GroupOf(ready, d);
    }
  }

  /** A vote of somebody else, or on another candidate, leaves what is reflected alone. */
  lemma OtherVoteStays(
    ctx: Context, votes: map<AuthorityId, ValidityVote>, log: seq<Event>, event: Event, d: Digest, who: AuthorityId)
    requires VoteReflected(ctx, votes, log, d, who)
    requires !Counted(ctx, log + [event], |log|, who, d) || who in votes
    ensures VoteReflected(ctx, votes, log + [event], d, who)
  {
    if who in votes {
      FirstVoteStays(ctx, log, event, who, d, votes[who]);
    } else {
      forall i
        ensures !Counted(ctx, log + [event], i, who, d)
      {
        if i != |log| {
          StandingStays(ctx, log, event, i, who, d);
        }
      }
    }
  }

  /** The first counted vote is the one that is noted. */
  lemma NewVoteIsFirst(ctx: Context, log: seq<Event>, event: Event, d: Digest, who: AuthorityId)
    requires forall i :: !Counted(ctx, log, i, who, d)
    requires Counted(ctx, log + [event], |log|, who, d)
    ensures FirstVote(ctx, log + [event], who, d, VoteOf(event))
  {
    assert (log + [event])[|log|] == event;
    forall k | k < |log|
      ensures !Counted(ctx, log + [event], k, who, d)
    {
      StandingStays(ctx, log, event, k, who, d);
    }
  }

  lemma VotesStep(ctx: Context, table: TableState, log: seq<Event>, event: Event)
    requires ReflectsCandidates(ctx, table, log) && ReflectsVotes(ctx, table, log)
    ensures ReflectsVotes(ctx, Import(ctx, table, event.group, event.signed).0, log + [event])
  {
    var after := Import(ctx, table, event.group, event.signed).0;
    CandidatesStep(ctx, table, log, event);
    forall d, who
      ensures VoteReflected(ctx, VotesOn(after, d), log + [event], d, who)
    {
      var votes := VotesOn(table, d);
      assert VoteReflected(ctx, votes, log, d, who);
      ImportKeepsCandidates(ctx, table, event, d);
      NewStanding(ctx, log, event, who, d);
      if Counted(ctx, log + [event], |log|, who, d) && who !in votes {
        NewVoteIsFirst(ctx, log, event, d, who);
      } else {
        OtherVoteStays(ctx, votes, log, event, d, who);
      }
    }
  }

  // ---------- Misbehaviour is recorded exactly for the offenders

  lemma OffendsStays(ctx: Context, log: seq<Event>, event: Event, who: AuthorityId)
    requires Offends(ctx, log, who)
    ensures Offends(ctx, log + [event], who)
  {
    if i :| Unauthorized(ctx, log, i, who) {
      StandingStays(ctx, log, event, i, who, DigestOf(ctx, event));
    } else {
      var i, j, d :| Conflict(ctx, log, i, j, who, d);
      StandingStays(ctx, log, event, i, who, d);
      StandingStays(ctx, log, event, j, who, d);
      assert Conflict(ctx, log + [event], i, j, who, d);
    }
  }

  /** The vote of event `i` is on the candidate of the new event, and differs from it. */
  predicate DiffersFrom(ctx: Context, log: seq<Event>, event: Event, i: int, who: AuthorityId) {
    Counted(ctx, log, i, who, DigestOf(ctx, event)) && VoteOf(log[i]) != VoteOf(event)
  }

  /** A new offence is an unauthorized event or a vote that differs from an earlier one. */
  lemma NewOffence(ctx: Context, log: seq<Event>, event: Event, who: AuthorityId)
    requires Offends(ctx, log + [event], who) && !Offends(ctx, log, who)
    ensures
      || Unauthorized(ctx, log + [event], |log|, who)
      || (&& Counted(ctx, log + [event], |log|, who, DigestOf(ctx, event))
          && exists i :: DiffersFrom(ctx, log, event, i, who))
  {
    var after, n, digest := log + [event], |log|, DigestOf(ctx, event);
    assert after[n] == event;
    if i :| Unauthorized(ctx, after, i, who) {
      if i != n {
        StandingStays(ctx, log, event, i, who, digest);
      }
    } else {
      var i, j, d :| Conflict(ctx, after, i, j, who, d);
      if i != n {
        StandingStays(ctx, log, event, i, who, d);
      }
      if j != n {
        StandingStays(ctx, log, event, j, who, d);
      }
      if i != n && j != n {
        assert Conflict(ctx, log, i, j, who, d);
      } else if i != n {
        assert DiffersFrom(ctx, log, event, i, who);
      } else {
        assert DiffersFrom(ctx, log, event, j, who);
      }
    }
  }

  /** The signer was not entitled to the statement, or has voted differently before. */
  predicate IsOffence(ctx: Context, table: TableState, event: Event) {
    var sender, votes := event.signed.sender, VotesOn(table, DigestOf(ctx, event));
    || Unentitled(ctx, table, event)
    || (Counts(ctx, table, event) && sender in votes && votes[sender] != VoteOf(event))
  }

  lemma OffenceOffends(ctx: Context, table: TableState, log: seq<Event>, event: Event)
    requires ReflectsCandidates(ctx, table, log) && ReflectsVotes(ctx, table, log)
    requires IsOffence(ctx, table, event)
    ensures Offends(ctx, log + [event], event.signed.sender)
  {
    var who, d, n := event.signed.sender, DigestOf(ctx, event), |log|;
    CandidatesStep(ctx, table, log, event);
    NewStanding(ctx, log, event, who, d);
    if !Unentitled(ctx, table, event) {
      var votes := VotesOn(table, d);
      assert VoteReflected(ctx, votes, log, d, who);
      var i :| Counted(ctx, log, i, who, d) && VoteOf(log[i]) == votes[who];
      StandingStays(ctx, log, event, i, who, d);
      assert Conflict(ctx, log + [event], i, n, who, d);
    }
  }

  lemma NoOffenceNoChange(ctx: Context, table: TableState, log: seq<Event>, event: Event, who: AuthorityId)
    requires ReflectsCandidates(ctx, table, log) && ReflectsVotes(ctx, table, log)
    requires who != event.signed.sender || !IsOffence(ctx, table, event)
    requires Offends(ctx, log + [event], who)
    ensures Offends(ctx, log, who)
  {
    if !Offends(ctx, log, who) {
      var d := DigestOf(ctx, event);
      NewOffence(ctx, log, event, who);
      CandidatesStep(ctx, table, log, event);
      NewStanding(ctx, log, event, who, d);
      var i :| DiffersFrom(ctx, log, event, i, who);
      var votes := VotesOn(table, d);
      assert VoteReflected(ctx, votes, log, d, who);
      var first :| Counted(ctx, log, first, who, d) && VoteOf(log[first]) == votes[who];
      assert Conflict(ctx, log, first, i, who, d);
    }
  }

  lemma SaidNow(ctx: Context, log: seq<Event>, event: Event)
    ensures SaidAt(ctx, log + [event], |log|, event.signed.sender, DigestOf(ctx, event), VoteOf(event))
    ensures Said(ctx, log + [event], event.signed.sender, DigestOf(ctx, event), VoteOf(event))
    ensures Imports(log + [event], event.signed)
  {
    assert SaidAt(ctx, log + [event], |log|, event.signed.sender, DigestOf(ctx, event), VoteOf(event));
    assert (log + [event])[|log|] == event;
  }

  /** Two different votes on a candidate are backed as the misbehaviour that the table makes of them. */
  lemma DoubleVoteBacked(ctx: Context, log: seq<Event>, event: Event, candidate: Candidate, earlier: ValidityVote)
    requires ctx.digestOf(candidate) == DigestOf(ctx, event)
    requires FirstVote(ctx, log, event.signed.sender, DigestOf(ctx, event), earlier)
    requires earlier != VoteOf(event)
    ensures Backed(ctx, log + [event], event.signed.sender,
                   DoubleVote(candidate, DigestOf(ctx, event), earlier, VoteOf(event)))
  {
    var who, d := event.signed.sender, DigestOf(ctx, event);
    var i :| Counted(ctx, log, i, who, d) && VoteOf(log[i]) == earlier;
    SaidNow(ctx, log, event);
    assert SaidAt(ctx, log + [event], i, who, d, earlier);
    assert SaidInTurn(ctx, log + [event], who, d, earlier, VoteOf(event));
  }

  lemma UnentitledBacked(ctx: Context, table: TableState, log: seq<Event>, event: Event)
    requires ReflectsCandidates(ctx, table, log)
    requires Unentitled(ctx, table, event)
    ensures Backed(ctx, log + [event], event.signed.sender, UnentitledRecord(ctx, event))
  {
    var who, d := event.signed.sender, DigestOf(ctx, event);
    SaidNow(ctx, log, event);
    if Introduces(ctx, event, d) {
      CandidatesStep(ctx, table, log, event);
      assert GroupOf(Opened(ctx, table, event), d) == GroupIn(ctx, log + [event], d);
      NewStanding(ctx, log, event, who, d);
      assert Mistaken(ctx, log + [event], |log|, who, UnentitledRecord(ctx, event).statement);
    } else if !Refused(ctx, event) {
      assert UnentitledRecord(ctx, event) == UnauthorizedStatement(event.signed);
    }
  }

  /** An import records one misbehaviour of the signer for an offence, and nothing otherwise. */
  lemma RecordStep(ctx: Context, table: TableState, log: seq<Event>, event: Event)
    requires ReflectsCandidates(ctx, table, log) && ReflectsVotes(ctx, table, log)
    ensures
      var sender, after := event.signed.sender, Import(ctx, table, event.group, event.signed).0;
      if IsOffence(ctx, table, event)
      then exists m ::
        && after.misbehavior == Flagged(table, sender, m).misbehavior
        && Backed(ctx, log + [event], sender, m)
      else after.misbehavior == table.misbehavior
  {
    var sender, d, after := event.signed.sender, DigestOf(ctx, event), Import(ctx, table, event.group, event.signed).0;
    var ready := Opened(ctx, table, event);
    ImportCases(ctx, table, event);
    OpenedTable(ctx, table, event, d);
    if Unentitled(ctx, table, event) {
      UnentitledBacked(ctx, table, log, event);
      assert after.misbehavior == Flagged(table, sender, UnentitledRecord(ctx, event)).misbehavior;
    } else if IsOffence(ctx, table, event) {
      var candidate, votes := ready.candidateVotes[d].candidate, VotesOn(table, d);
      assert VoteReflected(ctx, votes, log, d, sender);
      DoubleVoteBacked(ctx, log, event, candidate, votes[sender]);
      var record := DoubleVote(candidate, d, votes[sender], VoteOf(event));
      assert after.misbehavior == Flagged(table, sender, record).misbehavior;
    }
  }

  lemma MisbehaviorStep(ctx: Context, table: TableState, log: seq<Event>, event: Event)
    requires ReflectsCandidates(ctx, table, log) && ReflectsVotes(ctx, table, log)
    requires ReflectsMisbehavior(ctx, table, log)
    ensures ReflectsMisbehavior(ctx, Import(ctx, table, event.group, event.signed).0, log + [event])
  {
    var sender, after := event.signed.sender, Import(ctx, table, event.group, event.signed).0;
    RecordStep(ctx, table, log, event);
    if IsOffence(ctx, table, event) {
      OffenceOffends(ctx, table, log, event);
    }
    forall who
      ensures RecordsReflected(ctx, after, log + [event], who)
    {
      assert RecordsReflected(ctx, table, log, who);
      forall m | Backed(ctx, log, who, m)
        ensures Backed(ctx, log + [event], who, m)
      {
        BackedStays(ctx, log, event, who, m);
      }
      if Offends(ctx, log, who) {
        OffendsStays(ctx, log, event, who);
      } else if Offends(ctx, log + [event], who) && (who != sender || !IsOffence(ctx, table, event)) {
        NoOffenceNoChange(ctx, table, log, event, who);
      }
    }
  }
}
