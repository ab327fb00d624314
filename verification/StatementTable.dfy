/** The statement table: it collects what authorities say about candidates and records
    misbehaviour (polkadot/statement-table/src/generic.rs). */
module StatementTable {
  import opened Wrappers

  type AuthorityId(==, !new)
  type Digest(==, !new)
  type GroupId(==, !new)
  type Signature(==, !new)
  type Candidate(==, !new)

  datatype Context = Context(
    digestOf: Candidate -> Digest,
    isMemberOf: (AuthorityId, GroupId) -> bool,
    groupSize: GroupId -> Option<nat>)

  datatype Statement = Seconded(candidate: Candidate) | Valid(digest: Digest)

  datatype SignedStatement = SignedStatement(statement: Statement, signature: Signature, sender: AuthorityId)

  datatype Misbehavior =
    | IssuedAndValidity(candidate: Candidate, issued: Signature, digest: Digest, valid: Signature)
    | UnauthorizedStatement(statement: SignedStatement)
    | DoubleSignSeconded(doubleCandidate: Candidate, first: Signature, second: Signature)
    | DoubleSignValidity(doubleDigest: Digest, first: Signature, second: Signature)

  datatype ValidityVote = Issued(signature: Signature) | Explicit(signature: Signature)

  datatype CandidateData = CandidateData(
    groupId: GroupId, candidate: Candidate, validityVotes: map<AuthorityId, ValidityVote>)

  datatype Summary = Summary(candidate: Digest, groupId: GroupId, validityVotes: nat)

  datatype TableState = TableState(
    authorityData: map<AuthorityId, seq<(Digest, Signature)>>,
    misbehavior: map<AuthorityId, seq<Misbehavior>>,
    candidateVotes: map<Digest, CandidateData>)

  function EmptyTable(): TableState {
    TableState(map[], map[], map[])
  }

  // ---------- What an import computes

  /** The misbehaviour of voting twice in different ways. */
  function DoubleVote(candidate: Candidate, digest: Digest, earlier: ValidityVote, later: ValidityVote): Misbehavior {
    match (earlier, later)
    case (Issued(a), Issued(b)) => DoubleSignSeconded(candidate, a, b)
    case (Explicit(a), Explicit(b)) => DoubleSignValidity(digest, a, b)
    case (Issued(issued), Explicit(valid)) => IssuedAndValidity(candidate, issued, digest, valid)
    case (Explicit(valid), Issued(issued)) => IssuedAndValidity(candidate, issued, digest, valid)
  }

  /** What a vote on a candidate is answered with: nothing, a summary, or a misbehaviour. */
  function VoteResult(ctx: Context, table: TableState, from: AuthorityId, digest: Digest, vote: ValidityVote)
    : Result<Option<Summary>, Misbehavior>
  {
    if digest !in table.candidateVotes then Ok(None)
    else
      var data := table.candidateVotes[digest];
      if !ctx.isMemberOf(from, data.groupId)
      then Err(UnauthorizedStatement(SignedStatement(Valid(digest), vote.signature, from)))
      else if from in data.validityVotes
      then
        if data.validityVotes[from] != vote
        then Err(DoubleVote(data.candidate, digest, data.validityVotes[from], vote))
        else Ok(None)
      else Ok(Some(Summary(digest, data.groupId, |data.validityVotes| + 1)))
  }

  function WithVote(table: TableState, from: AuthorityId, digest: Digest, vote: ValidityVote): TableState
    requires digest in table.candidateVotes
  {
    var data := table.candidateVotes[digest];
    table.(candidateVotes := table.candidateVotes[digest :=
      data.(validityVotes := data.validityVotes[from := vote])])
  }

  function AfterVote(ctx: Context, table: TableState, from: AuthorityId, digest: Digest, vote: ValidityVote)
    : TableState
  {
    var result := VoteResult(ctx, table, from, digest, vote);
    if result.Ok? && result.value.Some? then WithVote(table, from, digest, vote) else table
  }

  predicate HasProposed(table: TableState, authority: AuthorityId, digest: Digest) {
    authority in table.authorityData &&
    exists i :: 0 <= i < |table.authorityData[authority]| && table.authorityData[authority][i].0 == digest
  }

  function Proposals(table: TableState, authority: AuthorityId): seq<(Digest, Signature)> {
    if authority in table.authorityData then table.authorityData[authority] else []
  }

  /** The first proposal of a digest by an authority is noted, and opens the candidate. */
  function AfterProposal(
    ctx: Context, table: TableState, authority: AuthorityId, candidate: Candidate, signature: Signature, group: GroupId)
    : TableState
  {
    var digest := ctx.digestOf(candidate);
    if HasProposed(table, authority, digest) then table
    else table.(
      authorityData := table.authorityData[authority := Proposals(table, authority) + [(digest, signature)]],
      candidateVotes :=
        if digest in table.candidateVotes then table.candidateVotes
        else table.candidateVotes[digest := CandidateData(group, candidate, map[])])
  }

  function Flagged(table: TableState, authority: AuthorityId, misbehavior: Misbehavior): TableState {
    var recorded := if authority in table.misbehavior then table.misbehavior[authority] else [];
    table.(misbehavior := table.misbehavior[authority := recorded + [misbehavior]])
  }

  /** The table after an import, before a misbehaviour is recorded, and the answer. */
  function Imported(ctx: Context, table: TableState, group: GroupId, signed: SignedStatement)
    : (TableState, Result<Option<Summary>, Misbehavior>)
  {
    match signed.statement
    case Seconded(candidate) =>
      if !ctx.isMemberOf(signed.sender, group) then (table, Err(UnauthorizedStatement(signed)))
      else
        var proposed := AfterProposal(ctx, table, signed.sender, candidate, signed.signature, group);
        var digest, vote := ctx.digestOf(candidate), Issued(signed.signature);
        (AfterVote(ctx, proposed, signed.sender, digest, vote), VoteResult(ctx, proposed, signed.sender, digest, vote))
    case Valid(digest) =>
      var vote := Explicit(signed.signature);
      (AfterVote(ctx, table, signed.sender, digest, vote), VoteResult(ctx, table, signed.sender, digest, vote))
  }

  function Import(ctx: Context, table: TableState, group: GroupId, signed: SignedStatement)
    : (TableState, Option<Summary>)
  {
    var (after, result) := Imported(ctx, table, group, signed);
    match result
    case Ok(summary) => (after, summary)
    case Err(misbehavior) => (Flagged(after, signed.sender, misbehavior), None)
  }

  // ---------- Attestation

  const USIZE_MAX: nat := 0xFFFF_FFFF_FFFF_FFFF

  function Threshold(ctx: Context, group: GroupId, minimumBackingVotes: nat): nat {
    match ctx.groupSize(group)
    case None => USIZE_MAX
    case Some(len) => if len < minimumBackingVotes then len else minimumBackingVotes
  }

  /** The minimum has voted, or as many as the group has members. A group of unknown size is not known to
      have voted before the largest word is reached. */
  predicate EnoughVotes(ctx: Context, group: GroupId, minimumBackingVotes: nat, votes: nat) {
    match ctx.groupSize(group)
    case None => USIZE_MAX <= votes
    case Some(len) => minimumBackingVotes <= votes || len <= votes
  }

  lemma ThresholdIsEnough(ctx: Context, group: GroupId, minimumBackingVotes: nat, votes: nat)
    ensures Threshold(ctx, group, minimumBackingVotes) <= votes <==>
            EnoughVotes(ctx, group, minimumBackingVotes, votes)
  {
  }

  /** The candidate is there and has enough votes. */
  predicate IsAttested(ctx: Context, table: TableState, digest: Digest, minimumBackingVotes: nat) {
    && digest in table.candidateVotes
    && var data := table.candidateVotes[digest];
       EnoughVotes(ctx, data.groupId, minimumBackingVotes, |data.validityVotes|)
  }

  datatype Attestation = Implicit(signature: Signature) | ExplicitAttestation(signature: Signature)

  function AttestationOf(vote: ValidityVote): Attestation {
    match vote
    case Issued(s) => Implicit(s)
    case Explicit(s) => ExplicitAttestation(s)
  }

  datatype AttestedCandidate = AttestedCandidate(
    groupId: GroupId, candidate: Candidate, validityVotes: seq<(AuthorityId, Attestation)>)

  /** The attestation has the signature of the vote, and is implicit exactly when the vote seconded the
      candidate. */
  predicate Attests(attestation: Attestation, vote: ValidityVote) {
    attestation.signature == vote.signature && (attestation.Implicit? <==> vote.Issued?)
  }

  /** The list holds every vote once, in some order. */
  ghost predicate ListsVotes(list: seq<(AuthorityId, Attestation)>, votes: map<AuthorityId, ValidityVote>) {
    && |list| == |votes|
    && (forall i, j :: 0 <= i < j < |list| ==> list[i].0 != list[j].0)
    && (forall i :: 0 <= i < |list| ==> list[i].0 in votes && Attests(list[i].1, votes[list[i].0]))
    && (forall a :: a in votes ==> exists i :: 0 <= i < |list| && list[i].0 == a)
  }

  /** The full attestation of a candidate, if it has enough votes. */
  method Attested(data: CandidateData, threshold: nat) returns (r: Option<AttestedCandidate>)
    ensures r.Some? <==> threshold <= |data.validityVotes|
    ensures r.Some? ==>
              && r.value.groupId == data.groupId && r.value.candidate == data.candidate
              && ListsVotes(r.value.validityVotes, data.validityVotes)
  {
    if |data.validityVotes| < threshold {
      return None;
    }
    var votes := data.validityVotes;
    var list: seq<(AuthorityId, Attestation)> := [];
    var left := votes.Keys;
    while left != {}
      invariant left <= votes.Keys
      invariant |list| + |left| == |votes|
      invariant forall i, j :: 0 <= i < j < |list| ==> list[i].0 != list[j].0
      invariant forall i :: 0 <= i < |list| ==>
                  list[i].0 in votes && list[i].0 !in left && Attests(list[i].1, votes[list[i].0])
      invariant forall a :: a in votes && a !in left ==> exists i :: 0 <= i < |list| && list[i].0 == a
      decreases |left|
    {
      var a :| a in left;
      ghost var before := list;
      list := list + [(a, AttestationOf(votes[a]))];
      left := left - {a};
      forall b | b in votes && b !in left
        ensures exists i :: 0 <= i < |list| && list[i].0 == b
      {
        if b == a {
          assert list[|before|].0 == b;
        } else {
          var i :| 0 <= i < |before| && before[i].0 == b;
          assert list[i].0 == b;
        }
      }
    }
    return Some(AttestedCandidate(data.groupId, data.candidate, list));
  }

  // ---------- The table object

  class Table {
    var authorityData: map<AuthorityId, seq<(Digest, Signature)>>
    var detectedMisbehavior: map<AuthorityId, seq<Misbehavior>>
    var candidateVotes: map<Digest, CandidateData>

    ghost function View(): TableState
      reads this
    {
      TableState(authorityData, detectedMisbehavior, candidateVotes)
    }

    constructor ()
      ensures View() == EmptyTable()
    {
      authorityData, detectedMisbehavior, candidateVotes := map[], map[], map[];
    }

    /** Imports a signed statement; a misbehaviour is recorded under its signer. */
    method ImportStatement(ctx: Context, group: GroupId, signed: SignedStatement) returns (r: Option<Summary>)
      modifies this
      ensures (View(), r) == Import(ctx, old(View()), group, signed)
    {
      var result: Result<Option<Summary>, Misbehavior>;
      match signed.statement {
        case Seconded(candidate) =>
          result := ImportCandidate(ctx, signed.sender, candidate, signed.signature, group);
        case Valid(digest) =>
          result := Vote(ctx, signed.sender, digest, Explicit(signed.signature));
      }
      match result {
        case Ok(summary) =>
          return summary;
        case Err(misbehavior) =>
          var recorded := if signed.sender in detectedMisbehavior then detectedMisbehavior[signed.sender] else [];
          detectedMisbehavior := detectedMisbehavior[signed.sender := recorded + [misbehavior]];
          return None;
      }
    }

    method ImportCandidate(
      ctx: Context, authority: AuthorityId, candidate: Candidate, signature: Signature, group: GroupId)
      returns (r: Result<Option<Summary>, Misbehavior>)
      modifies this`authorityData, this`candidateVotes
      ensures (View(), r) ==
              Imported(ctx, old(View()), group, SignedStatement(Seconded(candidate), signature, authority))
    {
      if !ctx.isMemberOf(authority, group) {
        return Err(UnauthorizedStatement(SignedStatement(Seconded(candidate), signature, authority)));
      }
      var digest := ctx.digestOf(candidate);
      var newProposal := true;
      if authority in authorityData {
        var existing := authorityData[authority];
        if exists i :: 0 <= i < |existing| && existing[i].0 == digest {
          newProposal := false;
        } else {
          authorityData := authorityData[authority := existing + [(digest, signature)]];
        }
      } else {
        authorityData := authorityData[authority := [(digest, signature)]];
      }
      assert [] + [(digest, signature)] == [(digest, signature)];
      if newProposal && digest !in candidateVotes {
        candidateVotes := candidateVotes[digest := CandidateData(group, candidate, map[])];
      }
      r := Vote(ctx, authority, digest, Issued(signature));
    }

    method Vote(ctx: Context, from: AuthorityId, digest: Digest, vote: ValidityVote)
      returns (r: Result<Option<Summary>, Misbehavior>)
      modifies this`candidateVotes
      ensures r == VoteResult(ctx, old(View()), from, digest, vote)
      ensures View() == AfterVote(ctx, old(View()), from, digest, vote)
    {
      if digest !in candidateVotes {
        return Ok(None);
      }
      var votes := candidateVotes[digest];
      if !ctx.isMemberOf(from, votes.groupId) {
        return Err(UnauthorizedStatement(SignedStatement(Valid(digest), vote.signature, from)));
      }
      if from in votes.validityVotes {
        if votes.validityVotes[from] != vote {
          return Err(DoubleVote(votes.candidate, digest, votes.validityVotes[from], vote));
        }
        return Ok(None);
      }
      votes := votes.(validityVotes := votes.validityVotes[from := vote]);
      candidateVotes := candidateVotes[digest := votes];
      return Ok(Some(Summary(digest, votes.groupId, |votes.validityVotes|)));
    }

    /** The attested candidate for a digest, if it is there and has enough votes. */
    method GetAttestedCandidate(ctx: Context, digest: Digest, minimumBackingVotes: nat)
      returns (r: Option<AttestedCandidate>)
      ensures r.Some? <==> IsAttested(ctx, View(), digest, minimumBackingVotes)
      ensures r.Some? ==>
                && r.value.groupId == candidateVotes[digest].groupId
                && r.value.candidate == candidateVotes[digest].candidate
                && ListsVotes(r.value.validityVotes, candidateVotes[digest].validityVotes)
    {
      if digest !in candidateVotes {
        return None;
      }
      var data := candidateVotes[digest];
      ThresholdIsEnough(ctx, data.groupId, minimumBackingVotes, |data.validityVotes|);
      r := Attested(data, Threshold(ctx, data.groupId, minimumBackingVotes));
    }

    /** Takes all detected misbehaviour out of the table. `order` is the order, of its own choice, in
        which the hash map gives up its keys. */
    method DrainMisbehaviors(order: seq<AuthorityId>) returns (drained: DrainMisbehaviors)
      requires IsOrderOf(order, detectedMisbehavior)
      modifies this`detectedMisbehavior
      ensures View() == old(View()).(misbehavior := map[])
      ensures fresh(drained) && drained.inProgress.None? && drained.drain == Listing(order, old(detectedMisbehavior))
    {
      drained := new DrainMisbehaviors(Listing(order, detectedMisbehavior));
      detectedMisbehavior := map[];
    }
  }

  // ---------- Draining misbehaviour

  predicate IsOrderOf(order: seq<AuthorityId>, records: map<AuthorityId, seq<Misbehavior>>) {
    && (forall i, j :: 0 <= i < j < |order| ==> order[i] != order[j])
    && (forall i :: 0 <= i < |order| ==> order[i] in records)
    && (forall who :: who in records ==> who in order)
  }

  function Listing(order: seq<AuthorityId>, records: map<AuthorityId, seq<Misbehavior>>)
    : seq<(AuthorityId, seq<Misbehavior>)>
    requires forall i :: 0 <= i < |order| ==> order[i] in records
  {
    seq(|order|, i requires 0 <= i < |order| => (order[i], records[order[i]]))
  }

  function Reversed<T>(list: seq<T>): seq<T> {
    seq(|list|, i requires 0 <= i < |list| => list[|list| - 1 - i])
  }

  /** The records of one authority, the next one to give out at the end. */
  datatype MisbehaviorForAuthority = MisbehaviorForAuthority(id: AuthorityId, misbehaviors: seq<Misbehavior>)

  function Tagged(id: AuthorityId, list: seq<Misbehavior>): seq<(AuthorityId, Misbehavior)> {
    seq(|list|, i requires 0 <= i < |list| => (id, list[i]))
  }

  /** The records of the authorities in turn, up to the first authority that has none. */
  function UntilEmpty(drain: seq<(AuthorityId, seq<Misbehavior>)>): seq<(AuthorityId, Misbehavior)> {
    if drain == [] || drain[0].1 == [] then [] else Tagged(drain[0].0, drain[0].1) + UntilEmpty(drain[1..])
  }

  class DrainMisbehaviors {
    var drain: seq<(AuthorityId, seq<Misbehavior>)>
    var inProgress: Option<MisbehaviorForAuthority>

    constructor (drain: seq<(AuthorityId, seq<Misbehavior>)>)
      ensures this.drain == drain && inProgress.None?
    {
      this.drain, inProgress := drain, None;
    }

    ghost function Started(): seq<(AuthorityId, Misbehavior)>
      reads this
    {
      match inProgress
      case None => []
      case Some(records) => Tagged(records.id, Reversed(records.misbehaviors))
    }

    /** What is given out before the iterator ends. */
    ghost function Rest(): seq<(AuthorityId, Misbehavior)>
      reads this
    {
      Started() + UntilEmpty(drain)
    }

    /** The next record of the authority in progress. */
    method MaybeItem() returns (r: Option<(AuthorityId, Misbehavior)>)
      modifies this`inProgress
      ensures old(Started()) == [] ==> r.None? && Started() == [] && inProgress == old(inProgress)
      ensures old(Started()) != [] ==> r == Some(old(Started())[0]) && Started() == old(Started())[1..]
    {
      match inProgress {
        case None =>
          return None;
        case Some(records) =>
          var list := records.misbehaviors;
          if list == [] {
            return None;
          }
          var last := |list| - 1;
          assert Reversed(list)[1..] == Reversed(list[..last]);
          inProgress := Some(records.(misbehaviors := list[..last]));
          return Some((records.id, list[last]));
      }
    }

    /** Takes up the next authority, if there is one. */
    method Advance()
      modifies this
      ensures drain == if old(drain) == [] then [] else old(drain)[1..]
      ensures Started() == if old(drain) == [] then [] else Tagged(old(drain)[0].0, old(drain)[0].1)
    {
      if drain == [] {
        inProgress := None;
      } else {
        var (id, list) := drain[0];
        assert Reversed(Reversed(list)) == list;
        inProgress, drain := Some(MisbehaviorForAuthority(id, Reversed(list))), drain[1..];
      }
    }

    /** Gives out the first of the rest; there is no item exactly when the rest is empty, and then one
        authority, which has no records, is passed over. */
    method Next() returns (r: Option<(AuthorityId, Misbehavior)>)
      modifies this
      ensures r.None? <==> old(Rest()) == []
      ensures r.Some? ==> r == Some(old(Rest())[0]) && Rest() == old(Rest())[1..]
      ensures r.None? ==> Started() == [] && drain == if old(drain) == [] then [] else old(drain)[1..]
    {
      r := MaybeItem();
      if r.Some? {
        TailOfSum(old(Started()), UntilEmpty(drain));
      } else {
        Advance();
        TailOfSum(Started(), UntilEmpty(drain));
        assert [] + UntilEmpty(old(drain)) == UntilEmpty(old(drain));
        r := MaybeItem();
      }
    }
  }

  lemma TailOfSum<T>(a: seq<T>, b: seq<T>)
    ensures a != [] ==> (a + b)[0] == a[0] && (a + b)[1..] == a[1..] + b
  {
  }

  /** Takes items until the iterator has none. */
  method Collect(drained: DrainMisbehaviors) returns (items: seq<(AuthorityId, Misbehavior)>)
    modifies drained
    ensures items == old(drained.Rest())
  {
    ghost var whole := drained.Rest();
    items := [];
    var item := drained.Next();
    ghost var rest := drained.Rest();
    while item.Some?
      invariant rest == drained.Rest()
      invariant whole == items + if item.Some? then [item.value] + rest else []
      decreases |whole| - |items|
    {
      TakeOne(items, item.value, rest);
      items := items + [item.value];
      item := drained.Next();
      rest := drained.Rest();
    }
  }

  lemma TakeOne<T>(items: seq<T>, item: T, rest: seq<T>)
    ensures items + ([item] + rest) == items + [item] + if rest == [] then [] else [rest[0]] + rest[1..]
  {
    assert rest == if rest == [] then [] else [rest[0]] + rest[1..];
  }
}
