/** Draining the statement table gives out all recorded misbehaviour
    (polkadot/statement-table/src/generic.rs, polkadot/node/core/backing/src/lib.rs). */
module MisbehaviorDrain {
  import opened StatementTable
  import opened StatementTableRuns
  import opened StatementTableTheorems

  type Drain = seq<(AuthorityId, seq<Misbehavior>)>

  /** The records of one authority among the items, in their order. */
  function RecordsOf(items: seq<(AuthorityId, Misbehavior)>, who: AuthorityId): seq<Misbehavior> {
    if items == [] then []
    else (if items[0].0 == who then [items[0].1] else []) + RecordsOf(items[1..], who)
  }

  lemma Associative<T>(a: seq<T>, b: seq<T>, c: seq<T>)
    ensures a + b + c == a + (b + c)
  {
  }

  lemma {:induction false} RecordsOfSum(
    a: seq<(AuthorityId, Misbehavior)>, b: seq<(AuthorityId, Misbehavior)>, who: AuthorityId)
    ensures RecordsOf(a + b, who) == RecordsOf(a, who) + RecordsOf(b, who)
  {
    if a == [] {
      assert a + b == b;
    } else {
      var first := if a[0].0 == who then [a[0].1] else [];
      assert (a + b)[1..] == a[1..] + b;
      RecordsOfSum(a[1..], b, who);
      Associative(first, RecordsOf(a[1..], who), RecordsOf(b, who));
    }
  }

  lemma {:induction false} RecordsOfTagged(id: AuthorityId, list: seq<Misbehavior>, who: AuthorityId)
    ensures RecordsOf(Tagged(id, list), who) == if id == who then list else []
  {
    if list != [] {
      assert Tagged(id, list)[1..] == Tagged(id, list[1..]);
      RecordsOfTagged(id, list[1..], who);
    }
  }

  // ---------- When nothing is left behind

  /** All records of all authorities. */
  function Everything(drain: Drain): seq<(AuthorityId, Misbehavior)> {
    if drain == [] then [] else Tagged(drain[0].0, drain[0].1) + Everything(drain[1..])
  }

  /** An authority without records comes before one with records. */
  predicate HasGap(drain: Drain) {
    exists i, j :: 0 <= i < j < |drain| && drain[i].1 == [] && drain[j].1 != []
  }

  lemma {:induction false} NothingToGive(drain: Drain)
    ensures Everything(drain) == [] <==> forall j :: 0 <= j < |drain| ==> drain[j].1 == []
  {
    if drain != [] {
      NothingToGive(drain[1..]);
      assert forall j :: 0 < j < |drain| ==> drain[j] == drain[1..][j - 1];
      assert |Tagged(drain[0].0, drain[0].1)| == |drain[0].1|;
    }
  }

  /** Iteration ends early exactly when an authority without records comes before one with records. */
  lemma {:induction false} EndsEarlyExactlyAtGap(drain: Drain)
    ensures UntilEmpty(drain) == Everything(drain) <==> !HasGap(drain)
  {
    if drain != [] {
      var (id, list) := drain[0];
      var rest := drain[1..];
      assert forall j :: 0 < j < |drain| ==> drain[j] == rest[j - 1];
      if list == [] {
        NothingToGive(drain);
        if Everything(drain) != [] {
          var j :| 0 <= j < |drain| && drain[j].1 != [];
          assert drain[0].1 == [];
        }
      } else {
        EndsEarlyExactlyAtGap(rest);
        GapStep(drain);
        SamePrefix(Tagged(id, list), UntilEmpty(rest), Everything(rest));
      }
    }
  }

  lemma GapStep(drain: Drain)
    requires drain != [] && drain[0].1 != []
    ensures HasGap(drain) <==> HasGap(drain[1..])
  {
  }

  lemma SamePrefix<T>(a: seq<T>, b: seq<T>, c: seq<T>)
    ensures a + b == a + c <==> b == c
  {
    if a + b == a + c {
      assert b == (a + b)[|a|..] == (a + c)[|a|..] == c;
    }
  }

  // ---------- What is given out, by authority

  /** In any order of the authorities, everything holds the records of each as they were recorded. */
  lemma {:induction false} EverythingOf(
    order: seq<AuthorityId>, records: map<AuthorityId, seq<Misbehavior>>, who: AuthorityId)
    requires forall i, j :: 0 <= i < j < |order| ==> order[i] != order[j]
    requires forall i :: 0 <= i < |order| ==> order[i] in records
    ensures RecordsOf(Everything(Listing(order, records)), who) == if who in order then records[who] else []
  {
    if order != [] {
      var drain := Listing(order, records);
      assert drain[1..] == Listing(order[1..], records);
      EverythingOf(order[1..], records, who);
      RecordsOfSum(Tagged(drain[0].0, drain[0].1), Everything(drain[1..]), who);
      RecordsOfTagged(drain[0].0, drain[0].1, who);
      assert who in order <==> who == order[0] || who in order[1..];
    }
  }

  // ---------- Runs with drains

  datatype Step = ImportStep(event: Event) | DrainStep

  function ApplyStep(ctx: Context, table: TableState, step: Step): TableState {
    match step
    case ImportStep(event) => Import(ctx, table, event.group, event.signed).0
    case DrainStep => table.(misbehavior := map[])
  }

  function RunSteps(ctx: Context, steps: seq<Step>): TableState {
    if steps == [] then EmptyTable()
    else ApplyStep(ctx, RunSteps(ctx, steps[..|steps| - 1]), steps[|steps| - 1])
  }

  ghost predicate NoEmptyRecords(table: TableState) {
    forall who :: who in table.misbehavior ==> table.misbehavior[who] != []
  }

  lemma StepKeepsRecords(ctx: Context, table: TableState, step: Step)
    requires NoEmptyRecords(table)
    ensures NoEmptyRecords(ApplyStep(ctx, table, step))
  {
  }

  lemma {:induction false} NoEmptyRecordsEver(ctx: Context, steps: seq<Step>)
    ensures NoEmptyRecords(RunSteps(ctx, steps))
  {
    if steps != [] {
      var n := |steps| - 1;
      NoEmptyRecordsEver(ctx, steps[..n]);
      StepKeepsRecords(ctx, RunSteps(ctx, steps[..n]), steps[n]);
    }
  }

  /** Draining a table after any run of imports and drains gives out exactly what is recorded, each
      record once and those of one authority in the order of recording. */
  lemma DrainingGivesOutEverything(ctx: Context, steps: seq<Step>, order: seq<AuthorityId>, who: AuthorityId)
    requires IsOrderOf(order, RunSteps(ctx, steps).misbehavior)
    ensures
      var records := RunSteps(ctx, steps).misbehavior;
      var items := UntilEmpty(Listing(order, records));
      && items == Everything(Listing(order, records))
      && RecordsOf(items, who) == if who in records then records[who] else []
  {
    var records := RunSteps(ctx, steps).misbehavior;
    NoEmptyRecordsEver(ctx, steps);
    EndsEarlyExactlyAtGap(Listing(order, records));
    EverythingOf(order, records, who);
  }

  // ---------- Imports since the last drain

  /** The statements that were imported. */
  function EventsOf(steps: seq<Step>): seq<Event> {
    if steps == [] then []
    else
      var last := steps[|steps| - 1];
      EventsOf(steps[..|steps| - 1]) + if last.ImportStep? then [last.event] else []
  }

  /** Those of them that were imported before the latest drain. */
  function DrainedEvents(steps: seq<Step>): seq<Event> {
    if steps == [] then []
    else if steps[|steps| - 1].DrainStep? then EventsOf(steps)
    else DrainedEvents(steps[..|steps| - 1])
  }

  predicate SameVotes(a: TableState, b: TableState) {
    a.authorityData == b.authorityData && a.candidateVotes == b.candidateVotes
  }

  /** What an import adds to the records of an authority. */
  function Added(ctx: Context, table: TableState, event: Event, who: AuthorityId): seq<Misbehavior> {
    var result := Imported(ctx, table, event.group, event.signed).1;
    if result.Err? && event.signed.sender == who then [result.error] else []
  }

  lemma ImportAdds(ctx: Context, table: TableState, event: Event, who: AuthorityId)
    ensures RecordsFor(Import(ctx, table, event.group, event.signed).0, who) ==
            RecordsFor(table, who) + Added(ctx, table, event, who)
  {
    assert Imported(ctx, table, event.group, event.signed).0.misbehavior == table.misbehavior;
  }

  lemma VoteIgnoresRecords(
    ctx: Context, a: TableState, b: TableState, from: AuthorityId, digest: Digest, vote: ValidityVote)
    requires SameVotes(a, b)
    ensures VoteResult(ctx, a, from, digest, vote) == VoteResult(ctx, b, from, digest, vote)
    ensures SameVotes(AfterVote(ctx, a, from, digest, vote), AfterVote(ctx, b, from, digest, vote))
  {
  }

  lemma ProposalIgnoresRecords(
    ctx: Context, a: TableState, b: TableState,
    who: AuthorityId, candidate: Candidate, signature: Signature, group: GroupId)
    requires SameVotes(a, b)
    ensures SameVotes(AfterProposal(ctx, a, who, candidate, signature, group),
                      AfterProposal(ctx, b, who, candidate, signature, group))
  {
    assert HasProposed(a, who, ctx.digestOf(candidate)) == HasProposed(b, who, ctx.digestOf(candidate));
  }

  lemma AnswerIgnoresRecords(ctx: Context, a: TableState, b: TableState, event: Event)
    requires SameVotes(a, b)
    ensures
      var (a', inA) := Imported(ctx, a, event.group, event.signed);
      var (b', inB) := Imported(ctx, b, event.group, event.signed);
      SameVotes(a', b') && inA == inB
  {
    var sender, signature := event.signed.sender, event.signed.signature;
    match event.signed.statement
    case Seconded(candidate) =>
      ProposalIgnoresRecords(ctx, a, b, sender, candidate, signature, event.group);
      VoteIgnoresRecords(
        ctx, AfterProposal(ctx, a, sender, candidate, signature, event.group),
        AfterProposal(ctx, b, sender, candidate, signature, event.group),
        sender, ctx.digestOf(candidate), Issued(signature));
    case Valid(digest) =>
      VoteIgnoresRecords(ctx, a, b, sender, digest, Explicit(signature));
  }

  /** What an import does to votes and adds to the records does not depend on the records. */
  lemma ImportIgnoresRecords(ctx: Context, a: TableState, b: TableState, event: Event, who: AuthorityId)
    requires SameVotes(a, b)
    ensures SameVotes(Import(ctx, a, event.group, event.signed).0, Import(ctx, b, event.group, event.signed).0)
    ensures Added(ctx, a, event, who) == Added(ctx, b, event, who)
  {
    AnswerIgnoresRecords(ctx, a, b, event);
  }

  /** The table has the votes of all imports, and the records that were added since the latest drain. */
  lemma {:induction false} RecordsSinceDrain(ctx: Context, steps: seq<Step>, who: AuthorityId)
    ensures
      var table, whole := RunSteps(ctx, steps), Run(ctx, EventsOf(steps)).table;
      && SameVotes(table, whole)
      && RecordsFor(whole, who) == RecordsFor(Run(ctx, DrainedEvents(steps)).table, who) + RecordsFor(table, who)
  {
    if steps != [] {
      var before, last := steps[..|steps| - 1], steps[|steps| - 1];
      RecordsSinceDrain(ctx, before, who);
      match last
      case ImportStep(event) =>
        var events := EventsOf(before);
        assert EventsOf(steps)[..|events|] == events;
        var table, whole := RunSteps(ctx, before), Run(ctx, events).table;
        ImportIgnoresRecords(ctx, table, whole, event, who);
        ImportAdds(ctx, table, event, who);
        ImportAdds(ctx, whole, event, who);
        Associative(RecordsFor(Run(ctx, DrainedEvents(before)).table, who), RecordsFor(table, who),
                    Added(ctx, table, event, who));
      case DrainStep =>
        assert EventsOf(steps) == EventsOf(before);
    }
  }

  /** Every drain reports exactly what was recorded since the previous one: as many records of each
      authority as it has committed offences since, in order. */
  lemma DrainReportsNewOffences(ctx: Context, steps: seq<Step>, order: seq<AuthorityId>, who: AuthorityId)
    requires IsOrderOf(order, RunSteps(ctx, steps).misbehavior)
    ensures
      var reported := RecordsOf(UntilEmpty(Listing(order, RunSteps(ctx, steps).misbehavior)), who);
      var all, drained := EventsOf(steps), DrainedEvents(steps);
      && RecordsFor(Run(ctx, all).table, who) == RecordsFor(Run(ctx, drained).table, who) + reported
      && OffenceCount(ctx, all, who) == OffenceCount(ctx, drained, who) + |reported|
  {
    DrainingGivesOutEverything(ctx, steps, order, who);
    RecordsSinceDrain(ctx, steps, who);
    EveryOffenceIsRecorded(ctx, EventsOf(steps), who);
    EveryOffenceIsRecorded(ctx, DrainedEvents(steps), who);
  }
}
