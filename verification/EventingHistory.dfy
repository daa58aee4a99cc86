/** packages/bonds-eventing over whole histories of runs: which state the rows hold, which events are repeated,
    and what the reported amounts add up to. */
module EventingHistory {
  import opened Wrappers
  import opened Sums
  import opened Eventing
  import opened EvaluateDeltas
  import opened EventingPipeline
  import EmitEvents

  type Rows = map<string, ValidatorState>

  // ------------------------------------------------------- the events of one vote account

  function ForVote(vote: string): BondsEvent -> bool {
    (e: BondsEvent) => e.voteAccount == vote
  }

  function EventsFor(events: seq<BondsEvent>, vote: string): seq<BondsEvent> {
    Filter(ForVote(vote), events)
  }

  function HasVote(vote: string): Validator -> bool {
    (v: Validator) => VoteOf(v) == vote
  }

  function WithVote(validators: seq<Validator>, vote: string): seq<Validator> {
    Filter(HasVote(vote), validators)
  }

  /** The events of one vote account are those of the validators with that vote account. */
  lemma CurrentFor(address: BondAddress, validators: seq<Validator>, rows: Rows, epoch: int, vote: string)
    ensures EventsFor(CurrentEvents(address, validators, rows, epoch), vote)
         == CurrentEvents(address, WithVote(validators, vote), rows, epoch)
  {
    forall v, e | v in validators && e in EventsMaker(address, rows, epoch)(v)
      ensures ForVote(vote)(e) <==> HasVote(vote)(v)
    {
      FlatMapMembers(EventMaker(address, v, epoch), Report(v, Stored(rows, VoteOf(v)), epoch), e);
    }
    FilterFlatMap(ForVote(vote), EventsMaker(address, rows, epoch), HasVote(vote), validators);
  }

  /** Only its own row decides what a vote account reports. */
  lemma CurrentLocal(address: BondAddress, validators: seq<Validator>, rows: Rows, rows': Rows, epoch: int,
                     vote: string)
    requires Stored(rows, vote) == Stored(rows', vote)
    ensures CurrentEvents(address, WithVote(validators, vote), rows, epoch)
         == CurrentEvents(address, WithVote(validators, vote), rows', epoch)
  {
    forall v | v in WithVote(validators, vote)
      ensures EventsMaker(address, rows, epoch)(v) == EventsMaker(address, rows', epoch)(v)
    {
      FilterMembers(HasVote(vote), validators, v);
    }
    FlatMapSame(EventsMaker(address, rows, epoch), EventsMaker(address, rows', epoch), WithVote(validators, vote));
  }

  function DelistingOf(address: BondAddress, bondType: BondType, gone: set<string>, rows: Rows, epoch: int,
                       vote: string): seq<BondsEvent> {
    if vote in gone && vote in rows && ReportsDelisting(rows[vote])
    then [DelistedEvent(address, bondType, vote, rows[vote], epoch)] else []
  }

  lemma DelistsFor(address: BondAddress, bondType: BondType, gone: set<string>, rows: Rows, epoch: int,
                   tail: seq<BondsEvent>, vote: string)
    requires Delists(address, bondType, gone, rows, epoch, tail)
    ensures EventsFor(tail, vote) == DelistingOf(address, bondType, gone, rows, epoch, vote)
  {
    if vote in gone && vote in rows && ReportsDelisting(rows[vote]) {
      var i :| 0 <= i < |tail| && tail[i] == DelistedEvent(address, bondType, vote, rows[vote], epoch);
      FilterOne(ForVote(vote), tail, i);
    } else {
      FilterNone(ForVote(vote), tail);
    }
  }

  /** What an evaluation reports for one vote account. */
  lemma EvaluationFor(address: BondAddress, bondType: BondType, validators: seq<Validator>, rows: Rows, epoch: int,
                      events: seq<BondsEvent>, vote: string)
    requires IsEvaluation(address, bondType, validators, rows, epoch, events)
    ensures EventsFor(events, vote)
         == CurrentEvents(address, WithVote(validators, vote), rows, epoch)
            + DelistingOf(address, bondType, rows.Keys - Votes(validators), rows, epoch, vote)
  {
    var current := CurrentEvents(address, validators, rows, epoch);
    assert events == current + events[|current|..];
    FilterConcat(ForVote(vote), current, events[|current|..]);
    CurrentFor(address, validators, rows, epoch, vote);
    DelistsFor(address, bondType, rows.Keys - Votes(validators), rows, epoch, events[|current|..], vote);
  }

  // -------------------------------------------------------------------------- histories

  ghost predicate Formed(h: seq<Run>) {
    forall run :: run in h ==> WellFormed(run)
  }

  /** The rows of one bond type after the runs of `h`, from an empty table. */
  ghost function RowsAfter(address: BondAddress, h: seq<Run>): Rows
    requires Formed(h)
  {
    if h == [] then map[] else
    assert h[|h| - 1] in h;
    NextRows(StateOf(address), RowsAfter(address, h[..|h| - 1]), h[|h| - 1])
  }

  /** Every run of `h` is valid over the rows its predecessors left. */
  ghost predicate ValidHistory(address: BondAddress, bondType: BondType, h: seq<Run>)
    ensures ValidHistory(address, bondType, h) ==> Formed(h)
  {
    h == [] ||
    (assert h == h[..|h| - 1] + [h[|h| - 1]];
     && ValidHistory(address, bondType, h[..|h| - 1])
     && ValidRun(address, bondType, RowsAfter(address, h[..|h| - 1]), h[|h| - 1]))
  }

  /** A run saves a vote account when it commits and each of that validator's events was sent. */
  ghost predicate Saves(run: Run, vote: string) {
    && WellFormed(run) && run.committed && vote in Votes(run.validators)
    && forall i :: 0 <= i < |run.events| && run.events[i].voteAccount == vote ==> run.sent[i]
  }

  /** A run drops a vote account when it commits, the validator is gone, and each event about it was sent. */
  ghost predicate Drops(run: Run, vote: string) {
    && WellFormed(run) && run.committed && vote !in Votes(run.validators)
    && forall i :: 0 <= i < |run.events| && run.events[i].voteAccount == vote ==> run.sent[i]
  }

  lemma SavesOrDrops(run: Run, vote: string)
    requires WellFormed(run)
    ensures Saves(run, vote) <==> run.committed && vote in Votes(Saving(run))
    ensures Drops(run, vote) <==> run.committed && vote !in Votes(run.validators) && vote !in Failed(run)
  {
    SucceedingVotes(run.validators, Failed(run));
  }

  /** What one valid run does to one row. */
  lemma OneRun(address: BondAddress, bondType: BondType, rows: Rows, run: Run, vote: string)
    requires ValidRun(address, bondType, rows, run)
    ensures var next := NextRows(StateOf(address), rows, run);
            && (Saves(run, vote) ==> vote in next)
            && (Saves(run, vote) ==> forall v :: v in run.validators && VoteOf(v) == vote ==>
                  next[vote] == ToState(address, v, run.epoch))
            && (Drops(run, vote) ==> vote !in next)
            && (!Saves(run, vote) && !Drops(run, vote) ==> Stored(next, vote) == Stored(rows, vote))
  {
    SavesOrDrops(run, vote);
    if Saves(run, vote) {
      forall v | v in run.validators && VoteOf(v) == vote
        ensures v == ValidatorWith(Saving(run), vote)
      {
        SucceedingVotes(run.validators, Failed(run));
        SucceedingMembers(run.validators, Failed(run), v);
        var i :| 0 <= i < |Saving(run)| && Saving(run)[i] == v;
        ValidatorUnique(Saving(run), i);
      }
    }
  }

  /** Run `k` of `h` wrote the row of `vote` that is there after `h`: it saved it and nothing later saved or
      dropped it. */
  ghost predicate LastWriter(h: seq<Run>, vote: string, k: nat) {
    && k < |h| && Saves(h[k], vote)
    && forall j :: k < j < |h| ==> !Saves(h[j], vote) && !Drops(h[j], vote)
  }

  ghost function WriterOf(h: seq<Run>, vote: string): (k: int)
    ensures -1 <= k < |h|
  {
    if h == [] then -1
    else if Saves(h[|h| - 1], vote) then |h| - 1
    else if Drops(h[|h| - 1], vote) then -1
    else WriterOf(h[..|h| - 1], vote)
  }

  lemma {:induction false} WriterIsLast(h: seq<Run>, vote: string, k: nat)
    ensures LastWriter(h, vote, k) <==> WriterOf(h, vote) == k
  {
    if h != [] && k < |h| {
      var front := h[..|h| - 1];
      WriterIsLast(front, vote, k);
      assert k < |front| ==> front[k] == h[k];
      assert forall j :: k < j < |front| ==> front[j] == h[j];
      assert k < |h| - 1 ==> LastWriter(h, vote, k) ==> !Saves(h[|h| - 1], vote) && !Drops(h[|h| - 1], vote);
    }
  }

  /** `state` is the state of the validator that `run` has for `vote`. */
  ghost predicate StateSavedBy(address: BondAddress, run: Run, vote: string, state: ValidatorState) {
    forall v :: v in run.validators && VoteOf(v) == vote ==> state == ToState(address, v, run.epoch)
  }

  lemma {:induction false} RowOfWriter(address: BondAddress, bondType: BondType, h: seq<Run>, vote: string)
    requires ValidHistory(address, bondType, h)
    ensures var k := WriterOf(h, vote);
            && (vote in RowsAfter(address, h) <==> k >= 0)
            && (k >= 0 ==> StateSavedBy(address, h[k], vote, RowsAfter(address, h)[vote]))
  {
    if h != [] {
      var front := h[..|h| - 1];
      RowOfWriter(address, bondType, front, vote);
      OneRun(address, bondType, RowsAfter(address, front), h[|h| - 1], vote);
    }
  }

  /** No lost event: a validator has a row exactly when some run saved it and none dropped it since, and the row is
      the state of the last run whose events for that validator were all sent. */
  lemma NoLostEvent(address: BondAddress, bondType: BondType, h: seq<Run>, vote: string)
    requires ValidHistory(address, bondType, h)
    ensures vote in RowsAfter(address, h) <==> exists k: nat :: LastWriter(h, vote, k)
    ensures forall k: nat :: LastWriter(h, vote, k) ==>
              vote in RowsAfter(address, h) && StateSavedBy(address, h[k], vote, RowsAfter(address, h)[vote])
  {
    RowOfWriter(address, bondType, h, vote);
    var rows := RowsAfter(address, h);
    var writer := WriterOf(h, vote);
    if writer >= 0 {
      WriterIsLast(h, vote, writer);
    }
    forall k: nat | LastWriter(h, vote, k)
      ensures vote in rows && StateSavedBy(address, h[k], vote, rows[vote])
    {
      WriterIsLast(h, vote, k);
    }
  }

  /** A row disappears only in a committed run without its validator, once the report of the delisting was sent, or
      when there was nothing to report: no funds and no place in the auction. */
  lemma RowRemoved(address: BondAddress, bondType: BondType, h: seq<Run>, vote: string)
    requires ValidHistory(address, bondType, h) && h != []
    requires vote in RowsAfter(address, h[..|h| - 1])
    ensures var prev, run := RowsAfter(address, h[..|h| - 1])[vote], h[|h| - 1];
            vote !in RowsAfter(address, h) ==>
              && run.committed && vote !in Votes(run.validators)
              && ((exists i :: 0 <= i < |run.events| && run.sent[i]
                               && run.events[i] == DelistedEvent(address, bondType, vote, prev, run.epoch))
                  || (prev.fundedAmountLamports <= 0 && !prev.inAuction))
  {
    var rows, run := RowsAfter(address, h[..|h| - 1]), h[|h| - 1];
    OneRun(address, bondType, rows, run, vote);
    if vote !in RowsAfter(address, h) && ReportsDelisting(rows[vote]) {
      EvaluationFor(address, bondType, run.validators, rows, run.epoch, run.events, vote);
      var e := DelistedEvent(address, bondType, vote, rows[vote], run.epoch);
      assert e in EventsFor(run.events, vote);
      FilterMembers(ForVote(vote), run.events, e);
      var i :| 0 <= i < |run.events| && run.events[i] == e;
      assert run.sent[i];
    }
  }

  /** An event is not lost to a failure: a run that did not commit, or that could not send an event of a validator,
      leaves that validator's row, and evaluating the same validators again repeats exactly its events. */
  lemma FailedRunRepeats(address: BondAddress, bondType: BondType, rows: Rows, run: Run, vote: string,
                         again: seq<BondsEvent>)
    requires ValidRun(address, bondType, rows, run)
    requires IsEvaluation(address, bondType, run.validators, rows, run.epoch, run.events)
    requires !run.committed || vote in Failed(run)
    requires IsEvaluation(address, bondType, run.validators, NextRows(StateOf(address), rows, run), run.epoch, again)
    ensures Stored(NextRows(StateOf(address), rows, run), vote) == Stored(rows, vote)
    ensures EventsFor(again, vote) == EventsFor(run.events, vote)
  {
    var next := NextRows(StateOf(address), rows, run);
    OneRun(address, bondType, rows, run, vote);
    SavesOrDrops(run, vote);
    SucceedingVotes(run.validators, Failed(run));
    EvaluationFor(address, bondType, run.validators, rows, run.epoch, run.events, vote);
    EvaluationFor(address, bondType, run.validators, next, run.epoch, again, vote);
    CurrentLocal(address, run.validators, rows, next, run.epoch, vote);
  }

  /** A run that committed and sent everything leaves exactly the states of its validators. */
  lemma CleanRunSaves(address: BondAddress, bondType: BondType, rows: Rows, run: Run)
    requires ValidRun(address, bondType, rows, run) && run.committed && AllSent(run)
    ensures SavedFrom(address, run.validators, NextRows(StateOf(address), rows, run), run.epoch)
  {
    var next := NextRows(StateOf(address), rows, run);
    forall vote
      ensures vote in next <==> vote in Votes(run.validators)
      ensures forall v :: v in run.validators && VoteOf(v) == vote ==> next[vote] == ToState(address, v, run.epoch)
    {
      CleanRunSavesVote(address, bondType, rows, run, vote);
    }
    assert next.Keys == Votes(run.validators);
  }

  lemma CleanRunSavesVote(address: BondAddress, bondType: BondType, rows: Rows, run: Run, vote: string)
    requires ValidRun(address, bondType, rows, run) && run.committed && AllSent(run)
    ensures var next := NextRows(StateOf(address), rows, run);
            && (vote in next <==> vote in Votes(run.validators))
            && forall v :: v in run.validators && VoteOf(v) == vote ==> next[vote] == ToState(address, v, run.epoch)
  {
    OneRun(address, bondType, rows, run, vote);
    assert Saves(run, vote) <==> vote in Votes(run.validators);
    assert Drops(run, vote) <==> vote !in Votes(run.validators);
  }

  ghost predicate AllSent(run: Run) {
    WellFormed(run) && forall i :: 0 <= i < |run.events| ==> run.sent[i]
  }

  lemma OwnStateIsSilent(address: BondAddress, validators: seq<Validator>, rows: Rows, epoch: int, vote: string)
    requires forall v :: v in validators && VoteOf(v) == vote ==> Stored(rows, vote) == Some(ToState(address, v, epoch))
    ensures CurrentEvents(address, WithVote(validators, vote), rows, epoch) == []
  {
    forall v | v in WithVote(validators, vote)
      ensures EventsMaker(address, rows, epoch)(v) == []
    {
      FilterMembers(HasVote(vote), validators, v);
      ReportAgainstOwnState(address, v, epoch, epoch);
      FlatMapNothing(EventMaker(address, v, epoch), Report(v, Stored(rows, vote), epoch));
    }
    FlatMapNothing(EventsMaker(address, rows, epoch), WithVote(validators, vote));
  }

  /** A validator whose events were all sent is silent when it is evaluated again. */
  lemma SentIsSilent(address: BondAddress, bondType: BondType, rows: Rows, run: Run, vote: string,
                     again: seq<BondsEvent>)
    requires ValidRun(address, bondType, rows, run) && run.committed && vote !in Failed(run)
    requires IsEvaluation(address, bondType, run.validators, NextRows(StateOf(address), rows, run), run.epoch, again)
    ensures EventsFor(again, vote) == []
  {
    var next := NextRows(StateOf(address), rows, run);
    OneRun(address, bondType, rows, run, vote);
    SavesOrDrops(run, vote);
    SucceedingVotes(run.validators, Failed(run));
    EvaluationFor(address, bondType, run.validators, next, run.epoch, again, vote);
    forall v | v in run.validators && VoteOf(v) == vote
      ensures Stored(next, vote) == Some(ToState(address, v, run.epoch))
    {
      assert vote in Votes(run.validators);
    }
    OwnStateIsSilent(address, run.validators, next, run.epoch, vote);
  }

  lemma FailedHasEvents(run: Run, vote: string)
    requires WellFormed(run) && vote in Failed(run)
    ensures EventsFor(run.events, vote) != []
  {
    var i :| 0 <= i < |run.events| && !run.sent[i] && run.events[i].voteAccount == vote;
    FilterMembers(ForVote(vote), run.events, run.events[i]);
  }

  lemma RepeatsNothingIff(run: Run, again: seq<BondsEvent>)
    requires WellFormed(run)
    requires forall vote :: EventsFor(again, vote) == if vote in Failed(run) then EventsFor(run.events, vote) else []
    ensures again == [] <==> AllSent(run)
  {
    if !AllSent(run) {
      var i :| 0 <= i < |run.events| && !run.sent[i];
      var vote := run.events[i].voteAccount;
      assert vote in Failed(run);
      FailedHasEvents(run, vote);
      assert EventsFor(again, vote) == EventsFor(run.events, vote);
    } else if again != [] {
      var vote := again[0].voteAccount;
      assert vote !in Failed(run) && EventsFor(again, vote) == [];
      FilterMembers(ForVote(vote), again, again[0]);
    }
  }

  /** Evaluating the same validators again after a committed run repeats exactly the events of the validators that
      failed; it is silent exactly when every event had been sent. */
  lemma RerunRepeatsFailed(address: BondAddress, bondType: BondType, rows: Rows, run: Run, again: seq<BondsEvent>)
    requires ValidRun(address, bondType, rows, run) && run.committed
    requires IsEvaluation(address, bondType, run.validators, NextRows(StateOf(address), rows, run), run.epoch, again)
    ensures forall vote :: EventsFor(again, vote) == if vote in Failed(run) then EventsFor(run.events, vote) else []
    ensures again == [] <==> AllSent(run)
  {
    forall vote
      ensures EventsFor(again, vote) == if vote in Failed(run) then EventsFor(run.events, vote) else []
    {
      if vote in Failed(run) {
        FailedRunRepeats(address, bondType, rows, run, vote, again);
      } else {
        SentIsSilent(address, bondType, rows, run, vote, again);
      }
    }
    RepeatsNothingIff(run, again);
  }

  // -------------------------------------------------------------------------- telescoping

  function DeltaIn(e: BondsEvent): int {
    if e.details.BondBalanceChange? then e.details.deltaLamports else 0
  }

  /** The balance deltas that `events` report. */
  function DeltaSum(events: seq<BondsEvent>): int {
    Sum(DeltaIn, events)
  }

  /** The balance deltas reported for `vote` by the runs of `h` that saved it. */
  ghost function SavedDeltas(h: seq<Run>, vote: string): int {
    if h == [] then 0 else
    SavedDeltas(h[..|h| - 1], vote)
    + if Saves(h[|h| - 1], vote) then DeltaSum(EventsFor(h[|h| - 1].events, vote)) else 0
  }

  lemma {:induction false} WithVoteOne(validators: seq<Validator>, vote: string)
    requires VotesDistinct(validators)
    ensures |WithVote(validators, vote)| <= 1
  {
    if validators != [] {
      WithVoteOne(validators[1..], vote);
      if VoteOf(validators[0]) == vote {
        forall v | v in validators[1..]
          ensures !HasVote(vote)(v)
        {
          var j :| 1 <= j < |validators| && validators[j] == v;
        }
        FilterNone(HasVote(vote), validators[1..]);
      }
    }
  }

  /** A saved vote account belongs to one validator. */
  lemma SavedOne(run: Run, vote: string) returns (v: Validator)
    requires Saves(run, vote) && VotesDistinct(Saving(run))
    ensures v in run.validators && VoteOf(v) == vote
    ensures WithVote(run.validators, vote) == [v]
  {
    SavesOrDrops(run, vote);
    SucceedingVotes(run.validators, Failed(run));
    v := ValidatorWith(Saving(run), vote);
    SucceedingMembers(run.validators, Failed(run), v);
    FilterTwice(HasVote(vote), Unfailing(Failed(run)), run.validators);
    WithVoteOne(Saving(run), vote);
    FilterMembers(HasVote(vote), run.validators, v);
  }

  /** The events of a validator that a run saves are its own report against its row. */
  lemma SavedEvents(address: BondAddress, bondType: BondType, rows: Rows, run: Run, vote: string) returns (v: Validator)
    requires ValidRun(address, bondType, rows, run) && Saves(run, vote)
    ensures v in run.validators && VoteOf(v) == vote
    ensures EventsFor(run.events, vote) == EventsOf(address, v, Stored(rows, vote), run.epoch)
  {
    EvaluationFor(address, bondType, run.validators, rows, run.epoch, run.events, vote);
    v := SavedOne(run, vote);
    FlatMapSnoc(EventsMaker(address, rows, run.epoch), [], v);
    assert [] + [v] == [v];
  }

  /** The delta of one report entry. */
  function DeltaOf(d: Option<Details>): int {
    if d.Some? && d.value.BondBalanceChange? then d.value.deltaLamports else 0
  }

  lemma EmittedSum(address: BondAddress, v: Validator, epoch: int, report: seq<Option<Details>>,
                   inEvent: BondsEvent -> int, inReport: Option<Details> -> int)
    requires forall d :: inReport(d) == if d.Some? then inEvent(MakeEvent(address, v, epoch, d.value)) else 0
    ensures Sum(inEvent, Emitted(address, v, epoch, report)) == Sum(inReport, report)
  {
    forall d: Option<Details>
      ensures inReport(d) == Sum(inEvent, EventMaker(address, v, epoch)(d))
    {
      if d.Some? {
        SumSnoc(inEvent, [], MakeEvent(address, v, epoch, d.value));
        assert [] + [MakeEvent(address, v, epoch, d.value)] == [MakeEvent(address, v, epoch, d.value)];
      }
    }
    SumFlatMap(inEvent, EventMaker(address, v, epoch), inReport, report);
  }

  /** The sum over a list of which only the element at `at` counts. */
  lemma {:induction false} SumOfOne<T>(f: T -> int, xs: seq<T>, at: nat)
    requires forall k :: 0 <= k < |xs| && k != at ==> f(xs[k]) == 0
    ensures Sum(f, xs) == if at < |xs| then f(xs[at]) else 0
  {
    if xs != [] {
      SumOfOne(f, xs[1..], if at == 0 then |xs| else at - 1);
    }
  }

  /** Where a report has its balance change. */
  function BalanceAt(v: Validator): nat {
    if v.Auction? then 3 else 1
  }

  lemma BalanceEntry(address: BondAddress, v: Validator, prev: ValidatorState, epoch: int)
    ensures var report := Report(v, Some(prev), epoch);
            && BalanceAt(v) < |report|
            && (forall k :: 0 <= k < |report| && k != BalanceAt(v) ==> DeltaOf(report[k]) == 0)
            && DeltaOf(report[BalanceAt(v)])
               == ToState(address, v, epoch).fundedAmountLamports - prev.fundedAmountLamports
  {
  }

  /** Against a stored row, a validator's report carries exactly the change of its funded amount. */
  lemma ReportedDelta(address: BondAddress, v: Validator, prev: ValidatorState, epoch: int)
    ensures DeltaSum(EventsOf(address, v, Some(prev), epoch))
         == ToState(address, v, epoch).fundedAmountLamports - prev.fundedAmountLamports
  {
    BalanceEntry(address, v, prev, epoch);
    var report := Report(v, Some(prev), epoch);
    EmittedSum(address, v, epoch, report, DeltaIn, DeltaOf);
    SumOfOne(DeltaOf, report, BalanceAt(v));
  }

  lemma {:induction false} SavedDeltasSnoc(h: seq<Run>, run: Run, vote: string)
    ensures SavedDeltas(h + [run], vote)
         == SavedDeltas(h, vote) + if Saves(run, vote) then DeltaSum(EventsFor(run.events, vote)) else 0
  {
    assert (h + [run])[..|h|] == h;
  }

  /** One run that keeps a row changes its funds by the deltas it reports if it saves the row, and not otherwise. */
  lemma OneRunDelta(address: BondAddress, bondType: BondType, rows: Rows, run: Run, vote: string)
    requires ValidRun(address, bondType, rows, run)
    requires vote in rows && vote in NextRows(StateOf(address), rows, run)
    ensures NextRows(StateOf(address), rows, run)[vote].fundedAmountLamports
         == rows[vote].fundedAmountLamports + if Saves(run, vote) then DeltaSum(EventsFor(run.events, vote)) else 0
  {
    OneRun(address, bondType, rows, run, vote);
    if Saves(run, vote) {
      var v := SavedEvents(address, bondType, rows, run, vote);
      ReportedDelta(address, v, rows[vote], run.epoch);
    }
  }

  /** The row of `vote` exists after each number of runs from `from` on. */
  ghost predicate Keeps(address: BondAddress, h: seq<Run>, from: nat, vote: string)
    requires Formed(h) && from <= |h|
  {
    vote in RowsAfter(address, h) && (from < |h| ==> Keeps(address, h[..|h| - 1], from, vote))
  }

  lemma {:induction false} KeepsThroughout(address: BondAddress, h: seq<Run>, from: nat, vote: string)
    requires Formed(h) && from <= |h|
    requires forall k :: from <= k <= |h| ==> vote in RowsAfter(address, h[..k])
    ensures Keeps(address, h, from, vote)
  {
    assert h[..|h|] == h;
    if from < |h| {
      var front := h[..|h| - 1];
      forall k | from <= k <= |front|
        ensures vote in RowsAfter(address, front[..k])
      {
        assert front[..k] == h[..k];
      }
      KeepsThroughout(address, front, from, vote);
    }
  }

  lemma SplitLast<T>(xs: seq<T>, from: nat)
    requires from < |xs|
    ensures xs[..|xs| - 1][..from] == xs[..from]
    ensures xs[from..] == xs[..|xs| - 1][from..] + [xs[|xs| - 1]]
  {
  }

  lemma {:induction false} KeptTelescopes(address: BondAddress, bondType: BondType, h: seq<Run>, from: nat,
                                          vote: string)
    requires ValidHistory(address, bondType, h) && from <= |h| && Keeps(address, h, from, vote)
    ensures vote in RowsAfter(address, h[..from])
    ensures RowsAfter(address, h)[vote].fundedAmountLamports
         == RowsAfter(address, h[..from])[vote].fundedAmountLamports + SavedDeltas(h[from..], vote)
  {
    if from == |h| {
      assert h[..from] == h;
    } else {
      var front, last := h[..|h| - 1], h[|h| - 1];
      KeptTelescopes(address, bondType, front, from, vote);
      SplitLast(h, from);
      SavedDeltasSnoc(front[from..], last, vote);
      OneRunDelta(address, bondType, RowsAfter(address, front), last, vote);
    }
  }

  /** Telescoping: as long as a validator's row exists, the balance deltas reported in the runs that saved it add up
      to the change of its stored funds, whatever failed in between. */
  lemma DeltasTelescope(address: BondAddress, bondType: BondType, h: seq<Run>, from: nat, vote: string)
    requires ValidHistory(address, bondType, h) && from <= |h|
    requires forall k :: from <= k <= |h| ==> vote in RowsAfter(address, h[..k])
    ensures h[..|h|] == h
    ensures RowsAfter(address, h)[vote].fundedAmountLamports
         == RowsAfter(address, h[..from])[vote].fundedAmountLamports + SavedDeltas(h[from..], vote)
  {
    assert h[..|h|] == h;
    KeepsThroughout(address, h, from, vote);
    KeptTelescopes(address, bondType, h, from, vote);
  }

  // -------------------------------------------------------------------- expected penalties

  function PenaltyIn(e: BondsEvent): int {
    if e.details.PenaltyExpected? then 1 else 0
  }

  function PenaltyCount(events: seq<BondsEvent>): int {
    Sum(PenaltyIn, events)
  }

  /** Expected penalties of `vote` for `epoch`, in the runs of `h` that saved it. */
  ghost function SavedPenalties(h: seq<Run>, vote: string, epoch: int): int {
    if h == [] then 0 else
    SavedPenalties(h[..|h| - 1], vote, epoch)
    + if Saves(h[|h| - 1], vote) && h[|h| - 1].epoch == epoch then PenaltyCount(EventsFor(h[|h| - 1].events, vote))
      else 0
  }

  ghost predicate EpochsDoNotDecrease(h: seq<Run>) {
    forall i, j :: 0 <= i < j < |h| ==> h[i].epoch <= h[j].epoch
  }

  function PenaltyOf(d: Option<Details>): int {
    if d.Some? && d.value.PenaltyExpected? then 1 else 0
  }

  /** Only the sixth entry of a report can expect a penalty, and only against a row of another epoch. */
  lemma PenaltyEntry(v: Validator, prev: Option<ValidatorState>, epoch: int)
    ensures var report := Report(v, prev, epoch);
            && (forall k :: 0 <= k < |report| && k != 5 ==> PenaltyOf(report[k]) == 0)
            && (5 < |report| && PenaltyOf(report[5]) != 0 ==> prev.Some? && prev.value.epoch != epoch)
  {
  }

  /** One report expects at most one penalty, and none without a row or against a row of the same epoch. */
  lemma ReportedPenalties(address: BondAddress, v: Validator, prev: Option<ValidatorState>, epoch: int)
    ensures 0 <= PenaltyCount(EventsOf(address, v, prev, epoch)) <= 1
    ensures prev.None? || prev.value.epoch == epoch ==> PenaltyCount(EventsOf(address, v, prev, epoch)) == 0
  {
    var report := Report(v, prev, epoch);
    PenaltyEntry(v, prev, epoch);
    EmittedSum(address, v, epoch, report, PenaltyIn, PenaltyOf);
    SumOfOne(PenaltyOf, report, 5);
  }

  ghost predicate SavedIn(h: seq<Run>, vote: string, epoch: int) {
    exists j :: 0 <= j < |h| && Saves(h[j], vote) && h[j].epoch == epoch
  }

  /** Once a validator was saved in an epoch, its row, if it has one, is of that epoch or a later one. */
  lemma RowIsRecent(address: BondAddress, bondType: BondType, h: seq<Run>, vote: string, epoch: int)
    requires ValidHistory(address, bondType, h) && EpochsDoNotDecrease(h) && SavedIn(h, vote, epoch)
    ensures vote in RowsAfter(address, h) ==>
              exists k :: 0 <= k < |h| && epoch <= h[k].epoch && RowsAfter(address, h)[vote].epoch == h[k].epoch
  {
    NoLostEvent(address, bondType, h, vote);
    if vote in RowsAfter(address, h) {
      var k: nat :| LastWriter(h, vote, k);
      var v := ValidatorWith(h[k].validators, vote);
      var j :| 0 <= j < |h| && Saves(h[j], vote) && h[j].epoch == epoch;
      assert RowsAfter(address, h)[vote] == ToState(address, v, h[k].epoch);
      assert j <= k;
    }
  }

  /** A saving run expects at most one penalty, and none if its epoch was saved before. */
  lemma RunPenalties(address: BondAddress, bondType: BondType, front: seq<Run>, last: Run, vote: string)
    requires ValidHistory(address, bondType, front) && EpochsDoNotDecrease(front + [last])
    requires ValidRun(address, bondType, RowsAfter(address, front), last) && Saves(last, vote)
    ensures 0 <= PenaltyCount(EventsFor(last.events, vote)) <= 1
    ensures SavedIn(front, vote, last.epoch) ==> PenaltyCount(EventsFor(last.events, vote)) == 0
  {
    var rows := RowsAfter(address, front);
    var v := SavedEvents(address, bondType, rows, last, vote);
    ReportedPenalties(address, v, Stored(rows, vote), last.epoch);
    EpochsOfPrefix(front, last);
    if SavedIn(front, vote, last.epoch) {
      RowIsRecent(address, bondType, front, vote, last.epoch);
    }
  }

  lemma EpochsOfPrefix(front: seq<Run>, last: Run)
    requires EpochsDoNotDecrease(front + [last])
    ensures EpochsDoNotDecrease(front) && forall k :: 0 <= k < |front| ==> front[k].epoch <= last.epoch
  {
    var h := front + [last];
    forall i, j | 0 <= i < j < |front|
      ensures front[i].epoch <= front[j].epoch
    {
      assert h[i].epoch <= h[j].epoch;
    }
    forall k | 0 <= k < |front|
      ensures front[k].epoch <= last.epoch
    {
      assert h[k].epoch <= h[|front|].epoch;
    }
  }

  lemma SavedInSnoc(front: seq<Run>, last: Run, vote: string, epoch: int)
    ensures SavedIn(front + [last], vote, epoch)
       <==> SavedIn(front, vote, epoch) || (Saves(last, vote) && last.epoch == epoch)
  {
    var h := front + [last];
    if SavedIn(front, vote, epoch) {
      var j :| 0 <= j < |front| && Saves(front[j], vote) && front[j].epoch == epoch;
      assert h[j] == front[j];
    }
    assert h[|front|] == last;
  }

  /** With epochs that never go back, the saved runs report at most one expected penalty per validator and epoch. */
  lemma {:induction false} PenaltyOncePerEpoch(address: BondAddress, bondType: BondType, h: seq<Run>, vote: string,
                                               epoch: int)
    requires ValidHistory(address, bondType, h) && EpochsDoNotDecrease(h)
    ensures 0 <= SavedPenalties(h, vote, epoch) <= 1
    ensures SavedPenalties(h, vote, epoch) > 0 ==> SavedIn(h, vote, epoch)
  {
    if h != [] {
      var front, last := h[..|h| - 1], h[|h| - 1];
      assert h == front + [last];
      EpochsOfPrefix(front, last);
      PenaltyOncePerEpoch(address, bondType, front, vote, epoch);
      SavedInSnoc(front, last, vote, epoch);
      if Saves(last, vote) {
        RunPenalties(address, bondType, front, last, vote);
      }
    }
  }

  // ------------------------------------------------------------- what a store goes through

  /** What one run of the pipeline is given. */
  datatype RunInput = RunInput(config: PipelineConfig, bondType: BondType, validators: seq<Validator>, epoch: int,
                               respond: nat -> (nat -> EmitEvents.Response), faults: Faults)

  ghost predicate Acceptable(input: RunInput) {
    && input.config.emit.emitConcurrency >= 1
    && forall v :: v in input.validators ==> TypeOf(v) == input.bondType
  }

  /** The rows of `bondType` in `store` are those of history `h`. */
  ghost predicate Follows(address: BondAddress, bondType: BondType, store: StateStore, h: seq<Run>)
    reads store
  {
    && ValidHistory(address, bondType, h)
    && IsLoaded(store.rows, bondType, RowsAfter(address, h))
  }

  lemma HistoryExtends(address: BondAddress, bondType: BondType, h: seq<Run>, run: Run)
    requires ValidHistory(address, bondType, h) && ValidRun(address, bondType, RowsAfter(address, h), run)
    ensures ValidHistory(address, bondType, h + [run])
    ensures RowsAfter(address, h + [run]) == NextRows(StateOf(address), RowsAfter(address, h), run)
  {
    assert (h + [run])[..|h|] == h;
    assert forall r :: r in h + [run] <==> r in h || r == run;
  }

  lemma OtherTypeLoaded(before: map<RowKey, ValidatorState>, after: map<RowKey, ValidatorState>, bondType: BondType,
                        rows: Rows)
    requires IsLoaded(before, bondType, rows)
    requires forall vote :: var key := RowKey(vote, bondType);
               (key in after <==> key in before) && (key in after ==> after[key] == before[key])
    ensures IsLoaded(after, bondType, rows)
  {
  }

  /** Any sequence of pipeline runs over one initially empty store, of both bond types in any mixture and with any
      failures, is a valid history of each bond type, and the store holds the rows of both. So what is proved about
      histories holds of every store the pipeline can reach. */
  method RunAll(address: BondAddress, store: StateStore, inputs: seq<RunInput>)
    returns (ghost bidding: seq<Run>, ghost institutional: seq<Run>)
    requires store.rows == map[] && forall input :: input in inputs ==> Acceptable(input)
    modifies store
    ensures Follows(address, Bidding, store, bidding) && Follows(address, Institutional, store, institutional)
    ensures |bidding| + |institutional| == |inputs|
  {
    bidding, institutional := [], [];
    for k := 0 to |inputs|
      invariant Follows(address, Bidding, store, bidding) && Follows(address, Institutional, store, institutional)
      invariant |bidding| + |institutional| == k
    {
      var input := inputs[k];
      assert Acceptable(input);
      if input.bondType == Bidding {
        bidding := RunOne(address, store, input, bidding, Institutional, institutional);
      } else {
        institutional := RunOne(address, store, input, institutional, Bidding, bidding);
      }
    }
  }

  method RunOne(address: BondAddress, store: StateStore, input: RunInput, ghost mine: seq<Run>,
                ghost otherType: BondType, ghost other: seq<Run>)
    returns (ghost extended: seq<Run>)
    requires Acceptable(input) && otherType != input.bondType
    requires Follows(address, input.bondType, store, mine) && Follows(address, otherType, store, other)
    modifies store
    ensures Follows(address, input.bondType, store, extended) && Follows(address, otherType, store, other)
    ensures |extended| == |mine| + 1 && extended[..|mine|] == mine
    ensures extended[|mine|].validators == input.validators && extended[|mine|].epoch == input.epoch
  {
    ghost var before := store.rows;
    var thrown, run, loaded, posted := RunPipeline(address, input.config, store, input.bondType, input.validators,
                                                   input.epoch, input.respond, input.faults);
    LoadedUnique(before, input.bondType, loaded, RowsAfter(address, mine));
    HistoryExtends(address, input.bondType, mine, run);
    OtherTypeLoaded(before, store.rows, otherType, RowsAfter(address, other));
    extended := mine + [run];
  }
}
