/** packages/bonds-eventing: the store of validator states and one run of the pipeline over it. */
module EventingPipeline {
  import opened Wrappers
  import Sums
  import opened Eventing
  import opened EvaluateDeltas
  import opened EmitEvents

  // ------------------------------------------------------------ what one run does

  /** One run: what was given, what was evaluated, which events were sent, whether the transaction committed. */
  datatype Run = Run(validators: seq<Validator>, epoch: int, events: seq<BondsEvent>, sent: seq<bool>, committed: bool)

  /** The `toState` callback of the pipeline. */
  type StateMaker = (Validator, int) -> ValidatorState

  ghost predicate WellFormed(run: Run) {
    |run.sent| == |run.events|
  }

  /** Vote accounts with an event that was not sent. */
  ghost function Failed(run: Run): set<string>
    requires WellFormed(run)
  {
    FailedVotes(run.events, run.sent)
  }

  ghost function FailedVotes(events: seq<BondsEvent>, sent: seq<bool>): set<string>
    requires |sent| == |events|
  {
    set i | 0 <= i < |events| && !sent[i] :: events[i].voteAccount
  }

  function Unfailing(failed: set<string>): Validator -> bool {
    (v: Validator) => VoteOf(v) !in failed
  }

  /** The validators without a failed event, in their order. */
  function Succeeding(validators: seq<Validator>, failed: set<string>): seq<Validator> {
    Sums.Filter(Unfailing(failed), validators)
  }

  /** The validators whose state a run saves if it commits. */
  ghost function Saving(run: Run): seq<Validator>
    requires WellFormed(run)
  {
    Succeeding(run.validators, Failed(run))
  }

  ghost predicate VotesDistinct(validators: seq<Validator>) {
    forall i, j :: 0 <= i < j < |validators| ==> VoteOf(validators[i]) != VoteOf(validators[j])
  }

  function ValidatorWith(validators: seq<Validator>, vote: string): (v: Validator)
    requires vote in Votes(validators)
    ensures v in validators && VoteOf(v) == vote
  {
    assert validators != [];
    if VoteOf(validators[0]) == vote then validators[0] else
    assert validators == [validators[0]] + validators[1..];
    ValidatorWith(validators[1..], vote)
  }

  /** The rows of one bond type after a run: saved vote accounts get their new state; a row goes when its vote
      account is neither among the validators nor has a failed event. */
  ghost function NextRows(toState: StateMaker, rows: map<string, ValidatorState>, run: Run): map<string, ValidatorState>
    requires WellFormed(run)
  {
    if !run.committed then rows else
    map vote | vote in rows.Keys + Votes(Saving(run))
               && (vote in Votes(Saving(run)) || vote in Votes(run.validators) || vote in Failed(run)) ::
      if vote in Votes(Saving(run)) then toState(ValidatorWith(Saving(run), vote), run.epoch) else rows[vote]
  }

  /** A run over `rows`: a committed run evaluated its validators against them and saved no vote account twice. */
  ghost predicate ValidRun(address: BondAddress, bondType: BondType, rows: map<string, ValidatorState>, run: Run) {
    && WellFormed(run)
    && (run.committed ==>
          && IsEvaluation(address, bondType, run.validators, rows, run.epoch, run.events)
          && VotesDistinct(Saving(run)))
  }

  lemma SucceedingMembers(validators: seq<Validator>, failed: set<string>, v: Validator)
    ensures v in Succeeding(validators, failed) <==> v in validators && VoteOf(v) !in failed
  {
    Sums.FilterMembers(Unfailing(failed), validators, v);
  }

  /** The vote accounts saved are those of validators without a failed event. */
  lemma SucceedingVotes(validators: seq<Validator>, failed: set<string>)
    ensures Votes(Succeeding(validators, failed)) == Votes(validators) - failed
  {
    forall vote
      ensures vote in Votes(Succeeding(validators, failed)) <==> vote in Votes(validators) && vote !in failed
    {
      if vote in Votes(Succeeding(validators, failed)) {
        SucceedingMembers(validators, failed, ValidatorWith(Succeeding(validators, failed), vote));
      }
      if vote in Votes(validators) && vote !in failed {
        SucceedingMembers(validators, failed, ValidatorWith(validators, vote));
      }
    }
  }

  lemma ValidatorUnique(validators: seq<Validator>, i: nat)
    requires VotesDistinct(validators) && i < |validators|
    ensures VoteOf(validators[i]) in Votes(validators)
    ensures ValidatorWith(validators, VoteOf(validators[i])) == validators[i]
  {
    var w := ValidatorWith(validators, VoteOf(validators[i]));
    var j :| 0 <= j < |validators| && validators[j] == w;
  }

  // --------------------------------------------------------------------- the store

  datatype RowKey = RowKey(voteAccount: string, bondType: BondType)

  function RowKeyOf(state: ValidatorState): RowKey {
    RowKey(state.voteAccount, state.bondType)
  }

  /** `m` is the rows of one bond type, by vote account. */
  ghost predicate IsLoaded(rows: map<RowKey, ValidatorState>, bondType: BondType, m: map<string, ValidatorState>) {
    forall vote ::
      && (vote in m <==> RowKey(vote, bondType) in rows)
      && (vote in m ==> m[vote] == rows[RowKey(vote, bondType)])
  }

  ghost predicate DistinctKeys(states: seq<ValidatorState>) {
    forall i, j :: 0 <= i < j < |states| ==> RowKeyOf(states[i]) != RowKeyOf(states[j])
  }

  ghost predicate HasRowKey(states: seq<ValidatorState>, key: RowKey) {
    exists i :: 0 <= i < |states| && RowKeyOf(states[i]) == key
  }

  /** `after` is `before` with `states` inserted or replacing their rows. */
  ghost predicate Upserted(before: map<RowKey, ValidatorState>, states: seq<ValidatorState>,
                           after: map<RowKey, ValidatorState>) {
    && (forall key :: key in after <==> key in before || HasRowKey(states, key))
    && (forall key :: key in before && !HasRowKey(states, key) ==> after[key] == before[key])
    && (forall i :: 0 <= i < |states| ==> after[RowKeyOf(states[i])] == states[i])
  }

  function Remaining(rows: map<RowKey, ValidatorState>, bondType: BondType,
                     current: set<string>): map<RowKey, ValidatorState> {
    map key | key in rows && (key.bondType != bondType || key.voteAccount in current) :: rows[key]
  }

  /** The table bond_event_state. */
  class StateStore {
    var rows: map<RowKey, ValidatorState>

    constructor ()
      ensures rows == map[]
    {
      rows := map[];
    }

    /** `loadPreviousState`; the query returns the rows in any order. */
    method LoadPreviousState(bondType: BondType) returns (stateMap: map<string, ValidatorState>)
      ensures IsLoaded(rows, bondType, stateMap)
    {
      stateMap := map[];
      var rest := rows.Keys;
      while rest != {}
        invariant rest <= rows.Keys
        invariant forall vote ::
                    && (vote in stateMap <==> RowKey(vote, bondType) in rows && RowKey(vote, bondType) !in rest)
                    && (vote in stateMap ==> stateMap[vote] == rows[RowKey(vote, bondType)])
        decreases rest
      {
        var key :| key in rest;
        rest := rest - {key};
        if key.bondType == bondType {
          stateMap := stateMap[key.voteAccount := rows[key]];
        }
      }
    }

    /** `saveCurrentState`: one upsert; the database refuses it when two states have the same key. */
    method SaveCurrentState(states: seq<ValidatorState>) returns (ok: bool)
      modifies this
      ensures ok <==> DistinctKeys(states)
      ensures if ok then Upserted(old(rows), states, rows) else rows == old(rows)
    {
      var saved := rows;
      for k := 0 to |states|
        invariant rows == old(rows) && DistinctKeys(states[..k])
        invariant Upserted(rows, states[..k], saved)
      {
        ok := !(exists j :: 0 <= j < k && RowKeyOf(states[j]) == RowKeyOf(states[k]));
        if !ok {
          return;
        }
        UpsertOneMore(rows, states, k, saved);
        saved := saved[RowKeyOf(states[k]) := states[k]];
      }
      assert states[..|states|] == states;
      rows := saved;
      ok := true;
    }

    /** `deleteRemovedValidators`. */
    method DeleteRemovedValidators(bondType: BondType, current: set<string>)
      modifies this
      ensures rows == Remaining(old(rows), bondType, current)
    {
      if current == {} {
        rows := map key | key in rows && key.bondType != bondType :: rows[key];
      } else {
        rows := map key | key in rows && !(key.bondType == bondType && key.voteAccount !in current) :: rows[key];
      }
    }
  }

  lemma UpsertOneMore(before: map<RowKey, ValidatorState>, states: seq<ValidatorState>, k: nat,
                      saved: map<RowKey, ValidatorState>)
    requires k < |states| && Upserted(before, states[..k], saved) && DistinctKeys(states[..k])
    requires forall j :: 0 <= j < k ==> RowKeyOf(states[j]) != RowKeyOf(states[k])
    ensures DistinctKeys(states[..k + 1])
    ensures Upserted(before, states[..k + 1], saved[RowKeyOf(states[k]) := states[k]])
  {
    forall key
      ensures HasRowKey(states[..k + 1], key) <==> HasRowKey(states[..k], key) || key == RowKeyOf(states[k])
    {
      assert states[..k + 1] == states[..k] + [states[k]];
      if HasRowKey(states[..k], key) {
        var i :| 0 <= i < k && RowKeyOf(states[..k][i]) == key;
        assert states[..k + 1][i] == states[..k][i];
      }
      assert states[..k + 1][k] == states[k];
    }
  }

  // ------------------------------------------------------------------------ one run

  datatype PipelineConfig = PipelineConfig(emit: EmitConfig, hasPostgres: bool)

  /** Where the database may fail: recording the events, or the transaction. */
  datatype Faults = Faults(persistFails: bool, transactionFails: bool)

  /** `failedVoteAccounts`. */
  method CollectFailed(events: seq<BondsEvent>, results: map<nat, EmitStatus>, ghost sent: seq<bool>)
    returns (failed: set<string>)
    requires |sent| == |events|
    requires forall i: nat :: i in results <==> i < |events|
    requires forall i :: 0 <= i < |events| ==> (sent[i] <==> results[i] == Sent)
    ensures failed == FailedVotes(events, sent)
  {
    failed := {};
    for i := 0 to |events|
      invariant failed == set j | 0 <= j < i && !sent[j] :: events[j].voteAccount
    {
      if results[i] == EmitStatus.Failed {
        failed := failed + {events[i].voteAccount};
      }
    }
  }

  function StatesOf(toState: StateMaker, validators: seq<Validator>, epoch: int): seq<ValidatorState> {
    seq(|validators|, i requires 0 <= i < |validators| => toState(validators[i], epoch))
  }

  /** `succeededStates`. */
  method CollectStates(toState: StateMaker, validators: seq<Validator>, epoch: int, failed: set<string>)
    returns (states: seq<ValidatorState>)
    ensures states == StatesOf(toState, Succeeding(validators, failed), epoch)
  {
    states := [];
    for k := 0 to |validators|
      invariant states == StatesOf(toState, Succeeding(validators[..k], failed), epoch)
    {
      assert validators[..k + 1] == validators[..k] + [validators[k]];
      Sums.FilterSnoc(Unfailing(failed), validators[..k], validators[k]);
      if VoteOf(validators[k]) !in failed {
        states := states + [toState(validators[k], epoch)];
      }
    }
    assert validators[..|validators|] == validators;
  }

  /** The pipeline's callback gives a validator the key of its row. */
  ghost predicate KeepsKeys(toState: StateMaker, bondType: BondType, validators: seq<Validator>, epoch: int) {
    forall v :: v in validators ==> RowKeyOf(toState(v, epoch)) == RowKey(VoteOf(v), bondType)
  }

  lemma SavedKeys(toState: StateMaker, bondType: BondType, validators: seq<Validator>, epoch: int)
    requires KeepsKeys(toState, bondType, validators, epoch)
    ensures DistinctKeys(StatesOf(toState, validators, epoch)) <==> VotesDistinct(validators)
    ensures forall key ::
              HasRowKey(StatesOf(toState, validators, epoch), key)
              <==> key.bondType == bondType && key.voteAccount in Votes(validators)
  {
    var states := StatesOf(toState, validators, epoch);
    forall i | 0 <= i < |validators|
      ensures RowKeyOf(states[i]) == RowKey(VoteOf(validators[i]), bondType)
    {
      assert validators[i] in validators;
    }
    if DistinctKeys(states) {
      forall i, j | 0 <= i < j < |validators|
        ensures VoteOf(validators[i]) != VoteOf(validators[j])
      {
        assert RowKeyOf(states[i]) != RowKeyOf(states[j]);
      }
    }
    forall key
      ensures HasRowKey(states, key) <==> key.bondType == bondType && key.voteAccount in Votes(validators)
    {
      if key.bondType == bondType && key.voteAccount in Votes(validators) {
        var v := ValidatorWith(validators, key.voteAccount);
        var i :| 0 <= i < |validators| && validators[i] == v;
        assert RowKeyOf(states[i]) == key;
      }
    }
  }

  /** Upserting the states and deleting what is not kept makes the next rows, of this bond type only. */
  lemma TransactionMakesNextRows(toState: StateMaker, bondType: BondType, run: Run, keep: set<string>,
                                 before: map<RowKey, ValidatorState>, upserted: map<RowKey, ValidatorState>,
                                 loaded: map<string, ValidatorState>)
    requires WellFormed(run) && run.committed && VotesDistinct(Saving(run))
    requires KeepsKeys(toState, bondType, Saving(run), run.epoch)
    requires keep == Votes(run.validators) + Failed(run)
    requires Upserted(before, StatesOf(toState, Saving(run), run.epoch), upserted) && IsLoaded(before, bondType, loaded)
    ensures IsLoaded(Remaining(upserted, bondType, keep), bondType, NextRows(toState, loaded, run))
    ensures forall vote, other :: other != bondType ==>
              var key := RowKey(vote, other);
              && (key in Remaining(upserted, bondType, keep) <==> key in before)
              && (key in before ==> Remaining(upserted, bondType, keep)[key] == before[key])
  {
    var saving := Saving(run);
    var states := StatesOf(toState, saving, run.epoch);
    SavedKeys(toState, bondType, saving, run.epoch);
    forall vote | vote in Votes(saving)
      ensures upserted[RowKey(vote, bondType)] == toState(ValidatorWith(saving, vote), run.epoch)
    {
      var v := ValidatorWith(saving, vote);
      var i :| 0 <= i < |saving| && saving[i] == v;
      assert RowKeyOf(states[i]) == RowKey(vote, bondType);
    }
    SucceedingVotes(run.validators, Failed(run));
  }

  /** `voteAccountOf` over all validators. */
  method CollectVotes(validators: seq<Validator>) returns (votes: set<string>)
    ensures votes == Votes(validators)
  {
    votes := {};
    for k := 0 to |validators|
      invariant votes == Votes(validators[..k])
    {
      VotesSnoc(validators[..k], validators[k]);
      assert validators[..k + 1] == validators[..k] + [validators[k]];
      votes := votes + {VoteOf(validators[k])};
    }
    assert validators[..|validators|] == validators;
  }

  /** The transaction of one run: saves the states and deletes the rows of removed validators, or rolls back. */
  method Commit(toState: StateMaker, store: StateStore, bondType: BondType, validators: seq<Validator>, epoch: int,
                failed: set<string>, fails: bool, ghost events: seq<BondsEvent>, ghost sent: seq<bool>,
                ghost loaded: map<string, ValidatorState>)
    returns (ok: bool)
    requires |sent| == |events| && failed == FailedVotes(events, sent)
    requires KeepsKeys(toState, bondType, Succeeding(validators, failed), epoch)
    requires IsLoaded(store.rows, bondType, loaded)
    modifies store
    ensures ok <==> !fails && VotesDistinct(Succeeding(validators, failed))
    ensures IsLoaded(store.rows, bondType, NextRows(toState, loaded, Run(validators, epoch, events, sent, ok)))
    ensures forall vote, other :: other != bondType ==>
              var key := RowKey(vote, other);
              && (key in store.rows <==> key in old(store.rows))
              && (key in store.rows ==> store.rows[key] == old(store.rows[key]))
  {
    var states := CollectStates(toState, validators, epoch, failed);
    var keep := CollectVotes(validators);
    keep := keep + failed;
    SavedKeys(toState, bondType, Succeeding(validators, failed), epoch);
    ok := !fails;
    if ok {
      ok := store.SaveCurrentState(states);
    }
    if ok {
      TransactionMakesNextRows(toState, bondType, Run(validators, epoch, events, sent, true), keep, old(store.rows),
                               store.rows, loaded);
      store.DeleteRemovedValidators(bondType, keep);
    }
  }

  function StateOf(address: BondAddress): StateMaker {
    (v: Validator, epoch: int) => ToState(address, v, epoch)
  }

  /** `runEventingPipeline`: evaluates against the loaded rows, or against none without a database, posts every event
      once unless it is a dry run or there is no API, and commits unless it is a dry run or the database fails. The
      store makes the step of the run it returns. */
  method RunPipeline(address: BondAddress, config: PipelineConfig, store: StateStore, bondType: BondType,
                     validators: seq<Validator>, epoch: int, respond: nat -> (nat -> Response), faults: Faults)
    returns (thrown: bool, ghost run: Run, ghost loaded: map<string, ValidatorState>, ghost posted: seq<nat>)
    requires config.emit.emitConcurrency >= 1
    requires forall v :: v in validators ==> TypeOf(v) == bondType
    modifies store
    ensures IsLoaded(old(store.rows), bondType, loaded)
    ensures run.validators == validators && run.epoch == epoch && WellFormed(run)
    ensures IsEvaluation(address, bondType, validators, if config.hasPostgres then loaded else map[], epoch, run.events)
    ensures posted == Posts(config.emit, |run.events|)
    ensures forall i :: 0 <= i < |run.events| ==> (run.sent[i] <==> Delivered(config.emit, respond, i))
    ensures run.committed <==>
              && config.hasPostgres && !config.emit.dryRun && !faults.transactionFails
              && !(faults.persistFails && run.events != []) && VotesDistinct(Saving(run))
    ensures thrown <==> config.hasPostgres && !config.emit.dryRun && !run.committed
    ensures ValidRun(address, bondType, loaded, run)
    ensures IsLoaded(store.rows, bondType, NextRows(StateOf(address), loaded, run))
    ensures forall vote, other :: other != bondType ==>
              var key := RowKey(vote, other);
              && (key in store.rows <==> key in old(store.rows))
              && (key in store.rows ==> store.rows[key] == old(store.rows[key]))
  {
    var previousState: map<string, ValidatorState> := map[];
    loaded := store.LoadPreviousState(bondType);
    if config.hasPostgres {
      previousState := store.LoadPreviousState(bondType);
      LoadedUnique(store.rows, bondType, loaded, previousState);
    }
    var events := Evaluate(address, bondType, validators, previousState, epoch);
    var results;
    results, posted := EmitEvents.Emit(|events|, config.emit, respond);
    ghost var sent := seq(|events|, i requires 0 <= i < |events| => results[i] == Sent);
    var committed := false;
    if config.hasPostgres && !config.emit.dryRun && !(faults.persistFails && events != []) {
      var failed := CollectFailed(events, results, sent);
      SavingKeepsKeys(address, bondType, validators, failed, epoch);
      committed := Commit(StateOf(address), store, bondType, validators, epoch, failed, faults.transactionFails, events,
                          sent, loaded);
    }
    run := Run(validators, epoch, events, sent, committed);
    thrown := config.hasPostgres && !config.emit.dryRun && !committed;
  }

  lemma LoadedUnique(rows: map<RowKey, ValidatorState>, bondType: BondType, m: map<string, ValidatorState>,
                     n: map<string, ValidatorState>)
    requires IsLoaded(rows, bondType, m) && IsLoaded(rows, bondType, n)
    ensures m == n
  {
    assert m.Keys == n.Keys;
  }

  lemma SavingKeepsKeys(address: BondAddress, bondType: BondType, validators: seq<Validator>, failed: set<string>,
                        epoch: int)
    requires forall v :: v in validators ==> TypeOf(v) == bondType
    ensures KeepsKeys(StateOf(address), bondType, Succeeding(validators, failed), epoch)
  {
    forall v | v in Succeeding(validators, failed)
      ensures RowKeyOf(StateOf(address)(v, epoch)) == RowKey(VoteOf(v), bondType)
    {
      SucceedingMembers(validators, failed, v);
    }
  }
}
