/** packages/bonds-eventing: the two evaluators, and what evaluating saved states again reports. */
module EvaluateDeltas {
  import opened Wrappers
  import opened Sums
  import opened Eventing
  import opened EventMeaning

  /** `events.push`, unless the builder returned null. */
  function Push(address: BondAddress, v: Validator, epoch: int, events: seq<BondsEvent>,
                details: Option<Details>): seq<BondsEvent> {
    if details.Some? then events + [MakeEvent(address, v, epoch, details.value)] else events
  }

  /** Pushing one more entry of a report extends what was emitted of it. */
  lemma PushNext(address: BondAddress, v: Validator, epoch: int, before: seq<BondsEvent>, report: seq<Option<Details>>,
                 k: nat)
    requires k < |report|
    ensures Push(address, v, epoch, before + Emitted(address, v, epoch, report[..k]), report[k])
         == before + Emitted(address, v, epoch, report[..k + 1])
  {
    assert report[..k + 1] == report[..k] + [report[k]];
    FlatMapSnoc(EventMaker(address, v, epoch), report[..k], report[k]);
  }

  /** Pushing what the builders of one validator returned, in order. */
  method PushReport(address: BondAddress, v: Validator, epoch: int, report: seq<Option<Details>>,
                    before: seq<BondsEvent>)
    returns (events: seq<BondsEvent>)
    ensures events == before + Emitted(address, v, epoch, report)
  {
    events := before;
    for k := 0 to |report|
      invariant events == before + Emitted(address, v, epoch, report[..k])
    {
      PushNext(address, v, epoch, before, report, k);
      events := Push(address, v, epoch, events, report[k]);
    }
    assert report[..|report|] == report;
  }

  lemma VotesSnoc(validators: seq<Validator>, v: Validator)
    ensures Votes(validators + [v]) == Votes(validators) + {VoteOf(v)}
  {
    assert v in validators + [v];
    assert forall w :: w in validators + [v] <==> w in validators || w == v;
  }

  /** The loop over the current validators, which also collects the vote accounts seen. */
  method PushCurrent(address: BondAddress, validators: seq<Validator>, rows: map<string, ValidatorState>, epoch: int)
    returns (events: seq<BondsEvent>, seen: set<string>)
    ensures events == CurrentEvents(address, validators, rows, epoch)
    ensures seen == Votes(validators)
  {
    events, seen := [], {};
    for k := 0 to |validators|
      invariant seen == Votes(validators[..k])
      invariant events == CurrentEvents(address, validators[..k], rows, epoch)
    {
      var v := validators[k];
      VotesSnoc(validators[..k], v);
      FlatMapSnoc(EventsMaker(address, rows, epoch), validators[..k], v);
      assert validators[..k + 1] == validators[..k] + [v];
      seen := seen + {VoteOf(v)};
      events := PushReport(address, v, epoch, Report(v, Stored(rows, VoteOf(v)), epoch), events);
    }
    assert validators[..|validators|] == validators;
  }

  /** The loop over the previous state, which may present its rows in any order. */
  method PushDelisted(address: BondAddress, bondType: BondType, seen: set<string>, rows: map<string, ValidatorState>,
                      epoch: int, before: seq<BondsEvent>)
    returns (events: seq<BondsEvent>)
    ensures |before| <= |events| && events[..|before|] == before
    ensures Delists(address, bondType, rows.Keys - seen, rows, epoch, events[|before|..])
  {
    var tail: seq<BondsEvent> := [];
    var rest := rows.Keys;
    while rest != {}
      invariant rest <= rows.Keys
      invariant Delists(address, bondType, rows.Keys - seen - rest, rows, epoch, tail)
      decreases rest
    {
      var vote :| vote in rest;
      var prev := rows[vote];
      rest := rest - {vote};
      if vote !in seen && (prev.fundedAmountLamports > 0 || prev.inAuction) {
        ghost var shorter := tail;
        tail := tail + [DelistedEvent(address, bondType, vote, prev, epoch)];
        assert tail[|shorter|] == DelistedEvent(address, bondType, vote, prev, epoch);
        assert forall e :: e in shorter ==> e in tail;
      }
    }
    assert rows.Keys - seen - {} == rows.Keys - seen;
    events := before + tail;
    assert events[|before|..] == tail;
  }

  function Auctions(validators: seq<AuctionValidator>): seq<Validator> {
    seq(|validators|, k requires 0 <= k < |validators| => Auction(validators[k]))
  }

  function Selects(validators: seq<InstitutionalValidator>): seq<Validator> {
    seq(|validators|, k requires 0 <= k < |validators| => Select(validators[k]))
  }

  /** Both evaluators: the current validators in their order, then the rows that are gone. */
  method Evaluate(address: BondAddress, bondType: BondType, validators: seq<Validator>,
                  rows: map<string, ValidatorState>, epoch: int)
    returns (events: seq<BondsEvent>)
    ensures IsEvaluation(address, bondType, validators, rows, epoch, events)
    ensures EvaluationMeans(address, bondType, validators, rows, epoch, events)
  {
    var current, seen := PushCurrent(address, validators, rows, epoch);
    events := PushDelisted(address, bondType, seen, rows, epoch, current);
    EvaluationIsMeant(address, bondType, validators, rows, epoch, events);
  }

  /** `evaluateDeltas`. */
  method EvaluateDeltas(address: BondAddress, validators: seq<AuctionValidator>, rows: map<string, ValidatorState>,
                        epoch: int)
    returns (events: seq<BondsEvent>)
    ensures IsEvaluation(address, Bidding, Auctions(validators), rows, epoch, events)
    ensures EvaluationMeans(address, Bidding, Auctions(validators), rows, epoch, events)
  {
    events := Evaluate(address, Bidding, Auctions(validators), rows, epoch);
  }

  /** `evaluateInstitutionalDeltas`. */
  method EvaluateInstitutionalDeltas(address: BondAddress, validators: seq<InstitutionalValidator>,
                                     rows: map<string, ValidatorState>, epoch: int)
    returns (events: seq<BondsEvent>)
    ensures IsEvaluation(address, Institutional, Selects(validators), rows, epoch, events)
    ensures EvaluationMeans(address, Institutional, Selects(validators), rows, epoch, events)
  {
    events := Evaluate(address, Institutional, Selects(validators), rows, epoch);
  }

  // ------------------------------------------------------------------- quiescence

  /** `rows` is exactly what saving `validators` at `epoch` leaves. */
  ghost predicate SavedFrom(address: BondAddress, validators: seq<Validator>, rows: map<string, ValidatorState>,
                            epoch: int) {
    && rows.Keys == Votes(validators)
    && forall v :: v in validators ==> rows[VoteOf(v)] == ToState(address, v, epoch)
  }

  lemma ReportAgainstOwnState(address: BondAddress, v: Validator, saved: int, epoch: int)
    ensures forall d :: d in Report(v, Some(ToState(address, v, saved)), epoch) ==>
              d.None? || (v.Auction? && saved != epoch && d.value.PenaltyExpected?)
  {
  }

  lemma NothingDelisted(address: BondAddress, bondType: BondType, gone: set<string>, rows: map<string, ValidatorState>,
                        epoch: int, tail: seq<BondsEvent>)
    requires Delists(address, bondType, gone, rows, epoch, tail)
    ensures gone == {} ==> tail == []
  {
    if tail != [] {
      assert tail[0].voteAccount in gone;
    }
  }

  /** Quiescence, bidding and institutional: evaluating validators against the states just saved from them,
      in the same epoch, reports nothing. */
  lemma Quiescence(address: BondAddress, bondType: BondType, validators: seq<Validator>,
                   rows: map<string, ValidatorState>, epoch: int, events: seq<BondsEvent>)
    requires SavedFrom(address, validators, rows, epoch)
    requires IsEvaluation(address, bondType, validators, rows, epoch, events)
    ensures events == []
  {
    forall v | v in validators
      ensures EventsOf(address, v, Stored(rows, VoteOf(v)), epoch) == []
    {
      ReportAgainstOwnState(address, v, epoch, epoch);
      FlatMapNothing(EventMaker(address, v, epoch), Report(v, Stored(rows, VoteOf(v)), epoch));
    }
    FlatMapNothing(EventsMaker(address, rows, epoch), validators);
    assert events[0..] == events;
    NothingDelisted(address, bondType, rows.Keys - Votes(validators), rows, epoch, events);
  }

  /** A current event is the event of some validator's report entry. */
  lemma CurrentEventFrom(address: BondAddress, validators: seq<Validator>, rows: map<string, ValidatorState>,
                         epoch: int, e: BondsEvent)
    returns (v: Validator, d: Option<Details>)
    requires e in CurrentEvents(address, validators, rows, epoch)
    ensures v in validators && d in Report(v, Stored(rows, VoteOf(v)), epoch)
    ensures d.Some? && e == MakeEvent(address, v, epoch, d.value)
  {
    FlatMapMembers(EventsMaker(address, rows, epoch), validators, e);
    v :| v in validators && e in EventsMaker(address, rows, epoch)(v);
    var report := Report(v, Stored(rows, VoteOf(v)), epoch);
    FlatMapMembers(EventMaker(address, v, epoch), report, e);
    d :| d in report && e in EventMaker(address, v, epoch)(d);
  }

  /** In another epoch and with equal data, only bidding validators report, and only expected penalties. */
  lemma QuiescenceInLaterEpoch(address: BondAddress, bondType: BondType, validators: seq<Validator>,
                               rows: map<string, ValidatorState>, saved: int, epoch: int, events: seq<BondsEvent>,
                               e: BondsEvent)
    requires SavedFrom(address, validators, rows, saved)
    requires IsEvaluation(address, bondType, validators, rows, epoch, events) && e in events
    ensures e.details.PenaltyExpected? && exists v :: v in validators && v.Auction? && VoteOf(v) == e.voteAccount
  {
    var current := CurrentEvents(address, validators, rows, epoch);
    assert events == current + events[|current|..];
    NothingDelisted(address, bondType, rows.Keys - Votes(validators), rows, epoch, events[|current|..]);
    var v, d := CurrentEventFrom(address, validators, rows, epoch, e);
    ReportAgainstOwnState(address, v, saved, epoch);
  }

  // ------------------------------------------------------------------- silence

  /** A settlement is worth reporting: at least the minimum, and not the one already seen. */
  predicate SettlementDue(current: int, previous: int) {
    current >= MIN_SETTLEMENT_LAMPORTS && current != previous
  }

  predicate PenaltyDue(a: AuctionValidator) {
    ComputePenalties(a).total > DUST_SOL_THRESHOLD || ActivatingStakeFee(a) > DUST_SOL_THRESHOLD
  }

  /** Saving `next` over `prev` changes nothing that is reported. Unknown epochs and an unknown deficit do not count as
      changes; a bidding validator's settlements are the gap between its funded and its effective amount. */
  predicate Unremarkable(v: Validator, prev: ValidatorState, next: ValidatorState) {
    && next.fundedAmountLamports == prev.fundedAmountLamports
    && match v
       case Auction(a) =>
         && next.inAuction == prev.inAuction
         && next.capConstraint == prev.capConstraint
         && next.samEligible == prev.samEligible
         && (next.bondGoodForNEpochs.Some? ==> next.bondGoodForNEpochs == prev.bondGoodForNEpochs)
         && (ComputeDeficitMetrics(a).Some? ==> next.deficitLamports == prev.deficitLamports)
         && !SettlementDue(next.fundedAmountLamports - next.effectiveAmountLamports,
                           prev.fundedAmountLamports - prev.effectiveAmountLamports)
         && (PenaltyDue(a) ==> next.epoch == prev.epoch)
       case Select(i) =>
         && next.deficitLamports == prev.deficitLamports
         && !SettlementDue(next.settlementClaimsLamports.GetOr(0), prev.settlementClaimsLamports.GetOr(0))
  }

  lemma NothingEmittedIff(address: BondAddress, v: Validator, epoch: int, report: seq<Option<Details>>)
    ensures Emitted(address, v, epoch, report) == [] <==> forall d :: d in report ==> d.None?
  {
    if forall d :: d in report ==> d.None? {
      FlatMapNothing(EventMaker(address, v, epoch), report);
    } else {
      var d :| d in report && d.Some?;
      FlatMapMembers(EventMaker(address, v, epoch), report, MakeEvent(address, v, epoch, d.value));
    }
  }

  lemma AllNoneByIndex(report: seq<Option<Details>>)
    ensures (forall d :: d in report ==> d.None?) <==> forall k :: 0 <= k < |report| ==> report[k].None?
  {
  }

  lemma NothingReportedIff(address: BondAddress, v: Validator, prev: ValidatorState, epoch: int)
    ensures (forall d :: d in Report(v, Some(prev), epoch) ==> d.None?)
       <==> Unremarkable(v, prev, ToState(address, v, epoch))
  {
    var report := Report(v, Some(prev), epoch);
    AllNoneByIndex(report);
    if v.Auction? {
      assert (forall k :: 0 <= k < |report| ==> report[k].None?) <==>
        report[0].None? && report[1].None? && report[2].None? && report[3].None? && report[4].None? && report[5].None?
        && report[6].None?;
    } else {
      assert (forall k :: 0 <= k < |report| ==> report[k].None?)
             <==> report[0].None? && report[1].None? && report[2].None?;
    }
  }

  /** A validator without a row always reports; one with a row is silent exactly when the state that saving it now would
      store is unremarkable against that row. */
  lemma SilentIffUnremarkable(address: BondAddress, v: Validator, prev: Option<ValidatorState>, epoch: int)
    ensures EventsOf(address, v, prev, epoch) == []
       <==> prev.Some? && Unremarkable(v, prev.value, ToState(address, v, epoch))
  {
    NothingEmittedIff(address, v, epoch, Report(v, prev, epoch));
    if prev.Some? {
      NothingReportedIff(address, v, prev.value, epoch);
    } else {
      assert Report(v, prev, epoch)[0] in Report(v, prev, epoch);
    }
  }
}
