/** packages/bonds-eventing: what stored states and events say, in terms of what was given. */
module EventMeaning {
  import opened Wrappers
  import opened Sums
  import opened Eventing

  // ------------------------------------------------------------------- amounts

  /** A number that is not there or not finite counts as zero. */
  function Value(amount: MaybeNum): real {
    if amount.Some? && amount.value.Fin? then amount.value.r else 0.0
  }

  predicate Known(amount: MaybeNum) {
    amount.Some? && amount.value.Fin?
  }

  /** The nearest integer, halves away from zero. */
  predicate Nearest(n: int, x: real) {
    if x >= 0.0 then n as real - 0.5 <= x < n as real + 0.5 else n as real - 0.5 < x <= n as real + 0.5
  }

  predicate InLamports(n: int, sol: MaybeNum) {
    Nearest(n, Value(sol) * 1_000_000_000.0)
  }

  lemma NearestUnique(m: int, n: int, x: real)
    requires Nearest(m, x) && Nearest(n, x)
    ensures m == n
  {
    assert m as real < n as real + 1.0 && n as real < m as real + 1.0;
  }

  /** SOL become lamports by rounding to the nearest one; what is lost is at most half a lamport, and the sign does not
      matter. */
  lemma LamportsAreNearest(sol: MaybeNum, n: int)
    ensures InLamports(n, sol) <==> n == SolToLamports(sol)
    ensures Known(sol) ==> -0.5 <= SolToLamports(sol) as real - sol.value.r * 1_000_000_000.0 <= 0.5
    ensures Known(sol) ==> SolToLamports(Some(Fin(-sol.value.r))) == -SolToLamports(sol)
  {
    var x := Value(sol) * 1_000_000_000.0;
    RoundedIsNearest(if x >= 0.0 then x else -x);
    if InLamports(n, sol) {
      NearestUnique(n, SolToLamports(sol), x);
    }
  }

  lemma RoundedIsNearest(x: real)
    requires x >= 0.0
    ensures Nearest(RoundHalfUp(x), x) && Nearest(-RoundHalfUp(x), -x)
  {
    var y := x + 0.5;
    assert y.Floor as real <= y < y.Floor as real + 1.0;
  }

  /** Hundredths, halves up; unknown if the number is. */
  ghost predicate InHundredths(epochs: Option<real>, value: MaybeNum) {
    if Known(value)
    then epochs.Some? && exists n: int :: RoundsUpTo(value.value.r, n) && epochs.value == n as real / 100.0
    else epochs.None?
  }

  predicate RoundsUpTo(r: real, n: int) {
    n as real - 0.5 <= 100.0 * r < n as real + 0.5
  }

  lemma EpochsInHundredths(value: MaybeNum, epochs: Option<real>)
    ensures InHundredths(epochs, value) <==> epochs == RoundEpochs(value)
  {
    if Known(value) {
      var x := value.value.r * 100.0;
      var y := x + 0.5;
      assert y.Floor as real <= y < y.Floor as real + 1.0;
      assert RoundsUpTo(value.value.r, RoundHalfUp(x));
      forall n: int | RoundsUpTo(value.value.r, n)
        ensures n == RoundHalfUp(x)
      {
        assert n as real < RoundHalfUp(x) as real + 1.0 && RoundHalfUp(x) as real < n as real + 1.0;
      }
    }
  }

  // -------------------------------------------------------- deficits and penalties

  /** The bid and a stake are known. */
  predicate BidKnown(a: AuctionValidator) {
    Known(a.expectedMaxEffBidPmpe) && Known(a.marinadeActivatedStakeSol) && a.marinadeActivatedStakeSol.value.r != 0.0
  }

  /** What a thousand epochs cost: the bid on the whole stake, on-chain obligations on the protected part of it. */
  function CostOfThousand(a: AuctionValidator): real {
    var stake, unprotected := Value(a.marinadeActivatedStakeSol), Value(a.unprotectedStakeSol);
    Value(a.expectedMaxEffBidPmpe) * stake
    + Value(a.onchainDistributedPmpe) * if stake > unprotected then stake - unprotected else 0.0
  }

  /** With `more` the bond covers one epoch. */
  predicate Covers(a: AuctionValidator, more: real) {
    1000.0 * (Value(a.bondBalanceSol) + more) >= CostOfThousand(a)
  }

  ghost predicate LeastTopUp(a: AuctionValidator, deficit: real) {
    && deficit >= 0.0 && Covers(a, deficit)
    && forall more: real :: more >= 0.0 && Covers(a, more) ==> deficit <= more
  }

  lemma TopUpUnique(a: AuctionValidator, d: real, e: real)
    requires LeastTopUp(a, d) && LeastTopUp(a, e)
    ensures d == e
  {
  }

  lemma PerMille(pmpe: real, stake: real)
    ensures 1000.0 * (pmpe / 1000.0 * stake) == pmpe * stake
    ensures 1000.0 * (stake * pmpe / 1000.0) == stake * pmpe
  {
    assert 1000.0 * (pmpe / 1000.0) == pmpe;
    assert 1000.0 * (pmpe / 1000.0 * stake) == (1000.0 * (pmpe / 1000.0)) * stake;
  }

  /** The deficit is unknown exactly without a bid or a stake; otherwise it is the least amount that tops up the bond to
      cover one epoch. */
  lemma DeficitIsLeastTopUp(a: AuctionValidator)
    ensures DeficitSol(a).Some? <==> BidKnown(a)
    ensures BidKnown(a) ==> DeficitSol(a).value.Fin? && LeastTopUp(a, DeficitSol(a).value.r)
    ensures BidKnown(a) ==>
              var metrics := ComputeDeficitMetrics(a).value;
              && metrics.pmpe == Value(a.expectedMaxEffBidPmpe)
              && 1000.0 * metrics.epochCostSol == metrics.pmpe * Value(a.marinadeActivatedStakeSol)
              && 1000.0 * metrics.requiredSol == CostOfThousand(a)
  {
    if BidKnown(a) {
      var stake := a.marinadeActivatedStakeSol.value.r;
      var protectedStake := MaxReal(0.0, stake - FiniteOr(a.unprotectedStakeSol, 0.0));
      PerMille(a.expectedMaxEffBidPmpe.value.r, stake);
      PerMille(FiniteOr(a.onchainDistributedPmpe, 0.0), protectedStake);
      var required := ComputeDeficitMetrics(a).value.requiredSol;
      assert 1000.0 * required == CostOfThousand(a);
    }
  }

  /** The components of the penalty, each for itself, and the fee on newly activating stake. */
  predicate ArePenalties(a: AuctionValidator, p: Penalties) {
    && 1000.0 * p.bidTooLow == Value(a.bidTooLowPenaltyPmpe) * Value(a.marinadeActivatedStakeSol)
    && 1000.0 * p.blacklist == Value(a.blacklistPenaltyPmpe) * Value(a.marinadeActivatedStakeSol)
    && p.bondRiskFee == Value(a.bondRiskFeeSol)
    && p.total == p.bidTooLow + p.blacklist + p.bondRiskFee
  }

  function Activating(a: AuctionValidator): real {
    var target, stake := Value(a.marinadeSamTargetSol), Value(a.marinadeActivatedStakeSol);
    if target > stake then target - stake else 0.0
  }

  predicate IsActivatingFee(a: AuctionValidator, fee: real) {
    1000.0 * fee == Activating(a) * Value(a.activatingStakePmpe)
  }

  lemma PenaltiesAre(a: AuctionValidator, p: Penalties, fee: real)
    ensures ArePenalties(a, p) <==> p == ComputePenalties(a)
    ensures IsActivatingFee(a, fee) <==> fee == ActivatingStakeFee(a)
  {
    var stake := FiniteOr(a.marinadeActivatedStakeSol, 0.0);
    PerMille(FiniteOr(a.bidTooLowPenaltyPmpe, 0.0), stake);
    PerMille(FiniteOr(a.blacklistPenaltyPmpe, 0.0), stake);
    PerMille(FiniteOr(a.activatingStakePmpe, 0.0), Activating(a));
    assert Activating(a) == MaxReal(0.0, FiniteOr(a.marinadeSamTargetSol, 0.0) - stake);
  }

  /** The institutional requirement: a two-thousandth of the stake, cut toward zero. */
  predicate IsRequired(required: int, stake: int) {
    if stake >= 0 then 2000 * required <= stake < 2000 * (required + 1)
    else 2000 * required >= stake > 2000 * (required - 1)
  }

  /** With `more` the effective amount reaches the requirement. */
  ghost predicate FlatCovers(i: InstitutionalValidator, more: int) {
    forall required :: IsRequired(required, i.institutionalStakeLamports) ==>
      i.effectiveAmountLamports + more >= required
  }

  ghost predicate LeastFlatTopUp(i: InstitutionalValidator, deficit: int) {
    && deficit >= 0 && FlatCovers(i, deficit)
    && forall more :: more >= 0 && FlatCovers(i, more) ==> deficit <= more
  }

  /** The institutional deficit is the least amount with which the effective amount reaches the requirement. */
  lemma FlatDeficitIsLeast(i: InstitutionalValidator, deficit: int)
    ensures LeastFlatTopUp(i, deficit) <==> deficit == SelectDeficit(i)
  {
    var stake, effective := i.institutionalStakeLamports, i.effectiveAmountLamports;
    var required := TruncDiv(stake, 2000);
    assert IsRequired(required, stake);
    forall more
      ensures FlatCovers(i, more) <==> effective + more >= required
    {
      assert forall other :: IsRequired(other, stake) ==> other == required;
    }
    assert FlatCovers(i, if required > effective then required - effective else 0);
  }

  // -------------------------------------------------------------- stored states

  /** `st` is what a bidding validator's row has to say. */
  ghost predicate DescribesAuction(address: BondAddress, a: AuctionValidator, epoch: int, st: ValidatorState) {
    && st.voteAccount == a.voteAccount && st.bondPubkey == Some(address(Bidding, a.voteAccount))
    && st.bondType == Bidding && st.epoch == epoch && st.samEligible == a.samEligible
    && (st.inAuction <==> a.marinadeSamTargetSol == Some(PosInf) || Value(a.marinadeSamTargetSol) > 0.0)
    && InHundredths(st.bondGoodForNEpochs, a.bondGoodForNEpochs)
    && (match a.lastCapConstraint
        case None => st.capConstraint == None && st.capMarinadeStakeSol == None
        case Some(cap) =>
          st.capConstraint == Some(cap.constraintType) && st.capMarinadeStakeSol == cap.marinadeStakeSol)
    && InLamports(st.fundedAmountLamports, a.bondBalanceSol)
    && InLamports(st.effectiveAmountLamports,
                  if a.claimableBondBalanceSol == None then a.bondBalanceSol else a.claimableBondBalanceSol)
    && InLamports(st.auctionStakeLamports, a.marinadeSamTargetSol)
    && (if BidKnown(a) then exists d: real :: LeastTopUp(a, d) && InLamports(st.deficitLamports, Some(Fin(d)))
        else st.deficitLamports == 0)
    && st.settlementClaimsLamports == None
  }

  ghost predicate DescribesSelect(i: InstitutionalValidator, epoch: int, st: ValidatorState) {
    && st.voteAccount == i.voteAccount && st.bondPubkey == Some(i.bondPubkey)
    && st.bondType == Institutional && st.epoch == epoch && !st.samEligible && !st.inAuction
    && st.bondGoodForNEpochs == None && st.capConstraint == None && st.capMarinadeStakeSol == None
    && st.fundedAmountLamports == i.fundedAmountLamports
    && st.effectiveAmountLamports == i.effectiveAmountLamports
    && st.auctionStakeLamports == 0
    && LeastFlatTopUp(i, st.deficitLamports)
    && st.settlementClaimsLamports == Some(i.settlementClaimsLamports)
  }

  ghost predicate Describes(address: BondAddress, v: Validator, epoch: int, st: ValidatorState) {
    match v
    case Auction(a) => DescribesAuction(address, a, epoch, st)
    case Select(i) => DescribesSelect(i, epoch, st)
  }

  lemma AuctionDescribed(address: BondAddress, a: AuctionValidator, epoch: int, st: ValidatorState)
    ensures DescribesAuction(address, a, epoch, st) <==> st == AuctionState(address, a, epoch)
  {
    var state := AuctionState(address, a, epoch);
    EpochsInHundredths(a.bondGoodForNEpochs, st.bondGoodForNEpochs);
    LamportsAreNearest(a.bondBalanceSol, st.fundedAmountLamports);
    LamportsAreNearest(if a.claimableBondBalanceSol == None then a.bondBalanceSol else a.claimableBondBalanceSol,
                       st.effectiveAmountLamports);
    LamportsAreNearest(a.marinadeSamTargetSol, st.auctionStakeLamports);
    DeficitDescribed(a, st.deficitLamports);
  }

  lemma DeficitDescribed(a: AuctionValidator, n: int)
    ensures n == SolToLamports(DeficitSol(a))
       <==> if BidKnown(a) then exists d: real :: LeastTopUp(a, d) && InLamports(n, Some(Fin(d))) else n == 0
  {
    DeficitIsLeastTopUp(a);
    if BidKnown(a) {
      var deficit := DeficitSol(a).value.r;
      LamportsAreNearest(Some(Fin(deficit)), n);
      forall d: real | LeastTopUp(a, d)
        ensures d == deficit
      {
        TopUpUnique(a, d, deficit);
      }
    }
  }

  /** The state that a run stores is the one state that describes the validator. */
  lemma StateDescribes(address: BondAddress, v: Validator, epoch: int, st: ValidatorState)
    ensures Describes(address, v, epoch, st) <==> st == ToState(address, v, epoch)
  {
    match v
    case Auction(a) => AuctionDescribed(address, a, epoch, st);
    case Select(i) => FlatDeficitIsLeast(i, st.deficitLamports);
  }

  /** A larger bond never has a larger deficit stored. */
  lemma DeficitFallsWithBond(address: BondAddress, a: AuctionValidator, epoch: int, bond: real, larger: real)
    requires bond <= larger
    ensures AuctionState(address, a.(bondBalanceSol := Some(Fin(larger))), epoch).deficitLamports
         <= AuctionState(address, a.(bondBalanceSol := Some(Fin(bond))), epoch).deficitLamports
  {
    var poor, rich := a.(bondBalanceSol := Some(Fin(bond))), a.(bondBalanceSol := Some(Fin(larger)));
    DeficitIsLeastTopUp(poor);
    DeficitIsLeastTopUp(rich);
    if BidKnown(a) {
      var d, e := DeficitSol(poor).value.r, DeficitSol(rich).value.r;
      assert CostOfThousand(poor) == CostOfThousand(rich);
      assert Covers(rich, d);
      LamportsMonotone(e, d);
    }
  }

  lemma LamportsMonotone(x: real, y: real)
    requires 0.0 <= x <= y
    ensures SolToLamports(Some(Fin(x))) <= SolToLamports(Some(Fin(y)))
  {
    var p, q := x * 1_000_000_000.0 + 0.5, y * 1_000_000_000.0 + 0.5;
    assert p <= q;
    assert p.Floor as real <= q < q.Floor as real + 1.0;
  }

  // -------------------------------------------------------------------- events

  /** The settlement that a state has pending: institutional states carry it, for bidding ones it is what is funded and
      not effective. */
  function Pending(v: Validator, st: ValidatorState): int {
    match v
    case Auction(_) => st.fundedAmountLamports - st.effectiveAmountLamports
    case Select(_) => if st.settlementClaimsLamports.Some? then st.settlementClaimsLamports.value else 0
  }

  /** A bidding validator whose row is `prev` and becomes `next` calls for `d`. */
  predicate AuctionCallsFor(a: AuctionValidator, prev: ValidatorState, next: ValidatorState, d: Details) {
    match d
    case AuctionEntered(target, epochs) =>
      !prev.inAuction && next.inAuction && target == a.marinadeSamTargetSol && epochs == next.bondGoodForNEpochs
    case AuctionExited(stake, eligible) =>
      prev.inAuction && !next.inAuction && stake == prev.auctionStakeLamports && eligible == next.samEligible
    case CapChanged(before, after, beforeSol, afterSol) =>
      && prev.capConstraint != next.capConstraint
      && before == prev.capConstraint && after == next.capConstraint
      && beforeSol == prev.capMarinadeStakeSol && afterSol == next.capMarinadeStakeSol
    case BondUnderfundedChange(before, after, deficitBefore, deficitAfter) =>
      && before == prev.bondGoodForNEpochs && after == next.bondGoodForNEpochs
      && deficitBefore == prev.deficitLamports && deficitAfter == next.deficitLamports
      && ((after.Some? && after != before) || (BidKnown(a) && deficitAfter != deficitBefore))
    case PenaltyExpected(penalties, fee) =>
      && prev.epoch != next.epoch && ArePenalties(a, penalties)
      && var exact := Activating(a) * Value(a.activatingStakePmpe);
         && (penalties.total > 0.001 || exact > 1.0)
         && 1000.0 * fee == if exact > 1.0 then exact else 0.0
    case SamEligibleChange(before, after) =>
      before == prev.samEligible && after == next.samEligible && before != after
    case _ => false
  }

  predicate SelectCallsFor(prev: ValidatorState, next: ValidatorState, d: Details) {
    d.BondUnderfundedChange? && d == BondUnderfundedChange(None, None, prev.deficitLamports, next.deficitLamports)
    && prev.deficitLamports != next.deficitLamports
  }

  /** What every validator with a row reports alike: balances, and settlements of at least ten million lamports. */
  predicate BothCallFor(v: Validator, prev: ValidatorState, next: ValidatorState, d: Details) {
    match d
    case BondBalanceChange(before, after, delta, effectiveBefore, effectiveAfter) =>
      && before == prev.fundedAmountLamports && after == next.fundedAmountLamports && before != after
      && before + delta == after
      && effectiveBefore == prev.effectiveAmountLamports && effectiveAfter == next.effectiveAmountLamports
    case SettlementApplied(total, previous) =>
      && total == Pending(v, next) && total >= 10_000_000 && total != Pending(v, prev)
      && previous == if Pending(v, prev) > 0 then Some(Pending(v, prev)) else None
    case _ => false
  }

  /** A validator without a row is reported as seen for the first time, with what its state says. */
  predicate FirstCallsFor(v: Validator, next: ValidatorState, d: Details) {
    d == FirstSeen(if v.Auction? then next.fundedAmountLamports else next.effectiveAmountLamports,
                   next.inAuction, next.bondGoodForNEpochs, next.capConstraint, next.samEligible)
  }

  /** `v`, whose row is `row`, calls for the event details `d`. */
  predicate CallsFor(address: BondAddress, v: Validator, row: Option<ValidatorState>, epoch: int, d: Details) {
    var next := ToState(address, v, epoch);
    match row
    case None => FirstCallsFor(v, next, d)
    case Some(prev) =>
      || BothCallFor(v, prev, next, d)
      || if v.Auction? then AuctionCallsFor(v.a, prev, next, d) else SelectCallsFor(prev, next, d)
  }

  lemma AuctionChangeMeans(a: AuctionValidator, prev: ValidatorState, next: ValidatorState, d: Details)
    requires next.inAuction == Positive(a.marinadeSamTargetSol) && next.samEligible == a.samEligible
    requires next.bondGoodForNEpochs == RoundEpochs(a.bondGoodForNEpochs)
    ensures AuctionChange(a, prev) == Some(d)
       <==> (d.AuctionEntered? || d.AuctionExited?) && AuctionCallsFor(a, prev, next, d)
    ensures SamChange(a, prev) == Some(d) <==> d.SamEligibleChange? && AuctionCallsFor(a, prev, next, d)
  {
  }

  lemma CapChangeMeans(a: AuctionValidator, prev: ValidatorState, next: ValidatorState, d: Details)
    requires next.capConstraint == CurrentCap(a) && next.capMarinadeStakeSol == CurrentCapSol(a)
    ensures CapChange(a, prev) == Some(d) <==> d.CapChanged? && AuctionCallsFor(a, prev, next, d)
  {
  }

  lemma UnderfundedChangeMeans(a: AuctionValidator, prev: ValidatorState, next: ValidatorState, d: Details)
    requires next.bondGoodForNEpochs == RoundEpochs(a.bondGoodForNEpochs)
    requires next.deficitLamports == SolToLamports(DeficitSol(a))
    ensures UnderfundedChange(a, prev) == Some(d) <==> d.BondUnderfundedChange? && AuctionCallsFor(a, prev, next, d)
  {
    DeficitIsLeastTopUp(a);
  }

  lemma PenaltyChangeMeans(a: AuctionValidator, prev: ValidatorState, next: ValidatorState, d: Details)
    ensures PenaltyChange(a, prev, next.epoch) == Some(d) <==> d.PenaltyExpected? && AuctionCallsFor(a, prev, next, d)
  {
    if d.PenaltyExpected? {
      PenaltiesAre(a, d.penalties, ActivatingStakeFee(a));
      assert 1000.0 * ActivatingStakeFee(a) == Activating(a) * Value(a.activatingStakePmpe);
    }
  }

  lemma BothChangesMean(v: Validator, prev: ValidatorState, next: ValidatorState, d: Details)
    ensures BalanceChange(prev, next.fundedAmountLamports, next.effectiveAmountLamports) == Some(d)
       <==> d.BondBalanceChange? && BothCallFor(v, prev, next, d)
    ensures SettlementChange(Pending(v, next), Pending(v, prev)) == Some(d)
       <==> d.SettlementApplied? && BothCallFor(v, prev, next, d)
  {
  }

  lemma OfSeven(report: seq<Option<Details>>, d: Details)
    requires |report| == 7
    ensures Some(d) in report
       <==> Some(d) == report[0] || Some(d) == report[1] || Some(d) == report[2] || Some(d) == report[3]
            || Some(d) == report[4] || Some(d) == report[5] || Some(d) == report[6]
  {
  }

  lemma AuctionReported(address: BondAddress, a: AuctionValidator, prev: ValidatorState, epoch: int, d: Details)
    ensures Some(d) in AuctionReport(a, Some(prev), epoch)
       <==> CallsFor(address, Auction(a), Some(prev), epoch, d)
  {
    var next := AuctionState(address, a, epoch);
    OfSeven(AuctionReport(a, Some(prev), epoch), d);
    AuctionChangeMeans(a, prev, next, d);
    CapChangeMeans(a, prev, next, d);
    UnderfundedChangeMeans(a, prev, next, d);
    BothChangesMean(Auction(a), prev, next, d);
    PenaltyChangeMeans(a, prev, next, d);
  }

  lemma SelectReported(address: BondAddress, i: InstitutionalValidator, prev: ValidatorState, epoch: int, d: Details)
    ensures Some(d) in SelectReport(i, Some(prev)) <==> CallsFor(address, Select(i), Some(prev), epoch, d)
  {
    var report := SelectReport(i, Some(prev));
    assert Some(d) in report <==> report[0] == Some(d) || report[1] == Some(d) || report[2] == Some(d);
  }

  /** A validator's report holds exactly what its row and its next state call for. */
  lemma ReportMeans(address: BondAddress, v: Validator, row: Option<ValidatorState>, epoch: int, d: Details)
    ensures Some(d) in Report(v, row, epoch) <==> CallsFor(address, v, row, epoch, d)
  {
    if row.Some? {
      match v
      case Auction(a) => AuctionReported(address, a, row.value, epoch, d);
      case Select(i) => SelectReported(address, i, row.value, epoch, d);
    }
  }

  // --------------------------------------------------------- order and evaluation

  /** The order in which one validator's events come. */
  function RankOf(d: Details): nat {
    match d
    case FirstSeen(_, _, _, _, _) => 0
    case AuctionEntered(_, _) => 1
    case AuctionExited(_, _) => 1
    case CapChanged(_, _, _, _) => 2
    case BondUnderfundedChange(_, _, _, _) => 3
    case BondBalanceChange(_, _, _, _, _) => 4
    case SettlementApplied(_, _) => 5
    case PenaltyExpected(_, _) => 6
    case SamEligibleChange(_, _) => 7
    case ValidatorDelisted(_, _, _, _) => 8
  }

  function EventAbout(address: BondAddress, v: Validator, epoch: int, d: Details): BondsEvent {
    match v
    case Auction(a) => BondsEvent(a.voteAccount, address(Bidding, a.voteAccount), Bidding, epoch, d)
    case Select(i) => BondsEvent(i.voteAccount, i.bondPubkey, Institutional, epoch, d)
  }

  ghost predicate InOrder(events: seq<BondsEvent>) {
    forall i, j :: 0 <= i < j < |events| ==> RankOf(events[i].details) < RankOf(events[j].details)
  }

  /** `events` are the events that `v` calls for, each once and in order. */
  ghost predicate IsReportOf(address: BondAddress, v: Validator, row: Option<ValidatorState>, epoch: int,
                             events: seq<BondsEvent>) {
    && InOrder(events)
    && (forall e :: e in events ==> e == EventAbout(address, v, epoch, e.details))
    && (forall d :: EventAbout(address, v, epoch, d) in events <==> CallsFor(address, v, row, epoch, d))
  }

  ghost predicate Ascends(report: seq<Option<Details>>) {
    forall i, j :: 0 <= i < j < |report| && report[i].Some? && report[j].Some? ==>
      RankOf(report[i].value) < RankOf(report[j].value)
  }

  lemma ReportAscends(v: Validator, row: Option<ValidatorState>, epoch: int)
    ensures Ascends(Report(v, row, epoch))
  {
    if row.Some? && v.Auction? {
      AuctionAscends(v.a, row.value, epoch);
    }
  }

  lemma AuctionAscends(a: AuctionValidator, prev: ValidatorState, epoch: int)
    ensures Ascends(AuctionReport(a, Some(prev), epoch))
  {
    var report := AuctionReport(a, Some(prev), epoch);
    assert report[0].Some? ==> RankOf(report[0].value) == 1;
    assert forall k :: 1 <= k < 7 && report[k].Some? ==> RankOf(report[k].value) == k + 1;
  }

  lemma {:induction false} EmittedInOrder(address: BondAddress, v: Validator, epoch: int, report: seq<Option<Details>>)
    requires Ascends(report)
    ensures InOrder(Emitted(address, v, epoch, report))
    ensures forall d :: EventAbout(address, v, epoch, d) in Emitted(address, v, epoch, report) <==> Some(d) in report
    ensures forall e :: e in Emitted(address, v, epoch, report) ==> e == EventAbout(address, v, epoch, e.details)
  {
    if report != [] {
      var rest := Emitted(address, v, epoch, report[1..]);
      EmittedInOrder(address, v, epoch, report[1..]);
      assert report == [report[0]] + report[1..];
      forall e | e in rest && report[0].Some?
        ensures RankOf(report[0].value) < RankOf(e.details)
      {
        assert Some(e.details) in report[1..];
      }
    }
  }

  /** What one validator reports is exactly what it calls for. */
  lemma EventsMean(address: BondAddress, v: Validator, row: Option<ValidatorState>, epoch: int)
    ensures IsReportOf(address, v, row, epoch, EventsOf(address, v, row, epoch))
  {
    ReportAscends(v, row, epoch);
    EmittedInOrder(address, v, epoch, Report(v, row, epoch));
    forall d
      ensures Some(d) in Report(v, row, epoch) <==> CallsFor(address, v, row, epoch, d)
    {
      ReportMeans(address, v, row, epoch, d);
    }
  }

  /** `events` are the reports of the validators, one behind the other. */
  ghost predicate AreReports(address: BondAddress, validators: seq<Validator>, rows: map<string, ValidatorState>,
                             epoch: int, events: seq<BondsEvent>) {
    if validators == [] then events == [] else
    exists k :: 0 <= k <= |events|
      && IsReportOf(address, validators[0], RowFor(rows, validators[0]), epoch, events[..k])
      && AreReports(address, validators[1..], rows, epoch, events[k..])
  }

  function RowFor(rows: map<string, ValidatorState>, v: Validator): Option<ValidatorState> {
    var vote := match v case Auction(a) => a.voteAccount case Select(i) => i.voteAccount;
    if vote in rows then Some(rows[vote]) else None
  }

  lemma {:induction false} CurrentMeans(address: BondAddress, validators: seq<Validator>,
                                        rows: map<string, ValidatorState>, epoch: int)
    ensures AreReports(address, validators, rows, epoch, CurrentEvents(address, validators, rows, epoch))
  {
    if validators != [] {
      var v := validators[0];
      var first, rest := EventsOf(address, v, RowFor(rows, v), epoch),
                         CurrentEvents(address, validators[1..], rows, epoch);
      EventsMean(address, v, RowFor(rows, v), epoch);
      CurrentMeans(address, validators[1..], rows, epoch);
      var events := first + rest;
      assert events[..|first|] == first && events[|first|..] == rest;
    }
  }

  /** The delisting of a vote account that has a row worth reporting and no validator any more. */
  ghost predicate IsDelisting(address: BondAddress, bondType: BondType, validators: seq<Validator>,
                              rows: map<string, ValidatorState>, epoch: int, e: BondsEvent) {
    && e.voteAccount in rows
    && (forall v :: v in validators ==> EventAbout(address, v, epoch, e.details).voteAccount != e.voteAccount)
    && var row := rows[e.voteAccount];
       && (row.fundedAmountLamports > 0 || row.inAuction)
       && e.bondType == bondType && e.epoch == epoch
       && e.bondPubkey == (if row.bondPubkey.Some? then row.bondPubkey.value else address(bondType, e.voteAccount))
       && e.details == ValidatorDelisted(row.fundedAmountLamports, row.epoch, row.inAuction, row.samEligible)
  }

  /** What an evaluation is: the reports of all validators in their order, then each delisting once. */
  ghost predicate EvaluationMeans(address: BondAddress, bondType: BondType, validators: seq<Validator>,
                                  rows: map<string, ValidatorState>, epoch: int, events: seq<BondsEvent>) {
    exists k :: 0 <= k <= |events|
      && AreReports(address, validators, rows, epoch, events[..k])
      && (forall e :: e in events[k..] <==> IsDelisting(address, bondType, validators, rows, epoch, e))
      && (forall i, j :: k <= i < j < |events| ==> events[i] != events[j])
  }

  lemma DelistingsMean(address: BondAddress, bondType: BondType, validators: seq<Validator>,
                       rows: map<string, ValidatorState>, epoch: int, tail: seq<BondsEvent>, e: BondsEvent)
    requires Delists(address, bondType, rows.Keys - Votes(validators), rows, epoch, tail)
    ensures e in tail <==> IsDelisting(address, bondType, validators, rows, epoch, e)
  {
    assert e.voteAccount in Votes(validators)
      <==> exists v :: v in validators && EventAbout(address, v, epoch, e.details).voteAccount == e.voteAccount;
    if IsDelisting(address, bondType, validators, rows, epoch, e) {
      assert e == DelistedEvent(address, bondType, e.voteAccount, rows[e.voteAccount], epoch);
    }
  }

  lemma TailDistinct(events: seq<BondsEvent>, k: nat)
    requires k <= |events|
    requires forall i, j :: 0 <= i < j < |events[k..]| ==> events[k..][i].voteAccount != events[k..][j].voteAccount
    ensures forall i, j :: k <= i < j < |events| ==> events[i] != events[j]
  {
    forall i, j | k <= i < j < |events|
      ensures events[i] != events[j]
    {
      assert events[i] == events[k..][i - k] && events[j] == events[k..][j - k];
    }
  }

  lemma EvaluationIsMeant(address: BondAddress, bondType: BondType, validators: seq<Validator>,
                          rows: map<string, ValidatorState>, epoch: int, events: seq<BondsEvent>)
    requires IsEvaluation(address, bondType, validators, rows, epoch, events)
    ensures EvaluationMeans(address, bondType, validators, rows, epoch, events)
  {
    var k := |CurrentEvents(address, validators, rows, epoch)|;
    CurrentMeans(address, validators, rows, epoch);
    forall e
      ensures e in events[k..] <==> IsDelisting(address, bondType, validators, rows, epoch, e)
    {
      DelistingsMean(address, bondType, validators, rows, epoch, events[k..], e);
    }
    TailDistinct(events, k);
  }
}
