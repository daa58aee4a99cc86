/** packages/bonds-eventing: what validators, stored states and events are, and which events a validator causes. */
module Eventing {
  import opened Wrappers
  import opened Sums

  // ------------------------------------------------------------------ numbers

  /** A JavaScript number; arithmetic is done on finite values only and taken to be exact. */
  datatype Num = NaN | PosInf | NegInf | Fin(r: real)

  /** A number that may be null or undefined. */
  type MaybeNum = Option<Num>

  function FiniteOr(value: MaybeNum, fallback: real): real {
    match value
    case Some(Fin(r)) => r
    case _ => fallback
  }

  predicate IsFinite(value: MaybeNum) {
    value.Some? && value.value.Fin?
  }

  predicate Positive(value: MaybeNum) {
    match value
    case Some(Fin(r)) => r > 0.0
    case Some(PosInf) => true
    case _ => false
  }

  /** `solToLamports`: nine decimals, halves away from zero; 0 for what is not a finite number. */
  function SolToLamports(sol: MaybeNum): int {
    match sol
    case Some(Fin(r)) => if r < 0.0 then -RoundHalfUp(-r * 1_000_000_000.0) else RoundHalfUp(r * 1_000_000_000.0)
    case _ => 0
  }

  /** `Math.round`. */
  function RoundHalfUp(r: real): int {
    (r + 0.5).Floor
  }

  /** `roundEpochs`: two decimals, or null. */
  function RoundEpochs(value: MaybeNum): Option<real> {
    if IsFinite(value) then Some(RoundHalfUp(value.value.r * 100.0) as real / 100.0) else None
  }

  // ------------------------------------------------------------------ data

  datatype BondType = Bidding | Institutional

  datatype CapConstraint = CapConstraint(
    constraintType: string,
    constraintName: string,
    marinadeStakeSol: MaybeNum,
    totalLeftToCapSol: MaybeNum)

  datatype AuctionValidator = AuctionValidator(
    voteAccount: string,
    bondBalanceSol: MaybeNum,
    claimableBondBalanceSol: MaybeNum,
    marinadeSamTargetSol: MaybeNum,
    marinadeActivatedStakeSol: MaybeNum,
    unprotectedStakeSol: MaybeNum,
    lastCapConstraint: Option<CapConstraint>,
    bondGoodForNEpochs: MaybeNum,
    expectedMaxEffBidPmpe: MaybeNum,
    onchainDistributedPmpe: MaybeNum,
    bidTooLowPenaltyPmpe: MaybeNum,
    blacklistPenaltyPmpe: MaybeNum,
    activatingStakePmpe: MaybeNum,
    bondRiskFeeSol: MaybeNum,
    samEligible: bool)

  datatype InstitutionalValidator = InstitutionalValidator(
    voteAccount: string,
    bondPubkey: string,
    fundedAmountLamports: int,
    effectiveAmountLamports: int,
    settlementClaimsLamports: int,
    institutionalStakeLamports: int)

  /** A stored row, without its time stamp and the relayed blob, which no comparison reads. */
  datatype ValidatorState = ValidatorState(
    voteAccount: string,
    bondPubkey: Option<string>,
    bondType: BondType,
    epoch: int,
    inAuction: bool,
    bondGoodForNEpochs: Option<real>,
    capConstraint: Option<string>,
    capMarinadeStakeSol: MaybeNum,
    fundedAmountLamports: int,
    effectiveAmountLamports: int,
    auctionStakeLamports: int,
    deficitLamports: int,
    settlementClaimsLamports: Option<int>,
    samEligible: bool)

  datatype DeficitMetrics = DeficitMetrics(epochCostSol: real, pmpe: real, deficitSol: real, requiredSol: real)

  datatype Penalties = Penalties(total: real, bidTooLow: real, blacklist: real, bondRiskFee: real)

  /** The kind of an event with its details, amounts that are only displayed left out. */
  datatype Details =
    | FirstSeen(fundedLamports: int, inAuction: bool, epochs: Option<real>, cap: Option<string>, samEligible: bool)
    | ValidatorDelisted(lastFundedLamports: int, lastEpoch: int, lastInAuction: bool, lastSamEligible: bool)
    | AuctionEntered(targetSol: MaybeNum, epochs: Option<real>)
    | AuctionExited(previousAuctionStakeLamports: int, samEligible: bool)
    | CapChanged(previousCap: Option<string>, currentCap: Option<string>, previousCapSol: MaybeNum,
                 currentCapSol: MaybeNum)
    | BondUnderfundedChange(previousEpochs: Option<real>, currentEpochs: Option<real>,
                            previousDeficitLamports: int, currentDeficitLamports: int)
    | BondBalanceChange(previousFundedLamports: int, currentFundedLamports: int, deltaLamports: int,
                        previousEffectiveLamports: int, currentEffectiveLamports: int)
    | SettlementApplied(totalLamports: int, previousLamports: Option<int>)
    | PenaltyExpected(penalties: Penalties, activatingStakeFeeSol: real)
    | SamEligibleChange(previous: bool, current: bool)

  datatype BondsEvent = BondsEvent(
    voteAccount: string,
    bondPubkey: string,
    bondType: BondType,
    epoch: int,
    details: Details)

  /** Derivation of a bond account from bond type and vote account. */
  type BondAddress = (BondType, string) -> string

  datatype Validator = Auction(a: AuctionValidator) | Select(i: InstitutionalValidator)

  function VoteOf(v: Validator): string {
    match v
    case Auction(a) => a.voteAccount
    case Select(i) => i.voteAccount
  }

  function TypeOf(v: Validator): BondType {
    if v.Auction? then Bidding else Institutional
  }

  function PubkeyOf(address: BondAddress, v: Validator): string {
    match v
    case Auction(a) => address(Bidding, a.voteAccount)
    case Select(i) => i.bondPubkey
  }

  function MakeEvent(address: BondAddress, v: Validator, epoch: int, details: Details): BondsEvent {
    BondsEvent(VoteOf(v), PubkeyOf(address, v), TypeOf(v), epoch, details)
  }

  // ------------------------------------------------------ bidding: derived values

  function CurrentCap(a: AuctionValidator): Option<string> {
    if a.lastCapConstraint.Some? then Some(a.lastCapConstraint.value.constraintType) else None
  }

  function CurrentCapSol(a: AuctionValidator): MaybeNum {
    if a.lastCapConstraint.Some? then a.lastCapConstraint.value.marinadeStakeSol else None
  }

  function FundedLamports(a: AuctionValidator): int {
    SolToLamports(a.bondBalanceSol)
  }

  function EffectiveLamports(a: AuctionValidator): int {
    SolToLamports(if a.claimableBondBalanceSol.Some? then a.claimableBondBalanceSol else a.bondBalanceSol)
  }

  /** `computeDeficitMetrics`; None when the bid or the stake is not known. */
  function ComputeDeficitMetrics(a: AuctionValidator): Option<DeficitMetrics> {
    if !IsFinite(a.expectedMaxEffBidPmpe) || !IsFinite(a.marinadeActivatedStakeSol)
       || a.marinadeActivatedStakeSol.value.r == 0.0 then None
    else
      var pmpe := a.expectedMaxEffBidPmpe.value.r;
      var stake := a.marinadeActivatedStakeSol.value.r;
      var epochCost := pmpe / 1000.0 * stake;
      var protectedStake := MaxReal(0.0, stake - FiniteOr(a.unprotectedStakeSol, 0.0));
      var onchainCost := FiniteOr(a.onchainDistributedPmpe, 0.0) / 1000.0 * protectedStake;
      var required := onchainCost + epochCost;
      Some(DeficitMetrics(epochCost, pmpe, MaxReal(0.0, required - FiniteOr(a.bondBalanceSol, 0.0)), required))
  }

  function DeficitSol(a: AuctionValidator): MaybeNum {
    var m := ComputeDeficitMetrics(a);
    if m.Some? then Some(Fin(m.value.deficitSol)) else None
  }

  function ComputePenalties(a: AuctionValidator): Penalties {
    var stake := FiniteOr(a.marinadeActivatedStakeSol, 0.0);
    var bidTooLow := FiniteOr(a.bidTooLowPenaltyPmpe, 0.0) / 1000.0 * stake;
    var blacklist := FiniteOr(a.blacklistPenaltyPmpe, 0.0) / 1000.0 * stake;
    var bondRiskFee := FiniteOr(a.bondRiskFeeSol, 0.0);
    Penalties(bidTooLow + blacklist + bondRiskFee, bidTooLow, blacklist, bondRiskFee)
  }

  function ActivatingStakeFee(a: AuctionValidator): real {
    MaxReal(0.0, FiniteOr(a.marinadeSamTargetSol, 0.0) - FiniteOr(a.marinadeActivatedStakeSol, 0.0))
      * FiniteOr(a.activatingStakePmpe, 0.0) / 1000.0
  }

  const DUST_SOL_THRESHOLD := 0.001

  /** `validatorToState`. */
  function AuctionState(address: BondAddress, a: AuctionValidator, epoch: int): ValidatorState {
    ValidatorState(
      a.voteAccount, Some(address(Bidding, a.voteAccount)), Bidding, epoch,
      Positive(a.marinadeSamTargetSol), RoundEpochs(a.bondGoodForNEpochs), CurrentCap(a), CurrentCapSol(a),
      FundedLamports(a), EffectiveLamports(a), SolToLamports(a.marinadeSamTargetSol), SolToLamports(DeficitSol(a)),
      None, a.samEligible)
  }

  // ------------------------------------------------ the events of one validator, null when there is none

  function AuctionChange(a: AuctionValidator, prev: ValidatorState): Option<Details> {
    var inAuction := Positive(a.marinadeSamTargetSol);
    if !prev.inAuction && inAuction then Some(AuctionEntered(a.marinadeSamTargetSol, RoundEpochs(a.bondGoodForNEpochs)))
    else if prev.inAuction && !inAuction then Some(AuctionExited(prev.auctionStakeLamports, a.samEligible))
    else None
  }

  function CapChange(a: AuctionValidator, prev: ValidatorState): Option<Details> {
    if prev.capConstraint != CurrentCap(a)
    then Some(CapChanged(prev.capConstraint, CurrentCap(a), prev.capMarinadeStakeSol, CurrentCapSol(a)))
    else None
  }

  function UnderfundedChange(a: AuctionValidator, prev: ValidatorState): Option<Details> {
    var epochs := RoundEpochs(a.bondGoodForNEpochs);
    var deficitSol := DeficitSol(a);
    var deficit := SolToLamports(deficitSol);
    var epochsChanged := prev.bondGoodForNEpochs.Some? && epochs.Some? && prev.bondGoodForNEpochs != epochs;
    var epochsNewlyKnown := prev.bondGoodForNEpochs.None? && epochs.Some?;
    var deficitChanged := deficitSol.Some? && deficit != prev.deficitLamports;
    if epochsChanged || epochsNewlyKnown || deficitChanged
    then Some(BondUnderfundedChange(prev.bondGoodForNEpochs, epochs, prev.deficitLamports, deficit))
    else None
  }

  /** `buildBondBalanceChangeEvent`. */
  function BalanceChange(prev: ValidatorState, funded: int, effective: int): Option<Details> {
    if funded == prev.fundedAmountLamports then None
    else Some(BondBalanceChange(prev.fundedAmountLamports, funded, funded - prev.fundedAmountLamports,
                                prev.effectiveAmountLamports, effective))
  }

  const MIN_SETTLEMENT_LAMPORTS := 10_000_000

  /** `buildSettlementAppliedEvent`. */
  function SettlementChange(current: int, previous: int): Option<Details> {
    if current <= 0 || current == previous || current < MIN_SETTLEMENT_LAMPORTS then None
    else Some(SettlementApplied(current, if previous > 0 then Some(previous) else None))
  }

  function PenaltyChange(a: AuctionValidator, prev: ValidatorState, epoch: int): Option<Details> {
    var penalties := ComputePenalties(a);
    var fee := ActivatingStakeFee(a);
    if (penalties.total > DUST_SOL_THRESHOLD || fee > DUST_SOL_THRESHOLD) && prev.epoch != epoch
    then Some(PenaltyExpected(penalties, if fee > DUST_SOL_THRESHOLD then fee else 0.0))
    else None
  }

  function SamChange(a: AuctionValidator, prev: ValidatorState): Option<Details> {
    if prev.samEligible != a.samEligible then Some(SamEligibleChange(prev.samEligible, a.samEligible)) else None
  }

  /** What a bidding validator reports, in this order. */
  function AuctionReport(a: AuctionValidator, prev: Option<ValidatorState>, epoch: int): seq<Option<Details>> {
    if prev.None? then
      [Some(FirstSeen(FundedLamports(a), Positive(a.marinadeSamTargetSol), RoundEpochs(a.bondGoodForNEpochs),
                      CurrentCap(a), a.samEligible))]
    else
      var p := prev.value;
      [AuctionChange(a, p), CapChange(a, p), UnderfundedChange(a, p),
       BalanceChange(p, FundedLamports(a), EffectiveLamports(a)),
       SettlementChange(FundedLamports(a) - EffectiveLamports(a), p.fundedAmountLamports - p.effectiveAmountLamports),
       PenaltyChange(a, p, epoch), SamChange(a, p)]
  }

  const ALLOWED_STAKE_PER_BOND_RATIO := 2000

  /** BigInt division, which truncates toward zero. */
  function TruncDiv(a: int, b: nat): int
    requires b > 0
  {
    if a >= 0 then a / b else -(-a / b)
  }

  /** The deficit of `computeFlatDeficit`. */
  function FlatDeficit(stake: int, effective: int): int {
    var required := TruncDiv(stake, ALLOWED_STAKE_PER_BOND_RATIO);
    if required > effective then required - effective else 0
  }

  function SelectDeficit(i: InstitutionalValidator): int {
    FlatDeficit(i.institutionalStakeLamports, i.effectiveAmountLamports)
  }

  /** What an institutional validator reports, in this order. */
  function SelectReport(i: InstitutionalValidator, prev: Option<ValidatorState>): seq<Option<Details>> {
    if prev.None? then [Some(FirstSeen(i.effectiveAmountLamports, false, None, None, false))]
    else
      var p := prev.value;
      [if SelectDeficit(i) != p.deficitLamports
       then Some(BondUnderfundedChange(None, None, p.deficitLamports, SelectDeficit(i))) else None,
       BalanceChange(p, i.fundedAmountLamports, i.effectiveAmountLamports),
       SettlementChange(i.settlementClaimsLamports, p.settlementClaimsLamports.GetOr(0))]
  }

  /** `institutionalValidatorToState`. */
  function SelectState(i: InstitutionalValidator, epoch: int): ValidatorState {
    ValidatorState(
      i.voteAccount, Some(i.bondPubkey), Institutional, epoch, false, None, None, None,
      i.fundedAmountLamports, i.effectiveAmountLamports, 0, SelectDeficit(i), Some(i.settlementClaimsLamports), false)
  }

  // ------------------------------------------------------ both kinds of validators

  function Report(v: Validator, prev: Option<ValidatorState>, epoch: int): seq<Option<Details>> {
    match v
    case Auction(a) => AuctionReport(a, prev, epoch)
    case Select(i) => SelectReport(i, prev)
  }

  function ToState(address: BondAddress, v: Validator, epoch: int): ValidatorState {
    match v
    case Auction(a) => AuctionState(address, a, epoch)
    case Select(i) => SelectState(i, epoch)
  }

  function EventMaker(address: BondAddress, v: Validator, epoch: int): Option<Details> -> seq<BondsEvent> {
    (d: Option<Details>) => if d.Some? then [MakeEvent(address, v, epoch, d.value)] else []
  }

  /** Making events of a report, leaving out the nulls. */
  function Emitted(address: BondAddress, v: Validator, epoch: int, report: seq<Option<Details>>): seq<BondsEvent> {
    FlatMap(EventMaker(address, v, epoch), report)
  }

  /** The events of one validator against its stored state. */
  function EventsOf(address: BondAddress, v: Validator, prev: Option<ValidatorState>, epoch: int): seq<BondsEvent> {
    Emitted(address, v, epoch, Report(v, prev, epoch))
  }

  function Stored(rows: map<string, ValidatorState>, vote: string): Option<ValidatorState> {
    if vote in rows then Some(rows[vote]) else None
  }

  function EventsMaker(address: BondAddress, rows: map<string, ValidatorState>,
                       epoch: int): Validator -> seq<BondsEvent> {
    (v: Validator) => EventsOf(address, v, Stored(rows, VoteOf(v)), epoch)
  }

  /** The events of all current validators, in their order. */
  function CurrentEvents(address: BondAddress, validators: seq<Validator>, rows: map<string, ValidatorState>,
                         epoch: int): seq<BondsEvent> {
    FlatMap(EventsMaker(address, rows, epoch), validators)
  }

  function Votes(validators: seq<Validator>): set<string> {
    set v | v in validators :: VoteOf(v)
  }

  /** Whether the disappearance of a stored validator is reported. */
  predicate ReportsDelisting(prev: ValidatorState) {
    prev.fundedAmountLamports > 0 || prev.inAuction
  }

  /** `buildValidatorDelistedEvent`. */
  function DelistedEvent(address: BondAddress, bondType: BondType, vote: string, prev: ValidatorState,
                         epoch: int): BondsEvent {
    BondsEvent(vote, prev.bondPubkey.GetOr(address(bondType, vote)), bondType, epoch,
               ValidatorDelisted(prev.fundedAmountLamports, prev.epoch, prev.inAuction, prev.samEligible))
  }

  /** `tail` reports each stored validator that is gone and was funded or in the auction, once, in any order. */
  ghost predicate Delists(address: BondAddress, bondType: BondType, gone: set<string>,
                          rows: map<string, ValidatorState>, epoch: int, tail: seq<BondsEvent>) {
    && (forall i :: 0 <= i < |tail| ==>
          && tail[i].voteAccount in gone && tail[i].voteAccount in rows && ReportsDelisting(rows[tail[i].voteAccount])
          && tail[i] == DelistedEvent(address, bondType, tail[i].voteAccount, rows[tail[i].voteAccount], epoch))
    && (forall i, j :: 0 <= i < j < |tail| ==> tail[i].voteAccount != tail[j].voteAccount)
    && (forall vote :: vote in gone && vote in rows && ReportsDelisting(rows[vote]) ==>
          DelistedEvent(address, bondType, vote, rows[vote], epoch) in tail)
  }

  /** `events` is an evaluation of `validators` against `rows`: current validators first, then the delisted. */
  ghost predicate IsEvaluation(address: BondAddress, bondType: BondType, validators: seq<Validator>,
                               rows: map<string, ValidatorState>, epoch: int, events: seq<BondsEvent>) {
    var current := CurrentEvents(address, validators, rows, epoch);
    && |current| <= |events|
    && events[..|current|] == current
    && Delists(address, bondType, rows.Keys - Votes(validators), rows, epoch, events[|current|..])
  }
}
