/** settlement-common: the claim of a protected event within a covered range of losses. Decimals are exact. */
module LossRange {
  import opened Wrappers

  /** An event with the fields that claims read; the last two kinds are the old ones. */
  datatype ProtectedEvent =
    | DowntimeRevenueImpact(expectedEpr: real, actualEpr: real)
    | CommissionSamIncrease(expectedEpr: real, actualEpr: real,
                            actualInflationCommission: real, actualMevCommission: Option<real>)
    | CommissionIncrease(expectedEpr: real, actualEpr: real)
    | LowCredits(expectedEpr: real, actualEpr: real)

  datatype ConfigKind =
    | DowntimeRevenueImpactSettlement
    | CommissionSamIncreaseSettlement(extraPenaltyThresholdBps: u64, baseMarkupBps: u64, penaltyMarkupBps: u64)

  /** A settlement configuration; both kinds have a covered range. */
  datatype SettlementConfig = SettlementConfig(lowerBps: u64, upperBps: u64, kind: ConfigKind)

  /** A claim in lamports, an error for one that is no u64, or a panic for an event the configuration is not for. */
  datatype Outcome = Claim(amount: u64) | TooLarge | Panicked

  function BpsToFraction(bps: u64): real {
    bps as real / 10_000.0
  }

  /** A bound of a covered range, as a loss per stake. */
  function Bound(bps: u64, epr: real): real {
    BpsToFraction(bps) * epr
  }

  function MinReal(a: real, b: real): real {
    if a < b then a else b
  }

  function WithMarkup(base: real, markup: u64): real {
    base + base * BpsToFraction(markup)
  }

  /** `claim_per_stake`; None is a panic. */
  function ClaimPerStake(event: ProtectedEvent, kind: ConfigKind): Option<real> {
    match event
    case CommissionSamIncrease(expected, actual, inflation, mev) =>
      if kind.CommissionSamIncreaseSettlement? then
        var threshold := BpsToFraction(kind.extraPenaltyThresholdBps);
        var markup := if inflation <= threshold && mev.GetOr(0.0) <= threshold then kind.baseMarkupBps
                      else kind.penaltyMarkupBps;
        Some(WithMarkup(expected - actual, markup))
      else None
    case DowntimeRevenueImpact(expected, actual) => Some(expected - actual)
    case _ => None
  }

  /** The exact amount claimed for a loss per stake between two bounds. */
  function Amount(stake: u64, loss: real, lower: real, upper: real): real {
    MaxReal(stake as real * (MinReal(loss, upper) - lower), 0.0)
  }

  /** The conversion to u64 cuts the fraction. */
  function ToClaim(amount: real): Outcome {
    if amount.Floor > U64_MAX then TooLarge else Claim(Max(amount.Floor, 0))
  }

  /** The claim for a loss per stake, by the share of the expected revenue that a range covers. */
  function ClaimForLoss(loss: Option<real>, epr: real, stake: u64, lower: u64, upper: u64): Outcome {
    if loss.None? then Panicked
    else ToClaim(Amount(stake, loss.value, Bound(lower, epr), Bound(upper, epr)))
  }

  /** `claim_amount_in_loss_range`. */
  function ClaimAmountInLossRange(event: ProtectedEvent, config: SettlementConfig, stake: u64): Outcome {
    ClaimForLoss(ClaimPerStake(event, config.kind), event.expectedEpr, stake, config.lowerBps, config.upperBps)
  }

  /** A claim panics exactly for an old event, or a commission event under the other configuration. */
  lemma PanicsIff(event: ProtectedEvent, config: SettlementConfig, stake: u64)
    ensures ClaimAmountInLossRange(event, config, stake).Panicked?
       <==> event.CommissionIncrease? || event.LowCredits?
            || (event.CommissionSamIncrease? && config.kind.DowntimeRevenueImpactSettlement?)
  {
  }

  // ------------------------------------------------------------------- one range split in two

  /** How much of a loss lies between two bounds. */
  function Reach(loss: real, lower: real, upper: real): real {
    MaxReal(MinReal(loss, upper) - lower, 0.0)
  }

  lemma AmountScales(stake: u64, loss: real, lower: real, upper: real)
    ensures Amount(stake, loss, lower, upper) == stake as real * Reach(loss, lower, upper)
  {
    var s, a := stake as real, MinReal(loss, upper) - lower;
    if a < 0.0 {
      assert s * a <= 0.0;
    } else {
      assert s * a >= 0.0;
    }
  }

  /** For bounds in order, adjacent reaches add up; for bounds in reverse they are all zero. */
  lemma ReachesAdd(loss: real, lower: real, middle: real, upper: real)
    requires lower <= middle <= upper || lower >= middle >= upper
    ensures Reach(loss, lower, upper) == Reach(loss, lower, middle) + Reach(loss, middle, upper)
  {
  }

  lemma Distribute(s: real, a: real, b: real)
    ensures s * (a + b) == s * a + s * b
  {
  }

  lemma AmountsAdd(stake: u64, loss: real, lower: real, middle: real, upper: real)
    requires lower <= middle <= upper || lower >= middle >= upper
    ensures Amount(stake, loss, lower, upper) == Amount(stake, loss, lower, middle) + Amount(stake, loss, middle, upper)
  {
    AmountScales(stake, loss, lower, upper);
    AmountScales(stake, loss, lower, middle);
    AmountScales(stake, loss, middle, upper);
    ReachesAdd(loss, lower, middle, upper);
    Distribute(stake as real, Reach(loss, lower, middle), Reach(loss, middle, upper));
  }

  /** Bounds in basis points are in order after scaling by the expected revenue, in reverse if that is negative. */
  lemma ScaledBounds(a: u64, b: u64, epr: real)
    requires a <= b
    ensures if epr >= 0.0 then Bound(a, epr) <= Bound(b, epr) else Bound(a, epr) >= Bound(b, epr)
  {
    assert Bound(b, epr) - Bound(a, epr) == (BpsToFraction(b) - BpsToFraction(a)) * epr;
  }

  /** `low` and `high` are the claims of two parts of a range with claim `joined`: neither part is too large unless the
      whole is, and cutting fractions loses at most one lamport. */
  predicate Splits(joined: Outcome, low: Outcome, high: Outcome) {
    joined.Claim? ==>
      low.Claim? && high.Claim? && low.amount + high.amount <= joined.amount <= low.amount + high.amount + 1
  }

  lemma CutOfSum(a: real, b: real)
    requires a >= 0.0 && b >= 0.0
    ensures Splits(ToClaim(a + b), ToClaim(a), ToClaim(b))
  {
  }

  lemma AmountsSplit(stake: u64, loss: real, lower: real, middle: real, upper: real)
    requires lower <= middle <= upper || lower >= middle >= upper
    ensures Splits(ToClaim(Amount(stake, loss, lower, upper)),
                   ToClaim(Amount(stake, loss, lower, middle)), ToClaim(Amount(stake, loss, middle, upper)))
  {
    AmountsAdd(stake, loss, lower, middle, upper);
    CutOfSum(Amount(stake, loss, lower, middle), Amount(stake, loss, middle, upper));
  }

  lemma ClaimSplits(loss: Option<real>, epr: real, stake: u64, lower: u64, middle: u64, upper: u64)
    requires lower <= middle <= upper
    ensures Splits(ClaimForLoss(loss, epr, stake, lower, upper),
                   ClaimForLoss(loss, epr, stake, lower, middle), ClaimForLoss(loss, epr, stake, middle, upper))
  {
    if loss.Some? {
      ScaledBounds(lower, middle, epr);
      ScaledBounds(middle, upper, epr);
      AmountsSplit(stake, loss.value, Bound(lower, epr), Bound(middle, epr), Bound(upper, epr));
    }
  }

  lemma NonNegativeProduct(s: real, a: real)
    requires s >= 0.0 && a >= 0.0
    ensures s * a >= 0.0
  {
  }

  lemma ScaleMonotone(s: real, a: real, rest: real)
    requires s >= 0.0 && a >= 0.0 && rest >= 0.0
    ensures 0.0 <= s * a <= s * (a + rest)
  {
    Distribute(s, a, rest);
    NonNegativeProduct(s, a);
    NonNegativeProduct(s, rest);
  }

  lemma CutWithin(amount: real, bound: real)
    requires 0.0 <= amount <= bound && ToClaim(amount).Claim?
    ensures ToClaim(amount).amount as real <= bound
  {
  }

  lemma ReachWithin(loss: real, lower: real, upper: real, width: real)
    requires lower + width == upper && width >= 0.0
    ensures 0.0 <= Reach(loss, lower, upper) <= width
  {
  }

  lemma ScaledWithin(s: real, reach: real, width: real, amount: real)
    requires s >= 0.0 && 0.0 <= reach <= width && amount == s * reach
    ensures 0.0 <= amount <= s * width
  {
    ScaleMonotone(s, reach, width - reach);
    assert reach + (width - reach) == width;
  }

  lemma AmountWithin(stake: u64, loss: real, lower: real, upper: real, width: real)
    requires lower + width == upper && width >= 0.0 && ToClaim(Amount(stake, loss, lower, upper)).Claim?
    ensures ToClaim(Amount(stake, loss, lower, upper)).amount as real <= stake as real * width
  {
    AmountScales(stake, loss, lower, upper);
    ReachWithin(loss, lower, upper, width);
    ScaledWithin(stake as real, Reach(loss, lower, upper), width, Amount(stake, loss, lower, upper));
    CutWithin(Amount(stake, loss, lower, upper), stake as real * width);
  }

  lemma NoReach(stake: u64, loss: real, lower: real, upper: real)
    requires loss <= lower || upper <= lower
    ensures ToClaim(Amount(stake, loss, lower, upper)) == Claim(0)
  {
    AmountScales(stake, loss, lower, upper);
    assert Reach(loss, lower, upper) == 0.0;
  }

  /** A claim is at most what the stake earns for `covered`, and nothing if that is nothing. */
  predicate Within(outcome: Outcome, stake: u64, covered: real) {
    && (outcome.Claim? ==> outcome.amount as real <= stake as real * MaxReal(covered, 0.0))
    && (covered <= 0.0 && !outcome.Panicked? ==> outcome == Claim(0))
  }

  lemma AmountInBounds(stake: u64, loss: real, lower: real, upper: real)
    ensures Within(ToClaim(Amount(stake, loss, lower, upper)), stake, upper - lower)
    ensures loss <= lower ==> ToClaim(Amount(stake, loss, lower, upper)) == Claim(0)
  {
    if loss <= lower || upper <= lower {
      NoReach(stake, loss, lower, upper);
      NonNegativeProduct(stake as real, MaxReal(upper - lower, 0.0));
    } else if ToClaim(Amount(stake, loss, lower, upper)).Claim? {
      AmountWithin(stake, loss, lower, upper, upper - lower);
    }
  }

  /** The expected revenue per stake that the covered range spans. */
  function CoveredRevenue(event: ProtectedEvent, config: SettlementConfig): real {
    Bound(config.upperBps, event.expectedEpr) - Bound(config.lowerBps, event.expectedEpr)
  }

  /** Whatever the event and the configuration, a claim never exceeds the stake's share of the expected revenue that
      the covered range spans, and it is nothing if the range spans nothing or the loss does not reach it. */
  lemma ClaimWithinRange(event: ProtectedEvent, config: SettlementConfig, stake: u64)
    ensures Within(ClaimAmountInLossRange(event, config, stake), stake, CoveredRevenue(event, config))
    ensures var loss := ClaimPerStake(event, config.kind);
            loss.Some? && loss.value <= Bound(config.lowerBps, event.expectedEpr) ==>
              ClaimAmountInLossRange(event, config, stake) == Claim(0)
  {
    var loss := ClaimPerStake(event, config.kind);
    if loss.Some? {
      AmountInBounds(stake, loss.value, Bound(config.lowerBps, event.expectedEpr),
                     Bound(config.upperBps, event.expectedEpr));
    }
  }

  /** `outcome` is what `exact` lamports come to: cut to whole lamports, or an error beyond 64 bits. */
  predicate IsCut(outcome: Outcome, exact: real) {
    match outcome
    case Claim(amount) => amount as real <= exact < amount as real + 1.0
    case TooLarge => exact >= U64_MAX as real + 1.0
    case Panicked => false
  }

  lemma CutIs(amount: real)
    requires amount >= 0.0
    ensures IsCut(ToClaim(amount), amount)
  {
    assert amount.Floor as real <= amount < amount.Floor as real + 1.0;
  }

  /** There is one such outcome for each amount. */
  lemma CutUnique(a: Outcome, b: Outcome, exact: real)
    requires IsCut(a, exact) && IsCut(b, exact)
    ensures a == b
  {
    if a.Claim? && b.Claim? {
      assert a.amount as real < b.amount as real + 1.0 && b.amount as real < a.amount as real + 1.0;
    }
  }

  lemma AmountIsReach(stake: u64, loss: real, lower: real, upper: real)
    ensures IsCut(ToClaim(Amount(stake, loss, lower, upper)), stake as real * Reach(loss, lower, upper))
  {
    AmountScales(stake, loss, lower, upper);
    NonNegativeProduct(stake as real, Reach(loss, lower, upper));
    CutIs(Amount(stake, loss, lower, upper));
  }

  lemma TenThousandths(x: real, bps: u64)
    ensures 10_000.0 * (x * BpsToFraction(bps)) == x * bps as real
    ensures 10_000.0 * Bound(bps, x) == x * bps as real
  {
    assert 10_000.0 * BpsToFraction(bps) == bps as real;
    assert 10_000.0 * (x * BpsToFraction(bps)) == x * (10_000.0 * BpsToFraction(bps));
    assert BpsToFraction(bps) * x == x * BpsToFraction(bps);
  }

  /** The commissions that the offender is charged by stay within the threshold; a MEV commission that is not known
      does. */
  predicate WithinThreshold(event: ProtectedEvent, thresholdBps: u64)
    requires event.CommissionSamIncrease?
  {
    && 10_000.0 * event.actualInflationCommission <= thresholdBps as real
    && (event.actualMevCommission.Some? ==> 10_000.0 * event.actualMevCommission.value <= thresholdBps as real)
  }

  /** `loss` is the loss per stake that the event is charged for under the configuration: revenue expected and not
      made, for a commission event with the base markup within the threshold and the penalty markup beyond it. */
  predicate IsLoss(event: ProtectedEvent, kind: ConfigKind, loss: real) {
    match event
    case DowntimeRevenueImpact(expected, actual) => loss == expected - actual
    case CommissionSamIncrease(expected, actual, _, _) =>
      && kind.CommissionSamIncreaseSettlement?
      && var markup := if WithinThreshold(event, kind.extraPenaltyThresholdBps) then kind.baseMarkupBps
                       else kind.penaltyMarkupBps;
         10_000.0 * loss == (expected - actual) * (10_000 + markup) as real
    case _ => false
  }

  lemma MarkedUp(base: real, markup: u64, loss: real)
    ensures 10_000.0 * loss == base * (10_000 + markup) as real <==> loss == WithMarkup(base, markup)
  {
    TenThousandths(base, markup);
    Distribute(base, 10_000.0, markup as real);
    assert 10_000.0 * WithMarkup(base, markup) == base * (10_000 + markup) as real;
  }

  lemma ThresholdInFractions(commission: real, bps: u64)
    ensures 10_000.0 * commission <= bps as real <==> commission <= BpsToFraction(bps)
  {
  }

  lemma LossIs(event: ProtectedEvent, kind: ConfigKind, loss: real)
    ensures ClaimPerStake(event, kind) == Some(loss) <==> IsLoss(event, kind, loss)
  {
    if event.CommissionSamIncrease? && kind.CommissionSamIncreaseSettlement? {
      var threshold := kind.extraPenaltyThresholdBps;
      ThresholdInFractions(event.actualInflationCommission, threshold);
      if event.actualMevCommission.Some? {
        ThresholdInFractions(event.actualMevCommission.value, threshold);
      } else {
        ThresholdInFractions(0.0, threshold);
      }
      MarkedUp(event.expectedEpr - event.actualEpr, kind.baseMarkupBps, loss);
      MarkedUp(event.expectedEpr - event.actualEpr, kind.penaltyMarkupBps, loss);
    }
  }

  /** The event has no loss under the configuration: it is an old one, or a commission event where the configuration is
      for downtime. */
  predicate NoLoss(event: ProtectedEvent, kind: ConfigKind) {
    || event.CommissionIncrease? || event.LowCredits?
    || (event.CommissionSamIncrease? && kind.DowntimeRevenueImpactSettlement?)
  }

  /** `bound` is the loss per stake at so many basis points of the expected revenue. */
  predicate IsBound(event: ProtectedEvent, bps: u64, bound: real) {
    10_000.0 * bound == event.expectedEpr * bps as real
  }

  lemma BoundIs(event: ProtectedEvent, bps: u64, bound: real)
    ensures IsBound(event, bps, bound) <==> bound == Bound(bps, event.expectedEpr)
  {
    TenThousandths(event.expectedEpr, bps);
  }

  lemma ClaimAtBounds(event: ProtectedEvent, config: SettlementConfig, stake: u64)
    ensures var outcome, loss := ClaimAmountInLossRange(event, config, stake), ClaimPerStake(event, config.kind);
            if loss.None? then outcome == Panicked
            else IsCut(outcome, stake as real * Reach(loss.value, Bound(config.lowerBps, event.expectedEpr),
                                                      Bound(config.upperBps, event.expectedEpr)))
  {
    var loss := ClaimPerStake(event, config.kind);
    if loss.Some? {
      AmountIsReach(stake, loss.value, Bound(config.lowerBps, event.expectedEpr),
                    Bound(config.upperBps, event.expectedEpr));
    }
  }

  /** What a claim is: the stake times how much of its loss lies in the covered range, cut to lamports; an error exactly
      when that exceeds 64 bits, a panic exactly when the event has no loss under the configuration. */
  lemma ClaimIsReach(event: ProtectedEvent, config: SettlementConfig, stake: u64, loss: real, lower: real, upper: real)
    requires IsBound(event, config.lowerBps, lower) && IsBound(event, config.upperBps, upper)
    ensures ClaimAmountInLossRange(event, config, stake).Panicked? <==> NoLoss(event, config.kind)
    ensures IsLoss(event, config.kind, loss) ==>
              IsCut(ClaimAmountInLossRange(event, config, stake), stake as real * Reach(loss, lower, upper))
  {
    BoundIs(event, config.lowerBps, lower);
    BoundIs(event, config.upperBps, upper);
    LossIs(event, config.kind, loss);
    PanicsIff(event, config, stake);
    ClaimAtBounds(event, config, stake);
  }

  /** Of a commission event within the threshold only the base markup matters, of one beyond it only the penalty
      markup. */
  lemma OneMarkupMatters(event: ProtectedEvent, config: SettlementConfig, stake: u64, markup: u64)
    requires event.CommissionSamIncrease? && config.kind.CommissionSamIncreaseSettlement?
    ensures WithinThreshold(event, config.kind.extraPenaltyThresholdBps) ==>
              ClaimAmountInLossRange(event, config.(kind := config.kind.(penaltyMarkupBps := markup)), stake)
              == ClaimAmountInLossRange(event, config, stake)
    ensures !WithinThreshold(event, config.kind.extraPenaltyThresholdBps) ==>
              ClaimAmountInLossRange(event, config.(kind := config.kind.(baseMarkupBps := markup)), stake)
              == ClaimAmountInLossRange(event, config, stake)
  {
    var loss := ClaimPerStake(event, config.kind).value;
    LossIs(event, config.kind, loss);
    LossIs(event, config.kind.(penaltyMarkupBps := markup), loss);
    LossIs(event, config.kind.(baseMarkupBps := markup), loss);
  }

  /** No claim is below the other: an error counts as above every claim. */
  predicate NotBelow(b: Outcome, a: Outcome) {
    match (a, b)
    case (Claim(x), Claim(y)) => x <= y
    case (Claim(_), TooLarge) => true
    case (TooLarge, TooLarge) => true
    case _ => false
  }

  lemma ReachMonotone(loss: real, more: real, lower: real, upper: real)
    requires loss <= more
    ensures 0.0 <= Reach(loss, lower, upper) <= Reach(more, lower, upper)
  {
  }

  lemma AmountMonotone(stake: u64, loss: real, more: real, lower: real, upper: real)
    requires loss <= more
    ensures NotBelow(ToClaim(Amount(stake, more, lower, upper)), ToClaim(Amount(stake, loss, lower, upper)))
  {
    AmountScales(stake, loss, lower, upper);
    AmountScales(stake, more, lower, upper);
    ReachMonotone(loss, more, lower, upper);
    ScaleMonotone(stake as real, Reach(loss, lower, upper), Reach(more, lower, upper) - Reach(loss, lower, upper));
    CutMonotone(Amount(stake, loss, lower, upper), Amount(stake, more, lower, upper));
  }

  lemma CutMonotone(a: real, b: real)
    requires a <= b
    ensures NotBelow(ToClaim(b), ToClaim(a))
  {
    assert a.Floor as real <= b;
  }

  lemma MarkupMonotone(base: real, markup: u64, more: u64)
    requires base >= 0.0 && markup <= more
    ensures WithMarkup(base, markup) <= WithMarkup(base, more)
  {
    ScaleMonotone(base, BpsToFraction(markup), BpsToFraction(more) - BpsToFraction(markup));
  }

  /** The same threshold, and no markup is lower. */
  predicate MarksUpMore(more: ConfigKind, kind: ConfigKind) {
    && more.CommissionSamIncreaseSettlement? && kind.CommissionSamIncreaseSettlement?
    && more.extraPenaltyThresholdBps == kind.extraPenaltyThresholdBps
    && more.baseMarkupBps >= kind.baseMarkupBps && more.penaltyMarkupBps >= kind.penaltyMarkupBps
  }

  lemma LossMonotone(event: ProtectedEvent, kind: ConfigKind, more: ConfigKind)
    requires event.CommissionSamIncrease? && event.expectedEpr >= event.actualEpr && MarksUpMore(more, kind)
    ensures ClaimPerStake(event, kind).Some? && ClaimPerStake(event, more).Some?
    ensures ClaimPerStake(event, kind).value <= ClaimPerStake(event, more).value
  {
    var base := event.expectedEpr - event.actualEpr;
    MarkupMonotone(base, kind.baseMarkupBps, more.baseMarkupBps);
    MarkupMonotone(base, kind.penaltyMarkupBps, more.penaltyMarkupBps);
  }

  lemma LargerLossClaimsMore(loss: real, more: real, epr: real, stake: u64, lower: u64, upper: u64)
    requires loss <= more
    ensures NotBelow(ClaimForLoss(Some(more), epr, stake, lower, upper),
                     ClaimForLoss(Some(loss), epr, stake, lower, upper))
  {
    AmountMonotone(stake, loss, more, Bound(lower, epr), Bound(upper, epr));
  }

  /** For revenue that was really lost, more markup never lowers a claim. */
  lemma MarkupNeverLowers(event: ProtectedEvent, config: SettlementConfig, stake: u64, more: ConfigKind)
    requires event.CommissionSamIncrease? && event.expectedEpr >= event.actualEpr && MarksUpMore(more, config.kind)
    ensures NotBelow(ClaimAmountInLossRange(event, config.(kind := more), stake),
                     ClaimAmountInLossRange(event, config, stake))
  {
    LossMonotone(event, config.kind, more);
    LargerLossClaimsMore(ClaimPerStake(event, config.kind).value, ClaimPerStake(event, more).value, event.expectedEpr,
                         stake, config.lowerBps, config.upperBps);
  }

  // --------------------------------------------------------------------------- k layers

  predicate Ascending(bounds: seq<u64>) {
    forall i, j :: 0 <= i < j < |bounds| ==> bounds[i] <= bounds[j]
  }

  /** The claim of each range of an event, all else equal. */
  function LayerClaim(event: ProtectedEvent, config: SettlementConfig, stake: u64): (u64, u64) -> Outcome {
    (lower: u64, upper: u64) => ClaimAmountInLossRange(event, config.(lowerBps := lower, upperBps := upper), stake)
  }

  /** The claims of the adjacent ranges that `bounds` delimits, added up; only claims count. */
  function LayerSum(layer: (u64, u64) -> Outcome, bounds: seq<u64>): nat {
    if |bounds| <= 1 then 0 else
    var n := |bounds|;
    LayerSum(layer, bounds[..n - 1])
    + if layer(bounds[n - 2], bounds[n - 1]).Claim? then layer(bounds[n - 2], bounds[n - 1]).amount else 0
  }

  /** Each of those ranges has a claim. */
  predicate AllClaim(layer: (u64, u64) -> Outcome, bounds: seq<u64>) {
    |bounds| <= 1
    || (AllClaim(layer, bounds[..|bounds| - 1]) && layer(bounds[|bounds| - 2], bounds[|bounds| - 1]).Claim?)
  }

  lemma {:induction false} AllClaimMeans(layer: (u64, u64) -> Outcome, bounds: seq<u64>)
    ensures AllClaim(layer, bounds) <==> forall i :: 0 <= i < |bounds| - 1 ==> layer(bounds[i], bounds[i + 1]).Claim?
  {
    if |bounds| > 1 {
      var front := bounds[..|bounds| - 1];
      AllClaimMeans(layer, front);
      assert AllClaim(layer, bounds)
             <==> AllClaim(layer, front) && layer(bounds[|bounds| - 2], bounds[|bounds| - 1]).Claim?;
    }
  }

  ghost predicate AlwaysSplits(layer: (u64, u64) -> Outcome) {
    forall lower: u64, middle: u64, upper: u64 :: lower <= middle <= upper ==>
      Splits(layer(lower, upper), layer(lower, middle), layer(middle, upper))
  }

  lemma {:induction false} SplitsAddUp(layer: (u64, u64) -> Outcome, bounds: seq<u64>)
    requires AlwaysSplits(layer) && |bounds| >= 2 && Ascending(bounds)
    ensures var joined, sum := layer(bounds[0], bounds[|bounds| - 1]), LayerSum(layer, bounds);
            joined.Claim? ==>
              && AllClaim(layer, bounds)
              && sum <= joined.amount <= sum + (|bounds| - 2)
  {
    var n := |bounds|;
    var front := bounds[..n - 1];
    if n == 2 {
      assert LayerSum(layer, front) == 0 && AllClaim(layer, front);
    } else {
      assert Splits(layer(bounds[0], bounds[n - 1]), layer(bounds[0], bounds[n - 2]),
                    layer(bounds[n - 2], bounds[n - 1]));
      SplitsAddUp(layer, front);
    }
  }

  /** Layering: for k adjacent ranges with otherwise equal configuration, whenever the claim of the joined range is a
      u64 every layer's claim is one, and they add up to that claim or fall short of it by at most k - 1 lamports,
      whatever the sign of the expected revenue. */
  lemma LayersAddUp(event: ProtectedEvent, config: SettlementConfig, stake: u64, bounds: seq<u64>)
    requires |bounds| >= 2 && Ascending(bounds)
    ensures var layer := LayerClaim(event, config, stake);
            var joined, sum := layer(bounds[0], bounds[|bounds| - 1]), LayerSum(layer, bounds);
            joined.Claim? ==>
              && (forall i :: 0 <= i < |bounds| - 1 ==> layer(bounds[i], bounds[i + 1]).Claim?)
              && sum <= joined.amount <= sum + (|bounds| - 2)
  {
    var layer := LayerClaim(event, config, stake);
    forall lower: u64, middle: u64, upper: u64 | lower <= middle <= upper
      ensures Splits(layer(lower, upper), layer(lower, middle), layer(middle, upper))
    {
      ClaimSplits(ClaimPerStake(event, config.kind), event.expectedEpr, stake, lower, middle, upper);
    }
    SplitsAddUp(layer, bounds);
    AllClaimMeans(layer, bounds);
  }
}
