/** Properties of aggregated rewards: conservation, anomalies, and what the assertion on the totals lets pass. */
module RewardsProperties {
  import opened Wrappers
  import opened Bytes
  import opened Sums
  import opened Rewards

  // ------------------------------------------------------------------ conservation and anomalies

  /** `realized_commission_dec`, with exact numbers. */
  function RealizedCommission(gross: u64, stakers: u64): Option<real> {
    if gross == 0 then None else Some((gross - stakers) as real / gross as real)
  }

  datatype Anomaly = Anomaly(kind: string, commission: Option<real>)

  function AnomalyOf(kind: string, gross: u64, stakers: u64): seq<Anomaly> {
    match RealizedCommission(gross, stakers)
    case Some(c) => if c < 0.0 then [Anomaly(kind, Some(c))] else []
    case None => if stakers > 0 then [Anomaly(kind, None)] else []
  }

  /** `realized_commission_anomalies`. */
  function Anomalies(r: VoteAccountRewards): seq<Anomaly> {
    AnomalyOf("inflation", r.inflationRewards, r.stakersInflationRewards)
    + AnomalyOf("mev", r.mevRewards, r.stakersMevRewards)
    + AnomalyOf("block", r.blockRewards, r.stakersPriorityFeeRewards)
  }

  /** An anomaly is exactly a stakers' share above the gross, reported with the commission, what is left of the gross
      as a part of it, unless there is no gross. */
  lemma AnomalyIff(kind: string, gross: u64, stakers: u64)
    ensures var anomalies := AnomalyOf(kind, gross, stakers);
            if stakers <= gross then anomalies == [] else
            && |anomalies| == 1 && anomalies[0].kind == kind
            && (anomalies[0].commission.None? <==> gross == 0)
            && (gross > 0 ==> anomalies[0].commission.value * gross as real == gross as real - stakers as real)
  {
    if gross > 0 {
      var c := (gross - stakers) as real / gross as real;
      assert c * gross as real == (gross - stakers) as real;
    }
  }

  /** How far the shares of an account exceed its total. */
  function Excess(r: VoteAccountRewards): int {
    r.stakersTotalAmount + r.validatorsTotalAmount - r.totalAmount
  }

  ghost predicate NoOverflow(t: Tally) {
    t.Total() <= U64_MAX && t.Stakers() <= U64_MAX
  }

  /** Conservation per account: the shares never fall short of the total, whatever saturates. Without saturation the
      excess is what the priority fees exceed the validators' gross by. */
  lemma RewardsConserved(vote: Pubkey, t: Tally)
    ensures Excess(AccountOf(vote, t)) >= 0
    ensures NoOverflow(t) ==> Excess(AccountOf(vote, t)) == Max(t.jito - t.Gross(), 0)
    ensures NoOverflow(t) ==> (Excess(AccountOf(vote, t)) == 0 <==> t.jito <= t.Gross())
  {
  }

  /** Aggregated accounts are never flagged for inflation or MEV. Whenever the shares exceed the total the account is
      flagged for blocks, unless the total saturates and the stakers' rewards still leave some of the validators'. */
  lemma ExcessIsFlagged(vote: Pubkey, t: Tally)
    ensures forall anomaly :: anomaly in Anomalies(AccountOf(vote, t)) ==> anomaly.kind == "block"
    ensures Anomalies(AccountOf(vote, t)) != [] <==> Sat(t.jito) > Sat(t.blocks)
    ensures t.Total() <= U64_MAX && Excess(AccountOf(vote, t)) > 0 ==> Anomalies(AccountOf(vote, t)) != []
    ensures Anomalies(AccountOf(vote, t)) == [] ==>
              (Excess(AccountOf(vote, t)) > 0 <==>
               t.inflation + t.mev + Sat(t.Gross()) > U64_MAX && t.jito < Sat(t.Gross()))
  {
    var r := AccountOf(vote, t);
    AnomalyIff("inflation", r.inflationRewards, r.stakersInflationRewards);
    AnomalyIff("mev", r.mevRewards, r.stakersMevRewards);
    AnomalyIff("block", r.blockRewards, r.stakersPriorityFeeRewards);
    RewardsConserved(vote, t);
  }

  ghost predicate HasExcess(files: RewardFiles, metas: seq<StakeMeta>, excess: nat) {
    SumOver(Excess, AccountsOf(files, StakeToVote(metas))) == excess
  }

  lemma FiguresAddUp(rewards: RewardsMap)
    ensures SumOver(StakersTotal, rewards) + SumOver(ValidatorsTotal, rewards)
         == SumOver(TotalAmount, rewards) + SumOver(Excess, rewards)
  {
    var both := (vote: Pubkey) => StakersTotal(Entry(rewards, vote)) + ValidatorsTotal(Entry(rewards, vote));
    SetSumPointwise(both, FigureAt(StakersTotal, rewards), FigureAt(ValidatorsTotal, rewards), rewards.Keys);
    SetSumPointwise(both, FigureAt(TotalAmount, rewards), FigureAt(Excess, rewards), rewards.Keys);
  }

  /** What the assertion checks: it compares totals cut to whole SOL, so the excess is weighed with what was cut off. */
  lemma AssertionExactly(rewards: RewardsMap)
    requires 0 <= SumOver(TotalAmount, rewards) <= U64_MAX && SumOver(Excess, rewards) >= 0
    requires 0 <= SumOver(StakersTotal, rewards) <= U64_MAX && 0 <= SumOver(ValidatorsTotal, rewards) <= U64_MAX
    ensures PassesAssertion(rewards)
       <==> SumOver(Excess, rewards) + SumOver(TotalAmount, rewards) % 1_000_000_000
            <= 1_000_000_000 + SumOver(StakersTotal, rewards) % 1_000_000_000
               + SumOver(ValidatorsTotal, rewards) % 1_000_000_000
  {
    FiguresAddUp(rewards);
  }

  /** So up to one SOL of excess it passes, and from one lamport short of three SOL on it fires. */
  lemma AssertionOnExcess(rewards: RewardsMap)
    requires 0 <= SumOver(TotalAmount, rewards) <= U64_MAX
    requires 0 <= SumOver(StakersTotal, rewards) <= U64_MAX && 0 <= SumOver(ValidatorsTotal, rewards) <= U64_MAX
    ensures 0 <= SumOver(Excess, rewards) <= LAMPORTS_PER_SOL ==> PassesAssertion(rewards)
    ensures SumOver(Excess, rewards) >= 3 * LAMPORTS_PER_SOL - 1 ==> !PassesAssertion(rewards)
  {
    FiguresAddUp(rewards);
  }

  /** Of any files, the validators' shares are at most the total, and all shares together at least the total. */
  lemma SharesAroundTotal(files: RewardFiles, stakeToVote: map<Pubkey, Pubkey>)
    ensures var rewards := AccountsOf(files, stakeToVote);
            && 0 <= SumOver(ValidatorsTotal, rewards) <= SumOver(TotalAmount, rewards)
            && SumOver(TotalAmount, rewards) <= SumOver(StakersTotal, rewards) + SumOver(ValidatorsTotal, rewards)
  {
    var rewards := AccountsOf(files, stakeToVote);
    var rest := (vote: Pubkey) => TotalAmount(Entry(rewards, vote)) - ValidatorsTotal(Entry(rewards, vote));
    forall vote | vote in rewards
      ensures rest(vote) >= 0 && FigureAt(Excess, rewards)(vote) >= 0
    {
      RewardsConserved(vote, TallyOf(files, stakeToVote, vote));
    }
    SetSumPointwise(FigureAt(TotalAmount, rewards), rest, FigureAt(ValidatorsTotal, rewards), rewards.Keys);
    SetSumNonNegative(rest, rewards.Keys);
    SetSumNonNegative(FigureAt(Excess, rewards), rewards.Keys);
    FigureNonNegative(ValidatorsTotal, rewards, rewards.Keys);
    FiguresAddUp(rewards);
  }

  // -------------------------------------------------------- files on both sides of the assertion

  /** One stake account, staked to `vote`. */
  function OneStake(stake: Pubkey, vote: Pubkey): seq<StakeMeta> {
    [StakeMeta(stake, Some(vote))]
  }

  /** Priority fees exceed the validator's gross by `excess`, and one lamport fills up the total's last SOL. */
  function PassingFiles(stake: Pubkey, other: Pubkey, excess: u64): RewardFiles {
    RewardFiles([StakeRewardEntry(stake, 1)], [StakeRewardEntry(stake, excess)], [],
                [VoteRewardEntry(other, LAMPORTS_PER_SOL - 1)], [], [])
  }

  /** The same excess on a total that falls just short of a SOL. */
  function FiringFiles(stake: Pubkey, excess: u64): RewardFiles {
    RewardFiles([StakeRewardEntry(stake, LAMPORTS_PER_SOL - 1)], [StakeRewardEntry(stake, excess)], [], [], [], [])
  }

  lemma OneStakersEntry(stake: Pubkey, vote: Pubkey, amount: u64, of: Option<Pubkey>)
    ensures StakersSum(map[stake := vote], [StakeRewardEntry(stake, amount)], of)
         == if of == Some(vote) then amount else 0
    ensures StakersVotes(map[stake := vote], [StakeRewardEntry(stake, amount)]) == {vote}
  {
    var e := StakeRewardEntry(stake, amount);
    assert [] + [e] == [e];
    StakersSumSnoc(map[stake := vote], [], e, of);
    StakersVotesSnoc(map[stake := vote], [], e);
  }

  lemma OneVoteEntry(vote: Pubkey, amount: u64, of: Pubkey)
    ensures VoteSum([VoteRewardEntry(vote, amount)], of) == if of == vote then amount else 0
    ensures Votes([VoteRewardEntry(vote, amount)]) == {vote}
  {
    var e := VoteRewardEntry(vote, amount);
    assert [] + [e] == [e];
    VoteSumSnoc([], e, of);
    VotesSnoc([], e);
  }

  lemma SumOverOne(f: Figure, rewards: RewardsMap, a: Pubkey)
    requires rewards.Keys == {a}
    ensures SumOver(f, rewards) == f(rewards[a])
  {
    SetSumTake(FigureAt(f, rewards), rewards.Keys, a);
    assert rewards.Keys - {a} == {};
    assert FigureAt(f, rewards)(a) == f(Entry(rewards, a));
  }

  lemma SumOverTwo(f: Figure, rewards: RewardsMap, a: Pubkey, b: Pubkey)
    requires a != b && rewards.Keys == {a, b}
    ensures SumOver(f, rewards) == f(rewards[a]) + f(rewards[b])
  {
    SetSumTake(FigureAt(f, rewards), rewards.Keys, a);
    SetSumTake(FigureAt(f, rewards), rewards.Keys - {a}, b);
    assert rewards.Keys - {a} - {b} == {};
    assert FigureAt(f, rewards)(a) == f(Entry(rewards, a)) && FigureAt(f, rewards)(b) == f(Entry(rewards, b));
  }

  lemma PassingTally(stake: Pubkey, vote: Pubkey, other: Pubkey, excess: u64, of: Pubkey)
    ensures TallyOf(PassingFiles(stake, other, excess), map[stake := vote], of)
         == Tally(if of == vote then 1 else 0, 0, if of == other then LAMPORTS_PER_SOL - 1 else 0, 0, 0,
                  if of == vote then excess else 0)
  {
    OneStakersEntry(stake, vote, 1, Some(of));
    OneStakersEntry(stake, vote, excess, Some(of));
    OneVoteEntry(other, LAMPORTS_PER_SOL - 1, of);
  }

  lemma PassingVotes(stake: Pubkey, vote: Pubkey, other: Pubkey, excess: u64)
    ensures VoteAccounts(PassingFiles(stake, other, excess), map[stake := vote]) == {vote, other}
  {
    OneStakersEntry(stake, vote, 1, None);
    OneStakersEntry(stake, vote, excess, None);
    OneVoteEntry(other, LAMPORTS_PER_SOL - 1, other);
  }

  lemma PassingAccounts(stake: Pubkey, vote: Pubkey, other: Pubkey, excess: u64)
    requires vote != other
    ensures AccountsOf(PassingFiles(stake, other, excess), map[stake := vote])
         == map[vote := AccountOf(vote, Tally(1, 0, 0, 0, 0, excess)),
                other := AccountOf(other, Tally(0, 0, LAMPORTS_PER_SOL - 1, 0, 0, 0))]
  {
    PassingVotes(stake, vote, other, excess);
    PassingTally(stake, vote, other, excess, vote);
    PassingTally(stake, vote, other, excess, other);
  }

  lemma FiringAccounts(stake: Pubkey, vote: Pubkey, excess: u64)
    ensures AccountsOf(FiringFiles(stake, excess), map[stake := vote])
         == map[vote := AccountOf(vote, Tally(LAMPORTS_PER_SOL - 1, 0, 0, 0, 0, excess))]
  {
    OneStakersEntry(stake, vote, LAMPORTS_PER_SOL - 1, Some(vote));
    OneStakersEntry(stake, vote, excess, Some(vote));
    assert VoteAccounts(FiringFiles(stake, excess), map[stake := vote]) == {vote};
  }

  lemma OneStakeMatches(stake: Pubkey, vote: Pubkey, other: Pubkey, excess: u64)
    ensures StakeToVote(OneStake(stake, vote)) == map[stake := vote]
    ensures AllMatched(PassingFiles(stake, other, excess), map[stake := vote])
    ensures AllMatched(FiringFiles(stake, excess), map[stake := vote])
  {
    assert OneStake(stake, vote)[..0] == [];
    OneStakersEntry(stake, vote, 1, None);
    OneStakersEntry(stake, vote, LAMPORTS_PER_SOL - 1, None);
    OneStakersEntry(stake, vote, excess, None);
  }

  lemma PassingTotals(rewards: RewardsMap, vote: Pubkey, other: Pubkey, excess: u64)
    requires vote != other && excess < 3 * LAMPORTS_PER_SOL
    requires rewards == map[vote := AccountOf(vote, Tally(1, 0, 0, 0, 0, excess)),
                            other := AccountOf(other, Tally(0, 0, LAMPORTS_PER_SOL - 1, 0, 0, 0))]
    ensures SumOver(TotalAmount, rewards) == LAMPORTS_PER_SOL && SumOver(StakersTotal, rewards) == 1 + excess
    ensures SumOver(ValidatorsTotal, rewards) == LAMPORTS_PER_SOL - 1 && SumOver(Excess, rewards) == excess
  {
    assert rewards.Keys == {vote, other};
    SumOverTwo(TotalAmount, rewards, vote, other);
    SumOverTwo(StakersTotal, rewards, vote, other);
    SumOverTwo(ValidatorsTotal, rewards, vote, other);
    SumOverTwo(Excess, rewards, vote, other);
  }

  lemma FiringTotals(rewards: RewardsMap, vote: Pubkey, excess: u64)
    requires excess < 3 * LAMPORTS_PER_SOL
    requires rewards == map[vote := AccountOf(vote, Tally(LAMPORTS_PER_SOL - 1, 0, 0, 0, 0, excess))]
    ensures SumOver(TotalAmount, rewards) == LAMPORTS_PER_SOL - 1
    ensures SumOver(StakersTotal, rewards) == LAMPORTS_PER_SOL - 1 + excess
    ensures SumOver(ValidatorsTotal, rewards) == 0 && SumOver(Excess, rewards) == excess
  {
    assert rewards.Keys == {vote};
    SumOverOne(TotalAmount, rewards, vote);
    SumOverOne(StakersTotal, rewards, vote);
    SumOverOne(ValidatorsTotal, rewards, vote);
    SumOverOne(Excess, rewards, vote);
  }

  /** Files whose aggregation succeeds with an excess of up to almost three SOL. */
  lemma PassingOutcome(stake: Pubkey, vote: Pubkey, other: Pubkey, excess: u64)
    requires vote != other && LAMPORTS_PER_SOL < excess < 3 * LAMPORTS_PER_SOL - 1
    ensures HasExcess(PassingFiles(stake, other, excess), OneStake(stake, vote), excess)
    ensures OutcomeOf(PassingFiles(stake, other, excess), OneStake(stake, vote)).Aggregated?
  {
    OneStakeMatches(stake, vote, other, excess);
    PassingAccounts(stake, vote, other, excess);
    PassingTotals(AccountsOf(PassingFiles(stake, other, excess), map[stake := vote]), vote, other, excess);
  }

  /** Files whose aggregation panics with an excess of little more than one SOL. */
  lemma FiringOutcome(stake: Pubkey, vote: Pubkey, excess: u64)
    requires LAMPORTS_PER_SOL < excess < 3 * LAMPORTS_PER_SOL - 1
    ensures HasExcess(FiringFiles(stake, excess), OneStake(stake, vote), excess)
    ensures OutcomeOf(FiringFiles(stake, excess), OneStake(stake, vote)).Panicked?
  {
    OneStakeMatches(stake, vote, vote, excess);
    FiringAccounts(stake, vote, excess);
    FiringTotals(AccountsOf(FiringFiles(stake, excess), map[stake := vote]), vote, excess);
  }

  /** Neither bound can be moved: for every excess in between there are files with that excess whose aggregation
      succeeds and files with that excess whose aggregation panics. */
  lemma BothOutcomesBetween(stake: Pubkey, vote: Pubkey, other: Pubkey, excess: nat)
    requires vote != other && LAMPORTS_PER_SOL < excess < 3 * LAMPORTS_PER_SOL - 1
    ensures exists files, metas :: HasExcess(files, metas, excess) && OutcomeOf(files, metas).Aggregated?
    ensures exists files, metas :: HasExcess(files, metas, excess) && OutcomeOf(files, metas).Panicked?
  {
    PassingOutcome(stake, vote, other, excess);
    FiringOutcome(stake, vote, excess);
  }

  /** When every account is balanced and the total fits, the assertion cannot fire. */
  lemma BalancedAccountsPass(rewards: RewardsMap)
    requires forall vote :: Excess(Entry(rewards, vote)) == 0
    requires SumOver(TotalAmount, rewards) <= U64_MAX
    ensures PassesAssertion(rewards)
  {
    FiguresAddUp(rewards);
    FigureNonNegative(TotalAmount, rewards, rewards.Keys);
    FigureNonNegative(StakersTotal, rewards, rewards.Keys);
    FigureNonNegative(ValidatorsTotal, rewards, rewards.Keys);
    SetSumNonNegative(FigureAt(Excess, rewards), rewards.Keys);
    AssertionOnExcess(rewards);
  }

  /** So an aggregation without unmatched entries or overflow succeeds when no vote account's priority fees exceed
      what its validator got. */
  lemma AggregationSucceeds(files: RewardFiles, stakeToVote: map<Pubkey, Pubkey>)
    requires forall vote :: NoOverflow(TallyOf(files, stakeToVote, vote))
    requires forall vote :: TallyOf(files, stakeToVote, vote).jito <= TallyOf(files, stakeToVote, vote).Gross()
    requires SumOver(TotalAmount, AccountsOf(files, stakeToVote)) <= U64_MAX
    ensures PassesAssertion(AccountsOf(files, stakeToVote))
  {
    var rewards := AccountsOf(files, stakeToVote);
    forall vote
      ensures Excess(Entry(rewards, vote)) == 0
    {
      RewardsConserved(vote, TallyOf(files, stakeToVote, vote));
    }
    BalancedAccountsPass(rewards);
  }
}
