/** settlement-distributions/bid-distribution/src/rewards.rs: aggregation of six reward files by vote account. */
module Rewards {
  import opened Wrappers
  import opened Bytes
  import opened Sums

  const LAMPORTS_PER_SOL := 1_000_000_000

  datatype StakeMeta = StakeMeta(pubkey: Pubkey, validator: Option<Pubkey>)

  datatype StakeRewardEntry = StakeRewardEntry(stakeAccount: Pubkey, amount: u64)

  /** An entry by vote account, also for block rewards. */
  datatype VoteRewardEntry = VoteRewardEntry(voteAccount: Pubkey, amount: u64)

  datatype VoteAccountRewards = VoteAccountRewards(
    voteAccount: Pubkey,
    totalAmount: u64,
    inflationRewards: u64,
    mevRewards: u64,
    blockRewards: u64,
    jitoPriorityFeeRewards: u64,
    validatorsTotalAmount: u64,
    stakersInflationRewards: u64,
    stakersMevRewards: u64,
    stakersPriorityFeeRewards: u64,
    stakersTotalAmount: u64)

  type RewardsMap = map<Pubkey, VoteAccountRewards>

  function Fresh(vote: Pubkey): VoteAccountRewards {
    VoteAccountRewards(vote, 0, 0, 0, 0, 0, 0, 0, 0, 0, 0)
  }

  /** `entry(..).or_insert_with(..)`. */
  function Entry(rewards: RewardsMap, vote: Pubkey): VoteAccountRewards {
    if vote in rewards then rewards[vote] else Fresh(vote)
  }

  /** `stake_to_vote`: of several entries for a stake account the last counts. */
  function StakeToVote(metas: seq<StakeMeta>): map<Pubkey, Pubkey> {
    if metas == [] then map[] else
    var front, last := StakeToVote(metas[..|metas| - 1]), metas[|metas| - 1];
    if last.validator.Some? then front[last.pubkey := last.validator.value] else front
  }

  // ------------------------------------------------------------ the six kinds of entries

  datatype Kind = Inflation | Mev | Blocks | ValidatorsInflation | ValidatorsMev | JitoPriorityFee

  /** What the loop over the entries of one kind does to an account. */
  function Credit(kind: Kind, e: VoteAccountRewards, amount: u64): VoteAccountRewards {
    match kind
    case Inflation => e.(
      stakersInflationRewards := SatAdd(e.stakersInflationRewards, amount),
      stakersTotalAmount := SatAdd(e.stakersTotalAmount, amount),
      inflationRewards := SatAdd(e.inflationRewards, amount),
      totalAmount := SatAdd(e.totalAmount, amount))
    case Mev => e.(
      stakersMevRewards := SatAdd(e.stakersMevRewards, amount),
      stakersTotalAmount := SatAdd(e.stakersTotalAmount, amount),
      mevRewards := SatAdd(e.mevRewards, amount),
      totalAmount := SatAdd(e.totalAmount, amount))
    case Blocks => e.(
      blockRewards := SatAdd(e.blockRewards, amount),
      validatorsTotalAmount := SatAdd(e.validatorsTotalAmount, amount),
      totalAmount := SatAdd(e.totalAmount, amount))
    case ValidatorsInflation => e.(
      inflationRewards := SatAdd(e.inflationRewards, amount),
      validatorsTotalAmount := SatAdd(e.validatorsTotalAmount, amount),
      totalAmount := SatAdd(e.totalAmount, amount))
    case ValidatorsMev => e.(
      mevRewards := SatAdd(e.mevRewards, amount),
      validatorsTotalAmount := SatAdd(e.validatorsTotalAmount, amount),
      totalAmount := SatAdd(e.totalAmount, amount))
    case JitoPriorityFee => e.(
      stakersPriorityFeeRewards := SatAdd(e.stakersPriorityFeeRewards, amount),
      stakersTotalAmount := SatAdd(e.stakersTotalAmount, amount),
      jitoPriorityFeeRewards := SatAdd(e.jitoPriorityFeeRewards, amount),
      validatorsTotalAmount := SatSub(e.validatorsTotalAmount, amount))
  }

  /** The true sums of the entries of each kind for one vote account. */
  datatype Tally = Tally(inflation: nat, mev: nat, blocks: nat, validatorsInflation: nat, validatorsMev: nat,
                         jito: nat) {
    function Total(): nat { inflation + mev + blocks + validatorsInflation + validatorsMev }

    /** What validators got before sharing priority fees. */
    function Gross(): nat { blocks + validatorsInflation + validatorsMev }

    function Stakers(): nat { inflation + mev + jito }
  }

  const NOTHING := Tally(0, 0, 0, 0, 0, 0)

  function Add(kind: Kind, t: Tally, amount: nat): Tally {
    match kind
    case Inflation => t.(inflation := t.inflation + amount)
    case Mev => t.(mev := t.mev + amount)
    case Blocks => t.(blocks := t.blocks + amount)
    case ValidatorsInflation => t.(validatorsInflation := t.validatorsInflation + amount)
    case ValidatorsMev => t.(validatorsMev := t.validatorsMev + amount)
    case JitoPriorityFee => t.(jito := t.jito + amount)
  }

  function Sat(amount: nat): u64 {
    if amount <= U64_MAX then amount else U64_MAX
  }

  /** The account that a tally amounts to: every sum saturates on its own, and the validators' total gives up the
      priority fees last. */
  function AccountOf(vote: Pubkey, t: Tally): VoteAccountRewards {
    VoteAccountRewards(
      vote,
      Sat(t.Total()),
      Sat(t.inflation + t.validatorsInflation),
      Sat(t.mev + t.validatorsMev),
      Sat(t.blocks),
      Sat(t.jito),
      Max(Sat(t.Gross()) - t.jito, 0),
      Sat(t.inflation),
      Sat(t.mev),
      Sat(t.jito),
      Sat(t.Stakers()))
  }

  /** Crediting an entry to the stakers keeps an account what its tally amounts to. */
  lemma CreditStakersIsAdd(kind: Kind, vote: Pubkey, t: Tally, amount: u64)
    requires (kind == Inflation || kind == Mev) && t.jito == 0
    ensures Credit(kind, AccountOf(vote, t), amount) == AccountOf(vote, Add(kind, t, amount))
  {
  }

  lemma CreditValidatorsIsAdd(kind: Kind, vote: Pubkey, t: Tally, amount: u64)
    requires (kind == Blocks || kind == ValidatorsInflation || kind == ValidatorsMev) && t.jito == 0
    ensures Credit(kind, AccountOf(vote, t), amount) == AccountOf(vote, Add(kind, t, amount))
  {
  }

  lemma CreditJitoIsAdd(vote: Pubkey, t: Tally, amount: u64)
    ensures Credit(JitoPriorityFee, AccountOf(vote, t), amount) == AccountOf(vote, Add(JitoPriorityFee, t, amount))
  {
  }

  /** Crediting one entry keeps an account what its tally amounts to, in the order of the loops. */
  lemma CreditIsAdd(kind: Kind, vote: Pubkey, t: Tally, amount: u64)
    requires kind == JitoPriorityFee || t.jito == 0
    ensures Credit(kind, AccountOf(vote, t), amount) == AccountOf(vote, Add(kind, t, amount))
  {
    if kind == JitoPriorityFee {
      CreditJitoIsAdd(vote, t, amount);
    } else if kind == Inflation || kind == Mev {
      CreditStakersIsAdd(kind, vote, t, amount);
    } else {
      CreditValidatorsIsAdd(kind, vote, t, amount);
    }
  }

  // ------------------------------------------------------------------------ the loops

  function StakeAmount(e: StakeRewardEntry): int { e.amount }
  function VoteAmount(e: VoteRewardEntry): int { e.amount }
  function VoteOf(e: VoteRewardEntry): Pubkey { e.voteAccount }

  /** The vote account that an entry by stake account belongs to. */
  function MatchedBy(stakeToVote: map<Pubkey, Pubkey>): StakeRewardEntry -> Option<Pubkey> {
    (e: StakeRewardEntry) => if e.stakeAccount in stakeToVote then Some(stakeToVote[e.stakeAccount]) else None
  }

  function StakersSum(stakeToVote: map<Pubkey, Pubkey>, entries: seq<StakeRewardEntry>, vote: Option<Pubkey>): nat {
    KeySumBounds(MatchedBy(stakeToVote), StakeAmount, vote, entries);
    KeySum(MatchedBy(stakeToVote), StakeAmount, vote, entries)
  }

  function VoteSum(entries: seq<VoteRewardEntry>, vote: Pubkey): nat {
    KeySumBounds(VoteOf, VoteAmount, vote, entries);
    KeySum(VoteOf, VoteAmount, vote, entries)
  }

  /** The vote accounts that entries by stake account belong to. */
  function StakersVotes(stakeToVote: map<Pubkey, Pubkey>, entries: seq<StakeRewardEntry>): set<Pubkey> {
    set e | e in entries && e.stakeAccount in stakeToVote :: stakeToVote[e.stakeAccount]
  }

  function Votes(entries: seq<VoteRewardEntry>): set<Pubkey> {
    set e | e in entries :: e.voteAccount
  }

  lemma StakersVotesSnoc(stakeToVote: map<Pubkey, Pubkey>, entries: seq<StakeRewardEntry>, e: StakeRewardEntry)
    ensures StakersVotes(stakeToVote, entries + [e])
         == StakersVotes(stakeToVote, entries)
         + if e.stakeAccount in stakeToVote then {stakeToVote[e.stakeAccount]} else {}
  {
    assert forall x :: x in entries + [e] <==> x in entries || x == e;
    assert e in entries + [e];
  }

  lemma VotesSnoc(entries: seq<VoteRewardEntry>, e: VoteRewardEntry)
    ensures Votes(entries + [e]) == Votes(entries) + {e.voteAccount}
  {
    assert forall x :: x in entries + [e] <==> x in entries || x == e;
    assert e in entries + [e];
  }

  lemma StakersSumSnoc(stakeToVote: map<Pubkey, Pubkey>, entries: seq<StakeRewardEntry>, e: StakeRewardEntry,
                       vote: Option<Pubkey>)
    ensures StakersSum(stakeToVote, entries + [e], vote)
         == StakersSum(stakeToVote, entries, vote) + if MatchedBy(stakeToVote)(e) == vote then e.amount else 0
  {
    KeySumSnoc(MatchedBy(stakeToVote), StakeAmount, vote, entries, e);
  }

  lemma VoteSumSnoc(entries: seq<VoteRewardEntry>, e: VoteRewardEntry, vote: Pubkey)
    ensures VoteSum(entries + [e], vote) == VoteSum(entries, vote) + if e.voteAccount == vote then e.amount else 0
  {
    KeySumSnoc(VoteOf, VoteAmount, vote, entries, e);
  }

  /** What one entry does to an account. */
  type Crediting = (VoteAccountRewards, u64) -> VoteAccountRewards

  function CreditOf(kind: Kind): Crediting {
    (e: VoteAccountRewards, amount: u64) => Credit(kind, e, amount)
  }

  /** What one entry by stake account makes of the accounts. */
  function CreditedBy(credit: Crediting, stakeToVote: map<Pubkey, Pubkey>, rewards: RewardsMap,
                      e: StakeRewardEntry): RewardsMap {
    if e.stakeAccount in stakeToVote
    then rewards[stakeToVote[e.stakeAccount] := credit(Entry(rewards, stakeToVote[e.stakeAccount]), e.amount)]
    else rewards
  }

  /** What the loop over `entries` makes of `before`. */
  function CreditedStakers(credit: Crediting, stakeToVote: map<Pubkey, Pubkey>, before: RewardsMap,
                           entries: seq<StakeRewardEntry>): RewardsMap {
    if entries == [] then before else
    CreditedBy(credit, stakeToVote, CreditedStakers(credit, stakeToVote, before, entries[..|entries| - 1]),
               entries[|entries| - 1])
  }

  function CreditedValidators(credit: Crediting, before: RewardsMap, entries: seq<VoteRewardEntry>): RewardsMap {
    if entries == [] then before else
    var rewards, e := CreditedValidators(credit, before, entries[..|entries| - 1]), entries[|entries| - 1];
    rewards[e.voteAccount := credit(Entry(rewards, e.voteAccount), e.amount)]
  }

  lemma StakersStep(credit: Crediting, stakeToVote: map<Pubkey, Pubkey>, before: RewardsMap,
                    entries: seq<StakeRewardEntry>, k: nat)
    requires k < |entries|
    ensures CreditedStakers(credit, stakeToVote, before, entries[..k + 1])
         == CreditedBy(credit, stakeToVote, CreditedStakers(credit, stakeToVote, before, entries[..k]), entries[k])
    ensures StakersSum(stakeToVote, entries[..k + 1], None)
         == StakersSum(stakeToVote, entries[..k], None)
         + if entries[k].stakeAccount in stakeToVote then 0 else entries[k].amount
  {
    assert entries[..k + 1] == entries[..k] + [entries[k]];
    assert entries[..k + 1][..k] == entries[..k];
    StakersSumSnoc(stakeToVote, entries[..k], entries[k], None);
  }

  /** A loop over entries by stake account: each account becomes what the sum of its entries makes of it. */
  method CreditStakers(credit: Crediting, entries: seq<StakeRewardEntry>, stakeToVote: map<Pubkey, Pubkey>,
                       before: RewardsMap)
    returns (rewards: RewardsMap, unmatched: u64)
    ensures forall account: nat -> VoteAccountRewards, vote ::
              Accumulates(credit, account) && Entry(before, vote) == account(0) ==>
                Entry(rewards, vote) == account(StakersSum(stakeToVote, entries, Some(vote)))
    ensures rewards.Keys == before.Keys + StakersVotes(stakeToVote, entries)
    ensures rewards == CreditedStakers(credit, stakeToVote, before, entries)
    ensures unmatched == Sat(StakersSum(stakeToVote, entries, None))
  {
    rewards, unmatched := before, 0;
    for k := 0 to |entries|
      invariant rewards == CreditedStakers(credit, stakeToVote, before, entries[..k])
      invariant unmatched == Sat(StakersSum(stakeToVote, entries[..k], None))
    {
      var e := entries[k];
      StakersStep(credit, stakeToVote, before, entries, k);
      if e.stakeAccount in stakeToVote {
        var vote := stakeToVote[e.stakeAccount];
        rewards := rewards[vote := credit(Entry(rewards, vote), e.amount)];
      } else {
        unmatched := SatAdd(unmatched, e.amount);
      }
    }
    assert entries[..|entries|] == entries;
    StakersKeys(credit, stakeToVote, before, entries);
    StakersCreditedAll(credit, stakeToVote, before, entries);
  }

  /** A loop over entries by vote account: each account becomes what the sum of its entries makes of it. */
  method CreditValidators(credit: Crediting, entries: seq<VoteRewardEntry>, before: RewardsMap)
    returns (rewards: RewardsMap)
    ensures forall account: nat -> VoteAccountRewards, vote ::
              Accumulates(credit, account) && Entry(before, vote) == account(0) ==>
                Entry(rewards, vote) == account(VoteSum(entries, vote))
    ensures rewards.Keys == before.Keys + Votes(entries)
    ensures rewards == CreditedValidators(credit, before, entries)
  {
    rewards := before;
    for k := 0 to |entries|
      invariant rewards == CreditedValidators(credit, before, entries[..k])
    {
      var e := entries[k];
      assert entries[..k + 1][..k] == entries[..k];
      rewards := rewards[e.voteAccount := credit(Entry(rewards, e.voteAccount), e.amount)];
    }
    assert entries[..|entries|] == entries;
    ValidatorsKeys(credit, before, entries);
    ValidatorsCreditedAll(credit, before, entries);
  }

  /** Crediting an amount to the account of a sum makes the account of the larger sum. */
  ghost predicate Accumulates(credit: Crediting, account: nat -> VoteAccountRewards) {
    forall sum: nat, amount: u64 :: credit(account(sum), amount) == account(sum + amount)
  }

  /** A loop leaves in each account what the sum of that account's entries makes of it. */
  lemma {:induction false} StakersCredited(credit: Crediting, account: nat -> VoteAccountRewards,
                                           stakeToVote: map<Pubkey, Pubkey>, before: RewardsMap,
                                           entries: seq<StakeRewardEntry>, vote: Pubkey)
    requires Accumulates(credit, account) && Entry(before, vote) == account(0)
    ensures Entry(CreditedStakers(credit, stakeToVote, before, entries), vote)
         == account(StakersSum(stakeToVote, entries, Some(vote)))
  {
    if entries != [] {
      var front, e := entries[..|entries| - 1], entries[|entries| - 1];
      StakersCredited(credit, account, stakeToVote, before, front, vote);
      assert entries == front + [e];
      StakersSumSnoc(stakeToVote, front, e, Some(vote));
    }
  }

  lemma {:induction false} ValidatorsCredited(credit: Crediting, account: nat -> VoteAccountRewards, before: RewardsMap,
                                              entries: seq<VoteRewardEntry>, vote: Pubkey)
    requires Accumulates(credit, account) && Entry(before, vote) == account(0)
    ensures Entry(CreditedValidators(credit, before, entries), vote) == account(VoteSum(entries, vote))
  {
    if entries != [] {
      var front, e := entries[..|entries| - 1], entries[|entries| - 1];
      ValidatorsCredited(credit, account, before, front, vote);
      assert entries == front + [e];
      VoteSumSnoc(front, e, vote);
    }
  }

  lemma StakersCreditedAll(credit: Crediting, stakeToVote: map<Pubkey, Pubkey>, before: RewardsMap,
                               entries: seq<StakeRewardEntry>)
    ensures forall account: nat -> VoteAccountRewards, vote ::
              Accumulates(credit, account) && Entry(before, vote) == account(0) ==>
                Entry(CreditedStakers(credit, stakeToVote, before, entries), vote)
                == account(StakersSum(stakeToVote, entries, Some(vote)))
  {
    forall account: nat -> VoteAccountRewards, vote | Accumulates(credit, account) && Entry(before, vote) == account(0)
      ensures Entry(CreditedStakers(credit, stakeToVote, before, entries), vote)
           == account(StakersSum(stakeToVote, entries, Some(vote)))
    {
      StakersCredited(credit, account, stakeToVote, before, entries, vote);
    }
  }

  lemma ValidatorsCreditedAll(credit: Crediting, before: RewardsMap, entries: seq<VoteRewardEntry>)
    ensures forall account: nat -> VoteAccountRewards, vote ::
              Accumulates(credit, account) && Entry(before, vote) == account(0) ==>
                Entry(CreditedValidators(credit, before, entries), vote) == account(VoteSum(entries, vote))
  {
    forall account: nat -> VoteAccountRewards, vote | Accumulates(credit, account) && Entry(before, vote) == account(0)
      ensures Entry(CreditedValidators(credit, before, entries), vote) == account(VoteSum(entries, vote))
    {
      ValidatorsCredited(credit, account, before, entries, vote);
    }
  }

  lemma {:induction false} StakersKeys(credit: Crediting, stakeToVote: map<Pubkey, Pubkey>, before: RewardsMap,
                                       entries: seq<StakeRewardEntry>)
    ensures CreditedStakers(credit, stakeToVote, before, entries).Keys
         == before.Keys + StakersVotes(stakeToVote, entries)
  {
    if entries != [] {
      var front, e := entries[..|entries| - 1], entries[|entries| - 1];
      StakersKeys(credit, stakeToVote, before, front);
      assert entries == front + [e];
      StakersVotesSnoc(stakeToVote, front, e);
    }
  }

  lemma {:induction false} ValidatorsKeys(credit: Crediting, before: RewardsMap, entries: seq<VoteRewardEntry>)
    ensures CreditedValidators(credit, before, entries).Keys == before.Keys + Votes(entries)
  {
    if entries != [] {
      var front, e := entries[..|entries| - 1], entries[|entries| - 1];
      ValidatorsKeys(credit, before, front);
      assert entries == front + [e];
      VotesSnoc(front, e);
    }
  }

  // ------------------------------------------------------------------ the six loops in turn

  datatype RewardFiles = RewardFiles(
    inflation: seq<StakeRewardEntry>,
    jito: seq<StakeRewardEntry>,
    mev: seq<StakeRewardEntry>,
    blocks: seq<VoteRewardEntry>,
    validatorsInflation: seq<VoteRewardEntry>,
    validatorsMev: seq<VoteRewardEntry>)

  function TallyOf(files: RewardFiles, stakeToVote: map<Pubkey, Pubkey>, vote: Pubkey): Tally {
    Tally(
      StakersSum(stakeToVote, files.inflation, Some(vote)),
      StakersSum(stakeToVote, files.mev, Some(vote)),
      VoteSum(files.blocks, vote),
      VoteSum(files.validatorsInflation, vote),
      VoteSum(files.validatorsMev, vote),
      StakersSum(stakeToVote, files.jito, Some(vote)))
  }

  /** All vote accounts with an entry in some file. */
  function VoteAccounts(files: RewardFiles, stakeToVote: map<Pubkey, Pubkey>): set<Pubkey> {
    StakersVotes(stakeToVote, files.inflation) + StakersVotes(stakeToVote, files.mev)
    + Votes(files.blocks) + Votes(files.validatorsInflation) + Votes(files.validatorsMev)
    + StakersVotes(stakeToVote, files.jito)
  }

  /** The first two loops. */
  function StakersFirst(credit: Kind -> Crediting, files: RewardFiles, stakeToVote: map<Pubkey, Pubkey>): RewardsMap {
    CreditedStakers(credit(Mev), stakeToVote, CreditedStakers(credit(Inflation), stakeToVote, map[], files.inflation),
                    files.mev)
  }

  /** The next three. */
  function ValidatorsThen(credit: Kind -> Crediting, files: RewardFiles, before: RewardsMap): RewardsMap {
    var blocks := CreditedValidators(credit(Blocks), before, files.blocks);
    var validatorsInflation := CreditedValidators(credit(ValidatorsInflation), blocks, files.validatorsInflation);
    CreditedValidators(credit(ValidatorsMev), validatorsInflation, files.validatorsMev)
  }

  /** All six: priority fees come last. */
  function AllCredited(credit: Kind -> Crediting, files: RewardFiles, stakeToVote: map<Pubkey, Pubkey>): RewardsMap {
    CreditedStakers(credit(JitoPriorityFee), stakeToVote,
                    ValidatorsThen(credit, files, StakersFirst(credit, files, stakeToVote)), files.jito)
  }

  /** Crediting entries, priority fees last, goes along with adding to the tally that `account` makes an account of. */
  ghost predicate Tallies(credit: Kind -> Crediting, account: Tally -> VoteAccountRewards) {
    forall kind, t: Tally, amount: u64 ::
      (kind == JitoPriorityFee || t.jito == 0) ==> credit(kind)(account(t), amount) == account(Add(kind, t, amount))
  }

  ghost function AccountWith(account: Tally -> VoteAccountRewards, kind: Kind, t: Tally): nat -> VoteAccountRewards {
    (sum: nat) => account(Add(kind, t, sum))
  }

  lemma KindAccumulates(credit: Kind -> Crediting, account: Tally -> VoteAccountRewards, kind: Kind, t: Tally)
    requires Tallies(credit, account) && (kind == JitoPriorityFee || t.jito == 0)
    ensures Accumulates(credit(kind), AccountWith(account, kind, t))
    ensures AccountWith(account, kind, t)(0) == account(t)
  {
    assert Add(kind, t, 0) == t;
    forall sum: nat, amount: u64
      ensures credit(kind)(AccountWith(account, kind, t)(sum), amount) == AccountWith(account, kind, t)(sum + amount)
    {
      assert Add(kind, Add(kind, t, sum), amount) == Add(kind, t, sum + amount);
    }
  }

  lemma StakersTallied(credit: Kind -> Crediting, account: Tally -> VoteAccountRewards, kind: Kind,
                       stakeToVote: map<Pubkey, Pubkey>, before: RewardsMap, entries: seq<StakeRewardEntry>,
                       vote: Pubkey, t: Tally)
    requires Tallies(credit, account) && (kind == JitoPriorityFee || t.jito == 0) && Entry(before, vote) == account(t)
    ensures Entry(CreditedStakers(credit(kind), stakeToVote, before, entries), vote)
         == account(Add(kind, t, StakersSum(stakeToVote, entries, Some(vote))))
  {
    KindAccumulates(credit, account, kind, t);
    StakersCredited(credit(kind), AccountWith(account, kind, t), stakeToVote, before, entries, vote);
  }

  lemma ValidatorsTallied(credit: Kind -> Crediting, account: Tally -> VoteAccountRewards, kind: Kind,
                          before: RewardsMap, entries: seq<VoteRewardEntry>, vote: Pubkey, t: Tally)
    requires Tallies(credit, account) && (kind == JitoPriorityFee || t.jito == 0) && Entry(before, vote) == account(t)
    ensures Entry(CreditedValidators(credit(kind), before, entries), vote)
         == account(Add(kind, t, VoteSum(entries, vote)))
  {
    KindAccumulates(credit, account, kind, t);
    ValidatorsCredited(credit(kind), AccountWith(account, kind, t), before, entries, vote);
  }

  lemma StakersFirstTallied(credit: Kind -> Crediting, account: Tally -> VoteAccountRewards, files: RewardFiles,
                            stakeToVote: map<Pubkey, Pubkey>, vote: Pubkey)
    requires Tallies(credit, account) && account(NOTHING) == Fresh(vote)
    ensures Entry(StakersFirst(credit, files, stakeToVote), vote)
         == account(Tally(StakersSum(stakeToVote, files.inflation, Some(vote)),
                          StakersSum(stakeToVote, files.mev, Some(vote)), 0, 0, 0, 0))
  {
    var none: RewardsMap := map[];
    var inflation, mev := StakersSum(stakeToVote, files.inflation, Some(vote)),
                          StakersSum(stakeToVote, files.mev, Some(vote));
    assert Add(Mev, Add(Inflation, NOTHING, inflation), mev) == Tally(inflation, mev, 0, 0, 0, 0);
    StakersTallied(credit, account, Inflation, stakeToVote, none, files.inflation, vote, NOTHING);
    StakersTallied(credit, account, Mev, stakeToVote,
                   CreditedStakers(credit(Inflation), stakeToVote, none, files.inflation), files.mev, vote,
                   Add(Inflation, NOTHING, inflation));
  }

  lemma ValidatorsThenTallied(credit: Kind -> Crediting, account: Tally -> VoteAccountRewards, files: RewardFiles,
                              before: RewardsMap, vote: Pubkey, t: Tally)
    requires Tallies(credit, account) && t.jito == 0 && Entry(before, vote) == account(t)
    ensures Entry(ValidatorsThen(credit, files, before), vote)
         == account(Add(ValidatorsMev, Add(ValidatorsInflation, Add(Blocks, t, VoteSum(files.blocks, vote)),
                                           VoteSum(files.validatorsInflation, vote)),
                                           VoteSum(files.validatorsMev, vote)))
  {
    var t1 := Add(Blocks, t, VoteSum(files.blocks, vote));
    var t2 := Add(ValidatorsInflation, t1, VoteSum(files.validatorsInflation, vote));
    var blocks := CreditedValidators(credit(Blocks), before, files.blocks);
    var validatorsInflation := CreditedValidators(credit(ValidatorsInflation), blocks, files.validatorsInflation);
    ValidatorsTallied(credit, account, Blocks, before, files.blocks, vote, t);
    ValidatorsTallied(credit, account, ValidatorsInflation, blocks, files.validatorsInflation, vote, t1);
    ValidatorsTallied(credit, account, ValidatorsMev, validatorsInflation, files.validatorsMev, vote, t2);
  }

  lemma LoopsTally(credit: Kind -> Crediting, account: Tally -> VoteAccountRewards, files: RewardFiles,
                   stakeToVote: map<Pubkey, Pubkey>, vote: Pubkey)
    requires Tallies(credit, account) && account(NOTHING) == Fresh(vote)
    ensures Entry(AllCredited(credit, files, stakeToVote), vote) == account(TallyOf(files, stakeToVote, vote))
  {
    var full := TallyOf(files, stakeToVote, vote);
    var first := StakersFirst(credit, files, stakeToVote);
    StakersFirstTallied(credit, account, files, stakeToVote, vote);
    ValidatorsThenTallied(credit, account, files, first, vote, Tally(full.inflation, full.mev, 0, 0, 0, 0));
    StakersTallied(credit, account, JitoPriorityFee, stakeToVote, ValidatorsThen(credit, files, first), files.jito,
                   vote, full.(jito := 0));
  }

  ghost function AccountMaker(vote: Pubkey): Tally -> VoteAccountRewards {
    (t: Tally) => AccountOf(vote, t)
  }

  lemma CreditsTally(vote: Pubkey)
    ensures Tallies(CreditOf, AccountMaker(vote))
  {
    forall kind, t: Tally, amount: u64 | kind == JitoPriorityFee || t.jito == 0
      ensures CreditOf(kind)(AccountMaker(vote)(t), amount) == AccountMaker(vote)(Add(kind, t, amount))
    {
      CreditIsAdd(kind, vote, t, amount);
    }
  }

  /** Each account in closed form: the six loops leave what the six sums of its entries amount to. */
  lemma AccountClosedForm(files: RewardFiles, stakeToVote: map<Pubkey, Pubkey>, vote: Pubkey)
    ensures Entry(AllCredited(CreditOf, files, stakeToVote), vote) == AccountOf(vote, TallyOf(files, stakeToVote, vote))
  {
    CreditsTally(vote);
    LoopsTally(CreditOf, AccountMaker(vote), files, stakeToVote, vote);
  }

  lemma AccountsOfFiles(credit: Kind -> Crediting, files: RewardFiles, stakeToVote: map<Pubkey, Pubkey>)
    ensures AllCredited(credit, files, stakeToVote).Keys == VoteAccounts(files, stakeToVote)
  {
    var r0: RewardsMap := map[];
    var r1 := CreditedStakers(credit(Inflation), stakeToVote, r0, files.inflation);
    var r2 := CreditedStakers(credit(Mev), stakeToVote, r1, files.mev);
    var r3 := CreditedValidators(credit(Blocks), r2, files.blocks);
    var r4 := CreditedValidators(credit(ValidatorsInflation), r3, files.validatorsInflation);
    var r5 := CreditedValidators(credit(ValidatorsMev), r4, files.validatorsMev);
    StakersKeys(credit(Inflation), stakeToVote, r0, files.inflation);
    StakersKeys(credit(Mev), stakeToVote, r1, files.mev);
    ValidatorsKeys(credit(Blocks), r2, files.blocks);
    ValidatorsKeys(credit(ValidatorsInflation), r3, files.validatorsInflation);
    ValidatorsKeys(credit(ValidatorsMev), r4, files.validatorsMev);
    StakersKeys(credit(JitoPriorityFee), stakeToVote, r5, files.jito);
  }

  /** The accounts of the files: one for each vote account with an entry, in closed form. */
  ghost function AccountsOf(files: RewardFiles, stakeToVote: map<Pubkey, Pubkey>): RewardsMap {
    map vote | vote in VoteAccounts(files, stakeToVote) :: AccountOf(vote, TallyOf(files, stakeToVote, vote))
  }

  /** What the six loops leave is the accounts of the files. */
  lemma LoopsMakeAccounts(files: RewardFiles, stakeToVote: map<Pubkey, Pubkey>)
    ensures AllCredited(CreditOf, files, stakeToVote) == AccountsOf(files, stakeToVote)
  {
    var credited, accounts := AllCredited(CreditOf, files, stakeToVote), AccountsOf(files, stakeToVote);
    AccountsOfFiles(CreditOf, files, stakeToVote);
    assert credited.Keys == accounts.Keys;
    forall vote | vote in accounts
      ensures credited[vote] == accounts[vote]
    {
      AccountClosedForm(files, stakeToVote, vote);
      assert Entry(credited, vote) == credited[vote];
    }
  }

  // ------------------------------------------------------------------ totals and the assertion

  /** One figure of every account. */
  type Figure = VoteAccountRewards -> int

  function TotalAmount(r: VoteAccountRewards): int { r.totalAmount }
  function StakersTotal(r: VoteAccountRewards): int { r.stakersTotalAmount }
  function ValidatorsTotal(r: VoteAccountRewards): int { r.validatorsTotalAmount }

  function FigureAt(f: Figure, rewards: RewardsMap): Pubkey -> int {
    (vote: Pubkey) => f(Entry(rewards, vote))
  }

  /** A figure summed over all accounts. */
  ghost function SumOver(f: Figure, rewards: RewardsMap): int {
    SetSum(FigureAt(f, rewards), rewards.Keys)
  }

  lemma FigureNonNegative(f: Figure, rewards: RewardsMap, votes: set<Pubkey>)
    requires forall r :: f(r) >= 0
    ensures SetSum(FigureAt(f, rewards), votes) >= 0
  {
    forall vote
      ensures FigureAt(f, rewards)(vote) >= 0
    {
      assert f(Entry(rewards, vote)) >= 0;
    }
    SetSumNonNegative(FigureAt(f, rewards), votes);
  }

  /** `values().map(..).sum::<u64>()` in the map's order; None is the panic of an overflow. */
  method SumValues(f: Figure, rewards: RewardsMap) returns (sum: Option<u64>)
    requires forall r :: f(r) >= 0
    ensures sum == if SumOver(f, rewards) <= U64_MAX then Some(SumOver(f, rewards)) else None
  {
    var acc, rest := 0, rewards.Keys;
    while rest != {}
      invariant rest <= rewards.Keys && 0 <= acc <= U64_MAX
      invariant acc + SetSum(FigureAt(f, rewards), rest) == SumOver(f, rewards)
      decreases rest
    {
      var vote :| vote in rest;
      SetSumTake(FigureAt(f, rewards), rest, vote);
      assert Entry(rewards, vote) == rewards[vote];
      assert FigureAt(f, rewards)(vote) == f(rewards[vote]);
      rest := rest - {vote};
      FigureNonNegative(f, rewards, rest);
      acc := acc + f(rewards[vote]);
      if acc > U64_MAX {
        return None;
      }
    }
    return Some(acc);
  }

  /** The assertion's tolerance of one SOL, each total being cut to whole SOL first. */
  predicate Tolerated(total: nat, stakers: nat, validators: nat) {
    -1 <= total / LAMPORTS_PER_SOL - (stakers / LAMPORTS_PER_SOL + validators / LAMPORTS_PER_SOL) <= 1
  }

  datatype Outcome =
    | Aggregated(rewards: RewardsMap)
    | Unmatched(inflation: u64, mev: u64, jito: u64)
    | Panicked

  /** The figures summed over the accounts of the files. */
  ghost predicate PassesAssertion(rewards: RewardsMap) {
    var total, stakers, validators := SumOver(TotalAmount, rewards), SumOver(StakersTotal, rewards),
                                      SumOver(ValidatorsTotal, rewards);
    && 0 <= total <= U64_MAX && 0 <= stakers <= U64_MAX && 0 <= validators <= U64_MAX
    && Tolerated(total, stakers, validators)
  }

  method CheckTotals(rewards: RewardsMap) returns (passes: bool)
    ensures passes <==> PassesAssertion(rewards)
  {
    FigureNonNegative(TotalAmount, rewards, rewards.Keys);
    FigureNonNegative(StakersTotal, rewards, rewards.Keys);
    FigureNonNegative(ValidatorsTotal, rewards, rewards.Keys);
    var total := SumValues(TotalAmount, rewards);
    var stakers := SumValues(StakersTotal, rewards);
    var validators := SumValues(ValidatorsTotal, rewards);
    passes := total.Some? && stakers.Some? && validators.Some?
              && Tolerated(total.value, stakers.value, validators.value);
  }

  /** The six loops, with the saturated sums of the entries that have no vote account. */
  method CreditAll(files: RewardFiles, stakeToVote: map<Pubkey, Pubkey>)
    returns (rewards: RewardsMap, unmatchedInflation: u64, unmatchedMev: u64, unmatchedJito: u64)
    ensures rewards == AccountsOf(files, stakeToVote)
    ensures unmatchedInflation == Sat(StakersSum(stakeToVote, files.inflation, None))
    ensures unmatchedMev == Sat(StakersSum(stakeToVote, files.mev, None))
    ensures unmatchedJito == Sat(StakersSum(stakeToVote, files.jito, None))
  {
    rewards, unmatchedInflation := CreditStakers(CreditOf(Inflation), files.inflation, stakeToVote, map[]);
    rewards, unmatchedMev := CreditStakers(CreditOf(Mev), files.mev, stakeToVote, rewards);
    rewards := CreditValidators(CreditOf(Blocks), files.blocks, rewards);
    rewards := CreditValidators(CreditOf(ValidatorsInflation), files.validatorsInflation, rewards);
    rewards := CreditValidators(CreditOf(ValidatorsMev), files.validatorsMev, rewards);
    rewards, unmatchedJito := CreditStakers(CreditOf(JitoPriorityFee), files.jito, stakeToVote, rewards);
    assert rewards == AllCredited(CreditOf, files, stakeToVote);
    LoopsMakeAccounts(files, stakeToVote);
  }

  /** Every stakers' entry with an amount has a vote account. */
  ghost predicate AllMatched(files: RewardFiles, stakeToVote: map<Pubkey, Pubkey>) {
    && StakersSum(stakeToVote, files.inflation, None) == 0
    && StakersSum(stakeToVote, files.mev, None) == 0
    && StakersSum(stakeToVote, files.jito, None) == 0
  }

  /** What an aggregation of these files comes to. */
  ghost function OutcomeOf(files: RewardFiles, metas: seq<StakeMeta>): Outcome {
    var stakeToVote := StakeToVote(metas);
    if !AllMatched(files, stakeToVote) then
      Unmatched(Sat(StakersSum(stakeToVote, files.inflation, None)),
                Sat(StakersSum(stakeToVote, files.mev, None)),
                Sat(StakersSum(stakeToVote, files.jito, None)))
    else if PassesAssertion(AccountsOf(files, stakeToVote)) then Aggregated(AccountsOf(files, stakeToVote))
    else Panicked
  }

  // ------------------------------------------------------- the outcome in terms of the files

  /** Meta `i` is the last of its stake account that has a validator. */
  ghost predicate LastMeta(metas: seq<StakeMeta>, stake: Pubkey, i: nat) {
    && i < |metas| && metas[i].pubkey == stake && metas[i].validator.Some?
    && forall j :: i < j < |metas| && metas[j].pubkey == stake ==> metas[j].validator.None?
  }

  /** The metas give the stake account to `vote`. */
  ghost predicate GivenTo(metas: seq<StakeMeta>, stake: Pubkey, vote: Pubkey) {
    exists i: nat :: LastMeta(metas, stake, i) && metas[i].validator == Some(vote)
  }

  /** No meta gives the stake account a validator. */
  ghost predicate NotGiven(metas: seq<StakeMeta>, stake: Pubkey) {
    forall m :: m in metas && m.pubkey == stake ==> m.validator.None?
  }

  /** A stake account is matched exactly if some meta gives it a validator, and then to the validator of the last. */
  lemma {:induction false} StakeToVoteIsLast(metas: seq<StakeMeta>, stake: Pubkey)
    ensures stake !in StakeToVote(metas) <==> NotGiven(metas, stake)
    ensures forall vote ::
              GivenTo(metas, stake, vote) <==> stake in StakeToVote(metas) && StakeToVote(metas)[stake] == vote
  {
    if metas != [] {
      var front, last := metas[..|metas| - 1], metas[|metas| - 1];
      assert metas == front + [last];
      StakeToVoteIsLast(front, stake);
      if last.pubkey == stake && last.validator.Some? {
        assert last in metas && LastMeta(metas, stake, |front|);
        forall i: nat | LastMeta(metas, stake, i)
          ensures i == |front|
        {
        }
      } else {
        forall i: nat
          ensures LastMeta(metas, stake, i) <==> LastMeta(front, stake, i)
        {
          if LastMeta(front, stake, i) {
            assert forall j :: i < j < |front| ==> metas[j] == front[j];
          }
          if LastMeta(metas, stake, i) {
            assert i != |front|;
            assert forall j :: i < j < |front| ==> metas[j] == front[j];
          }
        }
        forall vote
          ensures GivenTo(metas, stake, vote) <==> GivenTo(front, stake, vote)
        {
          if i: nat :| LastMeta(metas, stake, i) && metas[i].validator == Some(vote) {
            assert LastMeta(front, stake, i) && front[i].validator == Some(vote);
          }
          if i: nat :| LastMeta(front, stake, i) && front[i].validator == Some(vote) {
            assert LastMeta(metas, stake, i) && metas[i].validator == Some(vote);
          }
        }
      }
    }
  }

  /** The amount of an entry whose stake account the metas give to `vote`. */
  ghost function AmountGiven(metas: seq<StakeMeta>, vote: Pubkey): StakeRewardEntry -> int {
    (e: StakeRewardEntry) => if GivenTo(metas, e.stakeAccount, vote) then e.amount else 0
  }

  ghost function AmountNotGiven(metas: seq<StakeMeta>): StakeRewardEntry -> int {
    (e: StakeRewardEntry) => if NotGiven(metas, e.stakeAccount) then e.amount else 0
  }

  function AmountFor(vote: Pubkey): VoteRewardEntry -> int {
    (e: VoteRewardEntry) => if e.voteAccount == vote then e.amount else 0
  }

  lemma {:induction false} StakersSumIs(metas: seq<StakeMeta>, entries: seq<StakeRewardEntry>, vote: Pubkey)
    ensures StakersSum(StakeToVote(metas), entries, Some(vote)) == Sum(AmountGiven(metas, vote), entries)
    ensures StakersSum(StakeToVote(metas), entries, None) == Sum(AmountNotGiven(metas), entries)
  {
    if entries != [] {
      StakeToVoteIsLast(metas, entries[0].stakeAccount);
      StakersSumIs(metas, entries[1..], vote);
    }
  }

  lemma {:induction false} VoteSumIs(entries: seq<VoteRewardEntry>, vote: Pubkey)
    ensures VoteSum(entries, vote) == Sum(AmountFor(vote), entries)
  {
    if entries != [] {
      VoteSumIs(entries[1..], vote);
    }
  }

  /** Sums of entries saturate at 64 bits. */
  function Capped(sum: int): int {
    if sum > 0xFFFF_FFFF_FFFF_FFFF then 0xFFFF_FFFF_FFFF_FFFF else sum
  }

  /** The account of `vote`, figure by figure: what the entries that belong to it add up to. */
  ghost predicate AreFigures(files: RewardFiles, metas: seq<StakeMeta>, vote: Pubkey, r: VoteAccountRewards) {
    var inflation, mev := Sum(AmountGiven(metas, vote), files.inflation), Sum(AmountGiven(metas, vote), files.mev);
    var jito, blocks := Sum(AmountGiven(metas, vote), files.jito), Sum(AmountFor(vote), files.blocks);
    var ownInflation := Sum(AmountFor(vote), files.validatorsInflation);
    var ownMev := Sum(AmountFor(vote), files.validatorsMev);
    && r.voteAccount == vote
    && r.stakersInflationRewards == Capped(inflation) && r.inflationRewards == Capped(inflation + ownInflation)
    && r.stakersMevRewards == Capped(mev) && r.mevRewards == Capped(mev + ownMev)
    && r.stakersPriorityFeeRewards == Capped(jito) && r.jitoPriorityFeeRewards == Capped(jito)
    && r.blockRewards == Capped(blocks)
    && r.stakersTotalAmount == Capped(inflation + mev + jito)
    && r.totalAmount == Capped(inflation + mev + blocks + ownInflation + ownMev)
    && r.validatorsTotalAmount
       == (if jito < Capped(blocks + ownInflation + ownMev) then Capped(blocks + ownInflation + ownMev) - jito else 0)
  }

  /** Some entry belongs to `vote`. */
  ghost predicate HasEntry(files: RewardFiles, metas: seq<StakeMeta>, vote: Pubkey) {
    || (exists e :: e in files.inflation + files.mev + files.jito && GivenTo(metas, e.stakeAccount, vote))
    || (exists e :: e in files.blocks + files.validatorsInflation + files.validatorsMev && e.voteAccount == vote)
  }

  /** `rewards` has an account with these figures for each vote account with an entry. */
  ghost predicate AreAccounts(files: RewardFiles, metas: seq<StakeMeta>, rewards: RewardsMap) {
    && (forall vote :: vote in rewards <==> HasEntry(files, metas, vote))
    && (forall vote :: vote in rewards ==> AreFigures(files, metas, vote, rewards[vote]))
  }

  /** Some stakers' entry with an amount has a stake account that no meta gives a validator. */
  ghost predicate SomeUnmatched(files: RewardFiles, metas: seq<StakeMeta>) {
    exists e :: e in files.inflation + files.mev + files.jito && e.amount > 0 && NotGiven(metas, e.stakeAccount)
  }

  /** What an aggregation comes to, in terms of the files and the metas. */
  ghost predicate IsAggregation(files: RewardFiles, metas: seq<StakeMeta>, outcome: Outcome) {
    match outcome
    case Unmatched(inflation, mev, jito) =>
      && SomeUnmatched(files, metas)
      && inflation == Capped(Sum(AmountNotGiven(metas), files.inflation))
      && mev == Capped(Sum(AmountNotGiven(metas), files.mev))
      && jito == Capped(Sum(AmountNotGiven(metas), files.jito))
    case Aggregated(rewards) =>
      !SomeUnmatched(files, metas) && AreAccounts(files, metas, rewards) && TotalsAgree(rewards)
    case Panicked =>
      && !SomeUnmatched(files, metas)
      && exists rewards :: AreAccounts(files, metas, rewards) && !TotalsAgree(rewards)
  }

  /** The totals fit in 64 bits, and in whole SOL the total and the shares differ by at most one. */
  ghost predicate TotalsAgree(rewards: RewardsMap) {
    var total, stakers, validators := SumOver(TotalAmount, rewards), SumOver(StakersTotal, rewards),
                                      SumOver(ValidatorsTotal, rewards);
    && 0 <= total <= 0xFFFF_FFFF_FFFF_FFFF && 0 <= stakers <= 0xFFFF_FFFF_FFFF_FFFF
    && 0 <= validators <= 0xFFFF_FFFF_FFFF_FFFF
    && var whole, shares := total / 1_000_000_000, stakers / 1_000_000_000 + validators / 1_000_000_000;
       whole == shares || whole == shares + 1 || shares == whole + 1
  }

  lemma AssertionMeans(rewards: RewardsMap)
    ensures PassesAssertion(rewards) <==> TotalsAgree(rewards)
  {
  }

  lemma FiguresAre(files: RewardFiles, metas: seq<StakeMeta>, vote: Pubkey)
    ensures AreFigures(files, metas, vote, AccountOf(vote, TallyOf(files, StakeToVote(metas), vote)))
  {
    StakersSumIs(metas, files.inflation, vote);
    StakersSumIs(metas, files.mev, vote);
    StakersSumIs(metas, files.jito, vote);
    VoteSumIs(files.blocks, vote);
    VoteSumIs(files.validatorsInflation, vote);
    VoteSumIs(files.validatorsMev, vote);
  }

  lemma StakersVotesAre(metas: seq<StakeMeta>, entries: seq<StakeRewardEntry>, vote: Pubkey)
    ensures vote in StakersVotes(StakeToVote(metas), entries)
       <==> exists e :: e in entries && GivenTo(metas, e.stakeAccount, vote)
  {
    forall e | e in entries
      ensures GivenTo(metas, e.stakeAccount, vote)
         <==> e.stakeAccount in StakeToVote(metas) && StakeToVote(metas)[e.stakeAccount] == vote
    {
      StakeToVoteIsLast(metas, e.stakeAccount);
    }
  }

  lemma AccountsAre(files: RewardFiles, metas: seq<StakeMeta>)
    ensures AreAccounts(files, metas, AccountsOf(files, StakeToVote(metas)))
  {
    var rewards := AccountsOf(files, StakeToVote(metas));
    forall vote
      ensures vote in rewards <==> HasEntry(files, metas, vote)
    {
      StakersVotesAre(metas, files.inflation, vote);
      StakersVotesAre(metas, files.mev, vote);
      StakersVotesAre(metas, files.jito, vote);
    }
    forall vote | vote in rewards
      ensures AreFigures(files, metas, vote, rewards[vote])
    {
      FiguresAre(files, metas, vote);
    }
  }

  lemma {:induction false} NothingNotGiven(metas: seq<StakeMeta>, entries: seq<StakeRewardEntry>)
    ensures Sum(AmountNotGiven(metas), entries) >= 0
    ensures Sum(AmountNotGiven(metas), entries) > 0
       <==> exists e :: e in entries && e.amount > 0 && NotGiven(metas, e.stakeAccount)
  {
    if entries != [] {
      NothingNotGiven(metas, entries[1..]);
      assert entries == [entries[0]] + entries[1..];
      assert entries[0] in entries;
    }
  }

  lemma MatchedIff(files: RewardFiles, metas: seq<StakeMeta>)
    ensures AllMatched(files, StakeToVote(metas)) <==> !SomeUnmatched(files, metas)
    ensures forall entries :: entries == files.inflation || entries == files.mev || entries == files.jito ==>
              StakersSum(StakeToVote(metas), entries, None) == Sum(AmountNotGiven(metas), entries)
  {
    var anyVote := seq(32, _ => 0);
    StakersSumIs(metas, files.inflation, anyVote);
    StakersSumIs(metas, files.mev, anyVote);
    StakersSumIs(metas, files.jito, anyVote);
    NothingNotGiven(metas, files.inflation);
    NothingNotGiven(metas, files.mev);
    NothingNotGiven(metas, files.jito);
  }

  lemma OutcomeMeans(files: RewardFiles, metas: seq<StakeMeta>)
    ensures IsAggregation(files, metas, OutcomeOf(files, metas))
  {
    MatchedIff(files, metas);
    AccountsAre(files, metas);
    AssertionMeans(AccountsOf(files, StakeToVote(metas)));
  }

  /** `aggregate_rewards`. */
  method AggregateRewards(files: RewardFiles, metas: seq<StakeMeta>) returns (outcome: Outcome)
    ensures outcome == OutcomeOf(files, metas)
    ensures IsAggregation(files, metas, outcome)
  {
    OutcomeMeans(files, metas);
    var stakeToVote := StakeToVote(metas);
    var rewards, unmatchedInflation, unmatchedMev, unmatchedJito := CreditAll(files, stakeToVote);
    if unmatchedInflation > 0 || unmatchedMev > 0 || unmatchedJito > 0 {
      return Unmatched(unmatchedInflation, unmatchedMev, unmatchedJito);
    }
    var passes := CheckTotals(rewards);
    return if passes then Aggregated(rewards) else Panicked;
  }
}
