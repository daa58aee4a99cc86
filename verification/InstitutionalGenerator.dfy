/** The institutional generator, and its output in terms of stakers and distributors: who gets what. */
module InstitutionalGenerator {
  import opened Wrappers
  import opened Bytes
  import opened Sums
  import opened Sorting
  import opened SettlementCollections
  import opened InstitutionalSettlements

  // ---------------------------------------- the output in terms of stakers and distributors

  /** Pair `i` is the last that lists `account`. */
  ghost predicate LastListed(accounts: seq<(Pubkey, u64)>, account: Pubkey, i: nat) {
    i < |accounts| && accounts[i].0 == account && forall j :: i < j < |accounts| ==> accounts[j].0 != account
  }

  /** Of several pairs for a stake account the last counts. */
  lemma {:induction false} AccountMapIsLast(accounts: seq<(Pubkey, u64)>, account: Pubkey)
    ensures account in AccountMap(accounts) <==> exists i: nat :: LastListed(accounts, account, i)
    ensures forall i: nat :: LastListed(accounts, account, i) ==>
              account in AccountMap(accounts) && AccountMap(accounts)[account] == accounts[i].1
  {
    if accounts != [] {
      var front, last := accounts[..|accounts| - 1], accounts[|accounts| - 1];
      AccountMapIsLast(front, account);
      if last.0 == account {
        assert LastListed(accounts, account, |front|);
      } else {
        forall i: nat
          ensures LastListed(accounts, account, i) <==> LastListed(front, account, i)
        {
        }
      }
    }
  }

  /** A staker whose payout belongs to the claim of these keys for vote account `v`. */
  predicate IsStakerOf(ps: PayoutStaker, v: Pubkey, withdraw: Pubkey, stake: Pubkey) {
    ps.voteAccount == v && ps.withdrawer == withdraw && ps.staker == stake
  }

  function PaidToStaker(v: Pubkey, withdraw: Pubkey, stake: Pubkey): PayoutStaker -> int {
    (ps: PayoutStaker) => if IsStakerOf(ps, v, withdraw, stake) then ps.payoutLamports else 0
  }

  function StakeOfStaker(v: Pubkey, withdraw: Pubkey, stake: Pubkey): PayoutStaker -> int {
    (ps: PayoutStaker) => if IsStakerOf(ps, v, withdraw, stake) then ps.effectiveStake else 0
  }

  /** The stake that a staker of these keys lists for `account`. */
  function StakeListed(v: Pubkey, withdraw: Pubkey, stake: Pubkey, account: Pubkey): PayoutStaker -> int {
    (ps: PayoutStaker) =>
      if IsStakerOf(ps, v, withdraw, stake) && account in AccountMap(ps.stakeAccounts)
      then AccountMap(ps.stakeAccounts)[account] else 0
  }

  /** The DAO's share of a fee in basis points, of a product that saturates at 64 bits; Marinade gets what it leaves. */
  function DaoShare(config: Config, lamports: u64): int {
    var product := lamports * config.daoFeeSplitShareBps;
    (if product > 0xFFFF_FFFF_FFFF_FFFF then 0xFFFF_FFFF_FFFF_FFFF else product) / 10_000
  }

  function MarinadeShare(config: Config, lamports: u64): int {
    if DaoShare(config, lamports) < lamports then lamports - DaoShare(config, lamports) else 0
  }

  predicate IsMarinade(config: Config, withdraw: Pubkey, stake: Pubkey) {
    withdraw == config.marinadeWithdrawAuthority && stake == config.marinadeStakeAuthority
  }

  predicate IsDao(config: Config, withdraw: Pubkey, stake: Pubkey) {
    withdraw == config.daoWithdrawAuthority && stake == config.daoStakeAuthority
  }

  /** What the fee of a distributor of `v` pays to these keys: both shares if Marinade and the DAO have the
      same. */
  function PaidAsFee(config: Config, v: Pubkey, withdraw: Pubkey, stake: Pubkey): PayoutDistributor -> int {
    (d: PayoutDistributor) =>
      (if d.voteAccount == v && IsMarinade(config, withdraw, stake) then MarinadeShare(config, d.payoutLamports) else 0)
      + (if d.voteAccount == v && IsDao(config, withdraw, stake) then DaoShare(config, d.payoutLamports) else 0)
  }

  function PaidToStakersOf(v: Pubkey): PayoutStaker -> int {
    (ps: PayoutStaker) => if ps.voteAccount == v then ps.payoutLamports else 0
  }

  function PaidAsFeesOf(config: Config, v: Pubkey): PayoutDistributor -> int {
    (d: PayoutDistributor) =>
      if d.voteAccount == v then MarinadeShare(config, d.payoutLamports) + DaoShare(config, d.payoutLamports) else 0
  }

  ghost predicate HasStaker(stakers: seq<PayoutStaker>, v: Pubkey, withdraw: Pubkey, stake: Pubkey) {
    exists ps :: ps in stakers && IsStakerOf(ps, v, withdraw, stake)
  }

  ghost predicate HasDistributor(distributors: seq<PayoutDistributor>, v: Pubkey) {
    exists d :: d in distributors && d.voteAccount == v
  }

  /** `accounts` adds up what the stakers of these keys list. */
  ghost predicate AreListed(stakers: seq<PayoutStaker>, v: Pubkey, withdraw: Pubkey, stake: Pubkey,
                            accounts: map<Pubkey, u64>) {
    forall a ::
      && (a in accounts <==>
            exists ps :: ps in stakers && IsStakerOf(ps, v, withdraw, stake) && a in AccountMap(ps.stakeAccounts))
      && (a in accounts ==> accounts[a] == Sum(StakeListed(v, withdraw, stake, a), stakers))
  }

  /** A claim of vote account `v` pays what its keys are owed: a staker's claim what the stakers with these keys are to
      be paid, a fee claim the shares of `v`'s fees. */
  ghost predicate IsOwed(config: Config, stakers: seq<PayoutStaker>, distributors: seq<PayoutDistributor>, v: Pubkey,
                         c: SettlementClaim) {
    var withdraw, stake := c.withdrawAuthority, c.stakeAuthority;
    match c.detail
    case StakerPayout(active, activating, accounts) =>
      && HasStaker(stakers, v, withdraw, stake)
      && c.claimAmount == Sum(PaidToStaker(v, withdraw, stake), stakers)
      && active == Sum(StakeOfStaker(v, withdraw, stake), stakers) && activating == 0
      && AreListed(stakers, v, withdraw, stake, accounts)
    case FeeDeposit =>
      && HasDistributor(distributors, v) && (IsMarinade(config, withdraw, stake) || IsDao(config, withdraw, stake))
      && c.claimAmount == Sum(PaidAsFee(config, v, withdraw, stake), distributors)
    case Marker => false
  }

  /** Claims come by the bytes of withdraw and stake authority, then by amount, then stakers before fees. */
  predicate ClaimPrecedes(a: SettlementClaim, b: SettlementClaim) {
    var x, y := a.withdrawAuthority + a.stakeAuthority, b.withdrawAuthority + b.stakeAuthority;
    if x != y then LexLe(x, y)
    else a.claimAmount < b.claimAmount
         || (a.claimAmount == b.claimAmount && a.detail.StakerPayout? && !b.detail.StakerPayout?)
  }

  ghost predicate HasClaimFor(st: Settlement, withdraw: Pubkey, stake: Pubkey, staker: bool) {
    exists c :: c in st.claims && c.withdrawAuthority == withdraw && c.stakeAuthority == stake
      && (c.detail.StakerPayout? <==> staker)
  }

  /** The settlement of one vote account: each of its stakers, Marinade and the DAO have a claim to what they are owed,
      and nobody has two. */
  ghost predicate Settles(config: Config, stakers: seq<PayoutStaker>, distributors: seq<PayoutDistributor>,
                          st: Settlement) {
    var v := st.voteAccount;
    && st.funder == config.funder && st.claimsCount == |st.claims|
    && st.claimsAmount == Sum(PaidToStakersOf(v), stakers) + Sum(PaidAsFeesOf(config, v), distributors)
    && (forall c :: c in st.claims ==> IsOwed(config, stakers, distributors, v, c))
    && (forall i, j :: 0 <= i < j < |st.claims| ==> ClaimPrecedes(st.claims[i], st.claims[j]))
    && (forall ps :: ps in stakers && ps.voteAccount == v ==> HasClaimFor(st, ps.withdrawer, ps.staker, true))
    && (HasDistributor(distributors, v) ==>
          && HasClaimFor(st, config.marinadeWithdrawAuthority, config.marinadeStakeAuthority, false)
          && HasClaimFor(st, config.daoWithdrawAuthority, config.daoStakeAuthority, false))
  }

  ghost predicate IsConcerned(stakers: seq<PayoutStaker>, distributors: seq<PayoutDistributor>, v: Pubkey) {
    (exists ps :: ps in stakers && ps.voteAccount == v) || HasDistributor(distributors, v)
  }

  ghost predicate HasSettlement(sts: seq<Settlement>, v: Pubkey) {
    exists st :: st in sts && st.voteAccount == v
  }

  /** Who gets what: a settlement for each vote account of a staker or a distributor, by the bytes of vote accounts. */
  ghost predicate PaysOut(config: Config, stakers: seq<PayoutStaker>, distributors: seq<PayoutDistributor>,
                          sts: seq<Settlement>) {
    && (forall i, j :: 0 <= i < j < |sts| ==>
          LexLe(sts[i].voteAccount, sts[j].voteAccount) && sts[i].voteAccount != sts[j].voteAccount)
    && (forall st :: st in sts ==>
          Settles(config, stakers, distributors, st) && IsConcerned(stakers, distributors, st.voteAccount))
    && (forall ps :: ps in stakers ==> HasSettlement(sts, ps.voteAccount))
    && (forall d :: d in distributors ==> HasSettlement(sts, d.voteAccount))
  }

  /** The sums that the code checks for overflow. */
  ghost predicate AmountsFit(config: Config, stakers: seq<PayoutStaker>, distributors: seq<PayoutDistributor>) {
    && (forall v :: Sum(PaidToStakersOf(v), stakers) + Sum(PaidAsFeesOf(config, v), distributors) <= U64_MAX)
    && (forall v, withdraw, stake :: Sum(StakeOfStaker(v, withdraw, stake), stakers) <= U64_MAX)
  }

  lemma SharesAre(config: Config, lamports: u64)
    ensures DaoPayout(config, lamports) == DaoShare(config, lamports)
    ensures MarinadePayout(config, lamports) == MarinadeShare(config, lamports)
  {
  }

  lemma {:induction false} KeySumOfStakers<K>(key: Payout -> K, f: Payout -> int, g: PayoutStaker -> int, k: K,
                                              stakers: seq<PayoutStaker>)
    requires forall ps :: g(ps) == if key(StakerPayoutOf()(ps)) == k then f(StakerPayoutOf()(ps)) else 0
    ensures KeySum(key, f, k, StakerPayouts(stakers)) == Sum(g, stakers)
  {
    if stakers != [] {
      KeySumOfStakers(key, f, g, k, stakers[1..]);
      assert StakerPayouts(stakers)[1..] == StakerPayouts(stakers[1..]);
    }
  }

  lemma {:induction false} KeySumOfFees<K>(config: Config, key: Payout -> K, f: Payout -> int,
                                           g: PayoutDistributor -> int, k: K, distributors: seq<PayoutDistributor>)
    requires forall d :: g(d) == KeySum(key, f, k, FeePayouts(config)(d))
    ensures KeySum(key, f, k, FlatMap(FeePayouts(config), distributors)) == Sum(g, distributors)
  {
    if distributors != [] {
      KeySumOfFees(config, key, f, g, k, distributors[1..]);
      KeySumConcat(key, f, k, FeePayouts(config)(distributors[0]), FlatMap(FeePayouts(config), distributors[1..]));
    }
  }

  lemma KeySumOfPair<K>(key: Payout -> K, f: Payout -> int, k: K, p: Payout, q: Payout)
    ensures KeySum(key, f, k, [p, q]) == (if key(p) == k then f(p) else 0) + (if key(q) == k then f(q) else 0)
  {
    assert [p, q] == [p] + [q] && [p][1..] == [];
    KeySumSnoc(key, f, k, [p], q);
  }

  lemma KeySumOfPayouts<K>(config: Config, stakers: seq<PayoutStaker>, distributors: seq<PayoutDistributor>,
                           key: Payout -> K, f: Payout -> int, g: PayoutStaker -> int, h: PayoutDistributor -> int,
                           k: K)
    requires forall ps :: g(ps) == if key(StakerPayoutOf()(ps)) == k then f(StakerPayoutOf()(ps)) else 0
    requires forall d :: h(d) == KeySum(key, f, k, FeePayouts(config)(d))
    ensures KeySum(key, f, k, Payouts(config, stakers, distributors)) == Sum(g, stakers) + Sum(h, distributors)
  {
    KeySumConcat(key, f, k, StakerPayouts(stakers), FlatMap(FeePayouts(config), distributors));
    KeySumOfStakers(key, f, g, k, stakers);
    KeySumOfFees(config, key, f, h, k, distributors);
  }

  function NoFee(): PayoutDistributor -> int {
    (d: PayoutDistributor) => 0
  }

  function NoStaker(): PayoutStaker -> int {
    (ps: PayoutStaker) => 0
  }

  lemma {:induction false} SumOfNothing<T>(f: T -> int, xs: seq<T>)
    requires forall x :: f(x) == 0
    ensures Sum(f, xs) == 0
  {
    if xs != [] {
      SumOfNothing(f, xs[1..]);
    }
  }

  /** Of a staker's claim id only stakers count. */
  lemma StakerSums(config: Config, stakers: seq<PayoutStaker>, distributors: seq<PayoutDistributor>, v: Pubkey,
                   withdraw: Pubkey, stake: Pubkey)
    ensures var id, payouts := ClaimId(v, SettlementKey(withdraw, stake), true), Payouts(config, stakers, distributors);
            && KeySum(IdOf(), Lamports(), id, payouts) == Sum(PaidToStaker(v, withdraw, stake), stakers)
            && KeySum(IdOf(), Stake(), id, payouts) == Sum(StakeOfStaker(v, withdraw, stake), stakers)
            && forall a :: KeySum(IdOf(), StakeIn(a), id, payouts) == Sum(StakeListed(v, withdraw, stake, a), stakers)
  {
    var id := ClaimId(v, SettlementKey(withdraw, stake), true);
    SumOfNothing(NoFee(), distributors);
    NoFeeForStakers(config, id, Lamports());
    KeySumOfPayouts(config, stakers, distributors, IdOf(), Lamports(), PaidToStaker(v, withdraw, stake), NoFee(), id);
    NoFeeForStakers(config, id, Stake());
    KeySumOfPayouts(config, stakers, distributors, IdOf(), Stake(), StakeOfStaker(v, withdraw, stake), NoFee(), id);
    forall a
      ensures KeySum(IdOf(), StakeIn(a), id, Payouts(config, stakers, distributors))
           == Sum(StakeListed(v, withdraw, stake, a), stakers)
    {
      NoFeeForStakers(config, id, StakeIn(a));
      KeySumOfPayouts(config, stakers, distributors, IdOf(), StakeIn(a), StakeListed(v, withdraw, stake, a), NoFee(),
                      id);
    }
  }

  lemma NoFeeForStakers(config: Config, id: ClaimId, f: Payout -> int)
    requires id.isStaker
    ensures forall d :: KeySum(IdOf(), f, id, FeePayouts(config)(d)) == 0
  {
    forall d
      ensures KeySum(IdOf(), f, id, FeePayouts(config)(d)) == 0
    {
      var pair := FeePayouts(config)(d);
      KeySumOfPair(IdOf(), f, id, pair[0], pair[1]);
      assert pair == [pair[0], pair[1]];
    }
  }

  /** Of a fee's claim id only distributors count. */
  lemma FeeSum(config: Config, stakers: seq<PayoutStaker>, distributors: seq<PayoutDistributor>, v: Pubkey,
               withdraw: Pubkey, stake: Pubkey)
    ensures KeySum(IdOf(), Lamports(), ClaimId(v, SettlementKey(withdraw, stake), false),
                   Payouts(config, stakers, distributors))
         == Sum(PaidAsFee(config, v, withdraw, stake), distributors)
  {
    var id := ClaimId(v, SettlementKey(withdraw, stake), false);
    SumOfNothing(NoStaker(), stakers);
    forall d
      ensures PaidAsFee(config, v, withdraw, stake)(d) == KeySum(IdOf(), Lamports(), id, FeePayouts(config)(d))
    {
      var pair := FeePayouts(config)(d);
      KeySumOfPair(IdOf(), Lamports(), id, pair[0], pair[1]);
      assert pair == [pair[0], pair[1]];
      SharesAre(config, d.payoutLamports);
    }
    KeySumOfPayouts(config, stakers, distributors, IdOf(), Lamports(), NoStaker(),
                    PaidAsFee(config, v, withdraw, stake), id);
  }

  lemma VoteSum(config: Config, stakers: seq<PayoutStaker>, distributors: seq<PayoutDistributor>, v: Pubkey)
    ensures KeySum(VoteOf(), Lamports(), v, Payouts(config, stakers, distributors))
         == Sum(PaidToStakersOf(v), stakers) + Sum(PaidAsFeesOf(config, v), distributors)
  {
    forall d
      ensures PaidAsFeesOf(config, v)(d) == KeySum(VoteOf(), Lamports(), v, FeePayouts(config)(d))
    {
      var pair := FeePayouts(config)(d);
      KeySumOfPair(VoteOf(), Lamports(), v, pair[0], pair[1]);
      assert pair == [pair[0], pair[1]];
      SharesAre(config, d.payoutLamports);
    }
    KeySumOfPayouts(config, stakers, distributors, VoteOf(), Lamports(), PaidToStakersOf(v), PaidAsFeesOf(config, v),
                    v);
  }

  /** Payouts are those of stakers and the two of each distributor. */
  lemma PayoutFrom(config: Config, stakers: seq<PayoutStaker>, distributors: seq<PayoutDistributor>, p: Payout)
    ensures p in Payouts(config, stakers, distributors)
       <==> (exists ps :: ps in stakers && StakerPayoutOf()(ps) == p)
            || (exists d :: d in distributors && p in FeePayouts(config)(d))
  {
    FlatMapMembers(FeePayouts(config), distributors, p);
    if ps :| ps in stakers && StakerPayoutOf()(ps) == p {
      var i :| 0 <= i < |stakers| && stakers[i] == ps;
      assert StakerPayouts(stakers)[i] == p;
    }
    if p in StakerPayouts(stakers) {
      var i :| 0 <= i < |stakers| && StakerPayouts(stakers)[i] == p;
      assert stakers[i] in stakers;
    }
  }

  lemma SumsFitMeans(config: Config, stakers: seq<PayoutStaker>, distributors: seq<PayoutDistributor>)
    ensures SumsFit(Payouts(config, stakers, distributors)) <==> AmountsFit(config, stakers, distributors)
  {
    var payouts := Payouts(config, stakers, distributors);
    forall v
      ensures KeySum(VoteOf(), Lamports(), v, payouts)
           == Sum(PaidToStakersOf(v), stakers) + Sum(PaidAsFeesOf(config, v), distributors)
    {
      VoteSum(config, stakers, distributors, v);
    }
    forall v, withdraw, stake
      ensures KeySum(IdOf(), Stake(), ClaimId(v, SettlementKey(withdraw, stake), true), payouts)
           == Sum(StakeOfStaker(v, withdraw, stake), stakers)
    {
      StakerSums(config, stakers, distributors, v, withdraw, stake);
    }
    forall id: ClaimId
      ensures KeySum(IdOf(), Stake(), id, payouts)
           == if id.isStaker then Sum(StakeOfStaker(id.voteAccount, id.key.withdrawAuthority, id.key.stakeAuthority),
                                      stakers)
              else 0
    {
      if id.isStaker {
        assert id == ClaimId(id.voteAccount, SettlementKey(id.key.withdrawAuthority, id.key.stakeAuthority), true);
      } else {
        FeeIdsHaveNoStake(config, stakers, distributors, id);
      }
    }
  }

  lemma FeeIdsHaveNoStake(config: Config, stakers: seq<PayoutStaker>, distributors: seq<PayoutDistributor>, id: ClaimId)
    requires !id.isStaker
    ensures KeySum(IdOf(), Stake(), id, Payouts(config, stakers, distributors)) == 0
  {
    forall d
      ensures NoFee()(d) == KeySum(IdOf(), Stake(), id, FeePayouts(config)(d))
    {
      var pair := FeePayouts(config)(d);
      KeySumOfPair(IdOf(), Stake(), id, pair[0], pair[1]);
      assert pair == [pair[0], pair[1]];
    }
    KeySumOfPayouts(config, stakers, distributors, IdOf(), Stake(), NoStaker(), NoFee(), id);
    SumOfNothing(NoStaker(), stakers);
    SumOfNothing(NoFee(), distributors);
  }

  lemma ClaimIsOwed(config: Config, stakers: seq<PayoutStaker>, distributors: seq<PayoutDistributor>, v: Pubkey,
                    c: SettlementClaim)
    requires IsClaimFor(Payouts(config, stakers, distributors), ClaimIdOf(v, c), c)
    ensures IsOwed(config, stakers, distributors, v, c)
  {
    var payouts, id := Payouts(config, stakers, distributors), ClaimIdOf(v, c);
    var withdraw, stake := c.withdrawAuthority, c.stakeAuthority;
    var p :| p in payouts && IdOf()(p) == id;
    PayoutFrom(config, stakers, distributors, p);
    if c.detail.StakerPayout? {
      StakerSums(config, stakers, distributors, v, withdraw, stake);
      forall a
        ensures HasAccount(payouts, id, a) <==>
                  exists ps :: ps in stakers && IsStakerOf(ps, v, withdraw, stake) && a in AccountMap(ps.stakeAccounts)
      {
        AccountListed(config, stakers, distributors, v, withdraw, stake, a);
      }
    } else {
      FeeSum(config, stakers, distributors, v, withdraw, stake);
    }
  }

  lemma AccountListed(config: Config, stakers: seq<PayoutStaker>, distributors: seq<PayoutDistributor>, v: Pubkey,
                      withdraw: Pubkey, stake: Pubkey, a: Pubkey)
    ensures HasAccount(Payouts(config, stakers, distributors), ClaimId(v, SettlementKey(withdraw, stake), true), a)
       <==> exists ps :: ps in stakers && IsStakerOf(ps, v, withdraw, stake) && a in AccountMap(ps.stakeAccounts)
  {
    var payouts, id := Payouts(config, stakers, distributors), ClaimId(v, SettlementKey(withdraw, stake), true);
    if HasAccount(payouts, id, a) {
      var p :| p in payouts && IdOf()(p) == id && a in p.stakeAccounts;
      PayoutFrom(config, stakers, distributors, p);
      var ps :| ps in stakers && StakerPayoutOf()(ps) == p;
      assert IsStakerOf(ps, v, withdraw, stake);
    }
    if ps :| ps in stakers && IsStakerOf(ps, v, withdraw, stake) && a in AccountMap(ps.stakeAccounts) {
      var p := StakerPayoutOf()(ps);
      PayoutFrom(config, stakers, distributors, p);
      assert p in payouts && IdOf()(p) == id && a in p.stakeAccounts;
    }
  }

  lemma OrderIsByBytes(a: SettlementClaim, b: SettlementClaim)
    requires ClaimOrder()(a, b) && !ClaimOrder()(b, a)
    ensures ClaimPrecedes(a, b)
  {
    LexOfConcat(a.withdrawAuthority, a.stakeAuthority, b.withdrawAuthority, b.stakeAuthority);
    KeyAmountLeTotal(KeyOf(a), a.claimAmount, KeyOf(b), b.claimAmount);
    assert (a.withdrawAuthority + a.stakeAuthority)[..32] == a.withdrawAuthority;
    assert (b.withdrawAuthority + b.stakeAuthority)[..32] == b.withdrawAuthority;
    assert (a.withdrawAuthority + a.stakeAuthority)[32..] == a.stakeAuthority;
    assert (b.withdrawAuthority + b.stakeAuthority)[32..] == b.stakeAuthority;
  }

  lemma HasClaimOf(config: Config, stakers: seq<PayoutStaker>, distributors: seq<PayoutDistributor>, st: Settlement,
                   p: Payout)
    requires IsSettlementFor(config, Payouts(config, stakers, distributors), st.voteAccount, st)
    requires p in Payouts(config, stakers, distributors) && p.voteAccount == st.voteAccount
    ensures HasClaimFor(st, p.withdrawer, p.staker, p.kind.Staker?)
  {
    var i :| 0 <= i < |st.claims| && ClaimIdOf(st.voteAccount, st.claims[i]) == IdOf()(p);
    assert st.claims[i] in st.claims;
  }

  lemma ClaimsOwed(config: Config, stakers: seq<PayoutStaker>, distributors: seq<PayoutDistributor>, st: Settlement)
    requires IsSettlementFor(config, Payouts(config, stakers, distributors), st.voteAccount, st)
    ensures forall c :: c in st.claims ==> IsOwed(config, stakers, distributors, st.voteAccount, c)
    ensures forall i, j :: 0 <= i < j < |st.claims| ==> ClaimPrecedes(st.claims[i], st.claims[j])
  {
    forall c | c in st.claims
      ensures IsOwed(config, stakers, distributors, st.voteAccount, c)
    {
      ClaimIsOwed(config, stakers, distributors, st.voteAccount, c);
    }
    forall i, j | 0 <= i < j < |st.claims|
      ensures ClaimPrecedes(st.claims[i], st.claims[j])
    {
      OrderIsByBytes(st.claims[i], st.claims[j]);
    }
  }

  lemma StakerHasClaim(config: Config, stakers: seq<PayoutStaker>, distributors: seq<PayoutDistributor>,
                       st: Settlement, ps: PayoutStaker)
    requires IsSettlementFor(config, Payouts(config, stakers, distributors), st.voteAccount, st)
    requires ps in stakers && ps.voteAccount == st.voteAccount
    ensures HasClaimFor(st, ps.withdrawer, ps.staker, true)
  {
    var p := StakerPayoutOf()(ps);
    PayoutFrom(config, stakers, distributors, p);
    HasClaimOf(config, stakers, distributors, st, p);
  }

  lemma FeesHaveClaims(config: Config, stakers: seq<PayoutStaker>, distributors: seq<PayoutDistributor>,
                       st: Settlement, d: PayoutDistributor)
    requires IsSettlementFor(config, Payouts(config, stakers, distributors), st.voteAccount, st)
    requires d in distributors && d.voteAccount == st.voteAccount
    ensures HasClaimFor(st, config.marinadeWithdrawAuthority, config.marinadeStakeAuthority, false)
    ensures HasClaimFor(st, config.daoWithdrawAuthority, config.daoStakeAuthority, false)
  {
    var pair := FeePayouts(config)(d);
    assert pair[0] in pair && pair[1] in pair;
    PayoutFrom(config, stakers, distributors, pair[0]);
    PayoutFrom(config, stakers, distributors, pair[1]);
    HasClaimOf(config, stakers, distributors, st, pair[0]);
    HasClaimOf(config, stakers, distributors, st, pair[1]);
  }

  lemma SettlementSettles(config: Config, stakers: seq<PayoutStaker>, distributors: seq<PayoutDistributor>,
                          st: Settlement)
    requires IsSettlementFor(config, Payouts(config, stakers, distributors), st.voteAccount, st)
    ensures Settles(config, stakers, distributors, st)
  {
    VoteSum(config, stakers, distributors, st.voteAccount);
    ClaimsOwed(config, stakers, distributors, st);
    forall ps | ps in stakers && ps.voteAccount == st.voteAccount
      ensures HasClaimFor(st, ps.withdrawer, ps.staker, true)
    {
      StakerHasClaim(config, stakers, distributors, st, ps);
    }
    if d :| d in distributors && d.voteAccount == st.voteAccount {
      FeesHaveClaims(config, stakers, distributors, st, d);
    }
  }

  lemma MemberIsSettlement(config: Config, payouts: seq<Payout>, sts: seq<Settlement>, st: Settlement)
    requires IsOutput(config, payouts, sts) && st in sts
    ensures IsSettlementFor(config, payouts, st.voteAccount, st) && HasKey(VoteOf(), st.voteAccount, payouts)
  {
    assert SettlementTest(config, payouts)(st.voteAccount, st);
  }

  lemma PaidIsConcerned(config: Config, stakers: seq<PayoutStaker>, distributors: seq<PayoutDistributor>, v: Pubkey)
    requires HasKey(VoteOf(), v, Payouts(config, stakers, distributors))
    ensures IsConcerned(stakers, distributors, v)
  {
    var p :| p in Payouts(config, stakers, distributors) && VoteOf()(p) == v;
    PayoutFrom(config, stakers, distributors, p);
  }

  lemma VotesInOrder(config: Config, payouts: seq<Payout>, sts: seq<Settlement>, i: nat, j: nat)
    requires IsOutput(config, payouts, sts) && i < j < |sts|
    ensures LexLe(sts[i].voteAccount, sts[j].voteAccount) && sts[i].voteAccount != sts[j].voteAccount
  {
    assert VoteLe()(sts[i], sts[j]) && !VoteLe()(sts[j], sts[i]);
  }

  lemma EveryVoteSettled(config: Config, stakers: seq<PayoutStaker>, distributors: seq<PayoutDistributor>,
                         sts: seq<Settlement>)
    requires IsOutput(config, Payouts(config, stakers, distributors), sts)
    ensures forall ps :: ps in stakers ==> HasSettlement(sts, ps.voteAccount)
    ensures forall d :: d in distributors ==> HasSettlement(sts, d.voteAccount)
  {
    var payouts := Payouts(config, stakers, distributors);
    forall ps | ps in stakers
      ensures HasSettlement(sts, ps.voteAccount)
    {
      var p := StakerPayoutOf()(ps);
      PayoutFrom(config, stakers, distributors, p);
      assert p in payouts;
    }
    forall d | d in distributors
      ensures HasSettlement(sts, d.voteAccount)
    {
      var p := FeePayouts(config)(d)[0];
      PayoutFrom(config, stakers, distributors, p);
      assert p in payouts;
    }
  }

  /** An output pays out exactly what stakers and distributors are owed. */
  lemma OutputPaysOut(config: Config, stakers: seq<PayoutStaker>, distributors: seq<PayoutDistributor>,
                      sts: seq<Settlement>)
    requires IsOutput(config, Payouts(config, stakers, distributors), sts)
    ensures PaysOut(config, stakers, distributors, sts)
  {
    forall i, j | 0 <= i < j < |sts|
      ensures LexLe(sts[i].voteAccount, sts[j].voteAccount) && sts[i].voteAccount != sts[j].voteAccount
    {
      VotesInOrder(config, Payouts(config, stakers, distributors), sts, i, j);
    }
    forall st | st in sts
      ensures Settles(config, stakers, distributors, st)
      ensures IsConcerned(stakers, distributors, st.voteAccount)
    {
      MemberIsSettlement(config, Payouts(config, stakers, distributors), sts, st);
      SettlementSettles(config, stakers, distributors, st);
      PaidIsConcerned(config, stakers, distributors, st.voteAccount);
    }
    EveryVoteSettled(config, stakers, distributors, sts);
  }

  lemma LongerDoesNotFit(payouts: seq<Payout>, i: nat)
    requires i <= |payouts| && !SumsFit(payouts[..i])
    ensures !SumsFit(payouts)
  {
    assert payouts == payouts[..i] + payouts[i..];
    if SumsFit(payouts) {
      SumsFitPrefix(payouts[..i], payouts[i..]);
    }
  }

  /** `generate_institutional_settlements`: the result is what the payouts require; it panics exactly when a staker's
      stake accounts do not add up or some checked sum does not fit in 64 bits. */
  method Generate(config: Config, stakers: seq<PayoutStaker>, distributors: seq<PayoutDistributor>)
    returns (r: Result<seq<Settlement>, Panic>)
    ensures r.Success?
       <==> (forall ps :: ps in stakers ==> StakeMatches(ps)) && SumsFit(Payouts(config, stakers, distributors))
    ensures r.Success? ==> IsOutput(config, Payouts(config, stakers, distributors), r.value)
    ensures r.Success?
       <==> (forall ps :: ps in stakers ==> StakeMatches(ps)) && AmountsFit(config, stakers, distributors)
    ensures r.Success? ==> PaysOut(config, stakers, distributors, r.value)
  {
    SumsFitMeans(config, stakers, distributors);
    var merged := MergePayouts(config, stakers, distributors);
    if merged.Failure? {
      return Failure(merged.error);
    }
    var payouts := merged.value;
    PayoutsValid(config, stakers, distributors);
    var settlements: map<Pubkey, Settlement> := map[];
    for i := 0 to |payouts|
      invariant Settled(config, payouts[..i], settlements) && SumsFit(payouts[..i])
    {
      assert payouts[..i + 1] == payouts[..i] + [payouts[i]];
      assert forall p :: p in payouts[..i] ==> p in payouts;
      var added := AddPayout(config, payouts[..i], settlements, payouts[i]);
      if added.None? {
        LongerDoesNotFit(payouts, i + 1);
        return Failure(AmountOverflow);
      }
      settlements := added.value;
    }
    assert payouts[..|payouts|] == payouts;
    var values := FinishValues(settlements);
    FinishedIsOutput(config, payouts, settlements, values);
    OutputPaysOut(config, stakers, distributors, Sort(VoteLe(), values));
    r := Success(Sort(VoteLe(), values));
  }
}
